// The byte and string helpers of third-party/src/decomp/tools/utils.c:
// big-endian sign extension, the power-of-two test, the in-place byte-order
// swaps, and the filename helpers. C strings are modelled as `string`
// (without the terminating NUL, which they never contain before the end);
// a pointer that may be NULL is an `Option`.

module DecompUtils {
  import opened Wrappers

  newtype byte = b: int | 0 <= b < 256

  /** read_u16_be: two bytes, most significant first. */
  function ReadU16BE(hi: byte, lo: byte): (v: nat)
    ensures v < 0x1_0000
  {
    hi as nat * 256 + lo as nat
  }

  /** read_s16_be: the 16-bit two's-complement reading of two bytes. */
  function ReadS16BE(buf: seq<byte>): (r: int)
    requires |buf| >= 2
    ensures -0x8000 <= r <= 0x7FFF
    ensures (r - ReadU16BE(buf[0], buf[1])) % 0x1_0000 == 0
    ensures r < 0 <==> buf[0] >= 0x80
  {
    var tmp := ReadU16BE(buf[0], buf[1]);
    if tmp > 0x7FFF then -(0x1_0000 - tmp) else tmp
  }

  /** The two bytes that store a 16-bit signed value, most significant first. */
  function EncodeS16BE(v: int): (buf: seq<byte>)
    requires -0x8000 <= v <= 0x7FFF
    ensures |buf| == 2
  {
    var u := if v < 0 then v + 0x1_0000 else v;
    [(u / 256) as byte, (u % 256) as byte]
  }

  /** Every 16-bit signed value reads back from its encoding. */
  lemma ReadS16RoundTrip(v: int)
    requires -0x8000 <= v <= 0x7FFF
    ensures ReadS16BE(EncodeS16BE(v)) == v
  {
    var u := if v < 0 then v + 0x1_0000 else v;
    assert ReadU16BE((u / 256) as byte, (u % 256) as byte) == u;
  }

  /** Every two bytes are the encoding of what they read as. */
  lemma EncodeS16RoundTrip(buf: seq<byte>)
    requires |buf| == 2
    ensures EncodeS16BE(ReadS16BE(buf)) == buf
  {
    var u := ReadU16BE(buf[0], buf[1]);
    assert u / 256 == buf[0] as int && u % 256 == buf[1] as int;
  }

  function Pow2(k: nat): (p: nat)
    ensures p >= 1
  {
    if k == 0 then 1 else 2 * Pow2(k - 1)
  }

  ghost predicate IsPowerOfTwo(v: nat)
  {
    exists k: nat :: Pow2(k) == v
  }

  /** An odd number times a power of two is itself a power of two only when it is 1. */
  lemma {:induction false} OddTimesPow2(v: nat, s: nat, k: nat)
    requires v % 2 == 1 && Pow2(k) == v * Pow2(s)
    ensures v == 1 && k == s
    decreases s
  {
    if s > 0 && k > 0 {
      assert v * Pow2(s) == 2 * (v * Pow2(s - 1));
      OddTimesPow2(v, s - 1, k - 1);
    }
  }

  /** is_power2 on an unsigned 32-bit value: strip trailing zero bits while
      more than one bit could remain, then test for 1. */
  method IsPower2(val: nat) returns (r: bool)
    requires val < 0x1_0000_0000
    ensures r <==> IsPowerOfTwo(val)
  {
    var v := val;
    ghost var shifts: nat := 0;
    while v % 2 == 0 && v > 1
      invariant val == v * Pow2(shifts)
      decreases v
    {
      v := v / 2;
      shifts := shifts + 1;
    }
    r := v == 1;
    if r {
      assert Pow2(shifts) == val;
    } else if v == 0 {
      assert val == 0;
    } else {
      assert v % 2 == 1;
      if k: nat :| Pow2(k) == val {
        OddTimesPow2(v, shifts, k);
      }
    }
  }

  /** The image of `s` under swap_bytes on its first `n` bytes. */
  function SwappedPairs(s: seq<byte>, n: nat): (r: seq<byte>)
    requires n <= |s| && n % 2 == 0
    ensures |r| == |s|
  {
    seq(|s|, i requires 0 <= i < |s| => if i < n then (if i % 2 == 0 then s[i + 1] else s[i - 1]) else s[i])
  }

  /** Swapping pairs twice restores the bytes. */
  lemma SwappedPairsInvolution(s: seq<byte>, n: nat)
    requires n <= |s| && n % 2 == 0
    ensures SwappedPairs(SwappedPairs(s, n), n) == s
  {
  }

  /** `length` rounded up to whole 16-bit words: the bytes swap_bytes's
      loop, stepping two at a time while its index is below `length`, touches. */
  function PairsCovered(length: nat): (n: nat)
    ensures n % 2 == 0 && length <= n < length + 2
  {
    length + length % 2
  }

  /** `length` rounded up to whole 32-bit words: the bytes reverse_endian's loop touches. */
  function WordsCovered(length: nat): (n: nat)
    ensures n % 4 == 0 && length <= n < length + 4
  {
    length + (4 - length % 4) % 4
  }

  /** swap_bytes's index, once it is no longer below `length`, stands at the covered length. */
  lemma PairsCoveredAtExit(length: nat, i: nat)
    requires length <= i <= PairsCovered(length) && i % 2 == 0
    ensures i == PairsCovered(length)
  {
  }

  /** swap_bytes: exchanges the bytes of each 16-bit word in place. With an
      odd length the last swap also takes the byte just past it. */
  method SwapBytes(data: array<byte>, length: nat)
    requires PairsCovered(length) <= data.Length
    modifies data
    ensures data[..] == SwappedPairs(old(data[..]), PairsCovered(length))
  {
    ghost var n := PairsCovered(length);
    ghost var image := SwappedPairs(old(data[..]), n);
    var i := 0;
    while i < length
      invariant 0 <= i <= n && i % 2 == 0
      invariant forall j :: 0 <= j < i ==> data[j] == image[j]
      invariant forall j :: i <= j < data.Length ==> data[j] == old(data[j])
    {
      assert image[i] == data[i + 1] && image[i + 1] == data[i];
      SwapPairAt(data, i);
      i := i + 2;
    }
    PairsCoveredAtExit(length, i);
    assert data[..] == image;
  }

  /** The body of swap_bytes's loop: the two bytes at `i` exchanged. */
  method SwapPairAt(data: array<byte>, i: nat)
    requires i + 2 <= data.Length
    modifies data
    ensures data[i] == old(data[i + 1]) && data[i + 1] == old(data[i])
    ensures forall j :: 0 <= j < data.Length && j != i && j != i + 1 ==> data[j] == old(data[j])
  {
    var tmp := data[i];
    data[i] := data[i + 1];
    data[i + 1] := tmp;
  }

  /** The index of the byte that trades places with byte i when its 32-bit word is reversed. */
  function WordMirror(i: nat): (m: nat)
    ensures m / 4 == i / 4 && m % 4 == 3 - i % 4
  {
    i - i % 4 + (3 - i % 4)
  }

  /** Inside the word that starts at `w`, the mirror of `j` is counted from the word's end. */
  lemma WordMirrorInWord(w: nat, j: nat)
    requires w % 4 == 0 && w <= j < w + 4
    ensures WordMirror(j) == 2 * w + 3 - j
  {
    assert j % 4 == j - w;
  }

  /** The image of `s` under reverse_endian on its first `n` bytes. */
  function ReversedWords(s: seq<byte>, n: nat): (r: seq<byte>)
    requires n <= |s| && n % 4 == 0
    ensures |r| == |s|
  {
    seq(|s|, i requires 0 <= i < |s| => if i < n then s[WordMirror(i)] else s[i])
  }

  /** Reversing each 32-bit word twice restores the bytes. */
  lemma ReversedWordsInvolution(s: seq<byte>, n: nat)
    requires n <= |s| && n % 4 == 0
    ensures ReversedWords(ReversedWords(s, n), n) == s
  {
  }

  /** A word that starts below a multiple of 4 ends at or before it. */
  lemma WordFits(i: nat, n: nat)
    requires i < n && i % 4 == 0 && n % 4 == 0
    ensures i + 4 <= n
  {
  }

  /** reverse_endian's index, once it is no longer below `length`, stands at the covered length. */
  lemma WordsCoveredAtExit(length: nat, i: nat)
    requires length <= i <= WordsCovered(length) && i % 4 == 0
    ensures i == WordsCovered(length)
  {
  }

  /** Inside a reversed word that starts at `w`, byte `j` comes from the word's other end. */
  lemma ReversedWordsInWord(s: seq<byte>, n: nat, w: nat, j: nat)
    requires n <= |s| && n % 4 == 0 && w % 4 == 0 && w + 4 <= n && w <= j < w + 4
    ensures ReversedWords(s, n)[j] == s[2 * w + 3 - j]
  {
    WordMirrorInWord(w, j);
  }

  /** reverse_endian: reverses the bytes of each 32-bit word in place. When
      the length is not a multiple of 4 the last word runs past it. */
  method ReverseEndian(data: array<byte>, length: nat)
    requires WordsCovered(length) <= data.Length
    modifies data
    ensures data[..] == ReversedWords(old(data[..]), WordsCovered(length))
  {
    ghost var n := WordsCovered(length);
    ghost var image := ReversedWords(old(data[..]), n);
    var i := 0;
    while i < length
      invariant 0 <= i <= n && i % 4 == 0
      invariant forall j :: 0 <= j < i ==> data[j] == image[j]
      invariant forall j :: i <= j < data.Length ==> data[j] == old(data[j])
    {
      WordFits(i, n);
      forall j | i <= j < i + 4
        ensures image[j] == data[2 * i + 3 - j]
      {
        ReversedWordsInWord(old(data[..]), n, i, j);
      }
      ReverseWordAt(data, i);
      i := i + 4;
    }
    WordsCoveredAtExit(length, i);
    assert data[..] == image;
  }

  /** The body of reverse_endian's loop: the four bytes at `i` in reverse order. */
  method ReverseWordAt(data: array<byte>, i: nat)
    requires i + 4 <= data.Length
    modifies data
    ensures forall j :: 0 <= j < data.Length ==>
              data[j] == if i <= j < i + 4 then old(data[2 * i + 3 - j]) else old(data[j])
  {
    var tmp := data[i];
    data[i] := data[i + 3];
    data[i + 3] := tmp;
    tmp := data[i + 1];
    data[i + 1] := data[i + 2];
    data[i + 2] := tmp;
  }

  /** The length of the part of `name` that generate_filename keeps: up to
      its last '.' at an index of 1 or more, or all of it if there is none. */
  function StemLength(name: string): (k: nat)
    ensures k <= |name|
    ensures k == |name| ==> forall i :: 1 <= i < |name| ==> name[i] != '.'
    ensures k < |name| ==> 1 <= k && name[k] == '.' && forall i :: k < i < |name| ==> name[i] != '.'
  {
    LastDotBefore(name, |name|)
  }

  /** The last '.' at an index in [1, bound), or |name| if there is none. */
  function LastDotBefore(name: string, bound: nat): (k: nat)
    requires bound <= |name|
    ensures k <= |name|
    ensures k == |name| ==> forall i :: 1 <= i < bound ==> name[i] != '.'
    ensures k < |name| ==> 1 <= k < bound && name[k] == '.' && forall i :: k < i < bound ==> name[i] != '.'
    decreases bound
  {
    if bound <= 1 then |name|
    else if name[bound - 1] == '.' then bound - 1
    else LastDotBefore(name, bound - 1)
  }

  /** generate_filename: `in_name` without its extension, then '.', then `extension`. */
  method GenerateFilename(inName: string, extension: string) returns (outName: string)
    ensures outName == inName[..StemLength(inName)] + "." + extension
  {
    var len := |inName|;
    var cut := len;
    var i := len - 1;
    while i > 0
      invariant -1 <= i < len
      invariant forall j :: i < j < len ==> inName[j] != '.'
      decreases i
    {
      if inName[i] == '.' {
        cut := i;
        break;
      }
      i := i - 1;
    }
    outName := inName[..cut] + "." + extension;
  }

  /** Giving a non-empty name the same extension twice changes nothing the second time. */
  lemma GenerateFilenameIdempotent(name: string, extension: string)
    requires name != [] && '.' !in extension
    ensures var once := name[..StemLength(name)] + "." + extension;
            once[..StemLength(once)] + "." + extension == once
  {
    var stem := name[..StemLength(name)];
    var once := stem + "." + extension;
    assert once[|stem|] == '.';
    assert forall i :: |stem| < i < |once| ==> once[i] == extension[i - |stem| - 1];
    assert StemLength(once) == |stem|;
  }

  /** Where basename starts the result, as written: after the last '/', or
      at a '\\' that follows some character, whichever comes later. */
  function BaseStartAsWritten(name: string, bound: nat): (j: nat)
    requires bound <= |name|
    ensures j <= bound
    decreases bound
  {
    if bound == 0 then 0
    else if name[bound - 1] == '/' || (bound < |name| && name[bound] == '\\') then bound
    else BaseStartAsWritten(name, bound - 1)
  }

  /** basename as written: the post-increment inside the test moves the
      pointer before the backslash comparison, so a '\\' is found one
      character ahead and the result starts at it. */
  method BasenameAsWritten(name: string) returns (base: nat)
    ensures base == BaseStartAsWritten(name, |name|)
  {
    base := 0;
    var p := 0;
    while p < |name|
      invariant 0 <= p <= |name|
      invariant base == BaseStartAsWritten(name, p)
    {
      var c := name[p];
      p := p + 1;
      if c == '/' || (p < |name| && name[p] == '\\') {
        base := p;
      }
    }
  }

  predicate IsSeparator(c: char)
  {
    c == '/' || c == '\\'
  }

  /** Where the last component starts: just after the last '/' or '\\'. */
  function BaseStart(name: string, bound: nat): (j: nat)
    requires bound <= |name|
    ensures j <= bound
    ensures j > 0 ==> IsSeparator(name[j - 1])
    ensures forall i :: j <= i < bound ==> !IsSeparator(name[i])
    decreases bound
  {
    if bound == 0 then 0
    else if IsSeparator(name[bound - 1]) then bound
    else BaseStart(name, bound - 1)
  }

  /** The last path component, taking either separator. */
  function Basename(name: string): (r: string)
    ensures forall i :: 0 <= i < |r| ==> !IsSeparator(r[i])
    ensures |r| <= |name| && r == name[|name| - |r|..]
    ensures |r| < |name| ==> IsSeparator(name[|name| - |r| - 1])
  {
    name[BaseStart(name, |name|)..]
  }

  /** As written, a backslash separator is kept at the head of the result:
      "a\\b" yields "\\b", where the last component is "b". */
  lemma BasenameKeepsBackslash()
    ensures var name := "a\\b";
            name[BaseStartAsWritten(name, |name|)..] == "\\b" && Basename(name) == "b"
  {
    var name := "a\\b";
    assert BaseStartAsWritten(name, 1) == 1;
    assert BaseStartAsWritten(name, 3) == BaseStartAsWritten(name, 2);
    assert BaseStart(name, 3) == 2;
  }

  /** As written, the result contains no '/' and no '\\' after its first character. */
  lemma {:induction false} BaseStartAsWrittenSkipsSlashes(name: string, bound: nat)
    requires bound <= |name|
    ensures forall i :: BaseStartAsWritten(name, bound) <= i < bound ==> name[i] != '/'
    ensures forall i :: BaseStartAsWritten(name, bound) < i < bound ==> name[i] != '\\'
    decreases bound
  {
    if bound > 0 {
      BaseStartAsWrittenSkipsSlashes(name, bound - 1);
    }
  }

  /** str_ends_with: both strings present and `str` ends with `suffix`. */
  function StrEndsWith(str: Option<string>, suffix: Option<string>): (r: bool)
  {
    str.Some? && suffix.Some? && |suffix.value| <= |str.value| &&
    str.value[|str.value| - |suffix.value|..] == suffix.value
  }

  /** The test holds exactly when `str` is some prefix followed by `suffix`;
      a NULL argument fails, and the empty suffix ends every string. */
  lemma StrEndsWithMeans(str: Option<string>, suffix: Option<string>, prefix: string)
    ensures str.Some? && suffix.Some? && str.value == prefix + suffix.value ==> StrEndsWith(str, suffix)
    ensures StrEndsWith(str, suffix) ==>
      str.Some? && suffix.Some? && str.value == str.value[..|str.value| - |suffix.value|] + suffix.value
    ensures str == None || suffix == None ==> !StrEndsWith(str, suffix)
    ensures str.Some? ==> StrEndsWith(str, Some(""))
  {
    if str.Some? && suffix.Some? && str.value == prefix + suffix.value {
      assert str.value[|str.value| - |suffix.value|..] == suffix.value;
    }
    if StrEndsWith(str, suffix) {
      assert str.value == str.value[..|str.value| - |suffix.value|] + str.value[|str.value| - |suffix.value|..];
    }
  }
}
