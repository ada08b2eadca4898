// Text primitives shared by the Python generators: Python's decimal
// rendering of integers, its int() and float() conversions of strings and
// of reals, and str.split(). Character classes are ASCII.

module Text {
  import opened Wrappers

  predicate IsDigit(c: char)
  {
    '0' <= c <= '9'
  }

  predicate AllDigits(s: string)
  {
    forall i :: 0 <= i < |s| ==> IsDigit(s[i])
  }

  /** The whitespace str.split() and str.strip() remove (its ASCII part). */
  predicate IsSpace(c: char)
  {
    // tab, line feed, vertical tab, form feed, carriage return; the four
    // information separators; space
    (9 <= c as int <= 13) || (28 <= c as int <= 32)
  }

  function DigitChar(d: nat): (c: char)
    requires d < 10
    ensures IsDigit(c)
  {
    "0123456789"[d]
  }

  function DigitValue(c: char): (d: nat)
    requires IsDigit(c)
    ensures d < 10 && DigitChar(d) == c
  {
    (c as int - '0' as int)
  }

  /** The value of a string of decimal digits. */
  function DigitsValue(s: string): nat
    requires AllDigits(s)
    decreases |s|
  {
    if s == [] then 0 else DigitsValue(s[..|s| - 1]) * 10 + DigitValue(s[|s| - 1])
  }

  /** str(n) for a natural number: no sign, no leading zero. */
  function NatToDecimal(n: nat): (s: string)
    ensures s != [] && AllDigits(s)
    ensures s[0] == '0' ==> n == 0 && |s| == 1
  {
    if n < 10 then [DigitChar(n)] else NatToDecimal(n / 10) + [DigitChar(n % 10)]
  }

  lemma {:induction false} NatToDecimalRoundTrip(n: nat)
    ensures DigitsValue(NatToDecimal(n)) == n
    decreases n
  {
    if n >= 10 {
      NatToDecimalRoundTrip(n / 10);
      DigitsValueSnoc(NatToDecimal(n / 10), DigitChar(n % 10));
      DigitCharRoundTrip(n % 10);
    } else {
      DigitCharRoundTrip(n);
    }
  }

  /** One more digit on the right: ten times the value, plus the digit. */
  lemma DigitsValueSnoc(s: string, c: char)
    requires AllDigits(s) && IsDigit(c)
    ensures AllDigits(s + [c])
    ensures DigitsValue(s + [c]) == DigitsValue(s) * 10 + DigitValue(c)
  {
    assert (s + [c])[..|s|] == s;
  }

  /** The digit character of d has value d. */
  lemma DigitCharRoundTrip(d: nat)
    requires d < 10
    ensures DigitValue(DigitChar(d)) == d
  {
  }

  /** str(i) for an integer: a '-' before the digits of a negative one. */
  function IntToDecimal(i: int): (s: string)
    ensures s != []
    ensures forall k :: 0 <= k < |s| ==> IsDigit(s[k]) || (k == 0 && s[k] == '-')
  {
    if i < 0 then "-" + NatToDecimal(-i) else NatToDecimal(i)
  }

  /** int() of a string without surrounding whitespace: an optional sign and
      at least one digit. */
  function ParseInt(s: string): (r: Option<int>)
    ensures r.Some? ==> s != []
  {
    if s == [] then None
    else if s[0] == '-' || s[0] == '+' then
      var digits := s[1..];
      if digits != [] && AllDigits(digits) then
        Some(if s[0] == '-' then -(DigitsValue(digits) as int) else DigitsValue(digits))
      else None
    else if AllDigits(s) then Some(DigitsValue(s))
    else None
  }

  /** A run of digits, with or without a '-' before it, is read by int() as its value. */
  lemma ParseIntOfDigits(d: string)
    requires d != [] && AllDigits(d)
    ensures ParseInt(d) == Some(DigitsValue(d) as int)
    ensures ParseInt("-" + d) == Some(-(DigitsValue(d) as int))
  {
    assert IsDigit(d[0]);
    var m := "-" + d;
    assert m[0] == '-' && m[1..] == d;
  }

  /** Every integer reads back from its decimal rendering. */
  lemma IntDecimalRoundTrip(i: int)
    ensures ParseInt(IntToDecimal(i)) == Some(i)
  {
    var n: nat := if i < 0 then -i else i;
    NatToDecimalRoundTrip(n);
    ParseIntOfDigits(NatToDecimal(n));
  }

  /** int() of a real: the integer part, truncated toward zero. */
  function TruncToInt(r: real): int
  {
    if r >= 0.0 then r.Floor else -((-r).Floor)
  }

  /** The result is the integer next to `r` on the side of zero. */
  lemma TruncToIntBounds(r: real)
    ensures r >= 0.0 ==> 0 <= TruncToInt(r) && TruncToInt(r) as real <= r < TruncToInt(r) as real + 1.0
    ensures r < 0.0 ==> TruncToInt(r) <= 0 && TruncToInt(r) as real - 1.0 < r <= TruncToInt(r) as real
  {
  }

  /** Truncation keeps whole numbers and is odd: int(-x) == -int(x). */
  lemma TruncToIntProperties(r: real, k: int)
    ensures TruncToInt(k as real) == k
    ensures TruncToInt(-r) == -TruncToInt(r)
  {
  }

  function Pow10(n: nat): (p: nat)
    ensures p >= 1
  {
    if n == 0 then 1 else 10 * Pow10(n - 1)
  }

  /** The value of the digits before and after the decimal point. */
  function DecimalMagnitude(whole: string, frac: string): real
    requires AllDigits(whole) && AllDigits(frac)
  {
    DigitsValue(whole) as real + DigitsValue(frac) as real / Pow10(|frac|) as real
  }

  /** float() of a plain decimal: an optional sign, digits, and optionally a
      '.' and more digits, with at least one digit in all. */
  function ParseDecimal(s: string): (r: Option<real>)
  {
    if s != [] && s[0] == '-' then
      match ParseUnsignedDecimal(s[1..])
      case None => None
      case Some(m) => Some(-m)
    else if s != [] && s[0] == '+' then ParseUnsignedDecimal(s[1..])
    else ParseUnsignedDecimal(s)
  }

  /** The digits with an optional decimal point, after the sign. */
  function ParseUnsignedDecimal(body: string): Option<real>
  {
    var dot := IndexOf(body, '.');
    var whole := body[..dot];
    var frac := if dot < |body| then body[dot + 1..] else [];
    if AllDigits(whole) && AllDigits(frac) && |whole| + |frac| > 0 then
      Some(DecimalMagnitude(whole, frac))
    else None
  }

  /** The index of the first `c` in `s`, or |s| if there is none. */
  function IndexOf(s: string, c: char): (k: nat)
    ensures k <= |s|
    ensures k < |s| ==> s[k] == c
    ensures forall i :: 0 <= i < k ==> s[i] != c
  {
    if s == [] then 0 else if s[0] == c then 0 else 1 + IndexOf(s[1..], c)
  }

  /** A run of digits, with or without a '-' before it, is read by float()
      as its value. */
  lemma UnsignedDecimalOfDigits(d: string)
    requires d != [] && AllDigits(d)
    ensures ParseUnsignedDecimal(d) == Some(DigitsValue(d) as real)
  {
    assert '.' !in d;
    assert IndexOf(d, '.') == |d|;
    assert d[..|d|] == d;
    assert DecimalMagnitude(d, []) == DigitsValue(d) as real;
  }

  /** A leading '-' negates what the rest reads as. */
  lemma ParseDecimalNegative(body: string, m: real)
    requires ParseUnsignedDecimal(body) == Some(m)
    ensures ParseDecimal("-" + body) == Some(-m)
  {
    var s := "-" + body;
    assert s[0] == '-' && s[1..] == body;
  }

  /** Without a sign, the whole text is the unsigned part. */
  lemma ParseDecimalUnsigned(body: string, m: real)
    requires body != [] && body[0] != '-' && body[0] != '+'
    requires ParseUnsignedDecimal(body) == Some(m)
    ensures ParseDecimal(body) == Some(m)
  {
  }

  /** A plain integer literal is read by float() as that integer. */
  lemma ParseDecimalOfInt(i: int)
    ensures ParseDecimal(IntToDecimal(i)) == Some(i as real)
  {
    var n: nat := if i < 0 then -i else i;
    var d := NatToDecimal(n);
    NatToDecimalRoundTrip(n);
    UnsignedDecimalOfDigits(d);
    if i < 0 {
      ParseDecimalNegative(d, n as real);
    } else {
      assert IsDigit(d[0]);
      ParseDecimalUnsigned(d, n as real);
    }
  }

  /** s.split('c')[0]: the part of `s` before the first `c`. */
  function FirstField(s: string, c: char): (f: string)
    ensures c !in f && f <= s
    ensures |f| < |s| ==> s[|f|] == c
  {
    s[..IndexOf(s, c)]
  }

  /** str.split() with no separator: the maximal runs of non-whitespace, in order. */
  function SplitWhitespace(s: string): (tokens: seq<string>)
    ensures forall t :: t in tokens ==> t != [] && forall i :: 0 <= i < |t| ==> !IsSpace(t[i])
  {
    SplitFrom(s, [])
  }

  function SplitFrom(s: string, cur: string): (tokens: seq<string>)
    requires forall i :: 0 <= i < |cur| ==> !IsSpace(cur[i])
    ensures forall t :: t in tokens ==> t != [] && forall i :: 0 <= i < |t| ==> !IsSpace(t[i])
    decreases |s|
  {
    if s == [] then (if cur == [] then [] else [cur])
    else if IsSpace(s[0]) then (if cur == [] then [] else [cur]) + SplitFrom(s[1..], [])
    else SplitFrom(s[1..], cur + [s[0]])
  }

  /** Tokens joined by single spaces split back into themselves. */
  lemma {:induction false} SplitJoinRoundTrip(tokens: seq<string>)
    requires forall t :: t in tokens ==> t != [] && forall i :: 0 <= i < |t| ==> !IsSpace(t[i])
    ensures SplitWhitespace(JoinSpaces(tokens)) == tokens
  {
    SplitFromJoin(tokens, []);
  }

  function JoinSpaces(tokens: seq<string>): string
    decreases |tokens|
  {
    if tokens == [] then []
    else if |tokens| == 1 then tokens[0]
    else tokens[0] + " " + JoinSpaces(tokens[1..])
  }

  lemma {:induction false} SplitFromToken(t: string, rest: string, cur: string)
    requires forall i :: 0 <= i < |cur| ==> !IsSpace(cur[i])
    requires forall i :: 0 <= i < |t| ==> !IsSpace(t[i])
    ensures SplitFrom(t + rest, cur) == SplitFrom(rest, cur + t)
    decreases |t|
  {
    if t != [] {
      assert (t + rest)[0] == t[0] && (t + rest)[1..] == t[1..] + rest;
      SplitFromToken(t[1..], rest, cur + [t[0]]);
      assert cur + [t[0]] + t[1..] == cur + t;
    } else {
      assert t + rest == rest && cur + t == cur;
    }
  }

  /** A token followed by a space is split off as the first token. */
  lemma SplitFromFirstToken(t: string, rest: string)
    requires t != [] && forall i :: 0 <= i < |t| ==> !IsSpace(t[i])
    ensures SplitFrom(t + " " + rest, []) == [t] + SplitFrom(rest, [])
  {
    assert t + " " + rest == t + (" " + rest);
    SplitFromToken(t, " " + rest, []);
    assert (" " + rest)[1..] == rest;
    assert [] + t == t;
  }

  lemma {:induction false} SplitFromJoin(tokens: seq<string>, cur: string)
    requires cur == []
    requires forall t :: t in tokens ==> t != [] && forall i :: 0 <= i < |t| ==> !IsSpace(t[i])
    ensures SplitFrom(JoinSpaces(tokens), cur) == tokens
    decreases |tokens|
  {
    if |tokens| == 1 {
      SplitFromToken(tokens[0], [], []);
      assert tokens[0] + [] == tokens[0] && [] + tokens[0] == tokens[0];
      assert SplitFrom([], tokens[0]) == [tokens[0]];
    } else if |tokens| > 1 {
      assert tokens[0] in tokens;
      SplitFromFirstToken(tokens[0], JoinSpaces(tokens[1..]));
      SplitFromJoin(tokens[1..], []);
      assert tokens == [tokens[0]] + tokens[1..];
    }
  }

  /** How many times `c` occurs in `s`. */
  function CountChar(s: string, c: char): nat
    decreases |s|
  {
    if s == [] then 0 else (if s[0] == c then 1 else 0) + CountChar(s[1..], c)
  }

  lemma {:induction false} CountCharAppend(a: string, b: string, c: char)
    ensures CountChar(a + b, c) == CountChar(a, c) + CountChar(b, c)
    decreases |a|
  {
    if a != [] {
      assert (a + b)[1..] == a[1..] + b;
      CountCharAppend(a[1..], b, c);
    } else {
      assert a + b == b;
    }
  }

  predicate StartsWith(s: string, prefix: string)
  {
    prefix <= s
  }

  /** The first `c` in `a + [c] + b` is the one after `a`, if `a` has none. */
  lemma {:induction false} IndexOfAfter(a: string, c: char, b: string)
    requires c !in a
    ensures IndexOf(a + [c] + b, c) == |a|
    decreases |a|
  {
    if a != [] {
      assert (a + [c] + b)[1..] == a[1..] + [c] + b;
      IndexOfAfter(a[1..], c, b);
    }
  }

  /** The C initialiser of an integer vector: "{a,b,c}". */
  function FormatIntTriple(a: int, b: int, c: int): (s: string)
    ensures s != [] && s[0] == '{' && s[|s| - 1] == '}'
  {
    "{" + IntToDecimal(a) + "," + IntToDecimal(b) + "," + IntToDecimal(c) + "}"
  }

  /** Reads "{a,b,c}" back. */
  function ParseIntTriple(s: string): Option<(int, int, int)>
  {
    if |s| < 2 || s[0] != '{' || s[|s| - 1] != '}' then None
    else ParseIntFields(s[1..|s| - 1])
  }

  /** Reads "a,b,c" back: the part before the first comma, the part before
      the next one, and the remainder. */
  function ParseIntFields(inner: string): Option<(int, int, int)>
  {
    var a := FirstField(inner, ',');
    if |a| == |inner| then None
    else
      var rest := inner[|a| + 1..];
      var b := FirstField(rest, ',');
      if |b| == |rest| then None
      else
        var c := rest[|b| + 1..];
        match (ParseInt(a), ParseInt(b), ParseInt(c))
        case (Some(x), Some(y), Some(z)) => Some((x, y, z))
        case _ => None
  }

  /** A decimal rendering holds digits and a leading '-' only. */
  lemma DecimalChars(i: int, c: char)
    requires !IsDigit(c) && c != '-'
    ensures c !in IntToDecimal(i)
  {
    var s := IntToDecimal(i);
    assert forall k :: 0 <= k < |s| ==> s[k] != c;
  }

  lemma {:induction false} CountCharAbsent(s: string, c: char)
    requires c !in s
    ensures CountChar(s, c) == 0
    decreases |s|
  {
    if s != [] {
      CountCharAbsent(s[1..], c);
    }
  }

  /** A text without line breaks followed by one line break is one line. */
  lemma OneLine(text: string)
    requires '\n' !in text
    ensures CountChar(text + "\n", '\n') == 1
  {
    CountCharAbsent(text, '\n');
    CountCharAppend(text, "\n", '\n');
  }

  /** Three newline-free pieces and a newline make one line. */
  lemma OneLineOfThree(a: string, b: string, c: string)
    requires '\n' !in a && '\n' !in b && '\n' !in c
    ensures CountChar(a + b + c + "\n", '\n') == 1
  {
    assert forall k :: 0 <= k < |a + b + c| ==> (a + b + c)[k] in a || (a + b + c)[k] in b || (a + b + c)[k] in c;
    OneLine(a + b + c);
  }

  /** Three fields, the first two without commas, come back out of "a,b,c". */
  lemma CommaFields(sa: string, sb: string, sc: string)
    requires ',' !in sa && ',' !in sb
    ensures var inner := sa + "," + sb + "," + sc;
            var rest := inner[|sa| + 1..];
            |sa| < |inner| && FirstField(inner, ',') == sa && rest == sb + "," + sc &&
            |sb| < |rest| && FirstField(rest, ',') == sb && rest[|sb| + 1..] == sc
  {
    var inner := sa + "," + sb + "," + sc;
    assert inner == sa + [','] + (sb + "," + sc);
    IndexOfAfter(sa, ',', sb + "," + sc);
    var rest := sb + "," + sc;
    assert inner[|sa| + 1..] == rest;
    assert rest == sb + [','] + sc;
    IndexOfAfter(sb, ',', sc);
  }

  /** A braced triple of comma-free fields that each parse reads back as their values. */
  lemma ParseBracedTriple(sa: string, sb: string, sc: string)
    requires ',' !in sa && ',' !in sb
    requires ParseInt(sa).Some? && ParseInt(sb).Some? && ParseInt(sc).Some?
    ensures ParseIntTriple("{" + sa + "," + sb + "," + sc + "}") ==
            Some((ParseInt(sa).value, ParseInt(sb).value, ParseInt(sc).value))
  {
    var s := "{" + sa + "," + sb + "," + sc + "}";
    assert s[0] == '{' && s[|s| - 1] == '}';
    assert s[1..|s| - 1] == sa + "," + sb + "," + sc;
    ParseCommaFields(sa, sb, sc);
  }

  lemma ParseCommaFields(sa: string, sb: string, sc: string)
    requires ',' !in sa && ',' !in sb
    requires ParseInt(sa).Some? && ParseInt(sb).Some? && ParseInt(sc).Some?
    ensures ParseIntFields(sa + "," + sb + "," + sc) ==
            Some((ParseInt(sa).value, ParseInt(sb).value, ParseInt(sc).value))
  {
    CommaFields(sa, sb, sc);
  }

  /** Every integer vector reads back from its initialiser. */
  lemma IntTripleRoundTrip(a: int, b: int, c: int)
    ensures ParseIntTriple(FormatIntTriple(a, b, c)) == Some((a, b, c))
  {
    DecimalChars(a, ',');
    DecimalChars(b, ',');
    IntDecimalRoundTrip(a);
    IntDecimalRoundTrip(b);
    IntDecimalRoundTrip(c);
    ParseBracedTriple(IntToDecimal(a), IntToDecimal(b), IntToDecimal(c));
  }

  /** sep.join(parts) for a one-character separator. */
  function JoinWith(parts: seq<string>, sep: char): string
    decreases |parts|
  {
    if parts == [] then []
    else if |parts| == 1 then parts[0]
    else parts[0] + [sep] + JoinWith(parts[1..], sep)
  }

  /** s.split(sep): the pieces between the separators, at least one. */
  function SplitOn(s: string, sep: char): (parts: seq<string>)
    ensures |parts| >= 1
    ensures forall p :: p in parts ==> sep !in p
    decreases |s|
  {
    var k := IndexOf(s, sep);
    if k == |s| then [s] else [s[..k]] + SplitOn(s[k + 1..], sep)
  }

  /** Pieces without the separator split back out of their join. */
  lemma {:induction false} SplitJoinWith(parts: seq<string>, sep: char)
    requires parts != []
    requires forall p :: p in parts ==> sep !in p
    ensures SplitOn(JoinWith(parts, sep), sep) == parts
    decreases |parts|
  {
    if |parts| == 1 {
      assert sep !in parts[0];
      assert IndexOf(parts[0], sep) == |parts[0]|;
    } else {
      assert parts[0] in parts;
      SplitOnFirst(parts[0], sep, JoinWith(parts[1..], sep));
      SplitJoinWith(parts[1..], sep);
      assert parts == [parts[0]] + parts[1..];
    }
  }

  /** A piece without the separator, then the separator, splits off first. */
  lemma SplitOnFirst(first: string, sep: char, rest: string)
    requires sep !in first
    ensures SplitOn(first + [sep] + rest, sep) == [first] + SplitOn(rest, sep)
  {
    IndexOfAfter(first, sep, rest);
    var s := first + [sep] + rest;
    assert s[..|first|] == first;
    assert s[|first| + 1..] == rest;
  }

  lemma {:induction false} JoinWithAppend(a: seq<string>, b: seq<string>, sep: char)
    requires a != [] && b != []
    ensures JoinWith(a + b, sep) == JoinWith(a, sep) + [sep] + JoinWith(b, sep)
    decreases |a|
  {
    if |a| == 1 {
      assert (a + b)[1..] == b;
    } else {
      assert (a + b)[1..] == a[1..] + b;
      JoinWithAppend(a[1..], b, sep);
    }
  }

  lemma MulSucc(k: nat, n: nat)
    ensures k * (n + 1) == k + k * n
  {
  }

  /** When every piece holds `k` copies of a character other than the
      separator, the join holds k per piece. */
  lemma {:induction false} CountCharJoinWith(parts: seq<string>, sep: char, c: char, k: nat)
    requires c != sep
    requires forall p :: p in parts ==> CountChar(p, c) == k
    ensures CountChar(JoinWith(parts, sep), c) == k * |parts|
    decreases |parts|
  {
    if |parts| == 1 {
      assert parts[0] in parts;
    } else if |parts| > 1 {
      var first, tail := parts[0], parts[1..];
      assert first in parts;
      assert forall p :: p in tail ==> p in parts;
      CountCharJoinWith(tail, sep, c, k);
      var rest := JoinWith(tail, sep);
      CountCharAppend(first + [sep], rest, c);
      CountCharAppend(first, [sep], c);
      assert CountChar([sep], c) == 0;
      MulSucc(k, |tail|);
    }
  }

  function StripLeading(s: string): (r: string)
    ensures |r| <= |s| && r == s[|s| - |r|..]
    ensures r == [] || !IsSpace(r[0])
    decreases |s|
  {
    if s != [] && IsSpace(s[0]) then StripLeading(s[1..]) else s
  }

  function StripTrailing(s: string): (r: string)
    ensures r <= s
    ensures r == [] || !IsSpace(r[|r| - 1])
    ensures s != [] && !IsSpace(s[0]) ==> r != [] && r[0] == s[0]
    decreases |s|
  {
    if s != [] && IsSpace(s[|s| - 1]) then StripTrailing(s[..|s| - 1]) else s
  }

  /** str.strip(): `s` without its leading and trailing whitespace. */
  function Strip(s: string): (r: string)
    ensures r == [] || (!IsSpace(r[0]) && !IsSpace(r[|r| - 1]))
  {
    StripTrailing(StripLeading(s))
  }

  /** int() of a string: surrounding whitespace is ignored. */
  function PythonInt(s: string): Option<int>
  {
    ParseInt(Strip(s))
  }

  /** A string with no whitespace at either end is left alone by strip(). */
  lemma StripKeeps(s: string)
    requires s == [] || (!IsSpace(s[0]) && !IsSpace(s[|s| - 1]))
    ensures Strip(s) == s
  {
  }

  /** int() reads back every rendered integer. */
  lemma PythonIntRoundTrip(i: int)
    ensures PythonInt(IntToDecimal(i)) == Some(i)
  {
    var s := IntToDecimal(i);
    assert !IsSpace(s[0]) && !IsSpace(s[|s| - 1]);
    StripKeeps(s);
    IntDecimalRoundTrip(i);
  }
}
