// goal_src/arrayprinter.py: writes an OpenGOAL static inline array of
// `count` empty vectors, and the console front end that reads the count.
// The prompt and the reading of a line are I/O; the line read is an input.

module ArrayPrinter {
  import opened Wrappers
  import opened Text

  const VectorLine: string := "  (new 'static 'vector)"

  const HeaderPrefix: string := "(new 'static 'inline-array vector "

  /** The first line: the array form and its element count. */
  function Header(count: int): string
  {
    HeaderPrefix + IntToDecimal(count)
  }

  function Repeat(s: string, n: nat): (r: seq<string>)
    ensures |r| == n && forall i :: 0 <= i < n ==> r[i] == s
  {
    seq(n, _ => s)
  }

  /** generate_inline_array: the header, a line break, the vector lines
      joined by line breaks (none when count <= 0, as range(count) is empty),
      and the closing line. */
  function GenerateInlineArray(count: int): string
  {
    Header(count) + "\n" + JoinWith(Repeat(VectorLine, if count > 0 then count else 0), '\n') + "\n)"
  }

  /** The lines of the text, before it is joined. */
  function InlineArrayParts(count: int): seq<string>
  {
    [Header(count)] + (if count > 0 then Repeat(VectorLine, count) else [""]) + [")"]
  }

  lemma InlineArrayIsJoin(count: int)
    ensures JoinWith(InlineArrayParts(count), '\n') == GenerateInlineArray(count)
  {
    var middle := if count > 0 then Repeat(VectorLine, count) else [""];
    assert JoinWith(middle, '\n') == JoinWith(Repeat(VectorLine, if count > 0 then count else 0), '\n');
    JoinWithAppend([Header(count)], middle, '\n');
    JoinWithAppend([Header(count)] + middle, [")"], '\n');
  }

  lemma ArrayLiteralsHaveNoNewline()
    ensures '\n' !in HeaderPrefix && '\n' !in VectorLine && '\n' !in ")" && '\n' !in ""
  {
  }

  lemma InlineArrayPartsOneLine(count: int)
    ensures forall p :: p in InlineArrayParts(count) ==> '\n' !in p
  {
    ArrayLiteralsHaveNoNewline();
    DecimalChars(count, '\n');
    assert '\n' !in Header(count);
  }

  /** The text is line by line: the header, one vector line per element (or
      one empty line when there is none), and ")". */
  lemma InlineArrayLines(count: int)
    ensures SplitOn(GenerateInlineArray(count), '\n') ==
            [Header(count)] + (if count > 0 then Repeat(VectorLine, count) else [""]) + [")"]
  {
    InlineArrayIsJoin(count);
    InlineArrayPartsOneLine(count);
    SplitJoinWith(InlineArrayParts(count), '\n');
  }

  /** The element count can be read back from the text in two ways: from the
      number of lines, and from what follows the fixed words of the header. */
  lemma InlineArrayCountRecoverable(count: int)
    requires count > 0
    ensures |SplitOn(GenerateInlineArray(count), '\n')| == count + 2
    ensures var first := SplitOn(GenerateInlineArray(count), '\n')[0];
            HeaderPrefix <= first && PythonInt(first[|HeaderPrefix|..]) == Some(count)
  {
    InlineArrayLines(count);
    assert Header(count)[|HeaderPrefix|..] == IntToDecimal(count);
    PythonIntRoundTrip(count);
  }

  /** What main prints for a line of input. */
  datatype Outcome =
    | InvalidNumber            // int() raised ValueError
    | NotPositive              // the count was zero or negative
    | Printed(listing: string) // the generated array

  /** main: int() of the input, the positivity check, then the array. */
  function MainOutcome(input: string): Outcome
  {
    match PythonInt(input)
    case None => InvalidNumber
    case Some(count) => if count <= 0 then NotPositive else Printed(GenerateInlineArray(count))
  }

  /** The text main writes, each print ending its own line. */
  function PrintedText(o: Outcome): string
  {
    match o
    case InvalidNumber => "Invalid input. Please enter a number.\n"
    case NotPositive => "Please enter a positive integer.\n"
    case Printed(listing) => "\nGenerated OpenGOAL inline-array:\n\n" + listing + "\n"
  }

  /** An array is printed exactly for a positive count, and then it is the
      array of that count; a rendered count is always accepted as itself. */
  lemma MainPrintsOnlyPositive(input: string)
    ensures MainOutcome(input).Printed? <==> PythonInt(input).Some? && PythonInt(input).value > 0
    ensures MainOutcome(input).Printed? ==>
            MainOutcome(input).listing == GenerateInlineArray(PythonInt(input).value)
    ensures MainOutcome(input) == InvalidNumber <==> PythonInt(input).None?
  {
  }

  /** Typing a count gives the array of that count, or the positivity message. */
  lemma MainOfRenderedCount(count: int)
    ensures MainOutcome(IntToDecimal(count)) ==
            if count > 0 then Printed(GenerateInlineArray(count)) else NotPositive
  {
    PythonIntRoundTrip(count);
  }

  /** The three outcomes print three different texts. */
  lemma PrintedTextDistinguishes(o1: Outcome, o2: Outcome)
    ensures PrintedText(o1) == PrintedText(o2) <==> o1 == o2
  {
    if o1 != o2 {
      var t1, t2 := PrintedText(o1), PrintedText(o2);
      if o1.Printed? && o2.Printed? {
        var n := |"\nGenerated OpenGOAL inline-array:\n\n"|;
        assert t1[n..|t1| - 1] == o1.listing;
        assert t2[n..|t2| - 1] == o2.listing;
      } else {
        assert t1[0] != t2[0];
      }
    }
  }
}
