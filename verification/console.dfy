/**
 * The standard streams as text. The model records what a command prints as a
 * sequence of records, one per `fmt.Printf("...\n")` / `fmt.Println` call;
 * this module says what byte stream those records make and when reading the
 * stream back line by line recovers them.
 */
module Console {
  import opened Text

  /** The stream a sequence of newline-terminated prints produces. */
  function Render(records: seq<string>): (text: string)
    ensures text == "" <==> records == []
    ensures records != [] ==> text[|text| - 1] == '\n'
  {
    if |records| == 0 then "" else records[0] + "\n" + Render(records[1..])
  }

  /** The lines of `text`; a final piece without a newline still counts as a line. */
  function SplitLines(text: string): seq<string>
    decreases |text|
  {
    if |text| == 0 then []
    else
      var n := SpanBefore(text, '\n');
      if n == |text| then [text] else [text[..n]] + SplitLines(text[n + 1..])
  }

  /** A print holds a single line when its text has no newline of its own. */
  predicate SingleLines(records: seq<string>)
  {
    forall i :: 0 <= i < |records| ==> '\n' !in records[i]
  }

  /** Two runs of single-line prints make one. */
  lemma SingleLinesAppend(a: seq<string>, b: seq<string>)
    requires SingleLines(a) && SingleLines(b)
    ensures SingleLines(a + b)
  {
    forall i | 0 <= i < |a + b|
      ensures '\n' !in (a + b)[i]
    {
      if i >= |a| {
        assert (a + b)[i] == b[i - |a|];
      }
    }
  }

  /**
   * When no print contains a newline of its own, the stream has exactly one
   * line per print, and they are the printed texts.
   */
  lemma {:induction false} SplitLinesOfRender(records: seq<string>)
    requires SingleLines(records)
    ensures SplitLines(Render(records)) == records
  {
    if |records| > 0 {
      var r, rest := records[0], Render(records[1..]);
      var text := Render(records);
      assert text == r + ("\n" + rest);
      SpanBeforeOfPrefix(r, "\n" + rest, '\n');
      assert text[..|r|] == r;
      assert text[|r| + 1..] == rest;
      SplitLinesOfRender(records[1..]);
    }
  }

  /** Corollary used by the commands: the line count of the stream is the number of prints. */
  lemma LineCountOfRender(records: seq<string>)
    requires SingleLines(records)
    ensures |SplitLines(Render(records))| == |records|
  {
    SplitLinesOfRender(records);
  }
}
