/**
 * The `compose info` command in text mode: a fixed-width summary line for one
 * compose followed by its packages, modules and dependencies.
 */
module Compose {
  import opened Wrappers
  import opened Text
  import opened Console
  import opened Api
  import opened Batch

  /** The image-size field: empty unless the size is positive, then its `%d` numeral. */
  function ImageSizeField(size: int): (f: string)
    ensures f == "" <==> size <= 0
    ensures size > 0 ==> (forall i :: 0 <= i < |f| ==> IsDigit(f[i])) && ParseDecimal(f) == size
    ensures size > 0 ==> f[0] != '0'
  {
    if size > 0 then
      ParseDecimalOfDecimal(size);
      Decimal(size)
    else ""
  }

  /**
   * The summary line, `fmt.Printf("%s %-8s %-15s %s %-16s %s\n", ...)` without
   * its newline: the six verbs' fields joined by single blanks, each padded to
   * its minimum width and never cut.
   */
  function Summary(info: ComposeInfo): (line: string)
    ensures line == JoinColumns(SummaryColumns(info))
    ensures |line| >= |info.id| + 44 + |info.blueprint.version| + |ImageSizeField(info.imageSize)|
  {
    var cs := SummaryColumns(info);
    var a, b, c, d, e, f := Field(cs[0]), Field(cs[1]), Field(cs[2]), Field(cs[3]), Field(cs[4]), Field(cs[5]);
    assert a == info.id && d == info.blueprint.version && f == ImageSizeField(info.imageSize);
    assert JoinColumns(cs[5..]) == f;
    JoinColumnsAt(cs, 4);
    JoinColumnsAt(cs, 3);
    JoinColumnsAt(cs, 2);
    JoinColumnsAt(cs, 1);
    JoinColumnsAt(cs, 0);
    info.id + " " + (PadRight(info.queueStatus, 8) + " " + (PadRight(info.blueprint.name, 15) + " "
      + (info.blueprint.version + " " + (PadRight(info.composeType, 16) + " " + ImageSizeField(info.imageSize)))))
  }

  /** The verbs of the summary format with their minimum widths. */
  function SummaryColumns(info: ComposeInfo): seq<Column>
  {
    [ Column(info.id, 0), Column(info.queueStatus, 8), Column(info.blueprint.name, 15),
      Column(info.blueprint.version, 0), Column(info.composeType, 16), Column(ImageSizeField(info.imageSize), 0) ]
  }

  /**
   * When the queue status, blueprint name and compose type fit their widths,
   * every column starts at a fixed offset from the end of the ID, so the
   * summaries of composes with equally long IDs line up.
   */
  lemma {:induction false} SummaryAligned(info: ComposeInfo)
    requires |info.queueStatus| <= 8 && |info.blueprint.name| <= 15 && |info.composeType| <= 16
    ensures var line, n, v, size := Summary(info), |info.id|, |info.blueprint.version|, ImageSizeField(info.imageSize);
      && |line| == n + 44 + v + |size|
      && line[..n] == info.id
      && line[n + 1..n + 9] == PadRight(info.queueStatus, 8)
      && line[n + 10..n + 25] == PadRight(info.blueprint.name, 15)
      && line[n + 26..n + 26 + v] == info.blueprint.version
      && line[n + 27 + v..n + 43 + v] == PadRight(info.composeType, 16)
      && line[n + 44 + v..] == size
  {
    var cs, line := SummaryColumns(info), Summary(info);
    var n, v, size := |info.id|, |info.blueprint.version|, ImageSizeField(info.imageSize);
    SummaryStarts(info);
    SummaryFieldAt(info, 0, 0, info.id);
    SummaryFieldAt(info, 1, n + 1, PadRight(info.queueStatus, 8));
    SummaryFieldAt(info, 2, n + 10, PadRight(info.blueprint.name, 15));
    SummaryFieldAt(info, 3, n + 26, info.blueprint.version);
    SummaryFieldAt(info, 4, n + 27 + v, PadRight(info.composeType, 16));
    SummaryFieldAt(info, 5, n + 44 + v, size);
    assert line[..n] == line[0..n];
    assert line[n + 1..n + 9] == PadRight(info.queueStatus, 8);
    assert line[n + 10..n + 25] == PadRight(info.blueprint.name, 15);
    assert line[n + 27 + v..n + 43 + v] == PadRight(info.composeType, 16);
    assert line[n + 44 + v..] == line[n + 44 + v..n + 44 + v + |size|];
  }

  /**
   * Column `k` of the summary line, starting at `start`, holds the padded
   * field `f` of verb `k`; the last one ends the line.
   */
  lemma SummaryFieldAt(info: ComposeInfo, k: nat, start: nat, f: string)
    requires k < 6
    requires start == ColumnStart(SummaryColumns(info), k) && f == Field(SummaryColumns(info)[k])
    ensures start + |f| <= |Summary(info)| && Summary(info)[start..start + |f|] == f
    ensures k == 5 ==> start + |f| == |Summary(info)|
  {
    ColumnAt(SummaryColumns(info), k);
  }

  /** Where the summary's columns start when the padded fields fit their widths. */
  lemma SummaryStarts(info: ComposeInfo)
    requires |info.queueStatus| <= 8 && |info.blueprint.name| <= 15 && |info.composeType| <= 16
    ensures var cs, n, v := SummaryColumns(info), |info.id|, |info.blueprint.version|;
      && ColumnStart(cs, 0) == 0 && ColumnStart(cs, 1) == n + 1 && ColumnStart(cs, 2) == n + 10
      && ColumnStart(cs, 3) == n + 26 && ColumnStart(cs, 4) == n + 27 + v && ColumnStart(cs, 5) == n + 44 + v
  {
    var cs := SummaryColumns(info);
    ColumnStartNext(cs, 0);
    ColumnStartNext(cs, 1);
    ColumnStartNext(cs, 2);
    ColumnStartNext(cs, 3);
    ColumnStartNext(cs, 4);
  }

  /** A field that reads back as one word: non-empty and without blanks. */
  predicate OneWord(s: string)
  {
    s != "" && ' ' !in s
  }

  /**
   * Reading the summary back word by word recovers the fields, provided each
   * is one word; the size is there only when positive.
   */
  lemma SummaryWords(info: ComposeInfo)
    requires OneWord(info.id) && OneWord(info.queueStatus) && OneWord(info.blueprint.name)
    requires OneWord(info.blueprint.version) && OneWord(info.composeType)
    ensures Words(Summary(info)) ==
      [info.id, info.queueStatus, info.blueprint.name, info.blueprint.version, info.composeType]
      + (if info.imageSize > 0 then [Decimal(info.imageSize)] else [])
  {
    var cs := SummaryColumns(info);
    var size := ImageSizeField(info.imageSize);
    assert ' ' !in size;
    assert forall i :: 0 <= i < |cs| ==> ' ' !in cs[i].text;
    WordsOfColumns(cs);
    SummaryPrinted(info);
  }

  /** The texts the summary's columns print: all five fields, then the size when positive. */
  lemma SummaryPrinted(info: ComposeInfo)
    requires OneWord(info.id) && OneWord(info.queueStatus) && OneWord(info.blueprint.name)
    requires OneWord(info.blueprint.version) && OneWord(info.composeType)
    ensures PrintedTexts(SummaryColumns(info)) ==
      [info.id, info.queueStatus, info.blueprint.name, info.blueprint.version, info.composeType]
      + (if info.imageSize > 0 then [Decimal(info.imageSize)] else [])
  {
    var cs := SummaryColumns(info);
    var size := ImageSizeField(info.imageSize);
    assert PrintedTexts(cs[5..]) == if size == "" then [] else [size];
    assert PrintedTexts(cs[4..]) == [info.composeType] + PrintedTexts(cs[5..]);
    assert PrintedTexts(cs[3..]) == [info.blueprint.version] + PrintedTexts(cs[4..]);
    assert PrintedTexts(cs[2..]) == [info.blueprint.name] + PrintedTexts(cs[3..]);
    assert PrintedTexts(cs[1..]) == [info.queueStatus] + PrintedTexts(cs[2..]);
    assert PrintedTexts(cs) == [info.id] + PrintedTexts(cs[1..]);
  }

  /**
   * Everything `compose info` prints for a compose: the summary, then the
   * labelled package, module and dependency sections in that order.
   */
  function InfoLines(info: ComposeInfo): (lines: seq<string>)
    ensures |lines| == 4 + |info.blueprint.packages| + |info.blueprint.modules| + |info.deps|
    ensures lines[0] == Summary(info)
    ensures lines[1] == "Packages:"
    ensures forall i :: 0 <= i < |info.blueprint.packages| ==> lines[2 + i] == Entry(info.blueprint.packages[i])
    ensures lines[2 + |info.blueprint.packages|] == "Modules:"
    ensures forall i :: 0 <= i < |info.blueprint.modules| ==>
      lines[3 + |info.blueprint.packages| + i] == Entry(info.blueprint.modules[i])
    ensures lines[3 + |info.blueprint.packages| + |info.blueprint.modules|] == "Dependencies:"
    ensures forall i :: 0 <= i < |info.deps| ==>
      lines[4 + |info.blueprint.packages| + |info.blueprint.modules| + i] == "    " + info.deps[i]
  {
    [Summary(info), "Packages:"] + Entries(info.blueprint.packages)
      + ["Modules:"] + Entries(info.blueprint.modules)
      + ["Dependencies:"] + DepLines(info.deps)
  }

  /** One indented record per dependency, in order. */
  function DepLines(deps: seq<string>): seq<string>
  {
    seq(|deps|, i requires 0 <= i < |deps| => "    " + deps[i])
  }

  /**
   * `compose info UUID`. A client error or an error response ends the command
   * before anything is printed on standard output; otherwise the compose is
   * printed and the command succeeds.
   */
  function Info(reply: InfoReply): (o: Outcome)
    ensures o.files == map[]
    ensures reply.err.Some? ==>
      o.stdout == [] && o.stderr == [] && o.error == Some(ExecutionError("Info Error: " + reply.err.value))
    ensures reply.err.None? && reply.resp.Some? ==>
      o.stdout == [] && o.stderr == ErrorLines(reply.resp.value.errors) && o.Failed()
    ensures reply.err.None? && reply.resp.None? ==>
      o.stdout == InfoLines(reply.info) && o.stderr == [] && !o.Failed()
  {
    if reply.err.Some? then
      Outcome([], [], map[], Some(ExecutionError("Info Error: " + reply.err.value)))
    else if reply.resp.Some? then
      Outcome([], ErrorLines(reply.resp.value.errors), map[], Some(ExecutionError("")))
    else
      Outcome(InfoLines(reply.info), [], map[], None)
  }

  /** No text field of the compose holds a newline. */
  predicate NoNewlines(info: ComposeInfo)
  {
    && '\n' !in info.id && '\n' !in info.queueStatus && '\n' !in info.composeType
    && '\n' !in info.blueprint.name && '\n' !in info.blueprint.version
    && (forall i :: 0 <= i < |info.blueprint.packages| ==>
          '\n' !in info.blueprint.packages[i].name && '\n' !in info.blueprint.packages[i].version)
    && (forall i :: 0 <= i < |info.blueprint.modules| ==>
          '\n' !in info.blueprint.modules[i].name && '\n' !in info.blueprint.modules[i].version)
    && (forall i :: 0 <= i < |info.deps| ==> '\n' !in info.deps[i])
  }

  /**
   * When no field holds a newline, standard output has exactly
   * 4 + packages + modules + dependencies lines, and they are the printed records.
   */
  lemma InfoLineCount(info: ComposeInfo)
    requires NoNewlines(info)
    ensures SplitLines(Render(InfoLines(info))) == InfoLines(info)
    ensures |SplitLines(Render(InfoLines(info)))| ==
      4 + |info.blueprint.packages| + |info.blueprint.modules| + |info.deps|
  {
    InfoLinesSingle(info);
    SplitLinesOfRender(InfoLines(info));
  }

  /** With no newline in any field, every record `compose info` prints is one line. */
  lemma InfoLinesSingle(info: ComposeInfo)
    requires NoNewlines(info)
    ensures SingleLines(InfoLines(info))
  {
    var head, pk := [Summary(info), "Packages:"], Entries(info.blueprint.packages);
    var mh, md := ["Modules:"], Entries(info.blueprint.modules);
    var dh, dl := ["Dependencies:"], DepLines(info.deps);
    assert InfoLines(info) == head + pk + mh + md + dh + dl;
    SummaryNoNewline(info);
    assert SingleLines(head);
    EntriesSingle(info.blueprint.packages);
    EntriesSingle(info.blueprint.modules);
    assert SingleLines(mh) && SingleLines(dh) && SingleLines(dl);
    SingleLinesAppend(head, pk);
    SingleLinesAppend(head + pk, mh);
    SingleLinesAppend(head + pk + mh, md);
    SingleLinesAppend(head + pk + mh + md, dh);
    SingleLinesAppend(head + pk + mh + md + dh, dl);
  }

  /** Name-version records are single lines when names and versions are. */
  lemma EntriesSingle(nvs: seq<NameVersion>)
    requires forall i :: 0 <= i < |nvs| ==> '\n' !in nvs[i].name && '\n' !in nvs[i].version
    ensures SingleLines(Entries(nvs))
  {
    forall i | 0 <= i < |nvs|
      ensures '\n' !in Entries(nvs)[i]
    {
      EntryNoNewline(nvs[i]);
    }
  }

  lemma SummaryNoNewline(info: ComposeInfo)
    requires '\n' !in info.id && '\n' !in info.queueStatus && '\n' !in info.composeType
    requires '\n' !in info.blueprint.name && '\n' !in info.blueprint.version
    ensures '\n' !in Summary(info)
  {
    var size := ImageSizeField(info.imageSize);
    assert '\n' !in size;
    NoNewlineInPad(info.queueStatus, 8);
    NoNewlineInPad(info.blueprint.name, 15);
    NoNewlineInPad(info.composeType, 16);
  }

  lemma EntryNoNewline(nv: NameVersion)
    requires '\n' !in nv.name && '\n' !in nv.version
    ensures '\n' !in Entry(nv)
  {
  }

  lemma NoNewlineInPad(s: string, width: nat)
    requires '\n' !in s
    ensures '\n' !in PadRight(s, width)
  {
    PadRightIsTextThenBlanks(s, width);
  }
}
