/**
 * The per-item fold every batch command shares: each item contributes what it
 * prints, what it writes and whether it succeeded; a failing item never stops
 * the items after it, and the command fails if any item failed.
 */
module Batch {
  import opened Wrappers
  import opened Api

  /** The error value a command returns; `ExecutionError("")` when the details were printed already. */
  datatype CmdError = ExecutionError(msg: string)

  /**
   * A file the command wrote. A file is opened with create-and-truncate
   * before encoding starts, so a failed encoding leaves an incomplete file.
   */
  datatype FileState = Saved(bp: Blueprint) | Incomplete(bp: Blueprint)

  datatype Write = Write(filename: string, state: FileState)

  /** What processing one item does. */
  datatype Effect = Effect(stdout: seq<string>, stderr: seq<string>, write: Option<Write>, ok: bool)

  /**
   * What a command did: the records printed on standard output and standard
   * error, the files it wrote (by name, last write wins), and the error it
   * returns (`None` for success).
   */
  datatype Outcome = Outcome(stdout: seq<string>, stderr: seq<string>, files: map<string, FileState>, error: Option<CmdError>)
  {
    predicate Failed() {
      error.Some?
    }
  }

  /**
   * `root.ExecutionErrors` in text mode: one `id: msg` record per server error
   * on standard error.
   */
  function ErrorLines(errors: seq<ApiError>): (lines: seq<string>)
    ensures |lines| == |errors|
    ensures forall i :: 0 <= i < |errors| ==> lines[i] == errors[i].id + ": " + errors[i].msg
  {
    if |errors| == 0 then [] else [errors[0].id + ": " + errors[0].msg] + ErrorLines(errors[1..])
  }

  /**
   * Where a batch starts once the server replied: the server's per-item errors
   * are on standard error and already make the command's result an error.
   */
  function Start(errors: seq<ApiError>): (o: Outcome)
    ensures o.stdout == [] && o.files == map[]
    ensures o.stderr == ErrorLines(errors)
    ensures o.Failed() <==> |errors| > 0
    ensures o.Failed() ==> o.error == Some(ExecutionError(""))
  {
    Outcome([], ErrorLines(errors), map[], if |errors| > 0 then Some(ExecutionError("")) else None)
  }

  /**
   * One item's effect added to the outcome so far, as one pass of the
   * commands' loops: earlier output is kept and the item's follows it, a
   * failure is sticky and can only set `ExecutionError("")`, and only the file
   * the item writes changes.
   */
  function Apply(o: Outcome, e: Effect): (r: Outcome)
    ensures |r.stdout| >= |o.stdout| && r.stdout[..|o.stdout|] == o.stdout && r.stdout[|o.stdout|..] == e.stdout
    ensures |r.stderr| >= |o.stderr| && r.stderr[..|o.stderr|] == o.stderr && r.stderr[|o.stderr|..] == e.stderr
    ensures r.Failed() <==> o.Failed() || !e.ok
    ensures e.ok ==> r.error == o.error
    ensures r.error != o.error ==> r.error == Some(ExecutionError(""))
    ensures r.files.Keys == o.files.Keys + WrittenBy(e)
    ensures e.write.Some? ==> r.files[e.write.value.filename] == e.write.value.state
    ensures forall f :: f in o.files && f !in WrittenBy(e) ==> r.files[f] == o.files[f]
  {
    Outcome(
      o.stdout + e.stdout,
      o.stderr + e.stderr,
      if e.write.Some? then o.files[e.write.value.filename := e.write.value.state] else o.files,
      if e.ok then o.error else Some(ExecutionError("")))
  }

  /** Concatenation of a sequence of record sequences. */
  function Flatten(xss: seq<seq<string>>): seq<string>
  {
    if |xss| == 0 then [] else xss[0] + Flatten(xss[1..])
  }

  lemma {:induction false} FlattenAppend(xss: seq<seq<string>>, yss: seq<seq<string>>)
    ensures Flatten(xss + yss) == Flatten(xss) + Flatten(yss)
    decreases |xss|
  {
    if |xss| == 0 {
      assert xss + yss == yss;
    } else {
      assert (xss + yss)[1..] == xss[1..] + yss;
      FlattenAppend(xss[1..], yss);
    }
  }

  lemma {:induction false} FlattenOfEmpties(xss: seq<seq<string>>)
    requires forall i :: 0 <= i < |xss| ==> xss[i] == []
    ensures Flatten(xss) == []
    decreases |xss|
  {
    if |xss| > 0 {
      FlattenOfEmpties(xss[1..]);
    }
  }

  function Stdouts(es: seq<Effect>): seq<seq<string>>
  {
    seq(|es|, i requires 0 <= i < |es| => es[i].stdout)
  }

  function Stderrs(es: seq<Effect>): seq<seq<string>>
  {
    seq(|es|, i requires 0 <= i < |es| => es[i].stderr)
  }

  predicate AllOk(es: seq<Effect>)
  {
    forall i :: 0 <= i < |es| ==> es[i].ok
  }

  /** The names of the files the items write. */
  function Written(es: seq<Effect>): set<string>
  {
    set i | 0 <= i < |es| && es[i].write.Some? :: es[i].write.value.filename
  }

  /** The names item `e` writes: none or one. */
  function WrittenBy(e: Effect): set<string>
  {
    if e.write.Some? then {e.write.value.filename} else {}
  }

  /** How the per-item summaries split into the first item and the rest. */
  lemma RunStep(es: seq<Effect>)
    requires |es| > 0
    ensures Flatten(Stdouts(es)) == es[0].stdout + Flatten(Stdouts(es[1..]))
    ensures Flatten(Stderrs(es)) == es[0].stderr + Flatten(Stderrs(es[1..]))
    ensures Written(es) == WrittenBy(es[0]) + Written(es[1..])
    ensures AllOk(es) <==> es[0].ok && AllOk(es[1..])
  {
    assert Stdouts(es)[1..] == Stdouts(es[1..]);
    assert Stderrs(es)[1..] == Stderrs(es[1..]);
    forall f | f in Written(es) ensures f in WrittenBy(es[0]) + Written(es[1..]) {
      var i :| 0 <= i < |es| && es[i].write.Some? && es[i].write.value.filename == f;
      if i > 0 {
        assert es[1..][i - 1] == es[i];
      }
    }
    if !AllOk(es[1..]) {
      var i :| 0 <= i < |es| - 1 && !es[1..][i].ok;
      assert !es[i + 1].ok;
    }
  }

  /**
   * Processing the items in order, as the commands' `for ... continue` loops
   * do. Every item's records appear, in item order, whatever the other items
   * did; the result is an error iff it already was or some item failed; only
   * the files the items write change.
   */
  function Run(o: Outcome, es: seq<Effect>): (r: Outcome)
    ensures r.stdout == o.stdout + Flatten(Stdouts(es))
    ensures r.stderr == o.stderr + Flatten(Stderrs(es))
    ensures r.Failed() <==> o.Failed() || !AllOk(es)
    ensures AllOk(es) ==> r.error == o.error
    ensures r.error != o.error ==> r.error == Some(ExecutionError(""))
    ensures r.files.Keys == o.files.Keys + Written(es)
    ensures forall f :: f in o.files && f !in Written(es) ==> r.files[f] == o.files[f]
    decreases |es|
  {
    if |es| == 0 then o
    else
      var r := Run(Apply(o, es[0]), es[1..]);
      RunStep(es);
      r
  }

  /**
   * A batch that starts without an error or with the plain command error ends
   * the same way: the items can only ever set `ExecutionError("")`.
   */
  lemma RunFailsPlainly(o: Outcome, es: seq<Effect>)
    requires o.Failed() ==> o.error == Some(ExecutionError(""))
    ensures Run(o, es).Failed() ==> Run(o, es).error == Some(ExecutionError(""))
  {
  }

  /** A batch of one item is that item applied. */
  lemma RunOne(o: Outcome, e: Effect)
    ensures Run(o, [e]) == Apply(o, e)
  {
    assert [e][1..] == [];
  }

  /**
   * The last write to a name decides that file: if item `i` writes `f` and no
   * later item does, the file holds what item `i` wrote.
   */
  lemma {:induction false} LastWriteWins(o: Outcome, es: seq<Effect>, i: nat)
    requires i < |es| && es[i].write.Some?
    requires forall j :: i < j < |es| && es[j].write.Some? ==> es[j].write.value.filename != es[i].write.value.filename
    ensures es[i].write.value.filename in Run(o, es).files
    ensures Run(o, es).files[es[i].write.value.filename] == es[i].write.value.state
    decreases |es|
  {
    if i == 0 {
      var f := es[0].write.value.filename;
      assert f !in Written(es[1..]);
    } else {
      LastWriteWins(Apply(o, es[0]), es[1..], i - 1);
    }
  }

  /** Splitting a batch: running two lists of items is running one after the other. */
  lemma {:induction false} RunAppend(o: Outcome, es1: seq<Effect>, es2: seq<Effect>)
    ensures Run(o, es1 + es2) == Run(Run(o, es1), es2)
    decreases |es1|
  {
    if |es1| == 0 {
      assert es1 + es2 == es2;
    } else {
      assert (es1 + es2)[1..] == es1[1..] + es2;
      RunAppend(Apply(o, es1[0]), es1[1..], es2);
    }
  }
}
