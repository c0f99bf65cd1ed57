/**
 * The `blueprints freeze` command family in text mode: `freeze` prints the
 * depsolved module and package versions of each blueprint, `freeze show`
 * prints the frozen blueprints as TOML, `freeze save` writes each one to
 * `NAME.frozen.toml` in the current directory.
 */
module Freeze {
  import opened Wrappers
  import opened Text
  import opened FilePath
  import opened Api
  import opened Batch

  // ---------------------------------------------------------------------
  // freeze: what is printed for one blueprint

  /** The header record for a blueprint. */
  function Header(name: string, version: string): (h: string)
    ensures |h| >= 11 + |name| && h[..11 + |name|] == "blueprint: " + name
    ensures |h| > 11 + |name| <==> |version| > 0
    ensures |version| > 0 ==> h[11 + |name|..] == " v" + version
  {
    if |version| > 0 then "blueprint: " + name + " v" + version else "blueprint: " + name
  }

  /**
   * What `freeze` prints for a blueprint's parts: the header, one record per
   * module, then one per package, each list in its own order.
   */
  function FrozenLines(p: Parts): (lines: seq<string>)
    ensures |lines| == 1 + |p.modules| + |p.packages|
    ensures lines[0] == Header(p.name, p.version)
    ensures forall i :: 0 <= i < |p.modules| ==> lines[1 + i] == Entry(p.modules[i])
    ensures forall j :: 0 <= j < |p.packages| ==> lines[1 + |p.modules| + j] == Entry(p.packages[j])
  {
    [Header(p.name, p.version)] + Entries(p.modules) + Entries(p.packages)
  }

  /**
   * The records `freeze` prints for one blueprint; `project` stands for the
   * TOML encode-then-decode that extracts the parts, which may fail.
   */
  function Shown(bp: Blueprint, project: Blueprint -> Result<Parts, ProjectionError>): seq<string>
  {
    match project(bp)
    case Success(p) => FrozenLines(p)
    case Failure(_) => []
  }

  /** Processing one blueprint in `freeze`. */
  function FreezeItem(bp: Blueprint, project: Blueprint -> Result<Parts, ProjectionError>): (e: Effect)
    ensures e.ok <==> project(bp).Success?
    ensures e.stdout == Shown(bp, project)
    ensures e.ok ==> e.stderr == []
    ensures !e.ok ==> |e.stderr| == 1
    ensures project(bp).Failure? && project(bp).error.EncodeError? ==>
      e.stderr == ["ERROR: converting blueprint: " + project(bp).error.msg]
    ensures project(bp).Failure? && project(bp).error.DecodeError? ==>
      e.stderr == ["ERROR: decoding blueprint: " + project(bp).error.msg]
    ensures e.write.None?
  {
    match project(bp)
    case Failure(EncodeError(msg)) => Effect([], ["ERROR: converting blueprint: " + msg], None, false)
    case Failure(DecodeError(msg)) => Effect([], ["ERROR: decoding blueprint: " + msg], None, false)
    case Success(p) => Effect(FrozenLines(p), [], None, true)
  }

  function FreezeEffects(bps: seq<Blueprint>, project: Blueprint -> Result<Parts, ProjectionError>): seq<Effect>
  {
    seq(|bps|, i requires 0 <= i < |bps| => FreezeItem(bps[i], project))
  }

  /** Each blueprint's records, one entry per blueprint, in reply order. */
  function ShownAll(bps: seq<Blueprint>, project: Blueprint -> Result<Parts, ProjectionError>): seq<seq<string>>
  {
    seq(|bps|, i requires 0 <= i < |bps| => Shown(bps[i], project))
  }

  /**
   * `blueprints freeze` in text mode. A transport error aborts before any
   * blueprint is looked at. Otherwise every blueprint whose parts can be
   * extracted is printed, in order, whatever happens to the others, and the
   * result is an error iff the server reported errors or some blueprint
   * failed.
   */
  function Freeze(reply: FrozenReply, project: Blueprint -> Result<Parts, ProjectionError>): (o: Outcome)
    ensures reply.TransportError? ==>
      && o.stdout == [] && o.stderr == [] && o.files == map[]
      && o.error == Some(ExecutionError("Save Error: " + reply.msg))
    ensures reply.Frozen? ==> o.files == map[]
    ensures reply.Frozen? ==> o.stdout == Flatten(ShownAll(reply.blueprints, project))
    ensures reply.Frozen? ==>
      (o.Failed() <==> |reply.errors| > 0 || exists i :: 0 <= i < |reply.blueprints| && project(reply.blueprints[i]).Failure?)
    ensures reply.Frozen? ==>
      |o.stderr| >= |reply.errors| && o.stderr[..|reply.errors|] == ErrorLines(reply.errors)
    ensures reply.Frozen? && (forall i :: 0 <= i < |reply.blueprints| ==> project(reply.blueprints[i]).Success?) ==>
      o.stderr == ErrorLines(reply.errors)
    ensures reply.Frozen? && o.Failed() ==> o.error == Some(ExecutionError(""))
  {
    match reply
    case TransportError(msg) => Outcome([], [], map[], Some(ExecutionError("Save Error: " + msg)))
    case Frozen(bps, errors) =>
      FreezeRun(bps, errors, project);
      Run(Start(errors), FreezeEffects(bps, project))
  }

  /** The batch `freeze` runs over a clean reply, stated clause by clause for `Freeze`. */
  lemma FreezeRun(bps: seq<Blueprint>, errors: seq<ApiError>, project: Blueprint -> Result<Parts, ProjectionError>)
    ensures var r := Run(Start(errors), FreezeEffects(bps, project));
      && r.files == map[]
      && r.stdout == Flatten(ShownAll(bps, project))
      && (r.Failed() <==> |errors| > 0 || exists i :: 0 <= i < |bps| && project(bps[i]).Failure?)
      && (r.Failed() ==> r.error == Some(ExecutionError("")))
    ensures var r := Run(Start(errors), FreezeEffects(bps, project));
      && |r.stderr| >= |errors| && r.stderr[..|errors|] == ErrorLines(errors)
      && ((forall i :: 0 <= i < |bps| ==> project(bps[i]).Success?) ==> r.stderr == ErrorLines(errors))
  {
    var es := FreezeEffects(bps, project);
    FreezeEffectsFacts(bps, project);
    RunFailsPlainly(Start(errors), es);
    FreezeRunStderr(errors, es);
  }

  /** Standard error of a batch starts with the server's errors, and is only those when every item succeeds silently. */
  lemma FreezeRunStderr(errors: seq<ApiError>, es: seq<Effect>)
    ensures var r := Run(Start(errors), es);
      && |r.stderr| >= |errors| && r.stderr[..|errors|] == ErrorLines(errors)
      && (Flatten(Stderrs(es)) == [] ==> r.stderr == ErrorLines(errors))
  {
    var r := Run(Start(errors), es);
    assert r.stderr == ErrorLines(errors) + Flatten(Stderrs(es));
    assert r.stderr[..|errors|] == ErrorLines(errors);
  }

  /** Facts about the per-item effects of `freeze`: what they print and when they all succeed. */
  lemma FreezeEffectsFacts(bps: seq<Blueprint>, project: Blueprint -> Result<Parts, ProjectionError>)
    ensures Stdouts(FreezeEffects(bps, project)) == ShownAll(bps, project)
    ensures AllOk(FreezeEffects(bps, project)) <==> forall i :: 0 <= i < |bps| ==> project(bps[i]).Success?
    ensures AllOk(FreezeEffects(bps, project)) ==> Flatten(Stderrs(FreezeEffects(bps, project))) == []
  {
    var es := FreezeEffects(bps, project);
    if AllOk(es) {
      forall i | 0 <= i < |bps|
        ensures project(bps[i]).Success?
      {
        assert es[i] == FreezeItem(bps[i], project);
      }
      FlattenOfEmpties(Stderrs(es));
    } else {
      var i :| 0 <= i < |es| && !es[i].ok;
      assert project(bps[i]).Failure?;
    }
  }

  /**
   * A blueprint that can be projected has its records printed after exactly
   * the records of the blueprints before it, failed ones contributing none.
   */
  lemma FreezePrintsEachSuccess(reply: FrozenReply, project: Blueprint -> Result<Parts, ProjectionError>, i: nat)
    requires reply.Frozen? && i < |reply.blueprints|
    requires project(reply.blueprints[i]).Success?
    ensures var out, start, lines := Freeze(reply, project).stdout,
                                     |Flatten(ShownAll(reply.blueprints[..i], project))|,
                                     FrozenLines(project(reply.blueprints[i]).value);
      start + |lines| <= |out| && out[start..start + |lines|] == lines
  {
    var bps := reply.blueprints;
    var before, after := ShownAll(bps[..i], project), ShownAll(bps[i + 1..], project);
    assert ShownAll(bps, project) == before + [Shown(bps[i], project)] + after;
    FlattenAppend(before + [Shown(bps[i], project)], after);
    FlattenAppend(before, [Shown(bps[i], project)]);
    assert Flatten([Shown(bps[i], project)]) == Shown(bps[i], project);
  }

  // ---------------------------------------------------------------------
  // freeze show

  /**
   * `blueprints freeze show`. In JSON mode the client prints the document
   * itself and the command only reports failure; in text mode any response
   * or error from the client fails the command, otherwise each TOML document
   * is printed verbatim, in order.
   */
  function FreezeShow(jsonOutput: bool, jsonReply: FrozenReply, tomlReply: TomlReply): (o: Outcome)
    ensures o.files == map[] && o.stderr == []
    ensures jsonOutput ==> o.stdout == []
    ensures jsonOutput ==> (o.Failed() <==> jsonReply.TransportError? || |jsonReply.errors| > 0)
    ensures jsonOutput && jsonReply.TransportError? ==> o.error == Some(ExecutionError("Save Error: " + jsonReply.msg))
    ensures !jsonOutput ==> (o.Failed() <==> tomlReply.resp.Some? || tomlReply.err.Some?)
    ensures !jsonOutput && o.Failed() ==> o.stdout == []
    ensures !jsonOutput && tomlReply.err.Some? ==> o.error == Some(ExecutionError("Show Error: " + tomlReply.err.value))
    // An API response without a transport error is printed through a nil
    // error value, which `%s` renders as Go's nil marker.
    ensures !jsonOutput && tomlReply.err.None? && tomlReply.resp.Some? ==>
      o.error == Some(ExecutionError("Show Error: %!s(<nil>)"))
    ensures !jsonOutput && !o.Failed() ==> o.stdout == tomlReply.documents
  {
    if jsonOutput then
      match jsonReply
      case TransportError(msg) => Outcome([], [], map[], Some(ExecutionError("Save Error: " + msg)))
      case Frozen(_, errors) => Outcome([], [], map[], if |errors| > 0 then Some(ExecutionError("")) else None)
    else if tomlReply.resp.Some? || tomlReply.err.Some? then
      var msg := if tomlReply.err.Some? then "Show Error: " + tomlReply.err.value else "Show Error: %!s(<nil>)";
      Outcome([], [], map[], Some(ExecutionError(msg)))
    else
      Outcome(tomlReply.documents, [], map[], None)
  }

  // ---------------------------------------------------------------------
  // freeze save

  const FrozenSuffix: string := ".frozen.toml"

  lemma SuffixHasNoSeparator()
    ensures Separator !in FrozenSuffix && ' ' !in FrozenSuffix
  {
  }

  /** The blueprint's `name` field, when it is present and a string. */
  function NameOf(bp: Blueprint): (r: Option<string>)
    ensures r.Some? <==> "name" in bp.fields && bp.fields["name"].Str?
    ensures r.Some? ==> bp.fields["name"] == Str(r.value)
  {
    if "name" in bp.fields && bp.fields["name"].Str? then Some(bp.fields["name"].s) else None
  }

  /**
   * The file `freeze save` writes a blueprint named `name` to. Whatever the
   * name, the result has no separator and no blank and ends with the frozen
   * suffix; in particular it is never "/", "." or "..", so the command's
   * guard against those never fires.
   */
  function SaveFilename(name: string): (f: string)
    ensures SafeFilename(f)
  {
    var path := ReplaceAll(name, ' ', '-') + FrozenSuffix;
    SuffixedName(name);
    BaseKeepsSuffix(path, FrozenSuffix);
    BaseCharsFromPath(path);
    var f := Base(path);
    assert |f| >= 12;
    f
  }

  /** A file name that stays in the current directory and has the frozen suffix. */
  predicate SafeFilename(f: string)
  {
    && Separator !in f
    && ' ' !in f
    && |f| >= |FrozenSuffix|
    && f[|f| - |FrozenSuffix|..] == FrozenSuffix
    && f != "/" && f != "." && f != ".."
  }

  /** The path `freeze save` hands to `Base`: no blank, and it ends with the suffix. */
  lemma SuffixedName(name: string)
    ensures var path := ReplaceAll(name, ' ', '-') + FrozenSuffix;
      && ' ' !in path
      && |FrozenSuffix| <= |path| && path[|path| - |FrozenSuffix|..] == FrozenSuffix
      && path != "" && !AllSeparators(path)
  {
    var replaced := ReplaceAll(name, ' ', '-');
    ReplaceAllRemoves(name, ' ', '-');
    var path := replaced + FrozenSuffix;
    assert path[|path| - |FrozenSuffix|..] == FrozenSuffix;
    assert path[|path| - 1] == 'l';
  }

  /** A name without separators is kept whole: blanks become dashes and the suffix is appended. */
  lemma SaveFilenameOfPlainName(name: string)
    requires Separator !in name
    ensures SaveFilename(name) == ReplaceAll(name, ' ', '-') + FrozenSuffix
  {
    var path := ReplaceAll(name, ' ', '-') + FrozenSuffix;
    ReplaceAllRemoves(name, ' ', '-');
    assert Separator !in path;
    BaseOfPlainName(path);
  }

  /**
   * The client's file operations, which the model does not perform: the
   * error opening a file for writing, if any, and the error encoding a
   * blueprint into an opened file, if any.
   */
  datatype Disk = Disk(openError: string -> Option<string>, encodeError: (string, Blueprint) -> Option<string>)

  /** `freeze save` opens a file for this blueprint. */
  predicate Opens(bp: Blueprint, disk: Disk)
  {
    NameOf(bp).Some? && disk.openError(SaveFilename(NameOf(bp).value)).None?
  }

  /** `freeze save` stores this blueprint completely. */
  predicate Saves(bp: Blueprint, disk: Disk)
  {
    Opens(bp, disk) && disk.encodeError(SaveFilename(NameOf(bp).value), bp).None?
  }

  /** A derived file name the command refuses. */
  predicate Refused(filename: string)
  {
    filename == "/" || filename == "." || filename == ".."
  }

  /** Processing one blueprint in `freeze save`. */
  function SaveItem(bp: Blueprint, disk: Disk): (e: Effect)
    ensures e.stdout == []
    ensures e.ok <==> Saves(bp, disk) && !Refused(SaveFilename(NameOf(bp).value))
    ensures e.ok ==> e.stderr == []
    ensures !e.ok ==> |e.stderr| == 1
    ensures e.write.Some? <==> Opens(bp, disk) && !Refused(SaveFilename(NameOf(bp).value))
    ensures e.write.Some? ==> e.write.value.filename == SaveFilename(NameOf(bp).value)
    ensures e.write.Some? ==> e.write.value.state == if e.ok then Saved(bp) else Incomplete(bp)
    ensures NameOf(bp).None? ==> e.stderr == ["ERROR: no 'name' in blueprint"]
  {
    match NameOf(bp)
    case None => Effect([], ["ERROR: no 'name' in blueprint"], None, false)
    case Some(name) =>
      var filename := SaveFilename(name);
      if Refused(filename) then
        Effect([], ["ERROR: Invalid blueprint filename: " + name], None, false)
      else
        var openError, encodeError := disk.openError(filename), disk.encodeError(filename, bp);
        if openError.Some? then
          Effect([], ["ERROR: opening file file.toml: " + openError.value], None, false)
        else if encodeError.Some? then
          Effect([], ["ERROR: encoding TOML file: " + encodeError.value], Some(Write(filename, Incomplete(bp))), false)
        else
          Effect([], [], Some(Write(filename, Saved(bp))), true)
  }

  function SaveEffects(bps: seq<Blueprint>, disk: Disk): seq<Effect>
  {
    seq(|bps|, i requires 0 <= i < |bps| => SaveItem(bps[i], disk))
  }

  /** The refusal branch of `SaveItem` is dead: its outcome depends only on naming, opening and encoding. */
  lemma SaveItemNeverRefuses(bp: Blueprint, disk: Disk)
    ensures SaveItem(bp, disk).ok <==> Saves(bp, disk)
    ensures SaveItem(bp, disk).write.Some? <==> Opens(bp, disk)
  {
  }

  /** The files `freeze save` opens: one per blueprint that has a name and whose file opens. */
  function OpenedFiles(bps: seq<Blueprint>, disk: Disk): set<string>
  {
    set i | 0 <= i < |bps| && Opens(bps[i], disk) :: SaveFilename(NameOf(bps[i]).value)
  }

  /**
   * `blueprints freeze save` in text mode. A transport error aborts before
   * any file is written. Otherwise nothing goes to standard output, every
   * blueprint that has a name and whose file opens is written to its file in
   * the current directory whatever happens to the others, and the result is
   * an error iff the server reported errors or some blueprint was not saved.
   */
  function FreezeSave(reply: FrozenReply, disk: Disk): (o: Outcome)
    ensures reply.TransportError? ==>
      && o.stdout == [] && o.stderr == [] && o.files == map[]
      && o.error == Some(ExecutionError("Save Error: " + reply.msg))
    ensures reply.Frozen? ==> o.stdout == []
    ensures reply.Frozen? ==>
      (o.Failed() <==> |reply.errors| > 0 || exists i :: 0 <= i < |reply.blueprints| && !Saves(reply.blueprints[i], disk))
    ensures reply.Frozen? ==> o.files.Keys == OpenedFiles(reply.blueprints, disk)
    ensures forall f :: f in o.files ==> SafeFilename(f)
    ensures reply.Frozen? ==>
      |o.stderr| >= |reply.errors| && o.stderr[..|reply.errors|] == ErrorLines(reply.errors)
    ensures reply.Frozen? && o.Failed() ==> o.error == Some(ExecutionError(""))
  {
    match reply
    case TransportError(msg) => Outcome([], [], map[], Some(ExecutionError("Save Error: " + msg)))
    case Frozen(bps, errors) =>
      SaveRun(bps, errors, disk);
      Run(Start(errors), SaveEffects(bps, disk))
  }

  /** The batch `freeze save` runs over a clean reply, stated clause by clause for `FreezeSave`. */
  lemma SaveRun(bps: seq<Blueprint>, errors: seq<ApiError>, disk: Disk)
    ensures var r := Run(Start(errors), SaveEffects(bps, disk));
      && r.stdout == []
      && (r.Failed() <==> |errors| > 0 || exists i :: 0 <= i < |bps| && !Saves(bps[i], disk))
      && r.files.Keys == OpenedFiles(bps, disk)
      && (forall f :: f in r.files ==> SafeFilename(f))
      && |r.stderr| >= |errors| && r.stderr[..|errors|] == ErrorLines(errors)
      && (r.Failed() ==> r.error == Some(ExecutionError("")))
  {
    var es := SaveEffects(bps, disk);
    SaveEffectsFacts(bps, disk);
    assert Flatten(Stdouts(es)) == [] by {
      FlattenOfEmpties(Stdouts(es));
    }
    RunFailsPlainly(Start(errors), es);
  }

  /** Facts about the per-item effects of a save, with the dead refusal branch discharged. */
  lemma SaveEffectsFacts(bps: seq<Blueprint>, disk: Disk)
    ensures AllOk(SaveEffects(bps, disk)) <==> forall i :: 0 <= i < |bps| ==> Saves(bps[i], disk)
    ensures Written(SaveEffects(bps, disk)) == OpenedFiles(bps, disk)
    ensures forall f :: f in OpenedFiles(bps, disk) ==> SafeFilename(f)
  {
    var es := SaveEffects(bps, disk);
    forall i | 0 <= i < |bps|
      ensures es[i].ok <==> Saves(bps[i], disk)
      ensures es[i].write.Some? <==> Opens(bps[i], disk)
    {
      SaveItemNeverRefuses(bps[i], disk);
    }
    forall f | f in OpenedFiles(bps, disk)
      ensures SafeFilename(f)
    {
      var i :| 0 <= i < |bps| && Opens(bps[i], disk) && f == SaveFilename(NameOf(bps[i]).value);
    }
  }

  /**
   * Each file holds the last blueprint written to it: if blueprint `i` is
   * saved and no later blueprint opens the same file, the file holds
   * blueprint `i` in full.
   */
  lemma FreezeSaveLastWins(reply: FrozenReply, disk: Disk, i: nat)
    requires reply.Frozen? && i < |reply.blueprints|
    requires Saves(reply.blueprints[i], disk)
    requires forall j :: i < j < |reply.blueprints| && Opens(reply.blueprints[j], disk) ==>
      SaveFilename(NameOf(reply.blueprints[j]).value) != SaveFilename(NameOf(reply.blueprints[i]).value)
    ensures var f := SaveFilename(NameOf(reply.blueprints[i]).value);
      f in FreezeSave(reply, disk).files && FreezeSave(reply, disk).files[f] == Saved(reply.blueprints[i])
  {
    var bps := reply.blueprints;
    var es := SaveEffects(bps, disk);
    SaveEffectsFacts(bps, disk);
    SaveItemNeverRefuses(bps[i], disk);
    forall j | i < j < |es| && es[j].write.Some?
      ensures es[j].write.value.filename != es[i].write.value.filename
    {
      SaveItemNeverRefuses(bps[j], disk);
    }
    LastWriteWins(Start(reply.errors), es, i);
  }
}
