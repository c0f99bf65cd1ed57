/**
 * The command scenarios the repository's tests exercise, stated as lemmas
 * about the model.
 */
module Scenarios {
  import opened Wrappers
  import opened Text
  import opened FilePath
  import opened Api
  import opened Batch
  import opened Freeze

  /** The frozen blueprint the tests' server returns; list and table fields are not strings. */
  const TestBlueprint: Blueprint := Blueprint(map[
    "name" := Str("cli-test-bp-1"), "version" := Str("0.0.3"),
    "description" := Str("Install tmux"), "distro" := Str(""),
    "modules" := NonString, "packages" := NonString, "groups" := NonString])

  const TestParts: Parts := Parts("cli-test-bp-1", "0.0.3", [], [NameVersion("tmux", "3.1c-2.fc34.x86_64")])

  const NotFound: ApiError := ApiError("UnknownBlueprint", "test-no-bp: blueprint not found")

  /**
   * One blueprint found and one unknown: the found one is printed, the
   * server's error goes to standard error, and the command fails.
   */
  lemma FreezeWithUnknownBlueprint(project: Blueprint -> Result<Parts, ProjectionError>)
    requires project(TestBlueprint) == Success(TestParts)
    ensures var o := Freeze.Freeze(Frozen([TestBlueprint], [NotFound]), project);
      && o.stdout == ["blueprint: cli-test-bp-1 v0.0.3", "    tmux-3.1c-2.fc34.x86_64"]
      && o.stderr == [NotFound.id + ": " + NotFound.msg]
      && o.error == Some(ExecutionError(""))
  {
    var bps := [TestBlueprint];
    TestPartsLines();
    var lines := FrozenLines(TestParts);
    assert ShownAll(bps, project) == [lines];
    assert Flatten([lines]) == lines + Flatten([]);
  }

  lemma TestPartsLines()
    ensures FrozenLines(TestParts) == ["blueprint: cli-test-bp-1 v0.0.3", "    tmux-3.1c-2.fc34.x86_64"]
  {
    var lines := FrozenLines(TestParts);
    TestHeader();
    TestEntry();
    assert lines == [lines[0], lines[1]];
  }

  /** The test blueprint's header record. */
  lemma TestHeader()
    ensures Header("cli-test-bp-1", "0.0.3") == "blueprint: cli-test-bp-1 v0.0.3"
  {
  }

  /** The test blueprint's one package record. */
  lemma TestEntry()
    ensures Entry(NameVersion("tmux", "3.1c-2.fc34.x86_64")) == "    tmux-3.1c-2.fc34.x86_64"
  {
  }

  /** A disk on which every open and every encoding succeeds. */
  const GoodDisk: Disk := Disk(_ => None, (_, _) => None)

  /**
   * Saving one blueprint whose name has neither separator nor blank, on a
   * disk where nothing fails, writes exactly `NAME.frozen.toml` holding it,
   * prints nothing and succeeds.
   */
  lemma FreezeSaveOneBlueprint(bp: Blueprint, name: string)
    requires NameOf(bp) == Some(name) && Separator !in name && ' ' !in name
    ensures var o := FreezeSave(Frozen([bp], []), GoodDisk);
      && o.files == map[name + FrozenSuffix := Saved(bp)]
      && o.stdout == [] && o.stderr == []
      && !o.Failed()
  {
    var e := SaveItem(bp, GoodDisk);
    SaveOneEffect(bp, name);
    SaveOfOne(bp, GoodDisk);
    assert Start([]) == Outcome([], [], map[], None);
  }

  /** Saving a single blueprint with no server errors is that blueprint's item applied to a clean start. */
  lemma SaveOfOne(bp: Blueprint, disk: Disk)
    ensures FreezeSave(Frozen([bp], []), disk) == Apply(Start([]), SaveItem(bp, disk))
  {
    assert SaveEffects([bp], disk) == [SaveItem(bp, disk)];
    RunOne(Start([]), SaveItem(bp, disk));
  }

  /** On a disk where nothing fails, a plainly named blueprint is saved under its own name. */
  lemma SaveOneEffect(bp: Blueprint, name: string)
    requires NameOf(bp) == Some(name) && Separator !in name && ' ' !in name
    ensures SaveItem(bp, GoodDisk) == Effect([], [], Some(Write(name + FrozenSuffix, Saved(bp))), true)
  {
    assert ReplaceAll(name, ' ', '-') == name;
    SaveFilenameOfPlainName(name);
    assert Saves(bp, GoodDisk);
    SaveItemNeverRefuses(bp, GoodDisk);
  }

  /**
   * Directory parts in a blueprint name are dropped: `a/b/../c` is saved as
   * `c.frozen.toml` (with blanks turned into dashes).
   */
  lemma SaveFilenameDropsDirectories(dir: string, name: string)
    requires name != "" && Separator !in name
    ensures SaveFilename(dir + [Separator] + name) == ReplaceAll(name, ' ', '-') + FrozenSuffix
  {
    var full := dir + [Separator] + name;
    var d, tail := ReplaceAll(dir, ' ', '-'), ReplaceAll(name, ' ', '-') + FrozenSuffix;
    SavePathOfJoin(dir, name);
    TailHasNoSeparator(name);
    BaseOfJoin(d, tail);
    assert SaveFilename(full) == Base(d + [Separator] + tail);
  }

  /** The path a joined name is saved under, before its directory part is dropped. */
  lemma SavePathOfJoin(dir: string, name: string)
    ensures ReplaceAll(dir + [Separator] + name, ' ', '-') + FrozenSuffix
         == ReplaceAll(dir, ' ', '-') + [Separator] + (ReplaceAll(name, ' ', '-') + FrozenSuffix)
  {
    var prefix, n := ReplaceAll(dir, ' ', '-') + [Separator], ReplaceAll(name, ' ', '-');
    ReplaceAllAppend(dir + [Separator], name, ' ', '-');
    ReplaceAllAppend(dir, [Separator], ' ', '-');
    assert ReplaceAll([Separator], ' ', '-') == [Separator];
    assert ReplaceAll(dir + [Separator] + name, ' ', '-') == prefix + n;
    assert (prefix + n) + FrozenSuffix == prefix + (n + FrozenSuffix);
  }

  lemma TailHasNoSeparator(name: string)
    requires Separator !in name
    ensures Separator !in ReplaceAll(name, ' ', '-') + FrozenSuffix
  {
    ReplaceAllRemoves(name, ' ', '-');
    SuffixHasNoSeparator();
  }

  /** `freeze show` in text mode prints each returned TOML document verbatim and succeeds. */
  lemma FreezeShowToml(docs: seq<string>, jsonReply: FrozenReply)
    ensures var o := FreezeShow(false, jsonReply, TomlReply(docs, None, None));
      o.stdout == docs && o.stderr == [] && !o.Failed()
  {
  }
}
