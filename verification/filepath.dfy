/**
 * Go's `filepath.Base` on a Unix system, where the separator is `/` and
 * there are no volume names.
 */
module FilePath {

  const Separator: char := '/'

  /** `path` with every trailing separator removed. */
  function StripTrailing(path: string): (r: string)
    ensures |r| <= |path| && r == path[..|r|]
    ensures |r| == 0 || r[|r| - 1] != Separator
    ensures forall i :: |r| <= i < |path| ==> path[i] == Separator
    decreases |path|
  {
    if |path| > 0 && path[|path| - 1] == Separator then StripTrailing(path[..|path| - 1]) else path
  }

  /** Index just after the last separator of `path`, or 0 when it has none. */
  function LastElementStart(path: string): (k: nat)
    ensures k <= |path|
    ensures k > 0 ==> path[k - 1] == Separator
    ensures forall i :: k <= i < |path| ==> path[i] != Separator
    decreases |path|
  {
    if |path| == 0 then 0
    else if path[|path| - 1] == Separator then |path|
    else LastElementStart(path[..|path| - 1])
  }

  predicate AllSeparators(path: string)
  {
    forall i :: 0 <= i < |path| ==> path[i] == Separator
  }

  /** Stripping trailing separators leaves nothing exactly when there was nothing else. */
  lemma StripTrailingEmpty(path: string)
    ensures StripTrailing(path) == "" <==> AllSeparators(path)
  {
    var p := StripTrailing(path);
    if p != "" {
      assert path[|p| - 1] == p[|p| - 1];
    }
  }

  /** In a path that does not end with a separator, the last element is empty only for the empty path. */
  lemma LastElementEmpty(p: string)
    requires |p| == 0 || p[|p| - 1] != Separator
    ensures LastElementStart(p) == |p| <==> p == ""
  {
  }

  /**
   * `filepath.Base`: the last element of `path`. An empty path gives ".",
   * trailing separators are ignored, and a path of separators only gives "/".
   */
  function Base(path: string): (r: string)
    ensures path == "" ==> r == "."
    ensures r == "/" <==> path != "" && AllSeparators(path)
    ensures r == "/" || Separator !in r
    ensures r != ""
  {
    if path == "" then "."
    else
      var p := StripTrailing(path);
      var last := p[LastElementStart(p)..];
      StripTrailingEmpty(path);
      LastElementEmpty(p);
      if last == "" then
        "/"
      else
        assert last[|last| - 1] == p[|p| - 1];
        last
  }

  /**
   * Outside the degenerate cases the result is the last element: `path` is
   * some directory part (empty or ending in a separator), then the result,
   * then nothing but separators.
   */
  lemma BaseIsLastElement(path: string)
    requires path != "" && !AllSeparators(path)
    ensures exists k, m ::
              && 0 <= k <= m <= |path|
              && path[k..m] == Base(path)
              && (k == 0 || path[k - 1] == Separator)
              && (forall i :: m <= i < |path| ==> path[i] == Separator)
  {
    var p := StripTrailing(path);
    var k := LastElementStart(p);
    assert path[k..|p|] == p[k..];
  }

  /** A path that contains no separator is its own base. */
  lemma BaseOfPlainName(path: string)
    requires path != "" && Separator !in path
    ensures Base(path) == path
  {
    var p := StripTrailing(path);
    assert p == path;
    assert LastElementStart(p) == 0;
  }

  /**
   * A suffix free of separators survives: when `path` ends with a non-empty
   * `suffix` that contains no separator, so does `Base(path)`.
   */
  lemma BaseKeepsSuffix(path: string, suffix: string)
    requires suffix != "" && Separator !in suffix
    requires |suffix| <= |path| && path[|path| - |suffix|..] == suffix
    ensures |suffix| <= |Base(path)| && Base(path)[|Base(path)| - |suffix|..] == suffix
  {
    assert path[|path| - 1] == suffix[|suffix| - 1];
    var p := StripTrailing(path);
    assert p == path;
    var k := LastElementStart(p);
    assert k <= |path| - |suffix|;
    var r := Base(path);
    assert r == path[k..];
    assert r[|r| - |suffix|..] == path[|path| - |suffix|..];
  }

  /** Outside the degenerate cases every character of the base occurs in the path. */
  lemma BaseCharsFromPath(path: string)
    requires path != "" && !AllSeparators(path)
    ensures forall c :: c in Base(path) ==> c in path
  {
    var p := StripTrailing(path);
    var k := LastElementStart(p);
    StripTrailingEmpty(path);
    LastElementEmpty(p);
    var r := Base(path);
    assert r == p[k..];
    forall c | c in r
      ensures c in path
    {
      var j :| 0 <= j < |r| && r[j] == c;
      assert r[j] == p[k + j];
      assert p[k + j] == path[k + j];
    }
  }

  /** Appending separator-free text does not move the start of the last element. */
  lemma {:induction false} LastElementStartOfAppend(p: string, q: string)
    requires Separator !in q
    ensures LastElementStart(p + q) == LastElementStart(p)
    decreases |q|
  {
    if |q| == 0 {
      assert p + q == p;
    } else {
      var pq := p + q;
      assert pq[..|pq| - 1] == p + q[..|q| - 1];
      assert pq[|pq| - 1] == q[|q| - 1];
      LastElementStartOfAppend(p, q[..|q| - 1]);
    }
  }

  /** Any directory part in front of a plain name is dropped. */
  lemma BaseOfJoin(dir: string, name: string)
    requires name != "" && Separator !in name
    ensures Base(dir + [Separator] + name) == name
  {
    var path := dir + [Separator] + name;
    assert path[|path| - 1] == name[|name| - 1];
    assert StripTrailing(path) == path;
    LastElementStartOfAppend(dir + [Separator], name);
    assert path[|dir| + 1..] == name;
  }
}
