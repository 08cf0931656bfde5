/** The upward search for the project root: the nearest directory, starting
    from the current one, that holds a `Gemfile`. The file system is
    abstracted to the set of directories that hold the marker. */
module ProjectRoot {
  import opened Options
  import opened Paths

  /** No directory strictly below `top` on the way from `dir` up to `top`
      holds the marker. */
  ghost predicate NoMarkerBelow(top: nat, dir: Path, marked: set<Path>) {
    forall k :: top < k <= |dir| ==> dir[..k] !in marked
  }

  /** Neither `dir` nor any of its ancestors holds the marker. */
  ghost predicate NoMarkedAncestor(dir: Path, marked: set<Path>) {
    forall k :: 0 <= k <= |dir| ==> dir[..k] !in marked
  }

  /** `project_root`: the nearest ancestor-or-self of `dir` that holds the
      marker, or `None` once the walk has passed the root. */
  function FindRoot(dir: Path, marked: set<Path>): (r: Option<Path>)
    ensures r.Some? ==> IsAncestorOrSelf(r.value, dir) && r.value in marked
    ensures r.Some? ==> NoMarkerBelow(|r.value|, dir, marked)
    ensures r.None? <==> NoMarkedAncestor(dir, marked)
    decreases |dir|
  {
    if dir in marked then
      assert dir[..|dir|] == dir;
      Some(dir)
    else
      match Parent(dir)
      case None => None
      case Some(up) =>
        var r := FindRoot(up, marked);
        assert forall k :: 0 <= k <= |up| ==> up[..k] == dir[..k];
        assert dir == dir[..|dir|];
        r
  }

  /** The loop of `project_root` as written: probe the current directory,
      stop on a hit, otherwise move to the parent. `probed` records every
      directory whose `Gemfile` was looked up, in order. */
  method FindRootLoop(start: Path, marked: set<Path>) returns (r: Option<Path>, probed: seq<Path>)
    ensures r == FindRoot(start, marked)
    ensures 0 < |probed| <= |start| + 1 && probed[0] == start
    ensures forall i :: 0 <= i < |probed| ==> probed[i] == start[..|start| - i]
    ensures forall i :: 0 <= i < |probed| - 1 ==> probed[i] !in marked
    ensures r.Some? ==> probed[|probed| - 1] == r.value
    ensures r.None? ==> |probed| == |start| + 1
  {
    var path := start;
    probed := [];
    while true
      invariant |path| <= |start| && path == start[..|path|]
      invariant |probed| == |start| - |path|
      invariant forall i :: 0 <= i < |probed| ==> probed[i] == start[..|start| - i]
      invariant forall i :: 0 <= i < |probed| ==> probed[i] !in marked
      invariant FindRoot(path, marked) == FindRoot(start, marked)
      decreases |path|
    {
      probed := probed + [path];
      if path in marked {
        return Some(path), probed;
      }
      var up := Parent(path);
      if up.None? {
        return None, probed;
      }
      path := up.value;
    }
  }

  /** `main` falls back to the current directory when no root is found. */
  function EffectiveRoot(cwd: Path, marked: set<Path>): (r: Path)
    ensures IsAncestorOrSelf(r, cwd)
    ensures NoMarkedAncestor(cwd, marked) ==> r == cwd
    ensures !NoMarkedAncestor(cwd, marked) ==> r in marked && NoMarkerBelow(|r|, cwd, marked)
  {
    FindRoot(cwd, marked).UnwrapOr(cwd)
  }

  /** A marked start directory is its own root. */
  lemma MarkedStartIsRoot(dir: Path, marked: set<Path>)
    requires dir in marked
    ensures FindRoot(dir, marked) == Some(dir)
  {
  }

  /** The marker in the nearest ancestor wins over markers further up. */
  lemma NearestMarkerWins(dir: Path, k: nat, marked: set<Path>)
    requires k <= |dir| && dir[..k] in marked
    requires NoMarkerBelow(k, dir, marked)
    ensures FindRoot(dir, marked) == Some(dir[..k])
  {
    var r := FindRoot(dir, marked);
    assert dir[..k] in marked;
    assert r.Some?;
    var x := r.value;
    assert x == dir[..|x|];
  }

  /** The root is a fixed point of the search. */
  lemma FindRootIdempotent(dir: Path, marked: set<Path>)
    requires FindRoot(dir, marked).Some?
    ensures FindRoot(FindRoot(dir, marked).value, marked) == FindRoot(dir, marked)
  {
  }

  /** Every directory between a root and a descendant that resolves to it
      resolves to the same root. */
  lemma {:induction false} SameRootBetween(d: Path, e: Path, marked: set<Path>)
    requires FindRoot(d, marked).Some?
    requires IsAncestorOrSelf(FindRoot(d, marked).value, e) && IsAncestorOrSelf(e, d)
    ensures FindRoot(e, marked) == FindRoot(d, marked)
  {
    var r := FindRoot(d, marked).value;
    assert e[..|r|] == r;
    forall k | |r| < k <= |e|
      ensures e[..k] !in marked
    {
      assert e[..k] == d[..k];
    }
    NearestMarkerWins(e, |r|, marked);
  }
}
