/** Absolute file-system paths as the launcher sees them: the sequence of
    components below "/". The empty sequence is the file-system root. */
module Paths {
  import opened Options

  type Path = seq<string>

  /** A component as it appears in a normalised absolute path: non-empty and
      free of the separator. */
  predicate ValidComponent(c: string) {
    |c| > 0 && '/' !in c
  }

  predicate ValidPath(p: Path) {
    forall i :: 0 <= i < |p| ==> ValidComponent(p[i])
  }

  /** `a` is `p` itself or one of the directories above it. */
  predicate IsAncestorOrSelf(a: Path, p: Path) {
    a <= p
  }

  /** `Path::parent`: the directory one level up, or `None` on the root. */
  function Parent(p: Path): (r: Option<Path>)
    ensures r.None? <==> p == []
    ensures r.Some? ==> |r.value| + 1 == |p| && IsAncestorOrSelf(r.value, p)
  {
    if p == [] then None else Some(p[..|p| - 1])
  }

  /** `Path::join` with one relative component. Joining the empty string adds
      only a trailing separator, so it names the same directory. */
  function Join(dir: Path, c: string): (r: Path)
    ensures c == "" ==> r == dir
    ensures c != "" ==> |r| == |dir| + 1 && dir <= r && r[|dir|] == c
  {
    if c == "" then dir else dir + [c]
  }

  /** Every component written with a leading separator: "/a/b" for ["a", "b"]. */
  function Slashed(p: Path): (s: string)
    ensures ValidPath(p) && p != [] ==> |s| > 1 && s[|s| - 1] != '/'
  {
    if p == [] then "" else
      var rest := Slashed(p[1..]);
      assert ValidPath(p) && rest == [] ==> p[0][|p[0]| - 1] in p[0];
      "/" + p[0] + rest
  }

  /** The text `Path::to_str` gives for an absolute path: "/" for the root,
      "/a/b" otherwise, with no trailing separator. */
  function PathString(p: Path): (s: string)
    ensures |s| > 0 && s[0] == '/'
    ensures p == [] ==> s == "/"
    ensures ValidPath(p) && p != [] ==> |s| > 1 && s[|s| - 1] != '/'
  {
    if p == [] then "/" else Slashed(p)
  }

  /** Splitting "/" ++ a ++ r at its first separator after position 0
      recovers `a` when `a` is a valid component and `r` is empty or starts
      with a separator. */
  lemma FirstComponentDetermined(a: string, r1: string, b: string, r2: string)
    requires ValidComponent(a) && ValidComponent(b)
    requires r1 == [] || r1[0] == '/'
    requires r2 == [] || r2[0] == '/'
    requires "/" + a + r1 == "/" + b + r2
    ensures a == b && r1 == r2
  {
    var s := "/" + a + r1;
    assert a == s[1..1 + |a|];
    assert b == s[1..1 + |b|];
    assert r1 == s[1 + |a|..];
    assert r2 == s[1 + |b|..];
  }

  /** Distinct normalised paths render to distinct strings. */
  lemma {:induction false} PathStringInjective(p: Path, q: Path)
    requires ValidPath(p) && ValidPath(q)
    requires PathString(p) == PathString(q)
    ensures p == q
  {
    if p != [] && q != [] {
      SlashedInjective(p, q);
    }
  }

  lemma {:induction false} SlashedInjective(p: Path, q: Path)
    requires ValidPath(p) && ValidPath(q)
    requires Slashed(p) == Slashed(q)
    ensures p == q
    decreases |p|
  {
    if p != [] && q != [] {
      SlashedShape(p[1..]);
      SlashedShape(q[1..]);
      FirstComponentDetermined(p[0], Slashed(p[1..]), q[0], Slashed(q[1..]));
      SlashedInjective(p[1..], q[1..]);
      assert p == [p[0]] + p[1..];
      assert q == [q[0]] + q[1..];
    }
  }

  /** The rendering of a path below the first component is empty or starts
      with a separator. */
  lemma SlashedShape(p: Path)
    ensures Slashed(p) == [] || Slashed(p)[0] == '/'
  {
  }
}
