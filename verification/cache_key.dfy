/** The per-project cache key: the project root with its leading separators
    stripped and every remaining separator replaced by '+'. */
module CacheKey {
  import opened Paths
  import opened Strings

  /** The number of separators `trim_start_matches('/')` removes. */
  function LeadingSlashes(s: string): (n: nat)
    ensures n <= |s|
    ensures forall i :: 0 <= i < n ==> s[i] == '/'
    ensures n < |s| ==> s[n] != '/'
  {
    if |s| > 0 && s[0] == '/' then 1 + LeadingSlashes(s[1..]) else 0
  }

  /** `project_root_dir.trim_start_matches('/').replace("/", "+")`. */
  function Key(root: string): (key: string)
    ensures forall i :: 0 <= i < |key| ==> key[i] != '/'
    ensures |key| == |root| - LeadingSlashes(root)
    ensures forall i :: 0 <= i < |key| ==>
      var c := root[LeadingSlashes(root) + i];
      key[i] == (if c == '/' then '+' else c)
  {
    Substitute(root[LeadingSlashes(root)..], '/', '+')
  }

  /** The inverse mapping: put back the one leading separator and turn every
      '+' into a separator. */
  function RestoreRoot(key: string): (root: string)
    ensures |root| == |key| + 1 && root[0] == '/'
  {
    "/" + Substitute(key, '+', '/')
  }

  /** Roots the inverse can recover: exactly one leading separator and no '+'. */
  predicate Recoverable(root: string) {
    && |root| > 0 && root[0] == '/'
    && (|root| == 1 || root[1] != '/')
    && '+' !in root
  }

  /** Round trip: a recoverable root comes back from its key. */
  lemma KeyRoundTrip(root: string)
    requires Recoverable(root)
    ensures RestoreRoot(Key(root)) == root
  {
    var back := RestoreRoot(Key(root));
    assert LeadingSlashes(root) == 1;
    forall i | 0 <= i < |root|
      ensures back[i] == root[i]
    {
      if i > 0 {
        assert root[i] in root;
      }
    }
  }

  /** Recoverable roots never share a key. */
  lemma KeyInjective(a: string, b: string)
    requires Recoverable(a) && Recoverable(b)
    requires Key(a) == Key(b)
    ensures a == b
  {
    KeyRoundTrip(a);
    KeyRoundTrip(b);
  }

  /** Without the no-'+' condition two distinct roots share a key. */
  lemma KeyCollision()
    ensures Key("/a+b") == Key("/a/b") == "a+b"
  {
    assert LeadingSlashes("/a+b") == 1;
    assert LeadingSlashes("/a/b") == 1;
  }

  /** Distinct normalised paths whose components hold no '+' get distinct
      keys. */
  lemma PathKeyInjective(p: Path, q: Path)
    requires ValidPath(p) && ValidPath(q)
    requires forall i :: 0 <= i < |p| ==> '+' !in p[i]
    requires forall i :: 0 <= i < |q| ==> '+' !in q[i]
    requires Key(PathString(p)) == Key(PathString(q))
    ensures p == q
  {
    PathStringRecoverable(p);
    PathStringRecoverable(q);
    KeyInjective(PathString(p), PathString(q));
    PathStringInjective(p, q);
  }

  /** Two normalised paths collide when a component contains '+'. */
  lemma PathKeyCollision()
    ensures ValidPath(["a+b"]) && ValidPath(["a", "b"])
    ensures Key(PathString(["a+b"])) == Key(PathString(["a", "b"]))
  {
    assert PathString(["a+b"]) == "/a+b";
    assert PathString(["a", "b"]) == "/a/b" by {
      assert Slashed(["a", "b"]) == "/a" + Slashed(["b"]);
      assert Slashed(["b"]) == "/b" + Slashed([]);
    }
    KeyCollision();
  }

  /** The key of a normalised path is its components joined by '+'. */
  lemma KeyOfPath(p: Path)
    requires ValidPath(p)
    ensures Key(PathString(p)) == JoinWith(p, "+")
  {
    if p != [] {
      var s := Slashed(p);
      assert s == "/" + p[0] + Slashed(p[1..]);
      assert s[1] == p[0][0] && p[0][0] in p[0];
      assert LeadingSlashes(s) == 1;
      SubstitutedSlashed(p);
      assert Substitute(s, '/', '+')[1..] == Substitute(s[1..], '/', '+');
    }
  }

  /** Each separator of a rendered path becomes '+'. */
  lemma {:induction false} SubstitutedSlashed(p: Path)
    requires ValidPath(p) && p != []
    ensures Substitute(Slashed(p), '/', '+') == "+" + JoinWith(p, "+")
    decreases |p|
  {
    var first := Substitute("/" + p[0], '/', '+');
    var rest := Substitute(Slashed(p[1..]), '/', '+');
    SubstitutedSlashedStep(p);
    SubstitutedComponent(p[0]);
    if |p| > 1 {
      SubstitutedSlashed(p[1..]);
      PlusRegrouped(p[0], JoinWith(p[1..], "+"));
      assert JoinWith(p, "+") == p[0] + "+" + JoinWith(p[1..], "+");
    } else {
      assert rest == [];
    }
  }

  /** One component of a rendered path, its separator included. */
  lemma SubstitutedSlashedStep(p: Path)
    requires p != []
    ensures Substitute(Slashed(p), '/', '+')
         == Substitute("/" + p[0], '/', '+') + Substitute(Slashed(p[1..]), '/', '+')
  {
    assert Slashed(p) == ("/" + p[0]) + Slashed(p[1..]);
    SubstituteAppend("/" + p[0], Slashed(p[1..]), '/', '+');
  }

  lemma PlusRegrouped(a: string, b: string)
    ensures ("+" + a) + ("+" + b) == "+" + (a + "+" + b)
  {
  }

  lemma SubstitutedComponent(c: string)
    requires ValidComponent(c)
    ensures Substitute("/" + c, '/', '+') == "+" + c
  {
    SubstituteAppend("/", c, '/', '+');
    SubstituteAbsent(c, '/', '+');
  }

  /** The file-system root has the empty key, so its session directory is the
      cache directory itself. */
  lemma RootKeyIsEmpty()
    ensures Key(PathString([])) == ""
  {
  }

  lemma PathStringRecoverable(p: Path)
    requires ValidPath(p)
    requires forall i :: 0 <= i < |p| ==> '+' !in p[i]
    ensures Recoverable(PathString(p))
  {
    if p != [] {
      assert PathString(p) == "/" + p[0] + Slashed(p[1..]);
      assert p[0][0] != '/' by { assert p[0][0] in p[0]; }
      SlashedHasNoPlus(p);
    }
  }

  lemma {:induction false} SlashedHasNoPlus(p: Path)
    requires forall i :: 0 <= i < |p| ==> '+' !in p[i]
    ensures '+' !in Slashed(p)
  {
    if p != [] {
      SlashedHasNoPlus(p[1..]);
      assert '+' !in p[0];
    }
  }
}
