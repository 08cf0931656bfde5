/** The two `str` operations the launcher builds its strings with. */
module Strings {

  /** `[String]::join(sep)`: a character occurs in the joined text exactly
      when it occurs in one of the parts, or in the separator and there are
      at least two parts. */
  function JoinWith(xs: seq<string>, sep: string): (r: string)
    ensures forall c :: c in r <==> (|xs| > 1 && c in sep) || exists i :: 0 <= i < |xs| && c in xs[i]
  {
    if |xs| == 0 then ""
    else if |xs| == 1 then xs[0]
    else
      var rest := JoinWith(xs[1..], sep);
      assert forall i :: 1 <= i < |xs| ==> xs[i] == xs[1..][i - 1];
      assert forall i :: 0 <= i < |xs| - 1 ==> xs[1..][i] == xs[i + 1];
      xs[0] + sep + rest
  }

  /** `str::replace` of one character by another. */
  function Substitute(s: string, from: char, to: char): (r: string)
    ensures |r| == |s|
    ensures forall i :: 0 <= i < |s| ==> r[i] == (if s[i] == from then to else s[i])
  {
    if s == [] then []
    else [if s[0] == from then to else s[0]] + Substitute(s[1..], from, to)
  }

  lemma SubstituteAppend(a: string, b: string, from: char, to: char)
    ensures Substitute(a + b, from, to) == Substitute(a, from, to) + Substitute(b, from, to)
  {
    var l, r := Substitute(a + b, from, to), Substitute(a, from, to) + Substitute(b, from, to);
    forall i | 0 <= i < |l|
      ensures l[i] == r[i]
    {
      if i < |a| {
        assert (a + b)[i] == a[i] && r[i] == Substitute(a, from, to)[i];
      } else {
        assert (a + b)[i] == b[i - |a|] && r[i] == Substitute(b, from, to)[i - |a|];
      }
    }
  }

  /** Text without `from` is left alone. */
  lemma SubstituteAbsent(s: string, from: char, to: char)
    requires from !in s
    ensures Substitute(s, from, to) == s
  {
    forall i | 0 <= i < |s|
      ensures Substitute(s, from, to)[i] == s[i]
    {
      assert s[i] in s;
    }
  }
}
