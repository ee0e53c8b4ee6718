/** Sequences with the same elements. */
module Permutations {

  lemma SameSize<T>(s: seq<T>, t: seq<T>)
    requires multiset(s) == multiset(t)
    ensures |s| == |t|
  {
    assert |multiset(s)| == |s| && |multiset(t)| == |t|;
  }

  /** Permutations without a common element are permutations. */
  lemma SameRest<T>(s: seq<T>, i: nat, t: seq<T>, j: nat)
    requires multiset(s) == multiset(t) && i < |s| && j < |t| && s[i] == t[j]
    ensures multiset(s[..i] + s[i + 1..]) == multiset(t[..j] + t[j + 1..])
  {
    assert s == s[..i] + [s[i]] + s[i + 1..];
    assert t == t[..j] + [t[j]] + t[j + 1..];
    assert multiset(s[..i] + s[i + 1..]) == multiset(s) - multiset{s[i]};
    assert multiset(t[..j] + t[j + 1..]) == multiset(t) - multiset{t[j]};
  }

  ghost function Map<A, B>(f: A -> B, s: seq<A>): seq<B> {
    seq(|s|, k requires 0 <= k < |s| => f(s[k]))
  }

  lemma MapWithout<A, B>(f: A -> B, s: seq<A>, j: nat)
    requires j < |s|
    ensures multiset(Map(f, s)) == multiset(Map(f, s[..j] + s[j + 1..])) + multiset{f(s[j])}
  {
    var t := Map(f, s);
    assert Map(f, s[..j] + s[j + 1..]) == t[..j] + t[j + 1..];
    assert t == t[..j] + [t[j]] + t[j + 1..];
  }

  /** Images of a permutation are permutations. */
  lemma {:induction false} MapPermute<A, B>(f: A -> B, s: seq<A>, t: seq<A>)
    requires multiset(s) == multiset(t)
    ensures multiset(Map(f, s)) == multiset(Map(f, t))
    decreases |s|
  {
    SameSize(s, t);
    if s != [] {
      assert s[0] in multiset(t) by {
        assert s[0] in multiset(s);
      }
      var j :| 0 <= j < |t| && t[j] == s[0];
      SameRest(s, 0, t, j);
      MapPermute(f, s[..0] + s[1..], t[..j] + t[j + 1..]);
      MapWithout(f, s, 0);
      MapWithout(f, t, j);
    } else {
      assert Map(f, s) == [] && Map(f, t) == [];
    }
  }
}
