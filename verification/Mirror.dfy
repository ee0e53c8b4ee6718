/** Two copies of one graph: over numbers, and over the elements of a sequence. */
module Mirror {
  import opened Graphs

  ghost predicate Within(idx: seq<nat>, n: nat) {
    forall k :: 0 <= k < |idx| ==> idx[k] < n
  }

  /** The elements at these positions. */
  ghost function Through<V>(f: seq<V>, idx: seq<nat>): seq<V>
    requires Within(idx, |f|)
  {
    seq(|idx|, k requires 0 <= k < |idx| => f[idx[k]])
  }

  /** Where v stands in f. */
  ghost function IndexIn<V>(f: seq<V>, v: V): (i: nat)
    requires v in f
    ensures i < |f| && f[i] == v
  {
    var i :| 0 <= i < |f| && f[i] == v;
    i
  }

  ghost predicate InRange(G: DepGraph<nat>, n: nat) {
    && (forall i: nat :: i in G <==> i < n)
    && (forall i: nat, s: Slot :: i < n ==> Within(G[i].Get(s), n))
  }

  ghost function ImageNode<V>(f: seq<V>, G: DepGraph<nat>, i: nat): Five<seq<V>>
    requires InRange(G, |f|) && i < |f|
  {
    var d := G[i];
    assert Within(d.Get(E), |f|) && Within(d.Get(P), |f|) && Within(d.Get(F), |f|) && Within(d.Get(B), |f|) && Within(d.Get(R), |f|);
    Five(Through(f, d.e), Through(f, d.p), Through(f, d.f), Through(f, d.b), Through(f, d.r))
  }

  /** The graph G drawn over the elements of f. */
  ghost function Image<V>(f: seq<V>, G: DepGraph<nat>): DepGraph<V>
    requires InRange(G, |f|)
  {
    map v | v in f :: ImageNode(f, G, IndexIn(f, v))
  }

  lemma ImageAt<V>(f: seq<V>, G: DepGraph<nat>, i: nat, s: Slot)
    requires InRange(G, |f|) && NoDup(f) && i < |f|
    ensures f[i] in Image(f, G)
    ensures Image(f, G)[f[i]].Get(s) == Through(f, G[i].Get(s))
  {
    assert IndexIn(f, f[i]) == i;
  }

  ghost predicate MirrorsEdges<V>(f: seq<V>, M: Edges<nat>, e: Edges<V>) {
    && NoDup(f)
    && (forall i: nat :: i in M <==> i < |f|)
    && e.Keys == Elems(f)
    && (forall i: nat, j: nat :: i < |f| && j in M[i] ==> j < |f| && f[j] in e[f[i]])
    && (forall i: nat, j: nat :: i < |f| && j < |f| && f[j] in e[f[i]] ==> j in M[i])
    && (forall i: nat, v :: i < |f| && v in e[f[i]] ==> v in f)
  }

  /** Walks correspond. */
  lemma {:induction false} WalkMirrors<V>(f: seq<V>, M: Edges<nat>, e: Edges<V>, i: nat, n: nat, j: nat)
    requires MirrorsEdges(f, M, e) && i < |f| && j < |f|
    ensures j in Walk(M, i, n) <==> f[j] in Walk(e, f[i], n)
    decreases n
  {
    if n > 0 {
      if j in Walk(M, i, n) {
        var a :| a in M[i] && j in Walk(M, a, n - 1);
        WalkMirrors(f, M, e, a, n - 1, j);
        assert f[a] in e[f[i]] && f[j] in Walk(e, f[a], n - 1);
      }
      if f[j] in Walk(e, f[i], n) {
        var b :| b in e[f[i]] && f[j] in Walk(e, b, n - 1);
        var a := IndexIn(f, b);
        WalkMirrors(f, M, e, a, n - 1, j);
        assert a in M[i] && j in Walk(M, a, n - 1);
      }
    }
  }

  lemma ReachMirrors<V>(f: seq<V>, M: Edges<nat>, e: Edges<V>, i: nat, j: nat)
    requires MirrorsEdges(f, M, e) && i < |f| && j < |f|
    ensures Reaches(M, i, j) <==> Reaches(e, f[i], f[j])
  {
    forall n: nat
      ensures j in Walk(M, i, n) <==> f[j] in Walk(e, f[i], n)
    {
      WalkMirrors(f, M, e, i, n, j);
    }
  }

  lemma AcyclicMirrors<V>(f: seq<V>, M: Edges<nat>, e: Edges<V>)
    requires MirrorsEdges(f, M, e)
    ensures Acyclic(M) <==> Acyclic(e)
  {
    hide Reaches;
    forall i: nat | i < |f|
      ensures Reaches(M, i, i) <==> Reaches(e, f[i], f[i])
    {
      ReachMirrors(f, M, e, i, i);
    }
    if Acyclic(M) {
      forall v | v in e
        ensures !Reaches(e, v, v)
      {
        assert f[IndexIn(f, v)] == v;
      }
    }
  }

  lemma ThroughHas<V>(f: seq<V>, idx: seq<nat>, j: nat)
    requires NoDup(f) && Within(idx, |f|)
    ensures j in idx ==> j < |f| && f[j] in Through(f, idx)
    ensures j < |f| && f[j] in Through(f, idx) ==> j in idx
  {
    if j in idx {
      var k :| 0 <= k < |idx| && idx[k] == j;
      assert Through(f, idx)[k] == f[j];
    }
  }

  lemma NamedSlots<V>(d: Five<seq<V>>, x: V)
    ensures x in Named(d) <==> exists s: Slot :: x in d.Get(s)
  {
    assert x in Named(d) ==> x in d.Get(E) || x in d.Get(P) || x in d.Get(F) || x in d.Get(B) || x in d.Get(R);
  }

  lemma ImageInside<V>(f: seq<V>, G: DepGraph<nat>, i: nat, v: V)
    requires InRange(G, |f|) && NoDup(f) && i < |f|
    requires f[i] in Image(f, G) && v in Named(Image(f, G)[f[i]])
    ensures v in f
  {
    hide Image, Named;
    NamedSlots(Image(f, G)[f[i]], v);
    var s: Slot :| v in Image(f, G)[f[i]].Get(s);
    ImageAt(f, G, i, s);
  }

  lemma ImageKeys<V>(f: seq<V>, G: DepGraph<nat>)
    requires InRange(G, |f|)
    ensures Image(f, G).Keys == Elems(f)
  {
  }

  /** Direct entries correspond. */
  lemma ImageEntry<V>(f: seq<V>, G: DepGraph<nat>, i: nat, s: Slot, j: nat)
    requires InRange(G, |f|) && NoDup(f) && i < |f|
    ensures f[i] in Image(f, G)
    ensures j in G[i].Get(s) ==> j < |f|
    ensures j < |f| ==> (j in G[i].Get(s) <==> f[j] in Image(f, G)[f[i]].Get(s))
  {
    hide Image;
    ImageAt(f, G, i, s);
    assert Within(G[i].Get(s), |f|);
    ThroughHas(f, G[i].Get(s), j);
  }

  lemma ImageNamed<V>(f: seq<V>, G: DepGraph<nat>, i: nat, j: nat)
    requires InRange(G, |f|) && NoDup(f) && i < |f|
    ensures f[i] in Image(f, G)
    ensures j in Named(G[i]) ==> j < |f|
    ensures j < |f| ==> (j in Named(G[i]) <==> f[j] in Named(Image(f, G)[f[i]]))
  {
    hide Image, Named;
    forall s: Slot
      ensures f[i] in Image(f, G)
      ensures j in G[i].Get(s) ==> j < |f|
      ensures j < |f| ==> (j in G[i].Get(s) <==> f[j] in Image(f, G)[f[i]].Get(s))
    {
      ImageEntry(f, G, i, s, j);
    }
    ImageEntry(f, G, i, E, j);
    NamedSlots(G[i], j);
    if j < |f| {
      NamedSlots(Image(f, G)[f[i]], f[j]);
    }
  }

  lemma ImageMirrorsAll<V>(f: seq<V>, G: DepGraph<nat>)
    requires InRange(G, |f|) && NoDup(f)
    ensures MirrorsEdges(f, AllEdges(G), AllEdges(Image(f, G)))
  {
    hide Image, Named;
    ImageKeys(f, G);
    assert AllEdges(Image(f, G)).Keys == Elems(f) && forall i: nat :: i < |f| ==> f[i] in Elems(f);
    var M, e := AllEdges(G), AllEdges(Image(f, G));
    forall i: nat, j: nat | i < |f| && j in M[i]
      ensures j < |f|
    {
      ImageNamed(f, G, i, j);
    }
    forall i: nat, j: nat | i < |f| && j < |f|
      ensures j in M[i] <==> f[j] in e[f[i]]
    {
      ImageNamed(f, G, i, j);
    }
    forall i: nat, v | i < |f| && v in e[f[i]]
      ensures v in f
    {
      ImageInside(f, G, i, v);
    }
    assert forall i: nat :: i in M <==> i < |f|;
  }

  lemma ImageMirrorsRun<V>(f: seq<V>, G: DepGraph<nat>)
    requires InRange(G, |f|) && NoDup(f)
    ensures MirrorsEdges(f, RunEdges(G), RunEdges(Image(f, G)))
  {
    hide Image;
    ImageKeys(f, G);
    assert RunEdges(Image(f, G)).Keys == Elems(f) && forall i: nat :: i < |f| ==> f[i] in Elems(f);
    var M, e := RunEdges(G), RunEdges(Image(f, G));
    forall i: nat, j: nat | i < |f| && j in M[i]
      ensures j < |f|
    {
      ImageEntry(f, G, i, R, j);
    }
    forall i: nat, j: nat | i < |f| && j < |f|
      ensures j in M[i] <==> f[j] in e[f[i]]
    {
      ImageEntry(f, G, i, R, j);
    }
    assert forall i: nat :: i in M <==> i < |f|;
    forall i: nat, v | i < |f| && v in e[f[i]]
      ensures v in f
    {
      NamedHas(Image(f, G)[f[i]], R, v);
      ImageInside(f, G, i, v);
    }
  }

  lemma ImageClosed<V>(f: seq<V>, G: DepGraph<nat>)
    requires InRange(G, |f|) && NoDup(f)
    ensures Closed(Image(f, G))
  {
    hide Image, Named;
    ImageKeys(f, G);
    forall v, x | v in Image(f, G) && x in Named(Image(f, G)[v])
      ensures x in f
    {
      assert f[IndexIn(f, v)] == v;
      ImageInside(f, G, IndexIn(f, v), x);
    }
  }

  /** A closure over the elements is a closure over the numbers. */
  lemma ClosureMirrors<V>(f: seq<V>, G: DepGraph<nat>, i: nat, s: Slot, L: seq<V>) returns (K: seq<nat>)
    requires InRange(G, |f|) && NoDup(f) && i < |f| && f[i] in Image(f, G)
    requires IsClosure(Image(f, G), Image(f, G)[f[i]].Get(s), L)
    ensures Within(K, |f|) && Through(f, K) == L
    ensures IsClosure(G, G[i].Get(s), K)
  {
    hide Image, IsClosure;
    ClosureInside(f, G, i, s, L);
    K := seq(|L|, k requires 0 <= k < |L| => IndexIn(f, L[k]));
    assert Through(f, K) == L;
    ImageAt(f, G, i, s);
    ClosureShape(Image(f, G), Image(f, G)[f[i]].Get(s), L);
    PrefixThrough(f, G[i].Get(s), K);
    ClosureAdded(f, G, i, s, L, K);
    ClosureCovers(f, G, i, s, L, K);
    ClosureOf(G, G[i].Get(s), K);
  }

  lemma PrefixThrough<V>(f: seq<V>, d: seq<nat>, K: seq<nat>)
    requires NoDup(f) && Within(d, |f|) && Within(K, |f|) && Through(f, d) <= Through(f, K)
    ensures d <= K
  {
    forall k | 0 <= k < |d|
      ensures K[k] == d[k]
    {
      assert f[K[k]] == Through(f, K)[k] == Through(f, d)[k] == f[d[k]];
    }
  }

  lemma ClosureInside<V>(f: seq<V>, G: DepGraph<nat>, i: nat, s: Slot, L: seq<V>)
    requires InRange(G, |f|) && NoDup(f) && i < |f| && f[i] in Image(f, G)
    requires IsClosure(Image(f, G), Image(f, G)[f[i]].Get(s), L)
    ensures forall k :: 0 <= k < |L| ==> L[k] in f
  {
    hide IsClosure, Image;
    var g := Image(f, G);
    var d := g[f[i]].Get(s);
    ImageClosed(f, G);
    ImageKeys(f, G);
    ClosureShape(g, d, L);
    forall k | 0 <= k < |L|
      ensures L[k] in f
    {
      if k < |d| {
        NamedHas(g[f[i]], s, L[k]);
        ImageInside(f, G, i, L[k]);
      } else {
        assert L[k] == L[|d|..][k - |d|];
        var a, n := ClosureAdds(g, d, L, L[k]);
        NamedHas(g[f[i]], s, a);
        WalkStays(g, a, n, L[k]);
      }
    }
  }

  /** What the list adds beyond its direct entries. */
  ghost predicate AddsReached(G: DepGraph<nat>, d: seq<nat>, K: seq<nat>) {
    && d <= K
    && NoDup(K[|d|..])
    && forall x :: x in K[|d|..] ==> x !in d && exists a :: a in d && Reaches(RunEdges(G), a, x)
  }

  ghost predicate HoldsReached(G: DepGraph<nat>, d: seq<nat>, K: seq<nat>) {
    forall a, x :: a in d && x in G && Reaches(RunEdges(G), a, x) ==> x in K
  }

  lemma ClosureOf(G: DepGraph<nat>, d: seq<nat>, K: seq<nat>)
    requires AddsReached(G, d, K) && HoldsReached(G, d, K)
    ensures IsClosure(G, d, K)
  {
  }

  lemma ClosureAdded<V>(f: seq<V>, G: DepGraph<nat>, i: nat, s: Slot, L: seq<V>, K: seq<nat>)
    requires InRange(G, |f|) && NoDup(f) && i < |f| && f[i] in Image(f, G)
    requires IsClosure(Image(f, G), Image(f, G)[f[i]].Get(s), L)
    requires Within(K, |f|) && Through(f, K) == L && G[i].Get(s) <= K
    ensures AddsReached(G, G[i].Get(s), K)
  {
    hide Image, IsClosure, Reaches, RunEdges;
    var g, d := Image(f, G), G[i].Get(s);
    ImageAt(f, G, i, s);
    ImageMirrorsRun(f, G);
    var dd, rest := Through(f, d), K[|d|..];
    ClosureShape(g, dd, L);
    assert Through(f, rest) == L[|dd|..];
    forall m, n | 0 <= m < n < |rest|
      ensures rest[m] != rest[n]
    {
      assert Through(f, rest)[m] != Through(f, rest)[n];
    }
    forall x | x in rest
      ensures x !in d && exists a :: a in d && Reaches(RunEdges(G), a, x)
    {
      ThroughHas(f, rest, x);
      ThroughHas(f, d, x);
      var b := ClosureSource(g, dd, L, f[x]);
      var k :| 0 <= k < |d| && dd[k] == b;
      ReachMirrors(f, RunEdges(G), RunEdges(g), d[k], x);
    }
  }

  lemma ClosureSource<V>(g: DepGraph<V>, d: seq<V>, L: seq<V>, x: V) returns (a: V)
    requires IsClosure(g, d, L) && x in L[|d|..]
    ensures x !in d && a in d && Reaches(RunEdges(g), a, x)
  {
    a :| a in d && Reaches(RunEdges(g), a, x);
  }

  lemma ClosureCovers<V>(f: seq<V>, G: DepGraph<nat>, i: nat, s: Slot, L: seq<V>, K: seq<nat>)
    requires InRange(G, |f|) && NoDup(f) && i < |f| && f[i] in Image(f, G)
    requires IsClosure(Image(f, G), Image(f, G)[f[i]].Get(s), L)
    requires Within(K, |f|) && Through(f, K) == L && G[i].Get(s) <= K
    ensures HoldsReached(G, G[i].Get(s), K)
  {
    hide Image, IsClosure, Reaches, RunEdges;
    var g, d := Image(f, G), G[i].Get(s);
    ImageAt(f, G, i, s);
    ImageKeys(f, G);
    ImageMirrorsRun(f, G);
    forall a, x | a in d && x in G && Reaches(RunEdges(G), a, x)
      ensures x in K
    {
      ReachMirrors(f, RunEdges(G), RunEdges(g), a, x);
      ThroughHas(f, d, a);
      ClosureHasReached(g, Through(f, d), L, f[a], f[x]);
      ThroughHas(f, K, x);
    }
  }

  lemma ClosureHasReached<V>(g: DepGraph<V>, d: seq<V>, L: seq<V>, a: V, x: V)
    requires IsClosure(g, d, L) && a in d && x in g && Reaches(RunEdges(g), a, x)
    ensures x in L
  {
  }
}
