/** Dependency graphs: five lists of direct entries per node, walks, cycles and closures. */
module Graphs {
  /** The five dependency lists of a port: extract, patch, fetch, build, run. */
  datatype Slot = E | P | F | B | R

  datatype Five<+T> = Five(e: T, p: T, f: T, b: T, r: T) {
    function Get(s: Slot): T {
      match s
      case E => e
      case P => p
      case F => f
      case B => b
      case R => r
    }
  }

  type DepGraph<!V> = map<V, Five<seq<V>>>
  type Edges<!V> = map<V, set<V>>

  ghost function Elems<V>(s: seq<V>): set<V> {
    set x | x in s
  }

  ghost predicate NoDup<V>(s: seq<V>) {
    forall i, j :: 0 <= i < j < |s| ==> s[i] != s[j]
  }

  /** Everything a node names directly, in any list. */
  ghost function Named<V>(d: Five<seq<V>>): set<V> {
    Elems(d.e) + Elems(d.p) + Elems(d.f) + Elems(d.b) + Elems(d.r)
  }

  lemma NamedHas<V>(d: Five<seq<V>>, s: Slot, x: V)
    requires x in d.Get(s)
    ensures x in Named(d)
  {
  }

  lemma NamedWithin<V>(d: Five<seq<V>>, within: set<V>)
    requires forall s: Slot, x :: x in d.Get(s) ==> x in within
    ensures Named(d) <= within
  {
    assert forall x :: x in Named(d) ==> x in d.Get(E) || x in d.Get(P) || x in d.Get(F) || x in d.Get(B) || x in d.Get(R);
  }

  /** The edges recurse() follows. */
  ghost function AllEdges<V>(g: DepGraph<V>): Edges<V> {
    map v | v in g :: Named(g[v])
  }

  /** Run dependencies only. */
  ghost function RunEdges<V>(g: DepGraph<V>): Edges<V> {
    map v | v in g :: Elems(g[v].r)
  }

  ghost predicate Closed<V>(g: DepGraph<V>) {
    forall v :: v in g ==> Named(g[v]) <= g.Keys
  }

  /** Where walks of exactly n edges from v end. */
  ghost function Walk<V>(e: Edges<V>, v: V, n: nat): set<V>
    decreases n
  {
    if n == 0 then {v}
    else if v !in e then {}
    else var m := n - 1; set a, x | a in e[v] && x in Walk(e, a, m) :: x
  }

  /** x is reached from v by one or more edges. */
  ghost predicate Reaches<V>(e: Edges<V>, v: V, x: V) {
    exists n: nat :: n > 0 && x in Walk(e, v, n)
  }

  ghost predicate Acyclic<V>(e: Edges<V>) {
    forall v :: v in e ==> !Reaches(e, v, v)
  }

  lemma EdgeReaches<V>(e: Edges<V>, v: V, x: V)
    requires v in e && x in e[v]
    ensures Reaches(e, v, x)
  {
    assert x in Walk(e, x, 0);
    assert x in Walk(e, v, 1);
  }

  lemma StepReaches<V>(e: Edges<V>, v: V, a: V, x: V)
    requires v in e && a in e[v] && Reaches(e, a, x)
    ensures Reaches(e, v, x)
  {
    var n: nat :| n > 0 && x in Walk(e, a, n);
    assert x in Walk(e, v, n + 1);
  }

  /** Consecutive elements are joined by edges. */
  ghost predicate Path<V>(e: Edges<V>, s: seq<V>) {
    forall i :: 0 <= i < |s| - 1 ==> s[i] in e && s[i + 1] in e[s[i]]
  }

  /** A path whose last node has an edge back to its k-th closes a cycle there. */
  lemma {:induction false} PathCloses<V>(e: Edges<V>, s: seq<V>, k: nat, x: V)
    requires k < |s| && Path(e, s) && s[|s| - 1] in e && x in e[s[|s| - 1]]
    ensures Reaches(e, s[k], x)
    decreases |s| - k
  {
    if k == |s| - 1 {
      EdgeReaches(e, s[k], x);
    } else {
      PathCloses(e, s, k + 1, x);
      StepReaches(e, s[k], s[k + 1], x);
    }
  }

  /** Every edge out of the i-th node of the order leads to an earlier one. */
  ghost predicate Backward<V>(e: Edges<V>, order: seq<V>, i: nat)
    requires i < |order|
  {
    order[i] in e && e[order[i]] <= Elems(order[..i])
  }

  ghost predicate Topological<V>(e: Edges<V>, order: seq<V>) {
    NoDup(order) && forall i {:trigger Backward(e, order, i)} :: 0 <= i < |order| ==> Backward(e, order, i)
  }

  /** Walks descend in a topological order. */
  lemma {:induction false} WalksDescend<V>(e: Edges<V>, order: seq<V>, i: nat, n: nat, x: V)
    requires Topological(e, order) && i < |order| && n > 0 && x in Walk(e, order[i], n)
    ensures x in order[..i]
    decreases n
  {
    assert Backward(e, order, i);
    var a :| a in e[order[i]] && x in Walk(e, a, n - 1);
    assert a in order[..i];
    var j :| 0 <= j < i && order[j] == a;
    if n > 1 {
      WalksDescend(e, order, j, n - 1, x);
    }
  }

  /** A finishing order with backward edges only proves the graph acyclic. */
  lemma TopologicalIsAcyclic<V>(e: Edges<V>, order: seq<V>)
    requires Topological(e, order) && e.Keys == Elems(order)
    ensures Acyclic(e)
  {
    forall v | v in e
      ensures !Reaches(e, v, v)
    {
      var i :| 0 <= i < |order| && order[i] == v;
      forall n: nat | n > 0
        ensures v !in Walk(e, v, n)
      {
        if v in Walk(e, v, n) {
          WalksDescend(e, order, i, n, v);
          assert false;
        }
      }
    }
  }

  /** L is `direct` followed by distinct new nodes, each from the closure of a source. */
  ghost predicate Adds<V>(direct: seq<V>, sources: seq<V>, closure: map<V, seq<V>>, L: seq<V>) {
    && direct <= L
    && NoDup(L[|direct|..])
    && (forall x :: x in L[|direct|..] ==> x !in direct)
    && (forall x :: x in L[|direct|..] ==> exists a :: a in sources && a in closure && x in closure[a])
  }

  /** L holds the closures of the sources. */
  ghost predicate Covers<V>(sources: seq<V>, closure: map<V, seq<V>>, L: seq<V>) {
    forall a, x :: a in sources && a in closure && x in closure[a] ==> x in L
  }

  /** L is `direct` followed by what the closures of `sources` add, each once. */
  ghost predicate Expands<V>(direct: seq<V>, sources: seq<V>, closure: map<V, seq<V>>, L: seq<V>) {
    Adds(direct, sources, closure, L) && Covers(sources, closure, L)
  }

  lemma ExpandsNothing<V>(direct: seq<V>, closure: map<V, seq<V>>)
    ensures Expands(direct, [], closure, direct)
  {
  }

  lemma ExpandsPrefix<V>(direct: seq<V>, sources: seq<V>, closure: map<V, seq<V>>, L: seq<V>)
    requires Expands(direct, sources, closure, L)
    ensures direct <= L
  {
  }

  /** Appending a node of a source's closure unless it is present keeps Adds. */
  lemma AddOne<V>(direct: seq<V>, sources: seq<V>, closure: map<V, seq<V>>, L: seq<V>, a: V, x: V, L': seq<V>)
    requires Adds(direct, sources, closure, L) && a in sources && a in closure && x in closure[a]
    requires L' == if x in L then L else L + [x]
    ensures Adds(direct, sources, closure, L')
  {
    if x !in L {
      assert L'[|direct|..] == L[|direct|..] + [x];
    }
  }

  /** The run lists of finished nodes. */
  ghost function RunLists<V>(lists: DepGraph<V>): map<V, seq<V>> {
    map v | v in lists :: lists[v].r
  }

  /** List s of v expands v's direct list by finished run lists. */
  ghost predicate ListExpanded<V>(g: DepGraph<V>, lists: DepGraph<V>, v: V, s: Slot)
    requires v in g && v in lists
  {
    Expands(g[v].Get(s), g[v].Get(s), RunLists(lists), lists[v].Get(s))
  }

  /** Every list of every node in `lists` does. */
  ghost predicate Expanded<V>(g: DepGraph<V>, lists: DepGraph<V>) {
    && lists.Keys <= g.Keys
    && (forall v :: v in lists ==> Named(g[v]) <= lists.Keys)
    && (forall v, s: Slot {:trigger ListExpanded(g, lists, v, s)} :: v in lists ==> ListExpanded(g, lists, v, s))
  }

  /** Expanded run lists hold everything run edges reach: by induction on the walk. */
  lemma {:induction false} RunListComplete<V>(g: DepGraph<V>, lists: DepGraph<V>, v: V, n: nat, x: V)
    requires Expanded(g, lists) && v in lists && n > 0 && x in Walk(RunEdges(g), v, n)
    ensures x in lists[v].r
    decreases n
  {
    assert ListExpanded(g, lists, v, R);
    var a :| a in RunEdges(g)[v] && x in Walk(RunEdges(g), a, n - 1);
    NamedHas(g[v], R, a);
    if n > 1 {
      RunListComplete(g, lists, a, n - 1, x);
      assert x in RunLists(lists)[a];
    }
  }

  /** ... and nothing else: by induction on the finishing order. */
  lemma {:induction false} RunListSound<V>(g: DepGraph<V>, lists: DepGraph<V>, order: seq<V>, i: nat, x: V)
    requires Expanded(g, lists) && Topological(AllEdges(g), order) && lists.Keys == Elems(order)
    requires i < |order| && x in lists[order[i]].r
    ensures Reaches(RunEdges(g), order[i], x)
    decreases i
  {
    var v := order[i];
    assert ListExpanded(g, lists, v, R);
    if x in g[v].r {
      EdgeReaches(RunEdges(g), v, x);
    } else {
      assert x in lists[v].r[|g[v].r|..];
      var a :| a in g[v].Get(R) && a in RunLists(lists) && x in RunLists(lists)[a];
      NamedHas(g[v], R, a);
      assert Backward(AllEdges(g), order, i);
      assert a in order[..i];
      var j :| 0 <= j < i && order[j] == a;
      RunListSound(g, lists, order, j, x);
      StepReaches(RunEdges(g), v, a, x);
    }
  }

  /** What a finished list holds: its direct entries in place, then each other port that
      run edges reach from a direct entry, once. */
  ghost predicate IsClosure<V>(g: DepGraph<V>, direct: seq<V>, L: seq<V>) {
    && direct <= L
    && NoDup(L[|direct|..])
    && (forall x :: x in L[|direct|..] ==> x !in direct)
    && (forall x :: x in L[|direct|..] ==> exists a :: a in direct && Reaches(RunEdges(g), a, x))
    && (forall a, x :: a in direct && x in g && Reaches(RunEdges(g), a, x) ==> x in L)
  }

  /** Local expansion along a finishing order is global closure. */
  lemma ExpandedIsClosure<V>(g: DepGraph<V>, lists: DepGraph<V>, order: seq<V>, v: V, s: Slot)
    requires Expanded(g, lists) && Topological(AllEdges(g), order) && lists.Keys == Elems(order)
    requires v in lists
    ensures IsClosure(g, g[v].Get(s), lists[v].Get(s))
  {
    var direct, L := g[v].Get(s), lists[v].Get(s);
    assert ListExpanded(g, lists, v, s);
    forall x | x in L[|direct|..]
      ensures exists a :: a in direct && Reaches(RunEdges(g), a, x)
    {
      var a :| a in direct && a in RunLists(lists) && x in RunLists(lists)[a];
      var i :| 0 <= i < |order| && order[i] == a;
      RunListSound(g, lists, order, i, x);
    }
    forall a, x | a in direct && x in g && Reaches(RunEdges(g), a, x)
      ensures x in L
    {
      NamedHas(g[v], s, a);
      var n: nat :| n > 0 && x in Walk(RunEdges(g), a, n);
      RunListComplete(g, lists, a, n, x);
      assert x in RunLists(lists)[a];
    }
  }

  /** The edges followed are the entries of all five lists, and run edges those of the last. */
  lemma EdgesAre<V>(g: DepGraph<V>, v: V, x: V)
    requires v in g
    ensures x in AllEdges(g)[v] <==> x in g[v].e || x in g[v].p || x in g[v].f || x in g[v].b || x in g[v].r
    ensures x in RunEdges(g)[v] <==> x in g[v].r
  {
  }

  lemma {:induction false} WalkThen<V>(e: Edges<V>, v: V, n: nat, a: V, x: V)
    requires a in Walk(e, v, n) && a in e && x in e[a]
    ensures x in Walk(e, v, n + 1)
    decreases n
  {
    if n == 0 {
      assert x in Walk(e, x, 0);
    } else {
      var b :| b in e[v] && a in Walk(e, b, n - 1);
      WalkThen(e, b, n - 1, a, x);
    }
  }

  lemma {:induction false} WalkLast<V>(e: Edges<V>, v: V, n: nat, x: V) returns (a: V)
    requires n > 0 && x in Walk(e, v, n)
    ensures a in Walk(e, v, n - 1) && a in e && x in e[a]
    decreases n
  {
    var b :| b in e[v] && x in Walk(e, b, n - 1);
    if n == 1 {
      a := v;
    } else {
      a := WalkLast(e, b, n - 1, x);
    }
  }

  lemma RunStepStays<V>(g: DepGraph<V>, v: V, a: V)
    requires Closed(g) && v in RunEdges(g) && a in RunEdges(g)[v]
    ensures a in g
  {
    NamedHas(g[v], R, a);
  }

  /** Walks stay inside a closed graph. */
  lemma {:induction false} WalkStays<V>(g: DepGraph<V>, v: V, n: nat, x: V)
    requires Closed(g) && v in g && x in Walk(RunEdges(g), v, n)
    ensures x in g
    decreases n
  {
    hide Closed, RunEdges;
    if n > 0 {
      var a :| v in RunEdges(g) && a in RunEdges(g)[v] && x in Walk(RunEdges(g), a, n - 1);
      RunStepStays(g, v, a);
      WalkStays(g, a, n - 1, x);
    }
  }

  /** A sequence without duplicates holds each of its elements once. */
  lemma {:induction false} NoDupOnce<V>(s: seq<V>, x: V)
    requires NoDup(s)
    ensures multiset(s)[x] == if x in s then 1 else 0
  {
    if s != [] {
      NoDupOnce(s[1..], x);
      assert s == [s[0]] + s[1..];
    }
  }

  lemma ClosureShape<V>(g: DepGraph<V>, d: seq<V>, L: seq<V>)
    requires IsClosure(g, d, L)
    ensures L == d + L[|d|..] && NoDup(L[|d|..])
  {
  }

  lemma ClosureAdds<V>(g: DepGraph<V>, d: seq<V>, L: seq<V>, x: V) returns (a: V, n: nat)
    requires IsClosure(g, d, L) && x in L[|d|..]
    ensures x !in d && a in d && n > 0 && x in Walk(RunEdges(g), a, n)
  {
    a :| a in d && Reaches(RunEdges(g), a, x);
    n :| n > 0 && x in Walk(RunEdges(g), a, n);
  }

  lemma ClosureHolds<V>(g: DepGraph<V>, d: seq<V>, L: seq<V>, a: V, n: nat, x: V)
    requires IsClosure(g, d, L) && a in d && n > 0 && x in g && x in Walk(RunEdges(g), a, n)
    ensures x in L
  {
    assert Reaches(RunEdges(g), a, x);
  }

  /** A closure holds the run dependencies of everything in it. */
  lemma ClosureHasNext<V>(g: DepGraph<V>, direct: seq<V>, L: seq<V>, a: V, x: V)
    requires Closed(g) && IsClosure(g, direct, L) && a in L && a in g && x in g[a].r
    ensures x in L
  {
    hide Walk, IsClosure, Closed, RunEdges;
    EdgesAre(g, a, x);
    SameKeys(g);
    RunStepStays(g, a, x);
    ClosureShape(g, direct, L);
    var d, n := a, 0;
    if a !in direct {
      d, n := ClosureAdds(g, direct, L, a);
    } else {
      WalkNowhere(RunEdges(g), a);
    }
    WalkThen(RunEdges(g), d, n, a, x);
    ClosureHolds(g, direct, L, d, n + 1, x);
  }

  lemma SameKeys<V>(g: DepGraph<V>)
    ensures RunEdges(g).Keys == g.Keys
  {
  }

  lemma WalkNowhere<V>(e: Edges<V>, v: V)
    ensures v in Walk(e, v, 0)
  {
  }

  /** And what is not direct in it is a run dependency of something in it. */
  lemma ClosureHasPrevious<V>(g: DepGraph<V>, direct: seq<V>, L: seq<V>, x: V) returns (a: V)
    requires IsClosure(g, direct, L) && x in L[|direct|..]
    ensures a in L && a in g && x in g[a].r
  {
    hide Walk, IsClosure;
    ClosureShape(g, direct, L);
    var d, n := ClosureAdds(g, direct, L, x);
    a := WalkLast(RunEdges(g), d, n, x);
    if n == 1 {
      WalkOnly(RunEdges(g), d, a);
    } else {
      ClosureHolds(g, direct, L, d, n - 1, a);
    }
  }

  lemma WalkOnly<V>(e: Edges<V>, v: V, a: V)
    requires a in Walk(e, v, 0)
    ensures a == v
  {
  }

  lemma AddedToBoth<V>(g: DepGraph<V>, d: seq<V>, K: seq<V>, L: seq<V>, x: V)
    requires Closed(g) && Elems(d) <= g.Keys && IsClosure(g, d, K) && IsClosure(g, d, L)
    requires x in K[|d|..]
    ensures x in L[|d|..]
  {
    hide Closed, IsClosure, RunEdges;
    var a, n := ClosureAdds(g, d, K, x);
    WalkStays(g, a, n, x);
    ClosureHolds(g, d, L, a, n, x);
    ClosureShape(g, d, L);
  }

  /** The closure of a list is unique up to the order of the added nodes. */
  lemma ClosureUnique<V>(g: DepGraph<V>, d: seq<V>, K: seq<V>, L: seq<V>)
    requires Closed(g) && Elems(d) <= g.Keys && IsClosure(g, d, K) && IsClosure(g, d, L)
    ensures multiset(K) == multiset(L)
  {
    hide Closed, IsClosure;
    ClosureShape(g, d, K);
    ClosureShape(g, d, L);
    forall x
      ensures multiset(K[|d|..])[x] == multiset(L[|d|..])[x]
    {
      if x in K[|d|..] {
        AddedToBoth(g, d, K, L, x);
      }
      if x in L[|d|..] {
        AddedToBoth(g, d, L, K, x);
      }
      NoDupOnce(K[|d|..], x);
      NoDupOnce(L[|d|..], x);
    }
    assert multiset(d + K[|d|..]) == multiset(d + L[|d|..]);
  }
}
