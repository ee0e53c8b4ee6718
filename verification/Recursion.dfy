/** Expansion of the dependency lists by a three-colour depth-first search. */
module Recursion {
  import opened Options
  import opened Graphs
  import opened Ports

  /** Ghost record of the search: the finished ports in finishing order, their final lists, and
      which list each block stored in a port belongs to. */
  datatype Done = Done(order: seq<Port>, lists: DepGraph<Port>, owner: Owners)

  /** The part of the invariant that is about the graph alone: the ports on the stack form a path,
      the finished ones a topological order, and their lists are expanded. */
  ghost predicate Plan(g: DepGraph<Port>, stack: seq<Port>, done: Done) {
    && Closed(g)
    && Elems(stack) <= g.Keys && NoDup(stack) && Path(AllEdges(g), stack)
    && done.lists.Keys == Elems(done.order)
    && Elems(stack) !! done.lists.Keys
    && Topological(AllEdges(g), done.order)
    && Expanded(g, done.lists)
  }

  /** A list as resolution left it: exactly the direct entries, in a block of exactly that size. */
  ghost predicate Untouched(l: DepList, direct: seq<Port>)
    reads l.d
  {
    Holds(l, direct) && l.n == l.d.Length
  }

  /** A port's colour tells what its lists hold. Of a port on the stack nothing is known. */
  ghost predicate Coloured(g: DepGraph<Port>, stack: seq<Port>, done: Done, p: Port)
    requires p in g
    reads p, set s: Slot | true :: p.Get(s).d
  {
    && Owns(done.owner, p)
    && (if p in stack then p.recursed == 1
        else if p in done.lists then p.recursed == 2 && forall s: Slot :: Holds(p.Get(s), done.lists[p].Get(s))
        else p.recursed == 0 && forall s: Slot :: Untouched(p.Get(s), g[p].Get(s)))
  }

  /** The invariant of the search. */
  ghost predicate Searching(g: DepGraph<Port>, stack: seq<Port>, done: Done)
    reads g.Keys, set p, s: Slot | p in g :: p.Get(s).d
  {
    Plan(g, stack, done) && forall p {:trigger Coloured(g, stack, done, p)} :: p in g ==> Coloured(g, stack, done, p)
  }

  /** later agrees with m wherever m is defined. */
  ghost predicate Submap<K, V>(m: map<K, V>, later: map<K, V>) {
    forall k :: k in m ==> k in later && later[k] == m[k]
  }

  /** What was finished and owned stays so. */
  ghost predicate Extends(done: Done, later: Done) {
    && done.lists.Keys <= later.lists.Keys
    && Submap(done.lists, later.lists) && Submap(done.owner, later.owner)
  }

  lemma ExtendsSelf(done: Done)
    ensures Extends(done, done) && Claimed(done, done) == {}
  {
  }

  lemma StillOwned(done: Done, later: Done, d: array<Dep>)
    requires Extends(done, later) && d in done.owner
    ensures d in later.owner && later.owner[d] == done.owner[d]
  {
  }

  /** The blocks that came in between. */
  ghost function Claimed(done: Done, later: Done): set<array<Dep>> {
    later.owner.Keys - done.owner.Keys
  }

  lemma ExtendsChains(a: Done, b: Done, c: Done)
    requires Extends(a, b) && Extends(b, c)
    ensures Extends(a, c)
    ensures Claimed(a, c) == Claimed(a, b) + Claimed(b, c)
  {
  }

  /** The record learns which list a block is for. */
  ghost function Claim(done: Done, d: array<Dep>, p: Port, s: Slot): Done {
    done.(owner := done.owner[d := (p, s)])
  }

  /** Growing a block: the old cells, then room for more. */
  method Realloc(d: array<Dep>, n: nat) returns (d': array<Dep>)
    requires d.Length <= n
    ensures fresh(d') && d'.Length == n && d'[..d.Length] == d[..]
  {
    d' := new Dep[n];
    for k := 0 to d.Length
      invariant d'[..k] == d[..k]
    {
      d'[k] := d[k];
    }
  }

  /** d is the growing block of list s of p: L fills its first cells, the count field of the list
      holds its capacity. A block with room left is not the one stored in the port. */
  ghost predicate Growing(p: Port, s: Slot, d: array<Dep>, L: seq<Port>)
    reads p, d
  {
    Refers(d, L) && p.Get(s).n == d.Length <= 2 * |L|
  }

  /** Of p's fields, at most the count of list s changed. */
  twostate predicate OnlyCountMoved(p: Port, s: Slot)
    reads p
  {
    && p.recursed == old(p.recursed)
    && p.Get(s).d == old(p.Get(s).d)
    && forall t :: t != s ==> p.Get(t) == old(p.Get(t))
  }

  /** The innermost loop of recurse_one and the append below it: adds r unless present.
      N is the number of cells in use. */
  method AddMissing(p: Port, s: Slot, d: array<Dep>, N: nat, r: Port, ghost L: seq<Port>)
    returns (d': array<Dep>, N': nat, ghost L': seq<Port>)
    requires Growing(p, s, d, L) && N == |L| > 0
    modifies p, if N < d.Length then {d} else {}
    ensures L' == (if r in L then L else L + [r]) && N' == |L'|
    ensures Growing(p, s, d', L')
    ensures d' == d || fresh(d')
    ensures OnlyCountMoved(p, s) && (d' == d && N == d.Length ==> N' == N)
  {
    d', N', L' := d, N, L;
    var k := 0;
    while k < N
      invariant k <= N && r !in L[..k]
    {
      if r == d[k].port {
        break;
      }
      k := k + 1;
    }
    if k == N {
      assert L[..k] == L;
      N' := N + 1;
      if N' >= p.Get(s).n {
        p.Put(s, DepList(p.Get(s).n + p.Get(s).n, p.Get(s).d));
        d' := Realloc(d, p.Get(s).n);
        assert forall i :: 0 <= i < N ==> d'[i] == d'[..d.Length][i] == d[i];
      }
      d'[k] := Ref(r);
      L' := L + [r];
    }
  }

  /** The middle loop of recurse_one: add the run list of the finished port q. */
  method AddRunList(p: Port, s: Slot, q: Port, d: array<Dep>, N: nat, ghost direct: seq<Port>,
                    ghost sources: seq<Port>, ghost closure: map<Port, seq<Port>>, ghost L: seq<Port>)
    returns (d': array<Dep>, N': nat, ghost L': seq<Port>)
    requires q != p && q in closure && Holds(q.rdep, closure[q]) && (N < d.Length ==> q.rdep.d != d)
    requires Growing(p, s, d, L) && N == |L| > 0
    requires Expands(direct, sources, closure, L)
    modifies p, if N < d.Length then {d} else {}
    ensures Growing(p, s, d', L') && N' == |L'| > 0
    ensures d' == d || fresh(d')
    ensures Expands(direct, sources + [q], closure, L')
    ensures OnlyCountMoved(p, s) && (d' == d && N == d.Length ==> N' == N)
  {
    d', N', L' := d, N, L;
    var j := 0;
    while j < q.rdep.n
      invariant j <= q.rdep.n == |closure[q]|
      invariant Refers(q.rdep.d, closure[q])
      invariant Growing(p, s, d', L') && N <= N' == |L'|
      invariant d' == d || fresh(d')
      invariant Adds(direct, sources + [q], closure, L') && Covers(sources, closure, L')
      invariant forall m :: 0 <= m < j ==> closure[q][m] in L'
      invariant OnlyCountMoved(p, s)
    {
      var r := q.rdep.d[j].port;
      ghost var L0 := L';
      d', N', L' := AddMissing(p, s, d', N', r, L');
      AddOne(direct, sources + [q], closure, L0, q, r, L');
      j := j + 1;
    }
  }

  /** More finished ports do not disturb a partly expanded list. */
  lemma ExpandsLater(direct: seq<Port>, sources: seq<Port>, done: DepGraph<Port>, later: DepGraph<Port>, L: seq<Port>)
    requires Expands(direct, sources, RunLists(done), L) && Submap(done, later)
    requires forall a :: a in sources ==> a in done
    ensures Expands(direct, sources, RunLists(later), L)
  {
    forall x | x in L[|direct|..]
      ensures exists a :: a in sources && a in later && x in RunLists(later)[a]
    {
      var a :| a in sources && a in done && x in RunLists(done)[a];
      assert x in RunLists(later)[a];
    }
  }

  /** The search goes from the top of the stack to q along an edge. */
  ghost predicate Follows(g: DepGraph<Port>, stack: seq<Port>, q: Port) {
    stack != [] ==> stack[|stack| - 1] in g && q in Named(g[stack[|stack| - 1]])
  }

  lemma DirectEntries(g: DepGraph<Port>, stack: seq<Port>, done: Done, p: Port, s: Slot)
    requires Searching(g, stack, done) && p in g && stack != [] && p == stack[|stack| - 1]
    ensures forall q :: q in g[p].Get(s) ==> q in g && Follows(g, stack, q)
  {
    forall q | q in g[p].Get(s)
      ensures q in Named(g[p])
    {
      NamedHas(g[p], s, q);
    }
  }

  lemma StackIsNotDone(g: DepGraph<Port>, stack: seq<Port>, done: Done, p: Port)
    requires Searching(g, stack, done)
    ensures p in stack ==> p in g && p !in done.lists
    ensures p in done.lists ==> p in g && p !in stack
  {
  }

  /** The ports the search has not reached. */
  ghost function White(g: DepGraph<Port>, stack: seq<Port>, done: Done): set<Port> {
    g.Keys - Elems(stack) - done.lists.Keys
  }

  /** The ports in `kept` did not change. */
  twostate predicate Undisturbed(g: DepGraph<Port>, kept: set<Port>)
    reads g.Keys
  {
    forall p :: p in g && p in kept ==> unchanged(p)
  }

  /** Adding the run list of a finished port touches only the growing block and its count field,
      so no list anybody else reads. */
  method AddFinished(p: Port, s: Slot, q: Port, d: array<Dep>, N: nat, ghost g: DepGraph<Port>, ghost stack: seq<Port>,
                     ghost done: Done, ghost direct: seq<Port>, ghost sources: seq<Port>, ghost L: seq<Port>)
    returns (d': array<Dep>, N': nat, ghost done': Done, ghost L': seq<Port>)
    requires Searching(g, stack, done) && p in stack && q in done.lists
    requires Growing(p, s, d, L) && N == |L| > 0
    requires d in done.owner && done.owner[d] == (p, s)
    requires Expands(direct, sources, RunLists(done.lists), L)
    modifies p, if N < d.Length then {d} else {}
    ensures done' == Claim(done, d', p, s) && Extends(done, done') && fresh(Claimed(done, done'))
    ensures Searching(g, stack, done') && OnlyCountMoved(p, s)
    ensures Growing(p, s, d', L') && N' == |L'| > 0
    ensures (d' == d && (N == d.Length ==> N' == N)) || fresh(d')
    ensures Expands(direct, sources + [q], RunLists(done.lists), L')
  {
    hide Expands, Plan;
    StackIsNotDone(g, stack, done, p);
    StackIsNotDone(g, stack, done, q);
    assert Coloured(g, stack, done, q);
    assert Holds(q.Get(R), done.lists[q].Get(R));
    d', N', L' := AddRunList(p, s, q, d, N, direct, sources, RunLists(done.lists), L);
    done' := Claim(done, d', p, s);
    SamePlan(g, stack, done, done');
    forall r | r in g
      ensures Coloured(g, stack, done', r)
    {
      assert old(Coloured(g, stack, done, r));
      if r == p {
        assert forall t :: p.Get(t).d == old(p.Get(t).d);
      } else {
        assert unchanged(r);
        assert forall t: Slot :: r.Get(t).d != d;
        assert forall t: Slot :: unchanged(r.Get(t).d);
      }
    }
  }

  /** The outer loop of recurse_one after i entries: the ports of the first i direct entries are
      finished, and L, in the block d, is the direct list expanded by their run lists. */
  ghost predicate Expanding(g: DepGraph<Port>, stack: seq<Port>, done: Done, p: Port, s: Slot,
                            d: array<Dep>, i: nat, L: seq<Port>)
    reads g.Keys, set q, t: Slot | q in g :: q.Get(t).d
    reads d
  {
    && Searching(g, stack, done) && OnTop(g, stack, p)
    && Growing(p, s, d, L)
    && d in done.owner && done.owner[d] == (p, s)
    && i <= |g[p].Get(s)| <= |L|
    && Elems(g[p].Get(s)[..i]) <= done.lists.Keys
    && Expands(g[p].Get(s), g[p].Get(s)[..i], RunLists(done.lists), L)
  }

  ghost predicate OnTop(g: DepGraph<Port>, stack: seq<Port>, p: Port) {
    p in g && stack != [] && p == stack[|stack| - 1]
  }

  /** One entry of the outer loop: finish the port it names, then add that port's run list. */
  method RecurseEntry(p: Port, s: Slot, i: nat, d: array<Dep>, N: nat, ghost g: DepGraph<Port>, ghost stack: seq<Port>,
                      ghost done: Done, ghost L: seq<Port>)
    returns (d': array<Dep>, N': nat, err: Option<Port>, ghost done': Done, ghost L': seq<Port>)
    requires Expanding(g, stack, done, p, s, d, i, L) && i < |g[p].Get(s)| && N == |L|
    modifies g.Keys, if N < d.Length then {d} else {}
    ensures err.None? ==> Expanding(g, stack, done', p, s, d', i + 1, L') && N' == |L'|
    ensures err.None? ==> Extends(done, done') && fresh(Claimed(done, done'))
    ensures err.None? ==> Undisturbed(g, Elems(stack) - {p}) && OnlyCountMoved(p, s)
    ensures err.None? ==> (d' == d && (N == d.Length ==> N' == N)) || fresh(d')
    ensures err.Some? ==> err.value in g && Reaches(AllEdges(g), err.value, err.value)
    decreases White(g, stack, done), 1
  {
    hide Expands, Plan, Searching, Follows, Reaches, Submap, Claimed;
    d', N', L' := d, N, L;
    ghost var direct := g[p].Get(s);
    ExpandsPrefix(direct, direct[..i], RunLists(done.lists), L);
    DirectEntries(g, stack, done, p, s);
    assert d[i].port == direct[i] && direct[..i + 1] == direct[..i] + [direct[i]];
    err, done' := Recurse(d[i].port, g, stack, done);
    if err.Some? {
      return;
    }
    ExpandsLater(direct, direct[..i], done.lists, done'.lists, L);
    ghost var between := done';
    StillOwned(done, between, d);
    d', N', done', L' := AddFinished(p, s, d[i].port, d, N, g, stack, between, direct, direct[..i], L);
    ExtendsChains(done, between, done');
    ExpandsPrefix(direct, direct[..i + 1], RunLists(done'.lists), L');
  }

  /** Storing a count through the pointer recurse_one was given. */
  method SetCount(p: Port, s: Slot, n: nat, ghost g: DepGraph<Port>, ghost stack: seq<Port>, ghost done: Done)
    requires Searching(g, stack, done) && p in stack
    modifies p
    ensures Searching(g, stack, done) && OnlyCountMoved(p, s) && p.Get(s).n == n
  {
    hide Plan;
    StackIsNotDone(g, stack, done, p);
    p.Put(s, DepList(n, p.Get(s).d));
    forall r | r in g
      ensures Coloured(g, stack, done, r)
    {
      assert old(Coloured(g, stack, done, r));
      assert r != p ==> unchanged(r);
    }
  }

  lemma StartExpanding(g: DepGraph<Port>, stack: seq<Port>, done: Done, p: Port, s: Slot)
    requires Searching(g, stack, done) && OnTop(g, stack, p) && Untouched(p.Get(s), g[p].Get(s))
    ensures Expanding(g, stack, done, p, s, p.Get(s).d, 0, g[p].Get(s))
  {
    assert Coloured(g, stack, done, p);
    ExpandsNothing(g[p].Get(s), RunLists(done.lists));
  }

  lemma DoneExpanding(g: DepGraph<Port>, stack: seq<Port>, done: Done, p: Port, s: Slot, d: array<Dep>, L: seq<Port>)
    requires OnTop(g, stack, p) && Expanding(g, stack, done, p, s, d, |g[p].Get(s)|, L)
    ensures Searching(g, stack, done) && Refers(d, L) && d.Length <= 2 * |L|
    ensures d in done.owner && done.owner[d] == (p, s)
    ensures SlotDone(g, p, done, s, L)
  {
    assert g[p].Get(s)[..|g[p].Get(s)|] == g[p].Get(s);
  }

  /** recurse_one on list s of the port on top of the stack. The caller stores the returned block. */
  method RecurseOne(p: Port, s: Slot, ghost g: DepGraph<Port>, ghost stack: seq<Port>, ghost done: Done)
    returns (d: array<Dep>, err: Option<Port>, ghost done': Done, ghost L: seq<Port>)
    requires Searching(g, stack, done) && OnTop(g, stack, p) && Untouched(p.Get(s), g[p].Get(s))
    modifies g.Keys
    ensures err.None? ==> Searching(g, stack, done') && SlotDone(g, p, done', s, L)
    ensures err.None? ==> Extends(done, done') && fresh(Claimed(done, done'))
    ensures err.None? ==> Undisturbed(g, Elems(stack) - {p}) && OnlyCountMoved(p, s)
    ensures err.None? ==> Refers(d, L) && p.Get(s).n == |L| && d.Length <= 2 * |L|
    ensures err.None? ==> d in done'.owner && done'.owner[d] == (p, s)
    ensures err.Some? ==> err.value in g && Reaches(AllEdges(g), err.value, err.value)
    decreases White(g, stack, done), 2
  {
    hide Reaches, Searching, SlotDone, Expanding, Submap, Claimed;
    done', L, err := done, g[p].Get(s), None;
    d := p.Get(s).d;
    var n := p.Get(s).n;
    var N, i := n, 0;
    StartExpanding(g, stack, done, p, s);
    ExtendsSelf(done);
    while i < n
      invariant i <= n == |g[p].Get(s)| && err.None?
      invariant Expanding(g, stack, done', p, s, d, i, L) && N == |L|
      invariant Extends(done, done') && fresh(Claimed(done, done'))
      invariant Undisturbed(g, Elems(stack) - {p}) && OnlyCountMoved(p, s)
      invariant (d == old(p.Get(s).d) && N == d.Length) || fresh(d)
    {
      ghost var before := done';
      d, N, err, done', L := RecurseEntry(p, s, i, d, N, g, stack, before, L);
      if err.Some? {
        return;
      }
      ExtendsChains(done, before, done');
      i := i + 1;
    }
    DoneExpanding(g, stack, done', p, s, d, L);
    SetCount(p, s, N, g, stack, done');
  }

  /** The lists in `ready` are expanded and equal to those in `lists`, the others still untouched. */
  ghost predicate Progress(g: DepGraph<Port>, p: Port, done: Done, ready: set<Slot>, lists: Five<seq<Port>>)
    requires p in g
    reads p, set s: Slot | true :: p.Get(s).d
  {
    && (forall s: Slot :: s in ready ==> Holds(p.Get(s), lists.Get(s)) && SlotDone(g, p, done, s, lists.Get(s)))
    && (forall s: Slot :: s !in ready ==> Untouched(p.Get(s), g[p].Get(s)))
  }

  function With<T>(f: Five<T>, s: Slot, x: T): (f': Five<T>)
    ensures f'.Get(s) == x && forall t :: t != s ==> f'.Get(t) == f.Get(t)
  {
    match s
    case E => f.(e := x)
    case P => f.(p := x)
    case F => f.(f := x)
    case B => f.(b := x)
    case R => f.(r := x)
  }

  ghost predicate SlotDone(g: DepGraph<Port>, p: Port, done: Done, s: Slot, L: seq<Port>)
    requires p in g
  {
    && Elems(g[p].Get(s)) <= done.lists.Keys
    && Expands(g[p].Get(s), g[p].Get(s), RunLists(done.lists), L)
  }

  lemma SlotDoneLater(g: DepGraph<Port>, p: Port, done: DepGraph<Port>, later: Done, s: Slot, L: seq<Port>)
    requires p in g && Elems(g[p].Get(s)) <= done.Keys && Expands(g[p].Get(s), g[p].Get(s), RunLists(done), L)
    requires Submap(done, later.lists)
    ensures SlotDone(g, p, later, s, L)
  {
    ExpandsLater(g[p].Get(s), g[p].Get(s), done, later.lists, L);
  }

  /** p->xdep = recurse_one(p->xdep, &p->n_xdep). */
  method ExpandSlot(p: Port, s: Slot, ghost g: DepGraph<Port>, ghost stack: seq<Port>, ghost done: Done,
                    ghost ready: set<Slot>, ghost lists: Five<seq<Port>>)
    returns (err: Option<Port>, ghost done': Done, ghost lists': Five<seq<Port>>)
    requires Searching(g, stack, done) && OnTop(g, stack, p)
    requires s !in ready && Progress(g, p, done, ready, lists)
    modifies g.Keys
    ensures err.None? ==> Searching(g, stack, done') && Progress(g, p, done', ready + {s}, lists')
    ensures err.None? ==> Extends(done, done') && fresh(Claimed(done, done')) && Undisturbed(g, Elems(stack) - {p})
    ensures err.Some? ==> err.value in g && Reaches(AllEdges(g), err.value, err.value)
    decreases White(g, stack, done), 3
  {
    hide Searching, Reaches, Expands, Submap, Claimed;
    ghost var L;
    var d;
    lists' := lists;
    d, err, done', L := RecurseOne(p, s, g, stack, done);
    if err.Some? {
      return;
    }
    forall t | t in ready
      ensures SlotDone(g, p, done', t, lists.Get(t))
    {
      SlotDoneLater(g, p, done.lists, done', t, lists.Get(t));
    }
    lists' := With(lists, s, L);
    assert p in stack;
    Store(p, s, d, g, stack, done');
  }

  /** Storing the returned block. */
  method Store(p: Port, s: Slot, d: array<Dep>, ghost g: DepGraph<Port>, ghost stack: seq<Port>, ghost done: Done)
    requires Searching(g, stack, done) && p in stack
    requires d in done.owner && done.owner[d] == (p, s)
    modifies p
    ensures Searching(g, stack, done)
    ensures p.Get(s) == DepList(old(p.Get(s).n), d) && p.recursed == old(p.recursed)
    ensures forall t :: t != s ==> p.Get(t) == old(p.Get(t))
  {
    hide Plan;
    StackIsNotDone(g, stack, done, p);
    assert old(Coloured(g, stack, done, p));
    p.Put(s, DepList(p.Get(s).n, d));
    forall r | r in g
      ensures Coloured(g, stack, done, r)
    {
      assert old(Coloured(g, stack, done, r));
      assert r != p ==> unchanged(r);
    }
  }

  lemma SamePlan(g: DepGraph<Port>, stack: seq<Port>, done: Done, done': Done)
    requires Plan(g, stack, done) && done'.order == done.order && done'.lists == done.lists
    ensures Plan(g, stack, done')
  {
  }

  lemma PortColour(g: DepGraph<Port>, stack: seq<Port>, done: Done, p: Port)
    requires Searching(g, stack, done) && p in g
    ensures Coloured(g, stack, done, p)
    ensures p.recursed == 1 <==> p in stack
    ensures p.recursed == 2 <==> p in done.lists
    ensures p.recursed == 0 <==> p !in stack && p !in done.lists
  {
    assert Coloured(g, stack, done, p);
  }

  /** Meeting a port of the stack again closes a cycle through it. */
  lemma BackEdgeCloses(g: DepGraph<Port>, stack: seq<Port>, done: Done, p: Port)
    requires Searching(g, stack, done) && Follows(g, stack, p) && p in stack
    ensures p in g && Reaches(AllEdges(g), p, p)
  {
    var k :| 0 <= k < |stack| && stack[k] == p;
    PathCloses(AllEdges(g), stack, k, p);
  }

  lemma Pushed(g: DepGraph<Port>, stack: seq<Port>, done: Done, p: Port)
    requires Plan(g, stack, done) && Follows(g, stack, p)
    requires p in g && p !in stack && p !in done.lists
    ensures Plan(g, stack + [p], done)
  {
    hide Topological, Expanded, Closed;
    var grey := stack + [p];
    assert Elems(grey) == Elems(stack) + {p};
    forall i | 0 <= i < |grey| - 1
      ensures grey[i] in g && grey[i + 1] in AllEdges(g)[grey[i]]
    {
      assert grey[i] == stack[i];
      assert i < |stack| - 1 ==> grey[i + 1] == stack[i + 1];
    }
  }

  /** First visit: p goes grey on top of the stack. */
  method Push(p: Port, ghost g: DepGraph<Port>, ghost stack: seq<Port>, ghost done: Done)
    requires Searching(g, stack, done) && p in g && Follows(g, stack, p) && p !in stack && p !in done.lists
    modifies p
    ensures Searching(g, stack + [p], done) && Progress(g, p, done, {}, g[p])
  {
    hide Plan, Follows;
    PortColour(g, stack, done, p);
    assert Plan(g, stack + [p], done) by {
      Pushed(g, stack, done, p);
    }
    p.recursed := 1;
    forall r | r in g
      ensures Coloured(g, stack + [p], done, r)
    {
      assert old(Coloured(g, stack, done, r));
      assert r in stack + [p] <==> r in stack || r == p;
      if r != p {
        assert unchanged(r);
        assert Coloured(g, stack, done, r);
      } else {
        assert forall t :: p.Get(t) == old(p.Get(t));
      }
    }
  }

  /** The ghost record once p is finished with these lists. */
  ghost function Finish(done: Done, p: Port, lists: Five<seq<Port>>): Done {
    done.(order := done.order + [p], lists := done.lists[p := lists])
  }

  /** A node all of whose edges lead into the order can be put behind it. */
  lemma TopologicalGrows(e: Edges<Port>, order: seq<Port>, p: Port)
    requires Topological(e, order) && p in e && e[p] <= Elems(order) && p !in order
    ensures Topological(e, order + [p])
  {
    var later := order + [p];
    forall i | 0 <= i < |later|
      ensures Backward(e, later, i)
    {
      if i < |order| {
        assert Backward(e, order, i);
        assert later[..i] == order[..i];
      } else {
        assert later[..i] == order;
      }
    }
  }

  lemma ListStaysExpanded(g: DepGraph<Port>, done: DepGraph<Port>, later: DepGraph<Port>, v: Port, s: Slot)
    requires Expanded(g, done) && v in done && Submap(done, later)
    ensures ListExpanded(g, later, v, s)
  {
    hide Expands;
    assert ListExpanded(g, done, v, s);
    NamedAll(g[v], s);
    ExpandsLater(g[v].Get(s), g[v].Get(s), done, later, done[v].Get(s));
  }

  lemma ExpandedIsClosed(g: DepGraph<Port>, done: DepGraph<Port>)
    requires Expanded(g, done)
    ensures done.Keys <= g.Keys && forall v :: v in done ==> Named(g[v]) <= done.Keys
  {
  }

  /** A node whose lists are expanded by the finished ones joins them. */
  lemma ExpandedGrows(g: DepGraph<Port>, done: Done, p: Port, lists: Five<seq<Port>>)
    requires Expanded(g, done.lists) && p in g && p !in done.lists
    requires Named(g[p]) <= done.lists.Keys && forall s: Slot :: SlotDone(g, p, done, s, lists.Get(s))
    ensures Expanded(g, Finish(done, p, lists).lists)
  {
    hide Expands, RunLists, Named;
    var later := Finish(done, p, lists);
    assert Submap(done.lists, later.lists);
    ExpandedIsClosed(g, done.lists);
    forall v, s: Slot | v in later.lists
      ensures ListExpanded(g, later.lists, v, s)
    {
      if v == p {
        assert SlotDone(g, p, done, s, lists.Get(s));
        SlotDoneLater(g, p, done.lists, later, s, lists.Get(s));
      } else {
        ListStaysExpanded(g, done.lists, later.lists, v, s);
      }
    }
  }

  lemma Popped(g: DepGraph<Port>, stack: seq<Port>, done: Done, p: Port, lists: Five<seq<Port>>)
    requires Plan(g, stack + [p], done) && p in g
    requires forall s: Slot :: SlotDone(g, p, done, s, lists.Get(s))
    ensures p !in stack && p !in done.lists
    ensures Plan(g, stack, Finish(done, p, lists))
  {
    hide Topological, Expanded, Closed, Expands;
    var grey, later := stack + [p], Finish(done, p, lists);
    assert grey[|stack|] == p;
    assert forall i :: 0 <= i < |stack| ==> grey[i] == stack[i];
    forall s: Slot
      ensures forall x :: x in g[p].Get(s) ==> x in done.lists.Keys
    {
      assert SlotDone(g, p, done, s, lists.Get(s));
    }
    NamedWithin(g[p], done.lists.Keys);
    assert Elems(later.order) == Elems(done.order) + {p};
    assert Elems(grey) == Elems(stack) + {p};
    TopologicalGrows(AllEdges(g), done.order, p);
    ExpandedGrows(g, done, p, lists);
  }

  lemma NamedAll<V>(d: Five<seq<V>>, s: Slot)
    ensures Elems(d.Get(s)) <= Named(d)
  {
  }

  /** p is finished: black, with final lists. */
  method Pop(p: Port, ghost g: DepGraph<Port>, ghost stack: seq<Port>, ghost done: Done, ghost lists: Five<seq<Port>>)
    returns (ghost done': Done)
    requires Searching(g, stack + [p], done) && p in g
    requires Progress(g, p, done, {E, P, F, B, R}, lists)
    modifies p
    ensures p !in stack && p !in done.lists
    ensures done' == Finish(done, p, lists) && Extends(done, done') && Claimed(done, done') == {}
    ensures Searching(g, stack, done')
  {
    hide Plan, Expands;
    forall s: Slot
      ensures SlotDone(g, p, done, s, lists.Get(s))
    {
      assert match s { case E => true case P => true case F => true case B => true case R => true };
      assert s in {E, P, F, B, R};
    }
    done' := Finish(done, p, lists);
    Popped(g, stack, done, p, lists);
    assert Coloured(g, stack + [p], done, p);
    p.recursed := 2;
    forall r | r in g
      ensures Coloured(g, stack, done', r)
    {
      assert old(Coloured(g, stack + [p], done, r));
      assert r != p ==> unchanged(r);
      if r == p {
        forall s: Slot
          ensures Holds(p.Get(s), done'.lists[p].Get(s))
        {
          assert s in {E, P, F, B, R} && old(Holds(p.Get(s), lists.Get(s)));
        }
      }
    }
  }

  /** The first three expansions recurse does. */
  method ExpandFetching(p: Port, ghost g: DepGraph<Port>, ghost stack: seq<Port>, ghost done: Done)
    returns (err: Option<Port>, ghost done': Done, ghost lists: Five<seq<Port>>)
    requires Searching(g, stack, done) && OnTop(g, stack, p) && Progress(g, p, done, {}, g[p])
    modifies g.Keys
    ensures err.None? ==> Searching(g, stack, done') && Progress(g, p, done', {E, P, F}, lists)
    ensures err.None? ==> Extends(done, done') && fresh(Claimed(done, done')) && Undisturbed(g, Elems(stack) - {p})
    ensures err.Some? ==> err.value in g && Reaches(AllEdges(g), err.value, err.value)
    decreases White(g, stack, done), 4
  {
    hide Reaches, Progress, Searching, Submap, Claimed;
    ghost var d0, d1;
    done' := done;
    err, d0, lists := ExpandSlot(p, E, g, stack, done, {}, g[p]);
    if err.Some? { return; }
    err, d1, lists := ExpandSlot(p, P, g, stack, d0, {} + {E}, lists);
    if err.Some? { return; }
    ExtendsChains(done, d0, d1);
    err, done', lists := ExpandSlot(p, F, g, stack, d1, {} + {E} + {P}, lists);
    if err.Some? { return; }
    ExtendsChains(done, d1, done');
    assert {} + {E} + {P} + {F} == {E, P, F};
  }

  /** All five, in the order recurse does them. */
  method ExpandAll(p: Port, ghost g: DepGraph<Port>, ghost stack: seq<Port>, ghost done: Done)
    returns (err: Option<Port>, ghost done': Done, ghost lists: Five<seq<Port>>)
    requires Searching(g, stack, done) && OnTop(g, stack, p) && Progress(g, p, done, {}, g[p])
    modifies g.Keys
    ensures err.None? ==> Searching(g, stack, done') && Progress(g, p, done', {E, P, F, B, R}, lists)
    ensures err.None? ==> Extends(done, done') && fresh(Claimed(done, done')) && Undisturbed(g, Elems(stack) - {p})
    ensures err.Some? ==> err.value in g && Reaches(AllEdges(g), err.value, err.value)
    decreases White(g, stack, done), 5
  {
    hide Reaches, Progress, Searching, Submap, Claimed;
    ghost var d2, d3;
    done' := done;
    err, d2, lists := ExpandFetching(p, g, stack, done);
    if err.Some? { return; }
    err, d3, lists := ExpandSlot(p, B, g, stack, d2, {E, P, F}, lists);
    if err.Some? { return; }
    ExtendsChains(done, d2, d3);
    err, done', lists := ExpandSlot(p, R, g, stack, d3, {E, P, F} + {B}, lists);
    if err.Some? { return; }
    ExtendsChains(done, d3, done');
    assert {E, P, F} + {B} + {R} == {E, P, F, B, R};
  }

  /** recurse: the colour decides. An error names a port that depends upon itself. */
  method Recurse(p: Port, ghost g: DepGraph<Port>, ghost stack: seq<Port>, ghost done: Done)
    returns (err: Option<Port>, ghost done': Done)
    requires Searching(g, stack, done) && p in g && Follows(g, stack, p)
    modifies g.Keys
    ensures err.None? ==>
      && Searching(g, stack, done') && Extends(done, done') && p in done'.lists
      && fresh(Claimed(done, done')) && Undisturbed(g, Elems(stack))
    ensures err.Some? ==> err.value in g && Reaches(AllEdges(g), err.value, err.value)
    decreases White(g, stack, done), 0
  {
    hide Plan, Expands, Follows, Reaches, Progress, Searching, Coloured, Submap, Claimed;
    err, done' := None, done;
    ExtendsSelf(done);
    PortColour(g, stack, done, p);
    if p.recursed == 1 {
      BackEdgeCloses(g, stack, done, p);
      return Some(p), done;
    }
    if p.recursed == 2 {
      return;
    }
    Push(p, g, stack, done);
    ghost var grey := stack + [p];
    assert p in White(g, stack, done) && Elems(grey) == Elems(stack) + {p};
    ghost var expanded, lists;
    err, expanded, lists := ExpandAll(p, g, grey, done);
    if err.Some? {
      return;
    }
    done' := Pop(p, g, stack, expanded, lists);
    ExtendsChains(done, expanded, done');
  }

  /** The ports as resolution leaves them: white, with direct lists in blocks of their own. */
  ghost predicate Resolved(g: DepGraph<Port>, owner: Owners)
    reads g.Keys, set p, s: Slot | p in g :: p.Get(s).d
  {
    && Closed(g)
    && forall p :: p in g ==> Coloured(g, [], Done([], map[], owner), p)
  }

  /** Each list of p holds its closure, in a block of its own. */
  ghost predicate PortClosed(g: DepGraph<Port>, done: Done, p: Port)
    requires p in g && p in done.lists
    reads p, set s: Slot | true :: p.Get(s).d
  {
    && Owns(done.owner, p)
    && (forall s: Slot :: Holds(p.Get(s), done.lists[p].Get(s)))
    && (forall s: Slot :: IsClosure(g, g[p].Get(s), done.lists[p].Get(s)))
  }

  ghost predicate AllClosed(g: DepGraph<Port>, done: Done)
    reads g.Keys, set p, s: Slot | p in g :: p.Get(s).d
  {
    done.lists.Keys == g.Keys && forall p {:trigger PortClosed(g, done, p)} :: p in g ==> PortClosed(g, done, p)
  }

  /** The driver loop over all ports: it succeeds exactly when no port depends upon itself. */
  method RecurseAll(pp: array<Port>, ghost g: DepGraph<Port>, ghost owner: Owners)
    returns (err: Option<Port>, ghost done: Done)
    requires Elems(pp[..]) == g.Keys && Resolved(g, owner)
    modifies g.Keys
    ensures err.None? <==> Acyclic(AllEdges(g))
    ensures err.None? ==> AllClosed(g, done) && fresh(Claimed(Done([], map[], owner), done))
    ensures err.Some? ==> err.value in g && Reaches(AllEdges(g), err.value, err.value)
  {
    hide Searching, Acyclic, AllClosed, Reaches, Resolved, Submap, Claimed, Closed, Coloured, Named;
    done := Done([], map[], owner);
    StartSearching(g, owner);
    ExtendsSelf(done);
    var i := 0;
    while i < pp.Length
      invariant i <= pp.Length && Searching(g, [], done)
      invariant Extends(Done([], map[], owner), done) && fresh(Claimed(Done([], map[], owner), done))
      invariant forall k :: 0 <= k < i ==> pp[k] in done.lists
    {
      ghost var before := done;
      assert pp[i] in pp[..];
      err, done := Recurse(pp[i], g, [], before);
      if err.Some? {
        CycleIsCyclic(g, err.value);
        return;
      }
      ExtendsChains(Done([], map[], owner), before, done);
      i := i + 1;
    }
    err := None;
    assert g.Keys <= done.lists.Keys by {
      assert forall p :: p in pp[..] ==> p in done.lists;
    }
    AllFinished(g, done);
  }

  lemma CycleIsCyclic(g: DepGraph<Port>, p: Port)
    requires p in g && Reaches(AllEdges(g), p, p)
    ensures !Acyclic(AllEdges(g))
  {
  }

  lemma StartSearching(g: DepGraph<Port>, owner: Owners)
    requires Resolved(g, owner)
    ensures Searching(g, [], Done([], map[], owner))
  {
    hide Coloured, Plan, Closed;
    EmptyPlan(g, owner);
  }

  lemma EmptyPlan(g: DepGraph<Port>, owner: Owners)
    requires Closed(g)
    ensures Plan(g, [], Done([], map[], owner))
  {
    hide Closed;
  }

  lemma AllFinished(g: DepGraph<Port>, done: Done)
    requires Searching(g, [], done) && g.Keys <= done.lists.Keys
    ensures Acyclic(AllEdges(g)) && AllClosed(g, done)
  {
    hide Expanded, Topological, Acyclic, Closed, Coloured, PortClosed, AllEdges;
    assert done.lists.Keys == g.Keys by {
      FinishedAreKnown(g, done);
    }
    assert AllEdges(g).Keys == g.Keys by {
      EdgesCover(g);
    }
    TopologicalIsAcyclic(AllEdges(g), done.order);
    forall p | p in g
      ensures PortClosed(g, done, p)
    {
      PortFinished(g, done, p);
    }
  }

  lemma EdgesCover(g: DepGraph<Port>)
    ensures AllEdges(g).Keys == g.Keys
  {
  }

  lemma FinishedAreKnown(g: DepGraph<Port>, done: Done)
    requires Searching(g, [], done)
    ensures done.lists.Keys <= g.Keys
  {
  }

  lemma PortFinished(g: DepGraph<Port>, done: Done, p: Port)
    requires Searching(g, [], done) && p in g && p in done.lists
    ensures PortClosed(g, done, p)
  {
    hide IsClosure, Expanded, Topological, Closed;
    assert Coloured(g, [], done, p);
    forall s: Slot
      ensures IsClosure(g, g[p].Get(s), done.lists[p].Get(s))
    {
      ExpandedIsClosure(g, done.lists, done.order, p, s);
    }
  }
}
