/** The whole of make_index: read, sort, resolve, recurse, print. */
module MakeIndex {
  import opened CStrings
  import opened Options
  import opened Graphs
  import opened Ports
  import opened HeapSort
  import opened Permutations
  import opened Describe
  import opened Resolve
  import opened Index
  import opened Mirror
  import opened Recursion
  import opened Printing

  /** A line as fgetln returns it: never empty, and normally ended by a newline. */
  type RawLine = s: string | s != [] witness "\n"

  function ReadLine(line: RawLine): Result<Record> {
    if line[|line| - 1] != '\n' then Err(Unterminated) else Parse(Terminated(line[..|line| - 1]))
  }

  /** All records, or why the first bad line is refused. */
  function ReadAll(lines: seq<RawLine>): Result<seq<Record>> {
    if lines == [] then Ok([])
    else
      var before := ReadAll(lines[..|lines| - 1]);
      if before.Err? then before
      else
        var last := ReadLine(lines[|lines| - 1]);
        if last.Err? then Err(last.failure) else Ok(before.value + [last.value])
  }

  /** What make_index does with the records once they are sorted. */
  ghost predicate Outcome(rs: seq<Record>, r: Result<string>)
    requires Ascending(DirsOf(rs))
  {
    if !Resolvable(rs) then r.Err? && r.failure.NoEntry? && Unresolved(rs, r.failure.from, r.failure.name)
    else if !Acyclic(AllEdges(RecordGraph(rs))) then r.Err? && r.failure.Circular? && SelfDependent(rs, r.failure.pkgname)
    else r.Ok? && IsIndex(rs, r.value)
  }

  /** The port in directory `from` names a dependency that is no port's directory. */
  ghost predicate Unresolved(rs: seq<Record>, from: CString, name: CString) {
    exists i, s: Slot :: 0 <= i < |rs| && rs[i].portdir == from && name in rs[i].deps.Get(s) && name !in DirsOf(rs)
  }

  /** A port with this package name depends upon itself. */
  ghost predicate SelfDependent(rs: seq<Record>, pkgname: CString)
    requires Linkable(rs)
  {
    exists i: nat :: i < |rs| && rs[i].pkgname == pkgname && Reaches(AllEdges(RecordGraph(rs)), i, i)
  }

  /** r is what a run over these lines yields when it sorts the records into rs. */
  ghost predicate IsRun(lines: seq<RawLine>, rs: seq<Record>, r: Result<string>) {
    match ReadAll(lines)
    case Err(f) => r == Err(f)
    case Ok(recs) => multiset(rs) == multiset(recs) && Ascending(DirsOf(rs)) && Outcome(rs, r)
  }

  /** What a run over these lines may yield. Ports in one directory leave it a choice of arrangement. */
  ghost predicate Yields(lines: seq<RawLine>, r: Result<string>) {
    exists rs :: IsRun(lines, rs, r)
  }

  // ---------- 1. Reading ----------

  /** The ports carry the records, in order; they and their blocks are distinct. */
  ghost predicate Loaded(ports: seq<Port>, rs: seq<Record>, owner: Owners)
    reads ports, set p, s: Slot | p in ports :: p.Get(s).d
  {
    && |ports| == |rs| && NoDup(ports)
    && (forall k {:trigger LoadedPort(ports[k], rs[k], owner)} :: 0 <= k < |ports| ==> LoadedPort(ports[k], rs[k], owner))
  }

  ghost predicate LoadedPort(p: Port, rec: Record, owner: Owners)
    reads p, set s: Slot | true :: p.Get(s).d
  {
    SlotBlocks(p);
    Describes(p, rec) && Owns(owner, p)
  }

  lemma SlotBlocks(p: Port)
    ensures p.edep.d in (set s: Slot | true :: p.Get(s).d) && p.pdep.d in (set s: Slot | true :: p.Get(s).d)
    ensures p.fdep.d in (set s: Slot | true :: p.Get(s).d) && p.bdep.d in (set s: Slot | true :: p.Get(s).d)
    ensures p.rdep.d in (set s: Slot | true :: p.Get(s).d)
  {
    assert p.edep == p.Get(E) && p.pdep == p.Get(P) && p.fdep == p.Get(F) && p.bdep == p.Get(B) && p.rdep == p.Get(R);
  }

  /** p's five blocks become p's. */
  ghost function ClaimAll(owner: Owners, p: Port): Owners
    reads p
  {
    owner[p.edep.d := (p, E)][p.pdep.d := (p, P)][p.fdep.d := (p, F)][p.bdep.d := (p, B)][p.rdep.d := (p, R)]
  }

  lemma ClaimedApart(owner: Owners, p: Port)
    requires Apart(p.Lists())
    ensures Owns(ClaimAll(owner, p), p)
    ensures ClaimAll(owner, p).Keys == owner.Keys + Blocks(p.Lists())
    ensures forall b :: b in owner && b !in Blocks(p.Lists()) ==> ClaimAll(owner, p)[b] == owner[b]
  {
  }

  method ReadPorts(lines: seq<RawLine>) returns (r: Result<seq<Port>>, ghost owner: Owners)
    ensures r.Ok? <==> ReadAll(lines).Ok?
    ensures r.Err? ==> r.failure == ReadAll(lines).failure
    ensures r.Ok? ==> Loaded(r.value, ReadAll(lines).value, owner)
    ensures r.Ok? ==> fresh(r.value) && fresh(owner.Keys)
  {
    hide Describes, Parse, ReadAll;
    assert lines[..0] == [];
    NothingRead();
    var ports: seq<Port> := [];
    owner := map[];
    var i := 0;
    while i < |lines|
      invariant i <= |lines| && ReadAll(lines[..i]).Ok?
      invariant Loaded(ports, ReadAll(lines[..i]).value, owner)
      invariant fresh(ports) && fresh(owner.Keys)
    {
      var line := lines[i];
      assert lines[..i + 1][..i] == lines[..i];
      NextRead(lines, i);
      if line[|line| - 1] != '\n' {
        FirstBad(lines, i + 1);
        return Err(Unterminated), owner;
      }
      ghost var recs := ReadAll(lines[..i]).value;
      label before:
      var p := Portify(Terminated(line[..|line| - 1]));
      if p.Err? {
        FirstBad(lines, i + 1);
        return Err(p.failure), owner;
      }
      forall k | 0 <= k < |ports|
        ensures LoadedPort(ports[k], recs[k], owner)
      {
        assert old@before(LoadedPort(ports[k], recs[k], owner));
      }
      ports, owner := LoadOne(ports, p.value, recs, ReadLine(line).value, owner);
      i := i + 1;
    }
    assert lines[..i] == lines;
    return Ok(ports), owner;
  }

  lemma NothingRead()
    ensures ReadAll([]) == Ok([])
  {
  }

  lemma NextRead(lines: seq<RawLine>, i: nat)
    requires i < |lines| && ReadAll(lines[..i]).Ok?
    ensures ReadLine(lines[i]).Err? ==> ReadAll(lines[..i + 1]) == Err(ReadLine(lines[i]).failure)
    ensures ReadLine(lines[i]).Ok? ==> ReadAll(lines[..i + 1]) == Ok(ReadAll(lines[..i]).value + [ReadLine(lines[i]).value])
  {
    assert lines[..i + 1][..i] == lines[..i];
  }

  /** A bad prefix stays the reason. */
  lemma {:induction false} FirstBad(lines: seq<RawLine>, i: nat)
    requires i <= |lines| && ReadAll(lines[..i]).Err?
    ensures ReadAll(lines) == ReadAll(lines[..i])
    decreases |lines| - i
  {
    if i == |lines| {
      assert lines[..i] == lines;
    } else {
      assert lines[..i + 1][..i] == lines[..i];
      FirstBad(lines, i + 1);
    }
  }

  /** pp[i] = portify(line). */
  method LoadOne(ports: seq<Port>, p: Port, ghost rs: seq<Record>, ghost rec: Record, ghost owner: Owners)
    returns (ports': seq<Port>, ghost owner': Owners)
    requires Loaded(ports, rs, owner) && p !in ports
    requires Describes(p, rec) && Blocks(p.Lists()) !! owner.Keys
    ensures ports' == ports + [p] && owner'.Keys == owner.Keys + Blocks(p.Lists())
    ensures Loaded(ports', rs + [rec], owner')
  {
    hide AllNames, SameText;
    ports' := ports + [p];
    owner' := ClaimAll(owner, p);
    ClaimedApart(owner, p);
    forall k | 0 <= k < |ports'|
      ensures LoadedPort(ports'[k], (rs + [rec])[k], owner')
    {
      if k < |ports| {
        assert LoadedPort(ports[k], rs[k], owner);
      }
    }
  }

  // ---------- 2. Sorting ----------

  /** The record a loaded port carries. */
  ghost function RecordIn(ports: seq<Port>, rs: seq<Record>): Port -> Record
    requires |ports| == |rs|
  {
    (p: Port) => if p in ports then rs[IndexIn(ports, p)] else Record([], [], [], [], [], [], [], Five([], [], [], [], []), [])
  }

  lemma TwiceCounts<T>(t: seq<T>, i: nat, j: nat)
    requires i < j < |t| && t[i] == t[j]
    ensures multiset(t)[t[j]] >= 2
  {
    assert t == t[..j] + [t[j]] + t[j + 1..];
    assert t[..j][i] == t[j] && t[j] in multiset(t[..j]);
  }

  lemma NoDupPermute<T>(s: seq<T>, t: seq<T>)
    requires NoDup(s) && multiset(s) == multiset(t)
    ensures NoDup(t)
  {
    forall i, j | 0 <= i < j < |t|
      ensures t[i] != t[j]
    {
      NoDupOnce(s, t[j]);
      if t[i] == t[j] {
        TwiceCounts(t, i, j);
        assert false;
      }
    }
  }

  /** Permuted ports carry the permuted records. */
  lemma LoadedPermute(ports: seq<Port>, rs: seq<Record>, pp: seq<Port>, owner: Owners) returns (rs': seq<Record>)
    requires Loaded(ports, rs, owner) && multiset(pp) == multiset(ports)
    ensures multiset(rs') == multiset(rs) && Loaded(pp, rs', owner)
  {
    hide LoadedPort;
    var f := RecordIn(ports, rs);
    rs' := Map(f, pp);
    MapPermute(f, pp, ports);
    NoDupPermute(ports, pp);
    SameSize(pp, ports);
    forall k | 0 <= k < |ports|
      ensures Map(f, ports)[k] == rs[k]
    {
      assert ports[IndexIn(ports, ports[k])] == ports[k];
    }
    assert Map(f, ports) == rs;
    forall k | 0 <= k < |pp|
      ensures LoadedPort(pp[k], rs'[k], owner)
    {
      assert pp[k] in multiset(ports);
      assert LoadedPort(ports[IndexIn(ports, pp[k])], rs[IndexIn(ports, pp[k])], owner);
    }
  }

  lemma LoadedDirs(pp: seq<Port>, rs: seq<Record>, owner: Owners)
    requires Loaded(pp, rs, owner)
    ensures Dirs(pp) == DirsOf(rs)
  {
    forall k | 0 <= k < |pp|
      ensures Dirs(pp)[k] == DirsOf(rs)[k]
    {
      assert LoadedPort(pp[k], rs[k], owner);
    }
  }

  lemma SameElems<T>(s: seq<T>, t: seq<T>)
    requires multiset(s) == multiset(t)
    ensures Elems(s) == Elems(t)
  {
    forall x
      ensures x in s <==> x in t
    {
      assert x in s <==> x in multiset(s);
    }
  }

  /** The sorting step of main, on the array of its final size. */
  method SortPorts(ports: seq<Port>, ghost recs: seq<Record>, ghost owner: Owners)
    returns (pp: array<Port>, ghost rs: seq<Record>)
    requires Loaded(ports, recs, owner)
    ensures fresh(pp) && multiset(pp[..]) == multiset(ports) && Elems(pp[..]) == Elems(ports)
    ensures pp.Length == |rs| && NoDup(pp[..]) && forall k :: 0 <= k < pp.Length ==> SameText(pp[k], rs[k])
    ensures Loaded(pp[..], rs, owner) && multiset(rs) == multiset(recs) && Ascending(DirsOf(rs))
    ensures InPathOrder(Dirs(pp[..]))
  {
    hide PathCmp, InPathOrder;
    ComparisonsAreTotalOrders();
    pp := new Port[|ports|](i requires 0 <= i < |ports| => ports[i]);
    assert pp[..pp.Length] == pp[..] == ports;
    Sort(pp, pp.Length, BY_DIR);
    assert pp[..pp.Length] == pp[..];
    forall k | 0 <= k < |ports|
      ensures LoadedPort(ports[k], recs[k], owner)
    {
      assert old(LoadedPort(ports[k], recs[k], owner)) && unchanged(ports[k]);
      assert forall s: Slot :: unchanged(ports[k].Get(s).d);
      OwnedBlocks(owner, ports[k]);
    }
    rs := LoadedPermute(ports, recs, pp[..], owner);
    LoadedDirs(pp[..], rs, owner);
    SameElems(pp[..], ports);
    forall k | 0 <= k < pp.Length
      ensures SameText(pp[k], rs[k])
    {
      assert LoadedPort(pp[k], rs[k], owner);
    }
    forall i, j | 0 <= i < j < pp.Length
      ensures PathCmp(Dirs(pp[..])[i], Dirs(pp[..])[j]) <= 0
    {
      assert BY_DIR.Le(pp[..][i], pp[..][j]);
    }
    AscendingInPathOrder(Dirs(pp[..]));
  }

  // ---------- 3. Resolving ----------

  /** p's lists refer to what rec's names resolve to. */
  ghost predicate LinkedPort(pp: seq<Port>, p: Port, rec: Record, owner: Owners)
    reads p, p.edep.d, p.pdep.d, p.fdep.d, p.bdep.d, p.rdep.d
  {
    SameText(p, rec) && p.recursed == 0 && Owns(owner, p) && RefersAll(pp, p.Lists(), rec.deps)
  }

  ghost predicate RefersAll(pp: seq<Port>, l: Five<DepList>, names: Five<seq<CString>>)
    reads l.e.d, l.p.d, l.f.d, l.b.d, l.r.d
  {
    && RefersTo(pp, l.e, names.e) && RefersTo(pp, l.p, names.p) && RefersTo(pp, l.f, names.f)
    && RefersTo(pp, l.b, names.b) && RefersTo(pp, l.r, names.r)
  }

  lemma OwnedBlocks(owner: Owners, p: Port)
    requires Owns(owner, p)
    ensures Blocks(p.Lists()) <= owner.Keys && Apart(p.Lists())
    ensures forall s: Slot :: p.Get(s).d in Blocks(p.Lists())
  {
    assert p.edep == p.Get(E) && p.pdep == p.Get(P) && p.fdep == p.Get(F) && p.bdep == p.Get(B) && p.rdep == p.Get(R);
  }

  lemma OwnedApart(owner: Owners, p: Port, q: Port)
    requires Owns(owner, p) && Owns(owner, q) && p != q
    ensures Blocks(p.Lists()) !! Blocks(q.Lists())
    ensures forall s: Slot :: p.Get(s).d !in Blocks(q.Lists())
  {
    assert q.edep == q.Get(E) && q.pdep == q.Get(P) && q.fdep == q.Get(F) && q.bdep == q.Get(B) && q.rdep == q.Get(R);
    assert p.edep == p.Get(E) && p.pdep == p.Get(P) && p.fdep == p.Get(F) && p.bdep == p.Get(B) && p.rdep == p.Get(R);
  }

  /** translateport. */
  method TranslatePort(pp: array<Port>, p: Port, ghost rec: Record) returns (missing: Option<CString>)
    requires Ascending(Dirs(pp[..])) && AllNames(p.Lists(), rec.deps) && Apart(p.Lists())
    modifies Blocks(p.Lists())
    ensures missing.None? ==> RefersAll(pp[..], p.Lists(), rec.deps)
    ensures missing.Some? ==> missing.value !in Dirs(pp[..]) && exists s: Slot :: missing.value in rec.deps.Get(s)
  {
    hide Ascending, ResolvesTo;
    missing := TranslateList(pp, p.edep, rec.deps.e);
    if missing.Some? { assert missing.value in rec.deps.Get(E); return; }
    missing := TranslateList(pp, p.pdep, rec.deps.p);
    if missing.Some? { assert missing.value in rec.deps.Get(P); return; }
    missing := TranslateList(pp, p.fdep, rec.deps.f);
    if missing.Some? { assert missing.value in rec.deps.Get(F); return; }
    missing := TranslateList(pp, p.bdep, rec.deps.b);
    if missing.Some? { assert missing.value in rec.deps.Get(B); return; }
    missing := TranslateList(pp, p.rdep, rec.deps.r);
    if missing.Some? { assert missing.value in rec.deps.Get(R); return; }
  }

  /** The resolving loop of main. */
  method TranslateAll(pp: array<Port>, ghost rs: seq<Record>, ghost owner: Owners) returns (err: Option<Failure>)
    requires Loaded(pp[..], rs, owner) && Ascending(DirsOf(rs))
    modifies owner.Keys
    ensures err.None? ==> forall k :: 0 <= k < pp.Length ==> LinkedPort(pp[..], pp[k], rs[k], owner)
    ensures err.Some? ==> err.value.NoEntry? && Unresolved(rs, err.value.from, err.value.name)
  {
    LoadedDirs(pp[..], rs, owner);
    var i := 0;
    while i < pp.Length
      invariant i <= pp.Length == |rs|
      invariant forall k :: 0 <= k < i ==> LinkedPort(pp[..], pp[k], rs[k], owner)
      invariant forall k :: i <= k < pp.Length ==> LoadedPort(pp[k], rs[k], owner)
    {
      OwnedBlocks(owner, pp[i]);
      label before:
      var missing := TranslatePort(pp, pp[i], rs[i]);
      if missing.Some? {
        return Some(NoEntry(pp[i].portdir, missing.value));
      }
      forall k | 0 <= k < pp.Length && k != i
        ensures k < i ==> LinkedPort(pp[..], pp[k], rs[k], owner)
        ensures i < k ==> LoadedPort(pp[k], rs[k], owner)
      {
        OwnedApart(owner, pp[k], pp[i]);
        assert k < i ==> old@before(LinkedPort(pp[..], pp[k], rs[k], owner));
        assert i < k ==> old@before(LoadedPort(pp[k], rs[k], owner));
      }
      i := i + 1;
    }
    err := None;
  }

  // ---------- 4. Recursing ----------

  lemma GraphInRange(rs: seq<Record>)
    requires Linkable(rs)
    ensures InRange(RecordGraph(rs), |rs|)
  {
    forall i: nat, s: Slot | i < |rs|
      ensures Within(RecordGraph(rs)[i].Get(s), |rs|)
    {
      TargetsInRange(rs, i, s);
      assert forall k :: 0 <= k < |TargetsOf(rs, i).Get(s)| ==> TargetsOf(rs, i).Get(s)[k] in TargetsOf(rs, i).Get(s);
    }
  }

  /** Successful resolution found every name. */
  lemma LinkedResolvable(pp: seq<Port>, rs: seq<Record>, owner: Owners)
    requires |pp| == |rs| && Ascending(DirsOf(rs)) && forall k :: 0 <= k < |pp| ==> LinkedPort(pp, pp[k], rs[k], owner)
    ensures Dirs(pp) == DirsOf(rs) && Linkable(rs)
  {
    assert forall k :: 0 <= k < |pp| ==> pp[k].portdir == rs[k].portdir;
    assert Dirs(pp) == DirsOf(rs);
    forall i, s: Slot, name | 0 <= i < |rs| && name in rs[i].deps.Get(s)
      ensures name in DirsOf(rs)
    {
      RefersSlot(pp, pp[i].Lists(), rs[i].deps, s);
      var k :| 0 <= k < |rs[i].deps.Get(s)| && rs[i].deps.Get(s)[k] == name;
      var p := pp[i].Get(s).d[k].port;
      assert ResolvesTo(pp, name, p);
      var m :| 0 <= m < |pp| && pp[m] == p;
      assert Dirs(pp)[m] == name;
    }
  }

  lemma RefersSlot(pp: seq<Port>, l: Five<DepList>, names: Five<seq<CString>>, s: Slot)
    requires RefersAll(pp, l, names)
    ensures RefersTo(pp, l.Get(s), names.Get(s))
  {
  }

  /** A resolved port is an untouched node of the record graph drawn over the ports. */
  lemma LinkedColoured(pp: seq<Port>, rs: seq<Record>, owner: Owners, i: nat)
    requires |pp| == |rs| && Linkable(rs) && Dirs(pp) == DirsOf(rs) && InRange(RecordGraph(rs), |rs|)
    requires NoDup(pp) && i < |pp| && LinkedPort(pp, pp[i], rs[i], owner)
    ensures pp[i] in Image(pp, RecordGraph(rs))
    ensures Coloured(Image(pp, RecordGraph(rs)), [], Done([], map[], owner), pp[i])
  {
    hide Linkable, InRange, Image;
    forall s: Slot
      ensures pp[i] in Image(pp, RecordGraph(rs))
      ensures Untouched(pp[i].Get(s), Image(pp, RecordGraph(rs))[pp[i]].Get(s))
    {
      ImageAt(pp, RecordGraph(rs), i, s);
      RefersSlot(pp, pp[i].Lists(), rs[i].deps, s);
      LinkedEntries(pp, rs, i, s, pp[i].Get(s));
    }
    ImageAt(pp, RecordGraph(rs), i, E);
  }

  lemma LinkedEntries(pp: seq<Port>, rs: seq<Record>, i: nat, s: Slot, l: DepList)
    requires |pp| == |rs| && Linkable(rs) && Dirs(pp) == DirsOf(rs) && i < |pp|
    requires RefersTo(pp, l, rs[i].deps.Get(s)) && Within(TargetsOf(rs, i).Get(s), |pp|)
    ensures Untouched(l, Through(pp, TargetsOf(rs, i).Get(s)))
  {
    var names := rs[i].deps.Get(s);
    forall k | 0 <= k < |names|
      ensures l.d[k] == Ref(pp[TargetsOf(rs, i).Get(s)[k]])
    {
      assert ResolvesTo(pp, names[k], l.d[k].port);
      TargetAt(rs, i, s, k);
    }
  }

  lemma TargetAt(rs: seq<Record>, i: nat, s: Slot, k: nat)
    requires Linkable(rs) && i < |rs| && k < |rs[i].deps.Get(s)|
    ensures |TargetsOf(rs, i).Get(s)| == |rs[i].deps.Get(s)|
    ensures var t := Lookup(DirsOf(rs), rs[i].deps.Get(s)[k]); t.Some? && TargetsOf(rs, i).Get(s)[k] == t.value
  {
    assert rs[i].deps.Get(s)[k] in rs[i].deps.Get(s);
    LookupFinds(DirsOf(rs), rs[i].deps.Get(s)[k]);
  }

  /** The recursing step: the graph the search runs on is the record graph. */
  method RecursePorts(pp: array<Port>, ghost rs: seq<Record>, ghost owner: Owners)
    returns (err: Option<Failure>, ghost done: Done)
    requires pp.Length == |rs| && NoDup(pp[..]) && Ascending(DirsOf(rs))
    requires forall k :: 0 <= k < pp.Length ==> LinkedPort(pp[..], pp[k], rs[k], owner)
    modifies pp[..]
    ensures Linkable(rs) && InRange(RecordGraph(rs), |rs|)
    ensures err.None? <==> Acyclic(AllEdges(RecordGraph(rs)))
    ensures err.Some? ==> err.value.Circular? && SelfDependent(rs, err.value.pkgname)
    ensures err.None? ==> AllClosed(Image(pp[..], RecordGraph(rs)), done)
    ensures err.None? ==> fresh(Claimed(Done([], map[], owner), done))
  {
    hide LinkedPort, Image, InRange, Acyclic, AllClosed, Claimed, Coloured, Reaches, Lookup, Resolved, AllEdges, Linkable, SelfDependent;
    LinkedText(pp[..], rs, owner);
    LinkedResolvable(pp[..], rs, owner);
    GraphInRange(rs);
    ghost var G := RecordGraph(rs);
    ghost var g := Image(pp[..], G);
    StartRecursion(pp[..], rs, owner);
    var at;
    at, done := RecurseAll(pp, g, owner);
    ImageMirrorsAll(pp[..], G);
    AcyclicMirrors(pp[..], AllEdges(G), AllEdges(g));
    if at.None? {
      return None, done;
    }
    CycleReported(pp[..], rs, at.value);
    err := Some(Circular(at.value.pkgname));
  }

  lemma LinkedText(pp: seq<Port>, rs: seq<Record>, owner: Owners)
    requires |pp| == |rs| && forall k :: 0 <= k < |pp| ==> LinkedPort(pp, pp[k], rs[k], owner)
    ensures forall k :: 0 <= k < |pp| ==> SameText(pp[k], rs[k])
  {
  }

  lemma StartRecursion(pp: seq<Port>, rs: seq<Record>, owner: Owners)
    requires |pp| == |rs| && NoDup(pp) && Linkable(rs) && InRange(RecordGraph(rs), |rs|) && Dirs(pp) == DirsOf(rs)
    requires forall k :: 0 <= k < |pp| ==> LinkedPort(pp, pp[k], rs[k], owner)
    ensures Image(pp, RecordGraph(rs)).Keys == Elems(pp) && Resolved(Image(pp, RecordGraph(rs)), owner)
  {
    hide LinkedPort, Image, InRange, Coloured, Linkable;
    ImageKeys(pp, RecordGraph(rs));
    ImageClosed(pp, RecordGraph(rs));
    forall p | p in pp
      ensures Coloured(Image(pp, RecordGraph(rs)), [], Done([], map[], owner), p)
    {
      LinkedColoured(pp, rs, owner, IndexIn(pp, p));
    }
  }

  lemma CycleReported(pp: seq<Port>, rs: seq<Record>, p: Port)
    requires |pp| == |rs| && NoDup(pp) && Linkable(rs) && InRange(RecordGraph(rs), |rs|)
    requires forall k :: 0 <= k < |pp| ==> pp[k].pkgname == rs[k].pkgname
    requires p in pp && Reaches(AllEdges(Image(pp, RecordGraph(rs))), p, p)
    ensures SelfDependent(rs, p.pkgname)
  {
    hide Image, InRange, Reaches, AllEdges;
    var i := IndexIn(pp, p);
    ImageMirrorsAll(pp, RecordGraph(rs));
    ReachMirrors(pp, AllEdges(RecordGraph(rs)), AllEdges(Image(pp, RecordGraph(rs))), i, i);
  }

  // ---------- 5. Printing ----------

  /** Sorted names of a port's closed list are a column of its record. */
  lemma ColumnOf(pp: seq<Port>, rs: seq<Record>, i: nat, s: Slot, L: seq<Port>, col: seq<CString>)
    requires |pp| == |rs| && NoDup(pp) && Linkable(rs) && InRange(RecordGraph(rs), |rs|) && i < |pp|
    requires forall k :: 0 <= k < |pp| ==> pp[k].pkgname == rs[k].pkgname
    requires pp[i] in Image(pp, RecordGraph(rs))
    requires IsClosure(Image(pp, RecordGraph(rs)), Image(pp, RecordGraph(rs))[pp[i]].Get(s), L)
    requires SortedNames(col) && multiset(col) == multiset(PortNames(L))
    ensures IsColumn(rs, i, s, col)
  {
    hide Image, InRange, IsClosure, SortedNames;
    var K := ClosureMirrors(pp, RecordGraph(rs), i, s, L);
    assert NamesAt(rs, K) == PortNames(L);
    assert IsClosureNames(rs, i, s, K, col);
  }

  lemma LineOfPort(pp: seq<Port>, rs: seq<Record>, done: Done, i: nat, cols: Five<seq<CString>>, line: string)
    requires |pp| == |rs| && NoDup(pp) && Linkable(rs) && InRange(RecordGraph(rs), |rs|) && i < |pp|
    requires forall k :: 0 <= k < |pp| ==> pp[k].pkgname == rs[k].pkgname
    requires pp[i] in Image(pp, RecordGraph(rs)) && pp[i] in done.lists
    requires forall s: Slot :: IsClosure(Image(pp, RecordGraph(rs)), Image(pp, RecordGraph(rs))[pp[i]].Get(s), done.lists[pp[i]].Get(s))
    requires Columns(cols, done.lists[pp[i]]) && line == Join(LineFields(rs[i], cols), '|') + "\n"
    ensures IsLine(rs, i, line)
  {
    hide Image, InRange, IsClosure, SortedNames, IsColumn;
    forall s: Slot
      ensures IsColumn(rs, i, s, cols.Get(s))
    {
      ColumnOf(pp, rs, i, s, done.lists[pp[i]].Get(s), cols.Get(s));
    }
    assert IsLineWith(rs, i, line, cols);
  }

  lemma ClosedPort(g: DepGraph<Port>, done: Done, p: Port)
    requires AllClosed(g, done) && p in g
    ensures p in done.lists && PortClosed(g, done, p)
  {
    assert done.lists.Keys == g.Keys;
    assert PortClosed(g, done, p);
  }

  /** One line of the printing loop. */
  method PrintOne(pp: array<Port>, i: nat, ghost rs: seq<Record>, ghost done: Done) returns (line: string)
    requires pp.Length == |rs| && NoDup(pp[..]) && Linkable(rs) && InRange(RecordGraph(rs), |rs|) && i < pp.Length
    requires forall k :: 0 <= k < pp.Length ==> SameText(pp[k], rs[k])
    requires pp[i] in Image(pp[..], RecordGraph(rs)) && pp[i] in done.lists
    requires PortClosed(Image(pp[..], RecordGraph(rs)), done, pp[i])
    modifies Blocks(pp[i].Lists())
    ensures IsLine(rs, i, line)
  {
    hide Image, InRange, IsClosure, Linkable, IsLine, LineFields, Columns, Join;
    OwnedBlocks(done.owner, pp[i]);
    ClosedHolds(Image(pp[..], RecordGraph(rs)), done, pp[i]);
    ghost var cols;
    line, cols := PrintPort(pp[i], rs[i], done.lists[pp[i]]);
    LineOfPort(pp[..], rs, done, i, cols, line);
  }

  lemma ClosedHolds(g: DepGraph<Port>, done: Done, p: Port)
    requires p in g && p in done.lists && PortClosed(g, done, p)
    ensures HoldsAll(p, done.lists[p])
  {
    hide IsClosure;
    assert Holds(p.Get(E), done.lists[p].Get(E)) && Holds(p.Get(P), done.lists[p].Get(P));
    assert Holds(p.Get(F), done.lists[p].Get(F)) && Holds(p.Get(B), done.lists[p].Get(B));
    assert Holds(p.Get(R), done.lists[p].Get(R));
  }

  /** The printing loop of main. */
  method PrintAll(pp: array<Port>, ghost rs: seq<Record>, ghost done: Done) returns (out: string)
    requires pp.Length == |rs| && NoDup(pp[..]) && Linkable(rs) && InRange(RecordGraph(rs), |rs|)
    requires forall k :: 0 <= k < pp.Length ==> SameText(pp[k], rs[k])
    requires AllClosed(Image(pp[..], RecordGraph(rs)), done)
    modifies done.owner.Keys
    ensures IsIndex(rs, out)
  {
    hide Image, InRange, IsClosure, Linkable, IsLine, SameText, RecordGraph;
    ghost var g := Image(pp[..], RecordGraph(rs));
    ImageKeys(pp[..], RecordGraph(rs));
    forall k | 0 <= k < pp.Length
      ensures pp[k] in g && pp[k] in done.lists && PortClosed(g, done, pp[k])
    {
      assert pp[k] in pp[..];
      ClosedPort(g, done, pp[k]);
    }
    ghost var lines: seq<string> := [];
    out := "";
    var i := 0;
    while i < pp.Length
      invariant i <= pp.Length && |lines| == i && out == Concat(lines)
      invariant forall k :: 0 <= k < i ==> IsLine(rs, k, lines[k])
      invariant forall k :: i <= k < pp.Length ==> PortClosed(g, done, pp[k])
    {
      OwnedBlocks(done.owner, pp[i]);
      label before:
      var line := PrintOne(pp, i, rs, done);
      forall k | i < k < pp.Length
        ensures PortClosed(g, done, pp[k])
      {
        assert old@before(PortClosed(g, done, pp[k]));
        OwnedApart(done.owner, pp[k], pp[i]);
      }
      assert (lines + [line])[..i] == lines;
      out, lines := out + line, lines + [line];
      i := i + 1;
    }
    assert AreLines(rs, lines);
  }

  // ---------- The whole run ----------

  /** main, on the lines of its input. */
  method Run(lines: seq<RawLine>) returns (r: Result<string>)
    ensures Yields(lines, r)
  {
    ghost var rs;
    r, rs := ReadToPrint(lines);
  }

  method ReadToPrint(lines: seq<RawLine>) returns (r: Result<string>, ghost rs: seq<Record>)
    ensures IsRun(lines, rs, r)
  {
    hide Loaded, LinkedPort, Unresolved, SelfDependent, IsIndex, Image, Acyclic, AllClosed, ReadAll;
    rs := [];
    var ports;
    ghost var owner;
    ports, owner := ReadPorts(lines);
    if ports.Err? {
      return Err(ports.failure), rs;
    }
    var pp;
    pp, rs := SortPorts(ports.value, ReadAll(lines).value, owner);
    var missing := TranslateAll(pp, rs, owner);
    if missing.Some? {
      UnresolvedNot(rs, missing.value.from, missing.value.name);
      return Err(missing.value), rs;
    }
    ghost var done;
    forall k | 0 <= k < pp.Length
      ensures fresh(pp[k])
    {
      assert pp[k] in pp[..] && pp[k] in Elems(ports.value);
    }
    var cycle;
    cycle, done := RecursePorts(pp, rs, owner);
    if cycle.Some? {
      return Err(cycle.value), rs;
    }
    assert done.owner.Keys <= owner.Keys + Claimed(Done([], map[], owner), done);
    var out := PrintAll(pp, rs, done);
    return Ok(out), rs;
  }

  lemma UnresolvedNot(rs: seq<Record>, from: CString, name: CString)
    requires Unresolved(rs, from, name)
    ensures !Resolvable(rs)
  {
  }

  // ---------- Independence of the order of the input ----------

  lemma {:induction false} ReadAllElems(lines: seq<RawLine>)
    ensures ReadAll(lines).Ok? <==> forall l :: l in lines ==> ReadLine(l).Ok?
    ensures ReadAll(lines).Ok? ==> forall l :: l in lines ==> ReadLine(l).value in ReadAll(lines).value
    ensures ReadAll(lines).Ok? ==> forall rec :: rec in ReadAll(lines).value ==> exists l :: l in lines && ReadLine(l) == Ok(rec)
    decreases |lines|
  {
    hide ReadLine;
    if lines != [] {
      var before, last := lines[..|lines| - 1], lines[|lines| - 1];
      ReadAllElems(before);
      assert lines == before + [last];
    }
  }

  lemma SameRecords(l1: seq<RawLine>, l2: seq<RawLine>)
    requires Elems(l1) == Elems(l2) && ReadAll(l1).Ok?
    ensures ReadAll(l2).Ok? && Elems(ReadAll(l1).value) == Elems(ReadAll(l2).value)
  {
    hide ReadLine, ReadAll;
    ReadAllElems(l1);
    ReadAllElems(l2);
    assert forall l :: l in l1 <==> l in Elems(l1);
    assert forall l :: l in l2 <==> l in Elems(l2);
  }

  /** A port sorted first has a directory at most any other's. */
  lemma FirstDir(a: seq<Record>, x: Record)
    requires Ascending(DirsOf(a)) && x in a
    ensures PathCmp(a[0].portdir, x.portdir) <= 0
  {
    ComparisonsAreTotalOrders();
    var i :| 0 <= i < |a| && a[i] == x;
    assert DirsOf(a)[0] == a[0].portdir && DirsOf(a)[i] == x.portdir;
  }

  lemma SameFirst(a: seq<Record>, b: seq<Record>)
    requires Ascending(DirsOf(a)) && Ascending(DirsOf(b)) && NoDup(DirsOf(b))
    requires Elems(a) == Elems(b) && a != []
    ensures b != [] && a[0] == b[0]
  {
    hide PathCmp, Ascending;
    assert a[0] in Elems(b);
    assert b[0] in Elems(a);
    FirstDir(a, b[0]);
    FirstDir(b, a[0]);
    WeightsWeigh();
    PathAntisymmetric(a[0].portdir, b[0].portdir);
    var j :| 0 <= j < |b| && b[j] == a[0];
    assert DirsOf(b)[0] == b[0].portdir && DirsOf(b)[j] == a[0].portdir;
  }

  lemma PathAntisymmetric(x: CString, y: CString)
    requires PathCmp(x, y) <= 0 && PathCmp(y, x) <= 0
    ensures x == y
  {
    WeightsWeigh();
    OrderLaws(PathWeight, x, y, x);
  }

  lemma TailAscending(a: seq<Record>)
    requires Ascending(DirsOf(a)) && NoDup(DirsOf(a)) && a != []
    ensures Ascending(DirsOf(a[1..])) && NoDup(DirsOf(a[1..])) && Elems(a[1..]) == Elems(a) - {a[0]}
  {
    hide PathCmp;
    assert DirsOf(a[1..]) == DirsOf(a)[1..];
    assert a == [a[0]] + a[1..];
    forall i | 1 <= i < |a|
      ensures a[i] != a[0]
    {
      assert DirsOf(a)[0] != DirsOf(a)[i];
    }
  }

  lemma NoElems<T>(s: seq<T>)
    ensures Elems(s) == {} ==> s == []
  {
    assert s != [] ==> s[0] in Elems(s);
  }

  /** Ports with distinct directories have one sorted arrangement. */
  lemma {:induction false} AscendingUnique(a: seq<Record>, b: seq<Record>)
    requires Ascending(DirsOf(a)) && Ascending(DirsOf(b)) && NoDup(DirsOf(a)) && NoDup(DirsOf(b))
    requires Elems(a) == Elems(b)
    ensures a == b
    decreases |a|
  {
    hide Ascending, NoDup;
    if a == [] {
      NoElems(b);
    } else {
      SameFirst(a, b);
      TailAscending(a);
      TailAscending(b);
      AscendingUnique(a[1..], b[1..]);
      assert a == [a[0]] + a[1..] && b == [b[0]] + b[1..];
    }
  }

  /** No two lines describe ports in one directory. */
  ghost predicate DistinctDirs(lines: seq<RawLine>) {
    ReadAll(lines).Ok? ==> NoDup(DirsOf(ReadAll(lines).value))
  }

  lemma SortedRecords(recs: seq<Record>, rs: seq<Record>)
    requires multiset(rs) == multiset(recs) && NoDup(DirsOf(recs))
    ensures NoDup(DirsOf(rs)) && Elems(rs) == Elems(recs)
  {
    var dir := (rec: Record) => rec.portdir;
    MapPermute(dir, rs, recs);
    assert Map(dir, rs) == DirsOf(rs) && Map(dir, recs) == DirsOf(recs);
    NoDupPermute(DirsOf(recs), DirsOf(rs));
    SameElems(rs, recs);
  }

  /** What happens to given sorted records is determined. */
  lemma OutcomeUnique(rs: seq<Record>, r1: Result<string>, r2: Result<string>)
    requires Ascending(DirsOf(rs)) && Outcome(rs, r1) && Outcome(rs, r2)
    ensures r1.Ok? == r2.Ok? && (r1.Ok? ==> r1.value == r2.value)
  {
    hide IsIndex, Acyclic, Linkable, Unresolved, SelfDependent;
    if r1.Ok? {
      IndexUnique(rs, r1.value, r2.value);
    }
  }

  /** Success and the printed INDEX depend on the set of lines only. */
  lemma OrderIndependent(l1: seq<RawLine>, l2: seq<RawLine>, r1: Result<string>, r2: Result<string>)
    requires Elems(l1) == Elems(l2) && DistinctDirs(l1) && DistinctDirs(l2)
    requires Yields(l1, r1) && Yields(l2, r2)
    ensures r1.Ok? == r2.Ok? && (r1.Ok? ==> r1.value == r2.value)
  {
    hide IsRun, DistinctDirs;
    var rs1 :| IsRun(l1, rs1, r1);
    var rs2 :| IsRun(l2, rs2, r2);
    SameOutcome(l1, l2, rs1, rs2, r1, r2);
  }

  lemma SameOutcome(l1: seq<RawLine>, l2: seq<RawLine>, rs1: seq<Record>, rs2: seq<Record>,
                    r1: Result<string>, r2: Result<string>)
    requires Elems(l1) == Elems(l2) && DistinctDirs(l1) && DistinctDirs(l2)
    requires IsRun(l1, rs1, r1) && IsRun(l2, rs2, r2)
    ensures r1.Ok? == r2.Ok? && (r1.Ok? ==> r1.value == r2.value)
  {
    hide Outcome, ReadAll, Ascending, NoDup;
    if ReadAll(l1).Ok? || ReadAll(l2).Ok? {
      if ReadAll(l1).Ok? {
        SameRecords(l1, l2);
      } else {
        SameRecords(l2, l1);
      }
      SortedRecords(ReadAll(l1).value, rs1);
      SortedRecords(ReadAll(l2).value, rs2);
      AscendingUnique(rs1, rs2);
      OutcomeUnique(rs1, r1, r2);
    }
  }

  /** Records that were read hold no field separators. */
  lemma {:induction false} ReadAllClean(lines: seq<RawLine>)
    requires ReadAll(lines).Ok?
    ensures forall rec :: rec in ReadAll(lines).value ==> Clean(rec)
    decreases |lines|
  {
    hide Clean, Parse;
    if lines != [] {
      ReadAllClean(lines[..|lines| - 1]);
      var last := lines[|lines| - 1];
      ParseClean(Terminated(last[..|last| - 1]));
    }
  }

  /** The line can be read back. */
  ghost predicate CanReread(rs: seq<Record>, i: nat, line: string)
    requires Linkable(rs) && i < |rs|
  {
    exists cols: Five<seq<CString>> :: Rereads(rs, i, line, cols)
  }

  ghost predicate AllReread(rs: seq<Record>, printed: seq<string>)
    requires Linkable(rs)
  {
    |printed| == |rs| && forall i :: 0 <= i < |rs| ==> CanReread(rs, i, printed[i])
  }

  /** So a whole INDEX can be read back, line by line. */
  lemma IndexSplits(lines: seq<RawLine>, rs: seq<Record>, out: string)
    requires IsRun(lines, rs, Ok(out))
    ensures Linkable(rs)
    ensures exists printed :: AllReread(rs, printed) && out == Concat(printed)
  {
    hide Ascending, Resolvable, Clean, AllReread, AreLines, Concat, Acyclic, RecordGraph;
    RunIsClean(lines, rs, Ok(out));
    var printed :| AreLines(rs, printed) && out == Concat(printed);
    LinesReread(rs, printed);
  }

  lemma RunIsClean(lines: seq<RawLine>, rs: seq<Record>, r: Result<string>)
    requires IsRun(lines, rs, r) && ReadAll(lines).Ok?
    ensures forall rec :: rec in rs ==> Clean(rec)
  {
    hide Outcome, Clean, Ascending;
    ReadAllClean(lines);
    var recs := ReadAll(lines).value;
    assert forall rec :: rec in rs ==> rec in multiset(rs) && rec in multiset(recs);
  }

  lemma LinesReread(rs: seq<Record>, printed: seq<string>)
    requires Linkable(rs) && AreLines(rs, printed) && forall rec :: rec in rs ==> Clean(rec)
    ensures AllReread(rs, printed)
  {
    hide Linkable, Clean, Rereads, IsLineWith;
    forall i | 0 <= i < |rs|
      ensures CanReread(rs, i, printed[i])
    {
      assert IsLine(rs, i, printed[i]);
      var cols :| IsLineWith(rs, i, printed[i], cols);
      PrintedLineSplits(rs, i, printed[i], cols);
    }
  }

  // ---------- Lines in, lines out ----------

  ghost predicate AreFields(f: seq<CString>) {
    f != [] && forall k :: 0 <= k < |f| ==> '|' !in f[k]
  }

  /** A line of fields is read as exactly what they say. */
  lemma ReadExact(f: seq<CString>, rec: Record)
    requires AreFields(f)
    ensures ReadLine(Join(f, '|') + "\n") == Ok(rec) <==> FieldsSay(f, rec)
    ensures ReadLine(Join(f, '|') + "\n") == Err(Corrupt) <==> |f| != 13
  {
    hide Parse, Join, FieldsSay, Terminated;
    var line := Join(f, '|') + "\n";
    assert line[..|line| - 1] == Join(f, '|');
    TerminatedExact(Join(f, '|'), "");
    ParseExact(f, rec);
  }

  lemma UnterminatedExact(line: RawLine)
    ensures ReadLine(line) == Err(Unterminated) <==> !exists text :: line == text + "\n"
  {
    hide Parse;
    if line[|line| - 1] == '\n' {
      ParseTerminated(Terminated(line[..|line| - 1]));
      assert line == line[..|line| - 1] + "\n";
    }
  }

  /** A line that has its newline is never refused for want of it. */
  lemma ParseTerminated(line: CString)
    ensures Parse(line) != Err(Unterminated)
  {
  }

  lemma {:induction false} ReadAllExact(lines: seq<RawLine>, recs: seq<Record>)
    ensures ReadAll(lines) == Ok(recs) <==> |lines| == |recs| && forall i :: 0 <= i < |lines| ==> ReadLine(lines[i]) == Ok(recs[i])
    decreases |lines|
  {
    hide ReadLine;
    if lines != [] {
      var n := |lines| - 1;
      if recs != [] {
        ReadAllExact(lines[..n], recs[..|recs| - 1]);
        assert recs == recs[..|recs| - 1] + [recs[|recs| - 1]];
      }
      if ReadAll(lines[..n]).Ok? {
        ReadAllExact(lines[..n], ReadAll(lines[..n]).value);
      }
    }
  }

  /** The lines holding these fields. */
  function Written(fs: seq<seq<CString>>): (lines: seq<RawLine>)
    ensures |lines| == |fs|
  {
    seq(|fs|, i requires 0 <= i < |fs| => Join(fs[i], '|') + "\n")
  }

  /** A file of such lines is read as exactly what they say, in order. */
  lemma FileExact(fs: seq<seq<CString>>, recs: seq<Record>)
    requires forall i :: 0 <= i < |fs| ==> AreFields(fs[i])
    ensures ReadAll(Written(fs)) == Ok(recs) <==> |fs| == |recs| && forall i :: 0 <= i < |fs| ==> FieldsSay(fs[i], recs[i])
  {
    hide ReadAll, ReadLine, FieldsSay, AreFields, Join;
    var lines := Written(fs);
    ReadAllExact(lines, recs);
    if |fs| == |recs| {
      forall i | 0 <= i < |fs|
        ensures ReadLine(lines[i]) == Ok(recs[i]) <==> FieldsSay(fs[i], recs[i])
      {
        ReadExact(fs[i], recs[i]);
      }
    }
  }

  /** printed is the line of the INDEX for one of the lines read, field by field. */
  ghost predicate PrintsFields(lines: seq<RawLine>, rs: seq<Record>, rec: Record, printed: string)
    requires Linkable(rs)
  {
    exists l, f, g :: PrintsFieldsOf(lines, rs, rec, printed, l, f, g)
  }

  ghost predicate PrintsFieldsOf(lines: seq<RawLine>, rs: seq<Record>, rec: Record, printed: string,
                                 l: RawLine, f: seq<CString>, g: seq<CString>)
    requires Linkable(rs)
  {
    && l in lines && Terminated(l[..|l| - 1]) == Join(f, '|') && AreFields(f) && FieldsSay(f, rec)
    && printed == Join(g, '|') + "\n" && AreFields(g) && PrintedFrom(rs, f, g)
  }

  ghost predicate AllPrintFields(lines: seq<RawLine>, rs: seq<Record>, printed: seq<string>)
    requires Linkable(rs)
  {
    |printed| == |rs| && forall i :: 0 <= i < |rs| ==> PrintsFields(lines, rs, rs[i], printed[i])
  }

  /** The output of a run, in terms of the fields of its input. */
  lemma RunPrintsFields(lines: seq<RawLine>, rs: seq<Record>, out: string)
    requires IsRun(lines, rs, Ok(out))
    ensures Linkable(rs) && |rs| == |lines| && InPathOrder(DirsOf(rs))
    ensures exists printed :: AllPrintFields(lines, rs, printed) && out == Concat(printed)
  {
    hide Ascending, InPathOrder, Resolvable, Clean, AllPrintFields, AreLines, Concat, Acyclic, RecordGraph;
    RunArranges(lines, rs, Ok(out));
    RunIsClean(lines, rs, Ok(out));
    RunRecords(lines, rs, Ok(out));
    var printed :| AreLines(rs, printed) && out == Concat(printed);
    LinesPrintFields(lines, rs, printed);
  }

  /** One record for each line, in path order. */
  lemma RunArranges(lines: seq<RawLine>, rs: seq<Record>, r: Result<string>)
    requires IsRun(lines, rs, r) && ReadAll(lines).Ok?
    ensures |rs| == |lines| && InPathOrder(DirsOf(rs))
  {
    hide Ascending, InPathOrder, Outcome;
    var recs := ReadAll(lines).value;
    ReadAllExact(lines, recs);
    assert |rs| == |multiset(rs)| == |multiset(recs)|;
    AscendingInPathOrder(DirsOf(rs));
  }

  lemma RunRecords(lines: seq<RawLine>, rs: seq<Record>, r: Result<string>)
    requires IsRun(lines, rs, r) && ReadAll(lines).Ok?
    ensures forall rec :: rec in rs ==> exists l :: l in lines && ReadLine(l) == Ok(rec)
  {
    hide Outcome, Ascending, ReadLine, ReadAll;
    ReadAllElems(lines);
    forall rec | rec in rs
      ensures exists l :: l in lines && ReadLine(l) == Ok(rec)
    {
      var recs := ReadAll(lines).value;
      assert rec in multiset(rs) && rec in multiset(recs) && rec in recs;
      var l :| l in lines && ReadLine(l) == Ok(rec);
    }
  }

  lemma LinesPrintFields(lines: seq<RawLine>, rs: seq<Record>, printed: seq<string>)
    requires Linkable(rs) && AreLines(rs, printed)
    requires forall rec :: rec in rs ==> Clean(rec) && exists l :: l in lines && ReadLine(l) == Ok(rec)
    ensures AllPrintFields(lines, rs, printed)
  {
    hide Linkable, Clean, IsLine, PrintedFrom, FieldsSay, Parse, Join, Terminated;
    forall i | 0 <= i < |rs|
      ensures PrintsFields(lines, rs, rs[i], printed[i])
    {
      assert rs[i] in rs;
      var l :| l in lines && ReadLine(l) == Ok(rs[i]);
      var f := ParseRestores(Terminated(l[..|l| - 1]));
      var g := LinePrintedFrom(rs, i, printed[i], f);
      ThirteenFields(rs, f, g);
      assert PrintsFieldsOf(lines, rs, rs[i], printed[i], l, f, g);
    }
  }

  lemma ThirteenFields(rs: seq<Record>, f: seq<CString>, g: seq<CString>)
    requires Linkable(rs) && PrintedFrom(rs, f, g)
    ensures f != [] && g != []
  {
  }
}
