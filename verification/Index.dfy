/** What the INDEX of a set of port records is, independently of how it is computed. */
module Index {
  import opened CStrings
  import opened Graphs
  import opened Describe
  import opened Resolve
  import opened Permutations

  function DirsOf(rs: seq<Record>): seq<CString> {
    seq(|rs|, i requires 0 <= i < |rs| => rs[i].portdir)
  }

  /** Every dependency is the directory of a port. */
  ghost predicate Resolvable(rs: seq<Record>) {
    forall i, s: Slot, name :: 0 <= i < |rs| && name in rs[i].deps.Get(s) ==> name in DirsOf(rs)
  }

  /** Records in path order whose dependencies can all be found. */
  ghost predicate Linkable(rs: seq<Record>) {
    Ascending(DirsOf(rs)) && Resolvable(rs)
  }

  /** The records in the directories named; of several in one directory, the one that binary search
      arrives at. */
  ghost function Targets(dirs: seq<CString>, names: seq<CString>): (targets: seq<nat>)
    requires Ascending(dirs) && forall name :: name in names ==> name in dirs
    ensures |targets| == |names|
    ensures forall k :: 0 <= k < |names| ==> targets[k] < |dirs| && dirs[targets[k]] == names[k]
  {
    assert forall name :: name in names ==> Lookup(dirs, name).Some? by {
      forall name | name in names
        ensures Lookup(dirs, name).Some?
      {
        LookupFinds(dirs, name);
      }
    }
    assert forall k :: 0 <= k < |names| ==> Lookup(dirs, names[k]).value < |dirs| && dirs[Lookup(dirs, names[k]).value] == names[k] by {
      forall k | 0 <= k < |names|
        ensures Lookup(dirs, names[k]).value < |dirs| && dirs[Lookup(dirs, names[k]).value] == names[k]
      {
        LookupFinds(dirs, names[k]);
      }
    }
    seq(|names|, k requires 0 <= k < |names| => Lookup(dirs, names[k]).value)
  }

  ghost function TargetsOf(rs: seq<Record>, i: nat): Five<seq<nat>>
    requires Linkable(rs) && i < |rs|
  {
    var (dirs, deps) := (DirsOf(rs), rs[i].deps);
    assert forall s: Slot, name :: name in deps.Get(s) ==> name in dirs;
    assert deps.e == deps.Get(E) && deps.p == deps.Get(P) && deps.f == deps.Get(F) && deps.b == deps.Get(B) && deps.r == deps.Get(R);
    Five(Targets(dirs, deps.e), Targets(dirs, deps.p), Targets(dirs, deps.f), Targets(dirs, deps.b), Targets(dirs, deps.r))
  }

  /** The dependency graph over record numbers. */
  ghost function RecordGraph(rs: seq<Record>): DepGraph<nat>
    requires Linkable(rs)
  {
    map i: nat | i < |rs| :: TargetsOf(rs, i)
  }

  function NamesAt(rs: seq<Record>, L: seq<nat>): seq<CString>
    requires forall k :: 0 <= k < |L| ==> L[k] < |rs|
  {
    seq(|L|, k requires 0 <= k < |L| => rs[L[k]].pkgname)
  }

  ghost predicate SortedNames(col: seq<CString>) {
    forall i, j :: 0 <= i < j < |col| ==> StrCmp(col[i], col[j]) <= 0
  }

  /** col is the sorted package names of the closure of list s of record i. */
  ghost predicate IsColumn(rs: seq<Record>, i: nat, s: Slot, col: seq<CString>)
    requires Linkable(rs) && i < |rs|
  {
    SortedNames(col) && exists L: seq<nat> :: IsClosureNames(rs, i, s, L, col)
  }

  ghost predicate IsClosureNames(rs: seq<Record>, i: nat, s: Slot, L: seq<nat>, col: seq<CString>)
    requires Linkable(rs) && i < |rs|
  {
    && (forall k :: 0 <= k < |L| ==> L[k] < |rs|)
    && IsClosure(RecordGraph(rs), TargetsOf(rs, i).Get(s), L)
    && multiset(col) == multiset(NamesAt(rs, L))
  }

  /** The fields of an INDEX line, in INDEX order. */
  function LineFields(rec: Record, cols: Five<seq<CString>>): seq<CString> {
    [rec.pkgname, rec.portdir, rec.prefix, rec.comment, rec.pkgdescr, rec.maintainer, rec.categories,
     Join(cols.b, ' '), Join(cols.r, ' '), rec.www, Join(cols.e, ' '), Join(cols.p, ' '), Join(cols.f, ' ')]
  }

  ghost predicate IsLine(rs: seq<Record>, i: nat, line: string)
    requires Linkable(rs) && i < |rs|
  {
    exists cols: Five<seq<CString>> :: IsLineWith(rs, i, line, cols)
  }

  ghost predicate IsLineWith(rs: seq<Record>, i: nat, line: string, cols: Five<seq<CString>>)
    requires Linkable(rs) && i < |rs|
  {
    (forall s: Slot :: IsColumn(rs, i, s, cols.Get(s))) && line == Join(LineFields(rs[i], cols), '|') + "\n"
  }

  function Concat(lines: seq<string>): string {
    if lines == [] then "" else Concat(lines[..|lines| - 1]) + lines[|lines| - 1]
  }

  lemma {:induction false} ConcatThen(a: seq<string>, b: seq<string>)
    ensures Concat(a + b) == Concat(a) + Concat(b)
    decreases |b|
  {
    if b == [] {
      assert a + b == a;
    } else {
      var n := |b| - 1;
      assert (a + b)[..|a + b| - 1] == a + b[..n] && (a + b)[|a + b| - 1] == b[n];
      ConcatThen(a, b[..n]);
      assert Concat(a) + (Concat(b[..n]) + b[n]) == Concat(a) + Concat(b[..n]) + b[n];
    }
  }

  /** The first line comes first. */
  lemma ConcatFirst(line: string, lines: seq<string>)
    ensures Concat([line] + lines) == line + Concat(lines)
  {
    ConcatThen([line], lines);
    assert [line][..0] == [];
  }

  ghost predicate AreLines(rs: seq<Record>, lines: seq<string>)
    requires Linkable(rs)
  {
    |lines| == |rs| && forall i :: 0 <= i < |rs| ==> IsLine(rs, i, lines[i])
  }

  /** out is the INDEX of the records, listed in this order. */
  ghost predicate IsIndex(rs: seq<Record>, out: string)
    requires Linkable(rs)
  {
    exists lines: seq<string> :: AreLines(rs, lines) && out == Concat(lines)
  }

  // ---------- An INDEX is determined by its records ----------

  /** Each entry of the graph is a record in the directory named, and the only one if directories are distinct. */
  lemma TargetsMean(rs: seq<Record>, i: nat, s: Slot, k: nat, j: nat)
    requires Linkable(rs) && i < |rs| && k < |rs[i].deps.Get(s)| && j < |rs|
    ensures |TargetsOf(rs, i).Get(s)| == |rs[i].deps.Get(s)|
    ensures var target := TargetsOf(rs, i).Get(s)[k];
      && target < |rs| && rs[target].portdir == rs[i].deps.Get(s)[k]
      && (NoDup(DirsOf(rs)) && rs[j].portdir == rs[i].deps.Get(s)[k] ==> j == target)
  {
    hide Targets, Ascending;
    var names := rs[i].deps.Get(s);
    assert forall name :: name in names ==> name in DirsOf(rs);
    assert TargetsOf(rs, i).Get(s) == Targets(DirsOf(rs), names);
    assert forall n :: 0 <= n < |rs| ==> DirsOf(rs)[n] == rs[n].portdir;
  }

  lemma TargetsInRange(rs: seq<Record>, i: nat, s: Slot)
    requires Linkable(rs) && i < |rs|
    ensures forall k :: k in TargetsOf(rs, i).Get(s) ==> k < |rs|
  {
    hide Targets, Ascending;
    assert forall name :: name in rs[i].deps.Get(s) ==> name in DirsOf(rs);
    assert TargetsOf(rs, i).Get(s) == Targets(DirsOf(rs), rs[i].deps.Get(s));
  }

  lemma RecordGraphClosed(rs: seq<Record>)
    requires Linkable(rs)
    ensures Closed(RecordGraph(rs))
  {
    var g := RecordGraph(rs);
    forall i | i in g
      ensures Named(g[i]) <= g.Keys
    {
      forall s: Slot
        ensures forall x :: x in g[i].Get(s) ==> x in g
      {
        TargetsInRange(rs, i, s);
      }
      NamedWithin(g[i], g.Keys);
    }
  }

  /** A sorted sequence starts with a name at most any of its names. */
  lemma LeastFirst(a: seq<CString>, x: CString)
    requires SortedNames(a) && x in a
    ensures StrCmp(a[0], x) <= 0
  {
    ComparisonsAreTotalOrders();
  }

  lemma LeastIsFirst(a: seq<CString>, b: seq<CString>)
    requires SortedNames(a) && SortedNames(b) && multiset(a) == multiset(b) && a != []
    ensures b != [] && a[0] == b[0]
  {
    hide StrCmp, SortedNames;
    SameSize(a, b);
    assert a[0] in multiset(a) && b[0] in multiset(b);
    LeastFirst(a, b[0]);
    LeastFirst(b, a[0]);
    StrAntisymmetric(a[0], b[0]);
  }

  lemma StrAntisymmetric(x: CString, y: CString)
    requires StrCmp(x, y) <= 0 && StrCmp(y, x) <= 0
    ensures x == y
  {
    WeightsWeigh();
    OrderLaws(ByteWeight, x, y, x);
  }

  lemma TailSorted(a: seq<CString>)
    requires SortedNames(a) && a != []
    ensures SortedNames(a[1..])
  {
    hide StrCmp;
  }

  lemma SortedTails(a: seq<CString>, b: seq<CString>)
    requires SortedNames(a) && SortedNames(b) && multiset(a) == multiset(b) && a != []
    ensures b != [] && a[0] == b[0] && multiset(a[1..]) == multiset(b[1..])
    ensures SortedNames(a[1..]) && SortedNames(b[1..])
  {
    hide StrCmp, SortedNames;
    LeastIsFirst(a, b);
    TailSorted(a);
    TailSorted(b);
    SameRest(a, 0, b, 0);
    assert a[..0] + a[1..] == a[1..] && b[..0] + b[1..] == b[1..];
  }

  /** Two sorted arrangements of the same names are the same. */
  lemma {:induction false} SortedUnique(a: seq<CString>, b: seq<CString>)
    requires SortedNames(a) && SortedNames(b) && multiset(a) == multiset(b)
    ensures a == b
  {
    hide StrCmp, SortedNames;
    if a == [] {
      SameSize(a, b);
    } else {
      SortedTails(a, b);
      SortedUnique(a[1..], b[1..]);
      assert a == [a[0]] + a[1..] && b == [b[0]] + b[1..];
    }
  }

  ghost function NameAt(rs: seq<Record>): nat -> CString {
    (i: nat) => if i < |rs| then rs[i].pkgname else []
  }

  lemma ColumnUnique(rs: seq<Record>, i: nat, s: Slot, a: seq<CString>, b: seq<CString>)
    requires Linkable(rs) && i < |rs| && IsColumn(rs, i, s, a) && IsColumn(rs, i, s, b)
    ensures a == b
  {
    hide IsClosure, SortedNames;
    var K :| IsClosureNames(rs, i, s, K, a);
    var L :| IsClosureNames(rs, i, s, L, b);
    RecordGraphClosed(rs);
    TargetsInRange(rs, i, s);
    ClosureUnique(RecordGraph(rs), TargetsOf(rs, i).Get(s), K, L);
    MapPermute(NameAt(rs), K, L);
    assert Map(NameAt(rs), K) == NamesAt(rs, K) && Map(NameAt(rs), L) == NamesAt(rs, L);
    SortedUnique(a, b);
  }

  lemma LineUnique(rs: seq<Record>, i: nat, a: string, b: string)
    requires Linkable(rs) && i < |rs| && IsLine(rs, i, a) && IsLine(rs, i, b)
    ensures a == b
  {
    hide IsColumn;
    var ca :| IsLineWith(rs, i, a, ca);
    var cb :| IsLineWith(rs, i, b, cb);
    forall s: Slot
      ensures ca.Get(s) == cb.Get(s)
    {
      ColumnUnique(rs, i, s, ca.Get(s), cb.Get(s));
    }
    SameFive(ca, cb);
  }

  lemma SameFive<T>(a: Five<T>, b: Five<T>)
    requires forall s: Slot :: a.Get(s) == b.Get(s)
    ensures a == b
  {
    assert a.Get(E) == b.Get(E) && a.Get(P) == b.Get(P) && a.Get(F) == b.Get(F);
    assert a.Get(B) == b.Get(B) && a.Get(R) == b.Get(R);
  }

  /** The records, in order, have one INDEX. */
  lemma IndexUnique(rs: seq<Record>, a: string, b: string)
    requires Linkable(rs) && IsIndex(rs, a) && IsIndex(rs, b)
    ensures a == b
  {
    var la :| AreLines(rs, la) && a == Concat(la);
    var lb :| AreLines(rs, lb) && b == Concat(lb);
    forall i | 0 <= i < |rs|
      ensures la[i] == lb[i]
    {
      LineUnique(rs, i, la[i], lb[i]);
    }
    assert la == lb;
  }

  // ---------- A printed line can be read back ----------

  /** No text field holds a field separator. */
  ghost predicate Clean(rec: Record) {
    && '|' !in rec.pkgname && '|' !in rec.portdir && '|' !in rec.prefix && '|' !in rec.comment
    && '|' !in rec.pkgdescr && '|' !in rec.maintainer && '|' !in rec.categories && '|' !in rec.www
  }

  lemma ParseClean(line: CString)
    requires Parse(line).Ok?
    ensures Clean(Parse(line).value)
  {
    hide Split, ParseLists;
    JoinSplit(line, '|');
    var f := Split(line, '|');
    assert forall k :: 0 <= k < |f| ==> '|' !in f[k];
  }

  lemma {:induction false} JoinClean(parts: seq<CString>, c: char, x: char)
    requires c != '\0' && c != x && forall p :: p in parts ==> x !in p
    ensures x !in Join(parts, c)
  {
    if |parts| > 1 {
      JoinClean(parts[1..], c, x);
    }
  }

  lemma ColumnNames(rs: seq<Record>, i: nat, s: Slot, col: seq<CString>)
    requires Linkable(rs) && i < |rs| && IsColumn(rs, i, s, col)
    ensures forall n :: n in col ==> exists rec :: rec in rs && rec.pkgname == n
  {
    hide IsClosure, SortedNames;
    var L :| IsClosureNames(rs, i, s, L, col);
    forall n | n in col
      ensures exists rec :: rec in rs && rec.pkgname == n
    {
      assert n in multiset(NamesAt(rs, L));
      var k :| 0 <= k < |L| && NamesAt(rs, L)[k] == n;
      assert rs[L[k]] in rs;
    }
  }

  /** These records are in the directories named, one for each name. */
  ghost predicate InDirs(rs: seq<Record>, names: seq<CString>, at: seq<nat>) {
    |at| == |names| && forall k :: 0 <= k < |names| ==> at[k] < |rs| && rs[at[k]].portdir == names[k]
  }

  /** The graph has an edge for each name in each of the five lists, to a record in that directory. */
  lemma EdgesMean(rs: seq<Record>, i: nat)
    requires Linkable(rs) && i < |rs|
    ensures var node, deps := RecordGraph(rs)[i], rs[i].deps;
      && InDirs(rs, deps.e, node.e) && InDirs(rs, deps.p, node.p) && InDirs(rs, deps.f, node.f)
      && InDirs(rs, deps.b, node.b) && InDirs(rs, deps.r, node.r)
  {
    hide Targets, Ascending;
    var dirs, deps := DirsOf(rs), rs[i].deps;
    assert forall s: Slot, name :: name in deps.Get(s) ==> name in dirs;
    assert deps.e == deps.Get(E) && deps.p == deps.Get(P) && deps.f == deps.Get(F) && deps.b == deps.Get(B) && deps.r == deps.Get(R);
    assert forall n :: 0 <= n < |rs| ==> dirs[n] == rs[n].portdir;
  }

  /** a and b agree before k, where a ends or has the smaller character. */
  predicate ByteFirst(a: CString, b: CString, k: int) {
    0 <= k <= |a| && k < |b| && a[..k] == b[..k] && (k < |a| ==> a[k] < b[k])
  }

  ghost predicate InByteOrder(col: seq<CString>) {
    forall i, j, k :: 0 <= i < |col| && 0 <= j < |col| && ByteFirst(col[i], col[j], k) ==> i < j
  }

  lemma ByteFirstLess(a: CString, b: CString, k: int)
    requires ByteFirst(a, b, k)
    ensures StrCmp(a, b) < 0 && StrCmp(b, a) > 0
  {
    WeightsWeigh();
    assert b[k] in b && (k < |a| ==> a[k] in a);
    DifferenceDecides(ByteWeight, a, b, k);
  }

  lemma SortedInByteOrder(col: seq<CString>)
    requires SortedNames(col)
    ensures InByteOrder(col)
  {
    hide StrCmp, ByteFirst;
    forall i, j, k | 0 <= i < |col| && 0 <= j < |col| && ByteFirst(col[i], col[j], k)
      ensures i < j
    {
      ByteFirstLess(col[i], col[j], k);
      StrCmpSame(col[i]);
    }
  }

  lemma StrCmpSame(a: CString)
    ensures StrCmp(a, a) == 0
  {
    ComparisonsAreTotalOrders();
  }

  /** An input field lists names, and the output field the package names, sorted, of the closure of the
      ports in those directories: of L, which starts with these. */
  ghost predicate ClosureListed(rs: seq<Record>, input: CString, output: CString, names: seq<CString>,
                                direct: seq<nat>, L: seq<nat>, col: seq<CString>)
    requires Linkable(rs)
  {
    && ListsNames(input, names) && InDirs(rs, names, direct)
    && IsClosure(RecordGraph(rs), direct, L) && (forall k :: 0 <= k < |L| ==> L[k] < |rs|)
    && multiset(col) == multiset(NamesAt(rs, L)) && InByteOrder(col) && output == Join(col, ' ')
  }

  ghost predicate ListsClosure(rs: seq<Record>, input: CString, output: CString)
    requires Linkable(rs)
  {
    exists names, direct, L, col :: ClosureListed(rs, input, output, names, direct, L, col)
  }

  /** What the 13 fields g of a printed line are, in terms of the 13 fields f of a describe line. */
  ghost predicate PrintedFrom(rs: seq<Record>, f: seq<CString>, g: seq<CString>)
    requires Linkable(rs)
  {
    && |f| == |g| == 13
    && g[0] == f[0] && g[1] == f[1] && g[2] == f[2] && g[3] == f[3] && g[4] == f[4] && g[5] == f[5] && g[6] == f[6]
    && ListsClosure(rs, f[10], g[7]) && ListsClosure(rs, f[11], g[8])
    && g[9] == f[12]
    && ListsClosure(rs, f[7], g[10]) && ListsClosure(rs, f[8], g[11]) && ListsClosure(rs, f[9], g[12])
  }

  lemma ColumnLists(rs: seq<Record>, i: nat, s: Slot, input: CString, col: seq<CString>)
    requires Linkable(rs) && i < |rs| && IsColumn(rs, i, s, col) && ListsNames(input, rs[i].deps.Get(s))
    ensures ListsClosure(rs, input, Join(col, ' '))
  {
    hide Targets, Ascending, IsClosure, SortedNames, InByteOrder, ListsNames, Join;
    var L :| IsClosureNames(rs, i, s, L, col);
    EdgesMean(rs, i);
    SortedInByteOrder(col);
    assert ClosureListed(rs, input, Join(col, ' '), rs[i].deps.Get(s), TargetsOf(rs, i).Get(s), L, col);
  }

  /** A printed line, field by field. */
  lemma LinePrintedFrom(rs: seq<Record>, i: nat, line: string, f: seq<CString>) returns (g: seq<CString>)
    requires Linkable(rs) && i < |rs| && IsLine(rs, i, line) && FieldsSay(f, rs[i])
    requires forall rec :: rec in rs ==> Clean(rec)
    ensures line == Join(g, '|') + "\n" && (forall k :: 0 <= k < |g| ==> '|' !in g[k]) && PrintedFrom(rs, f, g)
  {
    hide IsColumn, Linkable, Split, Join, ListsNames, ListsClosure;
    var cols :| IsLineWith(rs, i, line, cols);
    g := LineFields(rs[i], cols);
    forall s: Slot
      ensures '|' !in Join(cols.Get(s), ' ')
    {
      ColumnNames(rs, i, s, cols.Get(s));
      JoinClean(cols.Get(s), ' ', '|');
    }
    CleanFields(rs[i], cols);
    ColumnLists(rs, i, B, f[10], cols.Get(B));
    ColumnLists(rs, i, R, f[11], cols.Get(R));
    ColumnLists(rs, i, E, f[7], cols.Get(E));
    ColumnLists(rs, i, P, f[8], cols.Get(P));
    ColumnLists(rs, i, F, f[9], cols.Get(F));
  }

  /** Names a column can hold and give back: no name with a space in it, and not a single empty name. */
  ghost predicate Resplits(col: seq<CString>) {
    (forall n :: n in col ==> ' ' !in n) && col != [[]]
  }

  /** The line is 13 fields in INDEX order, and these are the columns of its dependency fields. Each
      splits into its names again exactly if none of them has a space in it and it is not one empty name. */
  ghost predicate Rereads(rs: seq<Record>, i: nat, line: string, cols: Five<seq<CString>>)
    requires Linkable(rs) && i < |rs|
  {
    var fields := LineFields(rs[i], cols);
    && (forall s: Slot :: IsColumn(rs, i, s, cols.Get(s)))
    && line == Join(fields, '|') + "\n" && Split(Join(fields, '|'), '|') == fields
    && (forall s: Slot :: Tokens(Join(cols.Get(s), ' ')) == cols.Get(s) <==> Resplits(cols.Get(s)))
  }

  /** A printed line can be read back. */
  lemma PrintedLineSplits(rs: seq<Record>, i: nat, line: string, cols: Five<seq<CString>>)
    requires Linkable(rs) && i < |rs| && IsLineWith(rs, i, line, cols)
    requires forall rec :: rec in rs ==> Clean(rec)
    ensures Rereads(rs, i, line, cols)
  {
    hide IsColumn, Linkable, Split, Join, Resplits;
    forall s: Slot
      ensures '|' !in Join(cols.Get(s), ' ')
      ensures Tokens(Join(cols.Get(s), ' ')) == cols.Get(s) <==> Resplits(cols.Get(s))
    {
      ColumnNames(rs, i, s, cols.Get(s));
      JoinClean(cols.Get(s), ' ', '|');
      TokensJoin(cols.Get(s));
    }
    CleanFields(rs[i], cols);
    SplitJoin(LineFields(rs[i], cols), '|');
  }

  lemma CleanFields(rec: Record, cols: Five<seq<CString>>)
    requires Clean(rec) && forall s: Slot :: '|' !in Join(cols.Get(s), ' ')
    ensures forall f :: f in LineFields(rec, cols) ==> '|' !in f
  {
    hide Join;
    assert '|' !in Join(cols.Get(E), ' ') && '|' !in Join(cols.Get(P), ' ') && '|' !in Join(cols.Get(F), ' ');
    assert '|' !in Join(cols.Get(B), ' ') && '|' !in Join(cols.Get(R), ' ');
  }

  /** Splitting a joined list of names gives the names exactly if they can be told apart. */
  lemma TokensJoin(names: seq<CString>)
    ensures Tokens(Join(names, ' ')) == names <==> Resplits(names)
  {
    hide Split;
    if names != [] {
      if Resplits(names) {
        assert names[0] in names;
        SplitJoin(names, ' ');
      } else if Join(names, ' ') != [] {
        JoinSplit(Join(names, ' '), ' ');
      }
    }
  }

  /** A package name with a space in it is read back as two. */
  lemma SpaceSplits()
    ensures Tokens(Join(["a b"], ' ')) == ["a", "b"]
  {
    assert Join(["a", "b"], ' ') == "a b" && ["a", "b"][1..] == ["b"];
    SplitJoin(["a", "b"], ' ');
  }
}
