/** Printing of a finished port: sort each list in place, then write the INDEX line. */
module Printing {
  import opened CStrings
  import opened Graphs
  import opened Ports
  import opened HeapSort
  import opened Permutations
  import opened Describe
  import opened Index

  function PkgKey(d: Dep): CString {
    match d
    case Ref(p) => p.pkgname
    case Name(n) => n
  }

  const BY_PKG: Order<Dep> := Order((d: Dep) => PkgKey(d), StrCmp)

  ghost function PortNames(L: seq<Port>): seq<CString> {
    seq(|L|, k requires 0 <= k < |L| => L[k].pkgname)
  }

  /** sortpkgs. */
  method SortPkgs(l: DepList, ghost L: seq<Port>) returns (ghost L': seq<Port>)
    requires Holds(l, L)
    modifies l.d
    ensures Holds(l, L') && SortedNames(PortNames(L')) && multiset(PortNames(L')) == multiset(PortNames(L))
  {
    hide StrCmp;
    ComparisonsAreTotalOrders();
    ghost var before := l.d[..l.n];
    Sort(l.d, l.n, BY_PKG);
    ghost var after := l.d[..l.n];
    forall k | 0 <= k < l.n
      ensures after[k].Ref?
    {
      assert after[k] in multiset(before);
    }
    L' := seq(l.n, k requires 0 <= k < l.n => after[k].port);
    MapPermute(PkgKey, before, after);
    assert Map(PkgKey, before) == PortNames(L) && Map(PkgKey, after) == PortNames(L');
    forall i, j | 0 <= i < j < |L'|
      ensures StrCmp(PortNames(L')[i], PortNames(L')[j]) <= 0
    {
      assert BY_PKG.Le(after[i], after[j]);
    }
  }

  lemma {:induction false} JoinAppend(parts: seq<CString>, x: CString, c: char)
    requires c != '\0' && parts != []
    ensures Join(parts + [x], c) == Join(parts, c) + [c] + x
  {
    assert (parts + [x])[1..] == parts[1..] + [x];
    if |parts| > 1 {
      JoinAppend(parts[1..], x, c);
    }
  }

  /** One printing loop of printport. */
  method PrintList(l: DepList, ghost L: seq<Port>) returns (text: CString)
    requires Holds(l, L)
    ensures text == Join(PortNames(L), ' ')
  {
    text := [];
    var i := 0;
    while i < l.n
      invariant i <= l.n && text == Join(PortNames(L)[..i], ' ')
    {
      assert PortNames(L)[..i + 1] == PortNames(L)[..i] + [L[i].pkgname];
      if i > 0 {
        JoinAppend(PortNames(L)[..i], L[i].pkgname, ' ');
      }
      text := text + (if i > 0 then " " else "") + l.d[i].port.pkgname;
      i := i + 1;
    }
    assert PortNames(L)[..i] == PortNames(L);
  }

  /** Writing the next of the fields. */
  method Append(text: string, field: CString, ghost fields: seq<CString>, ghost k: nat) returns (text': string)
    requires 0 < k < |fields| && field == fields[k] && text == Join(fields[..k], '|')
    ensures text' == Join(fields[..k + 1], '|')
  {
    JoinAppend(fields[..k], field, '|');
    assert fields[..k + 1] == fields[..k] + [field];
    text' := text + "|" + field;
  }

  /** cols are the sorted package names of the lists. */
  ghost predicate Columns(cols: Five<seq<CString>>, lists: Five<seq<Port>>) {
    forall s: Slot :: SortedNames(cols.Get(s)) && multiset(cols.Get(s)) == multiset(PortNames(lists.Get(s)))
  }

  ghost predicate HoldsAll(p: Port, lists: Five<seq<Port>>)
    reads p, p.edep.d, p.pdep.d, p.fdep.d, p.bdep.d, p.rdep.d
  {
    && Holds(p.edep, lists.e) && Holds(p.pdep, lists.p) && Holds(p.fdep, lists.f)
    && Holds(p.bdep, lists.b) && Holds(p.rdep, lists.r)
  }

  ghost function NamesOf(lists: Five<seq<Port>>): Five<seq<CString>> {
    Five(PortNames(lists.e), PortNames(lists.p), PortNames(lists.f), PortNames(lists.b), PortNames(lists.r))
  }

  /** The five calls of sortpkgs. */
  method SortLists(p: Port, ghost lists: Five<seq<Port>>) returns (ghost sorted: Five<seq<Port>>)
    requires Apart(p.Lists()) && HoldsAll(p, lists)
    modifies Blocks(p.Lists())
    ensures HoldsAll(p, sorted) && Columns(NamesOf(sorted), lists)
  {
    hide SortedNames, Refers;
    ghost var e := SortPkgs(p.edep, lists.e);
    ghost var pd := SortPkgs(p.pdep, lists.p);
    ghost var f := SortPkgs(p.fdep, lists.f);
    ghost var b := SortPkgs(p.bdep, lists.b);
    ghost var r := SortPkgs(p.rdep, lists.r);
    sorted := Five(e, pd, f, b, r);
  }

  /** The first printf of printport: the fields before the lists. */
  method WriteText(p: Port, ghost rec: Record, ghost cols: Five<seq<CString>>) returns (line: string)
    requires SameText(p, rec)
    ensures line == Join(LineFields(rec, cols)[..7], '|')
  {
    ghost var fields := LineFields(rec, cols);
    line := p.pkgname;
    assert line == Join(fields[..1], '|');
    line := Append(line, p.portdir, fields, 1);
    line := Append(line, p.prefix, fields, 2);
    line := Append(line, p.comment, fields, 3);
    line := Append(line, p.pkgdescr, fields, 4);
    line := Append(line, p.maintainer, fields, 5);
    line := Append(line, p.categories, fields, 6);
  }

  /** The rest of printport: lists in INDEX order, www between them. */
  method WriteLists(p: Port, text: string, ghost rec: Record, ghost lists: Five<seq<Port>>) returns (line: string)
    requires SameText(p, rec) && HoldsAll(p, lists)
    requires text == Join(LineFields(rec, NamesOf(lists))[..7], '|')
    ensures line == Join(LineFields(rec, NamesOf(lists)), '|') + "\n"
  {
    hide Join;
    ghost var fields := LineFields(rec, NamesOf(lists));
    var col := PrintList(p.bdep, lists.b);
    line := Append(text, col, fields, 7);
    col := PrintList(p.rdep, lists.r);
    line := Append(line, col, fields, 8);
    line := Append(line, p.www, fields, 9);
    col := PrintList(p.edep, lists.e);
    line := Append(line, col, fields, 10);
    col := PrintList(p.pdep, lists.p);
    line := Append(line, col, fields, 11);
    col := PrintList(p.fdep, lists.f);
    line := Append(line, col, fields, 12);
    assert fields[..13] == fields;
    line := line + "\n";
  }

  /** printport. */
  method PrintPort(p: Port, ghost rec: Record, ghost lists: Five<seq<Port>>)
    returns (line: string, ghost cols: Five<seq<CString>>)
    requires SameText(p, rec) && Apart(p.Lists()) && HoldsAll(p, lists)
    modifies Blocks(p.Lists())
    ensures line == Join(LineFields(rec, cols), '|') + "\n"
    ensures Columns(cols, lists)
  {
    hide Join, Columns;
    ghost var sorted := SortLists(p, lists);
    cols := NamesOf(sorted);
    var text := WriteText(p, rec, cols);
    line := WriteLists(p, text, rec, sorted);
  }
}
