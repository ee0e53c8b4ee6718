/** Binary search over the sorted ports, and resolution of dependency names. */
module Resolve {
  import opened CStrings
  import opened Options
  import opened Graphs
  import opened Ports
  import opened HeapSort

  const BY_DIR: Order<Port> := Order((p: Port) => p.portdir, PathCmp)

  function Dirs(pp: seq<Port>): seq<CString> {
    seq(|pp|, i requires 0 <= i < |pp| => pp[i].portdir)
  }

  ghost predicate Ascending(dirs: seq<CString>) {
    forall i, j :: 0 <= i < j < |dirs| ==> PathCmp(dirs[i], dirs[j]) <= 0
  }

  /** Which of two characters, neither of them NUL, puts a directory first: a slash, or else the smaller
      signed char. */
  predicate CharFirst(x: char, y: char) {
    y != '/' && (x == '/' || SignedLess(x, y))
  }

  /** a and b agree before k, where a ends or has the character that goes first. */
  predicate DecidesHere(a: CString, b: CString, k: int) {
    0 <= k <= |a| && k < |b| && a[..k] == b[..k] && (k < |a| ==> CharFirst(a[k], b[k]))
  }

  /** Of two directories the one that ends first stands first, or else the one with the character that
      goes first where they differ. */
  ghost predicate InPathOrder(dirs: seq<CString>) {
    forall i, j, k :: 0 <= i < |dirs| && 0 <= j < |dirs| && DecidesHere(dirs[i], dirs[j], k) ==> i < j
  }

  lemma StandsFirst(dirs: seq<CString>, i: nat, j: nat)
    requires Ascending(dirs) && i < |dirs| && j < |dirs| && PathCmp(dirs[i], dirs[j]) < 0
    ensures i < j
  {
    hide Cmp;
    assert j < i ==> PathCmp(dirs[j], dirs[i]) <= 0;
    WeightsWeigh();
    OrderLaws(PathWeight, dirs[i], dirs[j], dirs[i]);
    OrderLaws(PathWeight, dirs[i], dirs[i], dirs[i]);
  }

  lemma CharDecides(a: CString, b: CString, k: int)
    requires DecidesHere(a, b, k)
    ensures PathCmp(a, b) < 0
  {
    WeightsWeigh();
    assert b[k] in b && (k < |a| ==> a[k] in a);
    DifferenceDecides(PathWeight, a, b, k);
  }

  lemma AscendingInPathOrder(dirs: seq<CString>)
    requires Ascending(dirs)
    ensures InPathOrder(dirs)
  {
    hide Ascending, PathCmp, DecidesHere;
    forall i, j, k | 0 <= i < |dirs| && 0 <= j < |dirs| && DecidesHere(dirs[i], dirs[j], k)
      ensures i < j
    {
      CharDecides(dirs[i], dirs[j], k);
      StandsFirst(dirs, i, j);
    }
  }

  /** The directory lies below c. */
  predicate Below(c: CString, dir: CString) {
    c + "/" <= dir
  }

  /** Where a directory first departs from c + "/", if it does. */
  lemma {:induction false} Departure(c: CString, dir: CString) returns (k: nat)
    requires !Below(c, dir)
    ensures k <= |c| && k <= |dir| && dir[..k] == c[..k] && (k < |dir| ==> dir[k] != (c + "/")[k])
  {
    k := 0;
    if c != [] && dir != [] && dir[0] == c[0] {
      assert c + "/" == [c[0]] + (c[1..] + "/") && dir == [dir[0]] + dir[1..];
      var n := Departure(c[1..], dir[1..]);
      k := n + 1;
      assert dir[..k] == [dir[0]] + dir[1..][..n] && c[..k] == [c[0]] + c[1..][..n];
    }
  }

  /** A directory outside c comes before all of those in it, or behind all of them. */
  lemma OutsideOnOneSide(c: CString, dir: CString, a: CString, b: CString)
    requires !Below(c, dir) && Below(c, a) && Below(c, b)
    ensures (PathCmp(dir, a) < 0 && PathCmp(dir, b) < 0) || (PathCmp(a, dir) < 0 && PathCmp(b, dir) < 0)
  {
    WeightsWeigh();
    var k := Departure(c, dir);
    assert a[..k] == (c + "/")[..k] == c[..k] && b[..k] == (c + "/")[..k];
    assert At(a, k) == (c + "/")[k] == At(b, k);
    if PathWeight(At(dir, k)) < PathWeight(At(a, k)) {
      DifferenceDecides(PathWeight, dir, a, k);
      DifferenceDecides(PathWeight, dir, b, k);
    } else {
      assert At(dir, k) != At(a, k);
      DifferenceDecides(PathWeight, a, dir, k);
      DifferenceDecides(PathWeight, b, dir, k);
    }
  }

  /** So the ports of a category, or of any directory, are listed together. */
  lemma Contiguous(dirs: seq<CString>, c: CString, i: nat, j: nat, k: nat)
    requires Ascending(dirs) && i <= j <= k < |dirs| && Below(c, dirs[i]) && Below(c, dirs[k])
    ensures Below(c, dirs[j])
  {
    hide Ascending, PathCmp, Below;
    if !Below(c, dirs[j]) {
      OutsideOnOneSide(c, dirs[j], dirs[i], dirs[k]);
      if PathCmp(dirs[j], dirs[i]) < 0 {
        StandsFirst(dirs, j, i);
      } else {
        StandsFirst(dirs, k, j);
      }
      assert false;
    }
  }

  /** The index binary search arrives at. */
  function Search(dirs: seq<CString>, st: nat, en: nat, name: CString): Option<nat>
    requires st <= en <= |dirs|
    decreases en - st
  {
    if st == en then None
    else
      var mid := (st + en) / 2;
      var r := PathCmp(dirs[mid], name);
      if r == 0 then Some(mid)
      else if r < 0 then Search(dirs, mid + 1, en, name)
      else Search(dirs, st, mid, name)
  }

  ghost predicate Listed(dirs: seq<CString>, st: nat, en: nat, name: CString)
    requires st <= en <= |dirs|
  {
    exists i :: st <= i < en && dirs[i] == name
  }

  lemma NotThere(dirs: seq<CString>, mid: nat, i: nat, name: CString)
    requires mid < |dirs| && i < |dirs| && Ascending(dirs)
    ensures PathCmp(dirs[mid], name) < 0 && i <= mid ==> dirs[i] != name
    ensures PathCmp(dirs[mid], name) > 0 && mid <= i ==> dirs[i] != name
  {
    hide Cmp;
    OrderLaws(PathWeight, dirs[mid], name, name);
    OrderLaws(PathWeight, name, dirs[mid], name);
    assert i < mid ==> PathCmp(dirs[i], dirs[mid]) <= 0;
    assert mid < i ==> PathCmp(dirs[mid], dirs[i]) <= 0;
  }

  /** Binary search over a sorted range finds a port exactly when a linear search would, and a right one. */
  lemma {:induction false} SearchCorrect(dirs: seq<CString>, st: nat, en: nat, name: CString)
    requires st <= en <= |dirs| && Ascending(dirs)
    ensures Search(dirs, st, en, name).Some? <==> Listed(dirs, st, en, name)
    ensures var r := Search(dirs, st, en, name); r.Some? ==> st <= r.value < en && dirs[r.value] == name
    decreases en - st
  {
    hide PathCmp, Ascending;
    if st < en {
      var mid := (st + en) / 2;
      var r := PathCmp(dirs[mid], name);
      if r == 0 {
        SameDir(dirs[mid], name);
      } else {
        SearchCorrect(dirs, if r < 0 then mid + 1 else st, if r < 0 then en else mid, name);
        forall i | st <= i < en && (r < 0 ==> i <= mid) && (r > 0 ==> mid <= i)
          ensures dirs[i] != name
        {
          NotThere(dirs, mid, i, name);
        }
      }
    }
  }

  lemma SameDir(a: CString, b: CString)
    ensures PathCmp(a, b) == 0 <==> a == b
  {
    hide Cmp;
    WeightsWeigh();
    OrderLaws(PathWeight, a, b, b);
  }

  /** What a name resolves to among sorted directories. */
  function Lookup(dirs: seq<CString>, name: CString): Option<nat> {
    Search(dirs, 0, |dirs|, name)
  }

  lemma LookupFinds(dirs: seq<CString>, name: CString)
    requires Ascending(dirs)
    ensures Lookup(dirs, name).Some? <==> name in dirs
    ensures var k := Lookup(dirs, name); k.Some? ==> k.value < |dirs| && dirs[k.value] == name
  {
    hide Ascending, Search;
    SearchCorrect(dirs, 0, |dirs|, name);
  }

  /** findport. No port means the program stops with "no entry". */
  method FindPort(pp: array<Port>, st: nat, en: nat, name: CString) returns (r: Option<Port>)
    requires st <= en <= pp.Length
    ensures r.Some? <==> Search(Dirs(pp[..]), st, en, name).Some?
    ensures var k := Search(Dirs(pp[..]), st, en, name); r.Some? ==> k.value < pp.Length && r.value == pp[k.value]
    decreases en - st
  {
    if st == en {
      return None;
    }
    var mid := (st + en) / 2;
    var c := PortCompare(pp[mid].portdir, name);
    if c == 0 {
      return Some(pp[mid]);
    } else if c < 0 {
      r := FindPort(pp, mid + 1, en, name);
    } else {
      r := FindPort(pp, st, mid, name);
    }
  }

  /** The port in this directory; of several, the one that binary search arrives at. */
  ghost predicate ResolvesTo(pp: seq<Port>, name: CString, p: Port) {
    var k := Lookup(Dirs(pp), name);
    p.portdir == name && k.Some? && k.value < |pp| && p == pp[k.value]
  }

  /** The names have all become references to what they resolve to. */
  ghost predicate RefersTo(pp: seq<Port>, l: DepList, names: seq<CString>)
    reads l.d
  {
    && l.n == |names| == l.d.Length
    && forall k :: 0 <= k < |names| ==> l.d[k].Ref? && ResolvesTo(pp, names[k], l.d[k].port)
  }

  /** One loop of translateport. */
  method TranslateList(pp: array<Port>, l: DepList, ghost names: seq<CString>) returns (missing: Option<CString>)
    requires Ascending(Dirs(pp[..]))
    requires l.n == |names| == l.d.Length && forall k :: 0 <= k < |names| ==> l.d[k] == Name(names[k])
    modifies l.d
    ensures missing.None? ==> RefersTo(pp[..], l, names)
    ensures missing.Some? ==> missing.value in names && missing.value !in Dirs(pp[..])
  {
    var i := 0;
    while i < l.n
      invariant i <= l.n
      invariant forall k :: 0 <= k < i ==> l.d[k].Ref? && ResolvesTo(pp[..], names[k], l.d[k].port)
      invariant forall k :: i <= k < l.n ==> l.d[k] == Name(names[k])
    {
      LookupFinds(Dirs(pp[..]), names[i]);
      var p := FindPort(pp, 0, pp.Length, l.d[i].name);
      if p.None? {
        return Some(l.d[i].name);
      }
      l.d[i] := Ref(p.value);
      i := i + 1;
    }
    return None;
  }
}
