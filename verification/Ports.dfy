/** The PORT record and its five growable dependency lists. */
module Ports {
  import opened CStrings
  import opened Graphs

  /** A dependency: a directory name until it is resolved, then a port. */
  datatype Dep = Name(name: CString) | Ref(port: Port)

  /** A count field and the block its list pointer points to. While a list is being
      expanded the count field holds the capacity of a block not yet stored here. */
  datatype DepList = DepList(n: nat, d: array<Dep>)

  class Port {
    const pkgname: CString
    const portdir: CString
    const prefix: CString
    const comment: CString
    const pkgdescr: CString
    const maintainer: CString
    const categories: CString
    const www: CString
    var edep: DepList
    var pdep: DepList
    var fdep: DepList
    var bdep: DepList
    var rdep: DepList
    var recursed: int

    constructor (pkgname: CString, portdir: CString, prefix: CString, comment: CString, pkgdescr: CString,
                 maintainer: CString, categories: CString, www: CString, deps: Five<DepList>)
      ensures this.pkgname == pkgname && this.portdir == portdir && this.prefix == prefix
      ensures this.comment == comment && this.pkgdescr == pkgdescr && this.maintainer == maintainer
      ensures this.categories == categories && this.www == www
      ensures Lists() == deps && recursed == 0
    {
      this.pkgname, this.portdir, this.prefix, this.comment := pkgname, portdir, prefix, comment;
      this.pkgdescr, this.maintainer, this.categories, this.www := pkgdescr, maintainer, categories, www;
      edep, pdep, fdep, bdep, rdep := deps.e, deps.p, deps.f, deps.b, deps.r;
      recursed := 0;
    }

    function Lists(): Five<DepList>
      reads this
    {
      Five(edep, pdep, fdep, bdep, rdep)
    }

    function Get(s: Slot): DepList
      reads this
    {
      Lists().Get(s)
    }

    /** Stores through a pointer to one of the five (count, list) field pairs. */
    method Put(s: Slot, l: DepList)
      modifies this
      ensures Get(s) == l && recursed == old(recursed)
      ensures forall t :: t != s ==> Get(t) == old(Get(t))
    {
      match s
      case E => edep := l;
      case P => pdep := l;
      case F => fdep := l;
      case B => bdep := l;
      case R => rdep := l;
    }
  }

  /** The first |ps| cells of the block are references to ps, in order. */
  ghost predicate Refers(d: array<Dep>, ps: seq<Port>)
    reads d
  {
    |ps| <= d.Length && forall k :: 0 <= k < |ps| ==> d[k] == Ref(ps[k])
  }

  /** A list at rest: the count field is its true length. */
  ghost predicate Holds(l: DepList, ps: seq<Port>)
    reads l.d
  {
    l.n == |ps| && Refers(l.d, ps)
  }

  /** Which list each block belongs to. */
  type Owners = map<array<Dep>, (Port, Slot)>

  /** No other list shares a block with p's. */
  ghost predicate Owns(owner: Owners, p: Port)
    reads p
  {
    forall s: Slot :: p.Get(s).d in owner && owner[p.Get(s).d] == (p, s)
  }
}
