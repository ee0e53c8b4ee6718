/** The in-place heapsort used for ports (by directory) and for dependency lists (by package name). */
module HeapSort {
  import opened CStrings

  /** Elements are ordered by comparing their keys. */
  datatype Order<!T> = Order(key: T -> CString, cmp: (CString, CString) -> int) {
    ghost predicate Valid() {
      TotalOrder(cmp)
    }

    function Compare(x: T, y: T): int {
      cmp(key(x), key(y))
    }

    ghost predicate Le(x: T, y: T) {
      Compare(x, y) <= 0
    }
  }

  ghost predicate Sorted<T>(o: Order<T>, s: seq<T>) {
    forall i, j :: 0 <= i < j < |s| ==> o.Le(s[i], s[j])
  }

  function Parent(i: int): int
    requires i > 0
    ensures 0 <= Parent(i) < i
  {
    (i - 1) / 2
  }

  /** Every node below `size` whose parent is at least `lo`, other than `hole`, is dominated by that parent. */
  ghost predicate HeapBut<T>(o: Order<T>, s: seq<T>, lo: int, size: int, hole: int)
    requires 0 <= lo && size <= |s|
  {
    forall c :: 0 < c < size && lo <= Parent(c) && Parent(c) != hole ==> o.Le(s[c], s[Parent(c)])
  }

  ghost predicate Heap<T>(o: Order<T>, s: seq<T>, lo: int, size: int)
    requires 0 <= lo && size <= |s|
  {
    HeapBut(o, s, lo, size, -1)
  }

  /** Children of the hole are dominated by the hole's parent. */
  ghost predicate Bridged<T>(o: Order<T>, s: seq<T>, lo: int, size: int, hole: int)
    requires 0 <= lo && size <= |s|
  {
    forall c :: 0 < c < size && 0 < hole && Parent(c) == hole && lo <= Parent(hole) ==> o.Le(s[c], s[Parent(hole)])
  }

  /** t is s with the elements at i and j exchanged. */
  ghost predicate Swapped<T>(s: seq<T>, t: seq<T>, i: int, j: int)
    requires 0 <= i < |s| && 0 <= j < |s|
  {
    t == s[i := s[j]][j := s[i]]
  }

  lemma SwapKeepsPrefix<T>(s: seq<T>, t: seq<T>, i: int, j: int, n: int)
    requires 0 <= i < n <= |s| && 0 <= j < n && Swapped(s, t, i, j)
    ensures multiset(t[..n]) == multiset(s[..n]) && t[n..] == s[n..]
  {
    var p := s[..n];
    assert t[..n] == p[i := p[j]][j := p[i]];
  }

  /** One sift-down step: exchanging the hole with its larger child moves the hole down. */
  lemma SiftStep<T>(o: Order<T>, s: seq<T>, t: seq<T>, lo: int, size: int, hole: int, i: int)
    requires o.Valid() && 0 <= lo <= hole < size <= |s|
    requires HeapBut(o, s, lo, size, hole) && Bridged(o, s, lo, size, hole)
    requires i == 2 * hole + 1 || i == 2 * hole + 2
    requires i < size && !o.Le(s[i], s[hole])
    requires forall c :: 0 < c < size && Parent(c) == hole ==> o.Le(s[c], s[i])
    requires Swapped(s, t, hole, i)
    ensures HeapBut(o, t, lo, size, i) && Bridged(o, t, lo, size, i)
  {
    assert Parent(i) == hole;
    forall c | 0 < c < size && lo <= Parent(c) && Parent(c) != i
      ensures o.Le(t[c], t[Parent(c)])
    {
      if c == hole {
        assert o.Le(s[i], s[Parent(hole)]);
      }
    }
    forall c | 0 < c < size && Parent(c) == i
      ensures o.Le(t[c], t[hole])
    {
      assert o.Le(s[c], s[i]);
    }
  }

  /** i is the hole or one of its children, and no child of the hole is larger. */
  ghost predicate Largest<T>(o: Order<T>, s: seq<T>, size: int, hole: int, i: int)
    requires 0 <= hole < size <= |s|
  {
    && (i == hole || i == 2 * hole + 1 || i == 2 * hole + 2)
    && i < size
    && (i != hole ==> !o.Le(s[i], s[hole]))
    && (forall c :: 0 < c < size && Parent(c) == hole ==> o.Le(s[c], s[i]))
  }

  /** The largest of {hole, 2*hole+1, 2*hole+2}. */
  method LargestOf<T>(a: array<T>, size: nat, hole: nat, o: Order<T>) returns (i: nat)
    requires o.Valid() && hole < size <= a.Length
    ensures Largest(o, a[..], size, hole, i)
  {
    i := hole;
    if 2 * hole + 1 < size && o.Compare(a[i], a[2 * hole + 1]) < 0 {
      i := 2 * hole + 1;
    }
    if 2 * hole + 2 < size && o.Compare(a[i], a[2 * hole + 2]) < 0 {
      i := 2 * hole + 2;
    }
    assert forall c :: 0 < c < size && Parent(c) == hole ==> c == 2 * hole + 1 || c == 2 * hole + 2;
  }

  /** A hole not smaller than its children is no hole. */
  lemma HoleFilled<T>(o: Order<T>, s: seq<T>, lo: int, size: int, hole: int)
    requires 0 <= lo <= hole < size <= |s|
    requires HeapBut(o, s, lo, size, hole) && Largest(o, s, size, hole, hole)
    ensures Heap(o, s, lo, size)
  {
  }

  /** heapifyports / heapifypkgs: sift a[pos] down in the pseudo-heap a[..size]. */
  method Heapify<T>(a: array<T>, size: nat, pos: nat, o: Order<T>)
    requires o.Valid() && pos < size <= a.Length
    requires HeapBut(o, a[..], pos, size, pos)
    modifies a
    ensures Heap(o, a[..], pos, size)
    ensures multiset(a[..size]) == multiset(old(a[..size])) && a[size..] == old(a[size..])
  {
    var hole := pos;
    while true
      invariant pos <= hole < size
      invariant HeapBut(o, a[..], pos, size, hole) && Bridged(o, a[..], pos, size, hole)
      invariant multiset(a[..size]) == multiset(old(a[..size])) && a[size..] == old(a[size..])
      decreases size - hole
    {
      var i := LargestOf(a, size, hole, o);
      if i == hole {
        HoleFilled(o, a[..], pos, size, hole);
        return;
      }
      ghost var s := a[..];
      a[hole], a[i] := a[i], a[hole];
      ghost var t := a[..];
      assert a[..size] == t[..size] && a[size..] == t[size..];
      SwapKeepsPrefix(s, t, hole, i, size);
      SiftStep(o, s, t, pos, size, hole, i);
      hole := i;
    }
  }

  /** The root of a heap dominates it. */
  lemma {:induction false} RootIsMax<T>(o: Order<T>, s: seq<T>, size: int, i: int)
    requires o.Valid() && 0 <= i < size <= |s| && Heap(o, s, 0, size)
    ensures o.Le(s[i], s[0])
    decreases i
  {
    if i > 0 {
      RootIsMax(o, s, size, Parent(i));
    }
  }

  /** Everything before position m is at most everything from m on. */
  ghost predicate Partitioned<T>(o: Order<T>, s: seq<T>, m: int, n: int)
    requires 0 <= m <= n <= |s|
  {
    forall i, j :: 0 <= i < m <= j < n ==> o.Le(s[i], s[j])
  }

  /** Permuting the front part keeps the partition. */
  lemma PermutedPartition<T>(o: Order<T>, s: seq<T>, t: seq<T>, m: int, n: int)
    requires 0 <= m <= n <= |s| == |t|
    requires multiset(s[..m]) == multiset(t[..m]) && s[m..] == t[m..] && Partitioned(o, s, m, n)
    ensures Partitioned(o, t, m, n)
  {
    forall i, j | 0 <= i < m <= j < n
      ensures o.Le(t[i], t[j])
    {
      assert t[..m][i] in multiset(s[..m]);
      var k :| 0 <= k < m && s[..m][k] == t[i];
      assert t[j] == t[m..][j - m] == s[m..][j - m] == s[j];
    }
  }

  /** The two loops of sortpkgs, and of main over ports: build a heap, then extract maxima. */
  method Sort<T>(a: array<T>, n: nat, o: Order<T>)
    requires o.Valid() && n <= a.Length
    modifies a
    ensures Sorted(o, a[..n])
    ensures multiset(a[..n]) == multiset(old(a[..n])) && a[n..] == old(a[n..])
  {
    if n == 0 {
      return;
    }
    var i := n;
    while i > 0
      invariant 0 <= i <= n
      invariant Heap(o, a[..], i, n)
      invariant multiset(a[..n]) == multiset(old(a[..n])) && a[n..] == old(a[n..])
    {
      Heapify(a, n, i - 1, o);
      i := i - 1;
    }
    i := n - 1;
    while i > 0
      invariant 0 <= i < n
      invariant Heap(o, a[..], 0, i + 1)
      invariant Sorted(o, a[i + 1..n]) && Partitioned(o, a[..], i + 1, n)
      invariant multiset(a[..n]) == multiset(old(a[..n])) && a[n..] == old(a[n..])
    {
      ghost var s := a[..];
      a[0], a[i] := a[i], a[0];
      ghost var t := a[..];
      SwapKeepsPrefix(s, t, 0, i, n);
      Extracted(o, s, t, i, n);
      Heapify(a, i, 0, o);
      Resifted(o, t, a[..], i, n);
      i := i - 1;
    }
  }

  /** Moving the maximum behind the heap grows the sorted tail. */
  lemma Extracted<T>(o: Order<T>, s: seq<T>, t: seq<T>, i: int, n: int)
    requires o.Valid() && 0 < i < n <= |s| && Heap(o, s, 0, i + 1)
    requires Sorted(o, s[i + 1..n]) && Partitioned(o, s, i + 1, n) && Swapped(s, t, 0, i)
    ensures Sorted(o, t[i..n]) && Partitioned(o, t, i, n) && HeapBut(o, t, 0, i, 0)
  {
    forall k | 0 <= k <= i
      ensures o.Le(s[k], s[0])
    {
      RootIsMax(o, s, i + 1, k);
    }
    forall j, k | 0 <= j < k < n - i
      ensures o.Le(t[i..n][j], t[i..n][k])
    {
      if j > 0 {
        assert t[i..n][j] == s[i + 1..n][j - 1] && t[i..n][k] == s[i + 1..n][k - 1];
      }
    }
  }

  /** Sifting inside the front part keeps the tail sorted and the prefix a permutation. */
  lemma Resifted<T>(o: Order<T>, t: seq<T>, u: seq<T>, i: int, n: int)
    requires 0 < i < n <= |t| == |u| && Sorted(o, t[i..n]) && Partitioned(o, t, i, n)
    requires multiset(u[..i]) == multiset(t[..i]) && u[i..] == t[i..]
    ensures Sorted(o, u[i..n]) && Partitioned(o, u, i, n)
    ensures multiset(u[..n]) == multiset(t[..n]) && u[n..] == t[n..]
  {
    PermutedPartition(o, t, u, i, n);
    assert u[i..n] == u[i..][..n - i] == t[i..][..n - i] == t[i..n];
    assert u[n..] == u[i..][n - i..] == t[i..][n - i..] == t[n..];
    assert u[..n] == u[..i] + u[i..n] && t[..n] == t[..i] + t[i..n];
  }
}
