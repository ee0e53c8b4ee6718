/** NUL-terminated strings and the two orders make_index sorts by. */
module CStrings {

  /** A C string without its terminator. */
  type CString = s: string | '\0' !in s

  /** The character C reads at index i: the terminator just past the end. */
  function At(s: CString, i: nat): char
    requires i <= |s|
  {
    if i == |s| then '\0' else s[i]
  }

  /** The text before the first NUL: what C sees of a buffer holding s. */
  function Terminated(s: string): CString {
    if s == [] || s[0] == '\0' then [] else [s[0]] + Terminated(s[1..])
  }

  /** Without a NUL that is the whole text, and otherwise what precedes the first one. */
  lemma {:induction false} TerminatedExact(text: CString, rest: string)
    ensures Terminated(text) == text && Terminated(text + "\0" + rest) == text
    decreases |text|
  {
    var s := text + "\0" + rest;
    if text != [] {
      assert s[1..] == text[1..] + "\0" + rest && text[0] in text;
      TerminatedExact(text[1..], rest);
    }
  }

  /** Plain char is signed on amd64. */
  function PlainChar(c: char): int {
    if 128 <= c as int < 256 then c as int - 256 else c as int
  }

  /** Order of characters in port directories: NUL, then '/', then plain char order. */
  function PathWeight(c: char): int {
    if c == '\0' then -130 else if c == '/' then -129 else PlainChar(c)
  }

  /** Order of characters under strcmp. */
  function ByteWeight(c: char): int {
    c as int
  }

  /** A weight under which lexicographic order is total and a proper prefix comes first. */
  ghost predicate Weighs(w: char -> int) {
    && (forall c, d :: w(c) == w(d) ==> c == d)
    && (forall c :: c != '\0' ==> w('\0') < w(c))
  }

  lemma WeightsWeigh()
    ensures Weighs(PathWeight) && Weighs(ByteWeight)
  {
  }

  /** a precedes b: they agree up to k, and a's next character is the lighter one. */
  ghost predicate LexLess(w: char -> int, a: CString, b: CString) {
    exists k: nat :: k <= |a| && k <= |b| && DecidesAt(w, a, b, k)
  }

  ghost predicate DecidesAt(w: char -> int, a: CString, b: CString, k: nat)
    requires k <= |a| && k <= |b|
  {
    a[..k] == b[..k] && w(At(a, k)) < w(At(b, k))
  }

  /** Sign of the comparison, scanning from index i on. */
  function CmpFrom(w: char -> int, a: CString, b: CString, i: nat): int
    requires i <= |a| && i <= |b|
    decreases |a| - i
  {
    if At(a, i) != At(b, i) then
      if w(At(a, i)) < w(At(b, i)) then -1 else 1
    else if i == |a| then 0
    else CmpFrom(w, a, b, i + 1)
  }

  function Cmp(w: char -> int, a: CString, b: CString): int {
    CmpFrom(w, a, b, 0)
  }

  function PathCmp(a: CString, b: CString): int {
    Cmp(PathWeight, a, b)
  }

  function StrCmp(a: CString, b: CString): int {
    Cmp(ByteWeight, a, b)
  }

  /** Cmp decides LexLess in both directions and equality. */
  lemma {:induction false} CmpMeaning(w: char -> int, a: CString, b: CString, i: nat)
    requires Weighs(w) && i <= |a| && i <= |b| && a[..i] == b[..i]
    ensures CmpFrom(w, a, b, i) < 0 <==> LexLess(w, a, b)
    ensures CmpFrom(w, a, b, i) == 0 <==> a == b
    ensures CmpFrom(w, a, b, i) > 0 <==> LexLess(w, b, a)
    decreases |a| - i
  {
    if At(a, i) != At(b, i) {
      assert w(At(a, i)) != w(At(b, i));
      assert DecidesAt(w, a, b, i) || DecidesAt(w, b, a, i);
      DecidedOnce(w, a, b, i);
    } else if i == |a| {
      assert a == a[..i] == b[..i] == b;
    } else {
      CmpMeaning(w, a, b, i + 1);
    }
  }

  /** Only the first difference decides. */
  lemma DecidedOnce(w: char -> int, a: CString, b: CString, i: nat)
    requires i <= |a| && i <= |b| && a[..i] == b[..i] && At(a, i) != At(b, i)
    ensures LexLess(w, a, b) ==> DecidesAt(w, a, b, i)
    ensures LexLess(w, b, a) ==> DecidesAt(w, b, a, i)
  {
    forall k: nat | k <= |a| && k <= |b| && a[..k] == b[..k] && k != i
      ensures At(a, k) == At(b, k)
    {
      if k < i {
        assert a[k] == a[..i][k] == b[..i][k] == b[k];
      }
    }
  }

  /** LexLess chains: the comparison decided earliest decides the outer one. */
  lemma LexTransitive(w: char -> int, a: CString, b: CString, c: CString)
    requires Weighs(w) && LexLess(w, a, b) && LexLess(w, b, c)
    ensures LexLess(w, a, c)
  {
    var i: nat :| i <= |a| && i <= |b| && DecidesAt(w, a, b, i);
    var j: nat :| j <= |b| && j <= |c| && DecidesAt(w, b, c, j);
    var k := if i <= j then i else j;
    if i < j {
      assert b[i] == b[..j][i] == c[..j][i] == c[i];
    } else if j < i {
      assert b[j] == b[..i][j] == a[..i][j] == a[j];
    }
    assert a[..k] == a[..i][..k] == b[..i][..k] == b[..k] == b[..j][..k] == c[..j][..k] == c[..k];
    assert DecidesAt(w, a, c, k);
  }

  /** What sorting needs of a three-way comparison. */
  ghost predicate TotalOrder(cmp: (CString, CString) -> int) {
    && (forall a, b :: cmp(a, b) == 0 <==> a == b)
    && (forall a, b :: cmp(a, b) < 0 <==> cmp(b, a) > 0)
    && (forall a, b, c :: cmp(a, b) <= 0 && cmp(b, c) <= 0 ==> cmp(a, c) <= 0)
  }

  /** Both comparisons of make_index are total orders. */
  lemma ComparisonsAreTotalOrders()
    ensures TotalOrder(PathCmp) && TotalOrder(StrCmp)
  {
    WeightsWeigh();
    forall a: CString, b: CString
      ensures PathCmp(a, b) == 0 <==> a == b
      ensures PathCmp(a, b) < 0 <==> PathCmp(b, a) > 0
      ensures StrCmp(a, b) == 0 <==> a == b
      ensures StrCmp(a, b) < 0 <==> StrCmp(b, a) > 0
    {
      OrderLaws(PathWeight, a, b, a);
      OrderLaws(ByteWeight, a, b, a);
    }
    forall a: CString, b: CString, c: CString | PathCmp(a, b) <= 0 && PathCmp(b, c) <= 0
      ensures PathCmp(a, c) <= 0
    {
      OrderLaws(PathWeight, a, b, c);
    }
    forall a: CString, b: CString, c: CString | StrCmp(a, b) <= 0 && StrCmp(b, c) <= 0
      ensures StrCmp(a, c) <= 0
    {
      OrderLaws(ByteWeight, a, b, c);
    }
  }

  lemma OrderLaws(w: char -> int, a: CString, b: CString, c: CString)
    requires Weighs(w)
    ensures Cmp(w, a, b) == 0 <==> a == b
    ensures Cmp(w, a, b) < 0 <==> Cmp(w, b, a) > 0
    ensures Cmp(w, a, b) <= 0 && Cmp(w, b, c) <= 0 ==> Cmp(w, a, c) <= 0
  {
    CmpMeaning(w, a, b, 0);
    CmpMeaning(w, b, a, 0);
    CmpMeaning(w, b, c, 0);
    CmpMeaning(w, a, c, 0);
    if LexLess(w, a, b) && LexLess(w, b, c) {
      LexTransitive(w, a, b, c);
    }
  }

  /** The first difference decides. */
  lemma DifferenceDecides(w: char -> int, a: CString, b: CString, k: nat)
    requires Weighs(w) && k <= |a| && k <= |b| && a[..k] == b[..k] && w(At(a, k)) < w(At(b, k))
    ensures Cmp(w, a, b) < 0 && Cmp(w, b, a) > 0
  {
    assert DecidesAt(w, a, b, k);
    CmpMeaning(w, a, b, 0);
    CmpMeaning(w, b, a, 0);
  }

  /** Under both orders a proper prefix comes first. */
  lemma PrefixFirst(p: CString, x: CString)
    requires x != []
    ensures PathCmp(p, p + x) < 0 && StrCmp(p, p + x) < 0
  {
    WeightsWeigh();
    assert (p + x)[|p|] == x[0] && x[0] in x && (p + x)[..|p|] == p;
    DifferenceDecides(PathWeight, p, p + x, |p|);
    DifferenceDecides(ByteWeight, p, p + x, |p|);
  }

  /** Ports of a category precede those of any category whose name continues its name. */
  lemma SlashFirst(c: CString, x: CString, s: CString)
    requires s != [] && s[0] != '/'
    ensures PathCmp(c + "/" + x, c + s) < 0
  {
    WeightsWeigh();
    var a, b := c + "/" + x, c + s;
    assert a[..|c|] == c == b[..|c|] && a[|c|] == '/' && b[|c|] == s[0] && s[0] in s;
    DifferenceDecides(PathWeight, a, b, |c|);
  }

  /** Of two characters of one byte each, the one that is smaller as a signed char. */
  predicate SignedLess(x: char, y: char) {
    var (i, j) := (x as int, y as int);
    (i < 128 && j < 128 && i < j) || (128 <= i < 256 && j < 128) || (128 <= i < 256 && 128 <= j < 256 && i < j)
  }

  /** Otherwise the smaller signed character decides the path order. */
  lemma CharactersDecide(p: CString, x: char, s: CString, y: char, t: CString)
    requires x != '\0' && y != '\0' && x != '/' && y != '/' && SignedLess(x, y)
    ensures PathCmp(p + [x] + s, p + [y] + t) < 0
  {
    WeightsWeigh();
    var a: CString, b: CString := p + [x] + s, p + [y] + t;
    assert a[..|p|] == p == b[..|p|] && a[|p|] == x && b[|p|] == y;
    DifferenceDecides(PathWeight, a, b, |p|);
  }

  /** Package names compare byte by byte, unsigned. */
  lemma BytesDecide(p: CString, x: char, s: CString, y: char, t: CString)
    requires x != '\0' && y != '\0' && x < y
    ensures StrCmp(p + [x] + s, p + [y] + t) < 0
  {
    WeightsWeigh();
    var a: CString, b: CString := p + [x] + s, p + [y] + t;
    assert a[..|p|] == p == b[..|p|] && a[|p|] == x && b[|p|] == y;
    DifferenceDecides(ByteWeight, a, b, |p|);
  }

  /** The category x11 precedes x11-wm, although a hyphen is the smaller character. */
  lemma SlashBeforeHyphen()
    ensures PathCmp("x11/a", "x11-wm/b") < 0 && '-' < '/'
  {
    assert "x11" + "/" + "a" == "x11/a" && "x11" + "-wm/b" == "x11-wm/b";
    SlashFirst("x11", "a", "-wm/b");
  }

  /** portcompare: finds the first mismatch, then tries terminator, '/', and character order. */
  method PortCompare(a: CString, b: CString) returns (r: int)
    ensures r == PathCmp(a, b)
    ensures r < 0 <==> LexLess(PathWeight, a, b)
    ensures r == 0 <==> a == b
    ensures r > 0 <==> LexLess(PathWeight, b, a)
  {
    WeightsWeigh();
    CmpMeaning(PathWeight, a, b, 0);
    var i := 0;
    while true
      invariant i <= |a| && i <= |b|
      invariant CmpFrom(PathWeight, a, b, i) == PathCmp(a, b)
      decreases |a| - i
    {
      if At(a, i) != At(b, i) {
        break;
      }
      if At(a, i) == '\0' {
        return 0;
      }
      i := i + 1;
    }
    if At(a, i) == '\0' {
      return -1;
    }
    if At(b, i) == '\0' {
      return 1;
    }
    if At(a, i) == '/' {
      return -1;
    }
    if At(b, i) == '/' {
      return 1;
    }
    if PlainChar(At(a, i)) < PlainChar(At(b, i)) {
      return -1;
    }
    return 1;
  }
}
