/** Status lines, header fields and the guarded number parsers of phttpget. */
module Headers {
  import opened Options

  const OFF_MAX := 0x7FFF_FFFF_FFFF_FFFF

  // ---------- Guarded numbers ----------

  /** The parsing loops: stop at once when the value so far has reached OFF_MAX / base. */
  function Guarded(base: nat, acc: int, digits: seq<nat>): Option<int>
    requires base > 1
    decreases |digits|
  {
    if digits == [] then Some(acc)
    else if acc >= OFF_MAX / base then None
    else Guarded(base, acc * base + digits[0], digits[1..])
  }

  /** The number the digits denote. */
  function ValueOf(base: nat, digits: seq<nat>): nat {
    if digits == [] then 0 else ValueOf(base, digits[..|digits| - 1]) * base + digits[|digits| - 1]
  }

  /** What the loop has to add after a first part with value acc. */
  function Continued(base: nat, acc: nat, digits: seq<nat>): nat
    decreases |digits|
  {
    if digits == [] then acc else Continued(base, acc * base + digits[0], digits[1..])
  }

  lemma {:induction false} ContinuedLast(base: nat, acc: nat, digits: seq<nat>)
    requires digits != []
    ensures var n := |digits| - 1; Continued(base, acc, digits) == Continued(base, acc, digits[..n]) * base + digits[n]
    decreases |digits|
  {
    if |digits| > 1 {
      ContinuedLast(base, acc * base + digits[0], digits[1..]);
      assert digits[1..][..|digits| - 2] == digits[..|digits| - 1][1..];
    }
  }

  lemma {:induction false} ContinuedIsValue(base: nat, digits: seq<nat>)
    ensures Continued(base, 0, digits) == ValueOf(base, digits)
    decreases |digits|
  {
    if digits != [] {
      ContinuedLast(base, 0, digits);
      ContinuedIsValue(base, digits[..|digits| - 1]);
    }
  }

  lemma {:induction false} ContinuedGrows(base: nat, acc: nat, digits: seq<nat>)
    requires base > 1
    ensures acc <= Continued(base, acc, digits)
    decreases |digits|
  {
    if digits != [] {
      assert acc <= acc * base;
      ContinuedGrows(base, acc * base + digits[0], digits[1..]);
    }
  }

  lemma {:induction false} GuardedIs(base: nat, acc: nat, digits: seq<nat>)
    requires base > 1
    ensures digits != [] ==> (Guarded(base, acc, digits).Some? <==> Continued(base, acc, digits[..|digits| - 1]) < OFF_MAX / base)
    ensures Guarded(base, acc, digits).Some? ==> Guarded(base, acc, digits).value == Continued(base, acc, digits)
    decreases |digits|
  {
    if digits != [] {
      var rest := digits[1..];
      GuardedIs(base, acc * base + digits[0], rest);
      if rest == [] {
        assert digits[..|digits| - 1] == [];
      } else {
        assert digits[..|digits| - 1][1..] == rest[..|rest| - 1] && digits[..|digits| - 1][0] == digits[0];
        ContinuedGrows(base, acc, digits[..|digits| - 1]);
      }
    }
  }

  /** A digit string of any length is rejected exactly when the value of all digits but the last
      reaches OFF_MAX / base; otherwise its exact value comes out, and that is at most OFF_MAX. */
  lemma GuardedExact(base: nat, digits: seq<nat>)
    requires (base == 10 || base == 16) && forall k :: 0 <= k < |digits| ==> digits[k] < base
    ensures Guarded(base, 0, digits).None? <==> digits != [] && ValueOf(base, digits[..|digits| - 1]) >= OFF_MAX / base
    ensures Guarded(base, 0, digits).Some? ==> Guarded(base, 0, digits).value == ValueOf(base, digits) <= OFF_MAX
  {
    GuardedIs(base, 0, digits);
    ContinuedIsValue(base, digits);
    if digits != [] {
      ContinuedIsValue(base, digits[..|digits| - 1]);
      UnderLimit(ValueOf(base, digits[..|digits| - 1]), digits[|digits| - 1]);
    }
  }

  lemma UnderLimit(v: nat, d: nat)
    ensures v < OFF_MAX / 10 && d < 10 ==> v * 10 + d <= OFF_MAX
    ensures v < OFF_MAX / 16 && d < 16 ==> v * 16 + d <= OFF_MAX
  {
  }

  predicate IsDigit(c: char) {
    '0' <= c <= '9'
  }

  predicate IsHexDigit(c: char) {
    IsDigit(c) || 'a' <= c <= 'f' || 'A' <= c <= 'F'
  }

  function HexValue(c: char): (v: nat)
    requires IsHexDigit(c)
    ensures v < 16 && (IsDigit(c) ==> v < 10)
  {
    if IsDigit(c) then c as int - '0' as int
    else if 'a' <= c <= 'f' then c as int - 'a' as int + 10
    else c as int - 'A' as int + 10
  }

  /** The values of the leading decimal digits. */
  function Decimals(s: string): (ds: seq<nat>)
    ensures forall k :: 0 <= k < |ds| ==> ds[k] < 10
  {
    if s == "" || !IsDigit(s[0]) then [] else [HexValue(s[0])] + Decimals(s[1..])
  }

  /** The values of the leading hexadecimal digits. */
  function HexDigits(s: string): (ds: seq<nat>)
    ensures forall k :: 0 <= k < |ds| ==> ds[k] < 16
  {
    if s == "" || !IsHexDigit(s[0]) then [] else [HexValue(s[0])] + HexDigits(s[1..])
  }

  function SkipToDigit(s: string): string {
    if s == "" || IsDigit(s[0]) then s else SkipToDigit(s[1..])
  }

  /** What a Content-Length field says, from behind its name. */
  function LengthField(s: string): Option<int> {
    Guarded(10, 0, Decimals(SkipToDigit(s)))
  }

  /** What a chunk-size line says. */
  function ChunkSize(s: string): Option<int> {
    Guarded(16, 0, HexDigits(s))
  }

  lemma NumbersInRange(s: string)
    ensures LengthField(s).Some? ==> 0 <= LengthField(s).value <= OFF_MAX
    ensures ChunkSize(s).Some? ==> 0 <= ChunkSize(s).value <= OFF_MAX
  {
    GuardedExact(10, Decimals(SkipToDigit(s)));
    GuardedExact(16, HexDigits(s));
  }

  // ---------- Sums in between ----------

  /** Whether reading the leading digits on from acc forms a sum beyond OFF_MAX: C adds the character
      before it subtracts that of zero. */
  predicate DecimalOver(acc: nat, s: string)
    decreases |s|
  {
    s != "" && IsDigit(s[0]) &&
    (acc * 10 + s[0] as int > OFF_MAX || DecimalOver(acc * 10 + HexValue(s[0]), s[1..]))
  }

  /** What is added for a hexadecimal digit before that of zero, or of a, is subtracted. */
  function HexAddend(c: char): int
    requires IsHexDigit(c)
  {
    if IsDigit(c) then c as int else 10 + (if 'A' <= c <= 'F' then c as int + 32 else c as int)
  }

  predicate HexOver(acc: nat, s: string)
    decreases |s|
  {
    s != "" && IsHexDigit(s[0]) &&
    (acc * 16 + HexAddend(s[0]) > OFF_MAX || HexOver(acc * 16 + HexValue(s[0]), s[1..]))
  }

  const DECIMAL_BOUND := 922337203685477576

  /** From which value on the last digit forms such a sum: it depends on the digit. */
  function HexBound(c: char): nat {
    if IsDigit(c) then 576460752303423485 else if c == 'f' || c == 'F' then 576460752303423481 else 576460752303423482
  }

  lemma {:induction false} DecimalSumsFrom(acc: nat, s: string)
    requires Decimals(s) != [] && Guarded(10, acc, Decimals(s)).Some?
    ensures DecimalOver(acc, s) <==> Continued(10, acc, Decimals(s)[..|Decimals(s)| - 1]) >= DECIMAL_BOUND
    decreases |s|
  {
    var ds, next := Decimals(s), acc * 10 + HexValue(s[0]);
    assert ds[1..] == Decimals(s[1..]);
    if |ds| > 1 {
      assert Guarded(10, next, ds[1..]).Some? && next < OFF_MAX / 10;
      DecimalSumsFrom(next, s[1..]);
      assert ds[..|ds| - 1][1..] == ds[1..][..|ds| - 2];
    }
  }

  /** Of an accepted number a sum in between exceeds OFF_MAX exactly if all its digits but the last
      are worth DECIMAL_BOUND or more. */
  lemma DecimalSums(s: string)
    requires Decimals(s) != [] && Guarded(10, 0, Decimals(s)).Some?
    ensures DecimalOver(0, s) <==> ValueOf(10, Decimals(s)[..|Decimals(s)| - 1]) >= DECIMAL_BOUND
  {
    DecimalSumsFrom(0, s);
    ContinuedIsValue(10, Decimals(s)[..|Decimals(s)| - 1]);
  }

  lemma {:induction false} HexSumsFrom(acc: nat, s: string)
    requires HexDigits(s) != [] && Guarded(16, acc, HexDigits(s)).Some?
    ensures |HexDigits(s)| <= |s|
    ensures var n := |HexDigits(s)| - 1; HexOver(acc, s) <==> Continued(16, acc, HexDigits(s)[..n]) >= HexBound(s[n])
    decreases |s|
  {
    var ds, next := HexDigits(s), acc * 16 + HexValue(s[0]);
    assert ds[1..] == HexDigits(s[1..]);
    if |ds| > 1 {
      assert Guarded(16, next, ds[1..]).Some? && next < OFF_MAX / 16;
      HexSumsFrom(next, s[1..]);
      assert ds[..|ds| - 1][1..] == ds[1..][..|ds| - 2];
    }
  }

  /** The same for hexadecimal numbers, where the bound depends on the last digit. */
  lemma HexSums(s: string)
    requires HexDigits(s) != [] && Guarded(16, 0, HexDigits(s)).Some?
    ensures |HexDigits(s)| <= |s|
    ensures var n := |HexDigits(s)| - 1; HexOver(0, s) <==> ValueOf(16, HexDigits(s)[..n]) >= HexBound(s[n])
  {
    HexSumsFrom(0, s);
    ContinuedIsValue(16, HexDigits(s)[..|HexDigits(s)| - 1]);
  }

  /** The accumulator's way through the digits. */
  ghost predicate Steps(base: nat, ds: seq<nat>, accs: seq<nat>)
    requires base > 1
  {
    |accs| == |ds| + 1 && forall k :: 0 <= k < |ds| ==> accs[k] < OFF_MAX / base && accs[k + 1] == accs[k] * base + ds[k]
  }

  lemma {:induction false} GuardedAlong(base: nat, ds: seq<nat>, accs: seq<nat>, i: nat)
    requires base > 1 && Steps(base, ds, accs) && i <= |ds|
    ensures Guarded(base, accs[i], ds[i..]) == Some(accs[|ds|])
    decreases |ds| - i
  {
    if i < |ds| {
      GuardedAlong(base, ds, accs, i + 1);
      assert ds[i..][1..] == ds[i + 1..];
    }
  }

  lemma {:induction false} DecimalsAre(s: string, ds: seq<nat>)
    requires |s| == |ds| && forall k :: 0 <= k < |s| ==> IsDigit(s[k]) && HexValue(s[k]) == ds[k]
    ensures Decimals(s) == ds
  {
    if s != "" {
      DecimalsAre(s[1..], ds[1..]);
    }
  }

  lemma {:induction false} HexDigitsAre(s: string, ds: seq<nat>)
    requires |s| == |ds| && forall k :: 0 <= k < |s| ==> IsHexDigit(s[k]) && HexValue(s[k]) == ds[k]
    ensures HexDigits(s) == ds
  {
    if s != "" {
      HexDigitsAre(s[1..], ds[1..]);
    }
  }

  /** What a way through the digits says about the value, and about the value before the last digit. */
  lemma ValueAlong(base: nat, ds: seq<nat>, accs: seq<nat>)
    requires (base == 10 || base == 16) && ds != [] && Steps(base, ds, accs) && accs[0] == 0
    requires forall k :: 0 <= k < |ds| ==> ds[k] < base
    ensures Guarded(base, 0, ds) == Some(accs[|ds|])
    ensures ValueOf(base, ds[..|ds| - 1]) == accs[|ds| - 1]
  {
    var n := |ds| - 1;
    GuardedAlong(base, ds, accs, 0);
    GuardedAlong(base, ds[..n], accs[..n + 1], 0);
    assert ds[0..] == ds && ds[..n][0..] == ds[..n];
    GuardedExact(base, ds[..n]);
  }

  const LENGTH_OVER := "9223372036854775760"
  const LENGTH_DIGITS: seq<nat> := [9, 2, 2, 3, 3, 7, 2, 0, 3, 6, 8, 5, 4, 7, 7, 5, 7, 6, 0]
  const LENGTH_STEPS: seq<nat> := [0, 9, 92, 922, 9223, 92233, 922337, 9223372, 92233720, 922337203, 9223372036,
    92233720368, 922337203685, 9223372036854, 92233720368547, 922337203685477, 9223372036854775, 92233720368547757,
    922337203685477576, 9223372036854775760]

  lemma LengthDigits(k: nat)
    requires k < 19
    ensures IsDigit(LENGTH_OVER[k]) && HexValue(LENGTH_OVER[k]) == LENGTH_DIGITS[k] < 10
  {
    assert k < 10 ==> IsDigit(LENGTH_OVER[k]) && HexValue(LENGTH_OVER[k]) == LENGTH_DIGITS[k] < 10;
  }

  lemma LengthSteps(k: nat)
    requires k < 19
    ensures LENGTH_STEPS[k] < OFF_MAX / 10 && LENGTH_STEPS[k + 1] == LENGTH_STEPS[k] * 10 + LENGTH_DIGITS[k]
  {
    assert k < 10 ==> LENGTH_STEPS[k] < OFF_MAX / 10 && LENGTH_STEPS[k + 1] == LENGTH_STEPS[k] * 10 + LENGTH_DIGITS[k];
  }

  /** A length that is accepted, and forms such a sum. */
  lemma LengthSumOver()
    ensures LengthField(LENGTH_OVER) == Some(9223372036854775760) && DecimalOver(0, SkipToDigit(LENGTH_OVER))
  {
    hide Decimals, Guarded, ValueOf, DecimalOver, HexValue, IsDigit;
    forall k: nat | k < 19
      ensures IsDigit(LENGTH_OVER[k]) && HexValue(LENGTH_OVER[k]) == LENGTH_DIGITS[k] < 10
      ensures LENGTH_STEPS[k] < OFF_MAX / 10 && LENGTH_STEPS[k + 1] == LENGTH_STEPS[k] * 10 + LENGTH_DIGITS[k]
    {
      LengthDigits(k);
      LengthSteps(k);
    }
    assert SkipToDigit(LENGTH_OVER) == LENGTH_OVER;
    DecimalsAre(LENGTH_OVER, LENGTH_DIGITS);
    ValueAlong(10, LENGTH_DIGITS, LENGTH_STEPS);
    DecimalSums(LENGTH_OVER);
  }

  const CHUNK_OVER := "7FFFFFFFFFFFFFE0"
  const CHUNK_DIGITS: seq<nat> := [7, 15, 15, 15, 15, 15, 15, 15, 15, 15, 15, 15, 15, 15, 14, 0]
  const CHUNK_STEPS: seq<nat> := [0, 0x7, 0x7F, 0x7FF, 0x7FFF, 0x7_FFFF, 0x7F_FFFF, 0x7FF_FFFF, 0x7FFF_FFFF, 0x7_FFFF_FFFF,
    0x7F_FFFF_FFFF, 0x7FF_FFFF_FFFF, 0x7FFF_FFFF_FFFF, 0x7_FFFF_FFFF_FFFF, 0x7F_FFFF_FFFF_FFFF,
    0x7FF_FFFF_FFFF_FFFE, 0x7FFF_FFFF_FFFF_FFE0]

  lemma ChunkDigits(k: nat)
    requires k < 16
    ensures IsHexDigit(CHUNK_OVER[k]) && HexValue(CHUNK_OVER[k]) == CHUNK_DIGITS[k] < 16
  {
    assert k < 8 ==> IsHexDigit(CHUNK_OVER[k]) && HexValue(CHUNK_OVER[k]) == CHUNK_DIGITS[k] < 16;
  }

  lemma ChunkSteps(k: nat)
    requires k < 16
    ensures CHUNK_STEPS[k] < OFF_MAX / 16 && CHUNK_STEPS[k + 1] == CHUNK_STEPS[k] * 16 + CHUNK_DIGITS[k]
  {
    assert k < 8 ==> CHUNK_STEPS[k] < OFF_MAX / 16 && CHUNK_STEPS[k + 1] == CHUNK_STEPS[k] * 16 + CHUNK_DIGITS[k];
  }

  /** So does a chunk size. */
  lemma ChunkSumOver()
    ensures ChunkSize(CHUNK_OVER) == Some(0x7FFF_FFFF_FFFF_FFE0) && HexOver(0, CHUNK_OVER)
  {
    hide HexDigits, Guarded, ValueOf, HexOver, HexValue, IsHexDigit;
    forall k: nat | k < 16
      ensures IsHexDigit(CHUNK_OVER[k]) && HexValue(CHUNK_OVER[k]) == CHUNK_DIGITS[k] < 16
      ensures CHUNK_STEPS[k] < OFF_MAX / 16 && CHUNK_STEPS[k + 1] == CHUNK_STEPS[k] * 16 + CHUNK_DIGITS[k]
    {
      ChunkDigits(k);
      ChunkSteps(k);
    }
    HexDigitsAre(CHUNK_OVER, CHUNK_DIGITS);
    ValueAlong(16, CHUNK_DIGITS, CHUNK_STEPS);
    HexSums(CHUNK_OVER);
  }

  // ---------- The loops ----------

  lemma DecimalStep(acc: nat, s: string)
    ensures s == "" || !IsDigit(s[0]) ==> Guarded(10, acc, Decimals(s)) == Some(acc) && !DecimalOver(acc, s)
    ensures s != "" && IsDigit(s[0]) ==>
      var next := acc * 10 + HexValue(s[0]);
      && Guarded(10, acc, Decimals(s)) == (if acc >= OFF_MAX / 10 then None else Guarded(10, next, Decimals(s[1..])))
      && (DecimalOver(acc, s) <==> acc * 10 + s[0] as int > OFF_MAX || DecimalOver(next, s[1..]))
  {
    if s != "" && IsDigit(s[0]) {
      assert Decimals(s)[1..] == Decimals(s[1..]);
    }
  }

  lemma HexStep(acc: nat, s: string)
    ensures s == "" || !IsHexDigit(s[0]) ==> Guarded(16, acc, HexDigits(s)) == Some(acc) && !HexOver(acc, s)
    ensures s != "" && IsHexDigit(s[0]) ==>
      var next := acc * 16 + HexValue(s[0]);
      && Guarded(16, acc, HexDigits(s)) == (if acc >= OFF_MAX / 16 then None else Guarded(16, next, HexDigits(s[1..])))
      && (HexOver(acc, s) <==> acc * 16 + HexAddend(s[0]) > OFF_MAX || HexOver(next, s[1..]))
  {
    if s != "" && IsHexDigit(s[0]) {
      assert HexDigits(s)[1..] == HexDigits(s[1..]);
    }
  }

  /** The second Content-Length loop. over tells whether a sum in between has exceeded OFF_MAX. */
  method Accumulate(s: string) returns (r: Option<int>, ghost over: bool)
    ensures r == Guarded(10, 0, Decimals(s))
    ensures r.Some? ==> over == DecimalOver(0, s)
  {
    hide Guarded, Decimals, DecimalOver, HexValue;
    over := false;
    var contentlength, i := 0, 0;
    assert s[0..] == s;
    while i < |s| && IsDigit(s[i])
      invariant i <= |s| && 0 <= contentlength
      invariant Guarded(10, contentlength, Decimals(s[i..])) == Guarded(10, 0, Decimals(s))
      invariant over || DecimalOver(contentlength, s[i..]) <==> DecimalOver(0, s)
    {
      DecimalStep(contentlength, s[i..]);
      assert s[i..][1..] == s[i + 1..];
      if contentlength >= OFF_MAX / 10 {
        return None, over;
      }
      over := over || contentlength * 10 + s[i] as int > OFF_MAX;
      contentlength := contentlength * 10 + HexValue(s[i]);
      i := i + 1;
    }
    DecimalStep(contentlength, s[i..]);
    return Some(contentlength), over;
  }

  /** The Content-Length loops: skip to the first digit, then accumulate. */
  method ParseLength(s: string) returns (r: Option<int>, ghost over: bool)
    ensures r == LengthField(s)
    ensures r.Some? ==> r.value == ValueOf(10, Decimals(SkipToDigit(s))) <= OFF_MAX
    ensures r.Some? ==> over == DecimalOver(0, SkipToDigit(s))
  {
    GuardedExact(10, Decimals(SkipToDigit(s)));
    var i := 0;
    while i < |s| && !IsDigit(s[i])
      invariant i <= |s| && SkipToDigit(s[i..]) == SkipToDigit(s)
    {
      i := i + 1;
    }
    r, over := Accumulate(s[i..]);
  }

  /** The chunk-size loop. */
  method ParseChunkSize(s: string) returns (r: Option<int>, ghost over: bool)
    ensures r == ChunkSize(s)
    ensures r.Some? ==> r.value == ValueOf(16, HexDigits(s)) <= OFF_MAX
    ensures r.Some? ==> over == HexOver(0, s)
  {
    hide Guarded, HexDigits, HexOver, HexValue, HexAddend, ValueOf;
    GuardedExact(16, HexDigits(s));
    over := false;
    var clen, i := 0, 0;
    assert s[0..] == s;
    while i < |s| && IsHexDigit(s[i])
      invariant i <= |s| && 0 <= clen
      invariant Guarded(16, clen, HexDigits(s[i..])) == ChunkSize(s)
      invariant over || HexOver(clen, s[i..]) <==> HexOver(0, s)
    {
      HexStep(clen, s[i..]);
      assert s[i..][1..] == s[i + 1..];
      if clen >= OFF_MAX / 16 {
        return None, over;
      }
      over := over || clen * 16 + HexAddend(s[i]) > OFF_MAX;
      clen := clen * 16 + HexValue(s[i]);
      i := i + 1;
    }
    HexStep(clen, s[i..]);
    return Some(clen), over;
  }

  // ---------- Header lines ----------

  /** What the header lines read so far have set. */
  datatype Head = Head(status: int, length: int, chunked: bool, keepalive: bool, pipelined: bool)

  function Lower(s: string): (t: string)
    ensures |t| == |s|
  {
    if s == "" then ""
    else [if 'A' <= s[0] <= 'Z' then (s[0] as int + 32) as char else s[0]] + Lower(s[1..])
  }

  /** strncasecmp against a name given in lower case. */
  predicate IsField(line: string, name: string) {
    |name| <= |line| && Lower(line[..|name|]) == name
  }

  /** strcasestr for a word given in lower case. */
  predicate Mentions(s: string, word: string)
    decreases |s|
  {
    word <= Lower(s) || (s != "" && Mentions(s[1..], word))
  }

  function AfterSpace(s: string): Option<string> {
    if s == "" then None else if s[0] == ' ' then Some(s[1..]) else AfterSpace(s[1..])
  }

  lemma SpaceParts(s: string, a: string, t: string)
    requires ' ' !in a && s == a + " " + t
    ensures s[0] == ' ' <==> a == ""
  {
  }

  /** Behind the first space. */
  lemma {:induction false} AfterSpaceExact(s: string, t: string)
    ensures AfterSpace(s) == Some(t) <==> exists a :: ' ' !in a && s == a + " " + t
  {
    if s != "" && s[0] != ' ' {
      AfterSpaceExact(s[1..], t);
      if AfterSpace(s) == Some(t) {
        var a :| ' ' !in a && s[1..] == a + " " + t;
        assert ' ' !in [s[0]] + a && s == [s[0]] + a + " " + t;
      }
      if a :| ' ' !in a && s == a + " " + t {
        SpaceParts(s, a, t);
        assert ' ' !in a[1..] && s[1..] == a[1..] + " " + t;
      }
    } else if s != "" {
      assert s == "" + " " + s[1..];
      if a :| ' ' !in a && s == a + " " + t {
        SpaceParts(s, a, t);
      }
    }
  }

  /** The first line: HTTP/1.x and a status from 100 to 599. A minor version other than 0 allows pipelining. */
  function StatusLine(h: Head, line: string): (r: Option<Head>)
    ensures r.Some? ==> 100 <= r.value.status <= 599
  {
    if !("HTTP/1." <= line) || |line| == 7 || !IsDigit(line[7]) then None
    else
      var code := AfterSpace(line[7..]);
      if code.None? then None
      else
        var status := ValueOf(10, Decimals(code.value));
        if status < 100 || status > 599 then None
        else Some(h.(status := status, pipelined := h.pipelined || line[7] != '0'))
  }

  /** Exactly what is taken for a status line: a version 1 with a minor digit, a space, and a number
      from 100 to 599 behind the first one. */
  lemma StatusLineExact(h: Head, line: string, number: string)
    requires "HTTP/1." <= line && |line| > 7 && IsDigit(line[7]) && exists a :: ' ' !in a && line[7..] == a + " " + number
    ensures StatusLine(h, line).Some? <==> 100 <= ValueOf(10, Decimals(number)) <= 599
  {
    AfterSpaceExact(line[7..], number);
  }

  lemma NoStatusLine(h: Head, line: string)
    requires !("HTTP/1." <= line) || |line| == 7 || !IsDigit(line[7]) || ' ' !in line[7..]
    ensures StatusLine(h, line).None?
  {
    if "HTTP/1." <= line && |line| > 7 && ' ' !in line[7..] && AfterSpace(line[7..]).Some? {
      AfterSpaceExact(line[7..], AfterSpace(line[7..]).value);
    }
  }

  /** Any later line but the empty one. */
  function HeaderField(h: Head, line: string): (r: Option<Head>)
    ensures r.Some? ==> r.value.status == h.status
  {
    if IsField(line, "connection:") then
      Some(h.(pipelined := h.pipelined && !Mentions(line[11..], "close"),
              keepalive := h.keepalive || Mentions(line[11..], "keep-alive")))
    else if IsField(line, "content-length:") then
      var n := LengthField(line[15..]);
      if n.None? then None else Some(h.(length := n.value))
    else if IsField(line, "transfer-encoding:") then
      Some(h.(chunked := h.chunked || Mentions(line[18..], "chunked")))
    else Some(h)
  }

  function Power(n: nat): nat {
    if n == 0 then 1 else 10 * Power(n - 1)
  }

  lemma {:induction false} BelowPower(ds: seq<nat>)
    requires forall k :: 0 <= k < |ds| ==> ds[k] < 10
    ensures ValueOf(10, ds) < Power(|ds|)
  {
    if ds != [] {
      BelowPower(ds[..|ds| - 1]);
    }
  }

  lemma {:induction false} PowerGrows(m: nat, n: nat)
    requires m <= n
    ensures 0 < Power(m) <= Power(n)
    decreases n
  {
    if m < n {
      PowerGrows(m, n - 1);
    } else if 0 < m {
      PowerGrows(m - 1, m - 1);
    }
  }

  lemma NineDigits(ds: seq<nat>)
    requires |ds| <= 9 && forall k :: 0 <= k < |ds| ==> ds[k] < 10
    ensures ValueOf(10, ds) < 1_000_000_000
  {
    BelowPower(ds);
    PowerGrows(|ds|, 9);
    assert Power(3) == 1000 && Power(6) == 1000 * Power(3) && Power(9) == 1000 * Power(6);
  }

  /** The status code loop, which has no guard: up to nine digits fit an int. */
  method ParseStatus(s: string) returns (statuscode: nat)
    ensures statuscode == ValueOf(10, Decimals(s))
    ensures |Decimals(s)| <= 9 ==> statuscode <= 0x7FFF_FFFF
  {
    statuscode := 0;
    var i := 0;
    assert s[0..] == s;
    ContinuedIsValue(10, Decimals(s));
    while i < |s| && IsDigit(s[i])
      invariant i <= |s| && Continued(10, statuscode, Decimals(s[i..])) == ValueOf(10, Decimals(s))
    {
      assert Decimals(s[i..])[1..] == Decimals(s[i + 1..]);
      statuscode := statuscode * 10 + HexValue(s[i]);
      i := i + 1;
    }
    if |Decimals(s)| <= 9 {
      NineDigits(Decimals(s));
    }
  }

  /** What main does with the first line of a header. */
  method TakeStatusLine(h: Head, line: string) returns (r: Option<Head>)
    ensures r == StatusLine(h, line)
  {
    if !("HTTP/1." <= line) || |line| == 7 || !IsDigit(line[7]) {
      return None;
    }
    var pipelined := h.pipelined || line[7] != '0';
    var code := AfterSpace(line[7..]);
    if code.None? {
      return None;
    }
    var statuscode := ParseStatus(code.value);
    if statuscode < 100 || statuscode > 599 {
      return None;
    }
    return Some(h.(status := statuscode, pipelined := pipelined));
  }

  /** What main does with a later line. */
  method TakeField(h: Head, line: string) returns (r: Option<Head>)
    ensures r == HeaderField(h, line)
  {
    if IsField(line, "connection:") {
      return Some(h.(pipelined := h.pipelined && !Mentions(line[11..], "close"),
                     keepalive := h.keepalive || Mentions(line[11..], "keep-alive")));
    }
    if IsField(line, "content-length:") {
      var length, _ := ParseLength(line[15..]);
      return if length.None? then None else Some(h.(length := length.value));
    }
    if IsField(line, "transfer-encoding:") {
      return Some(h.(chunked := h.chunked || Mentions(line[18..], "chunked")));
    }
    return Some(h);
  }
}
