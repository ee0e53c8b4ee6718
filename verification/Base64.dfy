/** The base64 encoder of phttpget, against the encoding of RFC 4648, section 4. */
module Base64 {
  import opened Options

  /** A byte of a C string: never NUL. */
  type TextByte = b: int | 1 <= b < 256 witness 1
  type Byte = b: int | 0 <= b < 256

  const SIZE_MAX := 0xFFFF_FFFF_FFFF_FFFF
  const WORD := 0x1_0000_0000

  const UPPER: string := "ABCDEFGHIJKLMNOPQRSTUVWXYZ"
  const LOWER: string := "abcdefghijklmnopqrstuvwxyz"
  const DIGITS: string := "0123456789"

  /** The character of the static table UPPER LOWER DIGITS + / at v. */
  function Digit(v: int): char
    requires 0 <= v < 64
  {
    if v < 26 then UPPER[v] else if v < 52 then LOWER[v - 26] else if v < 62 then DIGITS[v - 52] else if v == 62 then '+' else '/'
  }

  /** Table 1 of RFC 4648. */
  lemma Alphabet(v: int)
    requires 0 <= v < 64
    ensures Digit(v) == ("ABCDEFGHIJKLMNOPQRSTUVWXYZ" + "abcdefghijklmnopqrstuvwxyz" + "0123456789" + "+/")[v]
  {
  }

  /** Plain char is signed on amd64. */
  function Signed(b: TextByte): int {
    if b < 128 then b else b - 256
  }

  // ---------- What the encoder writes ----------

  /** The accumulator after j rounds of the reading loop. */
  function Accumulated(block: seq<TextByte>, j: nat): (t: int)
    ensures 0 <= t < WORD
  {
    if j == 0 then 0
    else (Accumulated(block, j - 1) * 256 + (if j <= |block| then Signed(block[j - 1]) else 0)) % WORD
  }

  /** The j-th six bits of a 24-bit group. */
  function Sextet(t: int, j: nat): (v: int)
    requires j < 4
    ensures 0 <= v < 64
  {
    (if j == 0 then t / 0x4_0000 else if j == 1 then t / 0x1000 else if j == 2 then t / 0x40 else t) % 64
  }

  /** The four characters for a block of n bytes: padding from the (n + 2)-th character on. */
  function EncodeBlock(block: seq<TextByte>): (q: string)
    requires 1 <= |block| <= 3
    ensures |q| == 4
  {
    var t := Accumulated(block, 3);
    seq(4, j requires 0 <= j < 4 => if j <= |block| + 1 then Digit(Sextet(t, j)) else '=')
  }

  function Encode(text: seq<TextByte>): (s: string)
    ensures |s| == 4 * ((|text| + 2) / 3)
  {
    if text == [] then ""
    else if |text| <= 3 then EncodeBlock(text)
    else EncodeBlock(text[..3]) + Encode(text[3..])
  }

  // ---------- RFC 4648, section 4 ----------

  /** The 24-bit group of up to three bytes. */
  function Group(block: seq<Byte>): int
    requires 1 <= |block| <= 3
  {
    var a: int := block[0];
    var b: int := if |block| > 1 then block[1] else 0;
    var c: int := if |block| > 2 then block[2] else 0;
    a * 65536 + b * 256 + c
  }

  function RfcBlock(block: seq<Byte>): (q: string)
    requires 1 <= |block| <= 3
    ensures |q| == 4
  {
    seq(4, j requires 0 <= j < 4 => if j <= |block| then Digit(Sextet(Group(block), j)) else '=')
  }

  function RfcEncode(text: seq<Byte>): string {
    if text == [] then ""
    else if |text| <= 3 then RfcBlock(text)
    else RfcBlock(text[..3]) + RfcEncode(text[3..])
  }

  function Value(c: char): (v: int)
    ensures 0 <= v < 64
  {
    if 'A' <= c <= 'Z' then c as int - 'A' as int
    else if 'a' <= c <= 'z' then c as int - 'a' as int + 26
    else if '0' <= c <= '9' then c as int - '0' as int + 52
    else if c == '+' then 62
    else if c == '/' then 63
    else 0
  }

  /** The bytes of four characters, fewer when they end in padding. */
  function DecodeBlock(q: string): seq<Byte>
    requires |q| == 4
  {
    var t := Value(q[0]) * 0x4_0000 + Value(q[1]) * 0x1000 + Value(q[2]) * 0x40 + Value(q[3]);
    [t / 65536] + (if q[2] == '=' then [] else [t / 256 % 256]) + (if q[3] == '=' then [] else [t % 256])
  }

  function Decode(s: string): seq<Byte> {
    if |s| < 4 then [] else DecodeBlock(s[..4]) + Decode(s[4..])
  }

  function Bytes(text: seq<TextByte>): (b: seq<Byte>)
    ensures |b| == |text| && forall i :: 0 <= i < |text| ==> b[i] == text[i]
  {
    if text == [] then [] else [text[0]] + Bytes(text[1..])
  }

  // ---------- Blocks ----------

  lemma LettersConsecutive(k: int)
    requires 0 <= k < 26
    ensures UPPER[k] as int == 'A' as int + k && LOWER[k] as int == 'a' as int + k
  {
    assert k < 13 ==> UPPER[k] as int == 'A' as int + k;
    assert k < 13 ==> LOWER[k] as int == 'a' as int + k;
  }

  lemma DigitsConsecutive(k: int)
    requires 0 <= k < 10
    ensures DIGITS[k] as int == '0' as int + k
  {
    assert k < 5 ==> DIGITS[k] as int == '0' as int + k;
  }

  /** Value inverts the table, and padding is not in it. */
  lemma DigitValue(v: int)
    requires 0 <= v < 64
    ensures Value(Digit(v)) == v && Digit(v) != '='
  {
    if v < 26 {
      LettersConsecutive(v);
    } else if v < 52 {
      LettersConsecutive(v - 26);
    } else if v < 62 {
      DigitsConsecutive(v - 52);
    }
  }

  lemma Over65536(x: int, q: int, r: int)
    requires x == 65536 * q + r && 0 <= r < 65536
    ensures x / 65536 == q
  {
  }

  lemma Over256(x: int, q: int, r: int)
    requires x == 256 * q + r && 0 <= r < 256
    ensures x / 256 == q && x % 256 == r
  {
  }

  lemma Low24(x: int, q: int, r: int)
    requires x == 0x100_0000 * q + r && 0 <= r < 0x100_0000
    ensures x % 0x100_0000 == r
  {
  }

  /** Shifting by 12, 18 and 24 bits, six at a time. */
  lemma Shifts(t: int)
    ensures t / 0x1000 == t / 64 / 64
    ensures t / 0x4_0000 == t / 64 / 64 / 64
    ensures t / 0x100_0000 == t / 64 / 64 / 64 / 64
  {
    var a := t / 64;
    var b := a / 64;
    var c := b / 64;
    var d := c / 64;
    assert t == 0x1000 * b + (64 * (a % 64) + t % 64);
    assert t == 0x4_0000 * c + (0x1000 * (b % 64) + 64 * (a % 64) + t % 64);
    assert t == 0x100_0000 * d + (0x4_0000 * (c % 64) + 0x1000 * (b % 64) + 64 * (a % 64) + t % 64);
  }

  /** Four sextets make up the low 24 bits. */
  lemma Recombine(t: int)
    ensures Sextet(t, 0) * 0x4_0000 + Sextet(t, 1) * 0x1000 + Sextet(t, 2) * 0x40 + Sextet(t, 3) == t % 0x100_0000
  {
    Shifts(t);
    var a := t / 64;
    var b := a / 64;
    var c := b / 64;
    assert t == 0x100_0000 * (c / 64) + (0x4_0000 * (c % 64) + 0x1000 * (b % 64) + 64 * (a % 64) + t % 64);
  }

  /** One round of the reading loop on a wrapped value. */
  lemma WrapRound(x: int, b: int)
    ensures (x % WORD * 256 + b) % WORD == (x * 256 + b) % WORD
  {
    var k := x / WORD;
    assert x * 256 + b == (x % WORD * 256 + b) + WORD * (256 * k);
    WrapAdd(x % WORD * 256 + b, 256 * k);
  }

  lemma WrapAdd(y: int, k: int)
    ensures (y + WORD * k) % WORD == y % WORD
  {
    assert y + WORD * k == WORD * (y / WORD + k) + y % WORD;
  }

  function SignedAt(block: seq<TextByte>, k: nat): int {
    if k < |block| then Signed(block[k]) else 0
  }

  function SignedGroup(block: seq<TextByte>): int {
    SignedAt(block, 0) * 65536 + SignedAt(block, 1) * 256 + SignedAt(block, 2)
  }

  /** The accumulator is the group of the signed characters, modulo the word. */
  lemma AccumulatedIs(block: seq<TextByte>)
    requires 1 <= |block| <= 3
    ensures Accumulated(block, 3) == SignedGroup(block) % WORD
  {
    var a, b, c := SignedAt(block, 0), SignedAt(block, 1), SignedAt(block, 2);
    assert Accumulated(block, 1) == a % WORD;
    assert Accumulated(block, 2) == (Accumulated(block, 1) * 256 + b) % WORD;
    WrapRound(a, b);
    assert Accumulated(block, 3) == (Accumulated(block, 2) * 256 + c) % WORD;
    WrapRound(a * 256 + b, c);
  }

  /** Characters decode to the low 24 bits they were cut from, as far as there is no padding. */
  lemma DecodeDigits(t: int, q: string)
    requires |q| == 4 && q[0] == Digit(Sextet(t, 0)) && q[1] == Digit(Sextet(t, 1))
    requires q[2] == Digit(Sextet(t, 2)) || (q[2] == '=' && q[3] == '=')
    requires q[3] == Digit(Sextet(t, 3)) || q[3] == '='
    ensures var low := t % 0x100_0000;
      DecodeBlock(q) == [low / 65536] + (if q[2] == '=' then [] else [low / 256 % 256]) + (if q[3] == '=' then [] else [low % 256])
  {
    hide Digit, Sextet;
    DigitValue(Sextet(t, 0));
    DigitValue(Sextet(t, 1));
    DigitValue(Sextet(t, 2));
    DigitValue(Sextet(t, 3));
    assert Value('=') == 0;
    hide Value;
    Recombine(t);
    Truncate(Sextet(t, 0), Sextet(t, 1), Sextet(t, 2), Sextet(t, 3));
  }

  /** Dropping the last sextets does not change the leading bytes. */
  lemma Truncate(a: int, b: int, c: int, d: int)
    requires 0 <= a < 64 && 0 <= b < 64 && 0 <= c < 64 && 0 <= d < 64
    ensures var t := a * 0x4_0000 + b * 0x1000;
      && t / 65536 == (t + c * 0x40 + d) / 65536 == (t + c * 0x40) / 65536 < 256
      && (t + c * 0x40) / 256 == (t + c * 0x40 + d) / 256
  {
    var t := a * 0x4_0000 + b * 0x1000;
    var q, r := 4 * a + b / 16, 4096 * (b % 16);
    Over65536(t, q, r);
    Over65536(t + c * 0x40 + d, q, r + c * 0x40 + d);
    Over65536(t + c * 0x40, q, r + c * 0x40);
    var q', r' := 1024 * a + 16 * b + c / 4, 64 * (c % 4);
    Over256(t + c * 0x40, q', r');
    Over256(t + c * 0x40 + d, q', r' + d);
  }

  /** Decoding the four characters of a block gives the low 24 bits, less one byte for a single-byte block. */
  lemma BlockDecodes(block: seq<TextByte>)
    requires 1 <= |block| <= 3
    ensures var t := SignedGroup(block) % 0x100_0000;
      DecodeBlock(EncodeBlock(block)) == [t / 65536, t / 256 % 256] + (if |block| == 1 then [] else [t % 256])
  {
    hide Digit, Sextet, DecodeBlock;
    var t := Accumulated(block, 3);
    AccumulatedIs(block);
    LowBits(SignedGroup(block));
    DigitValue(Sextet(t, 2));
    DigitValue(Sextet(t, 3));
    DecodeDigits(t, EncodeBlock(block));
  }

  lemma LowBits(x: int)
    ensures x % WORD % 0x100_0000 == x % 0x100_0000
  {
    var w := x % WORD;
    var m := w / 0x100_0000;
    Low24(x, 256 * (x / WORD) + m, w % 0x100_0000);
  }

  /** Decoding the RFC's characters for a block gives the block. */
  lemma RfcBlockDecodes(block: seq<Byte>)
    requires 1 <= |block| <= 3
    ensures DecodeBlock(RfcBlock(block)) == block
  {
    hide Digit, Sextet, DecodeBlock;
    var t := Group(block);
    ThreeBytes(block[0], if |block| > 1 then block[1] else 0, if |block| > 2 then block[2] else 0);
    Low24(t, 0, t);
    DigitValue(Sextet(t, 2));
    DigitValue(Sextet(t, 3));
    DecodeDigits(t, RfcBlock(block));
  }

  // ---------- Where the encoder meets the RFC ----------

  /** No byte that sign extension carries into the byte before it. */
  ghost predicate Carryless(text: seq<TextByte>) {
    forall i :: 0 <= i < |text| && i % 3 != 0 ==> text[i] < 128
  }

  function Padded(text: seq<TextByte>): seq<Byte> {
    Bytes(text) + (if |text| % 3 == 0 then [] else [0])
  }

  lemma ThreeBytes(a: int, b: int, c: int)
    requires 0 <= a < 256 && 0 <= b < 256 && 0 <= c < 256
    ensures var t := a * 65536 + b * 256 + c; 0 <= t < 0x100_0000 && t / 65536 == a && t / 256 % 256 == b && t % 256 == c
  {
    var t := a * 65536 + b * 256 + c;
    Over65536(t, a, b * 256 + c);
    Over256(t, a * 256 + b, c);
    Over256(a * 256 + b, a, b);
  }

  /** x in -256..255 as a byte and a borrow. */
  function Borrow(x: int): int {
    if x < 0 then 1 else 0
  }

  /** The three bytes of a group of signed characters: each negative one borrows from the byte before it. */
  lemma GroupBytes(a: int, b: int, c: int)
    requires -128 <= a < 128 && -128 <= b < 128 && -128 <= c < 128
    ensures var t := (a * 65536 + b * 256 + c) % 0x100_0000;
      var b' := b - Borrow(c); var a' := a - Borrow(b');
      t / 65536 == a' + 256 * Borrow(a') && t / 256 % 256 == b' + 256 * Borrow(b') && t % 256 == c + 256 * Borrow(c)
  {
    var b' := b - Borrow(c);
    var a' := a - Borrow(b');
    var (a0, b0, c0) := (a' + 256 * Borrow(a'), b' + 256 * Borrow(b'), c + 256 * Borrow(c));
    var t := a0 * 65536 + b0 * 256 + c0;
    ThreeBytes(a0, b0, c0);
    Low24(a * 65536 + b * 256 + c, -Borrow(a'), t);
  }

  /** A block survives encoding exactly when no byte behind its first is above 127. */
  lemma BlockExact(block: seq<TextByte>)
    requires 1 <= |block| <= 3
    ensures DecodeBlock(EncodeBlock(block)) == Padded(block) <==> Carryless(block)
    ensures |DecodeBlock(EncodeBlock(block))| == |Padded(block)|
  {
    hide DecodeBlock, EncodeBlock;
    BlockDecodes(block);
    GroupBytes(SignedAt(block, 0), SignedAt(block, 1), SignedAt(block, 2));
    var d, p := DecodeBlock(EncodeBlock(block)), Padded(block);
    assert Carryless(block) <==> (|block| > 1 ==> block[1] < 128) && (|block| > 2 ==> block[2] < 128);
    assert p[0] == block[0] && p[1] == (if |block| > 1 then block[1] else 0);
    assert |block| > 1 ==> p[2] == if |block| > 2 then block[2] else 0;
    assert d == p <==> d[0] == p[0] && d[1] == p[1] && (|block| > 1 ==> d[2] == p[2]);
  }

  lemma PaddedSplits(text: seq<TextByte>)
    requires |text| > 3
    ensures Padded(text) == Padded(text[..3]) + Padded(text[3..])
  {
    hide Bytes;
    assert Bytes(text) == Bytes(text[..3]) + Bytes(text[3..]);
    assert |text| % 3 == |text[3..]| % 3;
  }

  lemma CarrylessSplits(text: seq<TextByte>)
    requires |text| > 3
    ensures Carryless(text) <==> Carryless(text[..3]) && Carryless(text[3..])
  {
    if Carryless(text[..3]) && Carryless(text[3..]) {
      forall i | 0 <= i < |text| && i % 3 != 0
        ensures text[i] < 128
      {
        assert i < 3 ==> text[..3][i] == text[i];
        assert i >= 3 ==> text[3..][i - 3] == text[i] && (i - 3) % 3 != 0;
      }
    }
    if Carryless(text) {
      forall i | 0 <= i < |text| - 3 && i % 3 != 0
        ensures text[3..][i] < 128
      {
        assert (i + 3) % 3 != 0 && text[3..][i] == text[i + 3];
      }
    }
  }

  /** Decoding gives the text back, followed by a zero byte unless 3 divides its length,
      exactly when no byte is carried into its neighbour. */
  lemma {:induction false} DecodesToText(text: seq<TextByte>)
    ensures Decode(Encode(text)) == Padded(text) <==> Carryless(text)
    ensures |Decode(Encode(text))| == |Padded(text)|
    decreases |text|
  {
    hide EncodeBlock, DecodeBlock;
    if text == [] {
    } else if |text| <= 3 {
      BlockExact(text);
      assert EncodeBlock(text)[..4] == EncodeBlock(text) && EncodeBlock(text)[4..] == "";
      assert DecodeBlock(EncodeBlock(text)) + [] == DecodeBlock(EncodeBlock(text));
    } else {
      var q, rest := EncodeBlock(text[..3]), Encode(text[3..]);
      BlockExact(text[..3]);
      DecodesToText(text[3..]);
      CarrylessSplits(text);
      PaddedSplits(text);
      assert (q + rest)[..4] == q && (q + rest)[4..] == rest;
      SameHalves(DecodeBlock(q), Decode(rest), Padded(text[..3]), Padded(text[3..]));
    }
  }

  lemma SameHalves<T>(a: seq<T>, b: seq<T>, c: seq<T>, d: seq<T>)
    requires |a| == |c|
    ensures a + b == c + d <==> a == c && b == d
  {
    if a + b == c + d {
      assert a == (a + b)[..|a|] && c == (c + d)[..|a|];
      assert b == (a + b)[|a|..] && d == (c + d)[|a|..];
    }
  }

  /** Blocks are told apart by their characters, also where bytes are carried. */
  lemma BlockInjective(x: seq<TextByte>, y: seq<TextByte>)
    requires 1 <= |x| <= 3 && 1 <= |y| <= 3 && EncodeBlock(x) == EncodeBlock(y)
    ensures x == y
  {
    hide EncodeBlock, DecodeBlock, SignedGroup, SignedAt;
    BlockDecodes(x);
    BlockDecodes(y);
    var d, t, u := DecodeBlock(EncodeBlock(x)), SignedGroup(x) % 0x100_0000, SignedGroup(y) % 0x100_0000;
    assert d[0] == t / 65536 == u / 65536 && d[1] == t / 256 % 256 == u / 256 % 256;
    assert |d| == 3 ==> d[2] == t % 256 == u % 256;
    SameGroup(x, y);
    SameSigned(x, y);
  }

  lemma SameGroup(x: seq<TextByte>, y: seq<TextByte>)
    requires 1 <= |x| <= 3 && 1 <= |y| <= 3
    requires var t, u := SignedGroup(x) % 0x100_0000, SignedGroup(y) % 0x100_0000;
      t / 65536 == u / 65536 && t / 256 % 256 == u / 256 % 256 && (t % 256 == u % 256 || |x| == |y| == 1)
    ensures SignedAt(x, 0) == SignedAt(y, 0) && SignedAt(x, 1) == SignedAt(y, 1) && SignedAt(x, 2) == SignedAt(y, 2)
  {
    hide Borrow;
    var a, b, c := SignedAt(x, 0), SignedAt(x, 1), SignedAt(x, 2);
    var a', b', c' := SignedAt(y, 0), SignedAt(y, 1), SignedAt(y, 2);
    GroupBytes(a, b, c);
    GroupBytes(a', b', c');
    SameByte(c, c');
    SameByte(b - Borrow(c), b' - Borrow(c'));
    SameByte(a - Borrow(b - Borrow(c)), a' - Borrow(b' - Borrow(c')));
  }

  lemma SameByte(x: int, y: int)
    requires -256 <= x < 256 && -256 <= y < 256 && x - y < 256 && y - x < 256 && x + 256 * Borrow(x) == y + 256 * Borrow(y)
    ensures x == y
  {
  }

  lemma SameSigned(x: seq<TextByte>, y: seq<TextByte>)
    requires 1 <= |x| <= 3 && 1 <= |y| <= 3
    requires SignedAt(x, 0) == SignedAt(y, 0) && SignedAt(x, 1) == SignedAt(y, 1) && SignedAt(x, 2) == SignedAt(y, 2)
    ensures x == y
  {
    assert SignedAt(x, 1) == 0 <==> |x| == 1;
    assert SignedAt(y, 1) == 0 <==> |y| == 1;
    assert SignedAt(x, 2) == 0 <==> |x| < 3;
    assert SignedAt(y, 2) == 0 <==> |y| < 3;
    assert x[0] == y[0] && (|x| > 1 ==> x[1] == y[1]) && (|x| > 2 ==> x[2] == y[2]);
  }

  /** Texts are told apart by their encodings. */
  lemma {:induction false} Injective(x: seq<TextByte>, y: seq<TextByte>)
    requires Encode(x) == Encode(y)
    ensures x == y
    decreases |x|
  {
    hide EncodeBlock;
    if x != [] && y != [] {
      var (n, m) := (if |x| < 3 then |x| else 3, if |y| < 3 then |y| else 3);
      EncodeSplits(x, x[..n], x[n..]);
      EncodeSplits(y, y[..m], y[m..]);
      assert Encode(x)[..4] == EncodeBlock(x[..n]) && Encode(x)[4..] == Encode(x[n..]);
      assert Encode(y)[..4] == EncodeBlock(y[..m]) && Encode(y)[4..] == Encode(y[m..]);
      BlockInjective(x[..n], y[..m]);
      Injective(x[n..], y[m..]);
      assert x == x[..n] + x[n..] && y == y[..m] + y[m..];
    }
  }

  /** The RFC's own round trip. */
  lemma {:induction false} RfcRoundTrip(text: seq<Byte>)
    ensures Decode(RfcEncode(text)) == text
    decreases |text|
  {
    hide RfcBlock, DecodeBlock;
    if text == [] {
    } else if |text| <= 3 {
      RfcBlockDecodes(text);
      assert RfcBlock(text)[..4] == RfcBlock(text) && RfcBlock(text)[4..] == "";
    } else {
      var q, rest := RfcBlock(text[..3]), RfcEncode(text[3..]);
      RfcBlockDecodes(text[..3]);
      RfcRoundTrip(text[3..]);
      assert (q + rest)[..4] == q && (q + rest)[4..] == rest;
    }
  }

  /** Full blocks without carries are encoded as the RFC says. */
  lemma {:induction false} FullBlocksAgree(text: seq<TextByte>)
    requires |text| % 3 == 0 && Carryless(text)
    ensures Encode(text) == RfcEncode(Bytes(text))
    decreases |text|
  {
    hide EncodeBlock, RfcBlock;
    if text != [] {
      var block, rest := text[..3], text[3..];
      assert |block| == 3 && (|text| > 3 ==> Carryless(block) && Carryless(rest)) by {
        if |text| > 3 {
          CarrylessSplits(text);
        }
      }
      assert |text| == 3 ==> block == text;
      BlockAgrees(block);
      if |text| > 3 {
        FullBlocksAgree(rest);
        assert Bytes(text)[..3] == Bytes(block) && Bytes(text)[3..] == Bytes(rest);
      }
    }
  }

  lemma BlockAgrees(block: seq<TextByte>)
    requires |block| == 3 && Carryless(block)
    ensures EncodeBlock(block) == RfcBlock(Bytes(block))
  {
    hide Digit, Sextet;
    var a: int, b: int, c: int := block[0], block[1], block[2];
    AccumulatedIs(block);
    var (t, g) := (Accumulated(block, 3), Group(Bytes(block)));
    assert Bytes(block)[0] == a && Bytes(block)[1] == b && Bytes(block)[2] == c;
    assert t == (Signed(block[0]) * 65536 + b * 256 + c) % WORD && g == a * 65536 + b * 256 + c;
    SextetsOf(t, g);
  }

  /** Sextets look at the low 24 bits only. */
  lemma SextetsOf(t: int, g: int)
    requires t % 0x100_0000 == g % 0x100_0000
    ensures forall j: nat :: j < 4 ==> Sextet(t, j) == Sextet(g, j)
  {
    hide Sextet;
    Recombine(t);
    Recombine(g);
    SextetsUnique(Sextet(t, 0), Sextet(t, 1), Sextet(t, 2), Sextet(t, 3), Sextet(g, 0), Sextet(g, 1), Sextet(g, 2), Sextet(g, 3));
    forall j: nat | j < 4
      ensures Sextet(t, j) == Sextet(g, j)
    {
      assert j == 0 || j == 1 || j == 2 || j == 3;
    }
  }

  lemma SextetsUnique(a: int, b: int, c: int, d: int, a': int, b': int, c': int, d': int)
    requires 0 <= a < 64 && 0 <= b < 64 && 0 <= c < 64 && 0 <= d < 64
    requires 0 <= a' < 64 && 0 <= b' < 64 && 0 <= c' < 64 && 0 <= d' < 64
    requires a * 0x4_0000 + b * 0x1000 + c * 0x40 + d == a' * 0x4_0000 + b' * 0x1000 + c' * 0x40 + d'
    ensures a == a' && b == b' && c == c' && d == d'
  {
  }

  /** The encoder agrees with the RFC exactly on whole blocks without carries. */
  lemma AgreesWithRfc(text: seq<TextByte>)
    ensures Encode(text) == RfcEncode(Bytes(text)) <==> |text| % 3 == 0 && Carryless(text)
  {
    hide Encode, RfcEncode, Decode;
    RfcRoundTrip(Bytes(text));
    DecodesToText(text);
    if |text| % 3 == 0 && Carryless(text) {
      FullBlocksAgree(text);
    }
    assert |text| % 3 == 0 ==> Padded(text) == Bytes(text);
    assert |Padded(text)| == if |text| % 3 == 0 then |text| else |text| + 1;
  }

  /** A single byte already differs: the RFC pads its third character, the encoder does not. */
  lemma OneByteDiffers()
    ensures Encode([65]) == "QQA=" && RfcEncode(Bytes([65])) == "QQ=="
  {
    OneByte();
    assert Bytes([65]) == [65];
    assert EncodeBlock([65]) == ['Q', 'Q', 'A', '='];
    assert RfcBlock([65]) == ['Q', 'Q', '=', '='];
  }

  lemma OneByte()
    ensures Accumulated([65], 3) == 65 * 65536 == Group([65])
    ensures Digit(Sextet(65 * 65536, 0)) == Digit(Sextet(65 * 65536, 1)) == 'Q' && Digit(Sextet(65 * 65536, 2)) == 'A'
  {
    hide Digit, Sextet;
    assert Accumulated([65], 1) == 65 && Accumulated([65], 2) == 65 * 256;
    SextetsOf65();
  }

  lemma SextetsOf65()
    ensures Digit(Sextet(65 * 65536, 0)) == Digit(Sextet(65 * 65536, 1)) == 'Q' && Digit(Sextet(65 * 65536, 2)) == 'A'
  {
    assert Sextet(65 * 65536, 0) == 16 && Sextet(65 * 65536, 1) == 16 && Sextet(65 * 65536, 2) == 0;
  }

  // ---------- The encoder ----------

  /** Reading up to three bytes into the accumulator. */
  method ReadBlock(ptext: seq<TextByte>, pt: nat, ptlen: nat) returns (t: int, pt': nat)
    requires pt + ptlen == |ptext| && ptlen > 0
    ensures var n := if ptlen < 3 then ptlen else 3; pt' == pt + n && t == Accumulated(ptext[pt..pt + n], 3)
  {
    ghost var block := ptext[pt..pt + if ptlen < 3 then ptlen else 3];
    t, pt' := 0, pt;
    for j := 0 to 3
      invariant t == Accumulated(block, j) && pt' == pt + if j < |block| then j else |block|
    {
      t := t * 256 % WORD;
      if j < ptlen {
        t := (t + Signed(ptext[pt'])) % WORD;
        pt' := pt' + 1;
      }
      WrapRound(Accumulated(block, j), if j < |block| then Signed(block[j]) else 0);
      WrapSum(Accumulated(block, j) * 256, if j < |block| then Signed(block[j]) else 0);
    }
  }

  lemma WrapSum(x: int, b: int)
    ensures (x % WORD + b) % WORD == (x + b) % WORD
  {
    assert x + b == (x % WORD + b) + WORD * (x / WORD);
    WrapAdd(x % WORD + b, x / WORD);
  }

  /** The accumulator after j shifts by six bits. */
  function Shifted(t: int, j: nat): int {
    if j == 0 then t else Shifted(t, j - 1) * 64 % WORD
  }

  lemma WrapShift(x: int)
    ensures x % WORD * 64 % WORD == x * 64 % WORD
  {
    assert x * 64 == x % WORD * 64 + WORD * (64 * (x / WORD));
    WrapAdd(x % WORD * 64, 64 * (x / WORD));
  }

  lemma Over18Bits(x: int, q: int, r: int)
    requires x == 0x4_0000 * q + r && 0 <= r < 0x4_0000
    ensures x / 0x4_0000 == q
  {
  }

  lemma LowSextet(x: int, q: int, r: int)
    requires x == 64 * q + r && 0 <= r < 64
    ensures x % 64 == r
  {
  }

  lemma WrapTop(x: int)
    ensures x % WORD / 0x4_0000 % 64 == x / 0x4_0000 % 64
  {
    var r, k := x % WORD, x / WORD;
    var m := r / 0x4_0000;
    Over18Bits(x, 0x4000 * k + m, r % 0x4_0000);
    LowSextet(0x4000 * k + m, 256 * k + m / 64, m % 64);
  }

  /** Bits 18 to 23 hold the j-th sextet after j shifts. */
  lemma ShiftedSextet(t: int, j: nat)
    requires j < 4
    ensures Shifted(t, j) / 0x4_0000 % 64 == Sextet(t, j)
  {
    assert Shifted(t, 1) == t * 64 % WORD;
    assert Shifted(t, 2) == Shifted(t, 1) * 64 % WORD;
    assert Shifted(t, 3) == Shifted(t, 2) * 64 % WORD;
    WrapShift(t * 64);
    WrapShift(t * 4096);
    WrapTop(t * 64);
    WrapTop(t * 4096);
    WrapTop(t * 0x4_0000);
    assert t * 64 / 0x4_0000 == t / 0x1000 && t * 4096 / 0x4_0000 == t / 0x40 && t * 0x4_0000 / 0x4_0000 == t;
  }

  /** Writing four characters. */
  method WriteBlock(ctext: array<char>, pc: nat, t: int, ptlen: nat, ghost block: seq<TextByte>)
    requires pc + 4 <= ctext.Length && 1 <= |block| <= 3 && t == Accumulated(block, 3)
    requires |block| == if ptlen < 3 then ptlen else 3
    modifies ctext
    ensures ctext[pc..pc + 4] == EncodeBlock(block)
    ensures ctext[..pc] == old(ctext[..pc])
    ensures forall k :: pc + 4 <= k < ctext.Length ==> ctext[k] == old(ctext[k])
  {
    hide Digit;
    var t' := t;
    for j := 0 to 4
      invariant t' == Shifted(t, j)
      invariant forall k :: 0 <= k < j ==> ctext[pc + k] == EncodeBlock(block)[k]
      invariant ctext[..pc] == old(ctext[..pc])
      invariant forall k :: pc + 4 <= k < ctext.Length ==> ctext[k] == old(ctext[k])
    {
      ShiftedSextet(t, j);
      if j <= ptlen + 1 {
        ctext[pc + j] := Digit(t' / 0x4_0000 % 64);
      } else {
        ctext[pc + j] := '=';
      }
      t' := t' * 64 % WORD;
    }
  }

  /** b64enc. malloc stands for whether the allocation succeeds. */
  method B64Enc(ptext: seq<TextByte>, malloc: bool) returns (ctext: Option<array<char>>)
    ensures ctext.Some? <==> |ptext| <= (SIZE_MAX - 1) / 4 * 3 - 2 && malloc
    ensures ctext.Some? ==> fresh(ctext.value) && ctext.value.Length == 4 * ((|ptext| + 2) / 3) + 1 <= SIZE_MAX
    ensures ctext.Some? ==> ctext.value[..] == Encode(ptext) + ['\0']
  {
    hide EncodeBlock, Encode;
    var ptlen := |ptext|;
    if ptlen > (SIZE_MAX - 1) / 4 * 3 - 2 {
      return None;
    }
    var ctlen := 4 * ((ptlen + 2) / 3) + 1;
    if !malloc {
      return None;
    }
    var c := new char[ctlen];
    c[ctlen - 1] := '\0';
    var pt, pc := 0, 0;
    ghost var written: string := "";
    assert ptext[0..] == ptext;
    while ptlen > 0
      invariant 0 <= ptlen && pt + ptlen == |ptext| && pc + |Encode(ptext[pt..])| == ctlen - 1
      invariant c[..pc] == written && written + Encode(ptext[pt..]) == Encode(ptext)
      invariant c[ctlen - 1] == '\0'
    {
      var t, pt' := ReadBlock(ptext, pt, ptlen);
      ghost var block := ptext[pt..pt'];
      assert ptext[pt..] == block + ptext[pt'..];
      EncodeSplits(ptext[pt..], block, ptext[pt'..]);
      WriteBlock(c, pc, t, ptlen, block);
      assert c[..pc + 4] == written + EncodeBlock(block);
      Regroup(written, EncodeBlock(block), Encode(ptext[pt'..]));
      written := written + EncodeBlock(block);
      pt := pt';
      if ptlen <= 3 {
        pc := pc + 4;
        break;
      }
      ptlen, pc := ptlen - 3, pc + 4;
    }
    assert pt == |ptext| && ptext[pt..] == [];
    assert Encode([]) == "" && written + "" == written;
    assert c[..] == c[..ctlen - 1] + [c[ctlen - 1]];
    ctext := Some(c);
  }

  lemma Regroup(a: string, b: string, c: string)
    ensures a + (b + c) == a + b + c
  {
  }

  lemma EncodeSplits(text: seq<TextByte>, block: seq<TextByte>, rest: seq<TextByte>)
    requires text == block + rest && 1 <= |block| <= 3 && (|block| < 3 ==> rest == [])
    ensures Encode(text) == EncodeBlock(block) + Encode(rest)
  {
    if rest == [] {
      assert text == block;
    } else {
      assert text[..3] == block && text[3..] == rest;
    }
  }
}
