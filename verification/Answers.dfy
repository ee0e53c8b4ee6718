/** Responses by the grammar of HTTP/1.x: what servers write, and what phttpget takes from their headers. */
module Answers {
  import opened Options
  import opened Receive
  import opened Headers
  import opened Response
  import opened Wire
  import opened InterimHeaders

  // ---------- Printed numbers ----------

  predicate IsBase(base: nat) {
    base == 10 || base == 16
  }

  function DigitChar(v: nat): (c: char)
    requires v < 16
    ensures IsHexDigit(c) && HexValue(c) == v && (v < 10 ==> IsDigit(c))
  {
    if v < 10 then ('0' as int + v) as char else ('a' as int + v - 10) as char
  }

  function Printed(base: nat, n: nat): string
    requires IsBase(base)
  {
    if n < base then [DigitChar(n)] else Printed(base, n / base) + [DigitChar(n % base)]
  }

  /** The digits printed. */
  ghost function PrintedDigits(base: nat, n: nat): (ds: seq<nat>)
    requires IsBase(base)
    ensures ds != [] && forall k :: 0 <= k < |ds| ==> ds[k] < base
  {
    if n < base then [n] else PrintedDigits(base, n / base) + [n % base]
  }

  lemma {:induction false} PrintedIs(base: nat, n: nat)
    requires IsBase(base)
    ensures var s, ds := Printed(base, n), PrintedDigits(base, n);
      |s| == |ds| && forall k :: 0 <= k < |s| ==> s[k] == DigitChar(ds[k])
  {
    if n >= base {
      PrintedIs(base, n / base);
    }
  }

  lemma {:induction false} PrintedValue(base: nat, n: nat)
    requires IsBase(base)
    ensures var ds := PrintedDigits(base, n);
      ValueOf(base, ds) == n && ValueOf(base, ds[..|ds| - 1]) == n / base
  {
    var ds := PrintedDigits(base, n);
    if n >= base {
      PrintedValue(base, n / base);
      assert ds[..|ds| - 1] == PrintedDigits(base, n / base);
    } else {
      assert ds[..|ds| - 1] == [];
    }
  }

  /** A printed number is accepted, and read as itself, exactly below the guard. */
  lemma PrintedGuarded(base: nat, n: nat)
    requires IsBase(base)
    ensures Guarded(base, 0, PrintedDigits(base, n)) == if n / base < OFF_MAX / base then Some(n) else None
  {
    PrintedValue(base, n);
    GuardedExact(base, PrintedDigits(base, n));
  }

  lemma {:induction false} DecimalsThen(s: string, tail: string)
    requires (forall k :: 0 <= k < |s| ==> IsDigit(s[k])) && (tail == "" || !IsDigit(tail[0]))
    ensures |Decimals(s + tail)| == |s| && forall k :: 0 <= k < |s| ==> Decimals(s + tail)[k] == HexValue(s[k])
    decreases |s|
  {
    if s == "" {
      assert s + tail == tail;
    } else {
      assert (s + tail)[1..] == s[1..] + tail;
      DecimalsThen(s[1..], tail);
    }
  }

  lemma {:induction false} HexDigitsAll(s: string)
    requires forall k :: 0 <= k < |s| ==> IsHexDigit(s[k])
    ensures |HexDigits(s)| == |s| && forall k :: 0 <= k < |s| ==> HexDigits(s)[k] == HexValue(s[k])
    decreases |s|
  {
    if s != "" {
      HexDigitsAll(s[1..]);
    }
  }

  lemma DecimalsPrinted(n: nat, tail: string)
    requires tail == "" || !IsDigit(tail[0])
    ensures Decimals(Printed(10, n) + tail) == PrintedDigits(10, n)
  {
    PrintedIs(10, n);
    DecimalsThen(Printed(10, n), tail);
  }

  predicate Blank(s: string) {
    forall k :: 0 <= k < |s| ==> s[k] == ' ' || s[k] == '\t'
  }

  lemma {:induction false} BlanksSkipped(pad: string, s: string)
    requires Blank(pad) && s != "" && IsDigit(s[0])
    ensures SkipToDigit(pad + s) == s
    decreases |pad|
  {
    if pad == "" {
      assert pad + s == s;
    } else {
      assert (pad + s)[1..] == pad[1..] + s;
      BlanksSkipped(pad[1..], s);
    }
  }

  /** A printed length is read as itself, exactly below the guard. */
  lemma LengthPrinted(pad: string, n: nat, tail: string)
    requires Blank(pad) && Blank(tail)
    ensures LengthField(pad + (Printed(10, n) + tail)) == if n / 10 < OFF_MAX / 10 then Some(n) else None
  {
    PrintedIs(10, n);
    BlanksSkipped(pad, Printed(10, n) + tail);
    DecimalsPrinted(n, tail);
    PrintedGuarded(10, n);
  }

  /** So is a printed chunk size. */
  lemma SizePrinted(n: nat)
    ensures ChunkSize(Printed(16, n)) == if n / 16 < OFF_MAX / 16 then Some(n) else None
  {
    PrintedIs(16, n);
    HexDigitsAll(Printed(16, n));
    assert HexDigits(Printed(16, n)) == PrintedDigits(16, n);
    PrintedGuarded(16, n);
  }

  lemma LowerHex(c: char)
    requires IsHexDigit(LowerChar(c)) && !('A' <= LowerChar(c) <= 'F')
    ensures IsHexDigit(c) && HexValue(c) == HexValue(LowerChar(c))
  {
  }

  /** In whatever case its letters are written. */
  lemma SizeSpelled(s: string, n: nat)
    requires Lower(s) == Printed(16, n)
    ensures ChunkSize(s) == if n / 16 < OFF_MAX / 16 then Some(n) else None
  {
    hide Lower, LowerChar;
    PrintedIs(16, n);
    LowerExact(s);
    SameLength(s);
    forall k | 0 <= k < |s|
      ensures IsHexDigit(s[k]) && HexValue(s[k]) == PrintedDigits(16, n)[k]
    {
      assert LowerChar(s[k]) == Printed(16, n)[k] == DigitChar(PrintedDigits(16, n)[k]);
      LowerHex(s[k]);
    }
    HexDigitsAll(s);
    assert HexDigits(s) == PrintedDigits(16, n);
    PrintedGuarded(16, n);
  }

  lemma {:induction false} PrintedShort(base: nat, n: nat, k: nat)
    requires IsBase(base) && n < Power(k) && k > 0
    ensures |Printed(base, n)| <= k
    decreases k
  {
    if n >= base {
      assert n / base <= n / 10;
      assert k > 1;
      PrintedShort(base, n / base, k - 1);
    }
  }

  lemma SizeLineOk(n: nat)
    requires n <= OFF_MAX
    ensures LineOk(Printed(16, n)) && Printed(16, n) != ""
  {
    assert Power(3) == 1000 && Power(6) == 1000 * Power(3) && Power(9) == 1000 * Power(6) && Power(12) == 1000 * Power(9);
    assert Power(15) == 1000 * Power(12) && Power(18) == 1000 * Power(15) && Power(19) == 10 * Power(18);
    PrintedShort(16, n, 19);
    PrintedIs(16, n);
  }

  // ---------- Field names ----------

  function LowerChar(c: char): char {
    if 'A' <= c <= 'Z' then (c as int + 32) as char else c
  }

  lemma {:induction false} LowerIs(s: string, low: string)
    requires |s| == |low|
    requires forall k :: 0 <= k < |s| ==> LowerChar(s[k]) == low[k]
    ensures Lower(s) == low
  {
    if s != "" {
      LowerIs(s[1..], low[1..]);
    }
  }

  lemma {:induction false} LowerExact(s: string)
    ensures forall k :: 0 <= k < |s| ==> Lower(s)[k] == LowerChar(s[k])
    decreases |s|
  {
    if s != "" {
      LowerExact(s[1..]);
    }
  }

  /** The word, given in lower case, stands at i in s, in any spelling. */
  predicate WordAt(s: string, word: string, i: int) {
    0 <= i <= |s| - |word| && Lower(s[i..i + |word|]) == word
  }

  ghost predicate Contains(s: string, word: string) {
    exists i :: WordAt(s, word, i)
  }

  lemma {:induction false} MentionsExact(s: string, word: string)
    ensures Mentions(s, word) <==> Contains(s, word)
    decreases |s|
  {
    hide Lower, WordAt;
    WordFirst(s, word);
    if s == "" {
      if Contains(s, word) {
        var i :| WordAt(s, word, i);
        WordInside(s, word, i);
      }
    } else {
      MentionsExact(s[1..], word);
      if Contains(s[1..], word) {
        var i :| WordAt(s[1..], word, i);
        WordInside(s[1..], word, i);
        WordLater(s, word, i + 1);
      }
      if Contains(s, word) {
        var i :| WordAt(s, word, i);
        WordInside(s, word, i);
        if i > 0 {
          WordLater(s, word, i);
        }
      }
    }
  }

  lemma WordInside(s: string, word: string, i: int)
    ensures WordAt(s, word, i) ==> 0 <= i <= |s|
  {
  }

  lemma WordFirst(s: string, word: string)
    ensures WordAt(s, word, 0) <==> word <= Lower(s)
  {
    if |word| <= |s| {
      LowerTake(s, |word|);
    }
  }

  lemma WordLater(s: string, word: string, i: int)
    requires s != "" && i > 0
    ensures WordAt(s, word, i) <==> WordAt(s[1..], word, i - 1)
  {
    if i <= |s| - |word| {
      assert s[1..][i - 1..i - 1 + |word|] == s[i..i + |word|];
    }
  }

  lemma {:induction false} LowerTake(s: string, n: nat)
    requires n <= |s|
    ensures Lower(s[..n]) == Lower(s)[..n]
    decreases |s|
  {
    if n > 0 {
      assert s[..n][1..] == s[1..][..n - 1];
      LowerTake(s[1..], n - 1);
    }
  }

  /** A field has the name it is written with, whatever the case, and no other. */
  lemma Named(name: string, low: string, rest: string, word: string)
    requires Lower(name) == low && |word| <= |low|
    ensures IsField(name + rest, word) <==> low[..|word|] == word
  {
    var line := name + rest;
    assert line[..|word|] == name[..|word|];
    LowerTake(name, |word|);
  }

  /** A field that says nothing about the body. */
  ghost predicate PlainField(line: string) {
    LineOk(line) && line != "" && !IsField(line, "content-length:") && !IsField(line, "transfer-encoding:")
  }

  /** A Connection field with this word in it. */
  ghost predicate ConnectionSays(line: string, word: string) {
    |line| >= 11 && Lower(line[..11]) == "connection:" && Contains(line[11..], word)
  }

  ghost predicate AnySays(lines: seq<string>, word: string) {
    exists l :: l in lines && ConnectionSays(l, word)
  }

  /** A Connection field turns pipelining off if it says close, and keep-alive on if it says so, in any
      spelling, and does nothing else. */
  lemma ConnectionRead(h: Head, name: string, value: string)
    requires Lower(name) == "connection:"
    ensures HeaderField(h, name + value) == Some(h.(
      pipelined := h.pipelined && !Contains(value, "close"), keepalive := h.keepalive || Contains(value, "keep-alive")))
  {
    hide Lower, Mentions, Contains;
    Named(name, "connection:", value, "connection:");
    assert "connection:"[..11] == "connection:" && |name| == 11 && (name + value)[11..] == value by {
      SameLength(name);
    }
    MentionsExact(value, "close");
    MentionsExact(value, "keep-alive");
  }

  lemma SameLength(s: string)
    ensures |Lower(s)| == |s|
  {
  }

  lemma LengthNamed(name: string, rest: string)
    requires Lower(name) == "content-length:"
    ensures IsField(name + rest, "content-length:") && !IsField(name + rest, "connection:") && (name + rest)[15..] == rest
  {
    var low := "content-length:";
    Named(name, low, rest, "content-length:");
    Named(name, low, rest, "connection:");
    assert low[..15] == low && low[..11][3] == 't';
  }

  lemma CodingNamed(name: string, rest: string)
    requires Lower(name) == "transfer-encoding:"
    ensures IsField(name + rest, "transfer-encoding:") && !IsField(name + rest, "connection:")
    ensures !IsField(name + rest, "content-length:") && (name + rest)[18..] == rest
  {
    var low := "transfer-encoding:";
    Named(name, low, rest, "transfer-encoding:");
    Named(name, low, rest, "connection:");
    Named(name, low, rest, "content-length:");
    assert low[..18] == low && low[..11][0] == 't' && low[..15][0] == 't';
  }

  lemma {:induction false} LowerThen(a: string, b: string)
    ensures Lower(a + b) == Lower(a) + Lower(b)
    decreases |a|
  {
    if a == "" {
      assert a + b == b;
    } else {
      assert (a + b)[1..] == a[1..] + b;
      LowerThen(a[1..], b);
    }
  }

  lemma {:induction false} Mentioned(pad: string, word: string, low: string, tail: string)
    requires Lower(word) == low
    ensures Mentions(pad + (word + tail), low)
    decreases |pad|
  {
    if pad == "" {
      assert pad + (word + tail) == word + tail;
      LowerThen(word, tail);
    } else {
      assert (pad + (word + tail))[1..] == pad[1..] + (word + tail);
      Mentioned(pad[1..], word, low, tail);
    }
  }

  // ---------- Answers ----------

  /** How the end of a body is marked: by a length field, by a coding field and chunks, or by closing the
      connection; some statuses have no body. Fields carry their own spelling and blanks. */
  datatype Framing =
    | ByLength(name: string, pad: string, length: nat, tail: string)
    | ByChunks(name: string, pad: string, coding: string, tail: string)
    | ByClose
    | NoBody

  /** A 1xx header in front of an answer. */
  datatype Preliminary = Preliminary(minor: char, code: nat, reason: string, fields: seq<string>)

  /** A response as a server means it. The framing field stands between other fields. */
  datatype Answer = Answer(interim: seq<Preliminary>, minor: char, code: nat, reason: string,
                           before: seq<string>, framing: Framing, after: seq<string>, body: seq<char>)

  function StatusText(minor: char, code: nat, reason: string): string {
    "HTTP/1." + ([minor] + (" " + (Printed(10, code) + (" " + reason))))
  }

  function FramingLines(f: Framing): seq<string> {
    match f
    case ByLength(name, pad, length, tail) => [name + (pad + (Printed(10, length) + tail))]
    case ByChunks(name, pad, coding, tail) => [name + (pad + (coding + tail))]
    case ByClose => []
    case NoBody => []
  }

  function HeadLines(a: Answer): seq<string> {
    [StatusText(a.minor, a.code, a.reason)] + (a.before + (FramingLines(a.framing) + a.after))
  }

  function PreliminaryLines(q: Preliminary): seq<string> {
    [StatusText(q.minor, q.code, q.reason)] + q.fields
  }

  function InterimLines(interim: seq<Preliminary>): (blocks: seq<seq<string>>)
    ensures |blocks| == |interim| && forall k :: 0 <= k < |blocks| ==> blocks[k] == PreliminaryLines(interim[k])
  {
    seq(|interim|, k requires 0 <= k < |interim| => PreliminaryLines(interim[k]))
  }

  /** A body as one chunk, or none if it is empty. */
  function ChunksOf(body: seq<char>): seq<Chunk> {
    if body == [] then [] else [Chunk(Printed(16, |body|), body)]
  }

  function BodyBytes(a: Answer): seq<char> {
    if a.framing.ByChunks? then ChunkedBytes(ChunksOf(a.body)) else a.body
  }

  function HeadBytes(a: Answer): seq<char> {
    Blocks(InterimLines(a.interim)) + (Lines(HeadLines(a)) + "\r\n")
  }

  function Bytes(a: Answer): seq<char> {
    HeadBytes(a) + BodyBytes(a)
  }

  /** A response of any final status has a body, except 204 and 304: section 3.3.3 of RFC 7230. */
  predicate HasBody(code: nat) {
    code != 204 && code != 304
  }

  ghost predicate FramingOk(code: nat, f: Framing, body: seq<char>) {
    match f
    case ByLength(name, pad, length, tail) =>
      && Lower(name) == "content-length:" && Blank(pad) && Blank(tail) && length / 10 < OFF_MAX / 10
      && (if HasBody(code) then length == |body| else body == [])
    case ByChunks(name, pad, coding, tail) =>
      && Lower(name) == "transfer-encoding:" && Blank(pad) && Lower(coding) == "chunked" && Blank(tail)
      && HasBody(code) && |body| / 16 < OFF_MAX / 16
    case ByClose => HasBody(code) && |body| < OFF_MAX
    case NoBody => !HasBody(code) && body == []
  }

  /** A 1xx header whose fields announce neither a body nor that the connection is kept. */
  ghost predicate PreliminaryOk(q: Preliminary) {
    && IsDigit(q.minor) && 100 <= q.code <= 199 && LineOk(StatusText(q.minor, q.code, q.reason))
    && (forall l :: l in q.fields ==> PlainField(l) && !IsField(l, "connection:"))
  }

  /** An answer whose lines fit the buffer, with a status from 200 to 599, a body framed in one of the three
      ways, at most one chunk, and otherwise any fields of other names. */
  ghost predicate AnswerOk(a: Answer) {
    && (forall q :: q in a.interim ==> PreliminaryOk(q))
    && IsDigit(a.minor) && 200 <= a.code <= 599 && LineOk(StatusText(a.minor, a.code, a.reason))
    && (forall l :: l in a.before ==> PlainField(l)) && (forall l :: l in a.after ==> PlainField(l))
    && (forall l :: l in FramingLines(a.framing) ==> LineOk(l))
    && FramingOk(a.code, a.framing, a.body)
  }

  // ---------- What phttpget takes from them ----------

  /** The status line says the status, and with its minor version whether pipelining is allowed. */
  lemma StatusTextRead(h: Head, minor: char, code: nat, reason: string)
    requires IsDigit(minor) && 100 <= code <= 599
    ensures StatusLine(h, StatusText(minor, code, reason)) == Some(h.(status := code, pipelined := h.pipelined || minor != '0'))
  {
    hide Decimals, ValueOf, Printed;
    var line, number := StatusText(minor, code, reason), Printed(10, code) + (" " + reason);
    assert line[..7] == "HTTP/1." && line[7..] == [minor] + (" " + number) && line[7] == minor;
    assert line[7..][1..] == " " + number && (" " + number)[1..] == number;
    assert AfterSpace(line[7..]) == Some(number);
    DecimalsPrinted(code, " " + reason);
    PrintedValue(10, code);
  }

  lemma {:induction false} FoldThen(h: Head, a: seq<string>, b: seq<string>)
    requires Fold(h, a).Some?
    ensures Fold(h, a + b) == Fold(Fold(h, a).value, b)
    decreases |a|
  {
    hide StatusLine, HeaderField;
    if a == [] {
      assert a + b == b;
    } else {
      assert (a + b)[1..] == a[1..] + b;
      var next := if h.status == 0 then StatusLine(h, a[0]) else HeaderField(h, a[0]);
      FoldThen(next.value, a[1..], b);
    }
  }

  lemma PlainRead(h: Head, line: string)
    requires PlainField(line)
    ensures HeaderField(h, line) == Some(h.(
      pipelined := h.pipelined && !ConnectionSays(line, "close"), keepalive := h.keepalive || ConnectionSays(line, "keep-alive")))
  {
    hide Contains, Mentions, LengthField, Lower;
    if |line| >= 11 {
      MentionsExact(line[11..], "close");
      MentionsExact(line[11..], "keep-alive");
    }
  }

  /** Other fields set nothing but what Connection fields among them say. */
  lemma {:induction false} PlainFolds(h: Head, lines: seq<string>)
    requires h.status != 0 && forall l :: l in lines ==> PlainField(l)
    ensures Fold(h, lines) == Some(h.(
      pipelined := h.pipelined && !AnySays(lines, "close"), keepalive := h.keepalive || AnySays(lines, "keep-alive")))
    decreases |lines|
  {
    hide HeaderField, ConnectionSays, PlainField;
    if lines != [] {
      assert lines == [lines[0]] + lines[1..] && PlainField(lines[0]);
      PlainRead(h, lines[0]);
      AnySaysFirst(lines, "close");
      AnySaysFirst(lines, "keep-alive");
      PlainFolds(HeaderField(h, lines[0]).value, lines[1..]);
    }
  }

  lemma AnySaysFirst(lines: seq<string>, word: string)
    requires lines != []
    ensures AnySays(lines, word) <==> ConnectionSays(lines[0], word) || AnySays(lines[1..], word)
  {
    hide ConnectionSays;
    assert forall l :: l in lines <==> l == lines[0] || l in lines[1..];
  }

  /** The framing field sets what it says. */
  lemma FramingRead(h: Head, code: nat, f: Framing, body: seq<char>)
    requires FramingOk(code, f, body) && h.status != 0
    ensures Fold(h, FramingLines(f)) == Some(
      if f.ByLength? then h.(length := f.length) else if f.ByChunks? then h.(chunked := true) else h)
  {
    hide IsField, Mentions, LengthField, Printed, Lower;
    match f
    case ByLength(name, pad, length, tail) =>
      var rest := pad + (Printed(10, length) + tail);
      LengthNamed(name, rest);
      LengthPrinted(pad, length, tail);
      assert FramingLines(f)[1..] == [];
    case ByChunks(name, pad, coding, tail) =>
      var rest := pad + (coding + tail);
      CodingNamed(name, rest);
      Mentioned(pad, coding, "chunked", tail);
      assert FramingLines(f)[1..] == [];
    case ByClose =>
    case NoBody =>
  }

  /** What the head of an answer comes to, read in this mode. */
  function HeadOf(a: Answer, pipelined: bool): Option<Head> {
    Fold(Start(PipelinedBehind(pipelined, InterimLines(a.interim))), HeadLines(a))
  }

  /** What the fields of an answer say about the connection. */
  ghost predicate Says(a: Answer, word: string) {
    AnySays(a.before, word) || AnySays(a.after, word)
  }

  /** The header of an answer says its code, how its body is framed, and what becomes of the connection. */
  lemma AnswerFolds(a: Answer, pipelined: bool)
    requires AnswerOk(a)
    ensures Fold(Start(pipelined), HeadLines(a)) == Some(Head(
      a.code,
      if a.framing.ByLength? then a.framing.length else -1,
      a.framing.ByChunks?,
      Says(a, "keep-alive"),
      (pipelined || a.minor != '0') && !Says(a, "close")))
  {
    hide StatusLine, HeaderField, StatusText, FramingLines, PlainField, FramingOk, LineOk, AnySays;
    var top, more := [StatusText(a.minor, a.code, a.reason)], FramingLines(a.framing) + a.after;
    var h := Start(pipelined);
    StatusTextRead(h, a.minor, a.code, a.reason);
    assert top[1..] == [];
    var h1 := h.(status := a.code, pipelined := pipelined || a.minor != '0');
    assert Fold(h, top) == Some(h1);
    FoldThen(h, top, a.before + more);
    PlainFolds(h1, a.before);
    var h2 := Fold(h1, a.before).value;
    FoldThen(h1, a.before, more);
    FramingRead(h2, a.code, a.framing, a.body);
    var h3 := Fold(h2, FramingLines(a.framing)).value;
    FoldThen(h2, FramingLines(a.framing), a.after);
    PlainFolds(h3, a.after);
  }

  lemma HeadLinesOk(a: Answer)
    requires AnswerOk(a)
    ensures HeaderOk(HeadLines(a))
  {
    hide LineOk, IsField, FramingOk, StatusText, FramingLines;
    var lines := HeadLines(a);
    forall k | 0 <= k < |lines|
      ensures LineOk(lines[k]) && lines[k] != ""
    {
      var l := lines[k];
      assert k > 0 ==> l in a.before || l in FramingLines(a.framing) || l in a.after;
      assert l in a.before || l in a.after ==> PlainField(l);
      FramingNotEmpty(a, l);
      StatusTextNotEmpty(a.minor, a.code, a.reason);
    }
  }

  lemma FramingNotEmpty(a: Answer, l: string)
    requires FramingOk(a.code, a.framing, a.body)
    ensures l in FramingLines(a.framing) ==> l != ""
  {
    hide LineOk, IsField;
    if l in FramingLines(a.framing) && a.framing.ByLength? {
      assert |Lower(a.framing.name)| == 15;
    } else if l in FramingLines(a.framing) && a.framing.ByChunks? {
      assert |Lower(a.framing.name)| == 18;
    }
  }

  lemma PreliminaryFolds(q: Preliminary, pipelined: bool)
    requires PreliminaryOk(q)
    ensures Fold(Start(pipelined), PreliminaryLines(q)) == Some(Head(q.code, -1, false, false, pipelined || q.minor != '0'))
  {
    hide StatusLine, HeaderField, StatusText, LineOk, IsField;
    var top := [StatusText(q.minor, q.code, q.reason)];
    StatusTextRead(Start(pipelined), q.minor, q.code, q.reason);
    assert top[1..] == [];
    var h1 := Start(pipelined).(status := q.code, pipelined := pipelined || q.minor != '0');
    assert Fold(Start(pipelined), top) == Some(h1);
    FoldThen(Start(pipelined), top, q.fields);
    PlainFolds(h1, q.fields);
    NoConnection(q.fields, "close");
    NoConnection(q.fields, "keep-alive");
  }

  lemma NoConnection(lines: seq<string>, word: string)
    requires forall l :: l in lines ==> !IsField(l, "connection:")
    ensures !AnySays(lines, word)
  {
    hide Contains, Lower;
  }

  /** A preliminary header leaves nothing behind but whether pipelining is on. */
  lemma PreliminarySkips(q: Preliminary)
    requires PreliminaryOk(q)
    ensures InterimOk(PreliminaryLines(q))
  {
    hide StatusText, LineOk, IsField, Fold;
    PreliminaryFolds(q, false);
    StatusTextNotEmpty(q.minor, q.code, q.reason);
    forall k | 0 <= k < |PreliminaryLines(q)|
      ensures LineOk(PreliminaryLines(q)[k]) && PreliminaryLines(q)[k] != ""
    {
      assert k > 0 ==> PreliminaryLines(q)[k] == q.fields[k - 1] && PlainField(q.fields[k - 1]);
    }
  }

  /** Pipelining is on behind preliminary headers if it was, or if one of them has a minor version. */
  lemma {:induction false} PreliminariesPipeline(pipelined: bool, interim: seq<Preliminary>)
    requires forall q :: q in interim ==> PreliminaryOk(q)
    ensures PipelinedBehind(pipelined, InterimLines(interim)) <==> pipelined || exists q :: q in interim && q.minor != '0'
    decreases |interim|
  {
    hide Fold, PreliminaryOk, PreliminaryLines;
    if interim != [] {
      var q, rest := interim[0], interim[1..];
      assert q in interim && forall p :: p in interim <==> p == q || p in rest;
      PreliminaryFolds(q, pipelined);
      assert InterimLines(interim)[1..] == InterimLines(rest);
      PreliminariesPipeline(pipelined || q.minor != '0', rest);
    }
  }

  /** Whether the connection is in pipelined mode behind the header of an answer. */
  ghost predicate StaysPipelined(a: Answer, pipelined: bool) {
    (pipelined || a.minor != '0' || exists q :: q in a.interim && q.minor != '0') && !Says(a, "close")
  }

  lemma StatusTextNotEmpty(minor: char, code: nat, reason: string)
    ensures StatusText(minor, code, reason) != ""
  {
  }

  /** The header of an answer, behind its preliminary ones. */
  lemma HeadOfIs(a: Answer, pipelined: bool)
    requires AnswerOk(a)
    ensures HeadOf(a, pipelined) == Some(Head(
      a.code,
      if a.framing.ByLength? then a.framing.length else -1,
      a.framing.ByChunks?,
      Says(a, "keep-alive"),
      StaysPipelined(a, pipelined)))
  {
    hide Fold, HeadLines, PreliminaryOk, LineOk, PlainField, FramingOk, Says;
    PreliminariesPipeline(pipelined, a.interim);
    AnswerFolds(a, PipelinedBehind(pipelined, InterimLines(a.interim)));
  }

  lemma HeadRead(a: Answer, pipelined: bool, rest: Stream)
    requires AnswerOk(a)
    ensures HeadOf(a, pipelined).Some?
    ensures ReadHead(Start(pipelined), HeadBytes(a) + rest) == Some((HeadOf(a, pipelined).value, rest))
  {
    hide ReadHead, Fold, HeaderOk, InterimOk, AnswerOk, HeadLines, PreliminaryLines;
    InterimsOk(a);
    HeadLinesOk(a);
    var blocks, lines, p := InterimLines(a.interim), HeadLines(a), PipelinedBehind(pipelined, InterimLines(a.interim));
    AnswerFolds(a, p);
    CodeOk(a);
    InterimSkips(pipelined, blocks, Lines(lines) + "\r\n" + rest);
    assert HeadBytes(a) + rest == Blocks(blocks) + (Lines(lines) + "\r\n" + rest);
    HeadParses(Start(p), lines, rest);
  }

  lemma CodeOk(a: Answer)
    requires AnswerOk(a)
    ensures 200 <= a.code <= 599
  {
  }

  lemma InterimsOk(a: Answer)
    requires AnswerOk(a)
    ensures forall k :: 0 <= k < |InterimLines(a.interim)| ==> InterimOk(InterimLines(a.interim)[k])
  {
    hide InterimOk, PreliminaryOk, PreliminaryLines, LineOk, PlainField, FramingOk;
    forall k | 0 <= k < |a.interim|
      ensures InterimOk(PreliminaryLines(a.interim[k]))
    {
      assert a.interim[k] in a.interim;
      PreliminarySkips(a.interim[k]);
    }
  }

  lemma HeadBroken(a: Answer, pipelined: bool, n: nat)
    requires AnswerOk(a) && n < |HeadBytes(a)|
    ensures ReadHead(Start(pipelined), HeadBytes(a)[..n]).None?
  {
    hide ReadHead, HeaderOk, InterimOk, AnswerOk, HeadLines, InterimLines, Blocks, Lines;
    InterimsOk(a);
    HeadLinesOk(a);
    BlocksCut(pipelined, InterimLines(a.interim), HeadLines(a), n);
  }

  /** The chunks of an answer are understood. */
  lemma ChunksFit(a: Answer)
    requires AnswerOk(a) && a.framing.ByChunks?
    ensures |ChunksOf(a.body)| <= 1 && forall k :: 0 <= k < |ChunksOf(a.body)| ==> ChunkOk(ChunksOf(a.body)[k])
    ensures ChunkData(ChunksOf(a.body)) == a.body
  {
    hide LineOk, IsField, Printed, ChunkSize, Lower, StatusText;
    if a.body != [] {
      SizePrinted(|a.body|);
      SizeLineOk(|a.body|);
      assert ChunksOf(a.body)[1..] == [] && a.body + [] == a.body;
    }
  }

  // ---------- Ordinary responses ----------

  lemma ShortNumber(n: nat)
    requires n <= OFF_MAX
    ensures |Printed(10, n)| <= 19 && '\r' !in Printed(10, n) && '\0' !in Printed(10, n)
    ensures n < 1000 ==> |Printed(10, n)| <= 3
  {
    assert Power(3) == 1000 && Power(6) == 1000 * Power(3) && Power(9) == 1000 * Power(6) && Power(12) == 1000 * Power(9);
    assert Power(15) == 1000 * Power(12) && Power(18) == 1000 * Power(15) && Power(19) == 10 * Power(18);
    PrintedShort(10, n, 19);
    if n < 1000 {
      PrintedShort(10, n, 3);
    }
    PrintedIs(10, n);
  }

  /** What a reason phrase may be for the status line to fit. */
  predicate ReasonOk(reason: string) {
    '\r' !in reason && '\0' !in reason && |reason| <= BUFSIZ - 15
  }

  lemma StatusTextOk(minor: char, code: nat, reason: string)
    requires IsDigit(minor) && 100 <= code <= 599 && ReasonOk(reason)
    ensures LineOk(StatusText(minor, code, reason))
  {
    hide Printed;
    ShortNumber(code);
  }

  const LENGTH_NAME := "Content-Length:"
  const CODING_NAME := "Transfer-Encoding:"
  const CHUNKED := "chunked"

  lemma LengthNameAt(k: nat)
    requires k < 15
    ensures LowerChar(LENGTH_NAME[k]) == "content-length:"[k] && LENGTH_NAME[k] != '\r' && LENGTH_NAME[k] != '\0'
  {
    assert k < 8 ==> LowerChar(LENGTH_NAME[k]) == "content-length:"[k] && LENGTH_NAME[k] != '\r' && LENGTH_NAME[k] != '\0';
  }

  lemma LengthName()
    ensures Lower(LENGTH_NAME) == "content-length:" && '\r' !in LENGTH_NAME && '\0' !in LENGTH_NAME
  {
    hide Lower, LowerChar;
    forall k: nat | k < 15
      ensures LowerChar(LENGTH_NAME[k]) == "content-length:"[k] && LENGTH_NAME[k] != '\r' && LENGTH_NAME[k] != '\0'
    {
      LengthNameAt(k);
    }
    LowerIs(LENGTH_NAME, "content-length:");
  }

  lemma CodingNameAt(k: nat)
    requires k < 18
    ensures LowerChar(CODING_NAME[k]) == "transfer-encoding:"[k] && CODING_NAME[k] != '\r' && CODING_NAME[k] != '\0'
  {
    assert k < 9 ==> LowerChar(CODING_NAME[k]) == "transfer-encoding:"[k] && CODING_NAME[k] != '\r' && CODING_NAME[k] != '\0';
  }

  lemma CodingName()
    ensures Lower(CODING_NAME) == "transfer-encoding:" && '\r' !in CODING_NAME && '\0' !in CODING_NAME
  {
    hide Lower, LowerChar;
    forall k: nat | k < 18
      ensures LowerChar(CODING_NAME[k]) == "transfer-encoding:"[k] && CODING_NAME[k] != '\r' && CODING_NAME[k] != '\0'
    {
      CodingNameAt(k);
    }
    LowerIs(CODING_NAME, "transfer-encoding:");
  }

  lemma ChunkedName()
    ensures Lower(CHUNKED) == "chunked" && '\r' !in CHUNKED && '\0' !in CHUNKED
  {
    LowerIs(CHUNKED, "chunked");
  }

  lemma LengthLineOk(n: nat)
    requires n <= OFF_MAX
    ensures LineOk(LENGTH_NAME + (" " + (Printed(10, n) + "")))
  {
    hide Printed, Lower;
    LengthName();
    ShortNumber(n);
  }

  lemma CodingLineOk()
    ensures LineOk(CODING_NAME + (" " + (CHUNKED + "")))
  {
    hide Lower;
    CodingName();
    ChunkedName();
  }

  /** A body behind its length: for every status with a body, minor version, fitting reason and other fields. */
  lemma WithLength(minor: char, code: nat, reason: string, before: seq<string>, after: seq<string>, body: seq<char>)
    requires IsDigit(minor) && 200 <= code <= 599 && HasBody(code) && ReasonOk(reason) && |body| / 10 < OFF_MAX / 10
    requires (forall l :: l in before ==> PlainField(l)) && (forall l :: l in after ==> PlainField(l))
    ensures AnswerOk(Answer([], minor, code, reason, before, ByLength(LENGTH_NAME, " ", |body|, ""), after, body))
  {
    hide PlainField, StatusText, Lower, Printed, LineOk;
    StatusTextOk(minor, code, reason);
    LengthName();
    LengthLineOk(|body|);
  }

  /** A body in a chunk. */
  lemma WithChunks(minor: char, code: nat, reason: string, before: seq<string>, after: seq<string>, body: seq<char>)
    requires IsDigit(minor) && 200 <= code <= 599 && HasBody(code) && ReasonOk(reason) && |body| / 16 < OFF_MAX / 16
    requires (forall l :: l in before ==> PlainField(l)) && (forall l :: l in after ==> PlainField(l))
    ensures AnswerOk(Answer([], minor, code, reason, before, ByChunks(CODING_NAME, " ", CHUNKED, ""), after, body))
  {
    hide PlainField, StatusText, Lower, LineOk;
    StatusTextOk(minor, code, reason);
    CodingName();
    ChunkedName();
    CodingLineOk();
  }

  /** A body ended by closing, or none at all. */
  lemma WithoutLength(minor: char, code: nat, reason: string, fields: seq<string>, body: seq<char>)
    requires IsDigit(minor) && 200 <= code <= 599 && ReasonOk(reason) && |body| < OFF_MAX
    requires (forall l :: l in fields ==> PlainField(l)) && (HasBody(code) || body == [])
    ensures AnswerOk(Answer([], minor, code, reason, fields, if HasBody(code) then ByClose else NoBody, [], body))
  {
    hide PlainField, StatusText, LineOk;
    StatusTextOk(minor, code, reason);
  }
}
