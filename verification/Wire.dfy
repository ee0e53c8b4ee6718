/** What servers put on the wire: header lines, chunks and trailers, whole or broken off. */
module Wire {
  import opened Options
  import opened Receive
  import opened Headers
  import opened Response

  // ---------- Lines and headers ----------

  /** A line readln can take in one piece. */
  ghost predicate LineOk(line: string) {
    '\r' !in line && '\0' !in line && |line| + 2 <= BUFSIZ
  }

  lemma {:induction false} CrlfAt(line: string, rest: Stream)
    requires '\r' !in line && '\0' !in line
    ensures Crlf(line + "\r\n" + rest) == Some(|line|)
    decreases |line|
  {
    var s := line + "\r\n" + rest;
    if line != "" {
      assert s[1..] == line[1..] + "\r\n" + rest;
      CrlfAt(line[1..], rest);
    }
  }

  lemma LineEndAt(line: string, rest: Stream)
    requires LineOk(line)
    ensures LineEnd(line + "\r\n" + rest) == Some(|line|)
    ensures (line + "\r\n" + rest)[..|line|] == line && (line + "\r\n" + rest)[|line| + 2..] == rest
  {
    var s := line + "\r\n" + rest;
    var room := BUFSIZ - |line| - 2;
    assert Prefix(s, BUFSIZ) == line + "\r\n" + Prefix(rest, room);
    CrlfAt(line, Prefix(rest, room));
  }

  function Lines(lines: seq<string>): seq<char> {
    if lines == [] then [] else lines[0] + "\r\n" + Lines(lines[1..])
  }

  /** What the lines of a header set, from h on. */
  function Fold(h: Head, lines: seq<string>): Option<Head>
    decreases |lines|
  {
    if lines == [] then Some(h)
    else
      var next := if h.status == 0 then StatusLine(h, lines[0]) else HeaderField(h, lines[0]);
      if next.None? then None else Fold(next.value, lines[1..])
  }

  ghost predicate HeaderOk(lines: seq<string>) {
    forall k :: 0 <= k < |lines| ==> LineOk(lines[k]) && lines[k] != ""
  }

  predicate Interim(status: int) {
    100 <= status <= 199
  }

  /** What follows a header: another one if it was an interim one, or else the body. */
  function Behind(h: Head, rest: Stream): Option<(Head, Stream)> {
    if Interim(h.status) then ReadHead(h.(status := 0), rest) else Some((h, rest))
  }

  /** A header is read as its lines fold, and reading stops behind its empty line. */
  lemma {:induction false} HeadParses(h: Head, lines: seq<string>, rest: Stream)
    requires HeaderOk(lines) && Fold(h, lines).Some? && Fold(h, lines).value.status != 0
    ensures ReadHead(h, Lines(lines) + "\r\n" + rest) == Behind(Fold(h, lines).value, rest)
    decreases |lines|
  {
    hide StatusLine, HeaderField, LineEnd, LineOk;
    var s := Lines(lines) + "\r\n" + rest;
    if lines == [] {
      assert s == "" + "\r\n" + rest;
      EmptyLineOk();
      LineEndAt("", rest);
    } else {
      var tail := Lines(lines[1..]) + "\r\n" + rest;
      assert s == lines[0] + "\r\n" + tail;
      LineEndAt(lines[0], tail);
      var next := if h.status == 0 then StatusLine(h, lines[0]) else HeaderField(h, lines[0]);
      HeadParses(next.value, lines[1..], rest);
    }
  }

  lemma EmptyLineOk()
    ensures LineOk("") && LineOk("0")
  {
  }

  // ---------- Chunks ----------

  /** A chunk with the line that announces its size. */
  datatype Chunk = Chunk(size: string, data: seq<char>)

  ghost predicate ChunkOk(c: Chunk) {
    LineOk(c.size) && c.size != "" && c.data != [] && ChunkSize(c.size) == Some(|c.data|)
  }

  /** Section 4.1 of RFC 7230, without trailer fields. */
  function ChunkedBytes(chunks: seq<Chunk>): seq<char> {
    if chunks == [] then "0" + "\r\n" + "\r\n"
    else chunks[0].size + "\r\n" + chunks[0].data + "\r\n" + ChunkedBytes(chunks[1..])
  }

  function ChunkData(chunks: seq<Chunk>): seq<char> {
    if chunks == [] then [] else chunks[0].data + ChunkData(chunks[1..])
  }

  lemma ZeroSize()
    ensures ChunkSize("0") == Some(0) && ChunkSize("") == Some(0)
  {
    assert HexDigits("0") == [0] + HexDigits("0"[1..]);
  }

  /** Only the first chunk is delivered: the line break behind its data reads as a size of zero. */
  lemma ChunksRead(chunks: seq<Chunk>, rest: Stream)
    requires forall k :: 0 <= k < |chunks| ==> ChunkOk(chunks[k])
    ensures chunks == [] ==> ReadChunks(ChunkedBytes(chunks) + rest) == Some(([], rest))
    ensures chunks != [] ==> ReadChunks(ChunkedBytes(chunks) + rest)
                             == Prepend(chunks[0].data, AfterLast(ChunkedBytes(chunks[1..]) + rest))
  {
    hide LineEnd, ChunkSize, SkipTrailer, AfterLast, ReadChunks;
    if chunks == [] {
      assert ChunkedBytes(chunks) + rest == "0" + "\r\n" + ("\r\n" + rest);
      LastChunkTrailer(rest);
      ZeroSize();
      EmptyLineOk();
      ZeroRead("0", "\r\n" + rest);
    } else {
      assert ChunkedBytes(chunks) + rest == chunks[0].size + "\r\n" + (chunks[0].data + "\r\n" + (ChunkedBytes(chunks[1..]) + rest));
      OneRead(chunks[0], ChunkedBytes(chunks[1..]) + rest);
    }
  }

  /** A size line of value zero is the last one. */
  lemma ZeroRead(size: string, rest: Stream)
    requires LineOk(size) && ChunkSize(size) == Some(0)
    ensures ReadChunks(size + "\r\n" + rest) == AfterLast(rest)
  {
    hide LineEnd, ChunkSize, AfterLast;
    LineEndAt(size, rest);
  }

  lemma OneRead(c: Chunk, more: Stream)
    requires ChunkOk(c)
    ensures ReadChunks(c.size + "\r\n" + (c.data + "\r\n" + more)) == Prepend(c.data, AfterLast(more))
  {
    hide LineEnd, ChunkSize, AfterLast;
    var tail := c.data + "\r\n" + more;
    LineEndAt(c.size, tail);
    assert tail[..|c.data|] == c.data && tail[|c.data|..] == "" + "\r\n" + more;
    ZeroSize();
    EmptyLineOk();
    ZeroRead("", more);
  }

  /** Trailer lines are skipped whatever they say. */
  lemma {:induction false} TrailerSkips(lines: seq<string>, rest: Stream)
    requires HeaderOk(lines)
    ensures SkipTrailer(Lines(lines) + "\r\n" + rest) == Some(rest)
    decreases |lines|
  {
    hide LineEnd, LineOk;
    var s := Lines(lines) + "\r\n" + rest;
    if lines == [] {
      assert s == "" + "\r\n" + rest;
      EmptyLineOk();
      LineEndAt("", rest);
    } else {
      var tail := Lines(lines[1..]) + "\r\n" + rest;
      assert s == lines[0] + "\r\n" + tail;
      LineEndAt(lines[0], tail);
      TrailerSkips(lines[1..], rest);
    }
  }

  lemma LastChunkTrailer(rest: Stream)
    ensures AfterLast("\r\n" + rest) == Some(([], rest))
    ensures AfterLast(ChunkedBytes([]) + rest) == Some(([], rest))
  {
    hide SkipTrailer;
    assert Lines([]) + "\r\n" + rest == "\r\n" + rest;
    TrailerSkips([], rest);
    assert Lines(["0"]) == "0" + "\r\n" + Lines([]);
    assert Lines(["0"]) + "\r\n" + rest == ChunkedBytes([]) + rest;
    EmptyLineOk();
    TrailerSkips(["0"], rest);
  }

  /** A chunked body is understood exactly when it has at most one data chunk. */
  lemma ChunkedExact(chunks: seq<Chunk>, rest: Stream)
    requires forall k :: 0 <= k < |chunks| ==> ChunkOk(chunks[k])
    ensures var c := ReadChunks(ChunkedBytes(chunks) + rest);
      c.Some? && c.value.0 == ChunkData(chunks) <==> |chunks| <= 1
    ensures |chunks| <= 1 ==> ReadChunks(ChunkedBytes(chunks) + rest) == Some((ChunkData(chunks), rest))
  {
    hide ReadChunks, AfterLast, ChunkSize, LineOk;
    ChunksRead(chunks, rest);
    if |chunks| == 1 {
      assert chunks[1..] == [];
      LastChunkTrailer(rest);
      assert ChunkData(chunks) == chunks[0].data + [];
    } else if |chunks| > 1 {
      AfterLastIsEmpty(ChunkedBytes(chunks[1..]) + rest);
      assert ChunkData(chunks) == chunks[0].data + (chunks[1].data + ChunkData(chunks[2..])) by {
        assert chunks[1..][1..] == chunks[2..] && chunks[1..][0] == chunks[1];
      }
      assert ChunkOk(chunks[1]);
    }
  }

  lemma AfterLastIsEmpty(s: Stream)
    ensures AfterLast(s).Some? ==> AfterLast(s).value.0 == []
  {
  }

  /** Two chunks lose the second. */
  lemma SecondChunkLost(rest: Stream)
    ensures ReadChunks(ChunkedBytes([Chunk("1", "a"), Chunk("1", "b")]) + rest) == Some(("a", rest))
    ensures ChunkData([Chunk("1", "a"), Chunk("1", "b")]) == "ab"
  {
    hide SkipTrailer, ReadChunks;
    var a, b := Chunk("1", "a"), Chunk("1", "b");
    OneDigit();
    assert [a, b][1..] == [b] && [b][1..] == [];
    var more := ChunkedBytes([b]) + rest;
    assert ChunkedBytes([a, b]) + rest == "1" + "\r\n" + ("a" + "\r\n" + more);
    OneRead(a, more);
    assert ["1", "b", "0"][1..] == ["b", "0"] && ["b", "0"][1..] == ["0"] && ["0"][1..] == [];
    assert Lines(["1", "b", "0"]) == "1" + "\r\n" + ("b" + "\r\n" + ("0" + "\r\n"));
    assert ChunkedBytes([b]) == "1" + "\r\n" + "b" + "\r\n" + ("0" + "\r\n" + "\r\n");
    assert Lines(["1", "b", "0"]) + "\r\n" == ChunkedBytes([b]);
    TrailerSkips(["1", "b", "0"], rest);
    assert "a" + [] == "a";
  }

  lemma OneDigit()
    ensures ChunkSize("1") == Some(1)
  {
    assert HexDigits("1") == [1] + HexDigits("1"[1..]);
  }

  // ---------- Truncated streams ----------

  lemma {:induction false} NoCrlf(line: string, n: nat)
    requires '\r' !in line && n < |line| + 2
    ensures Crlf((line + "\r\n")[..n]).None?
    decreases |line|
  {
    var s := (line + "\r\n")[..n];
    if line != "" && n >= 2 {
      assert s[1..] == (line[1..] + "\r\n")[..n - 1];
      NoCrlf(line[1..], n - 1);
    }
  }

  /** A line without its line break is no line yet. */
  lemma LineCut(line: string, rest: Stream, n: nat)
    requires LineOk(line) && n < |line| + 2
    ensures LineEnd((line + "\r\n" + rest)[..n]).None?
  {
    assert (line + "\r\n" + rest)[..n] == (line + "\r\n")[..n];
    NoCrlf(line, n);
  }

  /** Cutting behind the first line cuts the rest. */
  lemma CutBehind(line: string, rest: Stream, n: nat)
    requires LineOk(line) && |line| + 2 <= n <= |line| + 2 + |rest|
    ensures LineEnd((line + "\r\n" + rest)[..n]) == Some(|line|)
    ensures (line + "\r\n" + rest)[..n][..|line|] == line
    ensures (line + "\r\n" + rest)[..n][|line| + 2..] == rest[..n - |line| - 2]
  {
    assert (line + "\r\n" + rest)[..n] == line + "\r\n" + rest[..n - |line| - 2];
    LineEndAt(line, rest[..n - |line| - 2]);
  }

  /** A header that breaks off is no header. */
  lemma {:induction false} HeadCut(h: Head, lines: seq<string>, n: nat)
    requires HeaderOk(lines) && n < |Lines(lines)| + 2
    ensures ReadHead(h, (Lines(lines) + "\r\n")[..n]).None?
    decreases |lines|
  {
    hide StatusLine, HeaderField, LineEnd, LineOk;
    EmptyLineOk();
    if lines == [] {
      assert Lines(lines) + "\r\n" == "" + "\r\n" + [];
      LineCut("", [], n);
    } else {
      var tail := Lines(lines[1..]) + "\r\n";
      assert Lines(lines) + "\r\n" == lines[0] + "\r\n" + tail;
      if n < |lines[0]| + 2 {
        LineCut(lines[0], tail, n);
      } else {
        CutBehind(lines[0], tail, n);
        var next := if h.status == 0 then StatusLine(h, lines[0]) else HeaderField(h, lines[0]);
        if next.Some? {
          HeadCut(next.value, lines[1..], n - |lines[0]| - 2);
        }
      }
    }
  }

  /** A trailer that breaks off is no trailer. */
  lemma {:induction false} TrailerCut(lines: seq<string>, n: nat)
    requires HeaderOk(lines) && n < |Lines(lines)| + 2
    ensures SkipTrailer((Lines(lines) + "\r\n")[..n]).None?
    decreases |lines|
  {
    hide LineEnd, LineOk;
    EmptyLineOk();
    if lines == [] {
      assert Lines(lines) + "\r\n" == "" + "\r\n" + [];
      LineCut("", [], n);
    } else {
      var tail := Lines(lines[1..]) + "\r\n";
      assert Lines(lines) + "\r\n" == lines[0] + "\r\n" + tail;
      if n < |lines[0]| + 2 {
        LineCut(lines[0], tail, n);
      } else {
        CutBehind(lines[0], tail, n);
        TrailerCut(lines[1..], n - |lines[0]| - 2);
      }
    }
  }

  /** A chunked body of at most one chunk that breaks off is no body. */
  lemma ChunksCut(chunks: seq<Chunk>, n: nat)
    requires |chunks| <= 1 && (forall k :: 0 <= k < |chunks| ==> ChunkOk(chunks[k])) && n < |ChunkedBytes(chunks)|
    ensures ReadChunks(ChunkedBytes(chunks)[..n]).None?
  {
    hide ReadChunks, ChunkOk;
    if chunks == [] {
      LastCut(n);
    } else {
      assert chunks[1..] == [];
      var last := "0" + "\r\n" + "\r\n";
      assert ChunkedBytes(chunks) == chunks[0].size + "\r\n" + (chunks[0].data + ("\r\n" + last));
      OneCut(chunks[0], n);
    }
  }

  lemma LastCut(n: nat)
    requires n < 5
    ensures ReadChunks(("0" + "\r\n" + "\r\n")[..n]).None?
  {
    hide LineEnd, ChunkSize, SkipTrailer;
    ZeroSize();
    EmptyLineOk();
    if n < 3 {
      LineCut("0", "\r\n", n);
    } else {
      CutBehind("0", "\r\n", n);
      assert Lines([]) + "\r\n" == "\r\n";
      TrailerCut([], n - 3);
    }
  }

  lemma OneCut(c: Chunk, n: nat)
    requires ChunkOk(c) && n < |c.size| + 2 + |c.data| + 7
    ensures ReadChunks((c.size + "\r\n" + (c.data + ("\r\n" + ("0" + "\r\n" + "\r\n"))))[..n]).None?
  {
    hide LineEnd, ChunkSize, AfterLast;
    var behind := "\r\n" + ("0" + "\r\n" + "\r\n");
    var tail := c.data + behind;
    if n < |c.size| + 2 {
      LineCut(c.size, tail, n);
    } else {
      CutBehind(c.size, tail, n);
      var m := n - |c.size| - 2;
      if m >= |c.data| {
        assert tail[..m][|c.data|..] == behind[..m - |c.data|];
        DataCut(m - |c.data|);
      }
    }
  }

  lemma DataCut(n: nat)
    requires n < 7
    ensures ReadChunks(("\r\n" + ("0" + "\r\n" + "\r\n"))[..n]).None?
  {
    hide LineEnd, ChunkSize, SkipTrailer;
    ZeroSize();
    EmptyLineOk();
    var last := "0" + "\r\n" + "\r\n";
    assert "\r\n" + last == "" + "\r\n" + last;
    if n < 2 {
      LineCut("", last, n);
    } else {
      CutBehind("", last, n);
      assert Lines(["0"]) == "0" + "\r\n" + Lines([]);
      assert Lines(["0"]) + "\r\n" == last;
      TrailerCut(["0"], n - 2);
    }
  }
}
