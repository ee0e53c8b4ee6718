/** Reading one response: a function of the byte stream alone, and the loops that compute it. */
module Response {
  import opened Options
  import opened Receive
  import opened Headers

  type Stream = seq<char>

  // ---------- What a stream says ----------

  /** The header lines from here on: what they set, and the stream behind the empty line.
      None if the connection dies first. A 1xx block is followed by another header. */
  function ReadHead(h: Head, s: Stream): Option<(Head, Stream)>
    decreases |s|
  {
    var e := LineEnd(s);
    if e.None? then None
    else
      var (line, rest) := (s[..e.value], s[e.value + 2..]);
      if h.status == 0 then
        var h' := StatusLine(h, line);
        if h'.None? then None else ReadHead(h'.value, rest)
      else if line != "" then
        var h' := HeaderField(h, line);
        if h'.None? then None else ReadHead(h'.value, rest)
      else if 100 <= h.status <= 199 then ReadHead(h.(status := 0), rest)
      else Some((h, rest))
  }

  /** Lines up to and including an empty one. */
  function SkipTrailer(s: Stream): Option<Stream>
    decreases |s|
  {
    var e := LineEnd(s);
    if e.None? then None
    else if e.value == 0 then Some(s[2..])
    else SkipTrailer(s[e.value + 2..])
  }

  function Prepend(got: seq<char>, c: Option<(seq<char>, Stream)>): Option<(seq<char>, Stream)> {
    if c.None? then None else Some((got + c.value.0, c.value.1))
  }

  /** What ReadChunks yields behind the last size line. */
  function AfterLast(s: Stream): Option<(seq<char>, Stream)> {
    var end := SkipTrailer(s);
    if end.None? then None else Some(([], end.value))
  }

  /** The chunk loop and the trailer: the data delivered, and the stream behind the trailer. */
  function ReadChunks(s: Stream): Option<(seq<char>, Stream)>
    decreases |s|
  {
    var e := LineEnd(s);
    if e.None? then None
    else
      var (size, rest) := (ChunkSize(s[..e.value]), s[e.value + 2..]);
      if size.None? || size.value < 0 || |rest| < size.value then None
      else if size.value == 0 then AfterLast(rest)
      else Prepend(rest[..size.value], ReadChunks(rest[size.value..]))
  }

  /** A response as phttpget understands it. */
  datatype Reply = Reply(status: int, body: seq<char>, pipelined: bool, keepalive: bool)

  predicate Bodyless(status: int) {
    status == 204 || status == 304
  }

  /** The body the headers announce. Without a length it is everything up to a clean close. */
  function ReadBody(h: Head, s: Stream, ending: Ending): Option<(Reply, Stream)> {
    if Bodyless(h.status) then Some((Reply(h.status, [], h.pipelined, h.keepalive), s))
    else if h.chunked then
      var c := ReadChunks(s);
      if c.None? then None else Some((Reply(h.status, c.value.0, h.pipelined, h.keepalive), c.value.1))
    else if h.length >= 0 then
      if |s| < h.length then None
      else Some((Reply(h.status, s[..h.length], h.pipelined, h.keepalive), s[h.length..]))
    else if |s| >= OFF_MAX then Some((Reply(h.status, s[..OFF_MAX], false, h.keepalive), s[OFF_MAX..]))
    else if ending == Closed then Some((Reply(h.status, s, false, h.keepalive), []))
    else None
  }

  function Start(pipelined: bool): Head {
    Head(0, -1, false, false, pipelined)
  }

  /** The next response of a stream, or None when the connection dies before it is complete. */
  function ReadReply(pipelined: bool, s: Stream, ending: Ending): Option<(Reply, Stream)> {
    var h := ReadHead(Start(pipelined), s);
    if h.None? then None else ReadBody(h.value.0, h.value.1, ending)
  }

  // ---------- Reading it ----------

  /** The header loop of main. */
  method ReadHeaders(s: Socket, b: Buffer, pipelined: bool) returns (h: Option<Head>)
    requires b.Valid()
    modifies s`incoming, s`interrupts, b, b.data
    ensures b.Valid()
    ensures match ReadHead(Start(pipelined), old(b.Unread(s)))
      case None => h == None
      case Some((head, rest)) => h == Some(head) && b.Unread(s) == rest
  {
    hide LineEnd, Crlf, StatusLine, HeaderField;
    var head := Start(pipelined);
    while true
      invariant b.Valid()
      invariant ReadHead(head, b.Unread(s)) == ReadHead(Start(pipelined), old(b.Unread(s)))
      decreases |b.Unread(s)|
    {
      ghost var stream := b.Unread(s);
      var line := NextLine(s, b, true);
      if line.None? {
        return None;
      }
      if head.status == 0 {
        var next := TakeStatusLine(head, line.value);
        if next.None? {
          return None;
        }
        head := next.value;
      } else if line.value != "" {
        var next := TakeField(head, line.value);
        if next.None? {
          return None;
        }
        head := next.value;
      } else if 100 <= head.status <= 199 {
        head := head.(status := 0);
      } else {
        return Some(head);
      }
    }
  }

  /** readln, and taking the line off the buffer. */
  method NextLine(s: Socket, b: Buffer, terminate: bool) returns (line: Option<string>)
    requires b.Valid()
    modifies s`incoming, s`interrupts, b, b.data
    ensures b.Valid()
    ensures line.Some? <==> LineEnd(old(b.Unread(s))).Some?
    ensures line.Some? ==> var e := LineEnd(old(b.Unread(s))).value;
      line.value == old(b.Unread(s))[..e] && b.Unread(s) == old(b.Unread(s))[e + 2..]
  {
    hide LineEnd, Crlf;
    ghost var stream := b.Unread(s);
    var ok := ReadLn(s, b);
    if !ok {
      return None;
    }
    var l := TakeLine(s, b, terminate);
    assert stream[|l| + 2..] == (l + "\r\n" + b.Unread(s))[|l| + 2..] == b.Unread(s);
    line := Some(l);
  }

  /** Reading the trailer. */
  method ReadTrailer(s: Socket, b: Buffer) returns (ok: bool)
    requires b.Valid()
    modifies s`incoming, s`interrupts, b, b.data
    ensures b.Valid()
    ensures ok <==> SkipTrailer(old(b.Unread(s))).Some?
    ensures ok ==> b.Unread(s) == SkipTrailer(old(b.Unread(s))).value
  {
    hide Crlf;
    while true
      invariant b.Valid() && SkipTrailer(b.Unread(s)) == SkipTrailer(old(b.Unread(s)))
      decreases |b.Unread(s)|
    {
      var line := NextLine(s, b, false);
      if line.None? {
        return false;
      }
      if line.value == "" {
        return true;
      }
    }
  }

  /** What a method that writes a body to fd leaves alone. */
  ghost predicate OnlyTouched(before: map<string, seq<char>>, after: map<string, seq<char>>, fd: Option<string>) {
    && after.Keys == before.Keys
    && forall f :: f in after && fd != Some(f) ==> after[f] == before[f]
  }

  /** What is still to come after a chunk of this size. */
  function AfterChunk(clen: int, s: Stream): Option<(seq<char>, Stream)> {
    if clen == 0 then AfterLast(s) else ReadChunks(s)
  }

  lemma ChunkStep(u: Stream, clen: int)
    requires LineEnd(u).Some? && ChunkSize(u[..LineEnd(u).value]) == Some(clen)
    requires 0 <= clen <= |u[LineEnd(u).value + 2..]|
    ensures var rest := u[LineEnd(u).value + 2..]; ReadChunks(u) == Prepend(rest[..clen], AfterChunk(clen, rest[clen..]))
  {
    hide LineEnd, ChunkSize;
    if clen == 0 {
      var rest := u[LineEnd(u).value + 2..];
      assert rest[..0] == [] && rest[0..] == rest;
      PrependNothing(AfterLast(rest));
    }
  }

  /** One chunk: its size line and its data. A size of zero is the last one. */
  method ReadChunk(s: Socket, b: Buffer, files: Files, fd: Option<string>) returns (r: Copied, clen: int, ghost data: seq<char>)
    requires b.Valid() && (fd.Some? ==> fd.value in files.content)
    modifies s`incoming, s`interrupts, b, b.data, files
    ensures b.Valid() && OnlyTouched(old(files.content), files.content, fd)
    ensures r == Copied ==> ReadChunks(old(b.Unread(s))) == Prepend(data, AfterChunk(clen, b.Unread(s)))
    ensures r == Copied ==> files.content == Appended(old(files.content), fd, data)
    ensures r == Copied ==> |b.Unread(s)| < |old(b.Unread(s))|
    ensures r == Died ==> ReadChunks(old(b.Unread(s))).None?
    ensures r == WriteFailed ==> fd.Some? && !files.reliable
    ensures r != Ended
  {
    hide Crlf;
    clen, data := 0, [];
    ghost var u := b.Unread(s);
    var line := NextLine(s, b, false);
    if line.None? {
      return Died, clen, data;
    }
    NumbersInRange(line.value);
    var size, _ := ParseChunkSize(line.value);
    if size.None? {
      return Died, clen, data;
    }
    clen := size.value;
    ghost var rest := b.Unread(s);
    r := CopyBytes(s, b, files, fd, clen);
    if r == Ended {
      r := Died;
    }
    if r == Copied {
      data := rest[..clen];
      ChunkStep(u, clen);
    }
  }

  /** The chunked branch of main: chunks until a zero size, then the trailer. */
  method ReadChunked(s: Socket, b: Buffer, files: Files, fd: Option<string>) returns (r: Copied)
    requires b.Valid() && (fd.Some? ==> fd.value in files.content)
    modifies s`incoming, s`interrupts, b, b.data, files
    ensures b.Valid() && OnlyTouched(old(files.content), files.content, fd)
    ensures r == Copied ==>
      var c := ReadChunks(old(b.Unread(s)));
      c.Some? && files.content == Appended(old(files.content), fd, c.value.0) && b.Unread(s) == c.value.1
    ensures r == Died ==> ReadChunks(old(b.Unread(s))).None?
    ensures r == WriteFailed ==> fd.Some? && !files.reliable
    ensures r != Ended
  {
    hide ReadChunks, SkipTrailer, Appended;
    ghost var stream := b.Unread(s);
    ghost var content := files.content;
    ghost var got: seq<char>, data: seq<char> := [], [];
    AppendNothing(content, fd);
    PrependNothing(ReadChunks(stream));
    var clen := -1;
    while clen != 0
      invariant b.Valid() && OnlyTouched(content, files.content, fd)
      invariant files.content == Appended(content, fd, got)
      invariant ReadChunks(stream) == Prepend(got, AfterChunk(clen, b.Unread(s)))
      decreases |b.Unread(s)|
    {
      r, clen, data := ReadChunk(s, b, files, fd);
      if r != Copied {
        return;
      }
      AppendTwice(content, fd, got, data);
      PrependTwice(got, data, AfterChunk(clen, b.Unread(s)));
      got := got + data;
    }
    var ok := ReadTrailer(s, b);
    r := if ok then Copied else Died;
    assert got + [] == got;
  }

  lemma PrependNothing(c: Option<(seq<char>, Stream)>)
    ensures Prepend([], c) == c
  {
    assert c.Some? ==> [] + c.value.0 == c.value.0;
  }

  lemma PrependTwice(a: seq<char>, b: seq<char>, c: Option<(seq<char>, Stream)>)
    ensures Prepend(a, Prepend(b, c)) == Prepend(a + b, c)
  {
    assert c.Some? ==> a + (b + c.value.0) == a + b + c.value.0;
  }

  lemma AppendTwice(files: map<string, seq<char>>, fd: Option<string>, a: seq<char>, b: seq<char>)
    requires fd.Some? ==> fd.value in files
    ensures Appended(Appended(files, fd, a), fd, b) == Appended(files, fd, a + b)
  {
    AppendMore(files, fd, a + b, |a|, |b|);
    assert (a + b)[..|a|] == a && (a + b)[|a|..][..|b|] == b && (a + b)[..|a| + |b|] == a + b;
  }

  // ---------- Receiving a file ----------

  /** Why the program gives up. */
  datatype Exit = NoFileName | OpenFailed | WriteError | NoAddress | ConnectionFailure

  /** How an attempt to receive a response ends. Its body goes to the file, if anywhere. */
  datatype Received = Got(status: int, pipelined: bool, keepalive: bool) | Lost | Stopped(why: Exit) {
    ghost function WithBody(body: seq<char>): Reply
      requires Got?
    {
      Reply(status, body, pipelined, keepalive)
    }
  }

  /** The part of a path behind its last slash. */
  function FileName(path: string): string {
    if path == "" then ""
    else if path[|path| - 1] == '/' then ""
    else FileName(path[..|path| - 1]) + [path[|path| - 1]]
  }

  /** That is, it holds no slash, and nothing precedes it but a directory and a slash. */
  lemma {:induction false} FileNameExact(path: string)
    ensures '/' !in FileName(path)
    ensures path == FileName(path) || exists dir :: path == dir + "/" + FileName(path)
  {
    if path != "" {
      var before, last := path[..|path| - 1], path[|path| - 1];
      if last == '/' {
        assert path == before + "/" + "";
      } else {
        FileNameExact(before);
        if before != FileName(before) {
          var dir :| before == dir + "/" + FileName(before);
          assert path == dir + "/" + FileName(path);
        }
      }
    }
  }

  /** open with O_CREAT and O_TRUNC. */
  method Open(files: Files, name: string) returns (ok: bool)
    modifies files
    ensures files.content == if ok then old(files.content)[name := []] else old(files.content)
    ensures !ok ==> !files.reliable
  {
    ok :| files.reliable ==> ok;
    if ok {
      files.content := files.content[name := []];
    }
  }

  /** The branches of main that read a body. */
  method ReadBodyTo(s: Socket, b: Buffer, files: Files, fd: Option<string>, h: Head)
    returns (r: Received, ghost body: seq<char>)
    requires b.Valid() && (fd.Some? ==> fd.value in files.content) && !Bodyless(h.status)
    modifies s`incoming, s`interrupts, b, b.data, files
    ensures b.Valid() && OnlyTouched(old(files.content), files.content, fd)
    ensures r.Got? ==> ReadBody(h, old(b.Unread(s)), s.ending) == Some((r.WithBody(body), b.Unread(s)))
    ensures r.Got? ==> files.content == Appended(old(files.content), fd, body)
    ensures r.Lost? ==> ReadBody(h, old(b.Unread(s)), s.ending).None?
    ensures r.Stopped? ==> fd.Some? && r.why == WriteError && !files.reliable
  {
    hide ReadChunks, Appended;
    ghost var u := b.Unread(s);
    body := [];
    var copied;
    if h.chunked {
      copied := ReadChunked(s, b, files, fd);
      if copied == Copied {
        body := ReadChunks(u).value.0;
        return Got(h.status, h.pipelined, h.keepalive), body;
      }
    } else if h.length >= 0 {
      copied := CopyBytes(s, b, files, fd, h.length);
      if copied == Copied {
        body := u[..h.length];
        return Got(h.status, h.pipelined, h.keepalive), body;
      }
    } else {
      copied := CopyBytes(s, b, files, fd, OFF_MAX);
      if copied == Copied || copied == Ended {
        body := if copied == Copied then u[..OFF_MAX] else u;
        return Got(h.status, false, h.keepalive), body;
      }
    }
    r := if copied == WriteFailed then Stopped(WriteError) else Lost;
  }

  /** From the first header line to the end of the body: on success the reply is the stream's next,
      and for status 200 the file named after the path holds exactly its body. */
  method ReceiveReply(s: Socket, b: Buffer, files: Files, path: string, pipelined: bool)
    returns (r: Received, ghost body: seq<char>)
    requires b.Valid()
    modifies s`incoming, s`interrupts, b, b.data, files
    ensures b.Valid()
    ensures r.Got? ==> ReadReply(pipelined, old(b.Unread(s)), s.ending) == Some((r.WithBody(body), b.Unread(s)))
    ensures r.Lost? ==> ReadReply(pipelined, old(b.Unread(s)), s.ending).None?
    ensures r.Got? ==> files.content == if r.status == 200 then old(files.content)[FileName(path) := body] else old(files.content)
    ensures forall f :: f in old(files.content) && f != FileName(path) ==> f in files.content && files.content[f] == old(files.content)[f]
    ensures r.Stopped? ==> r.why == NoFileName || ((r.why == OpenFailed || r.why == WriteError) && !files.reliable)
    ensures r.Stopped? && r.why == NoFileName ==> FileName(path) == ""
  {
    hide ReadHead, ReadChunks;
    body := [];
    var h := ReadHeaders(s, b, pipelined);
    if h.None? {
      return Lost, body;
    }
    if Bodyless(h.value.status) {
      return Got(h.value.status, h.value.pipelined, h.value.keepalive), body;
    }
    var fd := None;
    if h.value.status == 200 {
      var fname := FileName(path);
      if fname == "" {
        return Stopped(NoFileName), body;
      }
      var ok := Open(files, fname);
      if !ok {
        return Stopped(OpenFailed), body;
      }
      fd := Some(fname);
    }
    ghost var emptied := files.content;
    r, body := ReadBodyTo(s, b, files, fd, h.value);
    if r.Got? && fd.Some? {
      assert emptied[fd.value] + body == body;
    }
  }
}
