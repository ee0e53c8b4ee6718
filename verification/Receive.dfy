/** The receive buffer of phttpget, over a socket that delivers its bytes in arbitrary pieces. */
module Receive {
  import opened Options

  const BUFSIZ := 1024

  /** How a connection stops delivering: a clean close, or an error. */
  datatype Ending = Closed | Broken

  /** A connected socket. What the peer will deliver is fixed but unknown; how the bytes are cut
      into pieces, and which calls are interrupted, is decided anew at each call. On a reliable one
      sending does not fail, other than by EAGAIN, and on a willing one not by that. */
  class Socket {
    var incoming: seq<char>
    var interrupts: nat
    const ending: Ending
    const reliable: bool
    const willing: bool
    var sent: seq<char>
    ghost var refusals: nat

    constructor (stream: seq<char>, interrupts: nat, ending: Ending, reliable: bool, willing: bool)
      ensures incoming == stream && this.interrupts == interrupts && sent == []
      ensures this.ending == ending && this.reliable == reliable && this.willing == willing
    {
      incoming, this.interrupts, this.ending, sent := stream, interrupts, ending, [];
      this.reliable, this.willing := reliable, willing;
    }

    /** recv: any nonempty piece that fits, or an interruption, or the end of the stream. */
    method Recv(buf: array<char>, at: nat, max: nat) returns (n: int, interrupted: bool)
      requires 0 < max && at + max <= buf.Length
      modifies this`incoming, this`interrupts, buf
      ensures interrupted ==> n == -1 && incoming == old(incoming) && interrupts == old(interrupts) - 1
      ensures !interrupted ==> interrupts == old(interrupts)
      ensures !interrupted && n <= 0 ==> incoming == old(incoming) == [] && n == if ending == Closed then 0 else -1
      ensures n > 0 ==> n <= max && n <= |old(incoming)| && incoming == old(incoming)[n..]
      ensures n > 0 ==> buf[..at] == old(buf[..at]) && buf[at..at + n] == old(incoming)[..n]
      ensures n > 0 ==> buf[at + n..] == old(buf[at + n..])
      ensures n <= 0 ==> buf[..] == old(buf[..])
    {
      var interrupt: bool :| interrupt ==> interrupts > 0;
      if interrupt {
        interrupts := interrupts - 1;
        return -1, true;
      }
      if incoming == [] {
        return if ending == Closed then 0 else -1, false;
      }
      var k :| 1 <= k <= max && k <= |incoming|;
      forall i | 0 <= i < k {
        buf[at + i] := incoming[i];
      }
      incoming := incoming[k..];
      return k, false;
    }

    /** send: some of the bytes, or an error. On a non-blocking socket the error may be EAGAIN; refusals
        counts those. */
    method Send(bytes: seq<char>, nonblocking: bool) returns (n: int, again: bool)
      requires bytes != []
      modifies this`sent, this`refusals
      ensures n == -1 || 1 <= n <= |bytes|
      ensures again ==> n == -1 && nonblocking && !willing
      ensures refusals == old(refusals) + if again then 1 else 0
      ensures n == -1 && !again ==> !reliable
      ensures sent == if n == -1 then old(sent) else old(sent) + bytes[..n]
    {
      var failed: bool :| failed ==> (nonblocking && !willing) || !reliable;
      again :| (again ==> failed && nonblocking && !willing) && (failed && reliable ==> again);
      if failed {
        refusals := if again then refusals + 1 else refusals;
        return -1, again;
      }
      n :| 1 <= n <= |bytes|;
      sent := sent + bytes[..n];
    }
  }

  /** The files a run writes. Where they are reliable, opening and writing them does not fail. */
  class Files {
    const reliable: bool
    var content: map<string, seq<char>>

    constructor (reliable: bool)
      ensures content == map[] && this.reliable == reliable
    {
      content, this.reliable := map[], reliable;
    }

    /** write: some of the bytes, or an error. */
    method Write(name: string, bytes: seq<char>) returns (n: int)
      requires name in content && bytes != []
      modifies this
      ensures n == -1 || 1 <= n <= |bytes|
      ensures n == -1 ==> !reliable
      ensures content == if n == -1 then old(content) else old(content)[name := old(content)[name] + bytes[..n]]
    {
      var failed: bool :| failed ==> !reliable;
      if failed {
        return -1;
      }
      n :| 1 <= n <= |bytes|;
      content := content[name := content[name] + bytes[..n]];
    }
  }

  /** Index of the first CRLF, unless a NUL comes first: what strnstr looks for. */
  function Crlf(s: seq<char>): (r: Option<nat>)
    ensures r.Some? ==> r.value + 2 <= |s| && s[r.value] == '\r' && s[r.value + 1] == '\n'
  {
    if |s| < 2 || s[0] == '\0' then None
    else if s[0] == '\r' && s[1] == '\n' then Some(0)
    else
      var r := Crlf(s[1..]);
      if r.Some? then Some(r.value + 1) else None
  }

  predicate IsCrlf(s: seq<char>, k: nat) {
    k + 2 <= |s| && s[k] == '\r' && s[k + 1] == '\n'
  }

  /** It is the first one, and no NUL stands before it. */
  lemma {:induction false} CrlfExact(s: seq<char>, e: nat)
    ensures Crlf(s) == Some(e) <==> IsCrlf(s, e) && '\0' !in s[..e] && forall k: nat :: k < e ==> !IsCrlf(s, k)
    decreases |s|
  {
    if |s| >= 2 && s[0] != '\0' && !IsCrlf(s, 0) {
      if e > 0 {
        CrlfExact(s[1..], e - 1);
        assert forall k: nat :: IsCrlf(s[1..], k) <==> IsCrlf(s, k + 1);
        if e <= |s| {
          assert s[..e] == [s[0]] + s[1..][..e - 1];
        }
        assert (forall k: nat :: k < e - 1 ==> !IsCrlf(s[1..], k)) <==> (forall k: nat :: k < e ==> !IsCrlf(s, k)) by {
          assert forall k: nat :: 0 < k ==> (IsCrlf(s, k) <==> IsCrlf(s[1..], k - 1));
        }
      }
    } else if |s| >= 2 && s[0] == '\0' && e > 0 && e <= |s| {
      assert s[..e][0] == '\0';
    }
  }

  function Prefix(s: seq<char>, n: nat): seq<char> {
    if |s| <= n then s else s[..n]
  }

  /** Where the first line of a stream ends, if it fits the buffer. */
  function LineEnd(s: seq<char>): (r: Option<nat>)
    ensures r.Some? ==> r.value + 2 <= |s| && r.value + 2 <= BUFSIZ
  {
    Crlf(Prefix(s, BUFSIZ))
  }

  /** The first line break, if it is within the first 1024 bytes and no NUL stands before it. */
  lemma LineEndExact(s: seq<char>, e: nat)
    ensures LineEnd(s) == Some(e)
      <==> e + 2 <= 1024 && IsCrlf(s, e) && '\0' !in s[..e] && forall k: nat :: k < e ==> !IsCrlf(s, k)
  {
    var p := Prefix(s, BUFSIZ);
    CrlfExact(p, e);
    assert forall k: nat :: IsCrlf(p, k) <==> k + 2 <= 1024 && IsCrlf(s, k);
    if e + 2 <= 1024 && IsCrlf(s, e) {
      assert p[..e] == s[..e];
    }
  }

  /** Looking further cannot move the first CRLF. */
  lemma {:induction false} CrlfPrefix(s: seq<char>, n: nat)
    requires n <= |s|
    ensures Crlf(s[..n]).Some? ==> Crlf(s) == Crlf(s[..n])
    ensures Crlf(s).Some? && Crlf(s).value + 2 <= n ==> Crlf(s[..n]) == Crlf(s)
  {
    if n >= 2 && s[0] != '\0' && !(s[0] == '\r' && s[1] == '\n') {
      assert s[1..][..n - 1] == s[..n][1..];
      CrlfPrefix(s[1..], n - 1);
    }
  }

  /** A line that the buffer holds is the line of the stream. */
  lemma BufferedLine(s: seq<char>, n: nat)
    requires n <= |s| && n <= BUFSIZ
    ensures Crlf(s[..n]).Some? ==> LineEnd(s) == Crlf(s[..n])
    ensures Crlf(s[..n]).None? && (n == |s| || n == BUFSIZ) ==> LineEnd(s).None?
  {
    var p := Prefix(s, BUFSIZ);
    assert p[..n] == s[..n];
    CrlfPrefix(p, n);
    assert n == |s| || n == BUFSIZ ==> p == s[..n];
  }

  class Buffer {
    const data: array<char>
    var pos: nat
    var len: nat

    constructor ()
      ensures Valid() && pos == len == 0 && fresh(data)
    {
      data := new char[BUFSIZ];
      pos, len := 0, 0;
    }

    ghost predicate Valid()
      reads this
    {
      pos <= len <= BUFSIZ == data.Length
    }

    /** The logical stream: what is buffered, then what is still to come. */
    ghost function Unread(s: Socket): seq<char>
      requires Valid()
      reads this, data, s
    {
      data[pos..len] + s.incoming
    }

    /** Moving buffered data to the start of the buffer. */
    method Compact()
      requires Valid()
      modifies this, data
      ensures Valid() && pos == 0 && data[..len] == old(data[pos..len])
    {
      if pos != 0 {
        ghost var kept := data[pos..len];
        var k := 0;
        while k < len - pos
          invariant k <= len - pos
          invariant pos == old(pos) && len == old(len)
          invariant data[..k] == kept[..k]
          invariant data[pos + k..len] == kept[k..]
        {
          assert data[pos + k] == kept[k];
          data[k] := data[pos + k];
          k := k + 1;
        }
        len, pos := len - pos, 0;
        assert data[..len] == kept;
      }
    }
  }

  /** readln: fills the buffer until it holds a line. Succeeds exactly when the stream starts with a
      line that fits, however the stream is cut, and takes nothing from the stream. */
  method ReadLn(s: Socket, b: Buffer) returns (ok: bool)
    requires b.Valid()
    modifies s`incoming, s`interrupts, b, b.data
    ensures b.Valid() && b.Unread(s) == old(b.Unread(s))
    ensures ok <==> LineEnd(old(b.Unread(s))).Some?
    ensures ok ==> Crlf(b.data[b.pos..b.len]) == LineEnd(b.Unread(s))
  {
    while Crlf(b.data[b.pos..b.len]).None?
      invariant b.Valid() && b.Unread(s) == old(b.Unread(s))
      decreases s.interrupts + |s.incoming|
    {
      ghost var stream := b.Unread(s);
      b.Compact();
      assert b.data[..b.len] + s.incoming == stream && stream[..b.len] == b.data[..b.len];
      BufferedLine(stream, b.len);
      if b.len == BUFSIZ {
        return false;
      }
      ghost var held := b.data[..b.len];
      var n, interrupted := s.Recv(b.data, b.len, BUFSIZ - b.len);
      if n <= 0 && !interrupted {
        return false;
      }
      if n > 0 {
        assert b.data[..b.len + n] == held + b.data[b.len..b.len + n];
        b.len := b.len + n;
        assert b.data[..b.len] + s.incoming == stream;
      } else {
        assert b.data[..b.len] == b.data[..][..b.len] == held;
      }
    }
    assert b.Unread(s)[..b.len - b.pos] == b.data[b.pos..b.len];
    BufferedLine(b.Unread(s), b.len - b.pos);
    return true;
  }

  /** Taking the line ReadLn found. In a header the carriage return is overwritten by a NUL. */
  method TakeLine(s: Socket, b: Buffer, terminate: bool) returns (line: seq<char>)
    requires b.Valid() && Crlf(b.data[b.pos..b.len]).Some?
    requires Crlf(b.data[b.pos..b.len]) == LineEnd(b.Unread(s))
    modifies b, b.data
    ensures b.Valid() && line + "\r\n" + b.Unread(s) == old(b.Unread(s))
    ensures line == old(b.Unread(s))[..LineEnd(old(b.Unread(s))).value]
  {
    var window := b.data[b.pos..b.len];
    var e := Crlf(window).value;
    line := b.data[b.pos..b.pos + e];
    ghost var rest := b.data[b.pos + e + 2..b.len];
    assert window == line + "\r\n" + rest;
    if terminate {
      b.data[b.pos + e] := '\0';
    }
    b.pos := b.pos + e + 2;
    assert b.data[b.pos..b.len] == rest;
    assert line + "\r\n" + (rest + s.incoming) == window + s.incoming;
  }

  /** How copybytes ends: 0, -1, -2, or the program stops because a write failed. */
  datatype Copied = Copied | Died | Ended | WriteFailed

  function Appended(files: map<string, seq<char>>, fd: Option<string>, bytes: seq<char>): map<string, seq<char>>
    requires fd.Some? ==> fd.value in files
  {
    if fd.None? then files else files[fd.value := files[fd.value] + bytes]
  }

  /** One write from the buffer: some of the first n unread bytes, or an error. */
  method WriteSome(ghost s: Socket, b: Buffer, files: Files, fd: Option<string>, n: nat) returns (k: int)
    requires b.Valid() && 0 < n <= b.len - b.pos && (fd.Some? ==> fd.value in files.content)
    modifies b`pos, files
    ensures b.Valid() && (k == -1 || 1 <= k <= n)
    ensures k == -1 ==> fd.Some? && !files.reliable && files.content == old(files.content)
    ensures k > 0 ==> b.Unread(s) == old(b.Unread(s))[k..]
    ensures k > 0 ==> files.content == Appended(old(files.content), fd, old(b.Unread(s))[..k])
  {
    ghost var stream := b.Unread(s);
    ghost var window := b.data[b.pos..b.len];
    var bytes := b.data[b.pos..b.pos + n];
    k := n;
    if fd.Some? {
      k := files.Write(fd.value, bytes);
      if k == -1 {
        return;
      }
    }
    assert window == b.data[b.pos..b.len] && stream == window + s.incoming;
    assert bytes == window[..n] && bytes[..k] == stream[..k];
    b.pos := b.pos + k;
    assert b.data[b.pos..b.len] == window[k..];
    assert b.Unread(s) == stream[k..];
  }

  /** One receive into an empty buffer. */
  method Refill(s: Socket, b: Buffer) returns (m: int, interrupted: bool)
    requires b.Valid() && b.pos == b.len
    modifies s`incoming, s`interrupts, b, b.data
    ensures b.Valid() && b.Unread(s) == old(b.Unread(s))
    ensures interrupted || m > 0 ==> s.interrupts + |s.incoming| < old(s.interrupts + |s.incoming|)
    ensures !interrupted && m <= 0 ==> b.Unread(s) == [] && m == if s.ending == Closed then 0 else -1
  {
    m, interrupted := s.Recv(b.data, 0, BUFSIZ);
    if m > 0 {
      b.len, b.pos := m, 0;
    }
  }

  lemma AppendMore(files: map<string, seq<char>>, fd: Option<string>, stream: seq<char>, n: nat, k: nat)
    requires (fd.Some? ==> fd.value in files) && n + k <= |stream|
    ensures Appended(Appended(files, fd, stream[..n]), fd, stream[n..][..k]) == Appended(files, fd, stream[..n + k])
  {
    assert stream[..n] + stream[n..][..k] == stream[..n + k];
    if fd.Some? {
      var text := files[fd.value];
      assert text + stream[..n] + stream[n..][..k] == text + stream[..n + k];
    }
  }

  lemma AppendNothing(files: map<string, seq<char>>, fd: Option<string>)
    requires fd.Some? ==> fd.value in files
    ensures Appended(files, fd, []) == files
  {
    assert fd.Some? ==> files[fd.value] + [] == files[fd.value];
  }

  /** copybytes: delivers exactly the next n bytes of the stream, or all there are. */
  method CopyBytes(s: Socket, b: Buffer, files: Files, fd: Option<string>, n: nat) returns (r: Copied)
    requires b.Valid() && (fd.Some? ==> fd.value in files.content)
    modifies s`incoming, s`interrupts, b, b.data, files
    ensures b.Valid()
    ensures r != WriteFailed ==> (r == Copied <==> |old(b.Unread(s))| >= n)
    ensures r == Copied ==> b.Unread(s) == old(b.Unread(s))[n..]
    ensures r == Copied ==> files.content == Appended(old(files.content), fd, old(b.Unread(s))[..n])
    ensures r == Died || r == Ended ==> b.Unread(s) == [] && (r == Ended <==> s.ending == Closed)
    ensures r == Died || r == Ended ==> files.content == Appended(old(files.content), fd, old(b.Unread(s)))
    ensures r == WriteFailed ==> fd.Some? && !files.reliable
    ensures files.content.Keys == old(files.content).Keys
    ensures fd.None? ==> files.content == old(files.content)
    ensures forall f :: f in files.content && fd != Some(f) ==> files.content[f] == old(files.content)[f]
  {
    ghost var stream := b.Unread(s);
    ghost var content := files.content;
    ghost var done := 0;
    assert stream[..0] == [] && stream[0..] == stream;
    AppendNothing(content, fd);
    var copylen := n;
    while copylen != 0
      invariant b.Valid() && done + copylen == n && done <= |stream| && 0 <= copylen
      invariant b.Unread(s) == stream[done..]
      invariant files.content == Appended(content, fd, stream[..done])
      decreases copylen, s.interrupts + |s.incoming|
    {
      var len := b.len - b.pos;
      if copylen < len {
        len := copylen;
      }
      if len > 0 {
        var k := WriteSome(s, b, files, fd, len);
        if k == -1 {
          return WriteFailed;
        }
        AppendMore(content, fd, stream, done, k);
        assert stream[done..][k..] == stream[done + k..];
        copylen := copylen - k;
        done := done + k;
        continue;
      }
      var m, interrupted := Refill(s, b);
      if m <= 0 && !interrupted {
        assert stream[..done] == stream;
        return if m == -1 then Died else Ended;
      }
    }
    return Copied;
  }
}
