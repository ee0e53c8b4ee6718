/** Servers that answer requests in order: what phttpget makes of their streams. */
module Server {
  import opened Options
  import opened Receive
  import opened Headers
  import opened Response
  import opened Fetch
  import opened Wire
  import opened InterimHeaders
  import opened Answers

  /** A complete answer of known extent is read as the server meant it, in every respect, and nothing
      behind it is touched. */
  lemma AnswerRead(a: Answer, pipelined: bool, rest: Stream, ending: Ending)
    requires AnswerOk(a) && !a.framing.ByClose?
    ensures ReadReply(pipelined, Bytes(a) + rest, ending)
            == Some((Reply(a.code, a.body, StaysPipelined(a, pipelined), Says(a, "keep-alive")), rest))
  {
    hide ReadHead, ReadChunks, HeadBytes, HeadOf, ChunkedBytes, ChunksOf, LineOk, PlainField, PreliminaryOk, StaysPipelined, Says;
    HeadRead(a, pipelined, BodyBytes(a) + rest);
    HeadOfIs(a, pipelined);
    assert Bytes(a) + rest == HeadBytes(a) + (BodyBytes(a) + rest);
    if a.framing.ByChunks? {
      ChunksFit(a);
      ChunkedExact(ChunksOf(a.body), rest);
    } else {
      assert (a.body + rest)[..|a.body|] == a.body && (a.body + rest)[|a.body|..] == rest;
    }
  }

  /** An answer ended by closing is everything up to a clean close. */
  lemma ClosedAnswerRead(a: Answer, pipelined: bool)
    requires AnswerOk(a) && a.framing.ByClose?
    ensures ReadReply(pipelined, Bytes(a), Closed) == Some((Reply(a.code, a.body, false, Says(a, "keep-alive")), []))
    ensures ReadReply(pipelined, Bytes(a), Broken).None?
  {
    hide ReadHead, HeadBytes, HeadOf, LineOk, PlainField, PreliminaryOk, StaysPipelined, Says;
    HeadRead(a, pipelined, a.body);
    HeadOfIs(a, pipelined);
  }

  /** An answer that breaks off is no reply, unless a clean close pretends to be its end. */
  lemma AnswerCut(a: Answer, pipelined: bool, n: nat, ending: Ending)
    requires AnswerOk(a) && n < |Bytes(a)| && (a.framing.ByClose? ==> ending == Broken)
    ensures ReadReply(pipelined, Bytes(a)[..n], ending).None?
  {
    hide ReadHead, ReadChunks, HeadBytes, HeadOf, ChunkedBytes, ChunksOf, LineOk, PlainField, PreliminaryOk, StaysPipelined, Says;
    HeadOfIs(a, pipelined);
    if n < |HeadBytes(a)| {
      assert Bytes(a)[..n] == HeadBytes(a)[..n];
      HeadBroken(a, pipelined, n);
    } else {
      var m := n - |HeadBytes(a)|;
      assert Bytes(a)[..n] == HeadBytes(a) + BodyBytes(a)[..m];
      HeadRead(a, pipelined, BodyBytes(a)[..m]);
      if a.framing.ByChunks? {
        ChunksFit(a);
        ChunksCut(ChunksOf(a.body), m);
      }
    }
  }

  /** Where a body is chunked, a length announced besides is ignored: section 3.3.3 of RFC 7230. */
  lemma CodingOverridesLength(h: Head, length: int, s: Stream, ending: Ending)
    requires h.chunked && h.length == -1
    ensures ReadBody(h.(length := length), s, ending) == ReadBody(h, s, ending)
  {
  }

  // ---------- A whole connection ----------

  /** The stream of a server that answers in order and may stop anywhere. Where the end of a body is
      marked by closing, a clean close is only made there. */
  ghost predicate Serves(answers: seq<Answer>, stream: Stream, ending: Ending)
    decreases |answers|
  {
    if answers == [] then stream == []
    else
      var a := Bytes(answers[0]);
      if |stream| < |a| then stream == a[..|stream|] && (answers[0].framing.ByClose? ==> ending == Broken)
      else if answers[0].framing.ByClose? then stream == a
      else a == stream[..|a|] && Serves(answers[1..], stream[|a|..], ending)
  }

  /** The next reply read from such a stream is the next answer. */
  lemma ServedReply(answers: seq<Answer>, stream: Stream, ending: Ending, pipelined: bool)
    requires Serves(answers, stream, ending) && forall a :: a in answers ==> AnswerOk(a)
    ensures var r := ReadReply(pipelined, stream, ending); r.Some? ==>
      && answers != [] && r.value.0.status == answers[0].code && r.value.0.body == answers[0].body
      && Serves(if answers[0].framing.ByClose? then [] else answers[1..], r.value.1, ending)
  {
    hide ReadHead, ReadBody, AnswerOk, Bytes;
    if answers == [] {
      NothingRead(pipelined, ending);
    } else {
      var a, n := answers[0], |stream|;
      assert AnswerOk(a);
      if n < |Bytes(a)| {
        AnswerCut(a, pipelined, n, ending);
      } else if a.framing.ByClose? {
        ClosedAnswerRead(a, pipelined);
      } else {
        var rest := stream[|Bytes(a)|..];
        AnswerRead(a, pipelined, rest, ending);
        assert stream == Bytes(a) + rest;
      }
    }
  }

  lemma NothingRead(pipelined: bool, ending: Ending)
    ensures ReadReply(pipelined, [], ending).None?
  {
  }

  /** What a server still has to say after k answers. */
  function LeftToSay(answers: seq<Answer>, k: nat): seq<Answer> {
    if k == 0 then answers
    else
      var before := LeftToSay(answers, k - 1);
      if before == [] || before[0].framing.ByClose? then [] else before[1..]
  }

  lemma {:induction false} LeftIsSuffix(answers: seq<Answer>, k: nat)
    ensures LeftToSay(answers, k) != [] ==> k < |answers| && LeftToSay(answers, k) == answers[k..]
  {
    if k > 0 {
      LeftIsSuffix(answers, k - 1);
    }
  }

  /** After k replies the client stands before answer k, in pipelined mode or not. */
  lemma {:induction false} ServedAfter(answers: seq<Answer>, stream: Stream, ending: Ending, k: nat)
    requires Serves(answers, stream, ending) && forall a :: a in answers ==> AnswerOk(a)
    requires AfterReplies(stream, ending, k).Some?
    ensures Serves(LeftToSay(answers, k), AfterReplies(stream, ending, k).value.0, ending)
    ensures forall a :: a in LeftToSay(answers, k) ==> AnswerOk(a)
  {
    hide ReadReply, Serves, AnswerOk;
    if k > 0 {
      ServedAfter(answers, stream, ending, k - 1);
      var (s, pipelined) := AfterReplies(stream, ending, k - 1).value;
      ServedReply(LeftToSay(answers, k - 1), s, ending, pipelined);
    }
  }

  /** The k-th reply phttpget makes out of a connection is the k-th answer of the server. */
  lemma ServedInOrder(answers: seq<Answer>, stream: Stream, ending: Ending, k: nat)
    requires Serves(answers, stream, ending) && forall a :: a in answers ==> AnswerOk(a)
    requires ReplyAt(stream, ending, k).Some?
    ensures k < |answers|
    ensures ReplyAt(stream, ending, k).value.status == answers[k].code
    ensures ReplyAt(stream, ending, k).value.body == answers[k].body
  {
    hide ReadReply, Serves, AnswerOk;
    ServedAfter(answers, stream, ending, k);
    LeftIsSuffix(answers, k);
    var (s, pipelined) := AfterReplies(stream, ending, k).value;
    ServedReply(LeftToSay(answers, k), s, ending, pipelined);
  }

  /** Answers one behind the other. */
  function Bundle(answers: seq<Answer>): seq<char> {
    if answers == [] then [] else Bytes(answers[0]) + Bundle(answers[1..])
  }

  /** Conversely, where complete answers of known extent arrive, each of them is read, and what stands
      behind them is left alone. */
  lemma {:induction false} BundleRead(answers: seq<Answer>, rest: Stream, ending: Ending, k: nat)
    requires k <= |answers| && forall a :: a in answers ==> AnswerOk(a) && !a.framing.ByClose?
    ensures AfterReplies(Bundle(answers) + rest, ending, k).Some?
    ensures AfterReplies(Bundle(answers) + rest, ending, k).value.0 == Bundle(answers[k..]) + rest
    ensures k > 0 ==>
      var r := ReplyAt(Bundle(answers) + rest, ending, k - 1);
      r.Some? && r.value.status == answers[k - 1].code && r.value.body == answers[k - 1].body
  {
    hide ReadReply, AnswerOk, Bytes;
    if k == 0 {
      assert answers[0..] == answers;
    } else {
      BundleRead(answers, rest, ending, k - 1);
      var (s, pipelined) := AfterReplies(Bundle(answers) + rest, ending, k - 1).value;
      var a, more := answers[k - 1], Bundle(answers[k..]) + rest;
      assert answers[k - 1..][1..] == answers[k..] && a in answers;
      assert s == Bytes(a) + more;
      AnswerRead(a, pipelined, more, ending);
    }
  }

  /** A connection on which the first answer arrives whole yields a reply. */
  lemma FirstAnswerArrives(answers: seq<Answer>, c: Conn)
    requires Serves(answers, c.stream, c.ending) && answers != [] && AnswerOk(answers[0])
    requires |Bytes(answers[0])| <= |c.stream| && (answers[0].framing.ByClose? ==> c.ending == Closed)
    ensures Replies(c)
  {
    hide ReadReply, AnswerOk, Bytes;
    var a := answers[0];
    if a.framing.ByClose? {
      ClosedAnswerRead(a, false);
    } else {
      var rest := c.stream[|Bytes(a)|..];
      AnswerRead(a, false, rest, c.ending);
      assert c.stream == Bytes(a) + rest;
    }
  }

  /** Connection c is served by answers[c], which may break off anywhere. */
  ghost predicate AllServed(answers: seq<seq<Answer>>, conns: seq<Conn>) {
    && |answers| == |conns|
    && forall c {:trigger answers[c]} :: 0 <= c < |conns| ==>
         Serves(answers[c], conns[c].stream, conns[c].ending) && forall a :: a in answers[c] ==> AnswerOk(a)
  }

  /** Whatever the history of a run: the reply counted for request i is the answer the server gave to it
      on the connection it was sent on, and a download with status 200 holds that answer's body. */
  lemma DownloadsAreAnswers(argv: seq<string>, request: seq<string>, content: map<string, seq<char>>,
                            conns: seq<Conn>, done: seq<Completed>, answers: seq<seq<Answer>>, i: nat)
    requires i < |done| <= |argv| == |request| && History(argv, request, content, conns, done)
    requires AllServed(answers, conns)
    ensures done[i].conn < |conns| && conns[done[i].conn].first <= i
    ensures var c, k := done[i].conn, i - conns[done[i].conn].first;
      && k < |answers[c]| && i < done[i].out <= |request| && Requests(request, conns[c].first, done[i].out) <= conns[c].sent
      && done[i].reply.status == answers[c][k].code && done[i].reply.body == answers[c][k].body
      && (answers[c][k].code == 200 && OwnName(argv, i) ==>
            FileName(argv[i]) in content && content[FileName(argv[i])] == answers[c][k].body)
  {
    hide ReplyAt, Serves, AnswerOk, Requests, OwnName;
    assert Answered(request, conns, done, i) && Saved(argv, content, done, i);
    var c := done[i].conn;
    assert Serves(answers[c], conns[c].stream, conns[c].ending);
    ServedInOrder(answers[c], conns[c].stream, conns[c].ending, i - conns[c].first);
  }
}
