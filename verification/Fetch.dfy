/** The pipelining client: requests sent ahead, replies read in order, dead connections replaced. */
module Fetch {
  import opened Options
  import opened Receive
  import opened Response

  /** A connection of a run: its first request, what the peer delivers on it, what was sent on it. */
  datatype Conn = Conn(first: nat, stream: Stream, ending: Ending, sent: seq<char>)

  /** A request answered: on which connection, how, and up to which request all were sent by then. */
  datatype Completed = Completed(conn: nat, reply: Reply, out: nat)

  /** Where reading stands after k replies of a connection, and whether it is pipelined then. */
  function AfterReplies(stream: Stream, ending: Ending, k: nat): Option<(Stream, bool)> {
    if k == 0 then Some((stream, false))
    else
      var before := AfterReplies(stream, ending, k - 1);
      if before.None? then None
      else
        var r := ReadReply(before.value.1, before.value.0, ending);
        if r.None? then None else Some((r.value.1, r.value.0.pipelined))
  }

  /** The k-th reply on a connection. */
  function ReplyAt(stream: Stream, ending: Ending, k: nat): Option<Reply> {
    var before := AfterReplies(stream, ending, k);
    if before.None? then None
    else
      var r := ReadReply(before.value.1, before.value.0, ending);
      if r.None? then None else Some(r.value.0)
  }

  /** Requests i up to j, one behind the other. */
  function Requests(request: seq<string>, i: nat, j: nat): seq<char>
    requires i <= j <= |request|
    decreases j
  {
    if i == j then [] else Requests(request, i, j - 1) + request[j - 1]
  }

  /** No other argument is saved under the same name. */
  ghost predicate OwnName(argv: seq<string>, i: nat)
    requires i < |argv|
  {
    forall j :: 0 <= j < |argv| && j != i ==> FileName(argv[j]) != FileName(argv[i])
  }

  /** Request i was completely sent on its connection, and answered by the reply that is due to it there. */
  ghost predicate Answered(request: seq<string>, conns: seq<Conn>, done: seq<Completed>, i: nat)
    requires i < |done| <= |request|
  {
    var d := done[i];
    d.conn < |conns| &&
    var c := conns[d.conn];
    && c.first <= i
    && ReplyAt(c.stream, c.ending, i - c.first) == Some(d.reply)
    && i < d.out <= |request| && Requests(request, c.first, d.out) <= c.sent
  }

  /** Where the connection was in pipelined mode before, all requests were out when this reply was read. */
  predicate Ahead(request: seq<string>, done: seq<Completed>, i: nat)
    requires i < |done|
  {
    i > 0 && done[i - 1].conn == done[i].conn && done[i - 1].reply.pipelined ==> done[i].out == |request|
  }

  ghost predicate AllAhead(request: seq<string>, done: seq<Completed>) {
    forall i {:trigger Ahead(request, done, i)} :: 0 <= i < |done| ==> Ahead(request, done, i)
  }

  /** The file of a request answered with 200 holds exactly the body. */
  ghost predicate Saved(argv: seq<string>, content: map<string, seq<char>>, done: seq<Completed>, i: nat)
    requires i < |done| <= |argv|
  {
    done[i].reply.status == 200 && OwnName(argv, i) ==>
      FileName(argv[i]) in content && content[FileName(argv[i])] == done[i].reply.body
  }

  /** Nothing but the requests from its first on was sent on a connection, in order. */
  ghost predicate SentInOrder(request: seq<string>, c: Conn) {
    c.first < |request| && c.sent <= Requests(request, c.first, |request|)
  }

  /** Each connection starts with a later request than the one before it. */
  ghost predicate Progressing(conns: seq<Conn>) {
    forall c, d :: 0 <= c < d < |conns| ==> conns[c].first < conns[d].first
  }

  /** So a run never opens more connections than there are requests. */
  lemma {:induction false} ConnectionsBounded(request: seq<string>, conns: seq<Conn>, k: nat)
    requires Progressing(conns) && forall c :: 0 <= c < |conns| ==> SentInOrder(request, conns[c])
    requires k <= |conns|
    ensures k < |conns| ==> k <= conns[k].first
    ensures k == |conns| ==> |conns| <= |request|
  {
    hide Requests;
    if k > 0 {
      ConnectionsBounded(request, conns, k - 1);
      assert SentInOrder(request, conns[k - 1]);
    }
  }

  /** No further reply can be expected on a connection behind this one. */
  predicate ClosesAfter(reply: Reply) {
    !Bodyless(reply.status) && !reply.pipelined && !reply.keepalive
  }

  /** What a run has achieved so far. */
  ghost predicate History(argv: seq<string>, request: seq<string>, content: map<string, seq<char>>,
                          conns: seq<Conn>, done: seq<Completed>)
    requires |done| <= |argv| == |request|
  {
    && (forall i {:trigger Answered(request, conns, done, i)} :: 0 <= i < |done| ==> Answered(request, conns, done, i))
    && (forall i {:trigger Saved(argv, content, done, i)} :: 0 <= i < |done| ==> Saved(argv, content, done, i))
    && Progressing(conns)
    && (forall c {:trigger SentInOrder(request, conns[c])} :: 0 <= c < |conns| ==> SentInOrder(request, conns[c]))
  }

  lemma HistoryBounds(argv: seq<string>, request: seq<string>, content: map<string, seq<char>>,
                      conns: seq<Conn>, done: seq<Completed>)
    requires |done| <= |argv| == |request| && History(argv, request, content, conns, done)
    ensures |conns| <= |request|
  {
    ConnectionsBounded(request, conns, |conns|);
  }

  lemma {:induction false} RequestsPrefix(request: seq<string>, i: nat, j: nat, k: nat)
    requires i <= j <= k <= |request|
    ensures Requests(request, i, j) <= Requests(request, i, k)
    decreases k
  {
    if j < k {
      RequestsPrefix(request, i, j, k - 1);
    }
  }

  /** An answered request stays answered when more is sent on the last connection. */
  lemma AnsweredLater(request: seq<string>, conns: seq<Conn>, done: seq<Completed>, sent: seq<char>, i: nat)
    requires i < |done| <= |request| && conns != [] && conns[|conns| - 1].sent <= sent
    requires Answered(request, conns, done, i)
    ensures Answered(request, conns[|conns| - 1 := conns[|conns| - 1].(sent := sent)], done, i)
  {
    hide ReplyAt, Requests;
  }

  /** Sending more on the last connection keeps the history. */
  lemma SentMore(argv: seq<string>, request: seq<string>, content: map<string, seq<char>>,
                 conns: seq<Conn>, done: seq<Completed>, sent: seq<char>)
    requires |done| <= |argv| == |request| && History(argv, request, content, conns, done) && conns != []
    requires conns[|conns| - 1].sent <= sent && SentInOrder(request, conns[|conns| - 1].(sent := sent))
    ensures History(argv, request, content, conns[|conns| - 1 := conns[|conns| - 1].(sent := sent)], done)
  {
    hide Answered, Saved;
    var last := conns[|conns| - 1];
    var conns' := conns[|conns| - 1 := last.(sent := sent)];
    forall i | 0 <= i < |done|
      ensures Answered(request, conns', done, i)
    {
      AnsweredLater(request, conns, done, sent, i);
    }
    forall c | 0 <= c < |conns'|
      ensures SentInOrder(request, conns'[c])
    {
      assert SentInOrder(request, conns[c]);
    }
  }

  /** The connection yields a first reply. */
  ghost predicate Replies(c: Conn) {
    ReplyAt(c.stream, c.ending, 0).Some?
  }

  /** Every argument has a file name. */
  predicate FileNames(argv: seq<string>) {
    forall i :: 0 <= i < |argv| ==> FileName(argv[i]) != ""
  }

  /** Where the client stands on its connection, and what stands in its buffers. */
  datatype View = View(first: nat, nres: nat, nreq: nat, reqbuf: Option<string>, reqbufpos: nat, pipelined: bool,
                       unread: Stream, sent: seq<char>, ending: Ending)

  ghost predicate InBounds(request: seq<string>, conns: seq<Conn>, v: View) {
    && conns != [] && conns[|conns| - 1].first == v.first <= v.nres <= v.nreq <= |request|
    && (v.reqbuf.Some? ==> v.nreq < |request| && v.reqbuf.value == request[v.nreq] && v.reqbufpos <= |v.reqbuf.value|)
  }

  function Partial(v: View): seq<char> {
    if v.reqbuf.Some? && v.reqbufpos <= |v.reqbuf.value| then v.reqbuf.value[..v.reqbufpos] else []
  }

  /** The connection in use is the last one; what was sent on it are the requests first..nreq-1 and the
      first part of request nreq; what is unread is what its first replies have left; the last reply came
      on it, in the mode it is in, or on an earlier one. */
  ghost predicate Tracks(request: seq<string>, conns: seq<Conn>, done: seq<Completed>, v: View)
    requires InBounds(request, conns, v)
  {
    var c := conns[|conns| - 1];
    && c.ending == v.ending && c.sent == v.sent
    && v.sent == Requests(request, v.first, v.nreq) + Partial(v)
    && AfterReplies(c.stream, c.ending, v.nres - v.first) == Some((v.unread, v.pipelined))
    && LastReply(conns, done, v)
  }

  ghost predicate LastReply(conns: seq<Conn>, done: seq<Completed>, v: View) {
    done != [] ==>
      var d := done[|done| - 1];
      if v.first < v.nres then d.conn == |conns| - 1 && d.reply.pipelined == v.pipelined else d.conn < |conns| - 1
  }

  /** What a run has achieved, and that it was sent ahead for where no send answered EAGAIN. */
  ghost predicate Recorded(argv: seq<string>, request: seq<string>, content: map<string, seq<char>>,
                           conns: seq<Conn>, done: seq<Completed>, willing: bool)
  {
    && |done| <= |argv| == |request| && History(argv, request, content, conns, done)
    && (willing ==> AllAhead(request, done))
  }

  function SentOn(conns: seq<Conn>, sent: seq<char>): seq<Conn>
    requires conns != []
  {
    conns[|conns| - 1 := conns[|conns| - 1].(sent := sent)]
  }

  /** The view after sending n more bytes. */
  function AfterSend(v: View, n: nat): View
    requires v.reqbuf.Some? && v.reqbufpos + n <= |v.reqbuf.value|
  {
    v.(reqbufpos := v.reqbufpos + n, sent := v.sent + v.reqbuf.value[v.reqbufpos..][..n])
  }

  lemma SendStep(argv: seq<string>, request: seq<string>, content: map<string, seq<char>>,
                 conns: seq<Conn>, done: seq<Completed>, willing: bool, v: View, n: nat)
    requires Recorded(argv, request, content, conns, done, willing)
    requires InBounds(request, conns, v) && Tracks(request, conns, done, v)
    requires v.reqbuf.Some? && v.reqbufpos + n <= |v.reqbuf.value|
    ensures var (v', conns') := (AfterSend(v, n), SentOn(conns, AfterSend(v, n).sent));
      && InBounds(request, conns', v') && Tracks(request, conns', done, v')
      && Recorded(argv, request, content, conns', done, willing)
  {
    hide History, AllAhead, AfterReplies, Requests, SentInOrder;
    SentGrows(request, conns[|conns| - 1], v.nreq, v.reqbufpos, n);
    SentMore(argv, request, content, conns, done, AfterSend(v, n).sent);
  }

  /** A request is out. */
  lemma WholeStep(request: seq<string>, conns: seq<Conn>, done: seq<Completed>, v: View)
    requires InBounds(request, conns, v) && Tracks(request, conns, done, v)
    requires v.reqbuf.Some? && v.reqbufpos == |v.reqbuf.value|
    ensures var v' := v.(reqbuf := None, nreq := v.nreq + 1);
      InBounds(request, conns, v') && Tracks(request, conns, done, v')
  {
    hide AfterReplies;
    assert v.reqbuf.value[..v.reqbufpos] == request[v.nreq];
    assert Requests(request, v.first, v.nreq + 1) == Requests(request, v.first, v.nreq) + request[v.nreq];
  }

  lemma MakeStep(request: seq<string>, conns: seq<Conn>, done: seq<Completed>, v: View)
    requires InBounds(request, conns, v) && Tracks(request, conns, done, v) && v.reqbuf.None? && v.nreq < |request|
    ensures var v' := v.(reqbuf := Some(request[v.nreq]), reqbufpos := 0);
      InBounds(request, conns, v') && Tracks(request, conns, done, v')
  {
    hide AfterReplies, Requests;
    assert request[v.nreq][..0] == [];
  }

  lemma OpenStep(argv: seq<string>, request: seq<string>, content: map<string, seq<char>>,
                 conns: seq<Conn>, done: seq<Completed>, willing: bool, stream: Stream, ending: Ending, pos: nat)
    requires Recorded(argv, request, content, conns, done, willing) && |done| < |argv|
    requires conns != [] ==> conns[|conns| - 1].first < |done|
    ensures var v' := View(|done|, |done|, |done|, None, pos, false, stream, [], ending);
      var conns' := conns + [Conn(|done|, stream, ending, [])];
      && InBounds(request, conns', v') && Tracks(request, conns', done, v')
      && Recorded(argv, request, content, conns', done, willing)
  {
    hide History, AllAhead, ReplyAt;
    LastAnswered(argv, request, content, conns, done);
    NewConnection(argv, request, content, conns, done, Conn(|done|, stream, ending, []));
  }

  /** The reply due is read, and counted. */
  lemma ReplyStep(argv: seq<string>, request: seq<string>, before: map<string, seq<char>>, content: map<string, seq<char>>,
                  conns: seq<Conn>, done: seq<Completed>, willing: bool, v: View, reply: Reply, unread: Stream)
    requires Recorded(argv, request, before, conns, done, willing)
    requires InBounds(request, conns, v) && Tracks(request, conns, done, v) && v.nres == |done| < v.nreq
    requires willing && v.pipelined ==> v.nreq == |request|
    requires ReadReply(v.pipelined, v.unread, v.ending) == Some((reply, unread))
    requires forall f :: f in before && f != FileName(argv[|done|]) ==> f in content && content[f] == before[f]
    requires reply.status == 200 ==> FileName(argv[|done|]) in content && content[FileName(argv[|done|])] == reply.body
    ensures var v' := v.(nres := v.nres + 1, pipelined := reply.pipelined, unread := unread);
      var done' := done + [Completed(|conns| - 1, reply, v.nreq)];
      && InBounds(request, conns, v') && Tracks(request, conns, done', v')
      && Recorded(argv, request, content, conns, done', willing)
  {
    hide History, ReadReply, ReplyAt, AfterReplies, Requests, Answered, Saved, AllAhead;
    var c, d := conns[|conns| - 1], Completed(|conns| - 1, reply, v.nreq);
    FilesKept(argv, request, before, content, conns, done);
    NextReply(c.stream, c.ending, v.nres - v.first, v.unread, v.pipelined);
    RequestsOut(request, v.first, v.nreq, v.sent, Partial(v));
    NewlyAnswered(argv, request, content, conns, done, d);
    OneMore(argv, request, content, conns, done, d);
    if willing {
      OneMoreAhead(request, done, d, v.first < v.nres && v.pipelined);
    }
  }

  /** No reply is read. */
  lemma LostStep(argv: seq<string>, request: seq<string>, before: map<string, seq<char>>, content: map<string, seq<char>>,
                 conns: seq<Conn>, done: seq<Completed>, willing: bool, v: View)
    requires Recorded(argv, request, before, conns, done, willing) && |done| < |argv|
    requires InBounds(request, conns, v) && Tracks(request, conns, done, v)
    requires forall f :: f in before && f != FileName(argv[|done|]) ==> f in content && content[f] == before[f]
    ensures Recorded(argv, request, content, conns, done, willing)
    ensures var c := conns[|conns| - 1];
      ReadReply(v.pipelined, v.unread, v.ending).None? ==> ReplyAt(c.stream, c.ending, v.nres - v.first).None?
  {
    hide History, ReadReply, ReplyAt, AfterReplies, Requests, AllAhead;
    var c := conns[|conns| - 1];
    FilesKept(argv, request, before, content, conns, done);
    NextReply(c.stream, c.ending, v.nres - v.first, v.unread, v.pipelined);
  }

  class Client {
    const argv: seq<string>
    const request: seq<string>
    const addresses: nat
    const reliable: bool
    const willing: bool
    const files: Files
    const b: Buffer
    var sd: Socket?
    var res: nat
    var nreq: nat
    var nres: nat
    var firstreq: nat
    var pipelined: bool
    var reqbuf: Option<string>
    var reqbufpos: nat
    ghost var conns: seq<Conn>
    ghost var done: seq<Completed>
    ghost var tried: seq<nat>

    ghost function Repr(): set<object>
      reads this
    {
      {this, b, b.data, files} + if sd == null then {} else {sd}
    }

    ghost function Look(): View
      requires sd != null && b.Valid()
      reads this, b, b.data, sd
    {
      View(firstreq, nres, nreq, reqbuf, reqbufpos, pipelined, b.Unread(sd), sd.sent, sd.ending)
    }

    ghost predicate Connected()
      reads Repr()
    {
      && sd != null && b.Valid() && sd.reliable == reliable && sd.willing == willing
      && InBounds(request, conns, Look()) && Tracks(request, conns, done, Look())
    }

    /** Addresses are tried in turn, from the first one on. */
    ghost predicate TriedInTurn()
      reads this
    {
      |tried| == res && forall k :: 0 <= k < |tried| ==> tried[k] == k
    }

    ghost predicate Disconnected()
      reads Repr()
    {
      && sd == null && reqbuf.None? && nreq == nres && !pipelined && res == 0
      && b.Valid() && b.pos == b.len == 0
      && (conns != [] ==> conns[|conns| - 1].first < nres)
    }

    ghost predicate Valid()
      reads Repr()
    {
      && |argv| == |request| && nres == |done| <= nreq <= |argv| && files.reliable == reliable && TriedInTurn()
      && (sd != null ==> Connected())
      && (sd == null ==> Disconnected())
      && Recorded(argv, request, files.content, conns, done, willing)
    }

    /** Where the surroundings are reliable, connecting, sending and writing do not fail; streams may
        still break off anywhere. Where they are willing, no send answers EAGAIN. */
    constructor (argv: seq<string>, request: seq<string>, addresses: nat, reliable: bool, willing: bool)
      requires |argv| == |request|
      ensures Valid() && sd == null && nres == 0 && fresh(Repr())
      ensures this.argv == argv && this.request == request && this.addresses == addresses
      ensures this.reliable == reliable && this.willing == willing
    {
      this.argv, this.request, this.addresses, this.reliable, this.willing := argv, request, addresses, reliable, willing;
      files := new Files(reliable);
      b := new Buffer();
      sd, res, nreq, nres, firstreq, pipelined, reqbuf, reqbufpos := null, 0, 0, 0, 0, false, None, 0;
      conns, done, tried := [], [], [];
    }

    /** One send of the rest of the request buffer. */
    method SendSome(nonblocking: bool) returns (died: bool, again: bool)
      requires Valid() && sd != null && reqbuf.Some? && reqbufpos < |reqbuf.value|
      modifies this`reqbufpos, this`conns, sd`sent, sd`refusals
      ensures Valid() && |conns| == old(|conns|)
      ensures died ==> reqbufpos == old(reqbufpos)
      ensures !died ==> reqbufpos > old(reqbufpos)
      ensures again ==> died && nonblocking && !willing
      ensures sd.refusals == old(sd.refusals) + if again then 1 else 0
      ensures died && !again ==> !reliable
    {
      hide Recorded, Tracks;
      ghost var v := Look();
      var n;
      n, again := sd.Send(reqbuf.value[reqbufpos..], nonblocking);
      died := n == -1;
      if !died {
        SendStep(argv, request, files.content, conns, done, willing, v, n);
        reqbufpos := reqbufpos + n;
        conns := SentOn(conns, sd.sent);
        assert Look() == AfterSend(v, n);
      } else {
        assert Look() == v;
      }
    }

    /** A request is out: free(reqbuf), reqbuf = NULL, nreq++. */
    method RequestSent()
      requires Valid() && sd != null && reqbuf.Some? && reqbufpos == |reqbuf.value|
      modifies this`reqbuf, this`nreq
      ensures Valid() && reqbuf.None? && nreq == old(nreq) + 1
    {
      hide Recorded, Tracks;
      WholeStep(request, conns, done, Look());
      reqbuf := None;
      nreq := nreq + 1;
    }

    /** makerequest. */
    method MakeRequest()
      requires Valid() && sd != null && reqbuf.None? && nreq < |argv|
      modifies this`reqbuf, this`reqbufpos
      ensures Valid() && reqbuf.Some? && reqbufpos == 0
    {
      hide Recorded, Tracks;
      MakeStep(request, conns, done, Look());
      reqbuf, reqbufpos := Some(request[nreq]), 0;
    }

    /** Constructing requests, and in pipelined mode sending them without blocking. */
    method SendAhead() returns (died: bool)
      requires Valid() && sd != null
      modifies this`reqbuf, this`reqbufpos, this`nreq, this`conns, sd`sent, sd`refusals
      ensures Valid() && |conns| == old(|conns|)
      ensures died ==> !reliable
      ensures !died ==> nreq == |argv| || reqbuf.Some?
      ensures !died && pipelined && sd.refusals == old(sd.refusals) ==> nreq == |argv|
      ensures willing ==> sd.refusals == old(sd.refusals)
      ensures !pipelined ==> !died && nreq == old(nreq) && sd.sent == old(sd.sent)
    {
      hide Recorded, Tracks;
      while nreq < |argv| && (reqbuf.None? || pipelined)
        invariant Valid() && |conns| == old(|conns|)
        invariant !pipelined ==> nreq == old(nreq) && sd.sent == old(sd.sent)
        invariant sd.refusals == old(sd.refusals)
        decreases |argv| - nreq, reqbuf.None?
      {
        if reqbuf.None? {
          MakeRequest();
        }
        if pipelined {
          ghost var n := nreq;
          var failed, again := false, false;
          while reqbufpos < |reqbuf.value| && !failed
            invariant Valid() && |conns| == old(|conns|) && reqbuf.Some? && nreq == n < |argv|
            invariant failed ==> reqbufpos < |reqbuf.value| && (again || !reliable)
            invariant again ==> failed && !willing
            invariant sd.refusals == old(sd.refusals) + if again then 1 else 0
            decreases |reqbuf.value| - reqbufpos, !failed
          {
            failed, again := SendSome(true);
          }
          if failed {
            if !again {
              return true;
            }
            break;
          }
          RequestSent();
        }
      }
      return false;
    }

    /** Sending a request that has to go out before anything can be received. */
    method SendBlocking() returns (died: bool)
      requires Valid() && sd != null && reqbuf.Some?
      modifies this`reqbuf, this`reqbufpos, this`nreq, this`conns, sd`sent, sd`refusals
      ensures Valid() && |conns| == old(|conns|)
      ensures died ==> !reliable
      ensures !died ==> nreq == old(nreq) + 1
      ensures sd.refusals == old(sd.refusals)
    {
      hide Recorded, Tracks;
      while reqbufpos < |reqbuf.value|
        invariant Valid() && |conns| == old(|conns|) && reqbuf == old(reqbuf) && nreq == old(nreq)
        invariant sd.refusals == old(sd.refusals)
      {
        var failed, _ := SendSome(false);
        if failed {
          return true;
        }
      }
      RequestSent();
      return false;
    }

    /** socket and connect. */
    method TryAddress(address: nat) returns (connected: bool)
      modifies this`tried
      ensures tried == old(tried) + [address]
      ensures reliable ==> connected
    {
      connected :| reliable ==> connected;
      tried := tried + [address];
    }

    /** Trying the addresses left; a connection gets the requests from nres on. */
    method Connect() returns (ok: bool)
      requires Valid() && sd == null && nres < |argv|
      modifies this`sd, this`res, this`firstreq, this`conns, this`tried
      ensures ok ==> Valid() && sd != null && fresh(sd) && firstreq == nres && |conns| == old(|conns|) + 1
      ensures !ok ==> sd == null && conns == old(conns)
      ensures if ok then res > old(res) else res >= addresses
      ensures TriedInTurn()
      ensures !ok ==> !reliable || old(res) >= addresses
    {
      hide Recorded, Tracks;
      var connected := false;
      while !connected
        invariant sd == null && conns == old(conns) && res >= old(res) && (connected ==> res > old(res))
        invariant TriedInTurn() && (reliable ==> connected || res == old(res))
        decreases addresses - res, !connected
      {
        if res >= addresses {
          return false;
        }
        connected := TryAddress(res);
        res := res + 1;
      }
      var stream: Stream :| |stream| >= 0;
      var interrupts: nat :| interrupts >= 0;
      var ending: Ending :| ending == Closed || ending == Broken;
      sd := new Socket(stream, interrupts, ending, reliable, willing);
      firstreq := nres;
      OpenStep(argv, request, files.content, conns, done, willing, stream, ending, reqbufpos);
      conns := conns + [Conn(nres, stream, ending, [])];
      assert b.data[b.pos..b.len] == [] && b.Unread(sd) == stream;
      return true;
    }

    /** Receiving the reply to request nres, which has been sent. */
    method ReceiveOne() returns (r: Received)
      requires Valid() && sd != null && nres < nreq && (willing && pipelined ==> nreq == |argv|)
      modifies this`nres, this`pipelined, this`done, b, b.data, files, sd`incoming, sd`interrupts
      ensures r.Got? ==> Valid() && nres == old(nres) + 1
      ensures r.Got? ==> done == old(done) + [done[old(nres)]] && pipelined == r.pipelined
      ensures r.Got? ==> var reply := done[old(nres)].reply;
        reply.status == r.status && reply.pipelined == r.pipelined && reply.keepalive == r.keepalive
      ensures !r.Got? ==> nres == old(nres) && done == old(done) && b.Valid()
      ensures !r.Got? ==> |done| == nres && Recorded(argv, request, files.content, conns, done, willing)
      ensures r.Lost? && nres >= firstreq && conns != [] ==>
        ReplyAt(conns[|conns| - 1].stream, conns[|conns| - 1].ending, nres - firstreq).None?
      ensures r.Stopped? ==> r.why == NoFileName || ((r.why == OpenFailed || r.why == WriteError) && !reliable)
      ensures r.Stopped? && r.why == NoFileName ==> FileName(argv[nres]) == ""
    {
      hide Recorded, Tracks, ReadReply, ReplyAt;
      ghost var v, before, body := Look(), files.content, [];
      r, body := ReceiveReply(sd, b, files, argv[nres], pipelined);
      if r.Got? {
        ReplyStep(argv, request, before, files.content, conns, done, willing, v, r.WithBody(body), b.Unread(sd));
        done := done + [Completed(|conns| - 1, r.WithBody(body), nreq)];
        nres := nres + 1;
        pipelined := r.pipelined;
      } else {
        LostStep(argv, request, before, files.content, conns, done, willing, v);
      }
    }

    /** cleanupconn. */
    method Cleanup()
      requires |argv| == |request| && nres == |done| <= |argv| && b.Valid() && files.reliable == reliable
      requires conns != [] && conns[|conns| - 1].first < nres && Recorded(argv, request, files.content, conns, done, willing)
      modifies this`sd, this`res, this`nreq, this`pipelined, this`reqbuf, this`tried, b
      ensures Valid() && sd == null
    {
      hide Recorded;
      sd, res, nreq, pipelined, reqbuf, tried := null, 0, nres, false, None, [];
      b.pos, b.len := 0, 0;
    }

    /** Everything one round of the main loop sends. */
    method SendRound() returns (died: bool)
      requires Valid() && sd != null && nres < |argv|
      modifies this`reqbuf, this`reqbufpos, this`nreq, this`conns, sd`sent, sd`refusals
      ensures Valid() && |conns| == old(|conns|)
      ensures died ==> !reliable
      ensures !died ==> nres < nreq
      ensures !died && pipelined && sd.refusals == old(sd.refusals) ==> nreq == |argv|
      ensures !died && pipelined && willing ==> nreq == |argv|
      ensures !died && !pipelined ==> nreq == if old(nreq) == nres then nres + 1 else old(nreq)
    {
      hide Recorded, Connected;
      died := SendAhead();
      if !died && nres == nreq {
        died := SendBlocking();
      }
    }

    /** What the program stops for: surroundings that fail, an argument without a file name, or a
        connection that yields no reply. */
    ghost predicate StopExplained(why: Exit)
      reads this
    {
      match why
      case NoFileName => nres < |argv| && FileName(argv[nres]) == ""
      case OpenFailed => !reliable
      case WriteError => !reliable
      case NoAddress => !reliable || addresses == 0
      case ConnectionFailure => !reliable || (conns != [] && !Replies(conns[|conns| - 1]))
    }

    lemma NoAddressExplained()
      requires !reliable || addresses == 0
      ensures StopExplained(NoAddress)
    {
    }

    /** What a round does with a connection. One that dies before its first reply stops the program;
        otherwise a reply is completed, or the connection is given up. */
    method Exchange() returns (stop: Option<Exit>)
      requires Valid() && sd != null && nres < |argv|
      modifies Repr()
      ensures sd != null ==> sd == old(sd)
      ensures stop.None? ==> Valid() && (sd != null ==> firstreq < nres)
      ensures stop.None? ==> nres == old(nres) + 1 || (nres == old(nres) > old(firstreq) && sd == null)
      ensures stop.None? && nres == old(nres) + 1 ==> |done| == nres && (sd == null <==> ClosesAfter(done[old(nres)].reply))
      ensures stop.Some? ==> nres == |done| == old(nres) && Recorded(argv, request, files.content, conns, done, willing)
      ensures stop == Some(ConnectionFailure) ==> conns != [] && conns[|conns| - 1].first == nres
      ensures stop.Some? ==> StopExplained(stop.value)
    {
      hide Recorded, Tracks, ReplyAt;
      var died := SendRound();
      if !died {
        var r := ReceiveOne();
        if r.Stopped? {
          return Some(r.why);
        }
        if r.Got? {
          if !Bodyless(r.status) && !r.pipelined && !r.keepalive {
            Cleanup();
          }
          return None;
        }
      }
      if nres == firstreq {
        return Some(ConnectionFailure);
      }
      Cleanup();
      return None;
    }

    /** One round of the main loop, on the connection there is or a new one. */
    method Round() returns (stop: Option<Exit>)
      requires Valid() && nres < |argv| && (sd != null ==> firstreq < nres)
      modifies Repr()
      ensures sd != null ==> sd == old(sd) || fresh(sd)
      ensures stop.None? ==> Valid() && (sd != null ==> firstreq < nres)
      ensures stop.None? ==> nres == old(nres) + 1 || (nres == old(nres) && old(sd) != null && sd == null)
      ensures stop.None? && nres == old(nres) + 1 ==> |done| == nres && (sd == null <==> ClosesAfter(done[old(nres)].reply))
      ensures stop.Some? ==> nres == |done| == old(nres) && Recorded(argv, request, files.content, conns, done, willing)
      ensures stop == Some(ConnectionFailure) ==> conns != [] && conns[|conns| - 1].first == nres
      ensures stop.Some? ==> StopExplained(stop.value)
    {
      hide Recorded, Connected, StopExplained, ClosesAfter;
      if sd == null {
        var ok := Connect();
        if !ok {
          NoAddressExplained();
          return Some(NoAddress);
        }
      }
      stop := Exchange();
    }

    /** main, from the lookup on. */
    method Run() returns (stop: Option<Exit>)
      requires Valid() && sd == null
      modifies Repr()
      ensures |done| == nres <= |argv| == |request| && History(argv, request, files.content, conns, done)
      ensures willing ==> AllAhead(request, done)
      ensures stop.None? ==> nres == |argv|
      ensures stop == Some(ConnectionFailure) ==> conns != [] && conns[|conns| - 1].first == nres
      ensures |conns| <= |argv|
      ensures reliable && addresses > 0 && FileNames(argv) && (forall c :: 0 <= c < |conns| ==> Replies(conns[c])) ==>
        stop.None? && |done| == |argv|
    {
      hide History, AllAhead, Connected, Disconnected;
      while nres < |argv|
        invariant Valid() && (sd != null ==> fresh(sd) && firstreq < nres)
        decreases |argv| - nres, sd != null
      {
        stop := Round();
        if stop.Some? {
          HistoryBounds(argv, request, files.content, conns, done);
          return;
        }
      }
      HistoryBounds(argv, request, files.content, conns, done);
      return None;
    }
  }

  /** Writing the file of request n leaves the files of earlier requests with names of their own alone. */
  lemma FilesKept(argv: seq<string>, request: seq<string>, before: map<string, seq<char>>, after: map<string, seq<char>>,
                  conns: seq<Conn>, done: seq<Completed>)
    requires |done| < |argv| == |request| && History(argv, request, before, conns, done)
    requires forall f :: f in before && f != FileName(argv[|done|]) ==> f in after && after[f] == before[f]
    ensures History(argv, request, after, conns, done)
  {
    hide Answered, Progressing, SentInOrder;
    forall i | 0 <= i < |done|
      ensures Saved(argv, after, done, i)
    {
      assert Saved(argv, before, done, i);
    }
  }

  /** A completed reply joins the history. */
  lemma OneMore(argv: seq<string>, request: seq<string>, content: map<string, seq<char>>,
                conns: seq<Conn>, done: seq<Completed>, d: Completed)
    requires |done| < |argv| == |request| && History(argv, request, content, conns, done)
    requires Answered(request, conns, done + [d], |done|) && Saved(argv, content, done + [d], |done|)
    ensures History(argv, request, content, conns, done + [d])
  {
    hide Answered, Saved, SentInOrder, Progressing;
    forall i | 0 <= i < |done|
      ensures Answered(request, conns, done + [d], i) && Saved(argv, content, done + [d], i)
    {
      StillAnswered(argv, request, content, conns, done, d, i);
    }
  }

  lemma StillAnswered(argv: seq<string>, request: seq<string>, content: map<string, seq<char>>,
                      conns: seq<Conn>, done: seq<Completed>, d: Completed, i: nat)
    requires i < |done| < |argv| == |request| && Answered(request, conns, done, i) && Saved(argv, content, done, i)
    ensures Answered(request, conns, done + [d], i) && Saved(argv, content, done + [d], i)
  {
    hide ReplyAt, Requests, OwnName;
    assert (done + [d])[i] == done[i];
  }

  lemma NewlyAnswered(argv: seq<string>, request: seq<string>, content: map<string, seq<char>>,
                      conns: seq<Conn>, done: seq<Completed>, d: Completed)
    requires |done| < |argv| == |request| && d.conn < |conns|
    requires var c := conns[d.conn];
      && c.first <= |done| && ReplyAt(c.stream, c.ending, |done| - c.first) == Some(d.reply)
      && |done| < d.out <= |request| && Requests(request, c.first, d.out) <= c.sent
    requires d.reply.status == 200 ==> FileName(argv[|done|]) in content && content[FileName(argv[|done|])] == d.reply.body
    ensures Answered(request, conns, done + [d], |done|) && Saved(argv, content, done + [d], |done|)
  {
    hide ReplyAt, Requests, OwnName;
    assert (done + [d])[|done|] == d;
  }

  /** Reading one more reply of a connection. */
  lemma NextReply(stream: Stream, ending: Ending, k: nat, unread: Stream, pipelined: bool)
    requires AfterReplies(stream, ending, k) == Some((unread, pipelined))
    ensures var r := ReadReply(pipelined, unread, ending);
      && ReplyAt(stream, ending, k) == (if r.None? then None else Some(r.value.0))
      && AfterReplies(stream, ending, k + 1) == (if r.None? then None else Some((r.value.1, r.value.0.pipelined)))
  {
    hide ReadReply;
  }

  lemma RequestsOut(request: seq<string>, first: nat, nreq: nat, sent: seq<char>, part: seq<char>)
    requires first <= nreq <= |request| && sent == Requests(request, first, nreq) + part
    ensures Requests(request, first, nreq) <= sent
  {
  }

  /** A reply joins the order of sending ahead. */
  lemma OneMoreAhead(request: seq<string>, done: seq<Completed>, d: Completed, second: bool)
    requires AllAhead(request, done) && (second ==> d.out == |request|)
    requires done != [] && done[|done| - 1].conn == d.conn && done[|done| - 1].reply.pipelined ==> second
    ensures AllAhead(request, done + [d])
  {
    forall i | 0 <= i < |done + [d]|
      ensures Ahead(request, done + [d], i)
    {
      if i < |done| {
        assert Ahead(request, done, i);
      }
    }
  }

  lemma LastAnswered(argv: seq<string>, request: seq<string>, content: map<string, seq<char>>,
                     conns: seq<Conn>, done: seq<Completed>)
    requires |done| <= |argv| == |request| && History(argv, request, content, conns, done)
    ensures done != [] ==> done[|done| - 1].conn < |conns|
  {
    hide ReplyAt, Requests, Saved;
    assert done != [] ==> Answered(request, conns, done, |done| - 1);
  }

  lemma AnsweredBefore(request: seq<string>, conns: seq<Conn>, done: seq<Completed>, c: Conn, i: nat)
    requires i < |done| <= |request| && Answered(request, conns, done, i)
    ensures Answered(request, conns + [c], done, i)
  {
    hide ReplyAt, Requests;
  }

  lemma NewConnection(argv: seq<string>, request: seq<string>, content: map<string, seq<char>>,
                      conns: seq<Conn>, done: seq<Completed>, c: Conn)
    requires |done| < |argv| == |request| && History(argv, request, content, conns, done)
    requires c.first == |done| && c.sent == [] && (conns != [] ==> conns[|conns| - 1].first < |done|)
    ensures History(argv, request, content, conns + [c], done)
  {
    hide Answered, Saved, Requests;
    forall i | 0 <= i < |done|
      ensures Answered(request, conns + [c], done, i)
    {
      AnsweredBefore(request, conns, done, c, i);
    }
    forall k | 0 <= k < |conns + [c]|
      ensures SentInOrder(request, (conns + [c])[k])
    {
      assert k < |conns| ==> SentInOrder(request, conns[k]);
    }
  }

  /** Sending more of a request keeps to the order. */
  lemma SentGrows(request: seq<string>, c: Conn, nreq: nat, pos: nat, n: nat)
    requires c.first <= nreq < |request| && pos + n <= |request[nreq]|
    requires c.sent == Requests(request, c.first, nreq) + request[nreq][..pos]
    ensures var sent := c.sent + request[nreq][pos..][..n];
      && sent == Requests(request, c.first, nreq) + request[nreq][..pos + n]
      && c.sent <= sent && SentInOrder(request, c.(sent := sent))
  {
    hide Requests;
    assert request[nreq][..pos] + request[nreq][pos..][..n] == request[nreq][..pos + n];
    WithinRequests(request, c.first, nreq, pos + n);
  }

  lemma WithinRequests(request: seq<string>, i: nat, j: nat, pos: nat)
    requires i <= j < |request| && pos <= |request[j]|
    ensures Requests(request, i, j) + request[j][..pos] <= Requests(request, i, |request|)
  {
    RequestsPrefix(request, i, j + 1, |request|);
    assert Requests(request, i, j + 1) == Requests(request, i, j) + request[j];
  }
}
