/** forkfd on DragonFly: waiting for a child through the event queue that watches it. */
module ForkWait {
  import opened Options

  /** What is reported about a dead child. */
  datatype Info = Info(code: int, status: int)

  /** A child posts its exit event while exiting, and can be collected once it is a zombie. */
  datatype Life = Alive | Exiting(info: Info) | Zombie(info: Info) | Reaped {
    predicate Dead() {
      Exiting? || Zombie?
    }
  }

  datatype Filter = Proc | User

  /** A pending event: both kinds are one-shot, and name the process they are about. */
  datatype Event = Event(filter: Filter, ident: int)

  /** The watched child, and the queue behind the descriptor. */
  datatype Watch = Watch(pid: int, nonblock: bool, events: seq<Event>, child: Life)

  datatype Flags = Flags(nohang: bool, nowait: bool)

  datatype Errno = EINTR | ECHILD | EWOULDBLOCK

  datatype Outcome = Ok(info: Info) | Error(errno: Errno)

  // ---------- One wait ----------

  /** The kernel's side of an exit: NOTE_EXIT fires. */
  function Exited(w: Watch, info: Info): Watch {
    if w.child.Alive? then w.(child := Exiting(info), events := w.events + [Event(Proc, w.pid)]) else w
  }

  /** waitid with WNOWAIT, or wait4 without: both sleep while the child is still exiting, and a signal
      may end that sleep. */
  function Collect(w: Watch, pid: int, keep: bool, signalled: bool): (Watch, Outcome) {
    if pid != w.pid || w.child.Reaped? then (w, Error(ECHILD))
    else if w.child.Alive? || (w.child.Exiting? && signalled) then (w, Error(EINTR))
    else (w.(child := if keep then Zombie(w.child.info) else Reaped), Ok(w.child.info))
  }

  /** EV_ADD with NOTE_TRIGGER: an event that is there already is not added twice. */
  function Rearm(w: Watch, pid: int): Watch {
    if Event(User, pid) in w.events then w else w.(events := w.events + [Event(User, pid)])
  }

  /** A wait that finds the queue as it is. With nothing there it returns at once or is interrupted. */
  function Wait(w: Watch, o: Flags, signalled: bool): (Watch, Outcome) {
    if w.events == [] then (w, Error(if o.nohang || w.nonblock then EWOULDBLOCK else EINTR))
    else
      var pid := w.events[0].ident;
      var (after, outcome) := Collect(w.(events := w.events[1..]), pid, o.nowait, signalled);
      (if o.nowait then Rearm(after, pid) else after, outcome)
  }

  /** Exactly one pending event, which names the child, while it is dead and not reaped; else none. */
  predicate Sound(w: Watch) {
    if w.child.Dead() then |w.events| == 1 && w.events[0].ident == w.pid else w.events == []
  }

  // ---------- Whole histories ----------

  /** What can happen to a watched child. */
  datatype Op = Exit(info: Info) | Settle | ReapedElsewhere | Waiting(flags: Flags, signalled: bool)

  function Do(w: Watch, op: Op): (Watch, Option<Outcome>) {
    match op
    case Exit(info) => (Exited(w, info), None)
    case Settle => (if w.child.Exiting? then w.(child := Zombie(w.child.info)) else w, None)
    case ReapedElsewhere => (if w.child.Dead() then w.(child := Reaped) else w, None)
    case Waiting(o, signalled) => var (after, outcome) := Wait(w, o, signalled); (after, Some(outcome))
  }

  /** The outcomes of a history, one for each step. */
  function Play(w: Watch, ops: seq<Op>): (outcomes: seq<Option<Outcome>>)
    ensures |outcomes| == |ops|
    decreases |ops|
  {
    if ops == [] then [] else [Do(w, ops[0]).1] + Play(Do(w, ops[0]).0, ops[1..])
  }

  /** What waiting is meant to be, without any queue: a dead child is reported until it is reaped. */
  function Ideal(child: Life, nonblock: bool, op: Op): (Life, Option<Outcome>) {
    match op
    case Exit(info) => (if child.Alive? then Exiting(info) else child, None)
    case Settle => (if child.Exiting? then Zombie(child.info) else child, None)
    case ReapedElsewhere => (if child.Dead() then Reaped else child, None)
    case Waiting(o, signalled) =>
      if !child.Dead() then (child, Some(Error(if o.nohang || nonblock then EWOULDBLOCK else EINTR)))
      else if child.Exiting? && signalled then (child, Some(Error(EINTR)))
      else (if o.nowait then Zombie(child.info) else Reaped, Some(Ok(child.info)))
  }

  function IdealPlay(child: Life, nonblock: bool, ops: seq<Op>): (outcomes: seq<Option<Outcome>>)
    ensures |outcomes| == |ops|
    decreases |ops|
  {
    if ops == [] then []
    else [Ideal(child, nonblock, ops[0]).1] + IdealPlay(Ideal(child, nonblock, ops[0]).0, nonblock, ops[1..])
  }

  /** A step that takes the child, or the event that names it, away from later waits. */
  predicate Disturbs(child: Life, op: Op) {
    match op
    case Waiting(o, signalled) => child.Exiting? && signalled && !o.nowait
    case ReapedElsewhere => child.Dead()
    case _ => false
  }

  /** No reaping wait is interrupted in its sleep, and nobody else reaps the child. */
  predicate Smooth(child: Life, nonblock: bool, ops: seq<Op>)
    decreases |ops|
  {
    ops == [] ||
    (&& !Disturbs(child, ops[0])
     && Smooth(Ideal(child, nonblock, ops[0]).0, nonblock, ops[1..]))
  }

  /** Every step but these keeps the queue sound, and then does what the ideal does. */
  lemma StepIsIdeal(w: Watch, op: Op)
    requires Sound(w)
    ensures Sound(Do(w, op).0) <==> !Disturbs(w.child, op)
    ensures !Disturbs(w.child, op) ==> (Do(w, op).0.child, Do(w, op).1) == Ideal(w.child, w.nonblock, op)
    ensures Do(w, op).0.pid == w.pid && Do(w, op).0.nonblock == w.nonblock
  {
  }

  /** The queue, its one-shot events and the re-arming together are no more than the ideal. */
  lemma {:induction false} WaitsAreIdeal(w: Watch, ops: seq<Op>)
    requires Sound(w) && Smooth(w.child, w.nonblock, ops)
    ensures Play(w, ops) == IdealPlay(w.child, w.nonblock, ops)
    decreases |ops|
  {
    hide Do, Ideal, Sound, Disturbs;
    if ops != [] {
      StepIsIdeal(w, ops[0]);
      WaitsAreIdeal(Do(w, ops[0]).0, ops[1..]);
    }
  }

  /** Once a reaping wait has been interrupted in its sleep, no wait ever reports the child again,
      although it has not been reaped. */
  lemma InterruptedReapLoses(w: Watch, o: Flags, ops: seq<Op>, k: nat)
    requires Sound(w) && w.child.Exiting? && !o.nowait && k < |ops|
    ensures var (after, outcome) := Wait(w, o, true);
      && outcome == Error(EINTR) && after.child == w.child
      && Play(after, ops)[k] != Some(Ok(w.child.info)) && (Play(after, ops)[k].Some? ==> Play(after, ops)[k].value.Error?)
  {
    NothingLeft(Wait(w, o, true).0, ops, k);
  }

  lemma {:induction false} NothingLeft(w: Watch, ops: seq<Op>, k: nat)
    requires w.events == [] && !w.child.Alive? && k < |ops|
    ensures Play(w, ops)[k].Some? ==> Play(w, ops)[k].value.Error?
    decreases |ops|
  {
    if k > 0 {
      NothingLeft(Do(w, ops[0]).0, ops[1..], k - 1);
    }
  }

  const PEEK := Waiting(Flags(true, true), false)

  /** Whether a peek behind the first k steps tells the queue from the ideal. */
  predicate Differs(w: Watch, child: Life, ops: seq<Op>, k: nat)
    requires k <= |ops|
  {
    Play(w, ops[..k] + [PEEK])[k] != IdealPlay(child, w.nonblock, ops[..k] + [PEEK])[k]
  }

  lemma DiffersLater(w: Watch, ops: seq<Op>, k: nat)
    requires k < |ops| && Do(w, ops[0]).0.nonblock == w.nonblock
    ensures Differs(w, w.child, ops, k + 1) <==> Differs(Do(w, ops[0]).0, Ideal(w.child, w.nonblock, ops[0]).0, ops[1..], k)
  {
    hide Do, Ideal;
    var longer := ops[..k + 1] + [PEEK];
    assert longer[0] == ops[0] && longer[1..] == ops[1..][..k] + [PEEK];
  }

  lemma DisturbanceShows(w: Watch, op: Op, ops: seq<Op>)
    requires Sound(w) && Disturbs(w.child, op)
    ensures Differs(Do(w, op).0, Ideal(w.child, w.nonblock, op).0, ops, 0)
  {
    assert ops[..0] + [PEEK] == [PEEK];
  }

  /** And exactly then: in any other history a peek right behind the first disturbance shows it. */
  lemma {:induction false} IdealExactlyIfSmooth(w: Watch, ops: seq<Op>)
    requires Sound(w)
    ensures Smooth(w.child, w.nonblock, ops) <==> forall k :: 0 <= k <= |ops| ==> !Differs(w, w.child, ops, k)
    decreases |ops|
  {
    hide Do, Ideal, Sound, Disturbs, Differs;
    if Smooth(w.child, w.nonblock, ops) {
      forall k | 0 <= k <= |ops|
        ensures !Differs(w, w.child, ops, k)
      {
        SmoothPeek(w, ops, k);
      }
    } else {
      StepIsIdeal(w, ops[0]);
      var w' := Do(w, ops[0]).0;
      if Disturbs(w.child, ops[0]) {
        DisturbanceShows(w, ops[0], ops[1..]);
        DiffersLater(w, ops, 0);
      } else {
        IdealExactlyIfSmooth(w', ops[1..]);
        var k :| 0 <= k <= |ops[1..]| && Differs(w', w'.child, ops[1..], k);
        DiffersLater(w, ops, k);
      }
    }
  }

  lemma SmoothPeek(w: Watch, ops: seq<Op>, k: nat)
    requires Sound(w) && Smooth(w.child, w.nonblock, ops) && k <= |ops|
    ensures !Differs(w, w.child, ops, k)
  {
    hide Do, Ideal, Sound;
    SmoothThenPeek(w.child, w.nonblock, ops, k);
    WaitsAreIdeal(w, ops[..k] + [PEEK]);
  }

  lemma {:induction false} SmoothThenPeek(child: Life, nonblock: bool, ops: seq<Op>, k: nat)
    requires Smooth(child, nonblock, ops) && k <= |ops|
    ensures Smooth(child, nonblock, ops[..k] + [PEEK])
    decreases |ops|
  {
    hide Ideal;
    var cut := ops[..k] + [PEEK];
    if k > 0 {
      assert cut[0] == ops[0] && cut[1..] == ops[1..][..k - 1] + [PEEK];
      SmoothThenPeek(Ideal(child, nonblock, ops[0]).0, nonblock, ops[1..], k - 1);
    }
  }

  // ---------- What histories of waits promise ----------

  /** Before the exit nothing is reported. */
  lemma {:induction false} NothingBeforeExit(w: Watch, ops: seq<Op>, k: nat)
    requires Sound(w) && w.child.Alive? && k < |ops| && forall j :: 0 <= j <= k ==> !ops[j].Exit?
    ensures ops[k].Waiting? ==>
      Play(w, ops)[k] == Some(Error(if ops[k].flags.nohang || w.nonblock then EWOULDBLOCK else EINTR))
    decreases |ops|
  {
    if k > 0 {
      assert Do(w, ops[0]).0 == w;
      NothingBeforeExit(w, ops[1..], k - 1);
    }
  }

  /** A dead child is reported alike by every wait that reports it, and only the last of them reaps,
      whatever happens in between. */
  lemma {:induction false} SameReport(w: Watch, ops: seq<Op>, i: nat, j: nat)
    requires i < j < |ops|
    requires var r := Play(w, ops); r[i].Some? && r[i].value.Ok? && r[j].Some? && r[j].value.Ok?
    ensures Play(w, ops)[i] == Play(w, ops)[j]
    ensures ops[i].Waiting? && ops[i].flags.nowait
    decreases |ops|
  {
    var next := Do(w, ops[0]).0;
    if i > 0 {
      SameReport(next, ops[1..], i - 1, j - 1);
    } else {
      ReportsOwn(next, ops[1..], j - 1);
    }
  }

  lemma {:induction false} ReportsOwn(w: Watch, ops: seq<Op>, k: nat)
    requires !w.child.Alive? && k < |ops|
    requires Play(w, ops)[k].Some? && Play(w, ops)[k].value.Ok?
    ensures w.child.Dead() && Play(w, ops)[k].value.info == w.child.info
    decreases |ops|
  {
    if k > 0 {
      ReportsOwn(Do(w, ops[0]).0, ops[1..], k - 1);
    }
  }

  /** From its exit on, a child that has only been peeked at is reported by every wait no signal disturbs. */
  lemma {:induction false} ReportedUntilReaped(w: Watch, ops: seq<Op>, k: nat)
    requires Sound(w) && w.child.Dead() && k < |ops| && ops[k].Waiting? && !ops[k].signalled
    requires forall j :: 0 <= j < k ==> ops[j] != ReapedElsewhere && (ops[j].Waiting? ==> ops[j].flags.nowait)
    ensures Play(w, ops)[k] == Some(Ok(w.child.info))
    decreases |ops|
  {
    StepIsIdeal(w, ops[0]);
    if k > 0 {
      ReportedUntilReaped(Do(w, ops[0]).0, ops[1..], k - 1);
    }
  }

  // ---------- The routine ----------

  class Descriptor {
    var watch: Watch

    constructor (watch: Watch)
      ensures this.watch == watch
    {
      this.watch := watch;
    }

    /** kevent for one event. A call that may sleep ends when the child exits, or by a signal. */
    method Kevent(sleep: bool) returns (ret: int, ev: Event, ghost exit: Option<Info>)
      modifies this
      ensures exit.Some? ==> sleep && old(watch).events == [] && old(watch).child.Alive?
      ensures ret == 1 <==> exit.Some? || old(watch).events != []
      ensures ret == 1 ==>
        var w := if exit.Some? then Exited(old(watch), exit.value) else old(watch);
        w.events != [] && ev == w.events[0] && watch == w.(events := w.events[1..])
      ensures ret != 1 ==> watch == old(watch)
      ensures ret != 1 ==> ret == if sleep then -1 else 0
    {
      exit := None;
      ev := Event(Proc, watch.pid);
      if watch.events == [] && sleep && watch.child.Alive? {
        var interrupted: bool :| interrupted || !interrupted;
        if interrupted {
          return -1, ev, exit;
        }
        var code: int, status: int :| code == code && status == status;
        var info := Info(code, status);
        watch := Exited(watch, info);
        exit := Some(info);
      }
      if watch.events == [] {
        return if sleep then -1 else 0, ev, exit;
      }
      ev := watch.events[0];
      watch := watch.(events := watch.events[1..]);
      return 1, ev, exit;
    }

    /** waitid or wait4. */
    method CollectChild(pid: int, keep: bool) returns (outcome: Outcome, ghost signalled: bool)
      modifies this
      ensures (watch, outcome) == Collect(old(watch), pid, keep, signalled)
    {
      var disturbed: bool :| disturbed || !disturbed;
      signalled := disturbed;
      var (after, o) := Collect(watch, pid, keep, disturbed);
      watch, outcome := after, o;
    }

    /** system_forkfd_wait: one wait of the model, behind the exit it slept for, if it did. */
    method SystemForkfdWait(o: Flags) returns (outcome: Outcome, ghost exit: Option<Info>, ghost signalled: bool)
      modifies this
      ensures exit.Some? ==> !o.nohang && !old(watch).nonblock && old(watch).events == [] && old(watch).child.Alive?
      ensures var w := if exit.Some? then Exited(old(watch), exit.value) else old(watch);
        (watch, outcome) == Wait(w, o, signalled)
      ensures Sound(old(watch)) && old(watch).child.Alive? && (o.nohang || old(watch).nonblock) ==>
        outcome == Error(EWOULDBLOCK) && watch == old(watch)
      ensures Sound(old(watch)) && old(watch).child.Dead() && !signalled ==>
        && outcome == Ok(old(watch).child.info) && Sound(watch)
        && watch.child == if o.nowait then Zombie(old(watch).child.info) else Reaped
    {
      var wnohang := o.nohang;
      if !wnohang {
        wnohang := watch.nonblock;
      }
      var ret, ev;
      signalled := false;
      ret, ev, exit := Kevent(!wnohang);
      if ret == -1 {
        return Error(EINTR), exit, signalled;
      }
      if ret == 0 {
        return Error(EWOULDBLOCK), exit, signalled;
      }
      var pid := ev.ident;
      if o.nowait {
        outcome, signalled := CollectChild(pid, true);
        watch := Rearm(watch, pid);
        return;
      }
      outcome, signalled := CollectChild(pid, false);
    }
  }
}
