/** forkfd on DragonFly: parent and child shake hands over a pipe, so that the child's exit is watched
    before it can happen. */
module ForkHandshake {
  import opened Options
  import ForkWait

  // ---------- The protocol ----------

  /** Where the parent is: what it does next. */
  datatype Parent =
    | AtKqueue | AtPipe | AtFork | AtCloseRead | AtRegister
    | AtCloseWrite(ok: bool) | AtKill | AtWait | Failing | Done(ok: bool)
    | Gone

  /** Where the child is. A child that runs has returned from forkfd to its caller. */
  datatype Child =
    | Unborn | AtChildCloseWrite | AtRead | AtChildCloseRead | Running
    | Exited | Reaped {
    predicate InForkfd() {
      AtChildCloseWrite? || AtRead? || AtChildCloseRead?
    }
    predicate Alive() {
      InForkfd() || Running?
    }
    predicate PastRead() {
      AtChildCloseRead? || Running?
    }
  }

  /** The parent: what it has open, and how far it is with watching and killing the child. */
  datatype ParentSide = ParentSide(at: Parent, kq: bool, readEnd: bool, writeEnd: bool,
                                   called: bool, watched: bool, killed: bool)

  /** The child: what it has open, whether its exit event is pending, whether its read failed for good. */
  datatype ChildSide = ChildSide(at: Child, readEnd: bool, writeEnd: bool, pending: bool, readError: bool)

  datatype State = State(p: ParentSide, c: ChildSide)

  /** A system call that returns, or something from outside. */
  datatype Action =
    | Kqueue(ok: bool) | Pipe(ok: bool) | Fork(ok: bool) | CloseRead | Register(ok: bool) | CloseWrite
    | Kill | WaitInterrupted | WaitChild | CloseQueue | ParentDies
    | ChildCloseWrite | ReadInterrupted | ReadEof | ReadFailed | ChildCloseRead | ChildExits | ChildKilled

  const INIT := State(ParentSide(AtKqueue, false, false, false, false, false, false),
                      ChildSide(Unborn, false, false, false, false))

  /** A step of the child, or the child's end by a signal. */
  predicate OfChild(a: Action) {
    || a.ChildCloseWrite? || a.ReadInterrupted? || a.ReadEof? || a.ReadFailed? || a.ChildCloseRead?
    || a.ChildExits? || a.ChildKilled?
  }

  /** The end of the child closes its descriptors, and fires the watch. */
  function Exit(c: ChildSide, watched: bool): ChildSide {
    c.(at := Exited, readEnd := false, writeEnd := false, pending := watched)
  }

  function StepChild(c: ChildSide, p: ParentSide, a: Action): Option<ChildSide> {
    match a
    case ChildCloseWrite => if c.at.AtChildCloseWrite? then Some(c.(at := AtRead, writeEnd := false)) else None
    case ReadInterrupted => if c.at.AtRead? then Some(c) else None
    case ReadEof =>
      // nobody writes, so read returns only when no write end is open any more
      if c.at.AtRead? && !p.writeEnd && !c.writeEnd then Some(c.(at := AtChildCloseRead)) else None
    case ReadFailed => if c.at.AtRead? then Some(c.(at := AtChildCloseRead, readError := true)) else None
    case ChildCloseRead => if c.at.AtChildCloseRead? then Some(c.(at := Running, readEnd := false)) else None
    case ChildExits => if c.at.Running? then Some(Exit(c, p.watched)) else None
    case ChildKilled => if c.at.Alive() then Some(Exit(c, p.watched)) else None
    case _ => None
  }

  function StepParent(p: ParentSide, child: Child, a: Action): Option<ParentSide> {
    match a
    case Kqueue(ok) =>
      if !p.at.AtKqueue? then None else Some(if ok then p.(at := AtPipe, kq := true) else p.(at := Done(false)))
    case Pipe(ok) =>
      if !p.at.AtPipe? then None
      else Some(if ok then p.(at := AtFork, readEnd := true, writeEnd := true) else p.(at := Failing))
    case Fork(ok) =>
      if !p.at.AtFork? then None else Some(p.(at := if ok then AtCloseRead else Failing))
    case CloseRead =>
      if p.at.AtCloseRead? then Some(p.(at := AtRegister, readEnd := false))
      else if p.at.Failing? && p.readEnd then Some(p.(readEnd := false))
      else None
    case Register(ok) =>
      if !p.at.AtRegister? then None else Some(p.(at := AtCloseWrite(ok), called := true, watched := ok))
    case CloseWrite =>
      if p.at.AtCloseWrite? then Some(p.(at := if p.at.ok then Done(true) else AtKill, writeEnd := false))
      else if p.at.Failing? && !p.readEnd && p.writeEnd then Some(p.(writeEnd := false))
      else None
    case Kill => if p.at.AtKill? then Some(p.(at := AtWait, killed := true)) else None
    case WaitInterrupted => if p.at.AtWait? then Some(p) else None
    case WaitChild => if p.at.AtWait? && child.Exited? then Some(p.(at := Failing)) else None
    case CloseQueue =>
      if p.at.Failing? && !p.readEnd && !p.writeEnd then Some(p.(at := Done(false), kq := false)) else None
    case ParentDies =>
      // the kernel may kill the parent at any time, and closes what it had open
      if p.at.Gone? then None else Some(p.(at := Gone, kq := false, readEnd := false, writeEnd := false))
    case _ => None
  }

  /** What a call of the parent does to the child: fork makes it, with both pipe ends, and waitpid reaps
      it. A watch set on a child that has been killed already fires at once, unless setting it fails. */
  function Touched(c: ChildSide, a: Action): ChildSide {
    if a == Fork(true) then ChildSide(AtChildCloseWrite, true, true, false, false)
    else if a == Register(true) then c.(pending := c.at.Exited?)
    else if a.WaitChild? then c.(at := Reaped)
    else c
  }

  function Step(s: State, a: Action): Option<State> {
    if OfChild(a) then
      var c := StepChild(s.c, s.p, a);
      if c.None? then None else Some(State(s.p, c.value))
    else
      var p := StepParent(s.p, s.c.at, a);
      if p.None? then None else Some(State(p.value, Touched(s.c, a)))
  }

  /** The state after a run, or None if these steps are not a run. */
  function After(run: seq<Action>): Option<State> {
    if run == [] then Some(INIT)
    else
      var before := After(run[..|run| - 1]);
      if before.None? then None else Step(before.value, run[|run| - 1])
  }

  // ---------- What every run keeps ----------

  /** Which descriptors the parent has open, by where it is. */
  predicate ParentHolds(p: ParentSide) {
    match p.at
    case AtKqueue => !p.kq && !p.readEnd && !p.writeEnd
    case AtPipe => p.kq && !p.readEnd && !p.writeEnd
    case AtFork => p.kq && p.readEnd && p.writeEnd
    case AtCloseRead => p.kq && p.readEnd && p.writeEnd
    case AtRegister => p.kq && !p.readEnd && p.writeEnd
    case AtCloseWrite(_) => p.kq && !p.readEnd && p.writeEnd
    case AtKill => p.kq && !p.readEnd && !p.writeEnd
    case AtWait => p.kq && !p.readEnd && !p.writeEnd
    case Failing => p.kq
    case Done(ok) => p.kq == ok && !p.readEnd && !p.writeEnd
    case Gone => !p.kq && !p.readEnd && !p.writeEnd
  }

  predicate ChildHolds(c: ChildSide) {
    c.readEnd == c.at.InForkfd() && c.writeEnd == c.at.AtChildCloseWrite?
  }

  /** How far the parent is with the child. */
  predicate InStep(p: ParentSide, child: Child) {
    var there := !child.Unborn? && !child.Reaped?;
    match p.at
    case AtKqueue => child.Unborn? && !p.called
    case AtPipe => child.Unborn? && !p.called
    case AtFork => child.Unborn? && !p.called
    case AtCloseRead => there && !p.called
    case AtRegister => there && !p.called
    case AtCloseWrite(ok) => there && p.called && p.watched == ok
    case AtKill => there && p.called && !p.watched
    case AtWait => there && p.called && !p.watched && p.killed
    case Failing => if p.called then child.Reaped? && !p.watched else child.Unborn?
    case Done(ok) => if ok then there && p.called && p.watched else if p.called then child.Reaped? else child.Unborn?
    case Gone => true
  }

  predicate Invariant(s: State) {
    && ParentHolds(s.p) && ChildHolds(s.c) && InStep(s.p, s.c.at)
    && (s.c.at.PastRead() ==> s.p.called || s.p.at.Gone? || s.c.readError)
    && (s.p.watched ==> s.p.called)
    && (s.p.called ==> !s.c.at.Unborn?)
    && (s.c.pending <==> s.p.watched && (s.c.at.Exited? || s.c.at.Reaped?))
  }

  lemma ChildKeeps(s: State, a: Action)
    requires Invariant(s) && OfChild(a) && Step(s, a).Some?
    ensures Invariant(Step(s, a).value)
  {
    hide StepParent;
  }

  lemma HoldsKept(p: ParentSide, child: Child, a: Action)
    requires ParentHolds(p) && StepParent(p, child, a).Some?
    ensures ParentHolds(StepParent(p, child, a).value)
  {
  }

  /** The parent tries to make the child and to watch it. */
  predicate SetsUp(a: Action) {
    a.Kqueue? || a.Pipe? || a.Fork? || a.Register?
  }

  lemma SetUpInStep(p: ParentSide, c: ChildSide, a: Action)
    requires InStep(p, c.at) && SetsUp(a) && StepParent(p, c.at, a).Some?
    ensures InStep(StepParent(p, c.at, a).value, Touched(c, a).at)
  {
  }

  lemma EndInStep(p: ParentSide, c: ChildSide, a: Action)
    requires InStep(p, c.at) && !SetsUp(a) && StepParent(p, c.at, a).Some?
    ensures InStep(StepParent(p, c.at, a).value, Touched(c, a).at)
  {
  }

  lemma ParentKeeps(s: State, a: Action)
    requires Invariant(s) && !OfChild(a) && Step(s, a).Some?
    ensures Invariant(Step(s, a).value)
  {
    hide StepChild, ParentHolds, SetsUp;
    HoldsKept(s.p, s.c.at, a);
    if SetsUp(a) {
      SetUpInStep(s.p, s.c, a);
    } else {
      EndInStep(s.p, s.c, a);
    }
  }

  lemma {:induction false} AlwaysInvariant(run: seq<Action>)
    requires After(run).Some?
    ensures Invariant(After(run).value)
  {
    hide Step, Invariant, OfChild;
    if run == [] {
      InitInvariant();
    } else {
      AlwaysInvariant(run[..|run| - 1]);
      var s, a := After(run[..|run| - 1]).value, run[|run| - 1];
      if OfChild(a) {
        ChildKeeps(s, a);
      } else {
        ParentKeeps(s, a);
      }
    }
  }

  lemma InitInvariant()
    ensures Invariant(INIT)
  {
  }

  lemma StepFlags(s: State, a: Action)
    requires Step(s, a).Some?
    ensures var t := Step(s, a).value;
      && (t.p.called ==> s.p.called || a.Register?) && (t.p.watched ==> s.p.watched || a == Register(true))
      && (t.p.at.Gone? ==> s.p.at.Gone? || a == ParentDies) && (t.c.readError ==> s.c.readError || a == ReadFailed)
  {
    if OfChild(a) {
      hide StepParent;
    } else {
      hide StepChild;
    }
  }

  /** What the flags of a state say about the run that led there. */
  lemma {:induction false} FlagsTellHistory(run: seq<Action>)
    requires After(run).Some?
    ensures After(run).value.p.called ==> exists i :: 0 <= i < |run| && run[i].Register?
    ensures After(run).value.p.watched ==> exists i :: 0 <= i < |run| && run[i] == Register(true)
    ensures After(run).value.p.at.Gone? ==> ParentDies in run
    ensures After(run).value.c.readError ==> ReadFailed in run
  {
    hide Step;
    if run != [] {
      var before, a := run[..|run| - 1], run[|run| - 1];
      FlagsTellHistory(before);
      StepFlags(After(before).value, a);
      assert run[|run| - 1] == a && run == before + [a];
      assert forall i {:trigger before[i]} :: 0 <= i < |before| ==> run[i] == before[i];
    }
  }

  // ---------- The promises ----------

  /** Where a run is cut, the part before is a run. */
  lemma {:induction false} Prefix(run: seq<Action>, k: nat)
    requires After(run).Some? && k <= |run|
    ensures After(run[..k]).Some?
    decreases |run|
  {
    hide Step;
    if k < |run| {
      Prefix(run[..|run| - 1], k);
      assert run[..|run| - 1][..k] == run[..k];
    } else {
      assert run[..k] == run;
    }
  }

  lemma {:induction false} StepAt(run: seq<Action>, k: nat)
    requires After(run).Some? && k < |run|
    ensures After(run[..k]).Some? && Step(After(run[..k]).value, run[k]).Some?
  {
    hide Step;
    Prefix(run, k);
    Prefix(run, k + 1);
    assert run[..k + 1][..k] == run[..k];
  }

  /** The handshake: in every interleaving, when the child returns to its caller, the parent's
      registration call has returned, or the parent was killed, or the read failed for good. */
  lemma ChildReturnsAfterRegistration(run: seq<Action>, k: nat)
    requires After(run).Some? && k < |run| && run[k] == ChildCloseRead
    ensures exists i :: 0 <= i < k && (run[i].Register? || run[i] == ParentDies || run[i] == ReadFailed)
  {
    hide Invariant;
    StepAt(run, k);
    ReturnAllowed(run[..k]);
    FlagsTellHistory(run[..k]);
    var before := run[..k];
    if i :| 0 <= i < |before| && before[i].Register? {
      assert run[i].Register?;
    } else if ParentDies in before {
      var i :| 0 <= i < |before| && before[i] == ParentDies;
      assert run[i] == ParentDies;
    } else {
      var i :| 0 <= i < |before| && before[i] == ReadFailed;
      assert run[i] == ReadFailed;
    }
  }

  lemma ReturnAllowed(run: seq<Action>)
    requires After(run).Some? && After(run).value.c.at.PastRead()
    ensures After(run).value.p.called || After(run).value.p.at.Gone? || After(run).value.c.readError
  {
    AlwaysInvariant(run);
  }

  /** So no exit goes unnoticed: behind a successful forkfd, an event is pending exactly if the child
      has exited, however early it did. */
  lemma NoExitUnnoticed(run: seq<Action>)
    requires After(run).Some? && After(run).value.p.at == Done(true)
    ensures var s := After(run).value; s.c.pending <==> !s.c.at.Alive()
  {
    AlwaysInvariant(run);
  }

  /** The wait routine takes over from there. */
  lemma HandedOver(run: seq<Action>, pid: int, nonblock: bool, info: ForkWait.Info)
    requires After(run).Some? && After(run).value.p.at == Done(true)
    ensures var s := After(run).value;
      ForkWait.Sound(ForkWait.Watch(pid, nonblock,
        if s.c.pending then [ForkWait.Event(ForkWait.Proc, pid)] else [],
        if s.c.at.Alive() then ForkWait.Alive else ForkWait.Exiting(info)))
  {
    NoExitUnnoticed(run);
  }

  /** Whichever way the parent returns, both pipe ends are closed, the queue is open exactly on success,
      and on failure no child is left behind. */
  lemma ParentLeavesNothing(run: seq<Action>)
    requires After(run).Some? && After(run).value.p.at.Done?
    ensures var s := After(run).value;
      && !s.p.readEnd && !s.p.writeEnd && s.p.kq == s.p.at.ok && (s.p.at.ok ==> s.p.watched)
      && (!s.p.at.ok ==> if s.p.called then s.c.at.Reaped? else s.c.at.Unborn?)
  {
    AlwaysInvariant(run);
  }

  // ---------- Progress ----------

  /** Steps that only repeat a call. */
  predicate Repeats(a: Action) {
    a.ReadInterrupted? || a.WaitInterrupted?
  }

  function ParentRank(p: Parent): nat {
    match p
    case AtKqueue => 11 case AtPipe => 10 case AtFork => 7 case AtCloseRead => 7 case AtRegister => 6
    case AtCloseWrite(_) => 5 case AtKill => 4 case AtWait => 3 case Failing => 2
    case Done(_) => 1 case Gone => 0
  }

  function ChildRank(c: Child): nat {
    match c
    case Unborn => 6 case AtChildCloseWrite => 5 case AtRead => 4 case AtChildCloseRead => 3 case Running => 2
    case Exited => 1 case Reaped => 0
  }

  function Rank(s: State): nat {
    ParentRank(s.p.at) + ChildRank(s.c.at) + (if s.p.readEnd then 1 else 0) + (if s.p.writeEnd then 1 else 0)
  }

  lemma ChildDescends(s: State, a: Action)
    requires OfChild(a) && Step(s, a).Some?
    ensures if Repeats(a) then Step(s, a).value == s else Rank(Step(s, a).value) < Rank(s)
  {
    hide StepParent, ParentRank;
  }

  lemma ParentDescends(s: State, a: Action)
    requires ParentHolds(s.p) && InStep(s.p, s.c.at) && !OfChild(a) && Step(s, a).Some?
    ensures if Repeats(a) then Step(s, a).value == s else Rank(Step(s, a).value) < Rank(s)
  {
    hide StepChild;
  }

  function Effective(run: seq<Action>): nat {
    if run == [] then 0 else Effective(run[..|run| - 1]) + if Repeats(run[|run| - 1]) then 0 else 1
  }

  /** Apart from interrupted calls, no run is longer than seventeen steps. */
  lemma {:induction false} RunsAreShort(run: seq<Action>)
    requires After(run).Some?
    ensures Effective(run) + Rank(After(run).value) <= 17
  {
    hide Step, Invariant, Rank;
    if run == [] {
      assert Rank(INIT) <= 17 by { InitRank(); }
    } else {
      RunsAreShort(run[..|run| - 1]);
      AlwaysInvariant(run[..|run| - 1]);
      var s, a := After(run[..|run| - 1]).value, run[|run| - 1];
      InvariantParts(s);
      if OfChild(a) {
        ChildDescends(s, a);
      } else {
        ParentDescends(s, a);
      }
    }
  }

  lemma InvariantParts(s: State)
    requires Invariant(s)
    ensures ParentHolds(s.p) && InStep(s.p, s.c.at)
  {
  }

  lemma InitRank()
    ensures Rank(INIT) == 17
  {
  }

  /** A call of the parent that reports an error. */
  predicate Refused(a: Action) {
    a == Kqueue(false) || a == Pipe(false) || a == Fork(false) || a == Register(false)
  }

  /** A call that reports an error. */
  predicate Fails(a: Action) {
    Refused(a) || a == ReadFailed
  }

  /** What the two programs, or a signal already sent, do of their own accord. */
  predicate Ordinary(s: State, a: Action) {
    !Repeats(a) && !Fails(a) && a != ParentDies && (a == ChildKilled ==> s.p.killed)
  }

  /** And no run gets stuck: until parent and child have both left forkfd, one of them can go on,
      without interruption, failure or help from outside. */
  lemma NeverStuck(run: seq<Action>)
    requires After(run).Some?
    requires var s := After(run).value; !(s.p.at.Done? || s.p.at.Gone?) || s.c.at.InForkfd()
    ensures exists a :: Ordinary(After(run).value, a) && Step(After(run).value, a).Some?
  {
    hide Step, Invariant, NextAction, Ordinary;
    AlwaysInvariant(run);
    NextIsOrdinary(After(run).value);
  }

  lemma NextIsOrdinary(s: State)
    requires Invariant(s) && (!(s.p.at.Done? || s.p.at.Gone?) || s.c.at.InForkfd())
    ensures Ordinary(s, NextAction(s)) && Step(s, NextAction(s)).Some?
  {
  }

  function NextAction(s: State): Action {
    match s.p.at
    case AtKqueue => Kqueue(true)
    case AtPipe => Pipe(true)
    case AtFork => Fork(true)
    case AtCloseRead => CloseRead
    case AtRegister => Register(true)
    case AtCloseWrite(_) => CloseWrite
    case AtKill => Kill
    case AtWait => if s.c.at.Exited? then WaitChild else ChildKilled
    case Failing => if s.p.readEnd then CloseRead else if s.p.writeEnd then CloseWrite else CloseQueue
    case _ => if s.c.at.AtChildCloseWrite? then ChildCloseWrite else if s.c.at.AtRead? then ReadEof else ChildCloseRead
  }

  // ---------- The parent's code ----------

  ghost predicate Recorded(run: seq<Action>, reasons: map<Action, int>) {
    forall a :: a in reasons <==> a in run && Refused(a)
  }

  lemma RefusalsRecorded(run: seq<Action>, reasons: map<Action, int>)
    requires Recorded(run, reasons)
    ensures forall a :: Refused(a) ==> (a in run <==> a in reasons)
  {
  }

  /** The kernel under the parent: between any two of its calls the child and the outside run on. */
  class Kernel {
    var state: State
    var errno: int
    var interrupts: nat
    var cloexec: bool
    var nonblock: bool
    ghost var run: seq<Action>
    ghost var reasons: map<Action, int>  // the errno of every refused call of the run

    ghost predicate Valid()
      reads this
    {
      After(run) == Some(state) && Recorded(run, reasons)
    }

    constructor (interrupts: nat)
      ensures Valid() && state == INIT && run == [] && reasons == map[]
      ensures this.interrupts == interrupts && !cloexec && !nonblock
    {
      state, errno, this.interrupts, cloexec, nonblock := INIT, 0, interrupts, false, false;
      run, reasons := [], map[];
    }

    /** Anybody's step. */
    method Take(a: Action)
      requires Valid() && Step(state, a).Some?
      modifies this`state, this`run, this`reasons
      ensures Valid() && Some(state) == Step(old(state), a) && run == old(run) + [a]
      ensures reasons == if Refused(a) then old(reasons)[a := errno] else old(reasons)
    {
      hide Step, Refused;
      assert (run + [a])[..|run|] == run;
      state := Step(state, a).value;
      run := run + [a];
      if Refused(a) {
        reasons := reasons[a := errno];
      }
    }

    /** Any number of steps of the child, which may also be killed meanwhile. */
    method Others()
      requires Valid()
      modifies this`state, this`run, this`reasons
      ensures Valid() && state.p == old(state.p) && reasons == old(reasons)
    {
      var n: nat :| n >= 0;
      while n > 0
        invariant Valid() && state.p == old(state.p) && reasons == old(reasons)
      {
        assert OfChild(ReadEof);
        var a :| OfChild(a);
        if Step(state, a).Some? {
          Take(a);
        }
        n := n - 1;
      }
    }

    /** A call of the parent that succeeds or not, and then the others. */
    method Call(a: Action)
      requires Valid() && !OfChild(a) && StepParent(state.p, state.c.at, a).Some?
      modifies this`state, this`run, this`reasons
      ensures Valid() && Some(state.p) == StepParent(old(state.p), old(state.c.at), a)
      ensures reasons == if Refused(a) then old(reasons)[a := errno] else old(reasons)
    {
      hide After, StepParent, StepChild, OfChild, Refused, Recorded;
      Take(a);
      Others();
    }

    /** A call whose result nobody looks at: it may overwrite errno. A descriptor is closed even when
        close reports an error. */
    method CallUnchecked(a: Action)
      requires Valid() && !OfChild(a) && !Refused(a) && StepParent(state.p, state.c.at, a).Some?
      modifies this`state, this`run, this`reasons, this`errno
      ensures Valid() && Some(state.p) == StepParent(old(state.p), old(state.c.at), a) && reasons == old(reasons)
    {
      hide After, StepParent, StepChild, OfChild, Refused, Recorded;
      Call(a);
      var e: int :| e == e;
      errno := e;
    }

    /** A call of the parent that succeeds as the first of two actions or is refused as the second, and
        then errno says why. */
    method Attempt(done: Action, refused: Action) returns (ok: bool)
      requires Valid() && !OfChild(done) && !Refused(done) && StepParent(state.p, state.c.at, done).Some?
      requires !OfChild(refused) && Refused(refused) && StepParent(state.p, state.c.at, refused).Some?
      modifies this`state, this`run, this`reasons, this`errno
      ensures Valid() && Some(state.p) == StepParent(old(state.p), old(state.c.at), if ok then done else refused)
      ensures reasons == if ok then old(reasons) else old(reasons)[refused := errno]
    {
      hide After, StepParent, StepChild, OfChild, Refused, Recorded;
      ok :| ok || !ok;
      if !ok {
        var e: int :| e == e;
        errno := e;
      }
      Call(if ok then done else refused);
    }

    /** waitpid for the child that has been sent SIGKILL, until it is not interrupted. */
    method WaitForChild()
      requires Valid() && state.p.at.AtWait?
      modifies this`state, this`run, this`reasons, this`interrupts, this`errno
      ensures Valid() && state.p == old(state.p).(at := Failing) && reasons == old(reasons)
    {
      hide After, StepChild, Recorded;
      while true
        invariant Valid() && state.p == old(state.p) && reasons == old(reasons)
        decreases interrupts
      {
        Others();
        var interrupt: bool :| interrupt ==> interrupts > 0;
        if !interrupt {
          CanBeKilled(run);
          if !state.c.at.Exited? {
            Take(ChildKilled);
          }
          CallUnchecked(WaitChild);
          return;
        }
        interrupts := interrupts - 1;
        Call(WaitInterrupted);
      }
    }

    /** The fork failed: everything is closed, and errno is the one of fork. */
    method ForkFailed()
      requires Valid() && state.p.at.Failing? && state.p.readEnd && state.p.writeEnd
      modifies this`state, this`run, this`reasons, this`errno
      ensures Valid() && state.p == old(state.p).(at := Done(false), kq := false, readEnd := false, writeEnd := false)
      ensures errno == old(errno) && reasons == old(reasons)
    {
      hide After, StepChild, Recorded;
      var saved := errno;
      CallUnchecked(CloseRead);
      CallUnchecked(CloseWrite);
      CallUnchecked(CloseQueue);
      errno := saved;
    }

    /** The child cannot be watched: it is killed and reaped, and the queue closed. */
    method Abandon(saved: int)
      requires Valid() && state.p.at.AtKill? && !state.p.readEnd && !state.p.writeEnd
      modifies this`state, this`run, this`reasons, this`errno, this`interrupts
      ensures Valid() && state.p == old(state.p).(at := Done(false), kq := false, killed := true) && errno == saved
      ensures reasons == old(reasons)
    {
      hide After, StepChild, Recorded;
      CallUnchecked(Kill);
      WaitForChild();
      CallUnchecked(CloseQueue);
      errno := saved;
    }

    /** The parent behind fork: the write end is closed only once the watch is set, or cannot be. In
        that case the child is killed and reaped, and errno is the one of kevent. */
    method WatchChild() returns (ok: bool)
      requires Valid() && state.p.at.AtCloseRead? && state.p.writeEnd
      modifies this`state, this`run, this`reasons, this`errno, this`interrupts
      ensures Valid() && state.p.at == Done(ok)
      ensures reasons == if ok then old(reasons) else old(reasons)[Register(false) := errno]
    {
      hide After, StepChild, Recorded;
      CallUnchecked(CloseRead);
      ok := Attempt(Register(true), Register(false));
      var saved := errno;
      CallUnchecked(CloseWrite);
      if !ok {
        Abandon(saved);
      }
    }

    /** The parent from fork on: errno tells why the child could not be made or watched. */
    method MakeChild() returns (ok: bool)
      requires Valid() && state.p.at.AtFork? && state.p.readEnd && state.p.writeEnd
      modifies this`state, this`run, this`reasons, this`errno, this`interrupts
      ensures Valid() && state.p.at == Done(ok)
      ensures ok ==> reasons == old(reasons)
      ensures !ok ==> reasons == old(reasons)[Fork(false) := errno] || reasons == old(reasons)[Register(false) := errno]
    {
      hide After, StepChild, Recorded;
      ok := Attempt(Fork(true), Fork(false));
      if ok {
        ok := WatchChild();
      } else {
        ForkFailed();
      }
    }

    /** system_forkfd as the parent runs it: a run of the protocol, whose outcome is the one returned.
        The caller may not fall back on another way exactly if queue and pipe could be made; where the
        child then could not be made or watched, errno is the one of fork or kevent. */
    method SystemForkfd(ffdCloexec: bool, ffdNonblock: bool) returns (kq: bool, system: bool)
      requires Valid() && state == INIT && reasons == map[] && !cloexec && !nonblock
      modifies this
      ensures Valid() && state.p.at == Done(kq)
      ensures kq == state.p.kq && !state.p.readEnd && !state.p.writeEnd
      ensures kq ==> system && state.p.watched && cloexec == ffdCloexec && nonblock == ffdNonblock
      ensures !kq ==> state.c.at.Unborn? || state.c.at.Reaped?
      ensures kq ==> reasons == map[]
      ensures system <==> Kqueue(false) !in run && Pipe(false) !in run
      ensures system && !kq ==> reasons == map[Fork(false) := errno] || reasons == map[Register(false) := errno]
    {
      hide After, StepChild, Recorded;
      kq, system := false, false;
      var ok := Attempt(Kqueue(true), Kqueue(false));
      if ok {
        ok := Attempt(Pipe(true), Pipe(false));
        if ok {
          system := true;
          kq := MakeChild();
        } else {
          CallUnchecked(CloseQueue);
        }
      }
      ParentLeavesNothing(run);
      RefusalsRecorded(run, reasons);
      if kq && ffdCloexec {
        cloexec := true;
      }
      if kq && ffdNonblock {
        nonblock := true;
      }
    }
  }

  /** A child that waitpid waits for has exited, or SIGKILL ends it. */
  lemma CanBeKilled(run: seq<Action>)
    requires After(run).Some? && After(run).value.p.at.AtWait?
    ensures var s := After(run).value;
      s.c.at.Exited? || (StepChild(s.c, s.p, ChildKilled).Some? && StepChild(s.c, s.p, ChildKilled).value.at.Exited?)
  {
    AlwaysInvariant(run);
  }
}
