/** When the master transport leaves its driver alone, and what the stop
    barrier has to do with it. */
module Quiescence {
  import opened LinTypes
  import opened Framing
  import opened Reassembly
  import opened History
  import opened Bus
  import opened BusInvariants
  import opened Cycle

  /** Driver calls the master transport has made. */
  function Calls(b: System): nat {
    b.m.log.readCalls + |b.m.log.written| + b.m.log.requests
  }

  /** A step that neither starts a master Transmit nor sets the flag. */
  predicate Passive(a: Action) { !a.SetAwaiting? && !(a.Begin? && !a.slave) }

  predicate AllPassive(acts: seq<Action>) { forall i :: 0 <= i < |acts| ==> Passive(acts[i]) }

  /** Nothing is queued, held, expected or polled for. */
  predicate NothingToDo(c: Setup, b: System) {
    b.m.txq == [] && b.mhold.None? && b.m.rx.state.remaining == 0 && !c.m.poll
  }

  /** The next step of execute is a driver call. */
  predicate Calling(pc: MPc) { pc.MRead? || pc.MWrite? || pc.MRequest? }

  predicate Quiet(c: Setup, b: System) {
    NothingToDo(c, b) && !b.m.awaiting && !Calling(b.mpc)
  }

  predicate SameCalls(b': System, b: System) {
    b'.m.log.readCalls == b.m.log.readCalls && b'.m.log.written == b.m.log.written && b'.m.log.requests == b.m.log.requests
  }

  lemma QuietStep(c: Setup, b: System, a: Action)
    requires Quiet(c, b) && Passive(a)
    ensures var b' := Apply(c, b, a); Quiet(c, b') && SameCalls(b', b)
  {}

  lemma {:induction false} QuietForever(c: Setup, b: System, acts: seq<Action>)
    requires Quiet(c, b) && AllPassive(acts)
    ensures var b' := RunFrom(c, b, acts); Quiet(c, b') && SameCalls(b', b)
  {
    if acts != [] {
      QuietForever(c, b, acts[..|acts| - 1]);
      QuietStep(c, RunFrom(c, b, acts[..|acts| - 1]), acts[|acts| - 1]);
    }
  }

  // ------------------------------------------------ the other direction

  /** What makes a cycle of the master active. */
  predicate Work(c: Setup, b: System) { b.m.txq != [] || ShouldRequest(c.m, b.m) }

  /** Steps of execute until it calls the driver, while there is work. */
  function Distance(c: Setup, b: System): nat {
    match b.mpc
    case MLen => if b.m.txq != [] then 1 else 2
    case MFlag => if ShouldRequest(c.m, b.m) then 1 else 4
    case MIdle => 3
    case MSelect(done) => if b.m.txq != [] then 1 else if done then 4 else 2
    case MDecide => if ShouldRequest(c.m, b.m) then 1 else 4
    case MPushM(_) => 5
    case MPushS(_) => 4
    case _ => 0
  }

  lemma CallCounts(c: Setup, b: System, now: int)
    requires Calling(b.mpc)
    ensures Calls(Apply(c, b, MExec(now))) > Calls(b)
  {}

  /** One step nearer to a driver call, at a time when no reception expires. */
  lemma Nearer(c: Setup, b: System)
    requires Work(c, b) && !Calling(b.mpc) && !b.stopHeld && c.m.timeout >= 0
    ensures var b' := Apply(c, b, MExec(b.m.rx.start));
      && SameCalls(b', b) && !b'.stopHeld && Distance(c, b') < Distance(c, b)
      && (Calling(b'.mpc) || Work(c, b'))
  {}

  lemma {:induction false} WorkCalls(c: Setup, b: System) returns (acts: seq<Action>)
    requires Work(c, b) || Calling(b.mpc)
    requires !b.stopHeld && c.m.timeout >= 0
    ensures AllPassive(acts) && Calls(RunFrom(c, b, acts)) > Calls(b)
    decreases Distance(c, b)
  {
    var e := MExec(b.m.rx.start);
    OneStep(c, b, e);
    if Calling(b.mpc) {
      CallCounts(c, b, e.now);
      acts := [e];
    } else {
      Nearer(c, b);
      var more := WorkCalls(c, Apply(c, b, e));
      RunConcat(c, b, [e], more);
      acts := [e] + more;
    }
  }

  /** A Transmit that holds frames still brings work. */
  lemma HeldCalls(c: Setup, b: System) returns (acts: seq<Action>)
    requires !Work(c, b) && b.mhold.Some? && Bounded(c, b)
    requires !b.stopHeld && c.m.timeout >= 0
    ensures AllPassive(acts) && Calls(RunFrom(c, b, acts)) > Calls(b)
  {
    var a := if b.mhold.value == [] then End(false) else Send(false);
    OneStep(c, b, a);
    var more := WorkCalls(c, Apply(c, b, a));
    RunConcat(c, b, [a], more);
    acts := [a] + more;
  }

  /** A passive run after which the driver has been called. */
  lemma UnquietCalls(c: Setup, b: System) returns (acts: seq<Action>)
    requires !Quiet(c, b) && Bounded(c, b) && c.m.timeout >= 0
    requires b.stopHeld ==> b.mpc.MIdle?
    ensures AllPassive(acts) && Calls(RunFrom(c, b, acts)) > Calls(b)
  {
    var b1 := Apply(c, b, StopRelease);
    var more;
    if Work(c, b1) || Calling(b1.mpc) { more := WorkCalls(c, b1); } else { more := HeldCalls(c, b1); }
    OneStep(c, b, StopRelease);
    RunConcat(c, b, [StopRelease], more);
    acts := [StopRelease] + more;
  }

  // ------------------------------------------------ over runs

  lemma {:induction false} RunBounded(c: Setup, acts: seq<Action>)
    ensures Bounded(c, Run(c, acts))
  {
    if acts != [] {
      RunBounded(c, acts[..|acts| - 1]);
      BoundedStep(c, Run(c, acts[..|acts| - 1]), acts[|acts| - 1]);
    }
  }

  /** StopAwaitingSlaveResponse and execute exclude each other. */
  lemma {:induction false} StopExcludes(c: Setup, acts: seq<Action>)
    ensures var b := Run(c, acts); b.stopHeld ==> b.mpc.MIdle?
  {
    if acts != [] { StopExcludes(c, acts[..|acts| - 1]); }
  }

  /** Quiescence, exactly. At any moment of any run - the return of
      StopAwaitingSlaveResponse is one - no driver call follows before the next
      Transmit or SetAwaitingSlaveResponse(true) if and only if nothing is
      queued, held, expected or polled for, the flag is clear, and no execute
      cycle stands before a driver call. */
  lemma QuietIff(c: Setup, acts: seq<Action>)
    requires c.m.timeout >= 0
    ensures var b := Run(c, acts);
      Quiet(c, b) <==> forall more :: AllPassive(more) ==> Calls(RunFrom(c, b, more)) == Calls(b)
  {
    var b := Run(c, acts);
    if Quiet(c, b) {
      forall more | AllPassive(more) ensures Calls(RunFrom(c, b, more)) == Calls(b) {
        QuietForever(c, b, more);
      }
    } else {
      RunBounded(c, acts);
      StopExcludes(c, acts);
      var more := UnquietCalls(c, b);
    }
  }

  /** The stop barrier, in any run: while StopAwaitingSlaveResponse holds
      executeMu no cycle is under way, and if the flag is still clear then no
      driver call follows if and only if nothing is queued, held, expected or
      polled for. */
  lemma StopBarrier(c: Setup, acts: seq<Action>)
    requires c.m.timeout >= 0
    requires Run(c, acts).stopHeld
    ensures var b := Run(c, acts);
      && b.mpc.MIdle?
      && (!b.m.awaiting ==>
            (NothingToDo(c, b) <==> forall more :: AllPassive(more) ==> Calls(RunFrom(c, b, more)) == Calls(b)))
  {
    QuietIff(c, acts);
    StopExcludes(c, acts);
  }

  // ------------------------------------------------ between the unlock and the return

  /** Stop has released executeMu, nothing is left to do, the flag is clear,
      and yet execute stands before a driver call. */
  predicate IdleButCalling(c: Setup, b: System) {
    NothingToDo(c, b) && !b.m.awaiting && !b.stopHeld && Calling(b.mpc)
  }

  /** In the run `acts` Stop held the mutex with the flag clear, and after the
      passive steps `more` it has returned to an idle transport that is about
      to call the driver. */
  predicate ReturnsLate(c: Setup, acts: seq<Action>, more: seq<Action>) {
    && Run(c, acts).stopHeld && !Run(c, acts).m.awaiting && AllPassive(more)
    && IdleButCalling(c, RunFrom(c, Run(c, acts), [StopRelease] + more))
  }

  lemma StepsOf(c: Setup, b: System, now: int, n: nat)
    requires n > 0
    ensures RunFrom(c, b, Repeat(MExec(now), n)) == RunFrom(c, Apply(c, b, MExec(now)), Repeat(MExec(now), n - 1))
  {
    OneStep(c, b, MExec(now));
    RunConcat(c, b, [MExec(now)], Repeat(MExec(now), n - 1));
    assert Repeat(MExec(now), n) == [MExec(now)] + Repeat(MExec(now), n - 1);
  }

  lemma CycleOpens(c: Setup, b: System, now: int)
    requires b.mpc.MIdle? && !b.stopHeld && CheckTimeout(b.m.rx, c.m.timeout, now) == b.m.rx
    ensures Apply(c, b, MExec(now)) == b.(mpc := MLen)
  {}

  lemma QueueTest(c: Setup, b: System, now: int)
    requires b.mpc.MLen?
    ensures Apply(c, b, MExec(now)) == b.(mpc := if b.m.txq != [] then MRead(false) else MFlag)
  {}

  lemma FlagTest(c: Setup, b: System, now: int)
    requires b.mpc.MFlag? && ShouldRequest(c.m, b.m)
    ensures Apply(c, b, MExec(now)) == b.(mpc := MRead(false))
  {}

  lemma ReadsNothing(c: Setup, b: System, now: int)
    requires b.mpc == MRead(false) && b.net.mq == []
    ensures Apply(c, b, MExec(now)) == b.(m := CountRead(b.m), mpc := MSelect(false))
  {}

  lemma ReadsLast(c: Setup, b: System, now: int)
    requires b.mpc == MRead(false) && |b.net.mq| == 1
    requires Relevant(false, b.net.mq[0]) && RxStep(b.m.rx.state, b.net.mq[0].payload).0.remaining == 0
    ensures var b' := Apply(c, b, MExec(now));
      && b'.mpc.MRead? && b'.m.rx.state.remaining == 0 && b'.m.txq == b.m.txq && b'.m.awaiting == b.m.awaiting
      && b'.mhold == b.mhold && b'.stopHeld == b.stopHeld
  {}

  /** One frame is queued at the barrier: a cycle takes it, and WriteMessage is
      called after the return. */
  lemma LateWrite(c: Setup, b: System, now: int)
    requires b.mpc.MIdle? && !b.stopHeld && !b.m.awaiting && !c.m.poll
    requires |b.m.txq| == 1 && b.mhold.None? && b.m.rx == FRESH && b.net.mq == []
    ensures var b' := RunFrom(c, b, Repeat(MExec(now), 4)); IdleButCalling(c, b') && b'.mpc.MWrite?
  {
    var b1, b2, b3 := b.(mpc := MLen), b.(mpc := MRead(false)), b.(m := CountRead(b.m), mpc := MSelect(false));
    CycleOpens(c, b, now);
    QueueTest(c, b1, now);
    ReadsNothing(c, b2, now);
    StepsOf(c, b, now, 4);
    StepsOf(c, b1, now, 3);
    StepsOf(c, b2, now, 2);
    StepsOf(c, b3, now, 1);
  }

  /** The last frame of a message is unread at the barrier: a cycle reads it,
      and ReadEvent is called again after the return. */
  lemma LateRead(c: Setup, b: System, now: int)
    requires b.mpc.MIdle? && !b.stopHeld && !b.m.awaiting && !c.m.poll
    requires b.m.txq == [] && b.mhold.None? && |b.net.mq| == 1
    requires b.m.rx.state.remaining > 0 && CheckTimeout(b.m.rx, c.m.timeout, now) == b.m.rx
    requires Relevant(false, b.net.mq[0]) && RxStep(b.m.rx.state, b.net.mq[0].payload).0.remaining == 0
    ensures var b' := RunFrom(c, b, Repeat(MExec(now), 4)); IdleButCalling(c, b') && b'.mpc.MRead?
  {
    var b1, b2, b3 := b.(mpc := MLen), b.(mpc := MFlag), b.(mpc := MRead(false));
    CycleOpens(c, b, now);
    QueueTest(c, b1, now);
    FlagTest(c, b2, now);
    ReadsLast(c, b3, now);
    StepsOf(c, b, now, 4);
    StepsOf(c, b1, now, 3);
    StepsOf(c, b2, now, 2);
    StepsOf(c, b3, now, 1);
  }

  // ------------------------------------------------ such runs exist

  ghost predicate Reachable(c: Setup, b: System) { exists acts :: Run(c, acts) == b }

  lemma {:induction false} ReachableBy(c: Setup, b: System, acts: seq<Action>)
    requires Reachable(c, b)
    ensures Reachable(c, RunFrom(c, b, acts))
  {
    var past :| Run(c, past) == b;
    RunConcat(c, INITIAL, past, acts);
    assert Run(c, past + acts) == RunFrom(c, b, acts);
  }

  lemma ReachableStep(c: Setup, b: System, a: Action)
    requires Reachable(c, b)
    ensures Reachable(c, Apply(c, b, a))
  {
    OneStep(c, b, a);
    ReachableBy(c, b, [a]);
  }

  lemma ReachableCycle(c: Setup, b: System, a: Action, b': System)
    requires Reachable(c, b) && Reaches(c, b, a, b')
    ensures Reachable(c, b')
  {
    var k: nat :| RunFrom(c, b, Repeat(a, k)) == b';
    ReachableBy(c, b, Repeat(a, k));
  }

  lemma ReachableTransmit(c: Setup, b: System, slave: bool, m: Sendable)
    requires Reachable(c, b)
    requires HoldOf(b, slave).None? && Admit(ConfigOf(c, slave), slave, NodeOf(b, slave), m).Some?
    ensures Reachable(c, WithNode(b, slave, Transmitted(ConfigOf(c, slave), slave, NodeOf(b, slave), m), None))
  {
    TransmitRun(c, b, slave, m);
    var b' := WithNode(b, slave, Transmitted(ConfigOf(c, slave), slave, NodeOf(b, slave), m), None);
    var acts :| RunFrom(c, b, acts) == b';
    ReachableBy(c, b, acts);
  }

  /** Clear the flag and take the mutex, as Stop does. */
  function Stopped(b: System): System { b.(m := b.m.(awaiting := false), stopHeld := true) }

  lemma ReachableStop(c: Setup, b: System)
    requires Reachable(c, b) && b.mpc.MIdle?
    ensures Reachable(c, Stopped(b))
  {
    ReachableStep(c, b, StopClear);
    ReachableStep(c, Apply(c, b, StopClear), StopAcquire);
  }

  /** The pending call is a ReadEvent, or else a WriteMessage. */
  predicate PendingCall(c: Setup, acts: seq<Action>, more: seq<Action>, read: bool) {
    var pc := RunFrom(c, Run(c, acts), [StopRelease] + more).mpc;
    if read then pc.MRead? else pc.MWrite?
  }

  lemma ReturnsLateFrom(c: Setup, b: System, now: int, read: bool)
    requires Reachable(c, b) && b.stopHeld && !b.m.awaiting
    requires var b' := RunFrom(c, b.(stopHeld := false), Repeat(MExec(now), 4));
      IdleButCalling(c, b') && (if read then b'.mpc.MRead? else b'.mpc.MWrite?)
    ensures exists acts, more :: ReturnsLate(c, acts, more) && PendingCall(c, acts, more, read)
  {
    var acts :| Run(c, acts) == b;
    var more := Repeat(MExec(now), 4);
    OneStep(c, b, StopRelease);
    RunConcat(c, b, [StopRelease], more);
    assert ReturnsLate(c, acts, more) && PendingCall(c, acts, more, read);
  }

  /** The return is not the barrier: there are runs in which
      StopAwaitingSlaveResponse has returned to an idle transport and a
      WriteMessage follows. */
  lemma LateWriteExists(c: Setup)
    requires c.m.txCap >= 1 && !c.m.poll
    ensures exists acts, more :: ReturnsLate(c, acts, more) && PendingCall(c, acts, more, false)
  {
    var m := LinMessage(0, 0, []);
    assert Run(c, []) == INITIAL;
    assert |MessageFrames(false, c.m.channel, m)| == 1;
    ReachableTransmit(c, INITIAL, false, m);
    var b := WithNode(INITIAL, false, Transmitted(c.m, false, EMPTY_NODE, m), None);
    ReachableStop(c, b);
    LateWrite(c, Stopped(b).(stopHeld := false), 0);
    ReturnsLateFrom(c, Stopped(b), 0, false);
  }

  // ------------------------------------------------ a run to the last frame of a response

  /** Both nodes between calls, the master with nothing of its own to send. */
  predicate Resting(b: System) {
    && b.mpc.MIdle? && b.spc.SIdle? && b.mhold.None? && b.shold.None? && !b.stopHeld
    && b.m.txq == [] && b.m.awaiting
  }

  /** A response of two frames. */
  predicate TwoFrames(m: Sendable) { 6 <= |m.data| <= 10 }

  function ResponseFrame(c: Setup, m: Sendable, i: nat): LinEvent
    requires i < |Payloads(m)|
  {
    Frame(true, c.s.channel, Payloads(m)[i])
  }

  /** Where the response is: frame `i` is in the slot, the rest queued. */
  predicate InSlot(c: Setup, b: System, m: Sendable, i: nat)
    requires i < |Payloads(m)|
  {
    && b.net.slot == Some(ResponseFrame(c, m, i)) && b.s.scheduled == b.net.slot
    && b.s.txq == Frames(true, c.s.channel, Payloads(m)[i + 1..])
    && b.net.sq == []
  }

  /** Frame `i` has been fetched, and neither side has read it yet. */
  predicate Fetched(c: Setup, b: System, m: Sendable, i: nat)
    requires i < |Payloads(m)|
  {
    var f := ResponseFrame(c, m, i);
    && b.net.slot == None && b.s.scheduled == Some(f)
    && b.s.txq == Frames(true, c.s.channel, Payloads(m)[i + 1..])
    && b.net.mq == [f.(direction := RX)] && b.net.sq == [f.(direction := TX)]
  }

  lemma FirstOfFrames(channel: byte, ps: seq<seq<byte>>)
    requires ps != []
    ensures Frames(true, channel, ps)[0] == Frame(true, channel, ps[0])
    ensures Frames(true, channel, ps)[1..] == Frames(true, channel, ps[1..])
  {}

  lemma ReadNone(c: Config, isSlave: bool, n: Node, net: Net, now: int)
    requires QueueAt(isSlave, net) == []
    ensures ReadLoop(c, isSlave, n, net, false, now) == (CountRead(n), net, false)
  {}

  lemma ReadOne(c: Config, isSlave: bool, n: Node, net: Net, now: int)
    requires |QueueAt(isSlave, net)| == 1
    ensures var (n', net', d) := HandleEvent(c, isSlave, CountRead(n), PopQueue(isSlave, net), QueueAt(isSlave, net)[0], now);
      QueueAt(isSlave, net') == [] && ReadLoop(c, isSlave, n, net, false, now) == (CountRead(n'), net', d)
  {}

  lemma SlaveStarts(c: Setup, b: System, m: Sendable) returns (b': System)
    requires Resting(b)
    requires b.s == Transmitted(c.s, true, EMPTY_NODE, m) && b.net == INITIAL.net && b.m.rx == FRESH
    ensures Reaches(c, b, SExec(0), b')
    ensures Resting(b') && InSlot(c, b', m, 0) && b'.m == b.m && b'.s.rx == FRESH && b'.net.mq == []
  {
    var (n, net) := ExecuteCycle(c.s, true, b.s, b.net, 0);
    b' := b.(s := n, net := net);
    SlaveCycleRun(c, b, 0);
    FirstOfFrames(c.s.channel, Payloads(m));
    assert EMPTY_NODE.txq + MessageFrames(true, c.s.channel, m) == MessageFrames(true, c.s.channel, m);
  }

  lemma MasterFetches(c: Setup, b: System, m: Sendable, i: nat) returns (b': System)
    requires ValidSetup(c) && c.m.timeout >= 0
    requires i < |Payloads(m)| && Reachable(c, b) && Resting(b) && InSlot(c, b, m, i)
    requires b.m.rx.start == 0
    requires b.net.mq == [] || (|b.net.mq| == 1 && Relevant(false, b.net.mq[0]) && IsFirst(b.net.mq[0].payload))
    ensures Reachable(c, b') && Resting(b') && Fetched(c, b', m, i) && b'.m.rx.start == 0 && b'.s == b.s
    ensures b'.m.rx.state == if b.net.mq == [] then b.m.rx.state else RxStep(b.m.rx.state, b.net.mq[0].payload).0
  {
    var (n, net) := ExecuteCycle(c.m, false, b.m, b.net, 0);
    b' := b.(m := n, net := net);
    MasterCycleRun(c, b, 0);
    ReachableCycle(c, b, MExec(0), b');
    assert Expire(c.m, b.m, 0) == b.m;
    MasterReadsBefore(c.m, b.m, b.net);
    var (n1, net1, done) := ReadLoop(c.m, false, b.m, b.net, false, 0);
    HeaderFetches(c, b, m, i, n1, net1);
  }

  /** The read loop before the header: an empty queue, or a first frame. */
  lemma MasterReadsBefore(c: Config, n: Node, net: Net)
    requires n.rx.start == 0
    requires net.mq == [] || (|net.mq| == 1 && Relevant(false, net.mq[0]) && IsFirst(net.mq[0].payload))
    ensures var (n1, net1, done) := ReadLoop(c, false, n, net, false, 0);
      && !done && net1 == net.(mq := []) && n1.txq == n.txq && n1.awaiting == n.awaiting && n1.rx.start == 0
      && n1.rx.state == if net.mq == [] then n.rx.state else RxStep(n.rx.state, net.mq[0].payload).0
  {
    if net.mq == [] { ReadNone(c, false, n, net, 0); } else { ReadOne(c, false, n, net, 0); }
  }

  lemma HeaderFetches(c: Setup, b: System, m: Sendable, i: nat, n: Node, net: Net)
    requires i < |Payloads(m)| && InSlot(c, b, m, i)
    requires n.txq == [] && n.awaiting && net == b.net.(mq := [])
    ensures var (n', net') := MasterSend(c.m, n, net, false);
      Fetched(c, b.(m := n', net := net'), m, i) && n'.txq == [] && n'.awaiting && n'.rx == n.rx
  {}

  lemma SlaveGoesOn(c: Setup, b: System, m: Sendable, i: nat) returns (b': System)
    requires ValidSetup(c)
    requires i + 1 < |Payloads(m)| && Resting(b) && Fetched(c, b, m, i) && b.s.rx == FRESH
    ensures Reaches(c, b, SExec(0), b')
    ensures Resting(b') && InSlot(c, b', m, i + 1) && b'.m == b.m && b'.s.rx == FRESH && b'.net.mq == b.net.mq
  {
    var (n, net) := ExecuteCycle(c.s, true, b.s, b.net, 0);
    b' := b.(s := n, net := net);
    SlaveCycleRun(c, b, 0);
    ReadOne(c.s, true, b.s, b.net, 0);
    FirstOfFrames(c.s.channel, Payloads(m)[i + 1..]);
    assert Payloads(m)[i + 1..][0] == Payloads(m)[i + 1];
    assert Payloads(m)[i + 1..][1..] == Payloads(m)[i + 2..];
  }

  lemma TwoFrameEffect(m: Sendable)
    requires TwoFrames(m)
    ensures |Payloads(m)| == 2 && IsFirst(Payloads(m)[0])
    ensures var t := RxStep(RESET, Payloads(m)[0]).0;
      t.remaining > 0 && RxStep(t, Payloads(m)[1]).0.remaining == 0
  {
    var body := m.data[4..];
    FirstFrameOpens(RESET, m);
    ConsecutiveStep(m.nad, m.sid, m.data[..4], body, |body|, 1);
    assert body[..|body|] == body;
    assert Payloads(m)[1] == ConsecutiveFrames(m.nad, body, 1)[0];
  }

  /** Nor is an idle transport done reading: there are runs in which
      StopAwaitingSlaveResponse has returned to an idle transport and a
      ReadEvent follows. */
  lemma LateReadExists(c: Setup)
    requires ValidSetup(c) && c.s.txCap >= 2 && c.m.timeout >= 0 && !c.m.poll
    ensures exists acts, more :: ReturnsLate(c, acts, more) && PendingCall(c, acts, more, true)
  {
    var m := LinMessage(1, 0x62, [0, 0, 0, 0, 0, 0]);
    TwoFrameEffect(m);
    assert Run(c, []) == INITIAL;
    ReachableTransmit(c, INITIAL, true, m);
    var b0 := WithNode(INITIAL, true, Transmitted(c.s, true, EMPTY_NODE, m), None);
    ReachableStep(c, b0, SetAwaiting);
    var b1 := SlaveStarts(c, Apply(c, b0, SetAwaiting), m);
    ReachableCycle(c, Apply(c, b0, SetAwaiting), SExec(0), b1);
    var b2 := MasterFetches(c, b1, m, 0);
    var b3 := SlaveGoesOn(c, b2, m, 0);
    ReachableCycle(c, b2, SExec(0), b3);
    var b4 := MasterFetches(c, b3, m, 1);
    ReachableStop(c, b4);
    LateRead(c, Stopped(b4).(stopHeld := false), 0);
    ReturnsLateFrom(c, Stopped(b4), 0, true);
  }
}
