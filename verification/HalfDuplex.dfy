/** Half-duplex operation: a single Transmit against the master's execute,
    access by access. */
module HalfDuplex {
  import opened LinTypes
  import opened Framing
  import opened Bus
  import opened BusInvariants
  import opened BusFaithful
  import opened Quiescence

  /** No 0x3D frame is unread at the master or on its way to it. */
  predicate NoSlaveFrame(b: System) {
    RxPays(b.net.mq) == [] && !b.mpc.MPushM? && !b.mpc.MPushS?
  }

  /** Where a Transmit may start: nothing to do, the flag clear, and no slave
      frame left over. */
  predicate Start(c: Setup, b: System) {
    NothingToDo(c, b) && !b.m.awaiting && NoSlaveFrame(b)
  }

  /** A cycle already under way will request a header if it finds the transmit
      queue empty and the flag set. */
  predicate Committed(pc: MPc) {
    pc == MRead(false) || pc == MSelect(false) || pc.MDecide? || pc.MRequest?
  }

  /** Frames accepted but not handed to WriteMessage. */
  function ToWrite(b: System): seq<LinEvent> { Pending(b.m, MasterHand(b.mpc), b.mhold) }

  /** Until all frames are written, no header is requested: an active cycle
      finds a frame, and the flag is set after the last send. */
  predicate Safe(c: Setup, b: System, requests: nat, total: seq<LinEvent>) {
    && b.m.log.written + ToWrite(b) == total
    && (ToWrite(b) != [] ==> Holding(c, b, requests))
  }

  predicate Holding(c: Setup, b: System, requests: nat) {
    && b.m.log.requests == requests
    && b.m.rx.state.remaining == 0 && !c.m.poll && NoSlaveFrame(b)
    && (b.m.awaiting ==> b.mhold.None?)
    && !b.mpc.MDecide? && !b.mpc.MRequest?
    && (b.mpc == MRead(false) || b.mpc == MSelect(false) ==> b.m.txq != [])
  }

  /** The frames themselves: moved, never lost. */
  lemma ToWriteStep(c: Setup, b: System, a: Action)
    requires Passive(a)
    ensures var b' := Apply(c, b, a); b'.m.log.written + ToWrite(b') == b.m.log.written + ToWrite(b)
  {
    match a
    case MExec(now) =>
      if !(b.mpc.MIdle? && b.stopHeld) {
        var (n', _, pc') := MasterStep(c.m, b.m, b.net, b.mpc, now);
        MasterMoves(c.m, b.m, b.net, b.mpc, now);
        MovesPending(b.m, MasterHand(b.mpc), n', MasterHand(pc'), b.mhold);
        if n'.log.written != b.m.log.written {
          ConcatAssoc(b.m.log.written, [MasterHand(b.mpc)[0]], Pending(n', MasterHand(pc'), b.mhold));
        }
      }
    case Send(false) => SendWire(c.m, b.m, b.mhold, MasterHand(b.mpc));
    case _ =>
  }

  lemma HoldingRead(c: Setup, b: System, requests: nat, now: int)
    requires Holding(c, b, requests) && ToWrite(b) != [] && b.mpc.MRead?
    ensures Holding(c, Apply(c, b, MExec(now)), requests)
  {
    if b.net.mq != [] {
      ReceiveIrrelevant(c.m, false, CountRead(b.m), b.net.mq[0], now);
    }
  }

  lemma HoldingExec(c: Setup, b: System, requests: nat, now: int)
    requires Holding(c, b, requests) && ToWrite(b) != []
    ensures var b' := Apply(c, b, MExec(now)); ToWrite(b') != [] ==> Holding(c, b', requests)
  {
    if b.mpc.MRead? {
      HoldingRead(c, b, requests, now);
    } else if b.mpc.MWrite? {
      RxPaysAppend(b.net.mq, b.mpc.f.(channel := c.m.channel, direction := TX));
    }
  }

  lemma HoldingApp(c: Setup, b: System, requests: nat, a: Action)
    requires Holding(c, b, requests) && ToWrite(b) != [] && Passive(a) && !a.MExec?
    ensures var b' := Apply(c, b, a); ToWrite(b') != [] ==> Holding(c, b', requests)
  {}

  lemma {:induction false} SafeRun(c: Setup, b: System, acts: seq<Action>, requests: nat, total: seq<LinEvent>)
    requires Safe(c, b, requests, total) && AllPassive(acts)
    ensures Safe(c, RunFrom(c, b, acts), requests, total)
  {
    if acts != [] {
      var init, a := acts[..|acts| - 1], acts[|acts| - 1];
      SafeRun(c, b, init, requests, total);
      var b1 := RunFrom(c, b, init);
      ToWriteStep(c, b1, a);
      if ToWrite(b1) != [] {
        if a.MExec? { HoldingExec(c, b1, requests, a.now); } else { HoldingApp(c, b1, requests, a); }
      } else {
        WrittenStays(c, b1, a);
      }
    }
  }

  lemma WrittenStays(c: Setup, b: System, a: Action)
    requires ToWrite(b) == [] && Passive(a)
    ensures ToWrite(Apply(c, b, a)) == []
  {
    if a.MExec? {
      MasterMoves(c.m, b.m, b.net, b.mpc, a.now);
    } else {
      WrittenStaysApp(c, b, a);
    }
  }

  lemma WrittenStaysApp(c: Setup, b: System, a: Action)
    requires ToWrite(b) == [] && Passive(a) && !a.MExec?
    ensures ToWrite(Apply(c, b, a)) == []
  {}

  /** The run has requested a 0x3D header although some frame of the message
      has not been handed to WriteMessage. */
  predicate HeaderTooEarly(c: Setup, b: System, msg: LinMessage, acts: seq<Action>) {
    var b' := RunFrom(c, Apply(c, b, Begin(false, msg)), acts);
    b'.m.log.requests > b.m.log.requests && ToWrite(b') != []
  }

  lemma HalfDuplexSafe(c: Setup, b: System, msg: LinMessage, acts: seq<Action>)
    requires Start(c, b) && !Committed(b.mpc) && Admit(c.m, false, b.m, msg).Some?
    requires AllPassive(acts)
    ensures !HeaderTooEarly(c, b, msg, acts)
  {
    var b1 := Apply(c, b, Begin(false, msg));
    assert Holding(c, b1, b.m.log.requests);
    SafeRun(c, b1, acts, b.m.log.requests, b1.m.log.written + ToWrite(b1));
  }

  /** A passive run from `b` requests a header with frames still to write. */
  predicate CanRequest(c: Setup, b: System, requests: nat, acts: seq<Action>) {
    && AllPassive(acts)
    && RunFrom(c, b, acts).m.log.requests > requests && ToWrite(RunFrom(c, b, acts)) != []
  }

  lemma StepBack(c: Setup, b: System, a: Action, requests: nat, acts: seq<Action>)
    requires Passive(a) && CanRequest(c, Apply(c, b, a), requests, acts)
    ensures CanRequest(c, b, requests, [a] + acts)
  {
    OneStep(c, b, a);
    RunConcat(c, b, [a], acts);
  }

  /** A committed cycle that found the queue empty: the whole Transmit slips in
      before the flag is read. */
  lemma {:induction false} DecideWitness(c: Setup, b: System) returns (acts: seq<Action>)
    requires b.mpc.MDecide? && b.mhold.Some? && b.m.txq + b.mhold.value != []
    requires |b.m.txq| + |b.mhold.value| <= c.m.txCap
    ensures CanRequest(c, b, b.m.log.requests, acts)
    decreases |b.mhold.value|
  {
    if b.mhold.value == [] {
      var b1 := Apply(c, b, End(false));
      TwoSteps(c, b1, MExec(0), MExec(0));
      assert CanRequest(c, b1, b.m.log.requests, [MExec(0), MExec(0)]);
      StepBack(c, b, End(false), b.m.log.requests, [MExec(0), MExec(0)]);
      acts := [End(false)] + [MExec(0), MExec(0)];
    } else {
      acts := DecideWitness(c, Apply(c, b, Send(false)));
      StepBack(c, b, Send(false), b.m.log.requests, acts);
      acts := [Send(false)] + acts;
    }
  }

  /** Any committed cycle gets there without a frame being sent meanwhile. */
  lemma {:induction false} CommittedWitness(c: Setup, b: System) returns (acts: seq<Action>)
    requires Committed(b.mpc) && NoSlaveFrame(b) && b.m.txq == []
    requires b.mhold.Some? && b.mhold.value != [] && |b.mhold.value| <= c.m.txCap
    ensures CanRequest(c, b, b.m.log.requests, acts)
    decreases b.mpc.MRead?, |b.net.mq|, b.mpc.MSelect?
  {
    var b1 := Apply(c, b, MExec(0));
    if b.mpc.MDecide? {
      acts := DecideWitness(c, b);
    } else if b.mpc.MRequest? {
      OneStep(c, b, MExec(0));
      acts := [MExec(0)];
    } else {
      if b.mpc.MRead? && b.net.mq != [] {
        ReceiveIrrelevant(c.m, false, CountRead(b.m), b.net.mq[0], 0);
      }
      acts := CommittedWitness(c, b1);
      StepBack(c, b, MExec(0), b.m.log.requests, acts);
      acts := [MExec(0)] + acts;
    }
  }

  /** Half-duplex, exactly. From a start position, whatever single message is
      transmitted and however Transmit's sends interleave with execute's reads
      of the queue length, the flag and the queue, a header is never requested
      before every frame of the message is handed to WriteMessage - if and only
      if no execute cycle is already committed to look for a response. */
  lemma HalfDuplexIff(c: Setup, b: System, msg: LinMessage)
    requires Start(c, b) && Admit(c.m, false, b.m, msg).Some?
    ensures Committed(b.mpc) <==> exists acts :: AllPassive(acts) && HeaderTooEarly(c, b, msg, acts)
  {
    if Committed(b.mpc) {
      var b1 := Apply(c, b, Begin(false, msg));
      var acts := CommittedWitness(c, b1);
      assert HeaderTooEarly(c, b, msg, acts);
    } else {
      forall acts | AllPassive(acts) ensures !HeaderTooEarly(c, b, msg, acts) {
        HalfDuplexSafe(c, b, msg, acts);
      }
    }
  }

  // ------------------------------------------------ in runs

  /** The failing position occurs: in the run `past` the transport is idle and
      the flag has been cleared, yet a header then goes before the message. */
  predicate FailsAfter(c: Setup, past: seq<Action>, msg: LinMessage, acts: seq<Action>) {
    var b := Run(c, past);
    Start(c, b) && Committed(b.mpc) && AllPassive(acts) && HeaderTooEarly(c, b, msg, acts)
  }

  lemma HeaderTooEarlyExists(c: Setup, msg: Sendable)
    requires !c.m.poll && c.m.timeout >= 0 && |Payloads(msg)| <= c.m.txCap
    ensures exists past, acts :: FailsAfter(c, past, msg, acts)
  {
    var b1 := INITIAL.(m := EMPTY_NODE.(awaiting := true));
    assert Run(c, []) == INITIAL;
    ReachableStep(c, INITIAL, SetAwaiting);
    CycleOpens(c, b1, 0);
    ReachableStep(c, b1, MExec(0));
    QueueTest(c, b1.(mpc := MLen), 0);
    ReachableStep(c, b1.(mpc := MLen), MExec(0));
    FlagTest(c, b1.(mpc := MFlag), 0);
    ReachableStep(c, b1.(mpc := MFlag), MExec(0));
    var b := INITIAL.(mpc := MRead(false));
    ReachableStep(c, b1.(mpc := MRead(false)), StopClear);
    var past :| Run(c, past) == b;
    assert Admit(c.m, false, b.m, msg).Some?;
    HalfDuplexIff(c, b, msg);
    var acts :| AllPassive(acts) && HeaderTooEarly(c, b, msg, acts);
    assert FailsAfter(c, past, msg, acts);
  }

  /** A cycle under way has found nothing to do so far. */
  predicate Undecided(pc: MPc) { pc.MIdle? || pc.MLen? || pc.MFlag? }

  lemma {:induction false} UndecidedForever(c: Setup, b: System, acts: seq<Action>)
    requires NothingToDo(c, b) && !b.m.awaiting && Undecided(b.mpc) && AllPassive(acts)
    ensures var b' := RunFrom(c, b, acts); NothingToDo(c, b') && !b'.m.awaiting && Undecided(b'.mpc)
  {
    if acts != [] { UndecidedForever(c, b, acts[..|acts| - 1]); }
  }

  /** After the stop barrier of any run a Transmit is half-duplex, unless a
      slave frame was left unread. */
  lemma BarrierThenTransmit(c: Setup, past: seq<Action>, acts: seq<Action>, msg: LinMessage, more: seq<Action>)
    requires var b := Run(c, past); b.stopHeld && !b.m.awaiting && NothingToDo(c, b)
    requires AllPassive(acts) && AllPassive(more)
    requires var b' := RunFrom(c, Run(c, past), acts); NoSlaveFrame(b') && Admit(c.m, false, b'.m, msg).Some?
    ensures !HeaderTooEarly(c, RunFrom(c, Run(c, past), acts), msg, more)
  {
    StopExcludes(c, past);
    UndecidedForever(c, Run(c, past), acts);
    HalfDuplexSafe(c, RunFrom(c, Run(c, past), acts), msg, more);
  }
}
