/** What the flags of a run stand for: a message is lost at a full receive
    queue, to a timeout or at a full event queue, and nowhere else. */
module Causes {
  import opened LinTypes
  import opened Framing
  import opened Reassembly
  import opened Bus
  import opened BusRuns
  import opened Cycle

  datatype Flag = Overflow(slave: bool) | Expired(slave: bool) | LostFirst | LostRx | LostTx

  predicate Raised(b: System, f: Flag) {
    match f
    case Overflow(slave) => NodeOf(b, slave).log.overflow
    case Expired(slave) => NodeOf(b, slave).log.expired
    case LostFirst => b.net.lostFirst
    case LostRx => b.net.lostRx
    case LostTx => b.net.lostTx
  }

  /** A node completes a message in this step. */
  predicate CompletesOne(c: Setup, b: System, a: Action, slave: bool) {
    |NodeOf(Apply(c, b, a), slave).log.completed| > |NodeOf(b, slave).log.completed|
  }

  /** A node begins a cycle at this time. */
  predicate BeginsCycle(b: System, a: Action, slave: bool, now: int) {
    if slave then a == SExec(now) && b.spc.SIdle? else a == MExec(now) && b.mpc.MIdle? && !b.stopHeld
  }

  function Clock(a: Action): int { if a.MExec? || a.SExec? then a.now else 0 }

  /** The one thing that raises a flag: completing a message when the receive
      queue is full; beginning a cycle when the reception is too old; writing a
      frame, a first frame, or confirming one when the slave's event queue is
      full. */
  predicate Cause(c: Setup, b: System, a: Action, f: Flag) {
    match f
    case Overflow(slave) => CompletesOne(c, b, a, slave) && |NodeOf(b, slave).rxq| >= ConfigOf(c, slave).rxCap
    case Expired(slave) =>
      var rx := NodeOf(b, slave).rx;
      BeginsCycle(b, a, slave, Clock(a)) && rx.state.remaining > 0 && Clock(a) - rx.start > ConfigOf(c, slave).timeout
    case LostFirst => a.MExec? && b.mpc.MWrite? && IsFirst(b.mpc.f.payload) && |b.net.sq| >= 20
    case LostRx => a.MExec? && b.mpc.MWrite? && |b.net.sq| >= 20
    case LostTx => a.MExec? && b.mpc.MPushS? && |b.net.sq| >= 20
  }

  /** What a step does to a receive queue of that capacity: a completed message
      joins it unless it is full, and only the application takes one. */
  predicate QueueStep(cap: nat, n: Node, n': Node, pop: bool) {
    if pop then
      && n'.log.completed == n.log.completed
      && if n.rxq == [] then n'.rxq == [] && n'.log.popped == n.log.popped
         else n'.rxq == n.rxq[1..] && n'.log.popped == n.log.popped + [n.rxq[0]]
    else
      && n'.log.popped == n.log.popped
      && |n.log.completed| <= |n'.log.completed| <= |n.log.completed| + 1
      && n'.log.completed[..|n.log.completed|] == n.log.completed
      && n'.rxq == if |n.rxq| < cap then n.rxq + n'.log.completed[|n.log.completed|..] else n.rxq
  }

  /** Reading an event raises one flag only, and by one way only. */
  lemma ReceiveFlags(c: Config, isSlave: bool, n: Node, ev: LinEvent, now: int)
    ensures var n' := ReceiveEvent(c, isSlave, n, ev, now).0;
      && (n'.log.overflow <==> n.log.overflow || (|n'.log.completed| > |n.log.completed| && |n.rxq| >= c.rxCap))
      && n'.log.expired == n.log.expired
      && QueueStep(c.rxCap, n, n', false)
  {}

  /** No other step of the master completes, expires or queues anything but the
      check that begins a cycle. */
  lemma MasterKeepsNode(c: Config, n: Node, net: Net, pc: MPc, now: int)
    requires !(pc.MRead? && net.mq != [])
    ensures var n' := MasterStep(c, n, net, pc, now).0;
      && n'.log.completed == n.log.completed && n'.log.popped == n.log.popped && n'.rxq == n.rxq
      && n'.log.overflow == n.log.overflow
      && (n'.log.expired <==> n.log.expired || (pc.MIdle? && n.rx.state.remaining > 0 && now - n.rx.start > c.timeout))
  {}

  lemma SlaveKeepsNode(c: Config, n: Node, net: Net, pc: SPc, now: int)
    requires !(pc.SRead? && net.sq != [])
    ensures var n' := SlaveStep(c, n, net, pc, now).0;
      && n'.log.completed == n.log.completed && n'.log.popped == n.log.popped && n'.rxq == n.rxq
      && n'.log.overflow == n.log.overflow
      && (n'.log.expired <==> n.log.expired || (pc.SIdle? && n.rx.state.remaining > 0 && now - n.rx.start > c.timeout))
  {}

  lemma MasterNode(c: Setup, b: System, now: int)
    ensures var b' := Apply(c, b, MExec(now));
      && b'.s == b.s
      && (b'.m.log.overflow <==> b.m.log.overflow || Cause(c, b, MExec(now), Overflow(false)))
      && (b'.m.log.expired <==> b.m.log.expired || Cause(c, b, MExec(now), Expired(false)))
      && QueueStep(c.m.rxCap, b.m, b'.m, false)
  {
    if b.mpc.MRead? && b.net.mq != [] {
      ReceiveFlags(c.m, false, CountRead(b.m), b.net.mq[0], now);
    } else {
      MasterKeepsNode(c.m, b.m, b.net, b.mpc, now);
    }
  }

  lemma SlaveNode(c: Setup, b: System, now: int)
    ensures var b' := Apply(c, b, SExec(now));
      && b'.m == b.m
      && (b'.s.log.overflow <==> b.s.log.overflow || Cause(c, b, SExec(now), Overflow(true)))
      && (b'.s.log.expired <==> b.s.log.expired || Cause(c, b, SExec(now), Expired(true)))
      && QueueStep(c.s.rxCap, b.s, b'.s, false)
  {
    if b.spc.SRead? && b.net.sq != [] {
      ReceiveFlags(c.s, true, CountRead(b.s), b.net.sq[0], now);
    } else {
      SlaveKeepsNode(c.s, b.s, b.net, b.spc, now);
    }
  }

  lemma NetFlagsExec(c: Setup, b: System, now: int, f: Flag)
    requires f.LostFirst? || f.LostRx? || f.LostTx?
    ensures Raised(Apply(c, b, MExec(now)), f) <==> Raised(b, f) || Cause(c, b, MExec(now), f)
  {}

  lemma NetFlagsOther(c: Setup, b: System, a: Action)
    requires !a.MExec?
    ensures var net := Apply(c, b, a).net;
      net.lostFirst == b.net.lostFirst && net.lostRx == b.net.lostRx && net.lostTx == b.net.lostTx
  {}

  lemma OtherFlags(c: Setup, b: System, a: Action, f: Flag)
    requires !a.MExec? && !a.SExec?
    ensures Raised(Apply(c, b, a), f) <==> Raised(b, f) || Cause(c, b, a, f)
  {}

  lemma FlagStep(c: Setup, b: System, a: Action, f: Flag)
    ensures Raised(Apply(c, b, a), f) <==> Raised(b, f) || Cause(c, b, a, f)
  {
    if f.LostFirst? || f.LostRx? || f.LostTx? {
      if a.MExec? { NetFlagsExec(c, b, a.now, f); } else { NetFlagsOther(c, b, a); }
    } else {
      match a
      case MExec(now) => MasterNode(c, b, now);
      case SExec(now) => SlaveNode(c, b, now);
      case _ => OtherFlags(c, b, a, f);
    }
  }

  /** Step `n` of a run is a cause. */
  predicate CauseAt(c: Setup, acts: seq<Action>, f: Flag, n: nat)
    requires n < |acts|
  {
    Cause(c, Run(c, acts[..n]), acts[n], f)
  }

  lemma EarlierCause(c: Setup, acts: seq<Action>, f: Flag, n: nat)
    requires n < |acts| - 1
    ensures CauseAt(c, acts[..|acts| - 1], f, n) == CauseAt(c, acts, f, n)
  {
    assert acts[..|acts| - 1][..n] == acts[..n];
  }

  /** Some step of the run was a cause. */
  predicate Happened(c: Setup, acts: seq<Action>, f: Flag) {
    exists n: nat :: n < |acts| && CauseAt(c, acts, f, n)
  }

  lemma HappenedStep(c: Setup, acts: seq<Action>, f: Flag)
    requires acts != []
    ensures Happened(c, acts, f) <==> Happened(c, acts[..|acts| - 1], f) || CauseAt(c, acts, f, |acts| - 1)
  {
    if n: nat :| n < |acts| && CauseAt(c, acts, f, n) {
      if n < |acts| - 1 { EarlierCause(c, acts, f, n); }
    }
    var init := acts[..|acts| - 1];
    if n: nat :| n < |init| && CauseAt(c, init, f, n) {
      EarlierCause(c, acts, f, n);
    }
  }

  /** A flag is raised in a run exactly when some step of it was its cause. */
  lemma {:induction false} FlagIff(c: Setup, acts: seq<Action>, f: Flag)
    ensures Raised(Run(c, acts), f) <==> Happened(c, acts, f)
  {
    if acts != [] {
      FlagIff(c, acts[..|acts| - 1], f);
      FlagStep(c, Run(c, acts[..|acts| - 1]), acts[|acts| - 1], f);
      HappenedStep(c, acts, f);
    }
  }

  /** Every step, seen from either receive queue. */
  lemma ReceiveQueueStep(c: Setup, b: System, a: Action, slave: bool)
    ensures QueueStep(ConfigOf(c, slave).rxCap, NodeOf(b, slave), NodeOf(Apply(c, b, a), slave), a == Pop(slave))
  {
    match a
    case MExec(now) => MasterNode(c, b, now);
    case SExec(now) => SlaveNode(c, b, now);
    case _ =>
  }

  // ------------------------------------------------ nothing lost

  /** If no message was completed when the receive queue was full, what the
      application took and what it has waiting is everything completed. */
  lemma NothingOverflows(c: Setup, acts: seq<Action>, slave: bool)
    requires ValidSetup(c) && !Happened(c, acts, Overflow(slave))
    ensures var n := NodeOf(Run(c, acts), slave); n.log.popped + n.rxq == n.log.completed
  {
    InvRun(c, acts);
    FlagIff(c, acts, Overflow(slave));
  }

  /** Nothing was completed by that node when its receive queue was full, and
      no reception of it expired. */
  predicate KeptAll(c: Setup, acts: seq<Action>, slave: bool) {
    !Happened(c, acts, Overflow(slave)) && !Happened(c, acts, Expired(slave))
  }

  /** And if nothing timed out either, was dropped at an event queue, or is
      still on the way, that is everything the other side accepted. */
  lemma NothingLost(c: Setup, acts: seq<Action>)
    requires ValidSetup(c)
    ensures var b := Run(c, acts);
      && (KeptAll(c, acts, true) && !Happened(c, acts, LostRx) && NothingForSlave(b) ==>
            b.s.log.popped + b.s.rxq == b.m.log.accepted)
      && (KeptAll(c, acts, false) && NothingForMaster(b) ==> b.m.log.popped + b.m.rxq == b.s.log.accepted)
  {
    EndToEnd(c, acts);
    FlagIff(c, acts, LostRx);
    FlagIff(c, acts, Expired(true));
    FlagIff(c, acts, Expired(false));
    if KeptAll(c, acts, true) { NothingOverflows(c, acts, true); }
    if KeptAll(c, acts, false) { NothingOverflows(c, acts, false); }
  }

  // ------------------------------------------------ Transmit

  /** When a Transmit is accepted: none is in progress, the message is within
      the limit, and its frames fit behind those queued. */
  lemma AcceptedIff(c: Setup, b: System, slave: bool, m: LinMessage)
    ensures var n, b' := NodeOf(b, slave), Apply(c, b, Begin(slave, m));
      if HoldOf(b, slave).None? && |m.data| <= 4094 && FrameTotal(|m.data|) <= ConfigOf(c, slave).txCap - |n.txq|
      then NodeOf(b', slave).log.accepted == n.log.accepted + [m] && HoldOf(b', slave).Some?
      else b' == b
  {
    if |m.data| <= MAX_DATA { FrameCount(m); }
  }
}
