/** A confirmation dropped at the slave's full event queue: the slave waits for
    it for ever and sends nothing more. */
module Muted {
  import opened LinTypes
  import opened History
  import opened Bus
  import opened BusInvariants
  import opened BusRuns
  import opened Cycle
  import opened Quiescence

  /** The slave waits for a confirmation that is nowhere on its way. */
  predicate Stuck(b: System) {
    && Outstanding(b.net, b.mpc) == 0 && Waiting(b.s, b.spc)
    && !b.spc.SConfirm? && !b.spc.SSchedule?
  }

  predicate MutedOnceLost(b: System) { b.net.lostTx ==> Stuck(b) }

  /** Nothing of the slave's has left it since. */
  predicate SameSent(b: System, b': System) {
    b'.s.log.written == b.s.log.written && b'.net.taken == b.net.taken
  }

  lemma StuckExec(c: Setup, b: System, now: int)
    requires Stuck(b)
    ensures var b' := Apply(c, b, MExec(now)); Stuck(b') && SameSent(b, b') && (b.net.lostTx ==> b'.net.lostTx)
  {
    if b.mpc.MWrite? { ConfirmationsAppend(b.net.sq, b.mpc.f.(channel := c.m.channel, direction := RX)); }
  }

  lemma StuckSlave(c: Setup, b: System, now: int)
    requires Stuck(b)
    ensures var b' := Apply(c, b, SExec(now)); Stuck(b') && SameSent(b, b') && (b.net.lostTx ==> b'.net.lostTx)
  {
    if b.spc.SRead? && b.net.sq != [] { assert b.net.sq[0].direction.RX?; }
  }

  lemma StuckApp(c: Setup, b: System, a: Action)
    requires Stuck(b) && !a.MExec? && !a.SExec?
    ensures var b' := Apply(c, b, a); Stuck(b') && SameSent(b, b') && (b.net.lostTx ==> b'.net.lostTx)
  {}

  lemma StuckStep(c: Setup, b: System, a: Action)
    requires Stuck(b)
    ensures var b' := Apply(c, b, a); Stuck(b') && SameSent(b, b') && (b.net.lostTx ==> b'.net.lostTx)
  {
    match a
    case MExec(now) => StuckExec(c, b, now);
    case SExec(now) => StuckSlave(c, b, now);
    case _ => StuckApp(c, b, a);
  }

  /** The one step that loses a confirmation. */
  lemma LosesConfirmation(c: Setup, b: System, a: Action)
    requires SlotOnce(b.net, b.s, b.mpc, b.spc) && !b.net.lostTx
    ensures MutedOnceLost(Apply(c, b, a))
  {
    if a.MExec? && b.mpc.MPushS? {
      assert Outstanding(b.net, b.mpc) == 1;
    }
  }

  lemma {:induction false} RunMuted(c: Setup, acts: seq<Action>)
    requires ValidSetup(c)
    ensures MutedOnceLost(Run(c, acts))
  {
    if acts != [] {
      var init, a := acts[..|acts| - 1], acts[|acts| - 1];
      RunMuted(c, init);
      InvRun(c, init);
      if Run(c, init).net.lostTx { StuckStep(c, Run(c, init), a); } else { LosesConfirmation(c, Run(c, init), a); }
    }
  }

  lemma {:induction false} StuckForever(c: Setup, b: System, more: seq<Action>)
    requires Stuck(b)
    ensures var b' := RunFrom(c, b, more); Stuck(b') && SameSent(b, b')
  {
    if more != [] {
      StuckForever(c, b, more[..|more| - 1]);
      StuckStep(c, RunFrom(c, b, more[..|more| - 1]), more[|more| - 1]);
    }
  }

  /** A dropped confirmation mutes the slave: in every run in which its event
      queue dropped one, and however the run goes on, it hands no frame to its
      driver any more and none of its frames reaches the bus. */
  lemma DroppedConfirmationMutes(c: Setup, acts: seq<Action>, more: seq<Action>)
    requires ValidSetup(c) && Run(c, acts).net.lostTx
    ensures SameSent(Run(c, acts), RunFrom(c, Run(c, acts), more))
    ensures Waiting(RunFrom(c, Run(c, acts), more).s, RunFrom(c, Run(c, acts), more).spc)
  {
    RunMuted(c, acts);
    StuckForever(c, Run(c, acts), more);
  }

  // ------------------------------------------------ a run that drops one

  /** The slave has a frame in the slot and has not executed since; `n` frames
      of the master are in its event queue. */
  predicate Backlog(b: System, n: nat) {
    && b.mpc.MIdle? && b.mhold.None? && !b.stopHeld
    && b.m.txq == [] && b.m.awaiting && b.m.rx == FRESH
    && (b.net.mq == [] || (|b.net.mq| == 1 && b.net.mq[0].direction.TX?))
    && b.net.slot.Some? && |b.net.sq| == n
  }

  const PING: LinMessage := LinMessage(1, 0x3E, [])

  /** What the master's read loop leaves: its own confirmations say nothing. */
  lemma ReadsOwn(c: Config, n: Node, net: Net)
    requires net.mq == [] || (|net.mq| == 1 && net.mq[0].direction.TX?)
    ensures var (n', net', done) := ReadLoop(c, false, n, net, false, 0);
      && !done && net' == net.(mq := [])
      && n'.txq == n.txq && n'.awaiting == n.awaiting && n'.rx == n.rx
  {
    if net.mq == [] { ReadNone(c, false, n, net, 0); } else { ReadOne(c, false, n, net, 0); }
  }

  lemma WritesPing(c: Config, n: Node, net: Net)
    requires |n.txq| == 1 && net.mq == [] && |net.sq| < EVENT_QUEUE
    ensures var (n', net') := MasterSend(c, n, net, false);
      && n'.txq == [] && n'.awaiting == n.awaiting && n'.rx == n.rx && net'.slot == net.slot
      && |net'.sq| == |net.sq| + 1 && |net'.mq| == 1 && net'.mq[0].direction.TX?
  {}

  lemma OneMorePing(c: Setup, b: System, n: nat) returns (b': System)
    requires c.m.txCap >= 1 && n < EVENT_QUEUE
    requires Reachable(c, b) && Backlog(b, n)
    ensures Reachable(c, b') && Backlog(b', n + 1)
  {
    assert |MessageFrames(false, c.m.channel, PING)| == 1;
    ReachableTransmit(c, b, false, PING);
    var b1 := WithNode(b, false, Transmitted(c.m, false, b.m, PING), None);
    var (n', net') := ExecuteCycle(c.m, false, b1.m, b1.net, 0);
    b' := b1.(m := n', net := net');
    MasterCycleRun(c, b1, 0);
    ReachableCycle(c, b1, MExec(0), b');
    ReadsOwn(c.m, b1.m, b1.net);
    var (n1, net1, done) := ReadLoop(c.m, false, b1.m, b1.net, false, 0);
    WritesPing(c.m, n1, net1);
  }

  lemma {:induction false} Pings(c: Setup, b: System, n: nat) returns (b': System)
    requires c.m.txCap >= 1 && n <= EVENT_QUEUE
    requires Reachable(c, b) && Backlog(b, 0)
    ensures Reachable(c, b') && Backlog(b', n)
  {
    b' := b;
    if n > 0 {
      b' := Pings(c, b, n - 1);
      b' := OneMorePing(c, b', n - 1);
    }
  }

  /** The header that finds the slave's event queue full. */
  lemma HeaderDrops(c: Setup, b: System)
    requires Reachable(c, b) && Backlog(b, EVENT_QUEUE)
    ensures exists acts :: Run(c, acts).net.lostTx
  {
    var (n', net') := ExecuteCycle(c.m, false, b.m, b.net, 0);
    var b' := b.(m := n', net := net');
    MasterCycleRun(c, b, 0);
    ReachableCycle(c, b, MExec(0), b');
    ReadsOwn(c.m, b.m, b.net);
    var acts :| Run(c, acts) == b';
    assert Run(c, acts).net.lostTx;
  }

  /** It happens: the slave schedules a frame and does not execute while the
      master writes 20 frames and asks for a response. */
  lemma ConfirmationCanBeDropped(c: Setup)
    requires c.m.txCap >= 1 && c.s.txCap >= 1
    ensures exists acts :: Run(c, acts).net.lostTx
  {
    assert Run(c, []) == INITIAL;
    assert |MessageFrames(true, c.s.channel, PING)| == 1;
    ReachableTransmit(c, INITIAL, true, PING);
    var b0 := WithNode(INITIAL, true, Transmitted(c.s, true, EMPTY_NODE, PING), None);
    ReachableStep(c, b0, SetAwaiting);
    var b1 := SlaveStarts(c, Apply(c, b0, SetAwaiting), PING);
    ReachableCycle(c, Apply(c, b0, SetAwaiting), SExec(0), b1);
    var b2 := Pings(c, b1, EVENT_QUEUE);
    HeaderDrops(c, b2);
  }
}
