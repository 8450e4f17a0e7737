/** One uninterrupted call of execute as a function, and the proof that it is
    a run of the fine-grained machine. */
module Cycle {
  import opened LinTypes
  import opened Framing
  import opened Bus

  /** Dequeues the next frame and schedules it as the slave's response. */
  function ScheduleNext(c: Config, n: Node, net: Net): (Node, Net)
    requires n.txq != []
  {
    var f := n.txq[0];
    (n.(txq := n.txq[1..], scheduled := Some(f), log := n.log.(written := n.log.written + [f])),
     net.(slot := Some(f.(channel := c.channel))))
  }

  /** receiveFromDriver: the new state and whether a message was completed. */
  function HandleEvent(c: Config, isSlave: bool, n: Node, net: Net, ev: LinEvent, now: int): (Node, Net, bool) {
    if isSlave && ev.direction.TX? && n.scheduled.Some? then
      if n.scheduled.value.id != ev.id then (n, net, false)
      else
        var n' := n.(scheduled := None);
        if n.txq == [] then (n', net, false)
        else var (n'', net'') := ScheduleNext(c, n', net); (n'', net'', false)
    else
      var (n', done) := ReceiveEvent(c, isSlave, n, ev, now);
      (n', net, done)
  }

  function QueueAt(isSlave: bool, net: Net): seq<LinEvent> { if isSlave then net.sq else net.mq }

  function PopQueue(isSlave: bool, net: Net): Net
    requires QueueAt(isSlave, net) != []
  {
    if isSlave then net.(sq := net.sq[1..]) else net.(mq := net.mq[1..])
  }

  /** The loop that drains the driver. */
  function ReadLoop(c: Config, isSlave: bool, n: Node, net: Net, done: bool, now: int): (Node, Net, bool)
    decreases |QueueAt(isSlave, net)|
  {
    var q := QueueAt(isSlave, net);
    if q == [] then (CountRead(n), net, done)
    else
      var (n', net', d) := HandleEvent(c, isSlave, CountRead(n), PopQueue(isSlave, net), q[0], now);
      ReadLoop(c, isSlave, n', net', done || d, now)
  }

  function SlaveSend(c: Config, n: Node, net: Net): (Node, Net) {
    if n.scheduled.Some? || n.txq == [] then (n, net) else ScheduleNext(c, n, net)
  }

  function MasterSend(c: Config, n: Node, net: Net, done: bool): (Node, Net) {
    if n.txq != [] then
      (n.(txq := n.txq[1..], log := n.log.(written := n.log.written + [n.txq[0]])), NetWrite(c, net, n.txq[0]))
    else if done || !ShouldRequest(c, n) then (n, net)
    else (n.(log := n.log.(requests := n.log.requests + 1)), NetRequest(net))
  }

  function NetRequest(net: Net): Net {
    if net.slot.None? then net
    else
      var ev := net.slot.value;
      net.(slot := None, taken := net.taken + [ev], mq := Push(net.mq, ev.(direction := RX)),
           sq := Push(net.sq, ev.(direction := TX)), lostTx := net.lostTx || |net.sq| >= EVENT_QUEUE)
  }

  /** One call of execute on an open transport. */
  function ExecuteCycle(c: Config, isSlave: bool, n: Node, net: Net, now: int): (Node, Net) {
    var n0 := Expire(c, n, now);
    if !isSlave && n0.txq == [] && !ShouldRequest(c, n0) then (n0, net)
    else
      var (n1, net1, done) := ReadLoop(c, isSlave, n0, net, false, now);
      if isSlave then SlaveSend(c, n1, net1) else MasterSend(c, n1, net1, done)
  }

  // ------------------------------------------------ one event

  /** A slave that has a frame scheduled takes transmitted events for its
      confirmation: one with another identifier changes nothing, its own frees it
      and schedules the oldest queued frame, if any, as the next response. */
  lemma ConfirmationHandled(c: Config, n: Node, net: Net, ev: LinEvent, now: int)
    requires ev.direction.TX? && n.scheduled.Some?
    ensures var (n', net', done) := HandleEvent(c, true, n, net, ev, now);
      && !done && n'.rx == n.rx && n'.rxq == n.rxq && n'.log.completed == n.log.completed
      && if ev.id != n.scheduled.value.id then n' == n && net' == net
         else if n.txq == [] then n'.scheduled == None && n'.txq == [] && net' == net
         else
           && n'.scheduled == Some(n.txq[0]) && n'.txq == n.txq[1..]
           && net' == net.(slot := Some(n.txq[0].(channel := c.channel)))
  {}

  /** Any other event goes to the receiver alone, and completes a message
      exactly when it is reported. */
  lemma EventReceived(c: Config, isSlave: bool, n: Node, net: Net, ev: LinEvent, now: int)
    requires !(isSlave && ev.direction.TX? && n.scheduled.Some?)
    ensures var (n', net', done) := HandleEvent(c, isSlave, n, net, ev, now);
      && net' == net && n'.txq == n.txq && n'.scheduled == n.scheduled && n'.awaiting == n.awaiting
      && (done <==> |n'.log.completed| > |n.log.completed|)
      && (ev.direction.TX? || ev.id != (if isSlave then 0x3C else 0x3D) ==> n' == n)
  {}

  // ------------------------------------------------ when a cycle asks for a response

  /** The read loop reports a completed message exactly when it completed one. */
  lemma {:induction false} ReadLoopReports(c: Config, isSlave: bool, n: Node, net: Net, done: bool, now: int)
    ensures var (n', _, done') := ReadLoop(c, isSlave, n, net, done, now);
      && |n'.log.completed| >= |n.log.completed|
      && (done' <==> done || |n'.log.completed| > |n.log.completed|)
    ensures !isSlave ==> var n' := ReadLoop(c, isSlave, n, net, done, now).0;
      && n'.txq == n.txq && n'.awaiting == n.awaiting && n'.log.requests == n.log.requests && n'.log.written == n.log.written
    decreases |QueueAt(isSlave, net)|
  {
    var q := QueueAt(isSlave, net);
    if q != [] {
      var (n', net', d) := HandleEvent(c, isSlave, CountRead(n), PopQueue(isSlave, net), q[0], now);
      ReadLoopReports(c, isSlave, n', net', done || d, now);
    }
  }

  /** A master's cycle requests a header exactly when no frame of its own is
      queued, it completed no message, and after reading a response is still
      wanted: polled for, awaited, or begun. */
  lemma HeaderIff(c: Config, n: Node, net: Net, now: int)
    ensures var n' := ExecuteCycle(c, false, n, net, now).0;
      n'.log.requests == n.log.requests +
        if n.txq == [] && |n'.log.completed| == |n.log.completed|
           && (c.poll || n.awaiting || n'.rx.state.remaining > 0) then 1 else 0
  {
    var n0 := Expire(c, n, now);
    if n0.txq != [] || ShouldRequest(c, n0) {
      ReadLoopReports(c, false, n0, net, false, now);
    }
  }

  /** And it writes the oldest queued frame exactly when there is one. */
  lemma WriteIff(c: Config, n: Node, net: Net, now: int)
    ensures var n' := ExecuteCycle(c, false, n, net, now).0;
      if n.txq == [] then n'.txq == [] && n'.log.written == n.log.written
      else n'.txq == n.txq[1..] && n'.log.written == n.log.written + [n.txq[0]]
  {
    var n0 := Expire(c, n, now);
    if n0.txq != [] || ShouldRequest(c, n0) {
      ReadLoopReports(c, false, n0, net, false, now);
    }
  }

  // ------------------------------------------------ an execute call is a run

  function Repeat(a: Action, k: nat): seq<Action> { seq(k, _ => a) }

  /** Repeating step `a` leads from `b` to `b'`. */
  ghost predicate Reaches(c: Setup, b: System, a: Action, b': System) {
    exists k: nat :: RunFrom(c, b, Repeat(a, k)) == b'
  }

  lemma Here(c: Setup, b: System, a: Action)
    ensures Reaches(c, b, a, b)
  {
    assert RunFrom(c, b, Repeat(a, 0)) == b;
  }

  lemma ReachesTrans(c: Setup, b: System, a: Action, b1: System, b2: System)
    requires Reaches(c, b, a, b1) && Reaches(c, b1, a, b2)
    ensures Reaches(c, b, a, b2)
  {
    var j: nat :| RunFrom(c, b, Repeat(a, j)) == b1;
    var k: nat :| RunFrom(c, b1, Repeat(a, k)) == b2;
    assert Repeat(a, j + k) == Repeat(a, j) + Repeat(a, k);
    RunConcat(c, b, Repeat(a, j), Repeat(a, k));
  }

  lemma Then(c: Setup, b: System, a: Action, b': System)
    requires Reaches(c, Apply(c, b, a), a, b')
    ensures Reaches(c, b, a, b')
  {
    assert Repeat(a, 1)[..0] == [];
    assert RunFrom(c, b, Repeat(a, 1)) == Apply(c, b, a);
    ReachesTrans(c, b, a, Apply(c, b, a), b');
  }

  /** Draining the master's queue. */
  lemma {:induction false} MasterReadRun(c: Setup, b: System, now: int)
    requires b.mpc.MRead?
    ensures var (n, net, d) := ReadLoop(c.m, false, b.m, b.net, b.mpc.done, now);
      Reaches(c, b, MExec(now), b.(m := n, net := net, mpc := MSelect(d)))
    decreases |b.net.mq|
  {
    var b1 := Apply(c, b, MExec(now));
    if b.net.mq == [] {
      Here(c, b1, MExec(now));
    } else {
      MasterReadRun(c, b1, now);
    }
    var (n, net, d) := ReadLoop(c.m, false, b.m, b.net, b.mpc.done, now);
    Then(c, b, MExec(now), b.(m := n, net := net, mpc := MSelect(d)));
  }

  /** From the end of the read loop to the end of the cycle. */
  lemma {:induction false} MasterSendRun(c: Setup, b: System, now: int)
    requires b.mpc.MSelect?
    ensures var (n, net) := MasterSend(c.m, b.m, b.net, b.mpc.done);
      Reaches(c, b, MExec(now), b.(m := n, net := net, mpc := MIdle))
  {
    var e := MExec(now);
    var (n, net) := MasterSend(c.m, b.m, b.net, b.mpc.done);
    var end := b.(m := n, net := net, mpc := MIdle);
    var b1 := Apply(c, b, e);
    if b1.mpc.MIdle? {
      Here(c, b1, e);
    } else {
      var b2 := Apply(c, b1, e);
      if b2.mpc.MIdle? {
        Here(c, b2, e);
      } else {
        MasterRequestRun(c, b2, now);
      }
      Then(c, b1, e, end);
    }
    Then(c, b, e, end);
  }

  lemma MasterRequestRun(c: Setup, b: System, now: int)
    requires b.mpc.MRequest?
    ensures Reaches(c, b, MExec(now),
      b.(m := b.m.(log := b.m.log.(requests := b.m.log.requests + 1)), net := NetRequest(b.net), mpc := MIdle))
  {
    var e := MExec(now);
    var end := b.(m := b.m.(log := b.m.log.(requests := b.m.log.requests + 1)), net := NetRequest(b.net), mpc := MIdle);
    var b1 := Apply(c, b, e);
    Here(c, end, e);
    if b1.mpc.MPushM? {
      var b2 := Apply(c, b1, e);
      Then(c, b2, e, end);
      Then(c, b1, e, end);
    }
    Then(c, b, e, end);
  }

  /** A master's execute call, run without interruption. */
  lemma MasterCycleRun(c: Setup, b: System, now: int)
    requires b.mpc.MIdle? && !b.stopHeld
    ensures var (n, net) := ExecuteCycle(c.m, false, b.m, b.net, now);
      Reaches(c, b, MExec(now), b.(m := n, net := net))
  {
    var e := MExec(now);
    var (n, net) := ExecuteCycle(c.m, false, b.m, b.net, now);
    var end := b.(m := n, net := net);
    var b1 := Apply(c, b, e);
    var b2 := Apply(c, b1, e);
    if b2.mpc.MRead? {
      MasterActiveRun(c, b2, now);
    } else {
      var b3 := Apply(c, b2, e);
      if b3.mpc.MRead? { MasterActiveRun(c, b3, now); } else { Here(c, b3, e); }
      Then(c, b2, e, end);
    }
    Then(c, b1, e, end);
    Then(c, b, e, end);
  }

  lemma MasterActiveRun(c: Setup, b: System, now: int)
    requires b.mpc == MRead(false)
    ensures var (n1, net1, done) := ReadLoop(c.m, false, b.m, b.net, false, now);
      var (n, net) := MasterSend(c.m, n1, net1, done);
      Reaches(c, b, MExec(now), b.(m := n, net := net, mpc := MIdle))
  {
    var (n1, net1, done) := ReadLoop(c.m, false, b.m, b.net, false, now);
    var b1 := b.(m := n1, net := net1, mpc := MSelect(done));
    MasterReadRun(c, b, now);
    MasterSendRun(c, b1, now);
    var (n, net) := MasterSend(c.m, n1, net1, done);
    ReachesTrans(c, b, MExec(now), b1, b.(m := n, net := net, mpc := MIdle));
  }

  /** From a dequeued frame to the scheduled response. */
  lemma SlaveScheduleRun(c: Setup, b: System, now: int)
    requires b.spc.SSchedule?
    ensures var f := b.spc.f;
      Reaches(c, b, SExec(now),
        b.(s := b.s.(scheduled := Some(f), log := b.s.log.(written := b.s.log.written + [f])),
           net := b.net.(slot := Some(f.(channel := c.s.channel))), spc := if b.spc.reading then SRead else SIdle))
  {
    var e, f := SExec(now), b.spc.f;
    var end := b.(s := b.s.(scheduled := Some(f), log := b.s.log.(written := b.s.log.written + [f])),
                  net := b.net.(slot := Some(f.(channel := c.s.channel))), spc := if b.spc.reading then SRead else SIdle);
    Here(c, end, e);
    Then(c, Apply(c, b, e), e, end);
    Then(c, b, e, end);
  }

  /** One event of the slave's queue. */
  lemma SlaveEventRun(c: Setup, b: System, now: int)
    requires b.spc.SRead? && b.net.sq != []
    ensures var (n, net, _) := HandleEvent(c.s, true, CountRead(b.s), PopQueue(true, b.net), b.net.sq[0], now);
      Reaches(c, b, SExec(now), b.(s := n, net := net))
  {
    var e := SExec(now);
    var (n, net, _) := HandleEvent(c.s, true, CountRead(b.s), PopQueue(true, b.net), b.net.sq[0], now);
    var end := b.(s := n, net := net);
    var b1 := Apply(c, b, e);
    if b1.spc.SConfirm? {
      var b2 := Apply(c, b1, e);
      if b2.spc.SSchedule? { SlaveScheduleRun(c, b2, now); } else { Here(c, b2, e); }
      Then(c, b1, e, end);
    } else {
      Here(c, b1, e);
    }
    Then(c, b, e, end);
  }

  lemma {:induction false} SlaveReadRun(c: Setup, b: System, done: bool, now: int)
    requires b.spc.SRead?
    ensures var (n, net, _) := ReadLoop(c.s, true, b.s, b.net, done, now);
      Reaches(c, b, SExec(now), b.(s := n, net := net, spc := SSelect))
    decreases |b.net.sq|
  {
    var (n, net, _) := ReadLoop(c.s, true, b.s, b.net, done, now);
    var end := b.(s := n, net := net, spc := SSelect);
    if b.net.sq == [] {
      Here(c, end, SExec(now));
      Then(c, b, SExec(now), end);
    } else {
      var (n1, net1, d) := HandleEvent(c.s, true, CountRead(b.s), PopQueue(true, b.net), b.net.sq[0], now);
      SlaveEventRun(c, b, now);
      SlaveReadRun(c, b.(s := n1, net := net1), done || d, now);
      ReachesTrans(c, b, SExec(now), b.(s := n1, net := net1), end);
    }
  }

  /** A slave's execute call, run without interruption. */
  lemma SlaveCycleRun(c: Setup, b: System, now: int)
    requires b.spc.SIdle?
    ensures var (n, net) := ExecuteCycle(c.s, true, b.s, b.net, now);
      Reaches(c, b, SExec(now), b.(s := n, net := net))
  {
    var e := SExec(now);
    var (n, net) := ExecuteCycle(c.s, true, b.s, b.net, now);
    var end := b.(s := n, net := net);
    var b1 := Apply(c, b, e);
    var (n1, net1, _) := ReadLoop(c.s, true, b1.s, b1.net, false, now);
    var b2 := b1.(s := n1, net := net1, spc := SSelect);
    var b3 := Apply(c, b2, e);
    SlaveReadRun(c, b1, false, now);
    if b3.spc.SSchedule? { SlaveScheduleRun(c, b3, now); } else { Here(c, b3, e); }
    Then(c, b2, e, end);
    ReachesTrans(c, b1, e, b2, end);
    Then(c, b, e, end);
  }

  // ------------------------------------------------ a Transmit call is a run

  /** A whole Transmit: Begin, its Sends and End without interruption. */
  function Transmitted(c: Config, isSlave: bool, n: Node, m: Sendable): Node {
    n.(txq := n.txq + MessageFrames(isSlave, c.channel, m), awaiting := n.awaiting || !isSlave,
       log := n.log.(accepted := n.log.accepted + [m]))
  }

  function NodeOf(b: System, slave: bool): Node { if slave then b.s else b.m }
  function HoldOf(b: System, slave: bool): Hold { if slave then b.shold else b.mhold }
  function ConfigOf(c: Setup, slave: bool): Config { if slave then c.s else c.m }

  function WithNode(b: System, slave: bool, n: Node, hold: Hold): System {
    if slave then b.(s := n, shold := hold) else b.(m := n, mhold := hold)
  }

  /** Sending the frames of a held message one by one. */
  lemma {:induction false} SendsRun(c: Setup, b: System, slave: bool)
    requires HoldOf(b, slave).Some?
    requires |NodeOf(b, slave).txq| + |HoldOf(b, slave).value| <= ConfigOf(c, slave).txCap
    ensures var n := NodeOf(b, slave);
      Reaches(c, b, Send(slave), WithNode(b, slave, n.(txq := n.txq + HoldOf(b, slave).value), Some([])))
    decreases |HoldOf(b, slave).value|
  {
    var h, n := HoldOf(b, slave).value, NodeOf(b, slave);
    var end := WithNode(b, slave, n.(txq := n.txq + h), Some([]));
    if h == [] {
      assert n.txq + [] == n.txq;
      Here(c, end, Send(slave));
    } else {
      var b1 := Apply(c, b, Send(slave));
      SendsRun(c, b1, slave);
      ConcatAssoc(n.txq, [h[0]], h[1..]);
      assert h == [h[0]] + h[1..];
      Then(c, b, Send(slave), end);
    }
  }

  /** A whole Transmit call of either node is a run of the machine. */
  lemma TransmitRun(c: Setup, b: System, slave: bool, m: Sendable)
    requires HoldOf(b, slave).None? && Admit(ConfigOf(c, slave), slave, NodeOf(b, slave), m).Some?
    ensures var b' := WithNode(b, slave, Transmitted(ConfigOf(c, slave), slave, NodeOf(b, slave), m), None);
      exists acts :: RunFrom(c, b, acts) == b'
  {
    var b1 := Apply(c, b, Begin(slave, m));
    SendsRun(c, b1, slave);
    var n1 := NodeOf(b1, slave);
    var b2 := WithNode(b1, slave, n1.(txq := n1.txq + HoldOf(b1, slave).value), Some([]));
    var k: nat :| RunFrom(c, b1, Repeat(Send(slave), k)) == b2;
    var sends := Repeat(Send(slave), k);
    OneStep(c, b, Begin(slave, m));
    OneStep(c, b2, End(slave));
    RunConcat(c, b1, sends, [End(slave)]);
    RunConcat(c, b, [Begin(slave, m)], sends + [End(slave)]);
    EndsTransmitted(c, b, slave, m);
  }

  lemma EndsTransmitted(c: Setup, b: System, slave: bool, m: Sendable)
    requires HoldOf(b, slave).None? && Admit(ConfigOf(c, slave), slave, NodeOf(b, slave), m).Some?
    ensures var b1 := Apply(c, b, Begin(slave, m));
      var n1 := NodeOf(b1, slave);
      Apply(c, WithNode(b1, slave, n1.(txq := n1.txq + HoldOf(b1, slave).value), Some([])), End(slave))
      == WithNode(b, slave, Transmitted(ConfigOf(c, slave), slave, NodeOf(b, slave), m), None)
  {}
}
