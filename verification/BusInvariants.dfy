/** Invariants of every run of the system: shape and capacity of the queues,
    conservation of frames, and the response slot. */
module BusInvariants {
  import opened LinTypes
  import opened Framing
  import opened Reassembly
  import opened Bus

  // ------------------------------------------------ shape

  /** `e` is an unchanged frame built by a transport of that role. */
  predicate Built(isSlave: bool, channel: byte, e: LinEvent) {
    e == Frame(isSlave, channel, e.payload) && |e.payload| == 8
  }

  predicate AllBuilt(isSlave: bool, channel: byte, es: seq<LinEvent>) {
    forall i :: 0 <= i < |es| ==> Built(isSlave, channel, es[i])
  }

  /** In the event queue of the driver of a transport of that role: what it
      receives comes from the other role, what it confirms is its own. */
  predicate OnBus(isSlave: bool, e: LinEvent) {
    e.id == DiagnosticId(if e.direction.RX? then !isSlave else isSlave) && |e.payload| == 8
  }

  predicate DriverQueue(isSlave: bool, es: seq<LinEvent>) {
    forall i :: 0 <= i < |es| ==> OnBus(isSlave, es[i])
  }

  function MasterHand(pc: MPc): seq<LinEvent> { if pc.MWrite? then [pc.f] else [] }
  function SlaveHand(pc: SPc): seq<LinEvent> { if pc.SSchedule? then [pc.f] else [] }
  function Held(hold: Hold): seq<LinEvent> { if hold.Some? then hold.value else [] }

  /** Frames on their way out of a node. */
  predicate Outgoing(isSlave: bool, channel: byte, n: Node, hold: Hold) {
    AllBuilt(isSlave, channel, n.txq) && AllBuilt(isSlave, channel, Held(hold))
  }

  predicate MasterShape(channel: byte, n: Node, pc: MPc) {
    && AllBuilt(false, channel, n.txq)
    && (pc.MWrite? ==> Built(false, channel, pc.f))
    && (pc.MPushM? || pc.MPushS? ==> Built(true, channel, pc.ev))
  }

  predicate SlaveShape(channel: byte, n: Node, pc: SPc) {
    && AllBuilt(true, channel, n.txq)
    && (pc.SSchedule? || pc.SSet? ==> Built(true, channel, pc.f))
    && (n.scheduled.Some? ==> Built(true, channel, n.scheduled.value))
  }

  predicate NetShape(channel: byte, net: Net) {
    && (net.slot.Some? ==> Built(true, channel, net.slot.value))
    && DriverQueue(false, net.mq) && DriverQueue(true, net.sq)
  }

  predicate Shape(c: Setup, b: System) {
    var ch := c.m.channel;
    && MasterShape(ch, b.m, b.mpc) && SlaveShape(ch, b.s, b.spc) && NetShape(ch, b.net)
    && AllBuilt(false, ch, Held(b.mhold)) && AllBuilt(true, ch, Held(b.shold))
  }

  lemma {:induction false} FramesBuilt(isSlave: bool, channel: byte, ps: seq<seq<byte>>)
    requires forall i :: 0 <= i < |ps| ==> |ps[i]| == 8
    ensures AllBuilt(isSlave, channel, Frames(isSlave, channel, ps))
  {
    if ps != [] { FramesBuilt(isSlave, channel, ps[1..]); }
  }

  lemma MasterShapeStep(c: Config, n: Node, net: Net, pc: MPc, now: int)
    requires MasterShape(c.channel, n, pc) && NetShape(c.channel, net)
    ensures var (n', net', pc') := MasterStep(c, n, net, pc, now);
      MasterShape(c.channel, n', pc') && NetShape(c.channel, net')
  {}

  lemma SlaveShapeStep(c: Config, n: Node, net: Net, pc: SPc, now: int)
    requires SlaveShape(c.channel, n, pc) && NetShape(c.channel, net)
    ensures var (n', net', pc') := SlaveStep(c, n, net, pc, now);
      SlaveShape(c.channel, n', pc') && NetShape(c.channel, net')
  {}

  lemma TransmitShape(c: Config, isSlave: bool, n: Node, hold: Hold, msg: LinMessage)
    requires Outgoing(isSlave, c.channel, n, hold)
    ensures var (n', h) := BeginTx(c, isSlave, n, hold, msg); Outgoing(isSlave, c.channel, n', h)
    ensures var (n', h) := SendTx(c, n, hold); Outgoing(isSlave, c.channel, n', h)
    ensures var (n', h) := EndTx(isSlave, n, hold); Outgoing(isSlave, c.channel, n', h)
  {
    if |msg.data| <= MAX_DATA {
      PayloadSize(msg);
      FramesBuilt(isSlave, c.channel, Payloads(msg));
    }
  }

  lemma ShapeStep(c: Setup, b: System, a: Action)
    requires ValidSetup(c) && Shape(c, b)
    ensures Shape(c, Apply(c, b, a))
  {
    match a
    case MExec(now) => MasterShapeStep(c.m, b.m, b.net, b.mpc, now);
    case SExec(now) => SlaveShapeStep(c.s, b.s, b.net, b.spc, now);
    case Begin(true, msg) => TransmitShape(c.s, true, b.s, b.shold, msg);
    case Begin(false, msg) => TransmitShape(c.m, false, b.m, b.mhold, msg);
    case Send(true) => TransmitShape(c.s, true, b.s, b.shold, LinMessage(0, 0, []));
    case Send(false) => TransmitShape(c.m, false, b.m, b.mhold, LinMessage(0, 0, []));
    case _ =>
  }

  // ------------------------------------------------ capacity

  /** The master drained its own event queue in this cycle. */
  predicate Drained(pc: MPc) { pc.MSelect? || pc.MDecide? || pc.MWrite? || pc.MRequest? || pc.MPushM? }

  /** What keeps every channel send from blocking. */
  predicate Room(c: Config, n: Node, hold: Hold) {
    |n.txq| + |Held(hold)| <= c.txCap && |n.rxq| <= c.rxCap
  }

  predicate MasterBounded(net: Net, pc: MPc) {
    |net.mq| <= 1 && (Drained(pc) ==> net.mq == [])
  }

  predicate Bounded(c: Setup, b: System) {
    && Room(c.m, b.m, b.mhold) && Room(c.s, b.s, b.shold)
    && MasterBounded(b.net, b.mpc) && |b.net.sq| <= EVENT_QUEUE
  }

  lemma MasterBoundedStep(c: Config, n: Node, net: Net, pc: MPc, now: int, hold: Hold)
    requires Room(c, n, hold) && MasterBounded(net, pc) && |net.sq| <= EVENT_QUEUE
    ensures var (n', net', pc') := MasterStep(c, n, net, pc, now);
      Room(c, n', hold) && MasterBounded(net', pc') && |net'.sq| <= EVENT_QUEUE
  {}

  lemma SlaveBoundedStep(c: Config, n: Node, net: Net, pc: SPc, now: int, hold: Hold)
    requires Room(c, n, hold) && |net.sq| <= EVENT_QUEUE
    ensures var (n', net', pc') := SlaveStep(c, n, net, pc, now);
      Room(c, n', hold) && |net'.sq| <= EVENT_QUEUE && net'.mq == net.mq
  {}

  lemma BoundedStep(c: Setup, b: System, a: Action)
    requires Bounded(c, b)
    ensures Bounded(c, Apply(c, b, a))
  {
    match a
    case MExec(now) => MasterBoundedStep(c.m, b.m, b.net, b.mpc, now, b.mhold);
    case SExec(now) => SlaveBoundedStep(c.s, b.s, b.net, b.spc, now, b.shold);
    case _ =>
  }

  // ------------------------------------------------ conservation

  function AllFrames(isSlave: bool, channel: byte, ms: seq<Sendable>): seq<LinEvent> {
    Frames(isSlave, channel, AllPayloads(ms))
  }

  /** Every frame of every accepted message, in order, is written, in hand,
      queued or still to be sent by the Transmit that owns the queue. */
  predicate Conserved(isSlave: bool, channel: byte, n: Node, hand: seq<LinEvent>, hold: Hold) {
    AllFrames(isSlave, channel, n.log.accepted) == n.log.written + hand + n.txq + Held(hold)
  }

  lemma AllFramesAppend(isSlave: bool, channel: byte, ms: seq<Sendable>, m: Sendable)
    ensures AllFrames(isSlave, channel, ms + [m])
            == AllFrames(isSlave, channel, ms) + MessageFrames(isSlave, channel, m)
  {
    AllPayloadsAppend(ms, m);
    FramesConcat(isSlave, channel, AllPayloads(ms), Payloads(m));
  }

  lemma MoveHead<T>(w: seq<T>, q: seq<T>, r: seq<T>)
    requires q != []
    ensures w + [] + q + r == w + [q[0]] + q[1..] + r
  {
    assert q == [q[0]] + q[1..];
  }

  lemma MoveHold<T>(w: seq<T>, h: seq<T>, q: seq<T>, r: seq<T>)
    requires r != []
    ensures w + h + q + r == w + h + (q + [r[0]]) + r[1..]
  {
    assert r == [r[0]] + r[1..];
  }

  lemma NewHold<T>(w: seq<T>, h: seq<T>, q: seq<T>, r: seq<T>)
    ensures w + h + q + [] + r == w + h + q + r
  {
    assert w + h + q + [] == w + h + q;
  }

  lemma MoveHand<T>(w: seq<T>, f: T, q: seq<T>, r: seq<T>)
    ensures w + [f] + q + r == (w + [f]) + [] + q + r
  {}

  /** The two ways frames move inside a node: from the queue into the hand of
      execute, and from the hand to the driver. */
  predicate Moves(n: Node, hand: seq<LinEvent>, n': Node, hand': seq<LinEvent>) {
    && n'.log.accepted == n.log.accepted
    && (|| (n'.log.written == n.log.written && n'.txq == n.txq && hand' == hand)
        || (hand == [] && n.txq != [] && hand' == [n.txq[0]] && n'.txq == n.txq[1..]
            && n'.log.written == n.log.written)
        || (|hand| == 1 && hand' == [] && n'.txq == n.txq && n'.log.written == n.log.written + [hand[0]]))
  }

  lemma MovesConserve(isSlave: bool, channel: byte, n: Node, hand: seq<LinEvent>, n': Node, hand': seq<LinEvent>, hold: Hold)
    requires Conserved(isSlave, channel, n, hand, hold) && Moves(n, hand, n', hand')
    ensures Conserved(isSlave, channel, n', hand', hold)
  {
    if hand == [] && n.txq != [] {
      MoveHead(n.log.written, n.txq, Held(hold));
    } else if |hand| == 1 {
      assert hand == [hand[0]];
      MoveHand(n.log.written, hand[0], n.txq, Held(hold));
    }
  }

  lemma MasterMoves(c: Config, n: Node, net: Net, pc: MPc, now: int)
    ensures var (n', _, pc') := MasterStep(c, n, net, pc, now); Moves(n, MasterHand(pc), n', MasterHand(pc'))
  {}

  lemma SlaveMoves(c: Config, n: Node, net: Net, pc: SPc, now: int)
    ensures var (n', _, pc') := SlaveStep(c, n, net, pc, now); Moves(n, SlaveHand(pc), n', SlaveHand(pc'))
  {}

  lemma BeginConserves(c: Config, isSlave: bool, n: Node, hand: seq<LinEvent>, hold: Hold, msg: LinMessage)
    requires Conserved(isSlave, c.channel, n, hand, hold)
    ensures var (n', h) := BeginTx(c, isSlave, n, hold, msg); Conserved(isSlave, c.channel, n', hand, h)
  {
    if hold.None? && Admit(c, isSlave, n, msg).Some? {
      AllFramesAppend(isSlave, c.channel, n.log.accepted, msg);
      NewHold(n.log.written, hand, n.txq, MessageFrames(isSlave, c.channel, msg));
    }
  }

  lemma SendConserves(c: Config, isSlave: bool, n: Node, hand: seq<LinEvent>, hold: Hold)
    requires Conserved(isSlave, c.channel, n, hand, hold)
    ensures var (n', h) := SendTx(c, n, hold); Conserved(isSlave, c.channel, n', hand, h)
  {
    if hold.Some? && hold.value != [] {
      MoveHold(n.log.written, hand, n.txq, hold.value);
    }
  }

  predicate MasterConserved(c: Setup, b: System) {
    Conserved(false, c.m.channel, b.m, MasterHand(b.mpc), b.mhold)
  }

  predicate SlaveConserved(c: Setup, b: System) {
    Conserved(true, c.s.channel, b.s, SlaveHand(b.spc), b.shold)
  }

  lemma MasterConservedStep(c: Setup, b: System, a: Action)
    requires MasterConserved(c, b)
    ensures MasterConserved(c, Apply(c, b, a))
  {
    match a
    case MExec(now) =>
      var (n', _, pc') := MasterStep(c.m, b.m, b.net, b.mpc, now);
      MasterMoves(c.m, b.m, b.net, b.mpc, now);
      MovesConserve(false, c.m.channel, b.m, MasterHand(b.mpc), n', MasterHand(pc'), b.mhold);
    case Begin(false, msg) => BeginConserves(c.m, false, b.m, MasterHand(b.mpc), b.mhold, msg);
    case Send(false) => SendConserves(c.m, false, b.m, MasterHand(b.mpc), b.mhold);
    case _ =>
  }

  lemma SlaveConservedStep(c: Setup, b: System, a: Action)
    requires SlaveConserved(c, b)
    ensures SlaveConserved(c, Apply(c, b, a))
  {
    match a
    case SExec(now) =>
      var (n', _, pc') := SlaveStep(c.s, b.s, b.net, b.spc, now);
      SlaveMoves(c.s, b.s, b.net, b.spc, now);
      MovesConserve(true, c.s.channel, b.s, SlaveHand(b.spc), n', SlaveHand(pc'), b.shold);
    case Begin(true, msg) => BeginConserves(c.s, true, b.s, SlaveHand(b.spc), b.shold, msg);
    case Send(true) => SendConserves(c.s, true, b.s, SlaveHand(b.spc), b.shold);
    case _ =>
  }

  // ------------------------------------------------ the response slot

  function Confirmations(es: seq<LinEvent>): nat {
    if es == [] then 0 else (if es[0].direction.TX? then 1 else 0) + Confirmations(es[1..])
  }

  lemma {:induction false} ConfirmationsAppend(es: seq<LinEvent>, e: LinEvent)
    ensures Confirmations(es + [e]) == Confirmations(es) + if e.direction.TX? then 1 else 0
  {
    if es == [] {
      assert [e][1..] == [];
    } else {
      assert (es + [e])[1..] == es[1..] + [e];
      ConfirmationsAppend(es[1..], e);
    }
  }

  /** Slave frames in the slot, in flight to the drivers, or confirmed in the
      slave's event queue but not yet seen by it. */
  function Outstanding(net: Net, pc: MPc): nat {
    |OptSeq(net.slot)| + (if pc.MPushM? || pc.MPushS? then 1 else 0) + Confirmations(net.sq)
  }

  /** The slave has handed a frame to its driver and not seen it confirmed. */
  predicate Waiting(n: Node, pc: SPc) { n.scheduled.Some? || pc.SSet? }

  predicate SlotOnce(net: Net, n: Node, mpc: MPc, spc: SPc) {
    && Outstanding(net, mpc) <= (if Waiting(n, spc) then 1 else 0)
    && (!net.lostTx && Waiting(n, spc) ==> Outstanding(net, mpc) == 1)
    && (spc.SConfirm? || spc.SSchedule? || spc.SSet? ==> n.scheduled.None?)
  }

  /** Every scheduled frame reached the bus, in order and once, except the one
      that may still be in the slot. */
  predicate SlotHistory(net: Net, n: Node) { n.log.written == net.taken + OptSeq(net.slot) }

  lemma MasterSlotOnce(c: Config, n: Node, net: Net, pc: MPc, now: int, s: Node, spc: SPc)
    requires SlotOnce(net, s, pc, spc)
    ensures var (_, net', pc') := MasterStep(c, n, net, pc, now); SlotOnce(net', s, pc', spc)
  {
    if pc.MWrite? {
      ConfirmationsAppend(net.sq, pc.f.(channel := c.channel, direction := RX));
    } else if pc.MPushS? {
      ConfirmationsAppend(net.sq, pc.ev.(direction := TX));
    }
  }

  /** Reading its queue, the slave sees the one confirmation it waits for. */
  lemma ReadSlotOnce(c: Config, n: Node, net: Net, now: int, mpc: MPc)
    requires SlotOnce(net, n, mpc, SRead) && SlaveShape(c.channel, n, SRead) && NetShape(c.channel, net)
    ensures var (n', net', pc') := SlaveStep(c, n, net, SRead, now); SlotOnce(net', n', mpc, pc')
  {
    if net.sq != [] && net.sq[0].direction.TX? {
      assert OnBus(true, net.sq[0]);
      assert n.scheduled.Some?;
    }
  }

  lemma ScheduleSlotOnce(c: Config, n: Node, net: Net, pc: SPc, now: int, mpc: MPc)
    requires SlotOnce(net, n, mpc, pc) && !pc.SRead?
    ensures var (n', net', pc') := SlaveStep(c, n, net, pc, now); SlotOnce(net', n', mpc, pc')
  {}

  lemma MasterSlotHistory(c: Config, n: Node, net: Net, pc: MPc, now: int, s: Node)
    requires SlotHistory(net, s)
    ensures SlotHistory(MasterStep(c, n, net, pc, now).1, s)
  {
    if pc.MRequest? && net.slot.Some? {
      assert net.taken + [net.slot.value] + [] == net.taken + [net.slot.value];
    }
  }

  lemma SlaveSlotHistory(c: Config, n: Node, net: Net, pc: SPc, now: int)
    requires SlotHistory(net, n) && (pc.SSchedule? ==> net.slot.None?)
    requires SlaveShape(c.channel, n, pc)
    ensures var (n', net', _) := SlaveStep(c, n, net, pc, now); SlotHistory(net', n')
  {
    if pc.SSchedule? {
      assert net.taken + [] == net.taken && pc.f.(channel := c.channel) == pc.f;
    }
  }

  /** The slot is empty whenever the slave schedules into it. */
  lemma SlotHistoryStep(c: Setup, b: System, a: Action)
    requires ValidSetup(c) && Shape(c, b) && SlotOnce(b.net, b.s, b.mpc, b.spc) && SlotHistory(b.net, b.s)
    ensures var b' := Apply(c, b, a); SlotHistory(b'.net, b'.s)
    ensures a.SExec? && b.spc.SSchedule? ==> b.net.slot.None?
  {
    match a
    case MExec(now) => MasterSlotHistory(c.m, b.m, b.net, b.mpc, now, b.s);
    case SExec(now) => SlaveSlotHistory(c.s, b.s, b.net, b.spc, now);
    case _ =>
  }

  lemma SlotOnceStep(c: Setup, b: System, a: Action)
    requires ValidSetup(c) && Shape(c, b) && SlotOnce(b.net, b.s, b.mpc, b.spc)
    ensures var b' := Apply(c, b, a); SlotOnce(b'.net, b'.s, b'.mpc, b'.spc)
  {
    match a
    case MExec(now) => MasterSlotOnce(c.m, b.m, b.net, b.mpc, now, b.s, b.spc);
    case SExec(now) =>
      if b.spc.SRead? {
        ReadSlotOnce(c.s, b.s, b.net, now, b.mpc);
      } else {
        ScheduleSlotOnce(c.s, b.s, b.net, b.spc, now, b.mpc);
      }
    case _ =>
  }
}
