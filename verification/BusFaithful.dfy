/** End-to-end faithfulness: what each side delivers is what the other side's
    Transmit accepted, over every run of the system. */
module BusFaithful {
  import opened LinTypes
  import opened Framing
  import opened Reassembly
  import opened Loss
  import opened History
  import opened Bus
  import opened BusInvariants

  // ------------------------------------------------ one direction, abstractly

  /** A receiver in state `s` that completed `completed` and has `wire` still
      to come will, if nothing else happens, have delivered all of `accepted`;
      when some reception expired, part of it in the same order. */
  predicate Faithful(completed: seq<LinMessage>, s: RxState, wire: seq<seq<byte>>, accepted: seq<Sendable>, exact: bool) {
    if exact then completed + Outputs(s, wire) == accepted
    else Subsequence(completed + Outputs(s, wire), accepted)
  }

  lemma FaithfulAccept(completed: seq<LinMessage>, s: RxState, wire: seq<seq<byte>>, accepted: seq<Sendable>, exact: bool, m: Sendable)
    requires Faithful(completed, s, wire, accepted, exact)
    ensures Faithful(completed, s, wire + Payloads(m), accepted + [m], exact)
  {
    RoundTripAfter(s, wire, m);
    ConcatAssoc(completed, Outputs(s, wire), [m]);
    if !exact {
      SubsequenceRefl([m]);
      SubsequenceConcat(completed + Outputs(s, wire), accepted, [m], [m]);
    }
  }

  lemma FaithfulConsume(completed: seq<LinMessage>, s: RxState, p: seq<byte>, wire: seq<seq<byte>>, accepted: seq<Sendable>, exact: bool)
    requires Faithful(completed, s, [p] + wire, accepted, exact)
    ensures var (s', out) := RxStep(s, p); Faithful(completed + OptSeq(out), s', wire, accepted, exact)
  {
    assert ([p] + wire)[1..] == wire;
    var (s', out) := RxStep(s, p);
    ConcatAssoc(completed, OptSeq(out), Outputs(s', wire));
  }

  lemma FaithfulReset(completed: seq<LinMessage>, s: RxState, wire: seq<seq<byte>>, accepted: seq<Sendable>, exact: bool)
    requires Faithful(completed, s, wire, accepted, exact)
    ensures Faithful(completed, RESET, wire, accepted, false)
  {
    ResetOnlyLoses(s, wire);
    SubsequenceRefl(completed);
    SubsequenceConcat(completed, completed, Outputs(RESET, wire), Outputs(s, wire));
    if exact {
      SubsequenceRefl(completed + Outputs(s, wire));
    }
    SubsequenceTrans(completed + Outputs(RESET, wire), completed + Outputs(s, wire), accepted);
  }

  /** What a faithful direction means for the messages delivered so far. */
  lemma FaithfulMeaning(completed: seq<LinMessage>, s: RxState, wire: seq<seq<byte>>, accepted: seq<Sendable>, exact: bool)
    requires Faithful(completed, s, wire, accepted, exact)
    ensures Subsequence(completed, accepted)
    ensures exact ==> completed <= accepted
    ensures exact && wire == [] ==> completed == accepted
  {
    if exact {
      assert completed == accepted[..|completed|];
      SubsequenceRefl(completed + Outputs(s, wire));
    }
    SubsequencePrefix(completed, Outputs(s, wire), accepted);
    assert completed + [] == completed;
  }

  // ------------------------------------------------ payloads of a queue

  function Pays(es: seq<LinEvent>): seq<seq<byte>> {
    if es == [] then [] else [es[0].payload] + Pays(es[1..])
  }

  /** The received (not confirmed) payloads of a driver's event queue. */
  function RxPays(es: seq<LinEvent>): seq<seq<byte>> {
    if es == [] then [] else (if es[0].direction.RX? then [es[0].payload] else []) + RxPays(es[1..])
  }

  lemma {:induction false} PaysAppend(a: seq<LinEvent>, b: seq<LinEvent>)
    ensures Pays(a + b) == Pays(a) + Pays(b)
  {
    if a == [] {
      assert a + b == b;
    } else {
      assert (a + b)[1..] == a[1..] + b;
      PaysAppend(a[1..], b);
    }
  }

  lemma {:induction false} PaysOfFrames(isSlave: bool, channel: byte, ps: seq<seq<byte>>)
    ensures Pays(Frames(isSlave, channel, ps)) == ps
  {
    if ps != [] {
      PaysOfFrames(isSlave, channel, ps[1..]);
      var fs := Frames(isSlave, channel, ps);
      assert fs[1..] == Frames(isSlave, channel, ps[1..]);
    }
  }

  lemma {:induction false} RxPaysAppend(es: seq<LinEvent>, e: LinEvent)
    ensures RxPays(es + [e]) == RxPays(es) + if e.direction.RX? then [e.payload] else []
  {
    if es == [] {
      assert [e][1..] == [];
    } else {
      assert (es + [e])[1..] == es[1..] + [e];
      RxPaysAppend(es[1..], e);
      ConcatAssoc(if es[0].direction.RX? then [es[0].payload] else [], RxPays(es[1..]),
                  if e.direction.RX? then [e.payload] else []);
    }
  }

  // ------------------------------------------------ the two wires

  /** Frames a node has accepted and not handed to its driver. */
  function Pending(n: Node, hand: seq<LinEvent>, hold: Hold): seq<LinEvent> {
    hand + n.txq + Held(hold)
  }

  function Flight(pc: MPc): seq<LinEvent> { if pc.MPushM? then [pc.ev] else [] }

  /** What the master has yet to receive: its queue, the response in flight,
      the response slot, then the slave's frames. */
  function WireToMaster(net: Net, mpc: MPc, out: seq<LinEvent>): seq<seq<byte>> {
    RxPays(net.mq) + Pays(Behind(net, mpc, out))
  }

  function Behind(net: Net, mpc: MPc, out: seq<LinEvent>): seq<LinEvent> { Flight(mpc) + OptSeq(net.slot) + out }

  /** What the slave's queue was given and what is still to come from the
      master are the frames of the accepted messages but for some lost ones:
      none if the queue never dropped any, and no first frames if it never
      dropped one. */
  predicate Thins(stream: seq<seq<byte>>, accepted: seq<Sendable>, keeps: seq<seq<bool>>, lostFirst: bool, lostRx: bool) {
    && Masks(accepted, keeps) && stream == Arriving(accepted, keeps)
    && (!lostFirst ==> FirstsKept(accepted, keeps))
    && (!lostRx ==> AllKept(keeps))
  }

  ghost predicate ToSlave(net: Net, out: seq<LinEvent>, accepted: seq<Sendable>) {
    exists keeps :: Thins(net.heard + Pays(out), accepted, keeps, net.lostFirst, net.lostRx)
  }

  /** What the slave has read of what its queue was given. */
  function Read(net: Net): seq<seq<byte>>
    requires |RxPays(net.sq)| <= |net.heard|
  {
    net.heard[..|net.heard| - |RxPays(net.sq)|]
  }

  /** A receiver that read `read` in order: it completed what the stream
      delivers, or less if a reception expired. */
  predicate Follows(s: RxState, completed: seq<LinMessage>, read: seq<seq<byte>>, expired: bool) {
    if expired then Subsequence(completed, Outputs(RESET, read)) && (s == RESET || s == Final(RESET, read))
    else completed == Outputs(RESET, read) && s == Final(RESET, read)
  }

  predicate Hears(net: Net, s: Node) {
    && |RxPays(net.sq)| <= |net.heard| && net.heard == Read(net) + RxPays(net.sq)
    && Follows(s.rx.state, s.log.completed, Read(net), s.log.expired)
  }

  predicate ToMaster(net: Net, mpc: MPc, m: Node, out: seq<LinEvent>, accepted: seq<Sendable>) {
    Faithful(m.log.completed, m.rx.state, WireToMaster(net, mpc, out), accepted, !m.log.expired)
  }

  /** Moving frames inside the sender keeps what is pending, but for the frame
      handed to the driver. */
  lemma MovesPending(n: Node, hand: seq<LinEvent>, n': Node, hand': seq<LinEvent>, hold: Hold)
    requires Moves(n, hand, n', hand')
    ensures Pending(n, hand, hold) ==
      if n'.log.written == n.log.written then Pending(n', hand', hold)
      else [hand[0]] + Pending(n', hand', hold)
  {
    if hand == [] && n.txq != [] && hand' == [n.txq[0]] && n'.txq == n.txq[1..] {
      assert n.txq == [n.txq[0]] + n.txq[1..];
    }
    if n'.log.written != n.log.written {
      assert hand == [hand[0]] && [hand[0]] + n.txq + Held(hold) == [hand[0]] + ([] + n.txq + Held(hold));
    }
  }

  // ------------------------------------------------ the receiver

  /** Receiving a relevant event is one step of the stream receiver. */
  lemma ReceiveRelevant(c: Config, isSlave: bool, n: Node, ev: LinEvent, now: int)
    requires Relevant(isSlave, ev)
    ensures var n' := ReceiveEvent(c, isSlave, n, ev, now).0; var (s', out) := RxStep(n.rx.state, ev.payload);
      && n'.rx.state == s' && n'.log.completed == n.log.completed + OptSeq(out)
      && n'.log.expired == n.log.expired
  {}

  lemma ReceiveIrrelevant(c: Config, isSlave: bool, n: Node, ev: LinEvent, now: int)
    requires !Relevant(isSlave, ev)
    ensures ReceiveEvent(c, isSlave, n, ev, now) == (n, false)
  {}

  lemma ExpireFaithful(c: Config, n: Node, now: int, wire: seq<seq<byte>>, accepted: seq<Sendable>)
    requires Faithful(n.log.completed, n.rx.state, wire, accepted, !n.log.expired)
    ensures var n' := Expire(c, n, now);
      Faithful(n'.log.completed, n'.rx.state, wire, accepted, !n'.log.expired)
  {
    FaithfulReset(n.log.completed, n.rx.state, wire, accepted, !n.log.expired);
  }

  // ------------------------------------------------ master to slave

  /** One frame written: it reaches the slave's queue or is dropped. */
  lemma MasterWrites(c: Config, net: Net, f: LinEvent, out: seq<LinEvent>, accepted: seq<Sendable>)
    requires ToSlave(net, [f] + out, accepted)
    ensures ToSlave(NetWrite(c, net, f), out, accepted)
  {
    var net' := NetWrite(c, net, f);
    var keeps :| Thins(net.heard + Pays([f] + out), accepted, keeps, net.lostFirst, net.lostRx);
    PaysAppend([f], out);
    assert Pays([f]) == [f.payload];
    ConcatAssoc(net.heard, [f.payload], Pays(out));
    if |net.sq| < EVENT_QUEUE {
      assert Thins(net'.heard + Pays(out), accepted, keeps, net'.lostFirst, net'.lostRx);
    } else {
      var keeps' := DropOne(accepted, keeps, net.heard, f.payload, Pays(out));
      assert Thins(net'.heard + Pays(out), accepted, keeps', net'.lostFirst, net'.lostRx);
    }
  }

  lemma MasterSends(c: Config, m: Node, net: Net, pc: MPc, now: int, hold: Hold, accepted: seq<Sendable>)
    requires ToSlave(net, Pending(m, MasterHand(pc), hold), accepted)
    ensures var (m', net', pc') := MasterStep(c, m, net, pc, now);
      ToSlave(net', Pending(m', MasterHand(pc'), hold), accepted)
  {
    var (m', net', pc') := MasterStep(c, m, net, pc, now);
    MasterMoves(c, m, net, pc, now);
    MovesPending(m, MasterHand(pc), m', MasterHand(pc'), hold);
    if pc.MWrite? { MasterWrites(c, net, pc.f, Pending(m', MasterHand(pc'), hold), accepted); }
  }

  lemma AcceptToSlave(net: Net, out: seq<LinEvent>, out': seq<LinEvent>, accepted: seq<Sendable>, m: Sendable)
    requires ToSlave(net, out, accepted) && Pays(out') == Pays(out) + Payloads(m)
    ensures ToSlave(net, out', accepted + [m])
  {
    var keeps :| Thins(net.heard + Pays(out), accepted, keeps, net.lostFirst, net.lostRx);
    ArrivingAppend(accepted, keeps, m);
    ConcatAssoc(net.heard, Pays(out), Payloads(m));
    assert Thins(net.heard + Pays(out'), accepted + [m], keeps + [Whole(m)], net.lostFirst, net.lostRx);
  }

  /** One more payload read. */
  lemma FollowsMore(s: RxState, completed: seq<LinMessage>, read: seq<seq<byte>>, expired: bool, p: seq<byte>)
    requires Follows(s, completed, read, expired)
    ensures var (s', out) := RxStep(s, p); Follows(s', completed + OptSeq(out), read + [p], expired)
  {
    var t := Final(RESET, read);
    FinalLast(RESET, read, p);
    OutputsLast(RESET, read, p);
    if expired {
      var out, all := OptSeq(RxStep(s, p).1), OptSeq(RxStep(t, p).1);
      SubsequenceRefl(out);
      assert Subsequence(out, all);
      SubsequenceConcat(completed, Outputs(RESET, read), out, all);
    }
  }

  lemma FollowsExpired(s: RxState, completed: seq<LinMessage>, read: seq<seq<byte>>, expired: bool)
    requires Follows(s, completed, read, expired)
    ensures Follows(RESET, completed, read, true)
  {
    if !expired { SubsequenceRefl(completed); }
  }

  lemma HeardMore(net: Net, s: Node, p: seq<byte>, e: LinEvent)
    requires Hears(net, s) && e.direction.RX? && e.payload == p
    ensures Hears(net.(sq := net.sq + [e], heard := net.heard + [p]), s)
  {
    var net' := net.(sq := net.sq + [e], heard := net.heard + [p]);
    RxPaysAppend(net.sq, e);
    ConcatAssoc(Read(net), RxPays(net.sq), [p]);
    assert Read(net') == Read(net);
  }

  /** The master's steps give the slave's queue what they say they do. */
  lemma MasterKeepsHearing(c: Config, m: Node, net: Net, pc: MPc, now: int, s: Node)
    requires Hears(net, s)
    ensures Hears(MasterStep(c, m, net, pc, now).1, s)
  {
    if pc.MWrite? {
      var e := pc.f.(channel := c.channel, direction := RX);
      HeardMore(net, s, pc.f.payload, e);
      KeepsHearing(net, net.(sq := Push(net.sq, e), heard := NetWrite(c, net, pc.f).heard), NetWrite(c, net, pc.f), s);
    } else if pc.MPushS? {
      RxPaysAppend(net.sq, pc.ev.(direction := TX));
      assert RxPays(net.sq) + [] == RxPays(net.sq);
    }
  }

  lemma KeepsHearing(net: Net, net1: Net, net2: Net, s: Node)
    requires Hears(net1, s) && net2.sq == net1.sq && net2.heard == net1.heard
    ensures Hears(net2, s)
  {}

  /** The head of the slave's queue is one step of its stream receiver, or a
      confirmation that leaves the receiver alone. */
  lemma SlaveReadEffect(c: Config, s: Node, net: Net, now: int)
    requires net.sq != [] && OnBus(true, net.sq[0])
    ensures var (s', net', _) := SlaveStep(c, s, net, SRead, now);
      var ev := net.sq[0];
      var (t, out) := RxStep(s.rx.state, ev.payload);
      && net' == net.(sq := net.sq[1..]) && s'.log.expired == s.log.expired
      && (ev.direction.RX? ==> s'.rx.state == t && s'.log.completed == s.log.completed + OptSeq(out))
      && (ev.direction.TX? ==> s'.rx == s.rx && s'.log.completed == s.log.completed)
  {
    var ev := net.sq[0];
    if ev.direction.RX? {
      ReceiveRelevant(c, true, CountRead(s), ev, now);
    } else {
      ReceiveIrrelevant(c, true, CountRead(s), ev, now);
    }
  }

  lemma SlaveReads(c: Config, s: Node, net: Net, now: int)
    requires Hears(net, s) && net.sq != [] && OnBus(true, net.sq[0])
    ensures var (s', net', _) := SlaveStep(c, s, net, SRead, now); Hears(net', s')
  {
    SlaveReadEffect(c, s, net, now);
    var ev, net' := net.sq[0], net.(sq := net.sq[1..]);
    if ev.direction.RX? {
      FollowsMore(s.rx.state, s.log.completed, Read(net), s.log.expired, ev.payload);
      ConcatAssoc(Read(net), [ev.payload], RxPays(net.sq[1..]));
      assert Read(net') == Read(net) + [ev.payload];
    } else {
      assert RxPays(net.sq) == RxPays(net.sq[1..]);
    }
  }

  /** No other step of the slave touches its receiver or its queue. */
  lemma SlaveQuiet(c: Config, s: Node, net: Net, pc: SPc, now: int)
    requires !pc.SIdle? && !(pc.SRead? && net.sq != [])
    ensures var (s', net', _) := SlaveStep(c, s, net, pc, now);
      && s'.rx == s.rx && s'.log.completed == s.log.completed && s'.log.expired == s.log.expired
      && net'.sq == net.sq && net'.heard == net.heard
  {}

  lemma SlaveReceives(c: Config, s: Node, net: Net, pc: SPc, now: int)
    requires Hears(net, s) && DriverQueue(true, net.sq)
    ensures var (s', net', _) := SlaveStep(c, s, net, pc, now); Hears(net', s')
  {
    if pc.SIdle? {
      FollowsExpired(s.rx.state, s.log.completed, Read(net), s.log.expired);
    } else if pc.SRead? && net.sq != [] {
      SlaveReads(c, s, net, now);
    } else {
      SlaveQuiet(c, s, net, pc, now);
    }
  }

  /** The slave's steps write nothing. */
  lemma SlaveWritesNothing(c: Config, s: Node, net: Net, pc: SPc, now: int)
    ensures var net' := SlaveStep(c, s, net, pc, now).1;
      net'.heard == net.heard && net'.lostFirst == net.lostFirst && net'.lostRx == net.lostRx
  {}

  // ------------------------------------------------ slave to master

  lemma HandToSlot<T>(flight: seq<T>, f: T, rest: seq<T>)
    ensures flight + [] + ([f] + rest) == flight + [f] + rest
  {}

  lemma SlaveSendsBehind(c: Config, s: Node, net: Net, pc: SPc, now: int, hold: Hold, mpc: MPc)
    requires SlaveShape(c.channel, s, pc) && (pc.SSchedule? ==> net.slot.None?)
    ensures var (s', net', pc') := SlaveStep(c, s, net, pc, now);
      && Behind(net', mpc, Pending(s', SlaveHand(pc'), hold)) == Behind(net, mpc, Pending(s, SlaveHand(pc), hold))
      && net'.mq == net.mq
  {
    var (s', net', pc') := SlaveStep(c, s, net, pc, now);
    SlaveMoves(c, s, net, pc, now);
    MovesPending(s, SlaveHand(pc), s', SlaveHand(pc'), hold);
    if pc.SSchedule? {
      HandToSlot(Flight(mpc), pc.f, Pending(s', SlaveHand(pc'), hold));
    } else {
      assert net'.slot == net.slot;
    }
  }

  lemma SlaveSends(c: Config, s: Node, net: Net, pc: SPc, now: int, hold: Hold, mpc: MPc, m: Node, accepted: seq<Sendable>)
    requires ToMaster(net, mpc, m, Pending(s, SlaveHand(pc), hold), accepted)
    requires SlaveShape(c.channel, s, pc) && (pc.SSchedule? ==> net.slot.None?)
    ensures var (s', net', pc') := SlaveStep(c, s, net, pc, now);
      ToMaster(net', mpc, m, Pending(s', SlaveHand(pc'), hold), accepted)
  {
    SlaveSendsBehind(c, s, net, pc, now, hold, mpc);
  }

  /** The header takes the response out of the slot and puts it in flight. */
  lemma SlotToFlight(net: Net, ev: LinEvent, out: seq<LinEvent>)
    requires net.slot == Some(ev)
    ensures WireToMaster(net.(slot := None, taken := net.taken + [ev]), MPushM(ev), out) == WireToMaster(net, MRequest, out)
  {
    assert [] + [ev] + out == [ev] + [] + out;
  }

  /** The network hands it to the master's event queue. */
  lemma FlightToQueue(net: Net, ev: LinEvent, out: seq<LinEvent>)
    requires net.mq == []
    ensures WireToMaster(net.(mq := Push(net.mq, ev.(direction := RX))), MPushS(ev), out) == WireToMaster(net, MPushM(ev), out)
  {
    var rest := Behind(net, MIdle, out);
    assert [ev] + OptSeq(net.slot) + out == [ev] + rest;
    PaysAppend([ev], rest);
    assert Pays([ev]) == [ev.payload];
    RxPaysAppend([], ev.(direction := RX));
    assert [] + ([ev.payload] + Pays(rest)) == [ev.payload] + Pays(rest);
  }

  /** The master's own frame comes back as a confirmation. */
  lemma EchoToQueue(c: Config, net: Net, f: LinEvent, out: seq<LinEvent>)
    requires net.mq == []
    ensures WireToMaster(NetWrite(c, net, f), MIdle, out) == WireToMaster(net, MWrite(f), out)
  {
    RxPaysAppend([], f.(channel := c.channel, direction := TX));
  }

  /** The master's own network steps only move the response towards it. */
  lemma MasterMovesWire(c: Config, m: Node, net: Net, pc: MPc, now: int, out: seq<LinEvent>)
    requires MasterBounded(net, pc) && !(pc.MRead? && net.mq != [])
    ensures var (_, net', pc') := MasterStep(c, m, net, pc, now);
      WireToMaster(net', pc', out) == WireToMaster(net, pc, out)
  {
    match pc
    case MWrite(f) => EchoToQueue(c, net, f, out);
    case MRequest => if net.slot.Some? { SlotToFlight(net, net.slot.value, out); }
    case MPushM(ev) => FlightToQueue(net, ev, out);
    case _ => assert Behind(net, MasterStep(c, m, net, pc, now).2, out) == Behind(net, pc, out);
  }

  lemma MasterReads(c: Config, m: Node, net: Net, pc: MPc, now: int, out: seq<LinEvent>, accepted: seq<Sendable>)
    requires ToMaster(net, pc, m, out, accepted) && DriverQueue(false, net.mq)
    requires pc.MRead? && net.mq != []
    ensures var (m', net', pc') := MasterStep(c, m, net, pc, now); ToMaster(net', pc', m', out, accepted)
  {
    var ev, rest := net.mq[0], RxPays(net.mq[1..]);
    var behind := Pays(Behind(net, pc, out));
    assert OnBus(false, ev);
    if ev.direction.RX? {
      ReceiveRelevant(c, false, CountRead(m), ev, now);
      ConcatAssoc([ev.payload], rest, behind);
      FaithfulConsume(m.log.completed, m.rx.state, ev.payload, rest + behind, accepted, !m.log.expired);
    } else {
      ReceiveIrrelevant(c, false, CountRead(m), ev, now);
      assert RxPays(net.mq) == rest;
    }
  }

  lemma MasterReceives(c: Config, m: Node, net: Net, pc: MPc, now: int, out: seq<LinEvent>, accepted: seq<Sendable>)
    requires ToMaster(net, pc, m, out, accepted) && DriverQueue(false, net.mq) && MasterBounded(net, pc)
    ensures var (m', net', pc') := MasterStep(c, m, net, pc, now); ToMaster(net', pc', m', out, accepted)
  {
    if pc.MRead? && net.mq != [] {
      MasterReads(c, m, net, pc, now, out, accepted);
    } else {
      MasterMovesWire(c, m, net, pc, now, out);
      if pc.MIdle? {
        ExpireFaithful(c, m, now, WireToMaster(net, pc, out), accepted);
      }
    }
  }

  // ------------------------------------------------ the application side

  /** The receive queue: what the application took and has yet to take is what
      was completed, in order, less what arrived at a full queue. */
  predicate Inbox(n: Node) {
    if n.log.overflow then Subsequence(n.log.popped + n.rxq, n.log.completed)
    else n.log.popped + n.rxq == n.log.completed
  }

  lemma InboxComplete(cap: nat, n: Node, m: LinMessage)
    requires Inbox(n)
    ensures Inbox(Complete(cap, n, m))
  {
    var all, taken := n.log.completed, n.log.popped + n.rxq;
    ConcatAssoc(n.log.popped, n.rxq, [m]);
    SubsequenceRefl([m]);
    SubsequenceRefl(all);
    assert taken + [] == taken && Subsequence([], [m]);
    SubsequenceConcat(taken, all, [m], [m]);
    SubsequenceConcat(taken, all, [], [m]);
  }

  lemma InboxPop(n: Node)
    requires Inbox(n)
    ensures Inbox(PopNode(n))
  {
    if n.rxq != [] {
      assert n.rxq == [n.rxq[0]] + n.rxq[1..];
      ConcatAssoc(n.log.popped, [n.rxq[0]], n.rxq[1..]);
    }
  }

  lemma InboxReceive(c: Config, isSlave: bool, n: Node, ev: LinEvent, now: int)
    requires Inbox(n)
    ensures Inbox(ReceiveEvent(c, isSlave, n, ev, now).0)
  {
    var (rx, out) := RxEvent(isSlave, n.rx, ev, now);
    if out.Some? { InboxComplete(c.rxCap, n.(rx := rx), out.value); }
  }

  lemma InboxMaster(c: Config, n: Node, net: Net, pc: MPc, now: int)
    requires Inbox(n)
    ensures Inbox(MasterStep(c, n, net, pc, now).0)
  {
    if pc.MRead? && net.mq != [] { InboxReceive(c, false, CountRead(n), net.mq[0], now); }
  }

  lemma InboxSlave(c: Config, n: Node, net: Net, pc: SPc, now: int)
    requires Inbox(n)
    ensures Inbox(SlaveStep(c, n, net, pc, now).0)
  {
    if pc.SRead? && net.sq != [] { InboxReceive(c, true, CountRead(n), net.sq[0], now); }
  }

  lemma InboxStep(c: Setup, b: System, a: Action)
    requires Inbox(b.m) && Inbox(b.s)
    ensures var b' := Apply(c, b, a); Inbox(b'.m) && Inbox(b'.s)
  {
    match a
    case MExec(now) => InboxMaster(c.m, b.m, b.net, b.mpc, now);
    case SExec(now) => InboxSlave(c.s, b.s, b.net, b.spc, now);
    case Pop(slave) => InboxPop(if slave then b.s else b.m);
    case _ =>
  }

  // ------------------------------------------------ every run

  ghost predicate Forward(b: System) {
    ToSlave(b.net, Pending(b.m, MasterHand(b.mpc), b.mhold), b.m.log.accepted) && Hears(b.net, b.s)
  }

  predicate Backward(b: System) {
    ToMaster(b.net, b.mpc, b.m, Pending(b.s, SlaveHand(b.spc), b.shold), b.s.log.accepted)
  }

  lemma BeginWire(c: Config, isSlave: bool, n: Node, hold: Hold, hand: seq<LinEvent>, msg: LinMessage)
    ensures var (n', h) := BeginTx(c, isSlave, n, hold, msg);
      if hold.Some? || Admit(c, isSlave, n, msg).None? then n' == n && h == hold
      else n' == Accept(n, msg) && n'.log.accepted == n.log.accepted + [msg]
           && Pays(Pending(n', hand, h)) == Pays(Pending(n, hand, hold)) + Payloads(msg)
  {
    if hold.None? && Admit(c, isSlave, n, msg).Some? {
      var fs := MessageFrames(isSlave, c.channel, msg);
      assert hand + n.txq + [] == hand + n.txq;
      PaysAppend(hand + n.txq, fs);
      PaysOfFrames(isSlave, c.channel, Payloads(msg));
    }
  }

  lemma SendWire(c: Config, n: Node, hold: Hold, hand: seq<LinEvent>)
    ensures var (n', h) := SendTx(c, n, hold);
      n'.log == n.log && n'.rx == n.rx && Pending(n', hand, h) == Pending(n, hand, hold)
  {
    if hold.Some? && hold.value != [] {
      assert hold.value == [hold.value[0]] + hold.value[1..];
      ConcatAssoc(n.txq, [hold.value[0]], hold.value[1..]);
    }
  }

  /** A step of the master's execute, seen from the slave. */
  lemma ForwardExec(c: Setup, b: System, now: int)
    requires Forward(b)
    ensures Forward(Apply(c, b, MExec(now)))
  {
    MasterSends(c.m, b.m, b.net, b.mpc, now, b.mhold, b.m.log.accepted);
    MasterMoves(c.m, b.m, b.net, b.mpc, now);
    MasterKeepsHearing(c.m, b.m, b.net, b.mpc, now, b.s);
  }

  lemma ForwardBegin(c: Setup, b: System, msg: LinMessage)
    requires Forward(b)
    ensures Forward(Apply(c, b, Begin(false, msg)))
  {
    var hand := MasterHand(b.mpc);
    BeginWire(c.m, false, b.m, b.mhold, hand, msg);
    if b.mhold.None? && Admit(c.m, false, b.m, msg).Some? {
      var (n', h) := BeginTx(c.m, false, b.m, b.mhold, msg);
      AcceptToSlave(b.net, Pending(b.m, hand, b.mhold), Pending(n', hand, h), b.m.log.accepted, msg);
    }
  }

  lemma ForwardSlave(c: Setup, b: System, now: int)
    requires ValidSetup(c) && Shape(c, b) && Forward(b)
    ensures Forward(Apply(c, b, SExec(now)))
  {
    SlaveReceives(c.s, b.s, b.net, b.spc, now);
    SlaveWritesNothing(c.s, b.s, b.net, b.spc, now);
  }

  lemma ForwardSend(c: Setup, b: System)
    requires Forward(b)
    ensures Forward(Apply(c, b, Send(false)))
  {
    SendWire(c.m, b.m, b.mhold, MasterHand(b.mpc));
  }

  /** The other steps leave the slave's receiver, its queue and the master's
      frames alone. */
  predicate SameForward(b: System, b': System) {
    && b'.net == b.net && b'.mpc == b.mpc && b'.m.txq == b.m.txq && Held(b'.mhold) == Held(b.mhold)
    && b'.m.log.accepted == b.m.log.accepted
    && b'.s.rx == b.s.rx && b'.s.log.completed == b.s.log.completed && b'.s.log.expired == b.s.log.expired
  }

  lemma ForwardOther(c: Setup, b: System, a: Action)
    requires !a.MExec? && !a.SExec? && !(a.Begin? && !a.slave) && !(a.Send? && !a.slave)
    ensures SameForward(b, Apply(c, b, a))
  {}

  lemma ForwardStep(c: Setup, b: System, a: Action)
    requires ValidSetup(c) && Shape(c, b) && Forward(b)
    ensures Forward(Apply(c, b, a))
  {
    match a
    case MExec(now) => ForwardExec(c, b, now);
    case SExec(now) => ForwardSlave(c, b, now);
    case Begin(false, msg) => ForwardBegin(c, b, msg);
    case Send(false) => ForwardSend(c, b);
    case _ => ForwardOther(c, b, a);
  }

  lemma BackwardExec(c: Setup, b: System, now: int)
    requires Shape(c, b) && Bounded(c, b) && Backward(b)
    ensures Backward(Apply(c, b, MExec(now)))
  {
    MasterReceives(c.m, b.m, b.net, b.mpc, now, Pending(b.s, SlaveHand(b.spc), b.shold), b.s.log.accepted);
  }

  lemma BackwardSlave(c: Setup, b: System, now: int)
    requires ValidSetup(c) && Shape(c, b) && Backward(b)
    requires b.spc.SSchedule? ==> b.net.slot.None?
    ensures Backward(Apply(c, b, SExec(now)))
  {
    SlaveSends(c.s, b.s, b.net, b.spc, now, b.shold, b.mpc, b.m, b.s.log.accepted);
    SlaveMoves(c.s, b.s, b.net, b.spc, now);
  }

  lemma BackwardBegin(c: Setup, b: System, msg: LinMessage)
    requires Backward(b)
    ensures Backward(Apply(c, b, Begin(true, msg)))
  {
    var hand := SlaveHand(b.spc);
    BeginWire(c.s, true, b.s, b.shold, hand, msg);
    if b.shold.None? && Admit(c.s, true, b.s, msg).Some? {
      var (n', h) := BeginTx(c.s, true, b.s, b.shold, msg);
      AcceptBehind(b.net, b.mpc, Pending(b.s, hand, b.shold), Pending(n', hand, h), msg);
      FaithfulAccept(b.m.log.completed, b.m.rx.state, WireToMaster(b.net, b.mpc, Pending(b.s, hand, b.shold)),
                     b.s.log.accepted, !b.m.log.expired, msg);
    }
  }

  lemma BackwardSend(c: Setup, b: System)
    requires Backward(b)
    ensures Backward(Apply(c, b, Send(true)))
  {
    SendWire(c.s, b.s, b.shold, SlaveHand(b.spc));
  }

  predicate SameBackward(b: System, b': System) {
    && b'.net == b.net && b'.mpc == b.mpc && b'.spc == b.spc && b'.s.txq == b.s.txq && Held(b'.shold) == Held(b.shold)
    && b'.s.log.accepted == b.s.log.accepted
    && b'.m.rx == b.m.rx && b'.m.log.completed == b.m.log.completed && b'.m.log.expired == b.m.log.expired
  }

  lemma BackwardOther(c: Setup, b: System, a: Action)
    requires !a.MExec? && !a.SExec? && !(a.Begin? && a.slave) && !(a.Send? && a.slave)
    ensures SameBackward(b, Apply(c, b, a))
  {}

  lemma BackwardStep(c: Setup, b: System, a: Action)
    requires ValidSetup(c) && Shape(c, b) && Bounded(c, b) && Backward(b)
    requires b.spc.SSchedule? ==> b.net.slot.None?
    ensures Backward(Apply(c, b, a))
  {
    match a
    case MExec(now) => BackwardExec(c, b, now);
    case SExec(now) => BackwardSlave(c, b, now);
    case Begin(true, msg) => BackwardBegin(c, b, msg);
    case Send(true) => BackwardSend(c, b);
    case _ => BackwardOther(c, b, a);
  }

  lemma AcceptBehind(net: Net, mpc: MPc, out: seq<LinEvent>, out': seq<LinEvent>, m: Sendable)
    requires Pays(out') == Pays(out) + Payloads(m)
    ensures WireToMaster(net, mpc, out') == WireToMaster(net, mpc, out) + Payloads(m)
  {
    var front := Flight(mpc) + OptSeq(net.slot);
    PaysAppend(front, out);
    PaysAppend(front, out');
    ConcatAssoc(Pays(front), Pays(out), Payloads(m));
    ConcatAssoc(RxPays(net.mq), Pays(front) + Pays(out), Payloads(m));
  }
}
