/** The results about every run of the system. */
module BusRuns {
  import opened LinTypes
  import opened Framing
  import opened Reassembly
  import opened Loss
  import opened Bus
  import opened BusInvariants
  import opened BusFaithful

  predicate IsSuffix<T(==)>(a: seq<T>, b: seq<T>) { |a| <= |b| && a == b[|b| - |a|..] }

  lemma SuffixTail<T>(a: seq<T>, b: seq<T>)
    requires IsSuffix(a, b) && a != []
    ensures IsSuffix(a[1..], b)
  {}

  function LastFrames(isSlave: bool, channel: byte, accepted: seq<Sendable>): seq<LinEvent>
    requires accepted != []
  {
    MessageFrames(isSlave, channel, accepted[|accepted| - 1])
  }

  /** The Transmit in progress has sent a prefix of its own message. */
  predicate HoldsTail(isSlave: bool, channel: byte, accepted: seq<Sendable>, hold: Hold) {
    hold.Some? ==> accepted != [] && IsSuffix(hold.value, LastFrames(isSlave, channel, accepted))
  }

  lemma BeginTail(c: Config, isSlave: bool, n: Node, hold: Hold, msg: LinMessage)
    requires HoldsTail(isSlave, c.channel, n.log.accepted, hold)
    ensures var (n', h) := BeginTx(c, isSlave, n, hold, msg); HoldsTail(isSlave, c.channel, n'.log.accepted, h)
  {
    if hold.None? && Admit(c, isSlave, n, msg).Some? {
      var fs := MessageFrames(isSlave, c.channel, msg);
      assert IsSuffix(fs, fs);
    }
  }

  lemma SendTail(c: Config, isSlave: bool, n: Node, hold: Hold)
    requires HoldsTail(isSlave, c.channel, n.log.accepted, hold)
    ensures var (n', h) := SendTx(c, n, hold); HoldsTail(isSlave, c.channel, n'.log.accepted, h)
  {
    if hold.Some? && hold.value != [] {
      SuffixTail(hold.value, LastFrames(isSlave, c.channel, n.log.accepted));
    }
  }

  predicate BothHoldTails(c: Setup, b: System) {
    HoldsTail(false, c.m.channel, b.m.log.accepted, b.mhold) && HoldsTail(true, c.s.channel, b.s.log.accepted, b.shold)
  }

  /** Execute neither accepts messages nor touches a Transmit in progress. */
  lemma MasterExecHolds(c: Setup, b: System, now: int)
    ensures var b' := Apply(c, b, MExec(now)); b'.m.log.accepted == b.m.log.accepted && b'.mhold == b.mhold
  {
    MasterMoves(c.m, b.m, b.net, b.mpc, now);
  }

  lemma SlaveExecHolds(c: Setup, b: System, now: int)
    ensures var b' := Apply(c, b, SExec(now)); b'.s.log.accepted == b.s.log.accepted && b'.shold == b.shold
  {
    SlaveMoves(c.s, b.s, b.net, b.spc, now);
  }

  /** Other steps end a Transmit in progress or leave it alone. */
  lemma MasterOtherHolds(c: Setup, b: System, a: Action)
    requires !a.MExec? && !(a.Begin? && !a.slave) && !(a.Send? && !a.slave)
    ensures var b' := Apply(c, b, a);
      b'.m.log.accepted == b.m.log.accepted && (b'.mhold == b.mhold || b'.mhold == None)
  {}

  lemma SlaveOtherHolds(c: Setup, b: System, a: Action)
    requires !a.SExec? && !(a.Begin? && a.slave) && !(a.Send? && a.slave)
    ensures var b' := Apply(c, b, a);
      b'.s.log.accepted == b.s.log.accepted && (b'.shold == b.shold || b'.shold == None)
  {}

  lemma MasterTailStep(c: Setup, b: System, a: Action)
    requires HoldsTail(false, c.m.channel, b.m.log.accepted, b.mhold)
    ensures var b' := Apply(c, b, a); HoldsTail(false, c.m.channel, b'.m.log.accepted, b'.mhold)
  {
    match a
    case MExec(now) => MasterExecHolds(c, b, now);
    case Begin(false, msg) => BeginTail(c.m, false, b.m, b.mhold, msg);
    case Send(false) => SendTail(c.m, false, b.m, b.mhold);
    case _ => MasterOtherHolds(c, b, a);
  }

  lemma SlaveTailStep(c: Setup, b: System, a: Action)
    requires HoldsTail(true, c.s.channel, b.s.log.accepted, b.shold)
    ensures var b' := Apply(c, b, a); HoldsTail(true, c.s.channel, b'.s.log.accepted, b'.shold)
  {
    match a
    case SExec(now) => SlaveExecHolds(c, b, now);
    case Begin(true, msg) => BeginTail(c.s, true, b.s, b.shold, msg);
    case Send(true) => SendTail(c.s, true, b.s, b.shold);
    case _ => SlaveOtherHolds(c, b, a);
  }

  ghost predicate Inv(c: Setup, b: System) {
    && Shape(c, b) && Bounded(c, b)
    && MasterConserved(c, b) && SlaveConserved(c, b)
    && BothHoldTails(c, b)
    && SlotOnce(b.net, b.s, b.mpc, b.spc) && SlotHistory(b.net, b.s)
    && Forward(b) && Backward(b)
    && Inbox(b.m) && Inbox(b.s)
  }

  /** A slave about to schedule has no frame outstanding. */
  lemma SlotFree(net: Net, n: Node, mpc: MPc, spc: SPc)
    requires SlotOnce(net, n, mpc, spc) && spc.SSchedule?
    ensures net.slot.None?
  {}

  lemma InvStep(c: Setup, b: System, a: Action)
    requires ValidSetup(c) && Inv(c, b)
    ensures Inv(c, Apply(c, b, a))
  {
    if b.spc.SSchedule? { SlotFree(b.net, b.s, b.mpc, b.spc); }
    ShapeStep(c, b, a);
    BoundedStep(c, b, a);
    MasterConservedStep(c, b, a);
    SlaveConservedStep(c, b, a);
    MasterTailStep(c, b, a);
    SlaveTailStep(c, b, a);
    SlotOnceStep(c, b, a);
    SlotHistoryStep(c, b, a);
    ForwardStep(c, b, a);
    BackwardStep(c, b, a);
    InboxStep(c, b, a);
  }

  lemma {:induction false} InvRun(c: Setup, acts: seq<Action>)
    requires ValidSetup(c)
    ensures Inv(c, Run(c, acts))
  {
    if acts == [] {
      InitialInv(c);
    } else {
      InvRun(c, acts[..|acts| - 1]);
      InvStep(c, Run(c, acts[..|acts| - 1]), acts[|acts| - 1]);
    }
  }

  lemma InitialInv(c: Setup)
    ensures Inv(c, INITIAL)
  {
    assert AllPayloads([]) == [];
    assert Outputs(RESET, []) == [];
    assert Thins([] + Pays([]), [], [], false, false);
  }

  predicate NothingForSlave(b: System) {
    b.net.sq == [] && MasterHand(b.mpc) == [] && b.m.txq == [] && Held(b.mhold) == []
  }

  predicate NothingForMaster(b: System) {
    && b.net.mq == [] && Flight(b.mpc) == [] && b.net.slot.None?
    && SlaveHand(b.spc) == [] && b.s.txq == [] && Held(b.shold) == []
  }

  /** The received frames that reached the slave's queue, and those the master
      has still to write. */
  function StreamToSlave(b: System): seq<seq<byte>> {
    b.net.heard + Pays(Pending(b.m, MasterHand(b.mpc), b.mhold))
  }

  /** Towards the slave, over every interleaving, whatever its event queue
      drops: what reaches the queue is the accepted messages with some frames
      missing - none of them a first frame if it never dropped one, none at all
      if it never dropped any - and what the slave completes is what the stream
      receiver makes of that, in order: all of it once nothing is on the way,
      and less only where a reception expired. LossExact says what that is; no
      first frame dropped, it is exactly the messages without a dropped frame. */
  lemma LossyEndToEnd(c: Setup, acts: seq<Action>) returns (keeps: seq<seq<bool>>)
    requires ValidSetup(c)
    ensures var b := Run(c, acts);
      && Thins(StreamToSlave(b), b.m.log.accepted, keeps, b.net.lostFirst, b.net.lostRx)
      && var delivered := Outputs(RESET, Arriving(b.m.log.accepted, keeps));
      && Subsequence(b.s.log.completed, delivered)
      && (!b.s.log.expired ==> b.s.log.completed <= delivered)
      && (!b.s.log.expired && NothingForSlave(b) ==> b.s.log.completed == delivered)
      && (!b.net.lostFirst ==> delivered == Intact(b.m.log.accepted, keeps))
  {
    InvRun(c, acts);
    var b := Run(c, acts);
    keeps :| Thins(StreamToSlave(b), b.m.log.accepted, keeps, b.net.lostFirst, b.net.lostRx);
    HeardMeaning(b);
    if !b.net.lostFirst { FirstFramesSuffice(RESET, b.m.log.accepted, keeps); }
  }

  lemma HeardMeaning(b: System)
    requires Hears(b.net, b.s)
    ensures var delivered := Outputs(RESET, StreamToSlave(b));
      && Subsequence(b.s.log.completed, delivered)
      && (!b.s.log.expired ==> b.s.log.completed <= delivered)
      && (!b.s.log.expired && NothingForSlave(b) ==> b.s.log.completed == delivered)
  {
    var out := Pays(Pending(b.m, MasterHand(b.mpc), b.mhold));
    ConcatAssoc(Read(b.net), RxPays(b.net.sq), out);
    FollowsMeaning(b.s.rx.state, b.s.log.completed, Read(b.net), b.s.log.expired, RxPays(b.net.sq) + out);
  }

  lemma FollowsMeaning(s: RxState, completed: seq<LinMessage>, read: seq<seq<byte>>, expired: bool, later: seq<seq<byte>>)
    requires Follows(s, completed, read, expired)
    ensures var delivered := Outputs(RESET, read + later);
      && Subsequence(completed, delivered)
      && (!expired ==> completed <= delivered)
      && (!expired && later == [] ==> completed == delivered)
  {
    StreamConcat(RESET, read, later);
    var first, rest := Outputs(RESET, read), Outputs(Final(RESET, read), later);
    SubsequenceRefl(first + rest);
    SubsequencePrefix(first, rest, first + rest);
    if expired { SubsequenceTrans(completed, first, first + rest); }
    assert later == [] ==> first + rest == first;
  }

  /** End-to-end faithfulness over every interleaving. Messages are delivered
      unaltered, unduplicated and in order. Towards the slave that holds as
      long as its event queue never dropped a first frame; towards the master
      without any condition, because its event queue cannot overflow. Without
      an expired reception or a dropped frame they are a prefix of what was
      accepted, and all of it once nothing is left on the way. */
  lemma EndToEnd(c: Setup, acts: seq<Action>)
    requires ValidSetup(c)
    ensures var b := Run(c, acts);
      && (!b.net.lostFirst ==> Subsequence(b.s.log.completed, b.m.log.accepted))
      && (!b.net.lostRx && !b.s.log.expired ==> b.s.log.completed <= b.m.log.accepted)
      && (!b.net.lostRx && !b.s.log.expired && NothingForSlave(b) ==> b.s.log.completed == b.m.log.accepted)
      && Subsequence(b.m.log.completed, b.s.log.accepted)
      && (!b.m.log.expired ==> b.m.log.completed <= b.s.log.accepted)
      && (!b.m.log.expired && NothingForMaster(b) ==> b.m.log.completed == b.s.log.accepted)
  {
    InvRun(c, acts);
    ToTheSlave(c, acts);
    var b := Run(c, acts);
    FaithfulMeaning(b.m.log.completed, b.m.rx.state,
                    WireToMaster(b.net, b.mpc, Pending(b.s, SlaveHand(b.spc), b.shold)), b.s.log.accepted, !b.m.log.expired);
  }

  lemma ToTheSlave(c: Setup, acts: seq<Action>)
    requires ValidSetup(c)
    ensures var b := Run(c, acts);
      && (!b.net.lostFirst ==> Subsequence(b.s.log.completed, b.m.log.accepted))
      && (!b.net.lostRx && !b.s.log.expired ==> b.s.log.completed <= b.m.log.accepted)
      && (!b.net.lostRx && !b.s.log.expired && NothingForSlave(b) ==> b.s.log.completed == b.m.log.accepted)
  {
    var b := Run(c, acts);
    var keeps := LossyEndToEnd(c, acts);
    IntactSubsequence(b.m.log.accepted, keeps);
    var delivered := Outputs(RESET, Arriving(b.m.log.accepted, keeps));
    if !b.net.lostFirst {
      SubsequenceTrans(b.s.log.completed, delivered, b.m.log.accepted);
    }
    if !b.net.lostRx {
      AllKeepFirsts(b.m.log.accepted, keeps);
      FirstFramesSuffice(RESET, b.m.log.accepted, keeps);
      IntactAll(b.m.log.accepted, keeps);
    }
  }

  /** The same for the application: what it takes from the receive queue. */
  lemma Received(c: Setup, acts: seq<Action>)
    requires ValidSetup(c)
    ensures var b := Run(c, acts);
      && (!b.net.lostFirst ==> Subsequence(b.s.log.popped, b.m.log.accepted))
      && (!b.net.lostRx && !b.s.log.expired && !b.s.log.overflow ==> b.s.log.popped <= b.m.log.accepted)
      && Subsequence(b.m.log.popped, b.s.log.accepted)
      && (!b.m.log.expired && !b.m.log.overflow ==> b.m.log.popped <= b.s.log.accepted)
  {
    InvRun(c, acts);
    EndToEnd(c, acts);
    var b := Run(c, acts);
    InboxMeaning(b.m);
    InboxMeaning(b.s);
    SubsequenceTrans(b.m.log.popped, b.m.log.completed, b.s.log.accepted);
    if !b.net.lostFirst { SubsequenceTrans(b.s.log.popped, b.s.log.completed, b.m.log.accepted); }
  }

  lemma InboxMeaning(n: Node)
    requires Inbox(n)
    ensures Subsequence(n.log.popped, n.log.completed)
    ensures !n.log.overflow ==> n.log.popped <= n.log.completed
  {
    SubsequenceRefl(n.log.completed);
    SubsequencePrefix(n.log.popped, n.rxq, n.log.completed);
  }

  /** The response slot is used exactly once per frame: occupancy, responses in
      flight and unread confirmations together are at most one while the slave
      waits and none while it does not, the slot is free whenever the slave
      schedules, and the frames that reached the bus are a prefix, in order, of
      the frames of the messages the slave accepted. */
  lemma SlotExactlyOnce(c: Setup, acts: seq<Action>)
    requires ValidSetup(c)
    ensures var b := Run(c, acts);
      && Outstanding(b.net, b.mpc) <= (if Waiting(b.s, b.spc) then 1 else 0)
      && (Waiting(b.s, b.spc) && !b.net.lostTx ==> Outstanding(b.net, b.mpc) == 1)
      && (b.spc.SSchedule? ==> b.net.slot.None?)
      && b.net.taken + OptSeq(b.net.slot) == b.s.log.written
      && b.net.taken <= AllFrames(true, c.s.channel, b.s.log.accepted)
  {
    InvRun(c, acts);
    var b := Run(c, acts);
    if b.spc.SSchedule? { SlotFree(b.net, b.s, b.mpc, b.spc); }
    BusPrefix(b.net.taken, OptSeq(b.net.slot), SlaveHand(b.spc), b.s.txq, Held(b.shold));
  }

  lemma BusPrefix<T>(taken: seq<T>, slot: seq<T>, hand: seq<T>, q: seq<T>, hold: seq<T>)
    ensures taken <= taken + slot + hand + q + hold
  {}

  /** No channel of the system ever blocks or overflows unseen: the transmit
      queues stay within capacity, a Transmit past its capacity test can always
      send, and the master's own event queue holds at most one event. */
  lemma NeverBlocks(c: Setup, acts: seq<Action>)
    requires ValidSetup(c)
    ensures var b := Run(c, acts);
      && |b.m.txq| <= c.m.txCap && |b.s.txq| <= c.s.txCap
      && (b.mhold.Some? && b.mhold.value != [] ==> |b.m.txq| < c.m.txCap)
      && (b.shold.Some? && b.shold.value != [] ==> |b.s.txq| < c.s.txCap)
      && |b.net.mq| <= 1 && |b.net.sq| <= EVENT_QUEUE
      && |b.m.rxq| <= c.m.rxCap && |b.s.rxq| <= c.s.rxCap
  {
    InvRun(c, acts);
  }

  /** Transmit is atomic: frames handed to the driver, then the one in hand,
      then the queue are the frames of whole accepted messages followed by at
      most one partly sent message at the end. */
  predicate QueuedWhole(isSlave: bool, channel: byte, n: Node, hand: seq<LinEvent>, hold: Hold) {
    var sent := n.log.written + hand + n.txq;
    if hold.None? then sent == AllFrames(isSlave, channel, n.log.accepted)
    else
      && n.log.accepted != []
      && var fs := LastFrames(isSlave, channel, n.log.accepted);
      && |hold.value| <= |fs|
      && sent == AllFrames(isSlave, channel, n.log.accepted[..|n.log.accepted| - 1]) + fs[..|fs| - |hold.value|]
  }

  lemma SplitAtHold<T>(sent: seq<T>, hold: seq<T>, whole: seq<T>, fs: seq<T>)
    requires IsSuffix(hold, fs) && sent + hold == whole + fs
    ensures sent == whole + fs[..|fs| - |hold|]
  {
    var k := |fs| - |hold|;
    assert fs == fs[..k] + hold;
    assert whole + fs == (whole + fs[..k]) + hold;
    assert sent == (sent + hold)[..|sent|] && whole + fs[..k] == (whole + fs[..k] + hold)[..|sent|];
  }

  lemma HeldAtomic(isSlave: bool, channel: byte, sent: seq<LinEvent>, accepted: seq<Sendable>, hold: seq<LinEvent>)
    requires accepted != [] && AllFrames(isSlave, channel, accepted) == sent + hold
    requires IsSuffix(hold, LastFrames(isSlave, channel, accepted))
    ensures var fs := LastFrames(isSlave, channel, accepted);
      sent == AllFrames(isSlave, channel, accepted[..|accepted| - 1]) + fs[..|fs| - |hold|]
  {
    var whole, last := accepted[..|accepted| - 1], accepted[|accepted| - 1];
    assert accepted == whole + [last];
    AllFramesAppend(isSlave, channel, whole, last);
    SplitAtHold(sent, hold, AllFrames(isSlave, channel, whole), LastFrames(isSlave, channel, accepted));
  }

  lemma TransmitAtomic(isSlave: bool, channel: byte, n: Node, hand: seq<LinEvent>, hold: Hold)
    requires Conserved(isSlave, channel, n, hand, hold) && HoldsTail(isSlave, channel, n.log.accepted, hold)
    ensures QueuedWhole(isSlave, channel, n, hand, hold)
  {
    var sent := n.log.written + hand + n.txq;
    if hold.None? {
      assert sent + [] == sent;
    } else {
      HeldAtomic(isSlave, channel, sent, n.log.accepted, hold.value);
    }
  }

  /** Transmit queue conservation over every run with concurrent Transmits. */
  lemma QueueConservation(c: Setup, acts: seq<Action>)
    requires ValidSetup(c)
    ensures var b := Run(c, acts);
      && QueuedWhole(false, c.m.channel, b.m, MasterHand(b.mpc), b.mhold)
      && QueuedWhole(true, c.s.channel, b.s, SlaveHand(b.spc), b.shold)
  {
    InvRun(c, acts);
    var b := Run(c, acts);
    TransmitAtomic(false, c.m.channel, b.m, MasterHand(b.mpc), b.mhold);
    TransmitAtomic(true, c.s.channel, b.s, SlaveHand(b.spc), b.shold);
  }
}
