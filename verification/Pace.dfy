/** The pace of responses is met exactly: every response whose frames fit into
    the timeout at one cycle every `gap` completes in some run at that pace. */
module Pace {
  import opened LinTypes
  import opened Framing
  import opened Reassembly
  import opened Loss
  import opened History
  import opened Bus
  import opened BusRuns
  import opened BusHistory
  import opened Cycle
  import opened Quiescence

  // ------------------------------------------------ runs with a given history

  /** A run leads to `b` and feeds the master's receiver the history `h`. */
  ghost predicate Fed(c: Setup, b: System, h: seq<RxInput>) {
    exists acts :: Run(c, acts) == b && Inputs(c, false, acts) == h
  }

  lemma FedInitially(c: Setup)
    ensures Fed(c, INITIAL, [])
  {
    assert Run(c, []) == INITIAL && Inputs(c, false, []) == [];
  }

  lemma FedStep(c: Setup, b: System, h: seq<RxInput>, a: Action)
    requires Fed(c, b, h)
    ensures Fed(c, Apply(c, b, a), h + MasterInput(b, a))
  {
    var acts :| Run(c, acts) == b && Inputs(c, false, acts) == h;
    var all := acts + [a];
    assert all[..|all| - 1] == acts;
    assert Run(c, all) == Apply(c, b, a) && Inputs(c, false, all) == h + MasterInput(b, a);
  }

  /** A step that feeds the master nothing. */
  lemma FedQuietly(c: Setup, b: System, h: seq<RxInput>, a: Action)
    requires Fed(c, b, h) && MasterInput(b, a) == []
    ensures Fed(c, Apply(c, b, a), h)
  {
    FedStep(c, b, h, a);
    assert h + [] == h;
  }

  lemma {:induction false} FedRepeat(c: Setup, b: System, h: seq<RxInput>, a: Action, k: nat)
    requires Fed(c, b, h) && !a.MExec?
    ensures Fed(c, RunFrom(c, b, Repeat(a, k)), h)
  {
    if k > 0 {
      FedRepeat(c, b, h, a, k - 1);
      assert Repeat(a, k)[..k - 1] == Repeat(a, k - 1);
      FedQuietly(c, RunFrom(c, b, Repeat(a, k - 1)), h, a);
    }
  }

  lemma FedReaches(c: Setup, b: System, h: seq<RxInput>, a: Action, b': System)
    requires Fed(c, b, h) && !a.MExec? && Reaches(c, b, a, b')
    ensures Fed(c, b', h)
  {
    var k: nat :| RunFrom(c, b, Repeat(a, k)) == b';
    FedRepeat(c, b, h, a, k);
  }

  // ------------------------------------------------ histories that keep the pace

  /** A history at that pace whose next cycle may begin at `next`. */
  predicate Timely(h: seq<RxInput>, gap: nat, next: int) {
    Ticking(h, gap) && forall i :: 0 <= i < |h| ==> h[i].now <= next && (h[i].Cycle? ==> h[i].now + gap <= next)
  }

  lemma TimelyCycle(h: seq<RxInput>, gap: nat, now: int)
    requires Timely(h, gap, now)
    ensures Timely(h + [RxInput.Cycle(now)], gap, now + gap)
  {}

  /** A cycle and an event read in it, no later than the next cycle. */
  lemma TimelyRead(h: seq<RxInput>, gap: nat, now: int, at: int, ev: LinEvent)
    requires Timely(h, gap, now) && now <= at <= now + gap
    ensures Timely(h + [RxInput.Cycle(now)] + [Event(at, ev)], gap, now + gap)
  {
    TimelyCycle(h, gap, now);
    var h1 := h + [RxInput.Cycle(now)];
    assert forall i :: 0 <= i < |h1| ==> h1[i].now <= now;
  }

  // ------------------------------------------------ the response is accepted and scheduled

  lemma BeginsTransmit(c: Setup, m: Sendable)
    requires |Payloads(m)| <= c.s.txCap
    ensures Admit(c.s, true, EMPTY_NODE, m) == Some(MessageFrames(true, c.s.channel, m))
    ensures Apply(c, INITIAL, Begin(true, m))
            == WithNode(INITIAL, true, Accept(EMPTY_NODE, m), Some(MessageFrames(true, c.s.channel, m)))
  {}

  lemma FedTransmit(c: Setup, m: Sendable)
    requires |Payloads(m)| <= c.s.txCap
    ensures Fed(c, WithNode(INITIAL, true, Transmitted(c.s, true, EMPTY_NODE, m), None), [])
  {
    var n1, fs := Accept(EMPTY_NODE, m), MessageFrames(true, c.s.channel, m);
    var b1, b2 := WithNode(INITIAL, true, n1, Some(fs)), WithNode(INITIAL, true, n1.(txq := n1.txq + fs), Some([]));
    BeginsTransmit(c, m);
    FedInitially(c);
    FedQuietly(c, INITIAL, [], Begin(true, m));
    SendsRun(c, b1, true);
    FedReaches(c, b1, [], Send(true), b2);
    FedQuietly(c, b2, [], End(true));
    EndsTransmitted(c, INITIAL, true, m);
  }

  /** The slave's first frame is in the slot and the master wants a response. */
  lemma ResponseReady(c: Setup, m: Sendable) returns (b: System)
    requires |Payloads(m)| <= c.s.txCap
    ensures Fed(c, b, []) && Resting(b) && InSlot(c, b, m, 0)
    ensures b.m.rx == FRESH && b.s.rx == FRESH && b.net.mq == []
  {
    FedTransmit(c, m);
    var b0 := WithNode(INITIAL, true, Transmitted(c.s, true, EMPTY_NODE, m), None);
    var b1 := Apply(c, b0, SetAwaiting);
    FedQuietly(c, b0, [], SetAwaiting);
    b := SlaveStarts(c, b1, m);
    FedReaches(c, b1, [], SExec(0), b);
  }

  // ------------------------------------------------ a cycle of the master, step by step

  /** The check of a cycle begun at `now` and its two tests. */
  lemma OpensCycle(c: Setup, b: System, h: seq<RxInput>, now: int)
    requires Fed(c, b, h) && Resting(b) && CheckTimeout(b.m.rx, c.m.timeout, now) == b.m.rx
    ensures Fed(c, b.(mpc := MRead(false)), h + [RxInput.Cycle(now)])
  {
    var h1 := h + [RxInput.Cycle(now)];
    CycleOpens(c, b, now);
    FedStep(c, b, h, MExec(now));
    var b1, b2 := b.(mpc := MLen), b.(mpc := MFlag);
    QueueTest(c, b1, now);
    FedQuietly(c, b1, h1, MExec(now));
    FlagTest(c, b2, now);
    FedQuietly(c, b2, h1, MExec(now));
  }

  /** A cycle that has read what there was and will ask for frame `i`. */
  predicate Asking(c: Setup, b: System, m: Sendable, i: nat)
    requires i < |Payloads(m)|
  {
    b.mpc == MRead(false) && b.net.mq == [] && Resting(b.(mpc := MIdle)) && InSlot(c, b, m, i)
  }

  lemma AsksStep(c: Setup, b: System, m: Sendable, i: nat)
    requires i < |Payloads(m)| && Asking(c, b, m, i)
    ensures var b' := Apply(c, Apply(c, Apply(c, b, MExec(0)), MExec(0)), MExec(0));
      b' == b.(m := CountRead(b.m), mpc := MRequest)
    ensures Apply(c, b, MExec(0)).mpc == MSelect(false)
    ensures Apply(c, Apply(c, b, MExec(0)), MExec(0)).mpc == MDecide
  {
    ReadsNothing(c, b, 0);
  }

  lemma HeaderStep(c: Setup, b: System, f: LinEvent)
    requires b.mpc.MRequest? && b.net.slot == Some(f) && b.net.mq == [] && b.net.sq == []
    ensures var b1 := Apply(c, b, MExec(0));
      var b2 := Apply(c, b1, MExec(0));
      var b3 := Apply(c, b2, MExec(0));
      && b1.mpc.MPushM? && b2.mpc.MPushS? && b3.mpc.MIdle?
      && b3.net.mq == [f.(direction := RX)] && b3.net.sq == [f.(direction := TX)] && b3.net.slot == None
      && b3 == b.(m := b.m.(log := b.m.log.(requests := b.m.log.requests + 1)), net := b3.net, mpc := MIdle)
  {}

  /** The rest of the cycle fetches the frame. */
  lemma Asks(c: Setup, b: System, h: seq<RxInput>, m: Sendable, i: nat) returns (b': System)
    requires i < |Payloads(m)| && Fed(c, b, h) && Asking(c, b, m, i)
    ensures Fed(c, b', h) && Resting(b') && Fetched(c, b', m, i) && b'.m.rx == b.m.rx && b'.s == b.s
  {
    var e := MExec(0);
    var b1 := Apply(c, b, e);
    var b2 := Apply(c, b1, e);
    var b3 := Apply(c, b2, e);
    AsksStep(c, b, m, i);
    FedQuietly(c, b, h, e);
    FedQuietly(c, b1, h, e);
    FedQuietly(c, b2, h, e);
    var b4 := Apply(c, b3, e);
    var b5 := Apply(c, b4, e);
    HeaderStep(c, b3, ResponseFrame(c, m, i));
    FedQuietly(c, b3, h, e);
    FedQuietly(c, b4, h, e);
    FedQuietly(c, b5, h, e);
    b' := Apply(c, b5, e);
  }

  /** A frame of the response, read at `now`. */
  lemma ReadsFrame(c: Setup, b: System, now: int, ev: LinEvent)
    requires b.mpc == MRead(false) && b.net.mq == [ev] && Relevant(false, ev) && |ev.payload| == 8 && !Inert(ev.payload)
    ensures var (t, out) := RxStep(b.m.rx.state, ev.payload);
      var b' := Apply(c, b, MExec(now));
      && MasterInput(b, MExec(now)) == [Event(now, ev)]
      && b'.m.log.completed == b.m.log.completed + OptSeq(out)
      && b'.m.rx == Rx(t, if IsFirst(ev.payload) then now else if t.remaining > 0 then b.m.rx.start else 0)
      && (out.None? ==> b' == b.(m := b'.m, net := b.net.(mq := []), mpc := MRead(false))
                        && b'.m.txq == b.m.txq && b'.m.awaiting == b.m.awaiting)
  {}

  // ------------------------------------------------ the frames of the response in turn

  lemma FrameShape(m: Sendable, i: nat)
    requires |m.data| > 5 && i < |Payloads(m)|
    ensures |Payloads(m)[i]| == 8 && !Inert(Payloads(m)[i]) && (IsFirst(Payloads(m)[i]) <==> i == 0)
  {
    PayloadSize(m);
    if i == 0 {
      FirstIsFirst(m);
    } else {
      ConsecutiveFrameContents(m.nad, m.data[4..], 1, i - 1);
      assert Payloads(m)[i] == ConsecutiveFrames(m.nad, m.data[4..], 1)[i - 1];
    }
  }

  /** Frame `i` in turn, as a step of the stream. */
  lemma InTurn(m: Sendable, i: nat) returns (t: RxState, out: Option<LinMessage>)
    requires |m.data| > 5 && 0 < i < |Payloads(m)|
    ensures (t, out) == RxStep(PartOf(m, i - 1), Payloads(m)[i])
    ensures t == Final(RESET, Payloads(m)[..i + 1]) && OptSeq(out) == Outputs(RESET, Payloads(m)[..i + 1])
  {
    var ps := Payloads(m);
    PrefixState(RESET, m, i - 1);
    SilentPrefix(RESET, m, i);
    OutputsLast(RESET, ps[..i], ps[i]);
    FinalLast(RESET, ps[..i], ps[i]);
    assert ps[..i + 1] == ps[..i] + [ps[i]];
    t, out := RxStep(PartOf(m, i - 1), ps[i]).0, RxStep(PartOf(m, i - 1), ps[i]).1;
  }

  /** What the receiver makes of the frames in turn. */
  lemma FrameEffect(m: Sendable, i: nat)
    requires |m.data| > 5 && i < |Payloads(m)|
    ensures i == 0 ==> RxStep(RESET, Payloads(m)[0]) == (PartOf(m, 0), None)
    ensures 0 < i < |Payloads(m)| - 1 ==> RxStep(PartOf(m, i - 1), Payloads(m)[i]) == (PartOf(m, i), None)
    ensures 0 < i == |Payloads(m)| - 1 ==> RxStep(PartOf(m, i - 1), Payloads(m)[i]) == (RESET, Some(m))
  {
    if i == 0 {
      FirstFrameOpens(RESET, m);
    } else {
      var t, out := InTurn(m, i);
      if i < |Payloads(m)| - 1 {
        PrefixState(RESET, m, i);
        SilentPrefix(RESET, m, i + 1);
      } else {
        assert Payloads(m)[..i + 1] == Payloads(m);
        RoundTrip(RESET, m);
        assert OptSeq(out)[0] == m;
      }
    }
  }

  /** When the cycle that reads frame `k` begins. */
  function CycleAt(k: nat, gap: nat): int { if k == 0 then gap else CycleAt(k - 1, gap) + gap }

  lemma {:induction false} CycleAtProduct(k: nat, gap: nat)
    ensures CycleAt(k, gap) == gap * k + gap
  {
    if k > 0 {
      CycleAtProduct(k - 1, gap);
      assert gap * (k - 1) + gap == gap * k;
    }
  }

  /** Frame `k` is in the master's event queue and the next cycle may
      begin; the first frame was read at twice the gap. */
  ghost predicate Due(c: Setup, b: System, h: seq<RxInput>, m: Sendable, k: nat, gap: nat)
    requires |m.data| > 5 && k < |Payloads(m)|
  {
    && Fed(c, b, h) && Timely(h, gap, CycleAt(k, gap))
    && Resting(b) && b.net.mq == [ResponseFrame(c, m, k).(direction := RX)]
    && b.m.rx == if k == 0 then FRESH else Rx(PartOf(m, k - 1), 2 * gap)
  }

  /** And the slave has not seen its confirmation yet. */
  ghost predicate Waits(c: Setup, b: System, h: seq<RxInput>, m: Sendable, k: nat, gap: nat)
    requires |m.data| > 5 && k < |Payloads(m)|
  {
    Due(c, b, h, m, k, gap) && Fetched(c, b, m, k) && b.s.rx == FRESH
  }

  /** No cycle up to the last frame's finds the reception too old. */
  lemma InTime(m: LinMessage, k: nat, gap: nat, timeout: int)
    requires 1 <= k <= (|m.data| + 1) / 6 && PaceTime(m, gap) <= timeout
    ensures CycleAt(k, gap) - 2 * gap <= timeout
  {
    CycleAtProduct(k, gap);
    assert gap * k + gap - 2 * gap == gap * (k - 1);
    assert gap * (k - 1) <= gap * ((|m.data| + 1) / 6 - 1);
  }

  /** The next cycle reads frame `k`, the first one as late as it may. */
  lemma ReadsNext(c: Setup, b: System, h: seq<RxInput>, m: Sendable, k: nat, gap: nat)
    returns (b': System, h': seq<RxInput>)
    requires |m.data| > 5 && k < |Payloads(m)| && Due(c, b, h, m, k, gap)
    requires ValidSetup(c) && PaceTime(m, gap) <= c.m.timeout
    ensures Fed(c, b', h') && Timely(h', gap, CycleAt(k, gap) + gap)
    ensures k < |Payloads(m)| - 1 ==>
      && b' == b.(m := b'.m, net := b.net.(mq := []), mpc := MRead(false)) && b'.m.txq == [] && b'.m.awaiting
      && b'.m.rx == Rx(PartOf(m, k), 2 * gap)
    ensures k == |Payloads(m)| - 1 ==> m in b'.m.log.completed
  {
    var next := CycleAt(k, gap);
    NotExpired(c, b, h, m, k, gap);
    FrameShape(m, k);
    FrameEffect(m, k);
    var ev := ResponseFrame(c, m, k).(direction := RX);
    var at := if k == 0 then next + gap else next;
    OpensCycle(c, b, h, next);
    var h1, b1 := h + [RxInput.Cycle(next)], b.(mpc := MRead(false));
    ReadsFrame(c, b1, at, ev);
    FedStep(c, b1, h1, MExec(at));
    TimelyRead(h, gap, next, at, ev);
    b', h' := Apply(c, b1, MExec(at)), h1 + [Event(at, ev)];
  }

  lemma NotExpired(c: Setup, b: System, h: seq<RxInput>, m: Sendable, k: nat, gap: nat)
    requires |m.data| > 5 && k < |Payloads(m)| && Due(c, b, h, m, k, gap) && PaceTime(m, gap) <= c.m.timeout
    ensures CheckTimeout(b.m.rx, c.m.timeout, CycleAt(k, gap)) == b.m.rx
  {
    FrameCount(m);
    if k > 0 { InTime(m, k, gap, c.m.timeout); }
  }

  lemma FirstCycle(gap: nat)
    ensures Timely([RxInput.Cycle(0)], gap, CycleAt(0, gap))
  {}

  lemma FirstWaits(c: Setup, m: Sendable, gap: nat) returns (b: System, h: seq<RxInput>)
    requires |m.data| > 5 && |Payloads(m)| <= c.s.txCap
    ensures Waits(c, b, h, m, 0, gap)
  {
    var b0 := ResponseReady(c, m);
    h := [RxInput.Cycle(0)];
    OpensCycle(c, b0, [], 0);
    assert [] + h == h;
    b := Asks(c, b0.(mpc := MRead(false)), h, m, 0);
    FirstCycle(gap);
  }

  lemma NextWaits(c: Setup, b: System, h: seq<RxInput>, m: Sendable, k: nat, gap: nat)
    returns (b': System, h': seq<RxInput>)
    requires |m.data| > 5 && k + 1 < |Payloads(m)| && Waits(c, b, h, m, k, gap)
    requires ValidSetup(c) && PaceTime(m, gap) <= c.m.timeout
    ensures Waits(c, b', h', m, k + 1, gap)
  {
    var b1 := SlaveGoesOn(c, b, m, k);
    FedReaches(c, b, h, SExec(0), b1);
    var b2;
    b2, h' := ReadsNext(c, b1, h, m, k, gap);
    b' := Asks(c, b2, h', m, k + 1);
  }

  lemma {:induction false} ReachesFrame(c: Setup, m: Sendable, k: nat, gap: nat) returns (b: System, h: seq<RxInput>)
    requires |m.data| > 5 && k < |Payloads(m)| && |Payloads(m)| <= c.s.txCap
    requires ValidSetup(c) && PaceTime(m, gap) <= c.m.timeout
    ensures Waits(c, b, h, m, k, gap)
  {
    if k == 0 {
      b, h := FirstWaits(c, m, gap);
    } else {
      b, h := ReachesFrame(c, m, k - 1, gap);
      b, h := NextWaits(c, b, h, m, k - 1, gap);
    }
  }

  // ------------------------------------------------ the bound is exact

  /** A run with cycles at least `gap` apart in which the master completes `m`. */
  predicate CompletesAtPace(c: Setup, acts: seq<Action>, m: LinMessage, gap: nat) {
    m in Run(c, acts).m.log.completed && Ticking(Inputs(c, false, acts), gap)
  }

  lemma PaceAttained(c: Setup, m: Sendable, gap: nat)
    requires |m.data| > 5 && |Payloads(m)| <= c.s.txCap
    requires ValidSetup(c) && PaceTime(m, gap) <= c.m.timeout
    ensures exists acts :: CompletesAtPace(c, acts, m, gap)
  {
    var k := |Payloads(m)| - 1;
    var b, h := ReachesFrame(c, m, k, gap);
    var b', h' := ReadsNext(c, b, h, m, k, gap);
    var acts :| Run(c, acts) == b' && Inputs(c, false, acts) == h';
    assert CompletesAtPace(c, acts, m, gap);
  }

  /** What the slave accepted had room in its transmit queue. */
  lemma {:induction false} AcceptedFits(c: Setup, acts: seq<Action>)
    ensures forall m <- Run(c, acts).s.log.accepted :: |Payloads(m)| <= c.s.txCap
  {
    if acts != [] {
      AcceptedFits(c, acts[..|acts| - 1]);
      AcceptFits(c, Run(c, acts[..|acts| - 1]), acts[|acts| - 1]);
    }
  }

  lemma AcceptFits(c: Setup, b: System, a: Action)
    requires forall m <- b.s.log.accepted :: |Payloads(m)| <= c.s.txCap
    ensures forall m <- Apply(c, b, a).s.log.accepted :: |Payloads(m)| <= c.s.txCap
  {
    if a.SExec? { SlaveExecHolds(c, b, a.now); }
  }

  /** The pace of responses, exactly: a message of more than one frame can be
      completed with cycles at least `gap` apart if and only if it fits the
      slave's transmit queue and its consecutive frames less the first, one
      every `gap`, fit into the timeout. */
  lemma ResponsePaceIff(c: Setup, m: Sendable, gap: nat)
    requires ValidSetup(c) && |m.data| > 5
    ensures |Payloads(m)| <= c.s.txCap && PaceTime(m, gap) <= c.m.timeout
            <==> exists acts :: CompletesAtPace(c, acts, m, gap)
  {
    if acts :| CompletesAtPace(c, acts, m, gap) {
      ResponseLimit(c, acts, m, gap);
      EndToEnd(c, acts);
      AcceptedFits(c, acts);
      SubsequenceMember<LinMessage>(Run(c, acts).m.log.completed, Run(c, acts).s.log.accepted, m);
    }
    if |Payloads(m)| <= c.s.txCap && PaceTime(m, gap) <= c.m.timeout { PaceAttained(c, m, gap); }
  }

  /** The default queue, poll interval and timeout, in milliseconds: a message
      of more than one frame can be completed while cycles begin at least 10 ms
      apart if and only if it has at most 610 data bytes, although the queue
      takes all 4094. */
  lemma DefaultLimitIff(c: Setup, m: Sendable)
    requires ValidSetup(c) && |m.data| > 5
    requires c.s.txCap == DEFAULT_TX_QUEUE && c.m.timeout == 1000
    ensures |m.data| <= 610 <==> exists acts :: CompletesAtPace(c, acts, m, 10)
  {
    FrameCount(m);
    ResponsePaceIff(c, m, 10);
  }
}
