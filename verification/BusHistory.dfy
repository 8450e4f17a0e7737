/** What a run of the system feeds its receivers: the histories that the
    receiver results speak about are those of system runs, and the pace of the
    master's cycles bounds the responses it can receive in time. */
module BusHistory {
  import opened LinTypes
  import opened Framing
  import opened History
  import opened Bus
  import opened BusInvariants
  import opened BusRuns

  /** The input a step gives the master's receiver. */
  function MasterInput(b: System, a: Action): seq<RxInput> {
    if !a.MExec? then []
    else if b.mpc.MIdle? && !b.stopHeld then [Cycle(a.now)]
    else if b.mpc.MRead? && b.net.mq != [] then [Event(a.now, b.net.mq[0])]
    else []
  }

  function SlaveInput(b: System, a: Action): seq<RxInput> {
    if !a.SExec? then []
    else if b.spc.SIdle? then [Cycle(a.now)]
    else if b.spc.SRead? && b.net.sq != [] then [Event(a.now, b.net.sq[0])]
    else []
  }

  /** The history of one node's receiver in a run. */
  function Inputs(c: Setup, slave: bool, acts: seq<Action>): seq<RxInput> {
    if acts == [] then []
    else
      var init, a := acts[..|acts| - 1], acts[|acts| - 1];
      Inputs(c, slave, init) + if slave then SlaveInput(Run(c, init), a) else MasterInput(Run(c, init), a)
  }

  /** All messages a history delivers. */
  function AllDelivered(isSlave: bool, timeout: int, h: seq<RxInput>): seq<LinMessage> {
    if h == [] then [] else AllDelivered(isSlave, timeout, h[..|h| - 1]) + OptSeq(Delivered(isSlave, timeout, h))
  }

  /** The receiver of `n` is what the history `h` makes of a fresh one. */
  predicate Explains(isSlave: bool, timeout: int, h: seq<RxInput>, n: Node) {
    n.rx == After(isSlave, timeout, h) && n.log.completed == AllDelivered(isSlave, timeout, h)
  }

  /** A node took the inputs `i`, at most one. */
  predicate Takes(isSlave: bool, timeout: int, n: Node, i: seq<RxInput>, n': Node) {
    if i == [] then n'.rx == n.rx && n'.log.completed == n.log.completed
    else
      var (rx, out) := Step(isSlave, timeout, n.rx, i[0]);
      |i| == 1 && n'.rx == rx && n'.log.completed == n.log.completed + OptSeq(out)
  }

  lemma ExplainsMore(isSlave: bool, timeout: int, h: seq<RxInput>, n: Node, i: seq<RxInput>, n': Node)
    requires Explains(isSlave, timeout, h, n) && Takes(isSlave, timeout, n, i, n')
    ensures Explains(isSlave, timeout, h + i, n')
  {
    if i == [] {
      assert h + i == h;
    } else {
      assert i == [i[0]] && (h + i)[..|h|] == h;
      AfterAppend(isSlave, timeout, h, i[0]);
    }
  }

  lemma MasterTakes(c: Setup, b: System, a: Action)
    ensures Takes(false, c.m.timeout, b.m, MasterInput(b, a), Apply(c, b, a).m)
  {}

  lemma SlaveTakes(c: Setup, b: System, a: Action)
    ensures Takes(true, c.s.timeout, b.s, SlaveInput(b, a), Apply(c, b, a).s)
  {}

  /** In every run both receivers, and the messages they completed, are those
      of the histories the run fed them. */
  lemma {:induction false} RunExplained(c: Setup, acts: seq<Action>)
    ensures Explains(false, c.m.timeout, Inputs(c, false, acts), Run(c, acts).m)
    ensures Explains(true, c.s.timeout, Inputs(c, true, acts), Run(c, acts).s)
  {
    if acts != [] {
      var init, a := acts[..|acts| - 1], acts[|acts| - 1];
      var b := Run(c, init);
      RunExplained(c, init);
      MasterTakes(c, b, a);
      SlaveTakes(c, b, a);
      ExplainsMore(false, c.m.timeout, Inputs(c, false, init), b.m, MasterInput(b, a), Apply(c, b, a).m);
      ExplainsMore(true, c.s.timeout, Inputs(c, true, init), b.s, SlaveInput(b, a), Apply(c, b, a).s);
    }
  }

  lemma {:induction false} DeliveredAt(isSlave: bool, timeout: int, h: seq<RxInput>, k: nat) returns (n: nat)
    requires k < |AllDelivered(isSlave, timeout, h)|
    ensures 0 < n <= |h| && Delivered(isSlave, timeout, h[..n]) == Some(AllDelivered(isSlave, timeout, h)[k])
  {
    var init := h[..|h| - 1];
    if k < |AllDelivered(isSlave, timeout, init)| {
      n := DeliveredAt(isSlave, timeout, init, k);
      assert init[..n] == h[..n];
    } else {
      n := |h|;
      assert h[..n] == h;
    }
  }

  /** Message `m` came out of input `n - 1` of `h`: as a single frame, or as
      the window from `i` on. */
  predicate CameFrom(isSlave: bool, timeout: int, h: seq<RxInput>, m: LinMessage, n: nat)
    requires 0 < n <= |h|
  {
    || SingleDelivers(isSlave, h[n - 1], m)
    || exists i :: 0 <= i < n && Completes(isSlave, timeout, h[i..n], m)
  }

  /** Receiver soundness for system runs: every message either side completed
      is a single frame it read, or a first frame and exactly its consecutive
      frames, read in time. */
  lemma RunSoundness(c: Setup, slave: bool, acts: seq<Action>, k: nat) returns (n: nat)
    requires k < |(if slave then Run(c, acts).s else Run(c, acts).m).log.completed|
    ensures var h := Inputs(c, slave, acts);
      var node := if slave then Run(c, acts).s else Run(c, acts).m;
      0 < n <= |h| && CameFrom(slave, (if slave then c.s else c.m).timeout, h, node.log.completed[k], n)
  {
    var h, timeout := Inputs(c, slave, acts), (if slave then c.s else c.m).timeout;
    var m := (if slave then Run(c, acts).s else Run(c, acts).m).log.completed[k];
    RunExplained(c, acts);
    n := DeliveredAt(slave, timeout, h, k);
    DeliveredIff(slave, timeout, h[..n], m);
    if !SingleDelivers(slave, h[n - 1], m) {
      var i :| 0 <= i < |h[..n]| && Completes(slave, timeout, h[..n][i..], m);
      assert h[..n][i..] == h[i..n];
    }
  }

  // ------------------------------------------------ the pace of the master

  /** Cycles in a history. */
  function Cycles(h: seq<RxInput>): nat {
    if h == [] then 0 else Cycles(h[..|h| - 1]) + if h[|h| - 1].Cycle? then 1 else 0
  }

  /** A frame was read since the last cycle began. */
  predicate ReadSince(h: seq<RxInput>) {
    h != [] && !h[|h| - 1].Cycle? && (IsFrame(false, h[|h| - 1]) || ReadSince(h[..|h| - 1]))
  }

  /** At most one frame is read in each cycle. */
  predicate Paced(h: seq<RxInput>) {
    h != [] ==>
      var init, last := h[..|h| - 1], h[|h| - 1];
      Paced(init) && (IsFrame(false, last) ==> !ReadSince(init))
  }

  /** Having read a frame, the master reads no more before its next cycle. */
  predicate NoMore(b: System, h: seq<RxInput>) {
    ReadSince(h) ==> !b.mpc.MLen? && !b.mpc.MFlag? && (b.mpc.MRead? ==> b.net.mq == [])
  }

  lemma PaceExec(c: Setup, b: System, now: int, h: seq<RxInput>)
    requires Bounded(c, b) && NoMore(b, h)
    ensures var i := MasterInput(b, MExec(now)); var b' := Apply(c, b, MExec(now));
      if i == [] then NoMore(b', h)
      else if IsFrame(false, i[0]) then
        !ReadSince(h) && !b'.mpc.MLen? && !b'.mpc.MFlag? && (b'.mpc.MRead? ==> b'.net.mq == [])
      else !i[0].Cycle? ==> NoMore(b', h)
  {}

  lemma PaceStep(c: Setup, b: System, a: Action, h: seq<RxInput>)
    requires Bounded(c, b) && Paced(h) && NoMore(b, h)
    ensures var h' := h + MasterInput(b, a); Paced(h') && NoMore(Apply(c, b, a), h')
  {
    var i := MasterInput(b, a);
    if a.MExec? { PaceExec(c, b, a.now, h); }
    if i == [] {
      assert h + i == h;
    } else {
      assert i == [i[0]] && (h + i)[..|h|] == h;
    }
  }

  lemma {:induction false} RunPaced(c: Setup, acts: seq<Action>)
    requires ValidSetup(c)
    ensures Paced(Inputs(c, false, acts)) && NoMore(Run(c, acts), Inputs(c, false, acts))
  {
    if acts != [] {
      var init := acts[..|acts| - 1];
      RunPaced(c, init);
      InvRun(c, init);
      PaceStep(c, Run(c, init), acts[|acts| - 1], Inputs(c, false, init));
    }
  }

  /** After a frame there are as many cycles as frames, and one more once the
      next cycle has begun. */
  lemma {:induction false} PacedCount(h: seq<RxInput>, i: nat, n: nat)
    requires Paced(h) && i < n <= |h| && IsFrame(false, h[i])
    ensures var w := h[i + 1..n];
      |Looked(false, w)| + (if ReadSince(h[..n]) then 0 else 1) <= Cycles(w)
  {
    var w := h[i + 1..n];
    PacedPrefix(h, n);
    if n == i + 1 {
      assert h[..n][|h[..n]| - 1] == h[i];
    } else {
      PacedCount(h, i, n - 1);
      assert w[..|w| - 1] == h[i + 1..n - 1] && h[..n][..n - 1] == h[..n - 1];
    }
  }

  lemma {:induction false} PacedPrefix(h: seq<RxInput>, n: nat)
    requires Paced(h) && n <= |h|
    ensures Paced(h[..n])
    decreases |h|
  {
    if n == |h| {
      assert h[..n] == h;
    } else {
      var init := h[..|h| - 1];
      PacedPrefix(init, n);
      assert init[..n] == h[..n];
    }
  }

  /** Between the first frame of `m` and its completion the master began at
      least one cycle for each consecutive frame, none later than the timeout
      after the first frame. */
  predicate InPace(timeout: int, h: seq<RxInput>, m: Sendable, i: nat, n: nat)
    requires i < n <= |h|
  {
    && |Payloads(m)| - 1 <= Cycles(h[i + 1..n])
    && forall j :: i < j < n && h[j].Cycle? ==> h[j].now - h[i].now <= timeout
  }

  lemma WindowPace(timeout: int, h: seq<RxInput>, m: LinMessage, i: nat, n: nat)
    requires Paced(h) && i < n <= |h| && Completes(false, timeout, h[i..n], m)
    requires |h[i].ev.payload| == 8
    ensures |m.data| <= MAX_DATA && InPace(timeout, h, m, i, n)
  {
    var w := h[i..n];
    assert w[1..] == h[i + 1..n] && w[0] == h[i];
    DeliveredLength(false, timeout, w, m);
    PacedCount(h, i, n);
    FrameCount(m);
    forall j | i < j < n && h[j].Cycle? ensures h[j].now - h[i].now <= timeout {
      assert w[j - i] == h[j];
    }
  }

  predicate EightBytes(h: seq<RxInput>) {
    forall i :: 0 <= i < |h| && h[i].Event? ==> |h[i].ev.payload| == 8
  }

  lemma MasterEightBytes(c: Setup, b: System, a: Action)
    requires Shape(c, b)
    ensures EightBytes(MasterInput(b, a))
  {
    assert b.net.mq != [] ==> OnBus(false, b.net.mq[0]);
  }

  /** Every event a run feeds the master has a payload of 8 bytes. */
  lemma {:induction false} RunEightBytes(c: Setup, acts: seq<Action>)
    requires ValidSetup(c)
    ensures EightBytes(Inputs(c, false, acts))
  {
    if acts != [] {
      var init, a := acts[..|acts| - 1], acts[|acts| - 1];
      RunEightBytes(c, init);
      InvRun(c, init);
      MasterEightBytes(c, Run(c, init), a);
      assert Inputs(c, false, acts) == Inputs(c, false, init) + MasterInput(Run(c, init), a);
    }
  }

  /** The pace of responses, in every run: a message of more than one frame
      that the master completed took at least one cycle of the master for each
      of its consecutive frames, all of them begun within the timeout of its
      first frame. */
  lemma ResponsePace(c: Setup, acts: seq<Action>, k: nat) returns (i: nat, n: nat)
    requires ValidSetup(c) && k < |Run(c, acts).m.log.completed| && |Run(c, acts).m.log.completed[k].data| > 5
    ensures var h, m := Inputs(c, false, acts), Run(c, acts).m.log.completed[k];
      && i < n <= |h| && |m.data| <= MAX_DATA
      && Completes(false, c.m.timeout, h[i..n], m) && InPace(c.m.timeout, h, m, i, n)
  {
    var h, m := Inputs(c, false, acts), Run(c, acts).m.log.completed[k];
    RunEightBytes(c, acts);
    RunPaced(c, acts);
    n := RunSoundness(c, false, acts, k);
    assert !SingleDelivers(false, h[n - 1], m);
    i :| 0 <= i < n && Completes(false, c.m.timeout, h[i..n], m);
    assert h[i..n][0] == h[i];
    WindowPace(c.m.timeout, h, m, i, n);
  }

  /** Cycles begin at least `gap` apart on a clock that never goes back. */
  predicate Ticking(h: seq<RxInput>, gap: nat) {
    && (forall i, j :: 0 <= i < j < |h| ==> h[i].now <= h[j].now)
    && forall i, j :: 0 <= i < j < |h| && h[i].Cycle? && h[j].Cycle? ==> h[i].now + gap <= h[j].now
  }

  lemma TickingSlice(h: seq<RxInput>, gap: nat, i: nat, n: nat)
    requires Ticking(h, gap) && i <= n <= |h|
    ensures Ticking(h[i..n], gap)
  {
    assert forall j :: 0 <= j < n - i ==> h[i..n][j] == h[i + j];
  }

  lemma NextTick(gap: nat, start: int, count: nat, at: int, next: int)
    requires start + gap * (count - 1) <= at && at + gap <= next
    ensures start + gap * count <= next
  {
    assert gap * (count - 1) + gap == gap * count;
  }

  lemma NoTick(gap: nat, count: int)
    requires count == 0
    ensures gap * count == 0
  {}

  lemma {:induction false} LastCycle(w: seq<RxInput>, gap: nat, start: int) returns (q: nat)
    requires Ticking(w, gap) && Cycles(w) > 0 && forall j :: 0 <= j < |w| ==> start <= w[j].now
    ensures q < |w| && w[q].Cycle? && start + gap * (Cycles(w) - 1) <= w[q].now
  {
    var n := |w| - 1;
    TickingSlice(w, gap, 0, n);
    assert w[0..n] == w[..n];
    if !w[n].Cycle? {
      q := LastCycle(w[..n], gap, start);
    } else {
      q := n;
      if Cycles(w[..n]) > 0 {
        var p := LastCycle(w[..n], gap, start);
        NextTick(gap, start, Cycles(w[..n]), w[p].now, w[n].now);
      } else {
        NoTick(gap, Cycles(w) - 1);
      }
    }
  }

  lemma Scaled(gap: nat, x: int, y: int, start: int, at: int, timeout: int)
    requires x <= y && start + gap * y <= at && at - start <= timeout
    ensures gap * x <= timeout
  {
    assert gap * x <= gap * y;
  }

  lemma PaceLimit(timeout: int, h: seq<RxInput>, m: Sendable, i: nat, n: nat, gap: nat)
    requires |m.data| > 5 && i < n <= |h| && InPace(timeout, h, m, i, n) && Ticking(h, gap)
    ensures PaceTime(m, gap) <= timeout
  {
    var w := h[i + 1..n];
    FrameCount(m);
    TickingSlice(h, gap, i + 1, n);
    assert forall j :: 0 <= j < |w| ==> w[j] == h[i + 1 + j];
    var q := LastCycle(w, gap, h[i].now);
    Scaled(gap, (|m.data| + 1) / 6 - 1, Cycles(w) - 1, h[i].now, w[q].now, timeout);
  }

  /** The time the consecutive frames of `m` take at one cycle every `gap`,
      less the first. */
  function PaceTime(m: LinMessage, gap: nat): int { gap * ((|m.data| + 1) / 6 - 1) }

  /** With cycles at least `gap` apart, only messages whose frames fit into the
      timeout at that pace are ever completed. */
  lemma ResponseLimit(c: Setup, acts: seq<Action>, m: LinMessage, gap: nat)
    requires ValidSetup(c) && m in Run(c, acts).m.log.completed && |m.data| > 5
    requires Ticking(Inputs(c, false, acts), gap)
    ensures PaceTime(m, gap) <= c.m.timeout
  {
    var k: nat :| k < |Run(c, acts).m.log.completed| && Run(c, acts).m.log.completed[k] == m;
    var i, n := ResponsePace(c, acts, k);
    PaceLimit(c.m.timeout, Inputs(c, false, acts), m, i, n, gap);
  }

  /** The default poll interval and timeout, in milliseconds: while cycles begin
      at least 10 ms apart, no response of more than 610 data bytes completes. */
  lemma DefaultLimit(c: Setup, acts: seq<Action>, m: LinMessage)
    requires ValidSetup(c) && m in Run(c, acts).m.log.completed
    requires c.m.timeout == 1000 && Ticking(Inputs(c, false, acts), 10)
    ensures |m.data| <= 610
  {
    if |m.data| > 5 { ResponseLimit(c, acts, m, 10); }
  }
}
