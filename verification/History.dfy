/** What a receiver delivers, characterised by the history of its inputs
    alone: execute cycles with their clock, and bus events. */
module History {
  import opened LinTypes
  import opened Framing
  import opened Reassembly

  /** Reassembly state with the start time of the multi-frame reception. */
  datatype Rx = Rx(state: RxState, start: int)

  const FRESH := Rx(RESET, 0)

  /** checkMultiFrameTimeout at the start of an execute cycle. */
  function CheckTimeout(rx: Rx, timeout: int, now: int): Rx {
    if rx.state.remaining > 0 && now - rx.start > timeout then FRESH else rx
  }

  predicate Relevant(isSlave: bool, ev: LinEvent) {
    ev.direction.RX? && ev.id == DiagnosticId(!isSlave)
  }

  /** Events that leave the receiver untouched: transmit confirmations, other
      identifiers, payloads under two bytes, PCI types 3 to 15. */
  predicate Ignorable(isSlave: bool, ev: LinEvent) {
    !Relevant(isSlave, ev) || Inert(ev.payload)
  }

  /** The receiving half of receiveFromDriver at time `now`. */
  function RxEvent(isSlave: bool, rx: Rx, ev: LinEvent, now: int): (Rx, Option<LinMessage>) {
    if Ignorable(isSlave, ev) then (rx, None)
    else
      var (s, out) := RxStep(rx.state, ev.payload);
      (Rx(s, if IsFirst(ev.payload) then now else if s.remaining > 0 then rx.start else 0), out)
  }

  /** Which events a receiver looks at: received ones of the other side's
      diagnostic identifier with a PCI byte of type 0, 1 or 2. */
  lemma LookedAtIff(isSlave: bool, ev: LinEvent)
    ensures !Ignorable(isSlave, ev) <==>
      && ev.direction == RX && ev.id == (if isSlave then 0x3C else 0x3D)
      && |ev.payload| >= 2 && ev.payload[1] < 0x30
  {}

  /** Which of them open a message: eight bytes or more, type 1, and more bytes
      announced than a single frame holds. */
  lemma FirstFrameIff(p: seq<byte>)
    ensures IsFirst(p) <==>
      |p| >= 8 && 0x10 <= p[1] < 0x20 && (p[1] as int - 0x10) * 0x100 + p[2] as int > 6
  {}

  datatype RxInput = Cycle(now: int) | Event(now: int, ev: LinEvent)

  function Step(isSlave: bool, timeout: int, rx: Rx, i: RxInput): (Rx, Option<LinMessage>) {
    match i
    case Cycle(now) => (CheckTimeout(rx, timeout, now), None)
    case Event(now, ev) => RxEvent(isSlave, rx, ev, now)
  }

  /** The receiver after history `h`, started fresh. */
  function After(isSlave: bool, timeout: int, h: seq<RxInput>): Rx {
    if h == [] then FRESH
    else Step(isSlave, timeout, After(isSlave, timeout, h[..|h| - 1]), h[|h| - 1]).0
  }

  /** The message the last input of `h` delivers. */
  function Delivered(isSlave: bool, timeout: int, h: seq<RxInput>): Option<LinMessage> {
    if h == [] then None
    else Step(isSlave, timeout, After(isSlave, timeout, h[..|h| - 1]), h[|h| - 1]).1
  }

  // ------------------------------------------------ the reference definition

  predicate IsFrame(isSlave: bool, i: RxInput) { i.Event? && !Ignorable(isSlave, i.ev) }

  /** The payloads of `w` that the receiver looks at. */
  function Looked(isSlave: bool, w: seq<RxInput>): seq<seq<byte>> {
    if w == [] then []
    else
      var init, last := w[..|w| - 1], w[|w| - 1];
      Looked(isSlave, init) + (if IsFrame(isSlave, last) then [last.ev.payload] else [])
  }

  /** `p` is consecutive frame number `k` (from 0) of a message announced as
      `length` bytes. */
  predicate ConsecutiveAt(p: seq<byte>, k: nat, length: nat) {
    IsConsecutive(p) && p[1] % 16 == (k + 1) % 16 && |p| >= 2 + Min(length - 5 - 6 * k, 6)
  }

  predicate InOrder(cfs: seq<seq<byte>>, length: nat) {
    forall k :: 0 <= k < |cfs| ==> ConsecutiveAt(cfs[k], k, length)
  }

  /** `data` is the body of `first` and then `n` bytes, byte `j` of which is
      byte j mod 6 of consecutive frame j / 6. */
  predicate Carries(data: seq<byte>, first: seq<byte>, cfs: seq<seq<byte>>, n: nat)
    requires |first| >= 4
  {
    && |data| == |first| - 4 + n
    && data[..|first| - 4] == first[4..]
    && forall j :: 0 <= j < n ==> j / 6 < |cfs| && 2 + j % 6 < |cfs[j / 6]| && data[|first| - 4 + j] == cfs[j / 6][2 + j % 6]
  }

  /** A first frame and exactly ceil((L-5)/6) consecutive frames, numbered
      1, 2, 3 .. mod 16, that spell `m`. */
  predicate Segmentation(first: seq<byte>, cfs: seq<seq<byte>>, m: LinMessage) {
    && IsFirst(first)
    && var length := Announced(first);
    && |cfs| == length / 6
    && InOrder(cfs, length)
    && m.nad == first[0] && m.sid == first[3]
    && Carries(m.data, first, cfs, length - 5)
  }

  /** `w` starts with a first frame and no later cycle of it finds the
      reception older than `timeout`. */
  predicate Opens(isSlave: bool, timeout: int, w: seq<RxInput>) {
    && w != [] && IsFrame(isSlave, w[0]) && IsFirst(w[0].ev.payload)
    && forall c :: 0 < c < |w| && w[c].Cycle? ==> w[c].now - w[0].now <= timeout
  }

  /** `w` is a whole message: opened in time, ended by its last frame. */
  predicate Completes(isSlave: bool, timeout: int, w: seq<RxInput>, m: LinMessage) {
    && Opens(isSlave, timeout, w)
    && IsFrame(isSlave, w[|w| - 1])
    && Segmentation(w[0].ev.payload, Looked(isSlave, w[1..]), m)
  }

  /** `i` is a single frame whose PCI length cuts `m` out of it. */
  predicate SingleDelivers(isSlave: bool, i: RxInput, m: LinMessage) {
    && IsFrame(isSlave, i) && PciType(i.ev.payload) == 0
    && var p, length := i.ev.payload, (i.ev.payload[1] as int) % 16;
    && 1 <= length && 2 + length <= |p|
    && m == LinMessage(p[0], p[2], p[3..2 + length])
  }

  /** `w` is a message still incomplete, received as `rx`. */
  predicate Partial(isSlave: bool, timeout: int, w: seq<RxInput>, rx: Rx) {
    && Opens(isSlave, timeout, w)
    && var first, cfs := w[0].ev.payload, Looked(isSlave, w[1..]);
    && Incomplete(first, cfs, rx.state) && rx.start == w[0].now
  }

  predicate Incomplete(first: seq<byte>, cfs: seq<seq<byte>>, s: RxState)
    requires IsFirst(first)
  {
    var length := Announced(first);
    && 6 * |cfs| < length - 5
    && InOrder(cfs, length)
    && s.nad == first[0] && s.sid == first[3]
    && s.counter == |cfs| % 16
    && s.remaining == length - 5 - 6 * |cfs|
    && Carries(s.data, first, cfs, 6 * |cfs|)
  }

  // ------------------------------------------------ one step

  lemma CarriesMore(data: seq<byte>, first: seq<byte>, cfs: seq<seq<byte>>, p: seq<byte>, n: nat)
    requires |first| >= 4 && n <= 6 && |p| >= 2 + n
    requires Carries(data, first, cfs, 6 * |cfs|)
    ensures Carries(data + p[2..2 + n], first, cfs + [p], 6 * |cfs| + n)
  {
    var d, all := data + p[2..2 + n], cfs + [p];
    assert d[..|first| - 4] == data[..|first| - 4];
    forall j | 0 <= j < 6 * |cfs| + n
      ensures j / 6 < |all| && 2 + j % 6 < |all[j / 6]| && d[|first| - 4 + j] == all[j / 6][2 + j % 6]
    {
      if j < 6 * |cfs| {
        assert j / 6 < |cfs| && all[j / 6] == cfs[j / 6];
      } else {
        assert j / 6 == |cfs| && j % 6 == j - 6 * |cfs|;
      }
    }
  }

  /** An incomplete reception takes the next consecutive frame exactly when it
      is the expected one, and any other frame ends it. */
  lemma ConsecutiveEffect(first: seq<byte>, cfs: seq<seq<byte>>, s: RxState, p: seq<byte>)
    requires IsFirst(first) && Incomplete(first, cfs, s) && IsConsecutive(p)
    ensures var (s', out) := RxStep(s, p);
      if !ConsecutiveAt(p, |cfs|, Announced(first)) then s' == RESET && out == None
      else if s.remaining > 6 then Incomplete(first, cfs + [p], s') && out == None
      else s' == RESET && out.Some? && Segmentation(first, cfs + [p], out.value)
  {
    NextCounter(|cfs|);
    var n := Min(s.remaining, 6);
    if ConsecutiveAt(p, |cfs|, Announced(first)) {
      CarriesMore(s.data, first, cfs, p, n);
      if s.remaining <= 6 {
        assert 6 * |cfs| + n == Announced(first) - 5;
        assert |cfs + [p]| == Announced(first) / 6;
      }
    }
  }

  lemma FirstEffect(s: RxState, p: seq<byte>)
    requires |p| >= 2 && PciType(p) == 1
    ensures var (s', out) := RxStep(s, p);
      out == None && if IsFirst(p) then Incomplete(p, [], s') else s' == RESET
  {}

  /** A message has one reading only. */
  lemma SegmentationUnique(first: seq<byte>, cfs: seq<seq<byte>>, m: LinMessage, m': LinMessage)
    requires Segmentation(first, cfs, m) && Segmentation(first, cfs, m')
    ensures m == m'
  {
    var k := |first| - 4;
    forall i | 0 <= i < |m.data| ensures m.data[i] == m'.data[i] {
      if i < k {
        assert m.data[..k][i] == m'.data[..k][i];
      } else {
        var j := i - k;
        assert m.data[k + j] == cfs[j / 6][2 + j % 6] == m'.data[k + j];
      }
    }
    assert m.data == m'.data;
  }

  // ------------------------------------------------ one more input

  /** `i` continues the window `w`: a cycle in time, an ignorable event or the
      expected consecutive frame. */
  predicate Continues(isSlave: bool, timeout: int, w: seq<RxInput>, i: RxInput)
    requires Opens(isSlave, timeout, w)
  {
    && (i.Cycle? ==> i.now - w[0].now <= timeout)
    && (IsFrame(isSlave, i) ==>
          ConsecutiveAt(i.ev.payload, |Looked(isSlave, w[1..])|, Announced(w[0].ev.payload)))
  }

  lemma LookedAppend(isSlave: bool, w: seq<RxInput>, i: RxInput)
    requires w != []
    ensures (w + [i])[1..] == w[1..] + [i]
    ensures Looked(isSlave, (w + [i])[1..])
            == Looked(isSlave, w[1..]) + (if IsFrame(isSlave, i) then [i.ev.payload] else [])
  {
    assert (w[1..] + [i])[..|w| - 1] == w[1..];
  }

  lemma ContinuesEffect(isSlave: bool, timeout: int, w: seq<RxInput>, rx: Rx, i: RxInput)
    requires Partial(isSlave, timeout, w, rx)
    requires Continues(isSlave, timeout, w, i)
    ensures var (rx', out) := Step(isSlave, timeout, rx, i);
      if IsFrame(isSlave, i) && rx.state.remaining <= 6 then
        rx' == FRESH && out.Some? && Completes(isSlave, timeout, w + [i], out.value)
      else
        out == None && Partial(isSlave, timeout, w + [i], rx')
  {
    LookedAppend(isSlave, w, i);
    var cfs := Looked(isSlave, w[1..]);
    if IsFrame(isSlave, i) {
      ConsecutiveEffect(w[0].ev.payload, cfs, rx.state, i.ev.payload);
    } else {
      assert cfs + [] == cfs;
    }
  }

  lemma BreaksEffect(isSlave: bool, timeout: int, w: seq<RxInput>, rx: Rx, i: RxInput)
    requires Partial(isSlave, timeout, w, rx)
    requires !Continues(isSlave, timeout, w, i)
    ensures var (rx', out) := Step(isSlave, timeout, rx, i);
      && (rx' == FRESH || (IsFrame(isSlave, i) && IsFirst(i.ev.payload)))
      && (out.Some? ==> SingleDelivers(isSlave, i, out.value))
  {
    if IsFrame(isSlave, i) && IsConsecutive(i.ev.payload) {
      ConsecutiveEffect(w[0].ev.payload, Looked(isSlave, w[1..]), rx.state, i.ev.payload);
    }
  }

  /** A first frame opens a window, in any state. */
  lemma OpensEffect(isSlave: bool, timeout: int, rx: Rx, i: RxInput)
    requires IsFrame(isSlave, i) && IsFirst(i.ev.payload)
    ensures var (rx', out) := Step(isSlave, timeout, rx, i);
      out == None && Partial(isSlave, timeout, [i], rx')
  {
    FirstEffect(rx.state, i.ev.payload);
    assert [i][1..] == [];
  }

  lemma IdleEffect(isSlave: bool, timeout: int, i: RxInput)
    requires !(IsFrame(isSlave, i) && IsFirst(i.ev.payload))
    ensures var (rx', out) := Step(isSlave, timeout, FRESH, i);
      && rx' == FRESH
      && (out.Some? ==> SingleDelivers(isSlave, i, out.value))
  {}

  // ------------------------------------------------ histories

  lemma AfterAppend(isSlave: bool, timeout: int, h: seq<RxInput>, i: RxInput)
    ensures After(isSlave, timeout, h + [i]) == Step(isSlave, timeout, After(isSlave, timeout, h), i).0
    ensures Delivered(isSlave, timeout, h + [i]) == Step(isSlave, timeout, After(isSlave, timeout, h), i).1
  {
    assert (h + [i])[..|h|] == h;
  }

  /** Reassembly invariant: in every reachable state the receiver is either
      fresh or has exactly a partial window of the history in its buffer. */
  lemma {:induction false} ReachableState(isSlave: bool, timeout: int, h: seq<RxInput>) returns (i: nat)
    ensures var rx := After(isSlave, timeout, h);
      rx == FRESH || (i < |h| && Partial(isSlave, timeout, h[i..], rx))
  {
    i := 0;
    if h != [] {
      var g, last := h[..|h| - 1], h[|h| - 1];
      assert h == g + [last];
      AfterAppend(isSlave, timeout, g, last);
      var rx := After(isSlave, timeout, g);
      i := ReachableState(isSlave, timeout, g);
      if IsFrame(isSlave, last) && IsFirst(last.ev.payload) {
        i := |g|;
        OpensEffect(isSlave, timeout, rx, last);
        assert h[i..] == [last];
      } else if rx == FRESH {
        IdleEffect(isSlave, timeout, last);
      } else {
        assert h[i..] == g[i..] + [last];
        if Continues(isSlave, timeout, g[i..], last) {
          ContinuesEffect(isSlave, timeout, g[i..], rx, last);
        } else {
          BreaksEffect(isSlave, timeout, g[i..], rx, last);
        }
      }
    }
  }

  /** The receiver holds part of the message that `first` announced. */
  predicate HoldsPart(rx: Rx, first: RxInput)
    requires first.Event? && IsFirst(first.ev.payload)
  {
    var length, p := Announced(first.ev.payload), first.ev.payload;
    && 7 <= length <= 4095
    && |rx.state.data| >= 4 && (|rx.state.data| - 4) % 6 == 0
    && rx.state.counter == (|rx.state.data| - 4) / 6 % 16
    && |rx.state.data| + rx.state.remaining == length - 1
    && rx.state.nad == p[0] && rx.state.sid == p[3]
    && rx.start == first.now
  }

  lemma PartialHolds(isSlave: bool, timeout: int, w: seq<RxInput>, rx: Rx)
    requires Partial(isSlave, timeout, w, rx) && |w[0].ev.payload| <= 8
    ensures HoldsPart(rx, w[0])
  {
    assert |rx.state.data| == 4 + 6 * |Looked(isSlave, w[1..])|;
  }

  /** The arithmetic of the invariant, for 8-byte first frames. */
  lemma ReassemblyInvariant(isSlave: bool, timeout: int, h: seq<RxInput>)
    requires forall c :: 0 <= c < |h| && h[c].Event? ==> |h[c].ev.payload| <= 8
    ensures var rx := After(isSlave, timeout, h);
      if rx.state.remaining == 0 then rx == FRESH
      else exists i :: 0 <= i < |h| && IsFrame(isSlave, h[i]) && IsFirst(h[i].ev.payload) && HoldsPart(rx, h[i])
  {
    var i := ReachableState(isSlave, timeout, h);
    var rx := After(isSlave, timeout, h);
    if rx != FRESH {
      assert h[i..][0] == h[i];
      PartialHolds(isSlave, timeout, h[i..], rx);
    }
  }

  /** A prefix of a complete window is a partial one, and is received as such
      whatever came before it. */
  lemma {:induction false} WindowPartial(isSlave: bool, timeout: int, g: seq<RxInput>, w: seq<RxInput>)
    requires Opens(isSlave, timeout, w)
    requires var length := Announced(w[0].ev.payload);
      var cfs := Looked(isSlave, w[1..]);
      InOrder(cfs, length) && 6 * |cfs| < length - 5
    ensures Partial(isSlave, timeout, w, After(isSlave, timeout, g + w))
    ensures Delivered(isSlave, timeout, g + w) == None
  {
    var init, last := w[..|w| - 1], w[|w| - 1];
    assert g + w == (g + init) + [last] && w == init + [last];
    AfterAppend(isSlave, timeout, g + init, last);
    if |w| == 1 {
      OpensEffect(isSlave, timeout, After(isSlave, timeout, g + init), last);
      assert w == [last];
    } else {
      LookedAppend(isSlave, init, last);
      var cfs, cfs' := Looked(isSlave, init[1..]), Looked(isSlave, w[1..]);
      assert forall k :: 0 <= k < |cfs| ==> cfs[k] == cfs'[k];
      assert Opens(isSlave, timeout, init);
      WindowPartial(isSlave, timeout, g, init);
      if IsFrame(isSlave, last) {
        assert cfs'[|cfs|] == last.ev.payload;
      }
      assert Continues(isSlave, timeout, init, last);
      ContinuesEffect(isSlave, timeout, init, After(isSlave, timeout, g + init), last);
    }
  }

  /** A whole window is delivered at its last input, whatever came before. */
  lemma CompleteWindowDelivers(isSlave: bool, timeout: int, g: seq<RxInput>, w: seq<RxInput>, m: LinMessage)
    requires Completes(isSlave, timeout, w, m)
    ensures Delivered(isSlave, timeout, g + w) == Some(m)
    ensures After(isSlave, timeout, g + w) == FRESH
  {
    var init, last := w[..|w| - 1], w[|w| - 1];
    var first, all := w[0].ev.payload, Looked(isSlave, w[1..]);
    assert |all| >= 1;
    assert w[1..] != [];
    assert g + w == (g + init) + [last] && w == init + [last];
    AfterAppend(isSlave, timeout, g + init, last);
    LookedAppend(isSlave, init, last);
    var cfs := Looked(isSlave, init[1..]);
    assert all == cfs + [last.ev.payload];
    assert forall k :: 0 <= k < |cfs| ==> cfs[k] == all[k];
    assert Opens(isSlave, timeout, init);
    WindowPartial(isSlave, timeout, g, init);
    assert ConsecutiveAt(all[|cfs|], |cfs|, Announced(first));
    var rx := After(isSlave, timeout, g + init);
    ContinuesEffect(isSlave, timeout, init, rx, last);
    var out := Step(isSlave, timeout, rx, last).1;
    SegmentationUnique(first, all, m, out.value);
  }

  /** Receiver soundness and completeness, over every history: the last input
      delivers `m` if and only if it is a single frame spelling `m`, or some
      window of the history ending in it is a first frame and exactly the
      consecutive frames of `m` in order with nothing but ignorable events and
      timely cycles in between. */
  lemma DeliveredIff(isSlave: bool, timeout: int, h: seq<RxInput>, m: LinMessage)
    requires h != []
    ensures Delivered(isSlave, timeout, h) == Some(m) <==>
            SingleDelivers(isSlave, h[|h| - 1], m)
            || exists i :: 0 <= i < |h| && Completes(isSlave, timeout, h[i..], m)
  {
    var g, last := h[..|h| - 1], h[|h| - 1];
    assert h == g + [last];
    AfterAppend(isSlave, timeout, g, last);
    forall i | 0 <= i < |h| && Completes(isSlave, timeout, h[i..], m)
      ensures Delivered(isSlave, timeout, h) == Some(m)
    {
      assert h == h[..i] + h[i..];
      CompleteWindowDelivers(isSlave, timeout, h[..i], h[i..], m);
    }
    if Delivered(isSlave, timeout, h) == Some(m) && !SingleDelivers(isSlave, last, m) {
      var i := ReachableState(isSlave, timeout, g);
      var rx := After(isSlave, timeout, g);
      if rx == FRESH {
        if IsFrame(isSlave, last) && IsFirst(last.ev.payload) {
          OpensEffect(isSlave, timeout, rx, last);
        } else {
          IdleEffect(isSlave, timeout, last);
        }
      } else {
        assert h[i..] == g[i..] + [last];
        if Continues(isSlave, timeout, g[i..], last) {
          ContinuesEffect(isSlave, timeout, g[i..], rx, last);
        } else {
          BreaksEffect(isSlave, timeout, g[i..], rx, last);
        }
      }
    }
  }

  // ------------------------------------------------ consequences

  /** Timed reassembly: a delivered multi-frame message was completed in an
      execute cycle that passed its check within the timeout of the first
      frame. Consecutive frames do not extend the deadline. */
  lemma TimedReassembly(isSlave: bool, timeout: int, h: seq<RxInput>, m: LinMessage)
    requires h != [] && timeout >= 0
    requires Delivered(isSlave, timeout, h) == Some(m)
    requires IsFrame(isSlave, h[|h| - 1]) && PciType(h[|h| - 1].ev.payload) == 2
    requires forall a, b :: 0 <= a < b < |h| ==> h[a].now <= h[b].now
    ensures exists i :: 0 <= i < |h| && Completes(isSlave, timeout, h[i..], m)
              && forall c :: 0 <= c < |h| && h[c].Cycle? ==> h[c].now <= h[i].now + timeout
  {
    DeliveredIff(isSlave, timeout, h, m);
    var i :| 0 <= i < |h| && Completes(isSlave, timeout, h[i..], m);
    assert h[i..][0] == h[i];
    forall c | 0 <= c < |h| && h[c].Cycle? ensures h[c].now <= h[i].now + timeout {
      if c > i {
        assert h[i..][c - i] == h[c];
      } else {
        assert c != i;
      }
    }
  }

  /** The length of a delivered message is the announced one exactly when the
      first frame had 8 bytes: its branch copies everything from byte 4 on. */
  lemma DeliveredLength(isSlave: bool, timeout: int, w: seq<RxInput>, m: LinMessage)
    requires Completes(isSlave, timeout, w, m)
    ensures |m.data| == Announced(w[0].ev.payload) - 1 <==> |w[0].ev.payload| == 8
  {}
}
