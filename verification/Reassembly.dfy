/** The reassembly machine of receiveFromDriver as a function, and what it
    delivers read off the history of its inputs. */
module Reassembly {
  import opened LinTypes
  import opened Framing

  /** The multi-frame fields of the transport except the start time. */
  datatype RxState = RxState(data: seq<byte>, sid: byte, nad: byte, counter: byte, remaining: nat)

  const RESET := RxState([], 0, 0, 0, 0)

  function PciType(p: seq<byte>): int
    requires |p| >= 2
  {
    p[1] / 16
  }

  /** The 12-bit length a first frame announces. */
  function Announced(p: seq<byte>): nat
    requires |p| >= 3
  {
    (p[1] as int) % 16 * 256 + p[2] as int
  }

  predicate IsFirst(p: seq<byte>) { |p| >= 8 && PciType(p) == 1 && Announced(p) > 6 }

  /** One relevant payload: the next state and the delivered message. */
  function RxStep(s: RxState, p: seq<byte>): (RxState, Option<LinMessage>) {
    if |p| < 2 then (s, None)
    else if PciType(p) == 0 then
      var dataLength := (p[1] as int) % 16 - 1;
      if |p| < 3 + dataLength || dataLength < 0 then (RESET, None)
      else (RESET, Some(LinMessage(p[0], p[2], p[3..3 + dataLength])))
    else if PciType(p) == 1 then
      if |p| < 8 then (RESET, None)
      else if Announced(p) <= 6 || Announced(p) > MAX_DATA + 1 then (RESET, None)
      else (RxState(p[4..], p[3], p[0], 0, Announced(p) - 5), None)
    else if PciType(p) == 2 then
      var length := Min(s.remaining, 6);
      if s.remaining == 0 || p[1] % 16 != (s.counter + 1) % 16 || |p| < 2 + length then (RESET, None)
      else
        var data := s.data + p[2..2 + length];
        if s.remaining == length then (RESET, Some(LinMessage(s.nad, s.sid, data)))
        else (RxState(data, s.sid, s.nad, (s.counter + 1) % 16, s.remaining - length), None)
    else (s, None)
  }

  // ---------------------------------------------------------------- payload streams

  /** State after, and messages delivered by, a stream of payloads. */
  function Final(s: RxState, ps: seq<seq<byte>>): RxState
    decreases ps
  {
    if ps == [] then s else Final(RxStep(s, ps[0]).0, ps[1..])
  }

  function Outputs(s: RxState, ps: seq<seq<byte>>): seq<LinMessage>
    decreases ps
  {
    if ps == [] then [] else OptSeq(RxStep(s, ps[0]).1) + Outputs(RxStep(s, ps[0]).0, ps[1..])
  }

  lemma {:induction false} StreamConcat(s: RxState, a: seq<seq<byte>>, b: seq<seq<byte>>)
    ensures Final(s, a + b) == Final(Final(s, a), b)
    ensures Outputs(s, a + b) == Outputs(s, a) + Outputs(Final(s, a), b)
    decreases a
  {
    if a == [] {
      assert a + b == b;
    } else {
      assert (a + b)[1..] == a[1..] + b && (a + b)[0] == a[0];
      var s' := RxStep(s, a[0]).0;
      StreamConcat(s', a[1..], b);
      ConcatAssoc(OptSeq(RxStep(s, a[0]).1), Outputs(s', a[1..]), Outputs(Final(s', a[1..]), b));
    }
  }

  lemma FinalLast(s: RxState, ps: seq<seq<byte>>, p: seq<byte>)
    ensures Final(s, ps + [p]) == RxStep(Final(s, ps), p).0
  {
    var last := [p];
    StreamConcat(s, ps, last);
    assert last[1..] == [];
  }

  lemma OutputsLast(s: RxState, ps: seq<seq<byte>>, p: seq<byte>)
    ensures Outputs(s, ps + [p]) == Outputs(s, ps) + OptSeq(RxStep(Final(s, ps), p).1)
  {
    var last := [p];
    var (t, out) := RxStep(Final(s, ps), p);
    StreamConcat(s, ps, last);
    assert last[1..] == [] && Outputs(t, []) == [];
    assert Outputs(Final(s, ps), last) == OptSeq(out) + Outputs(t, last[1..]);
  }

  /** The receiver takes the expected consecutive frame. */
  lemma ConsecutiveStep(nad: byte, sid: byte, got: seq<byte>, chunk: seq<byte>, remaining: nat, k: nat)
    requires k >= 1 && remaining > 0 && |chunk| == Min(remaining, 6)
    ensures var s := RxState(got, sid, nad, (k - 1) % 16, remaining);
      RxStep(s, Pad8([nad, 0x20 + k % 16] + chunk)) ==
      if remaining <= 6 then (RESET, Some(LinMessage(nad, sid, got + chunk)))
      else (RxState(got + chunk, sid, nad, k % 16, remaining - 6), None)
  {
    NextCounter(k - 1);
    var head := [nad, 0x20 + k % 16] + chunk;
    var p := Pad8(head);
    assert p[0] == head[0] && p[1] == head[1] == 0x20 + k % 16;
    assert PciType(p) == 2 && p[1] % 16 == k % 16;
    assert p[2..2 + |chunk|] == chunk;
  }

  /** The consecutive frames of `rest`, numbered from `k`, complete a message
      that so far has `got`. */
  lemma {:induction false} ConsecutiveRoundTrip(nad: byte, sid: byte, got: seq<byte>, rest: seq<byte>, k: nat)
    requires k >= 1 && rest != []
    ensures var s := RxState(got, sid, nad, (k - 1) % 16, |rest|);
      && Final(s, ConsecutiveFrames(nad, rest, k)) == RESET
      && Outputs(s, ConsecutiveFrames(nad, rest, k)) == [LinMessage(nad, sid, got + rest)]
    decreases |rest|
  {
    var n := Min(|rest|, 6);
    var ps := ConsecutiveFrames(nad, rest, k);
    ConsecutiveStep(nad, sid, got, rest[..n], |rest|, k);
    assert ps[1..] == ConsecutiveFrames(nad, rest[n..], k + 1);
    if n == |rest| {
      assert rest[..n] == rest && ps[1..] == [];
    } else {
      ConsecutiveRoundTrip(nad, sid, got + rest[..n], rest[n..], k + 1);
      assert rest[..n] + rest[n..] == rest;
      ConcatAssoc(got, rest[..n], rest[n..]);
    }
  }

  lemma SingleFrameDelivers(s: RxState, m: LinMessage)
    requires |m.data| <= 5
    ensures RxStep(s, SingleFrame(m)) == (RESET, Some(m))
  {
    var head := [m.nad, |m.data| + 1, m.sid] + m.data;
    var p := Pad8(head);
    assert forall i :: 0 <= i < |head| ==> p[i] == head[i];
    assert p[3..3 + |m.data|] == m.data;
  }

  lemma FirstFrameOpens(s: RxState, m: Sendable)
    requires |m.data| >= 6
    ensures RxStep(s, FirstFrame(m)) == (RxState(m.data[..4], m.sid, m.nad, 0, |m.data| - 4), None)
  {
    assert FirstFrame(m)[4..] == m.data[..4];
  }

  /** Round trip and resynchronisation: whatever the receiver was doing, the
      frames of `m` deliver exactly `m` and leave it reset. */
  lemma RoundTrip(s: RxState, m: Sendable)
    ensures Outputs(s, Payloads(m)) == [m]
    ensures Final(s, Payloads(m)) == RESET
  {
    var ps := Payloads(m);
    if |m.data| <= 5 {
      SingleFrameDelivers(s, m);
      assert ps[1..] == [];
    } else {
      FirstFrameOpens(s, m);
      ConsecutiveRoundTrip(m.nad, m.sid, m.data[..4], m.data[4..], 1);
      assert m.data[..4] + m.data[4..] == m.data;
      assert ps[1..] == ConsecutiveFrames(m.nad, m.data[4..], 1);
    }
  }

  function AllPayloads(ms: seq<Sendable>): seq<seq<byte>>
  {
    if ms == [] then [] else AllPayloads(ms[..|ms| - 1]) + Payloads(ms[|ms| - 1])
  }

  lemma AllPayloadsAppend(ms: seq<Sendable>, m: Sendable)
    ensures AllPayloads(ms + [m]) == AllPayloads(ms) + Payloads(m)
  {
    assert (ms + [m])[..|ms|] == ms;
  }

  /** Payloads no branch of the receiver looks at. */
  predicate Inert(p: seq<byte>) { |p| < 2 || PciType(p) > 2 }

  function Effective(ps: seq<seq<byte>>): seq<seq<byte>> {
    if ps == [] then [] else (if Inert(ps[0]) then [] else [ps[0]]) + Effective(ps[1..])
  }

  lemma {:induction false} IgnoredPayloads(s: RxState, ps: seq<seq<byte>>)
    ensures Final(s, ps) == Final(s, Effective(ps)) && Outputs(s, ps) == Outputs(s, Effective(ps))
    decreases ps
  {
    if ps != [] {
      var s' := RxStep(s, ps[0]).0;
      IgnoredPayloads(s', ps[1..]);
      if Inert(ps[0]) {
        assert Effective(ps) == Effective(ps[1..]);
      } else {
        assert Effective(ps)[1..] == Effective(ps[1..]);
      }
    }
  }

  /** A list of messages round-trips as a list, with idle payloads anywhere. */
  lemma {:induction false} ListRoundTrip(s: RxState, ms: seq<Sendable>, ps: seq<seq<byte>>)
    requires Effective(ps) == AllPayloads(ms)
    ensures Outputs(s, ps) == ms
    ensures ms != [] ==> Final(s, ps) == RESET
  {
    IgnoredPayloads(s, ps);
    AllRoundTrip(s, ms);
    if ms != [] { AllReset(s, ms); }
  }

  /** Appending one more message to a stream appends it to what is delivered. */
  lemma RoundTripAfter(s: RxState, ps: seq<seq<byte>>, m: Sendable)
    ensures Outputs(s, ps + Payloads(m)) == Outputs(s, ps) + [m]
    ensures Final(s, ps + Payloads(m)) == RESET
  {
    StreamConcat(s, ps, Payloads(m));
    RoundTrip(Final(s, ps), m);
  }

  lemma {:induction false} AllRoundTrip(s: RxState, ms: seq<Sendable>)
    ensures Outputs(s, AllPayloads(ms)) == ms
  {
    if ms != [] {
      var init, m := ms[..|ms| - 1], ms[|ms| - 1];
      AllRoundTrip(s, init);
      RoundTripAfter(s, AllPayloads(init), m);
      LastOf(ms);
    }
  }

  lemma LastOf<T>(a: seq<T>)
    requires a != []
    ensures a == a[..|a| - 1] + [a[|a| - 1]]
  {}

  lemma AllReset(s: RxState, ms: seq<Sendable>)
    requires ms != []
    ensures Final(s, AllPayloads(ms)) == RESET
  {
    RoundTripAfter(s, AllPayloads(ms[..|ms| - 1]), ms[|ms| - 1]);
  }

  // ---------------------------------------------------------------- loss

  /** `p` is a consecutive frame, whatever its number and length. */
  predicate IsConsecutive(p: seq<byte>) { |p| >= 2 && PciType(p) == 2 }

  lemma {:induction false} OrphansDeliverNothing(ps: seq<seq<byte>>)
    requires forall p :: p in ps ==> IsConsecutive(p)
    ensures Outputs(RESET, ps) == [] && Final(RESET, ps) == RESET
  {
    if ps != [] {
      assert IsConsecutive(ps[0]);
      OrphansDeliverNothing(ps[1..]);
    }
  }

  /** Fewer than remaining/6 consecutive frames cannot complete a message. */
  lemma {:induction false} TooFewDeliverNothing(s: RxState, ps: seq<seq<byte>>)
    requires forall p :: p in ps ==> IsConsecutive(p)
    requires 6 * |ps| < s.remaining
    ensures Outputs(s, ps) == []
    decreases |ps|
  {
    if ps != [] {
      assert IsConsecutive(ps[0]);
      var (s', out) := RxStep(s, ps[0]);
      assert out == None;
      if s' == RESET {
        OrphansDeliverNothing(ps[1..]);
      } else {
        TooFewDeliverNothing(s', ps[1..]);
      }
    }
  }

  function Kept(ps: seq<seq<byte>>, keep: seq<bool>): (r: seq<seq<byte>>)
    requires |keep| == |ps|
    ensures |r| <= |ps| && (false in keep ==> |r| < |ps|)
    ensures forall p :: p in r ==> p in ps
  {
    if ps == [] then [] else (if keep[0] then [ps[0]] else []) + Kept(ps[1..], keep[1..])
  }

  /** Header of every consecutive frame, as a fact about the whole list. */
  lemma ConsecutiveHeaders(nad: byte, rest: seq<byte>, k: nat)
    ensures forall p :: p in ConsecutiveFrames(nad, rest, k) ==> IsConsecutive(p)
  {
    var ps := ConsecutiveFrames(nad, rest, k);
    forall p | p in ps ensures IsConsecutive(p) {
      var i :| 0 <= i < |ps| && ps[i] == p;
      ConsecutiveFrameContents(nad, rest, k, i);
    }
  }

  /** A first frame followed by too few consecutive frames of its message. */
  lemma IncompleteDeliversNothing(s: RxState, m: LinMessage, cfs: seq<seq<byte>>)
    requires 6 <= |m.data| <= MAX_DATA
    requires forall p :: p in cfs ==> IsConsecutive(p)
    requires |cfs| < |Payloads(m)| - 1
    ensures Outputs(s, [FirstFrame(m)] + cfs) == []
  {
    FrameCount(m);
    var s' := RxStep(s, FirstFrame(m)).0;
    assert s'.remaining == |m.data| - 4 && RxStep(s, FirstFrame(m)).1 == None;
    TooFewDeliverNothing(s', cfs);
    assert ([FirstFrame(m)] + cfs)[1..] == cfs;
  }

  /** Completion is reported on the last frame only: every proper prefix of the
      frames of one message delivers nothing. */
  lemma SilentPrefix(s: RxState, m: Sendable, n: nat)
    requires n < |Payloads(m)|
    ensures Outputs(s, Payloads(m)[..n]) == []
  {
    if n > 0 {
      var cfs := ConsecutiveFrames(m.nad, m.data[4..], 1);
      ConsecutiveHeaders(m.nad, m.data[4..], 1);
      assert Payloads(m)[..n] == [FirstFrame(m)] + cfs[..n - 1];
      IncompleteDeliversNothing(s, m, cfs[..n - 1]);
    }
  }

  /** What is kept of a multi-frame message: perhaps its first frame, and some
      of its consecutive frames. */
  lemma KeptOfMessage(m: Sendable, keep: seq<bool>) returns (cfs: seq<seq<byte>>)
    requires |keep| == |Payloads(m)| && |m.data| > 5
    ensures cfs == Kept(Payloads(m)[1..], keep[1..])
    ensures Kept(Payloads(m), keep) == if keep[0] then [FirstFrame(m)] + cfs else cfs
    ensures forall p :: p in cfs ==> IsConsecutive(p)
  {
    cfs := Kept(Payloads(m)[1..], keep[1..]);
    ConsecutiveHeaders(m.nad, m.data[4..], 1);
    assert Payloads(m)[1..] == ConsecutiveFrames(m.nad, m.data[4..], 1);
  }

  lemma LostMessage(m: Sendable, keep: seq<bool>)
    requires |keep| == |Payloads(m)| && false in keep
    ensures Outputs(RESET, Kept(Payloads(m), keep)) == []
  {
    if |m.data| <= 5 {
      assert keep[0] == false && Kept(Payloads(m), keep) == [];
    } else {
      var cfs := KeptOfMessage(m, keep);
      if keep[0] {
        assert keep == [true] + keep[1..];
        IncompleteDeliversNothing(RESET, m, cfs);
      } else {
        OrphansDeliverNothing(cfs);
      }
    }
  }

  /** Loss safety: an idle receiver that misses at least one frame of a message
      delivers nothing for it, and still delivers the next intact message. */
  lemma LossSafety(m: Sendable, keep: seq<bool>, next: Sendable)
    requires |keep| == |Payloads(m)| && false in keep
    ensures Outputs(RESET, Kept(Payloads(m), keep)) == []
    ensures Outputs(RESET, Kept(Payloads(m), keep) + Payloads(next)) == [next]
  {
    LostMessage(m, keep);
    RoundTripAfter(RESET, Kept(Payloads(m), keep), next);
  }

  // ---------------------------------------------------------------- early reset

  /** Forgetting a partial message (a timeout) only ever removes messages from
      what a stream delivers. */
  lemma {:induction false} ResetOnlyLoses(s: RxState, ps: seq<seq<byte>>)
    ensures Subsequence(Outputs(RESET, ps), Outputs(s, ps))
    decreases ps
  {
    if ps == [] {
    } else if |ps[0]| < 2 || PciType(ps[0]) > 2 {
      ResetOnlyLoses(s, ps[1..]);
      assert Outputs(s, ps) == Outputs(s, ps[1..]) && Outputs(RESET, ps) == Outputs(RESET, ps[1..]);
    } else if PciType(ps[0]) == 2 {
      var (s', out) := RxStep(s, ps[0]);
      ResetOnlyLoses(s', ps[1..]);
      SubsequenceConcat([], OptSeq(out), Outputs(RESET, ps[1..]), Outputs(s', ps[1..]));
      assert [] + Outputs(RESET, ps[1..]) == Outputs(RESET, ps[1..]);
      assert Outputs(RESET, ps) == [] + Outputs(RESET, ps[1..]);
    } else {
      SubsequenceRefl(Outputs(s, ps));
    }
  }
}
