/** What a receiver makes of a stream of messages some of whose frames are
    lost on the way. */
module Loss {
  import opened LinTypes
  import opened Framing
  import opened Reassembly

  /** One mask for each message, with one flag for each of its frames. */
  predicate Masks(ms: seq<Sendable>, keeps: seq<seq<bool>>) {
    |keeps| == |ms| && forall i :: 0 <= i < |ms| ==> |keeps[i]| == |Payloads(ms[i])|
  }

  /** The frames that arrive. */
  function Arriving(ms: seq<Sendable>, keeps: seq<seq<bool>>): seq<seq<byte>>
    requires Masks(ms, keeps)
  {
    if ms == [] then []
    else
      var n := |ms| - 1;
      Arriving(ms[..n], keeps[..n]) + Kept(Payloads(ms[n]), keeps[n])
  }

  /** The messages none of whose frames was lost. */
  function Intact(ms: seq<Sendable>, keeps: seq<seq<bool>>): seq<Sendable>
    requires |keeps| == |ms|
  {
    if ms == [] then []
    else
      var n := |ms| - 1;
      Intact(ms[..n], keeps[..n]) + (if false in keeps[n] then [] else [ms[n]])
  }

  /** A message that has a first frame did not lose it. */
  predicate FirstKept(m: Sendable, keep: seq<bool>)
    requires |keep| > 0
  {
    |m.data| <= 5 || keep[0]
  }

  predicate FirstsKept(ms: seq<Sendable>, keeps: seq<seq<bool>>)
    requires Masks(ms, keeps)
  {
    forall i :: 0 <= i < |ms| ==> FirstKept(ms[i], keeps[i])
  }

  /** The numbers of the frames kept, the first one being number `k`. */
  function Numbers(keep: seq<bool>, k: nat): seq<nat> {
    if keep == [] then [] else (if keep[0] then [k] else []) + Numbers(keep[1..], k + 1)
  }

  /** Consecutive frames numbered `nums` complete what `s` has begun: there are
      enough of them and the first ones carry the counters it waits for. */
  predicate Fills(s: RxState, nums: seq<nat>) {
    0 < s.remaining <= 6 * |nums| && CountOn(nums, s.counter as int + 1, (s.remaining + 5) / 6)
  }

  /** The first `n` of the numbers are from, from + 1, .. mod 16. */
  predicate CountOn(nums: seq<nat>, from: nat, n: nat)
    requires n <= |nums|
  {
    forall t :: 0 <= t < n ==> nums[t] % 16 == (from + t) % 16
  }

  /** Message `i` lost its first frame and the rest of it completes an earlier
      message that lost its end. */
  predicate FillsEarlier(s: RxState, ms: seq<Sendable>, keeps: seq<seq<bool>>, i: nat)
    requires Masks(ms, keeps) && i < |ms|
  {
    && !FirstKept(ms[i], keeps[i])
    && Fills(Final(s, Arriving(ms[..i], keeps[..i])), Numbers(keeps[i][1..], 1))
  }

  // ------------------------------------------------ one message

  predicate Numbered(ps: seq<seq<byte>>, nums: seq<nat>) {
    && |ps| == |nums|
    && forall t :: 0 <= t < |ps| ==> |ps[t]| == 8 && IsConsecutive(ps[t]) && ps[t][1] % 16 == nums[t] % 16
  }

  lemma CountShift(from: nat, t: nat)
    ensures (from % 16 + 1 + t) % 16 == (from + (t + 1)) % 16
  {}

  lemma CountOnStep(nums: seq<nat>, from: nat, next: nat, n: nat)
    requires 1 <= n <= |nums| && next == from % 16 + 1
    ensures CountOn(nums, from, n) <==> nums[0] % 16 == from % 16 && CountOn(nums[1..], next, n - 1)
  {
    if CountOn(nums, from, n) {
      assert nums[0] % 16 == (from + 0) % 16;
      forall t | 0 <= t < n - 1 ensures nums[1..][t] % 16 == (next + t) % 16 {
        assert nums[1..][t] == nums[t + 1];
        CountShift(from, t);
      }
    }
    if nums[0] % 16 == from % 16 && CountOn(nums[1..], next, n - 1) {
      forall t | 0 <= t < n ensures nums[t] % 16 == (from + t) % 16 {
        if t > 0 {
          assert nums[1..][t - 1] == nums[t];
          CountShift(from, t - 1);
        }
      }
    }
  }

  lemma FillsStep(s: RxState, s': RxState, nums: seq<nat>)
    requires nums != [] && s.remaining > 6
    requires s'.remaining == s.remaining - 6 && s'.counter as int == (s.counter as int + 1) % 16
    ensures Fills(s, nums) <==> nums[0] % 16 == (s.counter as int + 1) % 16 && Fills(s', nums[1..])
  {
    if s.remaining <= 6 * |nums| {
      CountOnStep(nums, s.counter as int + 1, s'.counter as int + 1, (s.remaining + 5) / 6);
    }
  }

  /** Consecutive frames of whatever message deliver one message if they fill
      what the receiver has begun, and nothing otherwise. */
  lemma {:induction false} NumberedEffect(s: RxState, ps: seq<seq<byte>>, nums: seq<nat>)
    requires Numbered(ps, nums)
    ensures var out := Outputs(s, ps);
      if Fills(s, nums) then
        |out| == 1 && out[0].nad == s.nad && out[0].sid == s.sid
        && s.data <= out[0].data && |out[0].data| == |s.data| + s.remaining
      else out == []
    decreases |ps|
  {
    if ps != [] {
      var (s', out) := RxStep(s, ps[0]);
      assert Numbered(ps[1..], nums[1..]);
      var first := s.counter as int + 1;
      if s.remaining == 0 {
        OrphansDeliverNothing(ps[1..]);
      } else if s.remaining <= 6 || nums[0] % 16 != first % 16 {
        if s.remaining <= 6 * |nums| { CountOnStep(nums, first, first % 16 + 1, (s.remaining + 5) / 6); }
        OrphansDeliverNothing(ps[1..]);
      } else {
        FillsStep(s, s', nums);
        NumberedEffect(s', ps[1..], nums[1..]);
      }
    }
  }

  lemma {:induction false} KeptNumbered(ps: seq<seq<byte>>, keep: seq<bool>, k: nat)
    requires |keep| == |ps|
    requires forall i :: 0 <= i < |ps| ==> |ps[i]| == 8 && IsConsecutive(ps[i]) && ps[i][1] % 16 == (k + i) % 16
    ensures Numbered(Kept(ps, keep), Numbers(keep, k))
  {
    if ps != [] {
      forall i | 0 <= i < |ps[1..]|
        ensures |ps[1..][i]| == 8 && IsConsecutive(ps[1..][i]) && ps[1..][i][1] % 16 == (k + 1 + i) % 16
      {
        assert ps[1..][i] == ps[i + 1];
      }
      KeptNumbered(ps[1..], keep[1..], k + 1);
      assert ps[0][1] % 16 == (k + 0) % 16;
    }
  }

  lemma {:induction false} KeptAll(ps: seq<seq<byte>>, keep: seq<bool>)
    requires |keep| == |ps| && false !in keep
    ensures Kept(ps, keep) == ps
  {
    if ps != [] {
      assert keep[0] in keep && forall b :: b in keep[1..] ==> b in keep;
      KeptAll(ps[1..], keep[1..]);
    }
  }

  /** The consecutive frames of a message whose first frame was lost. */
  lemma TailNumbered(m: Sendable, keep: seq<bool>)
    requires |keep| == |Payloads(m)| && |m.data| > 5 && !keep[0]
    ensures Numbered(Kept(Payloads(m), keep), Numbers(keep[1..], 1))
  {
    var cfs := ConsecutiveFrames(m.nad, m.data[4..], 1);
    assert Payloads(m)[1..] == cfs;
    forall i | 0 <= i < |cfs| ensures |cfs[i]| == 8 && IsConsecutive(cfs[i]) && cfs[i][1] % 16 == (1 + i) % 16 {
      ConsecutiveFrameContents(m.nad, m.data[4..], 1, i);
    }
    KeptNumbered(cfs, keep[1..], 1);
  }

  /** What the frames kept of one message deliver, in any receiver state. */
  lemma OneMessage(s: RxState, m: Sendable, keep: seq<bool>)
    requires |keep| == |Payloads(m)|
    ensures var out := Outputs(s, Kept(Payloads(m), keep));
      if false !in keep then out == [m]
      else if FirstKept(m, keep) || !Fills(s, Numbers(keep[1..], 1)) then out == []
      else |out| == 1 && out[0].nad == s.nad && out[0].sid == s.sid && s.data <= out[0].data
  {
    if false !in keep {
      KeptAll(Payloads(m), keep);
      RoundTrip(s, m);
    } else if |m.data| <= 5 {
      assert keep == [false];
    } else if keep[0] {
      var cfs := KeptOfMessage(m, keep);
      assert keep == [true] + keep[1..];
      IncompleteDeliversNothing(s, m, cfs);
    } else {
      TailNumbered(m, keep);
      NumberedEffect(s, Kept(Payloads(m), keep), Numbers(keep[1..], 1));
    }
  }

  // ------------------------------------------------ lists of messages

  function CountIf(p: nat -> bool, n: nat): nat {
    if n == 0 then 0 else CountIf(p, n - 1) + if p(n - 1) then 1 else 0
  }

  lemma {:induction false} CountNone(p: nat -> bool, n: nat)
    ensures CountIf(p, n) == 0 <==> forall i: nat :: i < n ==> !p(i)
  {
    if n > 0 { CountNone(p, n - 1); }
  }

  function Fillers(s: RxState, ms: seq<Sendable>, keeps: seq<seq<bool>>): nat -> bool
    requires Masks(ms, keeps)
  {
    (i: nat) => i < |ms| && FillsEarlier(s, ms, keeps, i)
  }

  lemma ArrivingSplit(s: RxState, ms: seq<Sendable>, keeps: seq<seq<bool>>, n: nat)
    requires Masks(ms, keeps) && n < |ms|
    ensures var before := Arriving(ms[..n], keeps[..n]);
      Outputs(s, Arriving(ms[..n + 1], keeps[..n + 1]))
      == Outputs(s, before) + Outputs(Final(s, before), Kept(Payloads(ms[n]), keeps[n]))
    ensures Intact(ms[..n + 1], keeps[..n + 1])
            == Intact(ms[..n], keeps[..n]) + (if false in keeps[n] then [] else [ms[n]])
  {
    assert ms[..n + 1][..n] == ms[..n] && keeps[..n + 1][..n] == keeps[..n];
    StreamConcat(s, Arriving(ms[..n], keeps[..n]), Kept(Payloads(ms[n]), keeps[n]));
  }

  /** All the intact messages, in order, and `foreign` others. */
  predicate Delivers(ms: seq<LinMessage>, intact: seq<Sendable>, foreign: nat) {
    && Subsequence(intact, ms) && |ms| == |intact| + foreign
    && (foreign == 0 ==> ms == intact)
  }

  lemma DeliversMore(a: seq<LinMessage>, i: seq<Sendable>, m: nat, b: seq<LinMessage>, j: seq<Sendable>, n: nat)
    requires Delivers(a, i, m) && Delivers(b, j, n)
    ensures Delivers(a + b, i + j, m + n)
  {
    SubsequenceConcat(i, a, j, b);
  }

  /** What the first `n` messages deliver. */
  predicate PrefixDelivers(s: RxState, ms: seq<Sendable>, keeps: seq<seq<bool>>, n: nat)
    requires Masks(ms, keeps) && n <= |ms|
  {
    Delivers(Outputs(s, Arriving(ms[..n], keeps[..n])), Intact(ms[..n], keeps[..n]), CountIf(Fillers(s, ms, keeps), n))
  }

  lemma PrefixNone(s: RxState, ms: seq<Sendable>, keeps: seq<seq<bool>>)
    requires Masks(ms, keeps)
    ensures PrefixDelivers(s, ms, keeps, 0)
  {
    assert Arriving([], []) == [] && Intact([], []) == [] && Outputs(s, []) == [];
  }

  lemma PrefixStep(s: RxState, ms: seq<Sendable>, keeps: seq<seq<bool>>, n: nat)
    requires Masks(ms, keeps) && n < |ms| && PrefixDelivers(s, ms, keeps, n)
    ensures PrefixDelivers(s, ms, keeps, n + 1)
  {
    ArrivingSplit(s, ms, keeps, n);
    LastDelivers(s, ms, keeps, n);
    var before := Arriving(ms[..n], keeps[..n]);
    DeliversMore(
      Outputs(s, before), Intact(ms[..n], keeps[..n]), CountIf(Fillers(s, ms, keeps), n),
      Outputs(Final(s, before), Kept(Payloads(ms[n]), keeps[n])),
      if false in keeps[n] then [] else [ms[n]], if FillsEarlier(s, ms, keeps, n) then 1 else 0);
  }

  lemma {:induction false} LossyPrefix(s: RxState, ms: seq<Sendable>, keeps: seq<seq<bool>>, n: nat)
    requires Masks(ms, keeps) && n <= |ms|
    ensures PrefixDelivers(s, ms, keeps, n)
  {
    if n == 0 {
      PrefixNone(s, ms, keeps);
    } else {
      LossyPrefix(s, ms, keeps, n - 1);
      PrefixStep(s, ms, keeps, n - 1);
    }
  }

  lemma LastDelivers(s: RxState, ms: seq<Sendable>, keeps: seq<seq<bool>>, n: nat)
    requires Masks(ms, keeps) && n < |ms|
    ensures Delivers(Outputs(Final(s, Arriving(ms[..n], keeps[..n])), Kept(Payloads(ms[n]), keeps[n])),
                     if false in keeps[n] then [] else [ms[n]], if FillsEarlier(s, ms, keeps, n) then 1 else 0)
  {
    OneMessage(Final(s, Arriving(ms[..n], keeps[..n])), ms[n], keeps[n]);
    SubsequenceRefl([ms[n]]);
    assert false !in keeps[n] ==> keeps[n][0];
  }

  /** Whatever is lost, every intact message is delivered, in order; besides
      them come as many messages as FillsEarlier holds for, and nothing else. */
  lemma LossyStream(s: RxState, ms: seq<Sendable>, keeps: seq<seq<bool>>)
    requires Masks(ms, keeps)
    ensures Delivers(Outputs(s, Arriving(ms, keeps)), Intact(ms, keeps), CountIf(Fillers(s, ms, keeps), |ms|))
  {
    LossyPrefix(s, ms, keeps, |ms|);
    assert ms[..|ms|] == ms && keeps[..|keeps|] == keeps;
  }

  /** Loss, exactly: from any receiver state, any messages with any frames
      lost deliver exactly the intact ones if and only if no message without
      its first frame goes on where an earlier one broke off: the counters of
      its remaining frames never are the ones the receiver waits for, up to
      the end of the message begun. */
  lemma LossExact(s: RxState, ms: seq<Sendable>, keeps: seq<seq<bool>>)
    requires Masks(ms, keeps)
    ensures Outputs(s, Arriving(ms, keeps)) == Intact(ms, keeps)
            <==> forall i :: 0 <= i < |ms| ==> !FillsEarlier(s, ms, keeps, i)
  {
    LossyStream(s, ms, keeps);
    CountNone(Fillers(s, ms, keeps), |ms|);
    assert forall i: nat :: i < |ms| ==> Fillers(s, ms, keeps)(i) == FillsEarlier(s, ms, keeps, i);
  }

  /** The loss of frames other than first frames costs their own messages and
      no other, whatever state the receiver starts in. */
  lemma FirstFramesSuffice(s: RxState, ms: seq<Sendable>, keeps: seq<seq<bool>>)
    requires Masks(ms, keeps)
    requires FirstsKept(ms, keeps)
    ensures Outputs(s, Arriving(ms, keeps)) == Intact(ms, keeps)
  {
    LossExact(s, ms, keeps);
  }

  // ------------------------------------------------ the end of one message, the start of the next

  /** Data as the receiver sees it behind a last, padded frame. */
  function Padded(rest: seq<byte>): seq<byte> { rest + [0xFF, 0xFF, 0xFF, 0xFF, 0xFF] }

  lemma FrameBody(nad: byte, rest: seq<byte>, k: nat, n: nat)
    requires rest != [] && n <= 6
    ensures var p := ConsecutiveFrames(nad, rest, k)[0];
      |p| == 8 && IsConsecutive(p) && p[1] % 16 == k % 16 && p[2..2 + n] == Padded(rest)[..n]
  {
    ConsecutiveFrameContents(nad, rest, k, 0);
    var p := ConsecutiveFrames(nad, rest, k)[0];
    assert forall j :: 0 <= j < n ==> p[2..2 + n][j] == p[2 + j] && p[2 + j] == Padded(rest)[j];
  }

  lemma PaddedSplit(rest: seq<byte>, r: nat)
    requires |rest| > 6 && 6 < r <= |rest| + 5
    ensures Padded(rest)[..6] + Padded(rest[6..])[..r - 6] == Padded(rest)[..r]
  {
    assert Padded(rest)[6..] == Padded(rest[6..]);
  }

  /** One consecutive frame, offered to a receiver in the middle of a message. */
  lemma TailStep(s: RxState, nad: byte, rest: seq<byte>, k: nat)
    requires s.remaining > 0 && rest != []
    ensures RxStep(s, ConsecutiveFrames(nad, rest, k)[0]) ==
      if (s.counter as int + 1) % 16 != k % 16 then (RESET, None)
      else if s.remaining <= 6 then (RESET, Some(LinMessage(s.nad, s.sid, s.data + Padded(rest)[..s.remaining])))
      else (RxState(s.data + Padded(rest)[..6], s.sid, s.nad, k % 16, s.remaining - 6), None)
  {
    FrameBody(nad, rest, k, Min(s.remaining, 6));
  }

  /** What the consecutive frames of `rest`, numbered from `k`, deliver to a
      receiver in the middle of a message. */
  function TailDelivers(s: RxState, rest: seq<byte>, k: nat): seq<LinMessage> {
    if (s.counter as int + 1) % 16 == k % 16 && (s.remaining + 5) / 6 <= (|rest| + 5) / 6
    then [LinMessage(s.nad, s.sid, s.data + Padded(rest)[..s.remaining])]
    else []
  }

  lemma TailDeliversNext(s: RxState, s': RxState, rest: seq<byte>, k: nat)
    requires s.remaining > 6 && |rest| > 6 && (s.counter as int + 1) % 16 == k % 16
    requires s' == RxState(s.data + Padded(rest)[..6], s.sid, s.nad, k % 16, s.remaining - 6)
    ensures TailDelivers(s', rest[6..], k + 1) == TailDelivers(s, rest, k)
  {
    NextCounter(k);
    if s.remaining <= |rest| + 5 {
      PaddedSplit(rest, s.remaining);
      ConcatAssoc(s.data, Padded(rest)[..6], Padded(rest[6..])[..s.remaining - 6]);
    }
  }

  lemma {:induction false} TailEffect(s: RxState, nad: byte, rest: seq<byte>, k: nat)
    requires s.remaining > 0 && rest != []
    ensures Outputs(s, ConsecutiveFrames(nad, rest, k)) == TailDelivers(s, rest, k)
    decreases |rest|
  {
    var ps, n := ConsecutiveFrames(nad, rest, k), Min(|rest|, 6);
    TailStep(s, nad, rest, k);
    ConsecutiveHeaders(nad, rest, k);
    assert ps[1..] == ConsecutiveFrames(nad, rest[n..], k + 1);
    var s' := RxStep(s, ps[0]).0;
    if (s.counter as int + 1) % 16 != k % 16 || s.remaining <= 6 {
      OrphansDeliverNothing(ps[1..]);
    } else if |rest| <= 6 {
      assert ps[1..] == [];
    } else {
      TailEffect(s', nad, rest[6..], k + 1);
      TailDeliversNext(s, s', rest, k);
    }
  }

  lemma {:induction false} FramesAfter(nad: byte, rest: seq<byte>, k: nat, j: nat)
    requires j < (|rest| + 5) / 6
    ensures ConsecutiveFrames(nad, rest, k)[j..] == ConsecutiveFrames(nad, rest[6 * j..], k + j)
    decreases j
  {
    if j > 0 {
      var ps := ConsecutiveFrames(nad, rest, k);
      FramesAfter(nad, rest[6..], k + 1, j - 1);
      assert ps[j..] == ps[1..][j - 1..];
      assert ps[1..] == ConsecutiveFrames(nad, rest[6..], k + 1);
      assert rest[6..][6 * (j - 1)..] == rest[6 * j..];
    }
  }

  /** How much of a message its first `i` consecutive frames leave. */
  lemma FramesLeft(m: Sendable, i: nat)
    requires |m.data| > 5 && i < |Payloads(m)| - 1
    ensures var left := |m.data| - 4 - 6 * i; left > 0 && |Payloads(m)| - 1 - i == (left + 5) / 6
  {}

  /** A message partly received, up to consecutive frame `i`. */
  function PartOf(m: Sendable, i: nat): RxState
    requires |m.data| > 5 && i < |Payloads(m)| - 1
  {
    FramesLeft(m, i);
    RxState(m.data[..4 + 6 * i], m.sid, m.nad, i % 16, |m.data| - 4 - 6 * i)
  }

  lemma RestOf(m: Sendable, j: nat)
    requires |m.data| > 5 && j < |Payloads(m)| - 1
    ensures 4 + 6 * j < |m.data|
    ensures Payloads(m)[1 + j..] == ConsecutiveFrames(m.nad, m.data[4 + 6 * j..], 1 + j)
  {
    FramesLeft(m, j);
    FramesAfter(m.nad, m.data[4..], 1, j);
    assert m.data[4..][6 * j..] == m.data[4 + 6 * j..];
    assert Payloads(m)[1 + j..] == Payloads(m)[1..][j..];
    assert Payloads(m)[1..] == ConsecutiveFrames(m.nad, m.data[4..], 1);
  }

  /** Frame `i` of a message, not its last one. */
  lemma MiddleFrame(m: Sendable, i: nat)
    requires |m.data| > 5 && 1 <= i < |Payloads(m)| - 1
    ensures 4 + 6 * i < |m.data|
    ensures Payloads(m)[i] == Pad8([m.nad, 0x20 + i % 16] + m.data[6 * i - 2..6 * i + 4])
  {
    FramesLeft(m, i);
    RestOf(m, i - 1);
    var rest := m.data[6 * i - 2..];
    assert rest[..6] == m.data[6 * i - 2..6 * i + 4];
    assert Payloads(m)[i] == Payloads(m)[i..][0];
  }

  /** It is received in turn. */
  lemma TakesNext(m: Sendable, i: nat)
    requires |m.data| > 5 && 1 <= i < |Payloads(m)| - 1
    ensures RxStep(PartOf(m, i - 1), Payloads(m)[i]).0 == PartOf(m, i)
  {
    MiddleFrame(m, i);
    var t, chunk := PartOf(m, i - 1), m.data[6 * i - 2..6 * i + 4];
    ConsecutiveStep(m.nad, m.sid, t.data, chunk, t.remaining, i);
    assert t.data + chunk == m.data[..4 + 6 * i];
  }

  lemma {:induction false} PrefixState(s: RxState, m: Sendable, i: nat)
    requires |m.data| > 5 && i < |Payloads(m)| - 1
    ensures Final(s, Payloads(m)[..1 + i]) == PartOf(m, i)
  {
    var ps := Payloads(m);
    if i == 0 {
      FirstFrameOpens(s, m);
      FinalLast(s, [], ps[0]);
      assert ps[..1] == [] + [ps[0]];
    } else {
      PrefixState(s, m, i - 1);
      FinalLast(s, ps[..i], ps[i]);
      assert ps[..1 + i] == ps[..i] + [ps[i]];
      TakesNext(m, i);
    }
  }

  /** Where loss safety stops, exactly: `a` breaks off after `i` consecutive
      frames and `b` goes on after its own `j`-th, its first frame being lost
      too. A message nobody sent is delivered - the head of `a` with bytes of
      `b`, padding included - if and only if the counters meet and `b` has as
      many frames left as `a` lacks; otherwise nothing is. */
  lemma LossAcrossMessages(s: RxState, a: Sendable, b: Sendable, i: nat, j: nat)
    requires |a.data| > 5 && |b.data| > 5
    requires i < |Payloads(a)| - 1 && j < |Payloads(b)| - 1
    ensures var begun := PartOf(a, i);
      Outputs(s, Payloads(a)[..1 + i] + Payloads(b)[1 + j..]) ==
      if i % 16 == j % 16 && |Payloads(a)| - i <= |Payloads(b)| - j
      then [LinMessage(a.nad, a.sid, begun.data + Padded(b.data[4 + 6 * j..])[..begun.remaining])]
      else []
  {
    SilentPrefix(s, a, 1 + i);
    PrefixState(s, a, i);
    StreamConcat(s, Payloads(a)[..1 + i], Payloads(b)[1 + j..]);
    FramesLeft(a, i);
    RestEffect(PartOf(a, i), b, j);
    CutMeaning(a, b, i, j);
  }

  lemma CutMeaning(a: Sendable, b: Sendable, i: nat, j: nat)
    requires |a.data| > 5 && |b.data| > 5
    requires i < |Payloads(a)| - 1 && j < |Payloads(b)| - 1
    requires 4 + 6 * j < |b.data|
    ensures var begun, rest := PartOf(a, i), b.data[4 + 6 * j..];
      TailDelivers(begun, rest, 1 + j) ==
      if i % 16 == j % 16 && |Payloads(a)| - i <= |Payloads(b)| - j
      then [LinMessage(a.nad, a.sid, begun.data + Padded(rest)[..begun.remaining])]
      else []
  {
    FramesLeft(a, i);
    FramesLeft(b, j);
    SameCounter(i, j);
  }

  lemma RestEffect(s: RxState, m: Sendable, j: nat)
    requires s.remaining > 0 && |m.data| > 5 && j < |Payloads(m)| - 1
    ensures 4 + 6 * j < |m.data| && |Payloads(m)| - 1 - j == (|m.data[4 + 6 * j..]| + 5) / 6
    ensures Outputs(s, Payloads(m)[1 + j..]) == TailDelivers(s, m.data[4 + 6 * j..], 1 + j)
  {
    FramesLeft(m, j);
    RestOf(m, j);
    TailEffect(s, m.nad, m.data[4 + 6 * j..], 1 + j);
  }

  lemma SameCounter(i: nat, j: nat)
    ensures (i % 16 + 1) % 16 == (1 + j) % 16 <==> i % 16 == j % 16
  {}

  // ------------------------------------------------ masks that grow and shrink

  predicate AllKept(keeps: seq<seq<bool>>) { forall i :: 0 <= i < |keeps| ==> false !in keeps[i] }

  function Whole(m: Sendable): (r: seq<bool>)
    ensures |r| == |Payloads(m)| && false !in r
  {
    seq(|Payloads(m)|, _ => true)
  }

  /** One frame fewer of a message. */
  lemma {:induction false} KeptDrop(ps: seq<seq<byte>>, keep: seq<bool>, a: seq<seq<byte>>, p: seq<byte>, b: seq<seq<byte>>)
    returns (keep': seq<bool>)
    requires |keep| == |ps| && Kept(ps, keep) == a + [p] + b
    ensures |keep'| == |ps| && Kept(ps, keep') == a + b
    ensures ps != [] && (keep'[0] == keep[0] || p == ps[0])
    decreases |ps|
  {
    if keep[0] && a == [] {
      keep' := [false] + keep[1..];
      assert a + [p] + b == [p] + b && ([p] + b)[1..] == b && a + b == b;
    } else if keep[0] {
      assert (a + [p] + b)[1..] == a[1..] + [p] + b;
      assert Kept(ps, keep)[0] == ps[0] == a[0] && Kept(ps, keep)[1..] == Kept(ps[1..], keep[1..]);
      var rest := KeptDrop(ps[1..], keep[1..], a[1..], p, b);
      keep' := [true] + rest;
      assert a + b == [ps[0]] + (a[1..] + b);
    } else {
      var rest := KeptDrop(ps[1..], keep[1..], a, p, b);
      keep' := [false] + rest;
    }
  }

  /** Masks of all messages but the last, and of the last. */
  lemma MasksSplit(ms: seq<Sendable>, init: seq<seq<bool>>, keep: seq<bool>)
    requires ms != [] && Masks(ms[..|ms| - 1], init) && |keep| == |Payloads(ms[|ms| - 1])|
    ensures Masks(ms, init + [keep])
    ensures Arriving(ms, init + [keep]) == Arriving(ms[..|ms| - 1], init) + Kept(Payloads(ms[|ms| - 1]), keep)
    ensures FirstsKept(ms[..|ms| - 1], init) && FirstKept(ms[|ms| - 1], keep) ==> FirstsKept(ms, init + [keep])
  {
    var n, keeps := |ms| - 1, init + [keep];
    forall i | 0 <= i < |ms| ensures |keeps[i]| == |Payloads(ms[i])| {
      if i < n { assert |init[i]| == |Payloads(ms[..n][i])|; }
    }
    assert keeps[..n] == init;
    if FirstsKept(ms[..n], init) && FirstKept(ms[n], keep) {
      forall i | 0 <= i < |ms| ensures FirstKept(ms[i], keeps[i]) {
        if i < n { assert FirstKept(ms[..n][i], init[i]); }
      }
    }
  }

  lemma FirstsSplit(ms: seq<Sendable>, keeps: seq<seq<bool>>)
    requires ms != [] && Masks(ms, keeps) && FirstsKept(ms, keeps)
    ensures FirstsKept(ms[..|ms| - 1], keeps[..|ms| - 1]) && FirstKept(ms[|ms| - 1], keeps[|ms| - 1])
  {}

  /** One more message, all of it still to come. */
  lemma ArrivingAppend(ms: seq<Sendable>, keeps: seq<seq<bool>>, m: Sendable)
    requires Masks(ms, keeps)
    ensures var keeps' := keeps + [Whole(m)];
      && Masks(ms + [m], keeps') && Arriving(ms + [m], keeps') == Arriving(ms, keeps) + Payloads(m)
      && (FirstsKept(ms, keeps) ==> FirstsKept(ms + [m], keeps')) && (AllKept(keeps) ==> AllKept(keeps'))
  {
    assert (ms + [m])[..|ms + [m]| - 1] == ms;
    MasksSplit(ms + [m], keeps, Whole(m));
    KeptAll(Payloads(m), Whole(m));
    assert Whole(m)[0] in Whole(m);
  }

  /** `keeps'` lets through `stream`, and is as good as `keeps` for the first
      frames unless `p` is one. */
  predicate Drops(ms: seq<Sendable>, keeps: seq<seq<bool>>, keeps': seq<seq<bool>>, stream: seq<seq<byte>>, p: seq<byte>)
    requires Masks(ms, keeps)
  {
    && Masks(ms, keeps') && Arriving(ms, keeps') == stream
    && (FirstsKept(ms, keeps) && !IsFirst(p) ==> FirstsKept(ms, keeps'))
  }

  lemma FirstIsFirst(m: Sendable)
    requires |m.data| > 5
    ensures IsFirst(Payloads(m)[0])
  {
    var length := |m.data| + 1;
    assert Payloads(m)[0] == FirstFrame(m);
    assert FirstFrame(m)[1] == 0x10 + length / 256 && FirstFrame(m)[2] == length % 256;
  }

  lemma FirstStays(m: Sendable, keep: seq<bool>, keep': seq<bool>, p: seq<byte>)
    requires |keep| > 0 && |keep'| > 0 && (keep'[0] == keep[0] || p == Payloads(m)[0])
    requires FirstKept(m, keep) && !IsFirst(p)
    ensures FirstKept(m, keep')
  {
    if |m.data| > 5 { FirstIsFirst(m); }
  }

  lemma DropInLast(ms: seq<Sendable>, keeps: seq<seq<bool>>, a: seq<seq<byte>>, p: seq<byte>, b: seq<seq<byte>>)
    returns (keeps': seq<seq<bool>>)
    requires ms != [] && Masks(ms, keeps)
    requires Kept(Payloads(ms[|ms| - 1]), keeps[|ms| - 1]) == a + [p] + b
    ensures Drops(ms, keeps, keeps', Arriving(ms[..|ms| - 1], keeps[..|ms| - 1]) + (a + b), p)
  {
    var n := |ms| - 1;
    var keep' := KeptDrop(Payloads(ms[n]), keeps[n], a, p, b);
    keeps' := keeps[..n] + [keep'];
    MasksSplit(ms, keeps[..n], keep');
    if FirstsKept(ms, keeps) && !IsFirst(p) {
      FirstsSplit(ms, keeps);
      FirstStays(ms[n], keeps[n], keep', p);
    }
  }

  lemma DropInInit(ms: seq<Sendable>, keeps: seq<seq<bool>>, init: seq<seq<bool>>, stream: seq<seq<byte>>, p: seq<byte>)
    requires ms != [] && Masks(ms, keeps)
    requires Drops(ms[..|ms| - 1], keeps[..|ms| - 1], init, stream, p)
    ensures Drops(ms, keeps, init + [keeps[|ms| - 1]], stream + Kept(Payloads(ms[|ms| - 1]), keeps[|ms| - 1]), p)
  {
    MasksSplit(ms, init, keeps[|ms| - 1]);
    if FirstsKept(ms, keeps) { FirstsSplit(ms, keeps); }
  }

  /** One frame fewer of a stream leaves a stream of the same messages under
      some masks, and if it is no first frame, with as many first frames. */
  lemma {:induction false} DropOne(ms: seq<Sendable>, keeps: seq<seq<bool>>, a: seq<seq<byte>>, p: seq<byte>, b: seq<seq<byte>>)
    returns (keeps': seq<seq<bool>>)
    requires Masks(ms, keeps) && Arriving(ms, keeps) == a + [p] + b
    ensures Drops(ms, keeps, keeps', a + b, p)
    decreases |ms|
  {
    var n := |ms| - 1;
    var before, last := Arriving(ms[..n], keeps[..n]), Kept(Payloads(ms[n]), keeps[n]);
    if |before| <= |a| {
      var a' := a[|before|..];
      SplitBehind(before, last, a, p, b);
      keeps' := DropInLast(ms, keeps, a', p, b);
      ConcatAssoc(before, a', b);
    } else {
      var b' := before[|a| + 1..];
      SplitBefore(before, last, a, p, b);
      var init := DropOne(ms[..n], keeps[..n], a, p, b');
      DropInInit(ms, keeps, init, a + b', p);
      keeps' := init + [keeps[n]];
      ConcatAssoc(a, b', last);
    }
  }

  lemma SplitBehind<T>(before: seq<T>, last: seq<T>, a: seq<T>, p: T, b: seq<T>)
    requires before + last == a + [p] + b && |before| <= |a|
    ensures a == before + a[|before|..] && last == a[|before|..] + [p] + b
  {
    assert before == (before + last)[..|before|] == a[..|before|];
    assert last == (before + last)[|before|..] == a[|before|..] + [p] + b;
  }

  lemma SplitBefore<T>(before: seq<T>, last: seq<T>, a: seq<T>, p: T, b: seq<T>)
    requires before + last == a + [p] + b && |before| > |a|
    ensures before == a + [p] + before[|a| + 1..] && b == before[|a| + 1..] + last
  {
    assert before == (a + [p] + b)[..|before|];
    assert b == (before + last)[|a| + 1..];
  }

  lemma {:induction false} IntactSubsequence(ms: seq<Sendable>, keeps: seq<seq<bool>>)
    requires |keeps| == |ms|
    ensures Subsequence<LinMessage>(Intact(ms, keeps), ms)
  {
    if ms != [] {
      var n := |ms| - 1;
      IntactSubsequence(ms[..n], keeps[..n]);
      assert ms == ms[..n] + [ms[n]];
      SubsequenceRefl<LinMessage>([ms[n]]);
      assert Subsequence<LinMessage>([], [ms[n]]);
      SubsequenceConcat<LinMessage>(Intact(ms[..n], keeps[..n]), ms[..n], if false in keeps[n] then [] else [ms[n]], [ms[n]]);
    }
  }

  lemma {:induction false} IntactAll(ms: seq<Sendable>, keeps: seq<seq<bool>>)
    requires |keeps| == |ms| && AllKept(keeps)
    ensures Intact(ms, keeps) == ms
  {
    if ms != [] {
      var n := |ms| - 1;
      IntactAll(ms[..n], keeps[..n]);
      assert ms == ms[..n] + [ms[n]];
    }
  }

  lemma AllKeepFirsts(ms: seq<Sendable>, keeps: seq<seq<bool>>)
    requires Masks(ms, keeps) && AllKept(keeps)
    ensures FirstsKept(ms, keeps)
  {
    forall i | 0 <= i < |ms| ensures FirstKept(ms[i], keeps[i]) {
      assert keeps[i][0] in keeps[i];
    }
  }
}
