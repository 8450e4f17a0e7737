/** The two response matchers - the LIN master's and the UDS client's - and
    waiting for a response against a deadline. */
module Waiting {
  import opened LinTypes
  import opened Slave

  const RESPONSE_PENDING: byte := 0x78

  /** What one received message means to someone waiting. */
  datatype Verdict = Skip | Pending | Positive | Refused(code: byte)

  predicate Decisive(v: Verdict) { v.Positive? || v.Refused? }

  predicate ForOther(nad: byte, m: LinMessage) { nad != BROADCAST_NAD && m.nad != nad }

  /** LinMaster: the expected response identifier is tested first. */
  function MasterVerdict(nad: byte, rsid: byte, m: LinMessage): Verdict {
    if ForOther(nad, m) then Skip
    else if m.sid == rsid then Positive
    else if m.sid == NEGATIVE_RESPONSE && |m.data| >= 2 && m.data[0] == (rsid as int + 0x100 - 0x40) % 0x100 then
      if m.data[1] == RESPONSE_PENDING then Pending else Refused(m.data[1])
    else Skip
  }

  /** UDS client: negative responses are tested first. */
  function ClientVerdict(nad: byte, sid: byte, m: LinMessage): Verdict {
    if ForOther(nad, m) then Skip
    else if m.sid == NEGATIVE_RESPONSE then
      if |m.data| < 2 || m.data[0] != sid then Skip
      else if m.data[1] == RESPONSE_PENDING then Pending
      else Refused(m.data[1])
    else if m.sid == PositiveSid(sid) then Positive
    else Skip
  }

  /** The first message that decides, with its verdict. */
  function Selected(verdict: LinMessage -> Verdict, ms: seq<LinMessage>): Option<(LinMessage, Verdict)> {
    if ms == [] then None
    else if Decisive(verdict(ms[0])) then Some((ms[0], verdict(ms[0])))
    else Selected(verdict, ms[1..])
  }

  function MatchingMaster(nad: byte, rsid: byte): LinMessage -> Verdict { m => MasterVerdict(nad, rsid, m) }

  function ByMaster(nad: byte, sid: byte): LinMessage -> Verdict { MatchingMaster(nad, PositiveSid(sid)) }

  function ByClient(nad: byte, sid: byte): LinMessage -> Verdict { m => ClientVerdict(nad, sid, m) }

  lemma VerdictsAgree(nad: byte, sid: byte, m: LinMessage)
    requires sid != 0x3F
    ensures MasterVerdict(nad, PositiveSid(sid), m) == ClientVerdict(nad, sid, m)
  {}

  lemma {:induction false} SelectionsAgree(nad: byte, sid: byte, ms: seq<LinMessage>)
    requires sid != 0x3F
    ensures Selected(ByMaster(nad, sid), ms) == Selected(ByClient(nad, sid), ms)
  {
    if ms != [] {
      VerdictsAgree(nad, sid, ms[0]);
      SelectionsAgree(nad, sid, ms[1..]);
    }
  }

  /** The two matchers pick the same message with the same meaning from every
      list, for every address, exactly for the service identifiers other than
      0x3F, whose positive response would be the negative-response identifier. */
  lemma MatchersAgreeIff(sid: byte)
    ensures sid != 0x3F <==>
      forall nad: byte, ms: seq<LinMessage> :: Selected(ByMaster(nad, sid), ms) == Selected(ByClient(nad, sid), ms)
  {
    if sid != 0x3F {
      forall nad: byte, ms: seq<LinMessage> ensures Selected(ByMaster(nad, sid), ms) == Selected(ByClient(nad, sid), ms) {
        SelectionsAgree(nad, sid, ms);
      }
    } else {
      var m := LinMessage(1, NEGATIVE_RESPONSE, []);
      assert MasterVerdict(1, PositiveSid(sid), m) == Positive && ClientVerdict(1, sid, m) == Skip;
      assert Selected(ByMaster(1, sid), [m]) == Some((m, Positive));
      assert Selected(ByClient(1, sid), [m]) == Selected(ByClient(1, sid), [m][1..]);
      assert [m][1..] == [];
    }
  }

  // ------------------------------------------------ waiting

  /** What reaches a waiting goroutine, with its time. */
  datatype Item = Arrive(at: int, msg: LinMessage) | Fault(at: int) | Shut(at: int) | Cancel(at: int)

  datatype Outcome =
    | Response(msg: LinMessage)
    | NegativeResponse(msg: LinMessage, code: byte)
    | TimedOut
    | ContextEnded
    | TransportFailed
    | Blocked

  /** The deadline of a wait context: that of its parent and a positive timeout,
      whichever comes first. */
  function WaitDeadline(parent: Option<int>, now: int, timeout: int): Option<int> {
    if timeout <= 0 then parent
    else if parent.Some? && parent.value < now + timeout then parent
    else Some(now + timeout)
  }

  function Expired(parent: Option<int>, deadline: int): Outcome {
    if parent.Some? && parent.value <= deadline then ContextEnded else TimedOut
  }

  /** Waiting through `items`, an expired deadline having priority; `extend` is
      the new timeout a pending response sets, if it sets one. Blocked means
      that the items end with no deadline in force. */
  function Wait(verdict: LinMessage -> Verdict, parent: Option<int>, extend: Option<int>, deadline: Option<int>, items: seq<Item>): Outcome
    decreases items
  {
    if items == [] then if deadline.None? then Blocked else Expired(parent, deadline.value)
    else if deadline.Some? && items[0].at >= deadline.value then Expired(parent, deadline.value)
    else
      match items[0]
      case Fault(_) => TransportFailed
      case Shut(_) => TransportFailed
      case Cancel(_) => ContextEnded
      case Arrive(at, m) =>
        match verdict(m)
        case Positive => Response(m)
        case Refused(code) => NegativeResponse(m, code)
        case Skip => Wait(verdict, parent, extend, deadline, items[1..])
        case Pending => Wait(verdict, parent, extend, Extended(parent, extend, deadline, at), items[1..])
  }

  function Extended(parent: Option<int>, extend: Option<int>, deadline: Option<int>, at: int): Option<int> {
    if extend.Some? then WaitDeadline(parent, at, extend.value) else deadline
  }

  predicate IsPending(verdict: LinMessage -> Verdict, i: Item) { i.Arrive? && verdict(i.msg) == Pending }

  /** The deadline in force when item `i` is due: the initial one, or that set
      by the last pending response before it. */
  function InForce(verdict: LinMessage -> Verdict, parent: Option<int>, extend: Option<int>, deadline: Option<int>, items: seq<Item>, i: nat): Option<int>
    requires i <= |items|
  {
    if i == 0 then deadline
    else
      var before := InForce(verdict, parent, extend, deadline, items, i - 1);
      if IsPending(verdict, items[i - 1]) then Extended(parent, extend, before, items[i - 1].at) else before
  }

  function Pendings(verdict: LinMessage -> Verdict, items: seq<Item>, i: nat): nat
    requires i <= |items|
  {
    if i == 0 then 0 else Pendings(verdict, items, i - 1) + if IsPending(verdict, items[i - 1]) then 1 else 0
  }

  predicate Before(at: int, deadline: Option<int>) { deadline.None? || at < deadline.value }

  /** Item `j` is the first decisive message, and it and everything before it
      arrived within the deadline in force, with no failure in between. */
  predicate DecidedBy(verdict: LinMessage -> Verdict, parent: Option<int>, extend: Option<int>, deadline: Option<int>, items: seq<Item>, j: nat)
    requires j < |items|
  {
    && items[j].Arrive? && Decisive(verdict(items[j].msg))
    && (forall i :: 0 <= i < j ==> items[i].Arrive? && !Decisive(verdict(items[i].msg)))
    && forall i :: 0 <= i <= j ==> Before(items[i].at, InForce(verdict, parent, extend, deadline, items, i))
  }

  function Meaning(verdict: LinMessage -> Verdict, m: LinMessage): Outcome
    requires Decisive(verdict(m))
  {
    match verdict(m)
    case Positive => Response(m)
    case Refused(code) => NegativeResponse(m, code)
  }

  lemma {:induction false} InForceTail(verdict: LinMessage -> Verdict, parent: Option<int>, extend: Option<int>, deadline: Option<int>, items: seq<Item>, i: nat)
    requires 1 <= i <= |items|
    ensures InForce(verdict, parent, extend, deadline, items, i)
            == InForce(verdict, parent, extend, InForce(verdict, parent, extend, deadline, items, 1), items[1..], i - 1)
  {
    if i > 1 {
      InForceTail(verdict, parent, extend, deadline, items, i - 1);
      assert items[1..][i - 2] == items[i - 1];
    }
  }

  /** A message is the answer if and only if it is the first decisive one and
      comes in time. */
  lemma {:induction false} DecidedWait(verdict: LinMessage -> Verdict, parent: Option<int>, extend: Option<int>, deadline: Option<int>, items: seq<Item>, j: nat)
    requires j < |items| && DecidedBy(verdict, parent, extend, deadline, items, j)
    ensures Wait(verdict, parent, extend, deadline, items) == Meaning(verdict, items[j].msg)
    decreases j
  {
    assert Before(items[0].at, InForce(verdict, parent, extend, deadline, items, 0));
    if j > 0 {
      var d := InForce(verdict, parent, extend, deadline, items, 1);
      var tail := items[1..];
      forall i | 0 <= i <= j - 1 ensures Before(tail[i].at, InForce(verdict, parent, extend, d, tail, i)) {
        InForceTail(verdict, parent, extend, deadline, items, i + 1);
        assert tail[i] == items[i + 1];
      }
      assert items[0].Arrive? && !Decisive(verdict(items[0].msg));
      DecidedWait(verdict, parent, extend, d, tail, j - 1);
      assert InForce(verdict, parent, extend, deadline, items, 0) == deadline;
    }
  }

  lemma {:induction false} WaitDecided(verdict: LinMessage -> Verdict, parent: Option<int>, extend: Option<int>, deadline: Option<int>, items: seq<Item>)
    returns (j: nat)
    requires Wait(verdict, parent, extend, deadline, items).Response? || Wait(verdict, parent, extend, deadline, items).NegativeResponse?
    ensures j < |items| && DecidedBy(verdict, parent, extend, deadline, items, j)
    decreases items
  {
    if Decisive(verdict(items[0].msg)) {
      j := 0;
    } else {
      var d := InForce(verdict, parent, extend, deadline, items, 1);
      assert InForce(verdict, parent, extend, deadline, items, 0) == deadline;
      var tail := items[1..];
      var k := WaitDecided(verdict, parent, extend, d, tail);
      j := k + 1;
      forall i | 0 <= i <= j ensures Before(items[i].at, InForce(verdict, parent, extend, deadline, items, i)) {
        if i > 0 {
          InForceTail(verdict, parent, extend, deadline, items, i);
          assert tail[i - 1] == items[i] && Before(tail[i - 1].at, InForce(verdict, parent, extend, d, tail, i - 1));
        }
      }
      forall i | 0 <= i < j ensures items[i].Arrive? && !Decisive(verdict(items[i].msg)) {
        if i > 0 { assert tail[i - 1] == items[i]; }
      }
    }
  }

  /** Each pending response extends the deadline by at most one P2*: after `k`
      of them it is at most start + timeout + k * P2*. */
  lemma {:induction false} DeadlineBound(verdict: LinMessage -> Verdict, parent: Option<int>, p2: int, start: int, timeout: int, items: seq<Item>, i: nat)
    requires timeout > 0 && p2 > 0 && i <= |items|
    requires forall k :: 0 <= k < i ==> Before(items[k].at, InForce(verdict, parent, Some(p2), WaitDeadline(parent, start, timeout), items, k))
    ensures var d := InForce(verdict, parent, Some(p2), WaitDeadline(parent, start, timeout), items, i);
      d.Some? && d.value <= start + timeout + Pendings(verdict, items, i) * p2
  {
    if i > 0 {
      DeadlineBound(verdict, parent, p2, start, timeout, items, i - 1);
      var k := Pendings(verdict, items, i - 1);
      assert (k + 1) * p2 == k * p2 + p2;
    }
  }

  /** The answer comes within start + timeout + k * P2*, k being the pending
      responses before it, whatever the parent context. */
  lemma AnswerInTime(verdict: LinMessage -> Verdict, parent: Option<int>, p2: int, start: int, timeout: int, items: seq<Item>, j: nat)
    requires timeout > 0 && p2 > 0 && j < |items|
    requires DecidedBy(verdict, parent, Some(p2), WaitDeadline(parent, start, timeout), items, j)
    ensures items[j].at < start + timeout + Pendings(verdict, items, j) * p2
    ensures parent.Some? ==> items[j].at < parent.value
  {
    DeadlineBound(verdict, parent, p2, start, timeout, items, j);
    assert Before(items[j].at, InForce(verdict, parent, Some(p2), WaitDeadline(parent, start, timeout), items, j));
    if parent.Some? { ParentBound(verdict, parent, p2, start, timeout, items, j); }
  }

  lemma {:induction false} ParentBound(verdict: LinMessage -> Verdict, parent: Option<int>, p2: int, start: int, timeout: int, items: seq<Item>, i: nat)
    requires i <= |items| && parent.Some?
    ensures var d := InForce(verdict, parent, Some(p2), WaitDeadline(parent, start, timeout), items, i);
      d.Some? && d.value <= parent.value
  {
    if i > 0 { ParentBound(verdict, parent, p2, start, timeout, items, i - 1); }
  }

  // ------------------------------------------------ the deadline, from the items alone

  predicate NonePending(verdict: LinMessage -> Verdict, items: seq<Item>, i: nat)
    requires i <= |items|
  {
    forall l :: 0 <= l < i ==> !IsPending(verdict, items[l])
  }

  /** Item `k` is the last pending response before item `i`. */
  predicate LastPending(verdict: LinMessage -> Verdict, items: seq<Item>, i: nat, k: nat)
    requires i <= |items|
  {
    k < i && IsPending(verdict, items[k]) && forall l :: k < l < i ==> !IsPending(verdict, items[l])
  }

  /** A wait that started at `start` with this timeout still runs at `at`, when
      item `i` is due: the parent's deadline has not come; before any pending
      response, nor has start + timeout; after one, P2* after the last of them
      has not. A timeout or P2* of zero or less sets no deadline of its own. */
  predicate Running(verdict: LinMessage -> Verdict, parent: Option<int>, start: int, timeout: int, p2: int, items: seq<Item>, i: nat, at: int)
    requires i <= |items|
  {
    && (parent.Some? ==> at < parent.value)
    && (timeout > 0 && NonePending(verdict, items, i) ==> at < start + timeout)
    && (p2 > 0 ==> forall k: nat :: k < i && LastPending(verdict, items, i, k) ==> at < items[k].at + p2)
  }

  lemma {:induction false} InForceFirst(verdict: LinMessage -> Verdict, parent: Option<int>, extend: Option<int>, deadline: Option<int>, items: seq<Item>, i: nat)
    requires i <= |items| && NonePending(verdict, items, i)
    ensures InForce(verdict, parent, extend, deadline, items, i) == deadline
  {
    if i > 0 { InForceFirst(verdict, parent, extend, deadline, items, i - 1); }
  }

  /** A pending response restarts the timer: from the last one, P2* or what the
      parent leaves of it. */
  lemma {:induction false} PendingRestarts(verdict: LinMessage -> Verdict, parent: Option<int>, p2: int, deadline: Option<int>, items: seq<Item>, i: nat, k: nat)
    requires i <= |items| && LastPending(verdict, items, i, k)
    ensures InForce(verdict, parent, Some(p2), deadline, items, i) ==
      if p2 <= 0 then parent
      else if parent.Some? && parent.value < items[k].at + p2 then parent
      else Some(items[k].at + p2)
  {
    if k < i - 1 { PendingRestarts(verdict, parent, p2, deadline, items, i - 1, k); }
  }

  lemma {:induction false} PendingOrNone(verdict: LinMessage -> Verdict, items: seq<Item>, i: nat) returns (k: nat)
    requires i <= |items|
    ensures NonePending(verdict, items, i) || LastPending(verdict, items, i, k)
  {
    k := 0;
    if i > 0 {
      if IsPending(verdict, items[i - 1]) { k := i - 1; } else { k := PendingOrNone(verdict, items, i - 1); }
    }
  }

  lemma LastPendingUnique(verdict: LinMessage -> Verdict, items: seq<Item>, i: nat, k: nat, l: nat)
    requires i <= |items| && LastPending(verdict, items, i, k) && LastPending(verdict, items, i, l)
    ensures k == l
  {}

  /** The deadline in force is the one the items set. */
  lemma RunningIff(verdict: LinMessage -> Verdict, parent: Option<int>, start: int, timeout: int, p2: int, items: seq<Item>, i: nat, at: int)
    requires i <= |items|
    ensures Before(at, InForce(verdict, parent, Some(p2), WaitDeadline(parent, start, timeout), items, i))
            <==> Running(verdict, parent, start, timeout, p2, items, i, at)
  {
    var k := PendingOrNone(verdict, items, i);
    if NonePending(verdict, items, i) {
      InForceFirst(verdict, parent, Some(p2), WaitDeadline(parent, start, timeout), items, i);
    } else {
      PendingRestarts(verdict, parent, p2, WaitDeadline(parent, start, timeout), items, i, k);
      forall l: nat | l < i && LastPending(verdict, items, i, l) ensures l == k {
        LastPendingUnique(verdict, items, i, k, l);
      }
    }
  }

  // ------------------------------------------------ every outcome

  /** A message in time that leaves the wait going on. */
  predicate Passes(verdict: LinMessage -> Verdict, i: Item) { i.Arrive? && !Decisive(verdict(i.msg)) }

  /** The wait gets to item `j`, or to the end. */
  predicate GetsTo(verdict: LinMessage -> Verdict, parent: Option<int>, start: int, timeout: int, p2: int, items: seq<Item>, j: nat)
    requires j <= |items|
  {
    forall i :: 0 <= i < j ==> Passes(verdict, items[i]) && Running(verdict, parent, start, timeout, p2, items, i, items[i].at)
  }

  /** Nothing but the parent limits the wait, or the parent does first. */
  predicate ParentFirst(verdict: LinMessage -> Verdict, parent: Option<int>, start: int, timeout: int, p2: int, items: seq<Item>, j: nat)
    requires j <= |items|
  {
    && parent.Some?
    && (timeout > 0 && NonePending(verdict, items, j) ==> parent.value <= start + timeout)
    && (p2 > 0 ==> forall k: nat :: k < j && LastPending(verdict, items, j, k) ==> parent.value <= items[k].at + p2)
  }

  /** Nothing limits the wait. */
  predicate Unlimited(verdict: LinMessage -> Verdict, parent: Option<int>, timeout: int, p2: int, items: seq<Item>, j: nat)
    requires j <= |items|
  {
    parent.None? && if NonePending(verdict, items, j) then timeout <= 0 else p2 <= 0
  }

  /** What the wait ends with at item `j`. */
  predicate EndsAt(verdict: LinMessage -> Verdict, parent: Option<int>, start: int, timeout: int, p2: int, items: seq<Item>, j: nat, o: Outcome)
    requires j <= |items|
  {
    if j < |items| && Running(verdict, parent, start, timeout, p2, items, j, items[j].at) then
      match items[j]
      case Fault(_) => o == TransportFailed
      case Shut(_) => o == TransportFailed
      case Cancel(_) => o == ContextEnded
      case Arrive(_, m) =>
        match verdict(m)
        case Positive => o == Response(m)
        case Refused(code) => o == NegativeResponse(m, code)
        case _ => false
    else if Unlimited(verdict, parent, timeout, p2, items, j) then o == Blocked
    else if ParentFirst(verdict, parent, start, timeout, p2, items, j) then o == ContextEnded
    else o == TimedOut
  }

  lemma {:induction false} WaitFrom(verdict: LinMessage -> Verdict, parent: Option<int>, extend: Option<int>, deadline: Option<int>, items: seq<Item>, j: nat)
    requires j <= |items|
    requires forall i :: 0 <= i < j ==>
      Passes(verdict, items[i]) && Before(items[i].at, InForce(verdict, parent, extend, deadline, items, i))
    ensures Wait(verdict, parent, extend, deadline, items)
            == Wait(verdict, parent, extend, InForce(verdict, parent, extend, deadline, items, j), items[j..])
  {
    if j == 0 {
      assert items[0..] == items;
    } else {
      WaitFrom(verdict, parent, extend, deadline, items, j - 1);
      assert items[j - 1..][0] == items[j - 1] && items[j - 1..][1..] == items[j..];
      assert Passes(verdict, items[j - 1]);
    }
  }

  /** The deadline a wait runs into, and whose it is. */
  lemma ExpiresAs(verdict: LinMessage -> Verdict, parent: Option<int>, start: int, timeout: int, p2: int, items: seq<Item>, j: nat)
    requires j <= |items|
    ensures var d := InForce(verdict, parent, Some(p2), WaitDeadline(parent, start, timeout), items, j);
      && (d.None? <==> Unlimited(verdict, parent, timeout, p2, items, j))
      && (d.Some? ==> Expired(parent, d.value)
                      == if ParentFirst(verdict, parent, start, timeout, p2, items, j) then ContextEnded else TimedOut)
  {
    var k := PendingOrNone(verdict, items, j);
    if NonePending(verdict, items, j) {
      InForceFirst(verdict, parent, Some(p2), WaitDeadline(parent, start, timeout), items, j);
    } else {
      PendingRestarts(verdict, parent, p2, WaitDeadline(parent, start, timeout), items, j, k);
      forall l: nat | l < j && LastPending(verdict, items, j, l) ensures l == k {
        LastPendingUnique(verdict, items, j, k, l);
      }
    }
  }

  /** Every outcome of a wait with a P2* timer, from its items alone: it gets to
      one item, or the end, and ends there. */
  lemma WaitOutcome(verdict: LinMessage -> Verdict, parent: Option<int>, start: int, timeout: int, p2: int, items: seq<Item>, j: nat)
    requires j <= |items| && GetsTo(verdict, parent, start, timeout, p2, items, j)
    requires j < |items| && Passes(verdict, items[j]) ==> !Running(verdict, parent, start, timeout, p2, items, j, items[j].at)
    ensures EndsAt(verdict, parent, start, timeout, p2, items, j,
                   Wait(verdict, parent, Some(p2), WaitDeadline(parent, start, timeout), items))
  {
    var deadline := WaitDeadline(parent, start, timeout);
    forall i | 0 <= i < j ensures Before(items[i].at, InForce(verdict, parent, Some(p2), deadline, items, i)) {
      RunningIff(verdict, parent, start, timeout, p2, items, i, items[i].at);
    }
    WaitFrom(verdict, parent, Some(p2), deadline, items, j);
    ExpiresAs(verdict, parent, start, timeout, p2, items, j);
    if j < |items| {
      RunningIff(verdict, parent, start, timeout, p2, items, j, items[j].at);
      assert items[j..][0] == items[j];
    }
  }

  /** Where a wait ends. */
  lemma {:induction false} WaitStops(verdict: LinMessage -> Verdict, parent: Option<int>, start: int, timeout: int, p2: int, items: seq<Item>, from: nat)
    returns (j: nat)
    requires from <= |items| && GetsTo(verdict, parent, start, timeout, p2, items, from)
    ensures j <= |items| && GetsTo(verdict, parent, start, timeout, p2, items, j)
    ensures j < |items| && Passes(verdict, items[j]) ==> !Running(verdict, parent, start, timeout, p2, items, j, items[j].at)
    decreases |items| - from
  {
    j := from;
    if from < |items| && Passes(verdict, items[from])
       && Running(verdict, parent, start, timeout, p2, items, from, items[from].at) {
      j := WaitStops(verdict, parent, start, timeout, p2, items, from + 1);
    }
  }

  /** The message that answers: everything up to it came while the wait ran,
      nothing before it decided, and it does. */
  predicate AnswersAt(verdict: LinMessage -> Verdict, parent: Option<int>, start: int, timeout: int, p2: int, items: seq<Item>, j: nat, o: Outcome)
    requires j < |items|
  {
    && GetsTo(verdict, parent, start, timeout, p2, items, j)
    && Running(verdict, parent, start, timeout, p2, items, j, items[j].at)
    && items[j].Arrive?
    && match verdict(items[j].msg)
       case Positive => o == Response(items[j].msg)
       case Refused(code) => o == NegativeResponse(items[j].msg, code)
       case _ => false
  }

  /** A wait is answered exactly so: any number of pending responses, each
      before the deadline the one before it set, and then a decisive message
      before the last of those deadlines. */
  lemma WaitAnsweredIff(verdict: LinMessage -> Verdict, parent: Option<int>, start: int, timeout: int, p2: int, items: seq<Item>, o: Outcome)
    requires o.Response? || o.NegativeResponse?
    ensures Wait(verdict, parent, Some(p2), WaitDeadline(parent, start, timeout), items) == o
            <==> exists j :: 0 <= j < |items| && AnswersAt(verdict, parent, start, timeout, p2, items, j, o)
  {
    forall j | 0 <= j < |items| && AnswersAt(verdict, parent, start, timeout, p2, items, j, o)
      ensures Wait(verdict, parent, Some(p2), WaitDeadline(parent, start, timeout), items) == o
    {
      WaitOutcome(verdict, parent, start, timeout, p2, items, j);
    }
    var j := WaitStops(verdict, parent, start, timeout, p2, items, 0);
    WaitOutcome(verdict, parent, start, timeout, p2, items, j);
    if Wait(verdict, parent, Some(p2), WaitDeadline(parent, start, timeout), items) == o {
      assert AnswersAt(verdict, parent, start, timeout, p2, items, j, o);
    }
  }

  // ------------------------------------------------ a wait without a P2* timer

  /** Everything before item `j` came in time, arrived well and did not decide. */
  predicate StillWaiting(verdict: LinMessage -> Verdict, deadline: int, items: seq<Item>, j: nat)
    requires j <= |items|
  {
    forall i :: 0 <= i < j ==> Passes(verdict, items[i]) && items[i].at < deadline
  }

  lemma {:induction false} InForceFixed(verdict: LinMessage -> Verdict, deadline: int, items: seq<Item>, i: nat)
    requires i <= |items|
    ensures InForce(verdict, None, None, Some(deadline), items, i) == Some(deadline)
  {
    if i > 0 { InForceFixed(verdict, deadline, items, i - 1); }
  }

  /** What a wait with one fixed deadline ends with at item `j`. */
  lemma FixedOutcome(verdict: LinMessage -> Verdict, deadline: int, items: seq<Item>, j: nat)
    requires j <= |items| && StillWaiting(verdict, deadline, items, j)
    ensures var o := Wait(verdict, None, None, Some(deadline), items);
      if j == |items| || items[j].at >= deadline then o == TimedOut
      else
        match items[j]
        case Fault(_) => o == TransportFailed
        case Shut(_) => o == TransportFailed
        case Cancel(_) => o == ContextEnded
        case Arrive(_, m) =>
          match verdict(m)
          case Positive => o == Response(m)
          case Refused(code) => o == NegativeResponse(m, code)
          case _ => true
  {
    forall i | 0 <= i <= j ensures InForce(verdict, None, None, Some(deadline), items, i) == Some(deadline) {
      InForceFixed(verdict, deadline, items, i);
    }
    WaitFrom(verdict, None, None, Some(deadline), items, j);
    if j < |items| { assert items[j..][0] == items[j]; }
  }

  lemma {:induction false} FixedStops(verdict: LinMessage -> Verdict, deadline: int, items: seq<Item>, from: nat) returns (j: nat)
    requires from <= |items| && StillWaiting(verdict, deadline, items, from)
    ensures j <= |items| && StillWaiting(verdict, deadline, items, j)
    ensures j < |items| ==> items[j].at >= deadline || !Passes(verdict, items[j])
    decreases |items| - from
  {
    j := from;
    if from < |items| && Passes(verdict, items[from]) && items[from].at < deadline {
      j := FixedStops(verdict, deadline, items, from + 1);
    }
  }

  // ------------------------------------------------ what a message means

  /** The UDS client's verdict, in terms of the bytes. */
  lemma ClientVerdictIs(nad: byte, sid: byte, m: LinMessage)
    ensures var v := ClientVerdict(nad, sid, m);
      var mine := nad == 0x7F || m.nad == nad;
      var refusal := m.sid == 0x7F && |m.data| >= 2 && m.data[0] == sid;
      && (v == Positive <==> mine && m.sid != 0x7F && m.sid as int == (sid as int + 0x40) % 0x100)
      && (v == Pending <==> mine && refusal && m.data[1] == 0x78)
      && (forall code: byte :: v == Refused(code) <==> mine && refusal && m.data[1] == code && code != 0x78)
  {}

  /** The LIN master's, which looks for its response identifier first. */
  lemma MasterVerdictIs(nad: byte, rsid: byte, m: LinMessage)
    ensures var v := MasterVerdict(nad, rsid, m);
      var mine := nad == 0x7F || m.nad == nad;
      var refusal := m.sid != rsid && m.sid == 0x7F && |m.data| >= 2 && (m.data[0] as int + 0x40) % 0x100 == rsid as int;
      && (v == Positive <==> mine && m.sid == rsid)
      && (v == Pending <==> mine && refusal && m.data[1] == 0x78)
      && (forall code: byte :: v == Refused(code) <==> mine && refusal && m.data[1] == code && code != 0x78)
  {}

  /** A message from another address never decides a wait, nor keeps it going
      longer, unless the request was broadcast. */
  lemma OtherAddress(nad: byte, sid: byte, m: LinMessage)
    requires nad != 0x7F && m.nad != nad
    ensures ByClient(nad, sid)(m) == Skip && ByMaster(nad, sid)(m) == Skip
  {}
}
