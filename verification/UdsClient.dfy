/** The UDS client: one request and its wait, and the retry loop. */
module UdsClient {
  import opened LinTypes
  import opened Slave
  import opened Waiting

  /** Durations are integers; zero or negative values ask for the default. */
  datatype ClientConfig = ClientConfig(targetNad: byte, defaultTimeout: int, responsePendingTimeout: int,
                                       maxRetries: int, retryableSids: map<byte, bool>)

  /** Two and five seconds, in milliseconds. */
  const DEFAULT_TIMEOUT: int := 2000
  const DEFAULT_PENDING_TIMEOUT: int := 5000

  function NormalizeConfig(c: ClientConfig): ClientConfig {
    c.(defaultTimeout := if c.defaultTimeout <= 0 then DEFAULT_TIMEOUT else c.defaultTimeout,
       responsePendingTimeout := if c.responsePendingTimeout <= 0 then DEFAULT_PENDING_TIMEOUT else c.responsePendingTimeout,
       maxRetries := if c.maxRetries < 0 then 0 else c.maxRetries)
  }

  /** The world during one attempt: messages left in the receive queue, whether
      an earlier transport error is still unread, whether the transport takes
      the request, the time the wait starts, and what arrives afterwards.
      `place` is how many of the messages that are there already the wait takes
      before the old error, both being ready. */
  datatype World = World(stale: seq<LinMessage>, fault: bool, accepts: bool, start: int, place: nat, items: seq<Item>)

  /** How many items are there when the wait starts. */
  function Ready(items: seq<Item>, start: int): (n: nat)
    ensures n <= |items|
    ensures forall i :: 0 <= i < n ==> items[i].at <= start
    ensures n < |items| ==> items[n].at > start
  {
    if items == [] || items[0].at > start then 0 else 1 + Ready(items[1..], start)
  }

  /** What reaches the wait: draining the queue leaves an old error in its own
      channel, where the wait finds it. */
  function Reaching(w: World): seq<Item> {
    if !w.fault then w.items
    else
      var n := Min(w.place, Ready(w.items, w.start));
      w.items[..n] + [Fault(w.start)] + w.items[n..]
  }

  datatype Result = EmptyRequest | SendFailed | Ended(outcome: Outcome)

  /** What the caller gets back: responding address and response bytes. */
  function Reply(r: Result): Option<(byte, seq<byte>)> {
    match r
    case Ended(Response(m)) => Some((m.nad, [m.sid] + m.data))
    case Ended(NegativeResponse(m, _)) => Some((m.nad, [m.sid] + m.data))
    case _ => None
  }

  /** One request: what it returns in a given world. */
  function Attempt(c: ClientConfig, parent: Option<int>, nad: byte, payload: seq<byte>, timeout: int, w: World): Result {
    if payload == [] then EmptyRequest
    else if !w.accepts then SendFailed
    else Ended(Wait(ByClient(nad, payload[0]), parent, Some(c.responsePendingTimeout),
                    WaitDeadline(parent, w.start, timeout), Reaching(w)))
  }

  /** The first `n` attempts all ended by their response timeout. */
  predicate AllTimedOut(c: ClientConfig, nad: byte, payload: seq<byte>, timeout: int, worlds: nat -> World, n: nat) {
    forall k :: 0 <= k < n ==> Attempt(c, None, nad, payload, timeout, worlds(k)) == Ended(TimedOut)
  }

  lemma OneMoreTimedOut(c: ClientConfig, nad: byte, payload: seq<byte>, timeout: int, worlds: nat -> World, n: nat)
    requires AllTimedOut(c, nad, payload, timeout, worlds, n)
    requires Attempt(c, None, nad, payload, timeout, worlds(n)) == Ended(TimedOut)
    ensures AllTimedOut(c, nad, payload, timeout, worlds, n + 1)
  {}

  /** Retries enabled for a service identifier. */
  predicate Retryable(c: ClientConfig, sid: byte) { sid in c.retryableSids && c.retryableSids[sid] }

  class Client {
    const config: ClientConfig
    /** Messages waiting in the transport's receive queue. */
    var received: seq<LinMessage>
    /** Requests the transport has accepted, in order. */
    var requests: seq<LinMessage>
    /** The transport's response flag: the master polls for an answer. */
    var awaiting: bool

    constructor (config: ClientConfig)
      ensures this.config == NormalizeConfig(config) && received == [] && requests == [] && !awaiting
      ensures var c := this.config;
        && c.defaultTimeout == (if config.defaultTimeout > 0 then config.defaultTimeout else 2000)
        && c.responsePendingTimeout == (if config.responsePendingTimeout > 0 then config.responsePendingTimeout else 5000)
        && c.maxRetries == (if config.maxRetries > 0 then config.maxRetries else 0)
        && c.targetNad == config.targetNad && c.retryableSids == config.retryableSids
    {
      this.config := NormalizeConfig(config);
      received, requests, awaiting := [], [], false;
    }

    /** Discards the messages an earlier exchange left behind; an error it left
        is in another channel and stays. */
    method Drain()
      modifies this`received
      ensures received == []
    {
      while received != []
        decreases |received|
      {
        received := received[1..];
      }
    }

    /** The wait loop: replaces its deadline on every matching pending
        response. */
    method AwaitResponse(parent: Option<int>, nad: byte, sid: byte, deadline: Option<int>, items: seq<Item>)
      returns (r: Outcome)
      ensures r == Wait(ByClient(nad, sid), parent, Some(config.responsePendingTimeout), deadline, items)
    {
      var waitUntil := deadline;
      var i := 0;
      while i < |items|
        invariant 0 <= i <= |items|
        invariant Wait(ByClient(nad, sid), parent, Some(config.responsePendingTimeout), waitUntil, items[i..])
                  == Wait(ByClient(nad, sid), parent, Some(config.responsePendingTimeout), deadline, items)
      {
        var item := items[i];
        assert items[i..][0] == item && items[i..][1..] == items[i + 1..];
        if waitUntil.Some? && item.at >= waitUntil.value {
          return Expired(parent, waitUntil.value);
        }
        if item.Fault? || item.Shut? { return TransportFailed; }
        if item.Cancel? { return ContextEnded; }
        var msg := item.msg;
        i := i + 1;
        if nad != BROADCAST_NAD && msg.nad != nad { continue; }
        if msg.sid == NEGATIVE_RESPONSE {
          if |msg.data| < 2 || msg.data[0] != sid { continue; }
          if msg.data[1] == RESPONSE_PENDING {
            waitUntil := WaitDeadline(parent, item.at, config.responsePendingTimeout);
            continue;
          }
          return NegativeResponse(msg, msg.data[1]);
        }
        if msg.sid == PositiveSid(sid) { return Response(msg); }
      }
      assert items[i..] == [];
      if waitUntil.None? { return Blocked; }
      return Expired(parent, waitUntil.value);
    }

    /** Drain, send, wait, and stop polling however the wait ends. `reply` is
        what the caller gets back. */
    method SendAndRec(parent: Option<int>, nad: byte, payload: seq<byte>, timeout: int, w: World)
      returns (r: Result, reply: Option<(byte, seq<byte>)>)
      modifies this
      ensures reply == Reply(r)
      ensures r == Attempt(config, parent, nad, payload, timeout, w)
      ensures payload != [] ==> received == []
      ensures requests == old(requests) + if payload != [] && w.accepts then [LinMessage(nad, payload[0], payload[1..])] else []
      ensures awaiting == (old(awaiting) && !r.Ended?)
    {
      if |payload| == 0 { return EmptyRequest, None; }
      received := received + w.stale;
      Drain();
      if !w.accepts { return SendFailed, None; }
      requests, awaiting := requests + [LinMessage(nad, payload[0], payload[1..])], true;
      var outcome := AwaitResponse(parent, nad, payload[0], WaitDeadline(parent, w.start, timeout), Reaching(w));
      awaiting := false;
      if outcome.Response? || outcome.NegativeResponse? {
        return Ended(outcome), Some((outcome.msg.nad, [outcome.msg.sid] + outcome.msg.data));
      }
      return Ended(outcome), None;
    }

    /** Repeats a request only after a response timeout and only for a service
        identifier enabled for it. `worlds` gives the world of every attempt;
        `attempts` counts those made. */
    method SendAndRecWithRetries(nad: byte, payload: seq<byte>, timeout: int, worlds: nat -> World)
      returns (r: Result, reply: Option<(byte, seq<byte>)>, ghost attempts: nat)
      modifies this
      ensures reply == Reply(r)
      ensures payload == [] ==> r == EmptyRequest && attempts == 0 && requests == old(requests)
      ensures payload != [] ==>
        && var limit := if timeout <= 0 then config.defaultTimeout else timeout;
        && var retries := if Retryable(config, payload[0]) && config.maxRetries > 0 then config.maxRetries else 0;
        && 1 <= attempts <= 1 + retries
        && (r == Ended(TimedOut) ==> attempts == 1 + retries)
        && r == Attempt(config, None, nad, payload, limit, worlds(attempts - 1))
        && AllTimedOut(config, nad, payload, limit, worlds, attempts - 1)
        && requests == old(requests) + Sent(nad, payload, worlds, attempts)
      ensures awaiting ==> old(awaiting) && !r.Ended?
    {
      attempts := 0;
      if |payload| == 0 { return EmptyRequest, None, 0; }
      var limit := timeout;
      if limit <= 0 { limit := config.defaultTimeout; }
      var maxRetries := 0;
      if Retryable(config, payload[0]) && config.maxRetries > 0 {
        maxRetries := config.maxRetries;
      }
      var attempt := 0;
      while true
        invariant 0 <= attempt <= maxRetries && attempts == attempt
        invariant AllTimedOut(config, nad, payload, limit, worlds, attempt)
        invariant requests == old(requests) + Sent(nad, payload, worlds, attempt)
        invariant awaiting ==> old(awaiting)
        decreases maxRetries - attempt
      {
        r, reply := SendAndRec(None, nad, payload, limit, worlds(attempt));
        attempts := attempts + 1;
        if r != Ended(TimedOut) || attempt >= maxRetries { return r, reply, attempts; }
        OneMoreTimedOut(config, nad, payload, limit, worlds, attempt);
        attempt := attempt + 1;
      }
    }
  }

  /** The requests that `n` attempts put into the transmit queue. */
  function Sent(nad: byte, payload: seq<byte>, worlds: nat -> World, n: nat): (r: seq<LinMessage>)
    requires payload != []
    ensures |r| <= n
  {
    if n == 0 then []
    else Sent(nad, payload, worlds, n - 1) + if worlds(n - 1).accepts then [LinMessage(nad, payload[0], payload[1..])] else []
  }

  /** Every queued request of a retried exchange is the same request. */
  lemma {:induction false} SentAreRequests(nad: byte, payload: seq<byte>, worlds: nat -> World, n: nat)
    requires payload != []
    ensures forall m <- Sent(nad, payload, worlds, n) :: m == LinMessage(nad, payload[0], payload[1..])
  {
    if n > 0 { SentAreRequests(nad, payload, worlds, n - 1); }
  }

  /** Selection: a request is answered - positively or negatively - with `o` if
      and only if `o` is what the first message after the drain means that
      matches the address and decides, everything up to it having come within
      the deadline in force and no failure, old or new, before it. */
  lemma AnsweredIff(c: ClientConfig, parent: Option<int>, nad: byte, payload: seq<byte>, timeout: int, w: World, o: Outcome)
    requires payload != [] && w.accepts
    ensures var verdict := ByClient(nad, payload[0]);
      (Attempt(c, parent, nad, payload, timeout, w) == Ended(o) && (o.Response? || o.NegativeResponse?))
      <==> exists j :: 0 <= j < |Reaching(w)|
             && DecidedBy(verdict, parent, Some(c.responsePendingTimeout), WaitDeadline(parent, w.start, timeout), Reaching(w), j)
             && o == Meaning(verdict, Reaching(w)[j].msg)
  {
    var verdict := ByClient(nad, payload[0]);
    var p2 := Some(c.responsePendingTimeout);
    var deadline := WaitDeadline(parent, w.start, timeout);
    var items := Reaching(w);
    forall j | 0 <= j < |items| && DecidedBy(verdict, parent, p2, deadline, items, j)
      ensures Wait(verdict, parent, p2, deadline, items) == Meaning(verdict, items[j].msg)
    {
      DecidedWait(verdict, parent, p2, deadline, items, j);
    }
    var got := Wait(verdict, parent, p2, deadline, items);
    if got.Response? || got.NegativeResponse? {
      var j := WaitDecided(verdict, parent, p2, deadline, items);
    }
  }

  /** A sent request's wait gets to item `j` and ends there with `o`. */
  predicate EndsFor(c: ClientConfig, parent: Option<int>, nad: byte, payload: seq<byte>, timeout: int, w: World, j: nat, o: Outcome)
    requires payload != [] && j <= |Reaching(w)|
  {
    && GetsTo(ByClient(nad, payload[0]), parent, w.start, timeout, c.responsePendingTimeout, Reaching(w), j)
    && EndsAt(ByClient(nad, payload[0]), parent, w.start, timeout, c.responsePendingTimeout, Reaching(w), j, o)
  }

  /** How an attempt ends: at once for an empty or a refused request, and
      otherwise as its wait does. */
  lemma AttemptEnds(c: ClientConfig, parent: Option<int>, nad: byte, payload: seq<byte>, timeout: int, w: World) returns (j: nat)
    ensures var r := Attempt(c, parent, nad, payload, timeout, w);
      if payload == [] then r == EmptyRequest
      else if !w.accepts then r == SendFailed
      else r.Ended? && j <= |Reaching(w)| && EndsFor(c, parent, nad, payload, timeout, w, j, r.outcome)
  {
    j := 0;
    if payload != [] && w.accepts {
      j := WaitStops(ByClient(nad, payload[0]), parent, w.start, timeout, c.responsePendingTimeout, Reaching(w), 0);
      WaitOutcome(ByClient(nad, payload[0]), parent, w.start, timeout, c.responsePendingTimeout, Reaching(w), j);
    }
  }

  /** The caller gets the answering address and the identifier and data of the
      answer, positive or negative, and nothing otherwise. */
  lemma ReplyIs(r: Result)
    ensures Reply(r) ==
      if r.Ended? && (r.outcome.Response? || r.outcome.NegativeResponse?)
      then Some((r.outcome.msg.nad, [r.outcome.msg.sid] + r.outcome.msg.data)) else None
  {}

  /** Only the items up to `j` matter to it. */
  lemma AnswersPrefix(verdict: LinMessage -> Verdict, parent: Option<int>, start: int, timeout: int, p2: int, a: seq<Item>, b: seq<Item>, j: nat, o: Outcome)
    requires j < |a| && j < |b| && a[..j + 1] == b[..j + 1]
    requires AnswersAt(verdict, parent, start, timeout, p2, a, j, o)
    ensures AnswersAt(verdict, parent, start, timeout, p2, b, j, o)
  {
    assert forall i :: 0 <= i <= j ==> a[i] == a[..j + 1][i] == b[i];
    forall i | 0 <= i <= j ensures Running(verdict, parent, start, timeout, p2, b, i, b[i].at) {
      assert Running(verdict, parent, start, timeout, p2, a, i, a[i].at);
      RunningPrefix(verdict, parent, start, timeout, p2, a, b, i);
    }
  }

  lemma RunningPrefix(verdict: LinMessage -> Verdict, parent: Option<int>, start: int, timeout: int, p2: int, a: seq<Item>, b: seq<Item>, i: nat)
    requires i < |a| && i < |b| && forall k :: 0 <= k <= i ==> a[k] == b[k]
    requires Running(verdict, parent, start, timeout, p2, a, i, a[i].at)
    ensures Running(verdict, parent, start, timeout, p2, b, i, b[i].at)
  {
    assert NonePending(verdict, b, i) ==> NonePending(verdict, a, i);
    forall k: nat | k < i && LastPending(verdict, b, i, k) ensures LastPending(verdict, a, i, k) {}
  }

  /** An old error is out of the way of message `j`: there is none, or the wait
      takes that message, there already, before it. */
  predicate BeforeFault(w: World, j: nat)
    requires j < |w.items|
  {
    w.fault ==> j < w.place && forall i :: 0 <= i <= j ==> w.items[i].at <= w.start
  }

  lemma {:induction false} ReadyCovers(items: seq<Item>, start: int, j: nat)
    requires j < |items|
    ensures j < Ready(items, start) <==> forall i :: 0 <= i <= j ==> items[i].at <= start
  {
    if items[0].at <= start && j > 0 {
      ReadyCovers(items[1..], start, j - 1);
      assert forall i :: 1 <= i <= j ==> items[i] == items[1..][i - 1];
    }
  }

  /** What reaches the wait is what arrived, up to an old error. */
  lemma ReachingAt(w: World, j: nat)
    requires j < |w.items| && BeforeFault(w, j)
    ensures j < |Reaching(w)| && Reaching(w)[..j + 1] == w.items[..j + 1]
  {
    ReadyCovers(w.items, w.start, j);
  }

  lemma ReachingFrom(w: World, j: nat)
    requires j < |Reaching(w)| && forall i :: 0 <= i <= j ==> Reaching(w)[i].Arrive?
    ensures j < |w.items| && BeforeFault(w, j)
  {
    if w.fault {
      var n := Min(w.place, Ready(w.items, w.start));
      assert Reaching(w)[n] == Fault(w.start);
      ReadyCovers(w.items, w.start, j);
    }
  }

  /** The answer to a request, from what arrives alone: the first message after
      the drain that matches the address and decides, everything up to it having
      come while the wait ran - the timer restarted by each pending response -
      and no failure, old or new, before it. */
  lemma AnsweredExactly(c: ClientConfig, parent: Option<int>, nad: byte, payload: seq<byte>, timeout: int, w: World, o: Outcome)
    requires payload != [] && w.accepts && (o.Response? || o.NegativeResponse?)
    ensures Attempt(c, parent, nad, payload, timeout, w) == Ended(o)
            <==> exists j :: 0 <= j < |w.items| && BeforeFault(w, j)
                   && AnswersAt(ByClient(nad, payload[0]), parent, w.start, timeout, c.responsePendingTimeout, w.items, j, o)
  {
    var verdict, p2 := ByClient(nad, payload[0]), c.responsePendingTimeout;
    WaitAnsweredIff(verdict, parent, w.start, timeout, p2, Reaching(w), o);
    if j :| 0 <= j < |w.items| && BeforeFault(w, j) && AnswersAt(verdict, parent, w.start, timeout, p2, w.items, j, o) {
      ReachingAt(w, j);
      AnswersPrefix(verdict, parent, w.start, timeout, p2, w.items, Reaching(w), j, o);
    }
    if j :| 0 <= j < |Reaching(w)| && AnswersAt(verdict, parent, w.start, timeout, p2, Reaching(w), j, o) {
      ReachingFrom(w, j);
      ReachingAt(w, j);
      AnswersPrefix(verdict, parent, w.start, timeout, p2, Reaching(w), w.items, j, o);
    }
  }

  /** An error left by an earlier exchange: the request can only be answered by
      a message that is there when its wait starts. */
  lemma OldFault(c: ClientConfig, parent: Option<int>, nad: byte, payload: seq<byte>, timeout: int, w: World, o: Outcome)
    requires payload != [] && w.accepts && w.fault
    requires Attempt(c, parent, nad, payload, timeout, w) == Ended(o) && (o.Response? || o.NegativeResponse?)
    ensures exists j :: 0 <= j < |w.items| && w.items[j].Arrive? && w.items[j].at <= w.start && w.items[j].msg == o.msg
  {
    AnsweredIff(c, parent, nad, payload, timeout, w, o);
    var verdict, items := ByClient(nad, payload[0]), Reaching(w);
    var n := Min(w.place, Ready(w.items, w.start));
    var j :| 0 <= j < |items|
      && DecidedBy(verdict, parent, Some(c.responsePendingTimeout), WaitDeadline(parent, w.start, timeout), items, j)
      && o == Meaning(verdict, items[j].msg);
    assert items[n] == Fault(w.start);
    assert j < n;
    assert items[j] == w.items[j];
  }

  /** And when no message is there yet, the request ends as a transport failure
      at once, however healthy the transport is by now. */
  lemma OldFaultFails(c: ClientConfig, parent: Option<int>, nad: byte, payload: seq<byte>, timeout: int, w: World)
    requires payload != [] && w.accepts && w.fault && Before(w.start, WaitDeadline(parent, w.start, timeout))
    requires w.items == [] || w.items[0].at > w.start
    ensures Attempt(c, parent, nad, payload, timeout, w) == Ended(TransportFailed)
  {
    assert Reaching(w)[0] == Fault(w.start);
  }

  /** With a positive timeout a request cannot block for ever: it ends by an
      answer, a failure, the end of its context or its deadline. */
  lemma {:induction false} NeverBlocked(verdict: LinMessage -> Verdict, parent: Option<int>, p2: int, deadline: int, items: seq<Item>)
    requires p2 > 0
    ensures Wait(verdict, parent, Some(p2), Some(deadline), items) != Blocked
    decreases items
  {
    if items != [] && items[0].at < deadline && items[0].Arrive? {
      var m := items[0].msg;
      if verdict(m) == Skip {
        NeverBlocked(verdict, parent, p2, deadline, items[1..]);
      } else if verdict(m) == Pending {
        NeverBlocked(verdict, parent, p2, WaitDeadline(parent, items[0].at, p2).value, items[1..]);
      }
    }
  }
}
