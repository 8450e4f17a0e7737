/** The LIN master: requests over the transport, the wait for their responses,
    and the identifier service from end to end. */
module Master {
  import opened LinTypes
  import opened Framing
  import opened Reassembly
  import opened Bus
  import opened Simulation
  import opened Transport
  import opened Slave
  import opened Waiting

  function ReadRequest(nad: byte, identifier: byte, supplier: word, function_: word): LinMessage {
    LinMessage(nad, READ_BY_IDENTIFIER, [identifier] + Le16(supplier) + Le16(function_))
  }

  function AssignRequest(nad: byte, newNad: byte, supplier: word, function_: word): LinMessage {
    LinMessage(nad, ASSIGN_NAD, Le16(supplier) + Le16(function_) + [newNad])
  }

  datatype MasterError = NotQueued(error: TransportError) | Failed(outcome: Outcome) | InvalidPayload

  datatype Product = Product(nad: byte, supplier: word, function_: word, variant: byte)

  /** What waitForResponse returns for the items of a wait. The master's own
      wait has no parent context, and a pending response does not extend it. */
  function MasterWait(nad: byte, rsid: byte, deadline: int, items: seq<Item>): Outcome {
    Wait(MatchingMaster(nad, rsid), None, None, Some(deadline), items)
  }

  function Exchanged(o: Outcome): Result<LinMessage, MasterError> {
    if o.Response? then Ok(o.msg) else Err(Failed(o))
  }

  function DecodeProduct(r: Result<LinMessage, MasterError>): Result<Product, MasterError> {
    match r
    case Err(e) => Err(e)
    case Ok(m) =>
      if |m.data| < 5 then Err(InvalidPayload)
      else Ok(Product(m.nad, FromLe16(m.data[0], m.data[1]), FromLe16(m.data[2], m.data[3]), m.data[4]))
  }

  function DecodeSerial(r: Result<LinMessage, MasterError>): Result<(byte, seq<byte>), MasterError> {
    match r
    case Err(e) => Err(e)
    case Ok(m) => if |m.data| < 4 then Err(InvalidPayload) else Ok((m.nad, m.data[..4]))
  }

  class LinMaster {
    const transport: Transport

    constructor (driver: SimulatedLinDriver, config: TransportConfig, channel: byte)
      requires !driver.isSlave
      ensures fresh(transport) && transport.Valid() && !transport.isSlave && transport.driver == driver
    {
      transport := new Transport(false, driver, config, channel);
    }

    ghost predicate Valid()
      reads transport
    {
      transport.Valid() && !transport.isSlave
    }

    /** Consumes messages until one decides or the deadline passes. */
    method WaitForResponse(rsid: byte, nad: byte, deadline: int, items: seq<Item>) returns (r: Outcome)
      ensures r == MasterWait(nad, rsid, deadline, items)
    {
      var i := 0;
      while i < |items|
        invariant 0 <= i <= |items|
        invariant MasterWait(nad, rsid, deadline, items[i..]) == MasterWait(nad, rsid, deadline, items)
      {
        var item := items[i];
        assert items[i..][0] == item && items[i..][1..] == items[i + 1..];
        if item.at >= deadline { return TimedOut; }
        if item.Fault? || item.Shut? { return TransportFailed; }
        if item.Cancel? { return ContextEnded; }
        var msg := item.msg;
        i := i + 1;
        if nad != BROADCAST_NAD && msg.nad != nad { continue; }
        if msg.sid == rsid { return Response(msg); }
        if msg.sid == NEGATIVE_RESPONSE {
          var requested := (rsid as int + 0x100 - 0x40) % 0x100;
          if |msg.data| >= 2 && msg.data[0] == requested {
            if msg.data[1] == RESPONSE_PENDING { continue; }
            return NegativeResponse(msg, msg.data[1]);
          }
        }
      }
      assert items[i..] == [];
      return TimedOut;
    }

    /** What the transport was before a request. */
    ghost function Was(): (q: Outbox)
      reads transport
    {
      Outbox(transport.closed, transport.channel, transport.config.txQueueSize, transport.txQueue)
    }

    /** Sends a request, waits for its response and stops polling. */
    method Exchange(request: LinMessage, deadline: int, items: seq<Item>) returns (r: Result<LinMessage, MasterError>)
      requires Valid()
      modifies transport
      ensures Valid()
      ensures (transport.View(), r)
              == ExchangeResult(transport.Cfg(), old(transport.closed), old(transport.View()), request, deadline, items)
      ensures ExchangeDone(old(Was()), transport.txQueue, transport.awaitingSlaveResponse, request, deadline, items, r)
      ensures transport.rxQueue == old(transport.rxQueue)
    {
      var queued := transport.Transmit(request.nad, request.sid, request.data);
      if queued.Err? { return Err(NotQueued(queued.error)); }
      var outcome := WaitForResponse(PositiveSid(request.sid), request.nad, deadline, items);
      ExchangeIff(request, deadline, items, Exchanged(outcome));
      transport.SetAwaitingSlaveResponse(false);
      return Exchanged(outcome);
    }

    method ReadByIdentifier(identifier: byte, supplier: word, function_: word, nad: byte, deadline: int, items: seq<Item>)
      returns (r: Result<LinMessage, MasterError>)
      requires Valid()
      modifies transport
      ensures Valid()
      ensures (transport.View(), r)
              == ExchangeResult(transport.Cfg(), old(transport.closed), old(transport.View()),
                                ReadRequest(nad, identifier, supplier, function_), deadline, items)
      ensures ExchangeDone(old(Was()), transport.txQueue, transport.awaitingSlaveResponse,
                           ReadRequest(nad, identifier, supplier, function_), deadline, items, r)
    {
      r := Exchange(ReadRequest(nad, identifier, supplier, function_), deadline, items);
    }

    /** From a slave that is asked, whatever other messages come before its
        answer: its identity. */
    method GetSlaveProductIdentifier(supplier: word, function_: word, nad: byte, deadline: int, items: seq<Item>)
      returns (r: Result<Product, MasterError>)
      requires Valid()
      modifies transport
      ensures Valid()
      ensures exists e ::
        && ExchangeDone(old(Was()), transport.txQueue, transport.awaitingSlaveResponse,
                        ReadRequest(nad, 0, supplier, function_), deadline, items, e)
        && ProductOf(e, r)
      ensures forall id, st, s, m ::
        Asks(id, st, nad, supplier, function_) && Sends(old(Was()), 5)
        && Brings(items, deadline, ReadRequest(nad, 0, supplier, function_),
                  OverTheWire(id, st, s, m, ReadRequest(nad, 0, supplier, function_)))
        ==> r == Ok(Product(st.nad, id.supplier, id.function_, id.variant))
    {
      var response := ReadByIdentifier(0, supplier, function_, nad, deadline, items);
      ghost var request := ReadRequest(nad, 0, supplier, function_);
      forall id, st, s, m |
        Asks(id, st, nad, supplier, function_) && Brings(items, deadline, request, OverTheWire(id, st, s, m, request))
        ensures DecodeProduct(Exchanged(MasterWait(nad, PositiveSid(request.sid), deadline, items)))
                == Ok(Product(st.nad, id.supplier, id.function_, id.variant))
      {
        ProductRoundTrip(id, st, s, m, nad, supplier, function_, deadline, items);
      }
      if response.Err? { return Err(response.error); }
      var m := response.value;
      if |m.data| < 5 { return Err(InvalidPayload); }
      return Ok(Product(m.nad, FromLe16(m.data[0], m.data[1]), FromLe16(m.data[2], m.data[3]), m.data[4]));
    }

    /** From a slave that is asked: the first four bytes of its serial number,
        when it has so many and its transport can carry them. */
    method GetSlaveSerialNumber(supplier: word, function_: word, nad: byte, deadline: int, items: seq<Item>)
      returns (r: Result<(byte, seq<byte>), MasterError>)
      requires Valid()
      modifies transport
      ensures Valid()
      ensures exists e ::
        && ExchangeDone(old(Was()), transport.txQueue, transport.awaitingSlaveResponse,
                        ReadRequest(nad, 1, supplier, function_), deadline, items, e)
        && SerialOf(e, r)
      ensures forall id, st, s, m ::
        Asks(id, st, nad, supplier, function_) && Sends(old(Was()), 5)
        && Brings(items, deadline, ReadRequest(nad, 1, supplier, function_),
                  OverTheWire(id, st, s, m, ReadRequest(nad, 1, supplier, function_)))
        ==> SerialOutcome(id, st, r)
    {
      var response := ReadByIdentifier(1, supplier, function_, nad, deadline, items);
      ghost var request := ReadRequest(nad, 1, supplier, function_);
      forall id, st, s, m |
        Asks(id, st, nad, supplier, function_) && Brings(items, deadline, request, OverTheWire(id, st, s, m, request))
        ensures SerialOutcome(id, st, DecodeSerial(Exchanged(MasterWait(nad, PositiveSid(request.sid), deadline, items))))
      {
        SerialRoundTrip(id, st, s, m, nad, supplier, function_, deadline, items);
      }
      if response.Err? { return Err(response.error); }
      var m := response.value;
      if |m.data| < 4 { return Err(InvalidPayload); }
      return Ok((m.nad, m.data[..4]));
    }

    /** Returns the address the slave answered from: of a slave that is asked,
        the one it had before. */
    method AssignSlaveNad(newNad: byte, supplier: word, function_: word, nad: byte, deadline: int, items: seq<Item>)
      returns (r: Result<byte, MasterError>)
      requires Valid()
      modifies transport
      ensures Valid()
      ensures exists e ::
        && ExchangeDone(old(Was()), transport.txQueue, transport.awaitingSlaveResponse,
                        AssignRequest(nad, newNad, supplier, function_), deadline, items, e)
        && r == if e.Err? then Err(e.error) else Ok(e.value.nad)
      ensures forall id, st, s, m ::
        Asks(id, st, nad, supplier, function_) && Sends(old(Was()), 5)
        && Brings(items, deadline, AssignRequest(nad, newNad, supplier, function_),
                  OverTheWire(id, st, s, m, AssignRequest(nad, newNad, supplier, function_)))
        ==> r == Ok(st.nad)
    {
      ghost var request := AssignRequest(nad, newNad, supplier, function_);
      var response := Exchange(AssignRequest(nad, newNad, supplier, function_), deadline, items);
      forall id, st, s, m |
        Asks(id, st, nad, supplier, function_) && Brings(items, deadline, request, OverTheWire(id, st, s, m, request))
        ensures Exchanged(MasterWait(nad, PositiveSid(request.sid), deadline, items)) == Ok(LinMessage(st.nad, 0xF0, []))
      {
        AssignRoundTrip(id, st, s, m, nad, newNad, supplier, function_);
        BroughtOne(request, LinMessage(st.nad, 0xF0, []), deadline, items);
      }
      if response.Err? { return Err(response.error); }
      return Ok(response.value.nad);
    }
  }

  // ------------------------------------------------ what an exchange does

  /** The transport before a request: closed or not, its channel, the size of
      its transmit queue and what is in it. */
  datatype Outbox = Outbox(closed: bool, channel: byte, size: int, txq: seq<LinEvent>)

  /** The transport takes a request of `n` data bytes. */
  predicate Sends(was: Outbox, n: nat) { Fits(was.closed, was.size, |was.txq|, n) }

  /** An exchange: a request the transport does not take changes nothing; any
      other is queued behind what was there, polling is over afterwards, and the
      result is that of the wait. */
  predicate ExchangeDone(was: Outbox, txq: seq<LinEvent>, awaiting: bool, request: LinMessage, deadline: int, items: seq<Item>, r: Result<LinMessage, MasterError>) {
    if Sends(was, |request.data|) then
      && txq == was.txq + Frames(false, was.channel, Payloads(request)) && !awaiting
      && exists j :: 0 <= j <= |items| && ExchangeEnds(request, deadline, items, j, r)
    else
      && txq == was.txq
      && r == Err(NotQueued(if |request.data| > 4094 then MessageTooLong
                            else if was.closed then TransportClosed else TxQueueFull))
  }

  /** The wait for a response gets to item `j`, or to the end, and ends there:
      with the response, a refusal, a failure, a cancellation or - at the end, or
      at an item that comes too late - a timeout. */
  predicate ExchangeEnds(request: LinMessage, deadline: int, items: seq<Item>, j: nat, r: Result<LinMessage, MasterError>)
    requires j <= |items|
  {
    var verdict := ByMaster(request.nad, request.sid);
    && StillWaiting(verdict, deadline, items, j)
    && if j == |items| || items[j].at >= deadline then r == Err(Failed(TimedOut))
       else
         match items[j]
         case Fault(_) => r == Err(Failed(TransportFailed))
         case Shut(_) => r == Err(Failed(TransportFailed))
         case Cancel(_) => r == Err(Failed(ContextEnded))
         case Arrive(_, m) =>
           match verdict(m)
           case Positive => r == Ok(m)
           case Refused(code) => r == Err(Failed(NegativeResponse(m, code)))
           case _ => false
  }

  /** There is one such end, and it is the result of the exchange. */
  lemma ExchangeIff(request: LinMessage, deadline: int, items: seq<Item>, r: Result<LinMessage, MasterError>)
    ensures Exchanged(MasterWait(request.nad, PositiveSid(request.sid), deadline, items)) == r
            <==> exists j :: 0 <= j <= |items| && ExchangeEnds(request, deadline, items, j, r)
  {
    var verdict := ByMaster(request.nad, request.sid);
    SameWait(request.nad, request.sid, deadline, items);
    forall j | 0 <= j <= |items| && ExchangeEnds(request, deadline, items, j, r)
      ensures Exchanged(Wait(verdict, None, None, Some(deadline), items)) == r
    {
      FixedOutcome(verdict, deadline, items, j);
    }
    var j := FixedStops(verdict, deadline, items, 0);
    FixedOutcome(verdict, deadline, items, j);
    assert ExchangeEnds(request, deadline, items, j, Exchanged(Wait(verdict, None, None, Some(deadline), items)));
  }

  /** The identity a response carries, low bytes first. */
  predicate ProductOf(e: Result<LinMessage, MasterError>, r: Result<Product, MasterError>) {
    if e.Err? then r == Err(e.error)
    else if |e.value.data| < 5 then r == Err(InvalidPayload)
    else
      var d := e.value.data;
      && r.Ok? && r.value.nad == e.value.nad && r.value.variant == d[4]
      && r.value.supplier == d[0] as int + 0x100 * d[1] as int
      && r.value.function_ == d[2] as int + 0x100 * d[3] as int
  }

  predicate SerialOf(e: Result<LinMessage, MasterError>, r: Result<(byte, seq<byte>), MasterError>) {
    if e.Err? then r == Err(e.error)
    else if |e.value.data| < 4 then r == Err(InvalidPayload)
    else r == Ok((e.value.nad, e.value.data[..4]))
  }

  /** A request and its wait: the transport afterwards and the result. */
  function ExchangeResult(c: Config, closed: bool, n: Node, request: LinMessage, deadline: int, items: seq<Item>)
    : (Node, Result<LinMessage, MasterError>)
  {
    var (n', queued) := TransmitResult(c, false, closed, n, request);
    if queued.Err? then (n', Err(NotQueued(queued.error)))
    else (n'.(awaiting := false), Exchanged(MasterWait(request.nad, PositiveSid(request.sid), deadline, items)))
  }

  // ------------------------------------------------ the identifier service

  /** The master's verdict as the wait uses it. */
  lemma SameWait(nad: byte, sid: byte, deadline: int, items: seq<Item>)
    ensures MasterWait(nad, PositiveSid(sid), deadline, items)
            == Wait(ByMaster(nad, sid), None, None, Some(deadline), items)
  {}

  lemma Le16RoundTrip(w: word)
    ensures FromLe16(Le16(w)[0], Le16(w)[1]) == w
  {}

  /** The messages a slave in state `st` sends for the requests its receiver
      makes of a stream of payloads: those its transport can carry. */
  function SlaveAnswers(id: Identity, st: SlaveState, reqs: seq<LinMessage>): seq<Sendable>
    decreases reqs
  {
    if reqs == [] then []
    else
      var (st', r) := Handle(id, st, reqs[0]);
      (if r.Some? && |r.value.data| <= MAX_DATA then [r.value] else []) + SlaveAnswers(id, st', reqs[1..])
  }

  /** Everything between the master's request and what its receiver delivers:
      segmentation, the slave's reassembly in any state `s`, the slave's
      answers, their segmentation and the master's reassembly in any state
      `m`. */
  function OverTheWire(id: Identity, st: SlaveState, s: RxState, m: RxState, req: Sendable): seq<LinMessage> {
    Outputs(m, AllPayloads(SlaveAnswers(id, st, Outputs(s, Payloads(req)))))
  }

  lemma OneAnswer(id: Identity, st: SlaveState, s: RxState, m: RxState, req: Sendable)
    ensures var r := Handle(id, st, req).1;
      OverTheWire(id, st, s, m, req) == if r.Some? && |r.value.data| <= MAX_DATA then [r.value] else []
  {
    RoundTrip(s, req);
    assert [req][1..] == [] && SlaveAnswers(id, Handle(id, st, req).0, []) == [];
    AllRoundTrip(m, SlaveAnswers(id, st, [req]));
  }

  /** A request with that address and those identifiers means this slave, by
      its own or by the wildcards. */
  predicate Asks(id: Identity, st: SlaveState, nad: byte, supplier: word, function_: word) {
    && (nad == st.nad || nad == 0x7F)
    && (supplier == id.supplier || supplier == 0x7FFF) && (function_ == id.function_ || function_ == 0xFFFF)
  }

  lemma ReadIsHandled(id: Identity, st: SlaveState, nad: byte, identifier: byte, supplier: word, function_: word)
    ensures var (st', r) := Handle(id, st, ReadRequest(nad, identifier, supplier, function_));
      && st' == st
      && if !Asks(id, st, nad, supplier, function_) then r == None
         else if identifier == 0 then r.Some? && CarriesIdentity(id, st, r.value)
         else if identifier == 1 && id.serial != [] then r == Some(LinMessage(st.nad, 0xF2, id.serial))
         else r == Some(LinMessage(st.nad, 0x7F, [0xB2, 0x12]))
  {
    var req := ReadRequest(nad, identifier, supplier, function_);
    Le16RoundTrip(supplier);
    Le16RoundTrip(function_);
    assert req.data[1..3] == Le16(supplier) && req.data[3..5] == Le16(function_);
    assert req.data[1] == Le16(supplier)[0] && req.data[2] == Le16(supplier)[1];
    assert req.data[3] == Le16(function_)[0] && req.data[4] == Le16(function_)[1];
  }

  /** The messages `ms`, at most one, reach the wait for an answer to `request`:
      in time, and behind nothing but messages that leave it waiting. */
  predicate Brings(items: seq<Item>, deadline: int, request: LinMessage, ms: seq<LinMessage>) {
    var verdict := ByMaster(request.nad, request.sid);
    if ms == [] then StillWaiting(verdict, deadline, items, |items|)
    else exists j :: 0 <= j < |items| && BroughtAt(items, deadline, request, ms[0], j)
  }

  predicate BroughtAt(items: seq<Item>, deadline: int, request: LinMessage, m: LinMessage, j: nat)
    requires j < |items|
  {
    && StillWaiting(ByMaster(request.nad, request.sid), deadline, items, j)
    && items[j].Arrive? && items[j].msg == m && items[j].at < deadline
  }

  lemma BroughtOne(request: LinMessage, m: LinMessage, deadline: int, items: seq<Item>)
    requires Brings(items, deadline, request, [m]) && (request.nad == 0x7F || m.nad == request.nad)
    ensures var o := MasterWait(request.nad, PositiveSid(request.sid), deadline, items);
      && (m.sid == PositiveSid(request.sid) ==> o == Response(m))
      && (m == LinMessage(m.nad, 0x7F, [request.sid, 0x12]) && request.sid != 0x3F ==> o == NegativeResponse(m, 0x12))
  {
    var j :| 0 <= j < |items| && BroughtAt(items, deadline, request, m, j);
    SameWait(request.nad, request.sid, deadline, items);
    MasterVerdictIs(request.nad, PositiveSid(request.sid), m);
    FixedOutcome(ByMaster(request.nad, request.sid), deadline, items, j);
  }

  lemma BroughtNone(request: LinMessage, deadline: int, items: seq<Item>)
    requires Brings(items, deadline, request, [])
    ensures MasterWait(request.nad, PositiveSid(request.sid), deadline, items) == TimedOut
  {
    SameWait(request.nad, request.sid, deadline, items);
    FixedOutcome(ByMaster(request.nad, request.sid), deadline, items, |items|);
  }

  /** Product identifier round trip: exactly the slave's identity, for every
      identity, matching or wildcard request and receiver states. */
  lemma ProductRoundTrip(id: Identity, st: SlaveState, s: RxState, m: RxState, nad: byte, supplier: word, function_: word, deadline: int, items: seq<Item>)
    requires Asks(id, st, nad, supplier, function_)
    requires Brings(items, deadline, ReadRequest(nad, 0, supplier, function_),
                    OverTheWire(id, st, s, m, ReadRequest(nad, 0, supplier, function_)))
    ensures DecodeProduct(Exchanged(MasterWait(nad, PositiveSid(READ_BY_IDENTIFIER), deadline, items)))
            == Ok(Product(st.nad, id.supplier, id.function_, id.variant))
  {
    var req := ReadRequest(nad, 0, supplier, function_);
    ReadIsHandled(id, st, nad, 0, supplier, function_);
    OneAnswer(id, st, s, m, req);
    var answer := Handle(id, st, req).1.value;
    BroughtOne(req, answer, deadline, items);
    IdentityDecoded(id, st, answer);
  }

  lemma IdentityDecoded(id: Identity, st: SlaveState, m: LinMessage)
    requires CarriesIdentity(id, st, m)
    ensures DecodeProduct(Exchanged(Response(m))) == Ok(Product(st.nad, id.supplier, id.function_, id.variant))
  {}

  /** What comes of a request for the serial number: its first four bytes
      exactly when it has 4 to 4094. A shorter one is an invalid payload, an
      empty one an unsupported identifier, a longer one never answered. */
  predicate SerialOutcome(id: Identity, st: SlaveState, r: Result<(byte, seq<byte>), MasterError>) {
    if 4 <= |id.serial| <= 4094 then r == Ok((st.nad, id.serial[..4]))
    else if 1 <= |id.serial| < 4 then r == Err(InvalidPayload)
    else if id.serial == [] then r == Err(Failed(NegativeResponse(LinMessage(st.nad, 0x7F, [0xB2, 0x12]), 0x12)))
    else r == Err(Failed(TimedOut))
  }

  lemma SerialRoundTrip(id: Identity, st: SlaveState, s: RxState, m: RxState, nad: byte, supplier: word, function_: word, deadline: int, items: seq<Item>)
    requires Asks(id, st, nad, supplier, function_)
    requires Brings(items, deadline, ReadRequest(nad, 1, supplier, function_),
                    OverTheWire(id, st, s, m, ReadRequest(nad, 1, supplier, function_)))
    ensures SerialOutcome(id, st, DecodeSerial(Exchanged(MasterWait(nad, PositiveSid(READ_BY_IDENTIFIER), deadline, items))))
  {
    var req := ReadRequest(nad, 1, supplier, function_);
    ReadIsHandled(id, st, nad, 1, supplier, function_);
    OneAnswer(id, st, s, m, req);
    if |id.serial| > MAX_DATA {
      BroughtNone(req, deadline, items);
    } else {
      BroughtOne(req, Handle(id, st, req).1.value, deadline, items);
    }
  }

  lemma AssignIsHandled(id: Identity, st: SlaveState, nad: byte, newNad: byte, supplier: word, function_: word)
    requires Asks(id, st, nad, supplier, function_)
    ensures Handle(id, st, AssignRequest(nad, newNad, supplier, function_))
            == (SlaveState(newNad, st.savedNad), Some(LinMessage(st.nad, 0xF0, [])))
  {
    var req := AssignRequest(nad, newNad, supplier, function_);
    assert req.data[..4] == Le16(supplier) + Le16(function_);
    assert req.data[4] == newNad;
    AssignHandled(id, st, req);
  }

  /** Changing the address end to end: the answer comes from the old address,
      and afterwards the slave answers at the new one and no longer at the old
      (unless that is the same or the broadcast address). */
  lemma AssignRoundTrip(id: Identity, st: SlaveState, s: RxState, m: RxState, nad: byte, newNad: byte, supplier: word, function_: word)
    requires Asks(id, st, nad, supplier, function_)
    ensures var req := AssignRequest(nad, newNad, supplier, function_);
      var st' := Handle(id, st, req).0;
      && OverTheWire(id, st, s, m, req) == [LinMessage(st.nad, 0xF0, [])]
      && st'.nad == newNad && st'.savedNad == st.savedNad
      && Asks(id, st', newNad, supplier, function_)
      && (Asks(id, st', st.nad, supplier, function_) <==> st.nad == newNad || st.nad == BROADCAST_NAD)
  {
    AssignIsHandled(id, st, nad, newNad, supplier, function_);
    OneAnswer(id, st, s, m, AssignRequest(nad, newNad, supplier, function_));
  }
}
