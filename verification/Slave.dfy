/** The slave's request processor: what one request does, what a run of
    requests does, and the loop body that ties it to the transport. */
module Slave {
  import opened LinTypes
  import opened Framing
  import opened Bus
  import opened Cycle
  import opened Simulation
  import opened Transport

  type word = x: int | 0 <= x < 0x1_0000

  const READ_BY_IDENTIFIER: byte := 0xB2
  const ASSIGN_NAD: byte := 0xB0
  const SAVE_CONFIGURATION: byte := 0xB6
  const NEGATIVE_RESPONSE: byte := 0x7F
  const BROADCAST_SUPPLIER: word := 0x7FFF
  const BROADCAST_FUNCTION: word := 0xFFFF

  function Le16(w: word): seq<byte> { [w % 256, w / 256] }

  function FromLe16(lo: byte, hi: byte): word { lo as int + 256 * hi as int }

  function PositiveSid(sid: byte): byte { (sid as int + 0x40) % 256 }

  datatype Identity = Identity(supplier: word, function_: word, variant: byte, serial: seq<byte>)

  datatype SlaveState = SlaveState(nad: byte, savedNad: byte)

  predicate MatchesId(id: Identity, supplier: word, function_: word) {
    && (supplier == id.supplier || supplier == BROADCAST_SUPPLIER)
    && (function_ == id.function_ || function_ == BROADCAST_FUNCTION)
  }

  /** The bytes of an identifier; None for an unsupported one. An empty serial
      number copies to a nil slice, which reads as unsupported. */
  function IdBytes(id: Identity, kind: byte): Option<seq<byte>> {
    if kind == 0 then Some(Le16(id.supplier) + Le16(id.function_) + [id.variant])
    else if kind == 1 && id.serial != [] then Some(id.serial)
    else None
  }

  function Negative(nad: byte, sid: byte, code: byte): LinMessage { LinMessage(nad, NEGATIVE_RESPONSE, [sid, code]) }

  predicate Addressed(st: SlaveState, msg: LinMessage) { msg.nad == st.nad || msg.nad == BROADCAST_NAD }

  /** An AssignNad request this slave acts on. */
  predicate Assigns(id: Identity, st: SlaveState, msg: LinMessage) {
    && Addressed(st, msg) && msg.sid == ASSIGN_NAD && |msg.data| >= 5
    && MatchesId(id, FromLe16(msg.data[0], msg.data[1]), FromLe16(msg.data[2], msg.data[3]))
  }

  function AnswerRead(id: Identity, st: SlaveState, msg: LinMessage): Option<LinMessage> {
    if |msg.data| < 5 then Some(Negative(st.nad, msg.sid, 0x13))
    else if !MatchesId(id, FromLe16(msg.data[1], msg.data[2]), FromLe16(msg.data[3], msg.data[4])) then None
    else
      match IdBytes(id, msg.data[0])
      case Some(bytes) => Some(LinMessage(st.nad, PositiveSid(msg.sid), bytes))
      case None => Some(Negative(st.nad, msg.sid, 0x12))
  }

  /** One request: the new addresses and the response handed to Transmit. */
  function Handle(id: Identity, st: SlaveState, msg: LinMessage): (SlaveState, Option<LinMessage>) {
    if !Addressed(st, msg) then (st, None)
    else if msg.sid == READ_BY_IDENTIFIER then (st, AnswerRead(id, st, msg))
    else if msg.sid == SAVE_CONFIGURATION then
      (st.(savedNad := st.nad), Some(LinMessage(st.nad, PositiveSid(msg.sid), [])))
    else if Assigns(id, st, msg) then
      (st.(nad := msg.data[4]), Some(LinMessage(st.nad, PositiveSid(msg.sid), [])))
    else (st, None)
  }

  // ------------------------------------------------ one request, in terms of its bytes

  /** A supplier and function identifier, low bytes first, that mean this slave:
      its own, or the wildcards 0x7FFF and 0xFFFF. */
  predicate NamesSlave(id: Identity, bytes: seq<byte>)
    requires |bytes| == 4
  {
    var supplier, function_ := bytes[0] as int + 0x100 * bytes[1] as int, bytes[2] as int + 0x100 * bytes[3] as int;
    (supplier == id.supplier || supplier == 0x7FFF) && (function_ == id.function_ || function_ == 0xFFFF)
  }

  /** Requests to other addresses, and other services, change and answer
      nothing. */
  lemma IgnoredRequest(id: Identity, st: SlaveState, msg: LinMessage)
    requires (msg.nad != st.nad && msg.nad != 0x7F) || (msg.sid != 0xB2 && msg.sid != 0xB6 && msg.sid != 0xB0)
    ensures Handle(id, st, msg) == (st, None)
  {}

  /** ReadByIdentifier: a short request is refused as badly formatted, one for
      another slave is not answered, and a slave answers with the identifier, or
      refuses one it does not have. */
  lemma ReadRequestHandled(id: Identity, st: SlaveState, msg: LinMessage)
    requires (msg.nad == st.nad || msg.nad == 0x7F) && msg.sid == 0xB2
    ensures Handle(id, st, msg).0 == st
    ensures var r := Handle(id, st, msg).1;
      if |msg.data| < 5 then r == Some(LinMessage(st.nad, 0x7F, [0xB2, 0x13]))
      else if !NamesSlave(id, msg.data[1..5]) then r == None
      else if msg.data[0] == 0 then r.Some? && CarriesIdentity(id, st, r.value)
      else if msg.data[0] == 1 && id.serial != [] then r == Some(LinMessage(st.nad, 0xF2, id.serial))
      else r == Some(LinMessage(st.nad, 0x7F, [0xB2, 0x12]))
  {}

  /** The answer with the product identifier: supplier and function, low bytes
      first, and variant. */
  predicate CarriesIdentity(id: Identity, st: SlaveState, m: LinMessage) {
    && m.nad == st.nad && m.sid == 0xF2 && |m.data| == 5
    && m.data[0] as int + 0x100 * m.data[1] as int == id.supplier
    && m.data[2] as int + 0x100 * m.data[3] as int == id.function_
    && m.data[4] == id.variant
  }

  /** SaveConfiguration keeps the address in force and confirms. */
  lemma SaveHandled(id: Identity, st: SlaveState, msg: LinMessage)
    requires (msg.nad == st.nad || msg.nad == 0x7F) && msg.sid == 0xB6
    ensures Handle(id, st, msg) == (SlaveState(st.nad, st.nad), Some(LinMessage(st.nad, 0xF6, [])))
  {}

  /** AssignNad takes the new address, confirms from the old one and leaves the
      saved one alone; a short one, or one for another slave, does nothing. */
  lemma AssignHandled(id: Identity, st: SlaveState, msg: LinMessage)
    requires (msg.nad == st.nad || msg.nad == 0x7F) && msg.sid == 0xB0
    ensures Handle(id, st, msg) ==
      if |msg.data| >= 5 && NamesSlave(id, msg.data[..4])
      then (SlaveState(msg.data[4], st.savedNad), Some(LinMessage(st.nad, 0xF0, [])))
      else (st, None)
  {}

  // ------------------------------------------------ runs of requests

  /** The addresses after the requests `ms`. */
  function StateAfter(id: Identity, st: SlaveState, ms: seq<LinMessage>): SlaveState {
    if ms == [] then st
    else Handle(id, StateAfter(id, st, ms[..|ms| - 1]), ms[|ms| - 1]).0
  }

  /** The responses actually queued when the transmit queue takes the response
      to request `i` just when `fits[i]`. */
  function Queued(id: Identity, st: SlaveState, ms: seq<LinMessage>, fits: seq<bool>): seq<LinMessage>
    requires |fits| == |ms|
  {
    if ms == [] then []
    else
      var n := |ms| - 1;
      Queued(id, st, ms[..n], fits[..n])
      + (if fits[n] then OptSeq(Handle(id, StateAfter(id, st, ms[..n]), ms[n]).1) else [])
  }

  /** Request `i` is an AssignNad the slave acts on when it gets to it. */
  predicate AssignsAt(id: Identity, st: SlaveState, ms: seq<LinMessage>, i: nat)
    requires i < |ms|
  {
    Assigns(id, StateAfter(id, st, ms[..i]), ms[i])
  }

  lemma AssignsInit(id: Identity, st: SlaveState, ms: seq<LinMessage>, i: nat)
    requires i < |ms| - 1
    ensures AssignsAt(id, st, ms[..|ms| - 1], i) == AssignsAt(id, st, ms, i)
  {
    assert ms[..|ms| - 1][..i] == ms[..i];
  }

  /** The slave's address is the one the last accepted AssignNad gave it, or
      the initial one; it does not depend on what the transmit queue had room
      for. */
  lemma {:induction false} NadIsLastAssigned(id: Identity, st: SlaveState, ms: seq<LinMessage>) returns (last: int)
    ensures -1 <= last < |ms|
    ensures forall j :: last < j < |ms| ==> !AssignsAt(id, st, ms, j)
    ensures last >= 0 ==> AssignsAt(id, st, ms, last) && StateAfter(id, st, ms).nad == ms[last].data[4]
    ensures last == -1 ==> StateAfter(id, st, ms).nad == st.nad
  {
    last := -1;
    if ms != [] {
      var n := |ms| - 1;
      var init := ms[..n];
      last := NadIsLastAssigned(id, st, init);
      forall i | 0 <= i < n ensures AssignsAt(id, st, ms, i) == AssignsAt(id, st, init, i) {
        AssignsInit(id, st, ms, i);
      }
      if AssignsAt(id, st, ms, n) { last := n; }
    }
  }

  /** Request `i` was answered with `r`: addressed to the slave, answered with
      the address held when it was taken (the old one for AssignNad), and with
      the positive or negative identifier of its service. */
  predicate AnswersRequest(id: Identity, st: SlaveState, ms: seq<LinMessage>, i: nat, r: LinMessage)
    requires i < |ms|
  {
    var held := StateAfter(id, st, ms[..i]);
    && Addressed(held, ms[i]) && r.nad == held.nad
    && (r.sid == PositiveSid(ms[i].sid) || (r.sid == NEGATIVE_RESPONSE && |r.data| == 2 && r.data[0] == ms[i].sid))
  }

  lemma AnswersMore(id: Identity, st: SlaveState, ms: seq<LinMessage>, i: nat, r: LinMessage)
    requires i < |ms| - 1 && AnswersRequest(id, st, ms[..|ms| - 1], i, r)
    ensures AnswersRequest(id, st, ms, i, r)
  {
    assert ms[..|ms| - 1][..i] == ms[..i];
  }

  lemma AnswersLast(id: Identity, st: SlaveState, ms: seq<LinMessage>)
    requires ms != [] && Handle(id, StateAfter(id, st, ms[..|ms| - 1]), ms[|ms| - 1]).1.Some?
    ensures AnswersRequest(id, st, ms, |ms| - 1, Handle(id, StateAfter(id, st, ms[..|ms| - 1]), ms[|ms| - 1]).1.value)
  {}

  /** At most one response per request, in request order, none for requests
      addressed elsewhere. */
  lemma {:induction false} ResponsesMatchRequests(id: Identity, st: SlaveState, ms: seq<LinMessage>, fits: seq<bool>)
    returns (from: seq<nat>)
    requires |fits| == |ms|
    ensures var q := Queued(id, st, ms, fits);
      && |from| == |q| && Increasing(from, |ms|)
      && forall k :: 0 <= k < |q| ==> AnswersRequest(id, st, ms, from[k], q[k])
  {
    from := [];
    if ms != [] {
      var n := |ms| - 1;
      var init := ms[..n];
      var q := Queued(id, st, init, fits[..n]);
      from := ResponsesMatchRequests(id, st, init, fits[..n]);
      forall k | 0 <= k < |q| ensures AnswersRequest(id, st, ms, from[k], q[k]) {
        AnswersMore(id, st, ms, from[k], q[k]);
      }
      if fits[n] && Handle(id, StateAfter(id, st, init), ms[n]).1.Some? {
        AnswersLast(id, st, ms);
        IncreasingMore(from, n);
        from := from + [n];
      }
    }
  }

  // ------------------------------------------------ the object

  class LinSlave {
    const identity: Identity
    const transport: Transport
    var nad: byte
    var savedNad: byte

    constructor (nad: byte, identity: Identity, driver: SimulatedLinDriver, channel: byte)
      requires driver.isSlave
      ensures this.nad == nad && savedNad == 0 && this.identity == identity
      ensures fresh(transport) && transport.Valid() && transport.isSlave && transport.driver == driver
    {
      this.nad := nad;
      this.savedNad := 0;
      this.identity := identity;
      transport := new Transport(true, driver, TransportConfig(0, 0, 0, false), channel);
    }

    ghost function State(): SlaveState
      reads this
    {
      SlaveState(nad, savedNad)
    }

    ghost predicate Valid()
      reads this, transport
    {
      transport.Valid() && transport.isSlave
    }

    /** Queues a response; an error is logged and otherwise ignored. */
    method Respond(response: LinMessage)
      requires Valid()
      modifies transport
      ensures Valid() && transport.View() == Answered(transport.Cfg(), old(transport.closed), old(transport.View()), Some(response))
      ensures transport.closed == old(transport.closed)
      ensures transport.txQueue == old(transport.txQueue) +
        if Fits(transport.closed, transport.config.txQueueSize, |old(transport.txQueue)|, |response.data|)
        then Frames(true, transport.channel, Payloads(response)) else []
    {
      var r := transport.Transmit(response.nad, response.sid, response.data);
    }

    /** Acts on one message taken from the transport. */
    method Process(msg: LinMessage)
      requires Valid()
      modifies this, transport
      ensures Valid() && transport.closed == old(transport.closed)
      ensures var (st, response) := Handle(identity, old(State()), msg);
        && State() == st
        && transport.View() == Answered(transport.Cfg(), old(transport.closed), old(transport.View()), response)
        && transport.txQueue == old(transport.txQueue) +
             if response.Some?
                && Fits(old(transport.closed), transport.config.txQueueSize, |old(transport.txQueue)|, |response.value.data|)
             then Frames(true, transport.channel, Payloads(response.value)) else []
    {
      if msg.nad != nad && msg.nad != BROADCAST_NAD { return; }
      if msg.sid == READ_BY_IDENTIFIER {
        var response := AnswerRead(identity, SlaveState(nad, savedNad), msg);
        if response.Some? { Respond(response.value); }
      } else if msg.sid == SAVE_CONFIGURATION {
        savedNad := nad;
        Respond(LinMessage(nad, PositiveSid(msg.sid), []));
      } else if msg.sid == ASSIGN_NAD {
        if |msg.data| < 5 { return; }
        var supplier := FromLe16(msg.data[0], msg.data[1]);
        var function_ := FromLe16(msg.data[2], msg.data[3]);
        if MatchesId(identity, supplier, function_) {
          Respond(LinMessage(nad, PositiveSid(msg.sid), []));
          nad := msg.data[4];
        }
      }
    }

    /** One tick of the slave's loop: a transport cycle, then at most one
        received message processed. A closed transport ends it at once. */
    method Simulate(now: int)
      requires Valid() && transport.Attached()
      modifies this, transport, transport.driver.network`slaveResponses, transport.driver.network.Drivers()
      ensures Valid()
      ensures old(transport.closed) ==>
        && State() == old(State()) && transport.View() == old(transport.View())
        && transport.NetView(transport.driver) == old(transport.NetView(transport.driver))
      ensures !old(transport.closed) ==>
        && var c := transport.Cfg();
        var (n, net) := ExecuteCycle(c, true, old(transport.View()), old(transport.NetView(transport.driver)), now);
        && SameQueues(transport.NetView(transport.driver), net)
        && if n.rxq == [] then State() == old(State()) && transport.View() == n
           else
             var (st, response) := Handle(identity, old(State()), n.rxq[0]);
             State() == st && transport.View() == Answered(c, false, PopNode(n), response)
    {
      var r := transport.Execute(now, transport.driver);
      if r.Err? { return; }
      TakeAndProcess();
    }

    /** The part of a tick after the transport's cycle. */
    method TakeAndProcess()
      requires Valid()
      modifies this, transport
      ensures Valid() && transport.closed == old(transport.closed)
      ensures if old(transport.rxQueue) == [] then State() == old(State()) && transport.View() == old(transport.View())
              else
                var (st, response) := Handle(identity, old(State()), old(transport.rxQueue)[0]);
                State() == st
                && transport.View() == Answered(transport.Cfg(), old(transport.closed), PopNode(old(transport.View())), response)
    {
      var msg := transport.Receive();
      if msg.Some? { Process(msg.value); }
    }
  }

  /** An open transport's queue of that size, with so many frames in it, has
      room for a message of `n` data bytes. */
  predicate Fits(closed: bool, size: int, used: int, n: nat) {
    !closed && n <= 4094 && FrameTotal(n) <= size - used
  }

  /** The node after handing an optional response to Transmit. */
  function Answered(c: Config, closed: bool, n: Node, response: Option<LinMessage>): Node {
    if response.None? then n else TransmitResult(c, true, closed, n, response.value).0
  }
}
