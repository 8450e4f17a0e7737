/** The transport object over the simulated bus. Every method is proved against
    the function the machine uses for the same code. */
module Transport {
  import opened LinTypes
  import opened Framing
  import opened Reassembly
  import opened History
  import opened Bus
  import opened BusInvariants
  import opened Cycle
  import opened Simulation

  /** Durations are integers; zero or negative values ask for the default. */
  datatype TransportConfig = TransportConfig(txQueueSize: int, rxQueueSize: int, multiFrameTimeout: int,
                                             continuousSlavePoll: bool)

  const DEFAULT_RX_QUEUE: nat := 10
  /** One second, in milliseconds. */
  const DEFAULT_MULTI_FRAME_TIMEOUT: nat := 1000
  const ERROR_QUEUE: nat := 16

  function Normalize(c: TransportConfig): TransportConfig {
    TransportConfig(if c.txQueueSize <= 0 then DEFAULT_TX_QUEUE else c.txQueueSize,
                    if c.rxQueueSize <= 0 then DEFAULT_RX_QUEUE else c.rxQueueSize,
                    if c.multiFrameTimeout <= 0 then DEFAULT_MULTI_FRAME_TIMEOUT else c.multiFrameTimeout,
                    c.continuousSlavePoll)
  }

  /** The queues and the slot agree; histories are not compared. */
  predicate SameQueues(a: Net, b: Net) { a.slot == b.slot && a.mq == b.mq && a.sq == b.sq }

  class Transport {
    const isSlave: bool
    const driver: SimulatedLinDriver
    const channel: byte
    const config: TransportConfig

    var txQueue: seq<LinEvent>
    var rxQueue: seq<LinMessage>
    var scheduledTxEvent: Option<LinEvent>
    var awaitingSlaveResponse: bool

    var currentFrameData: seq<byte>
    var currentSID: byte
    var currentNAD: byte
    var currentFrameCounter: byte
    var remainingBytes: nat
    var multiFrameStartTime: int

    var closed: bool
    var errors: seq<TransportError>
    var receiveErrors: seq<TransportError>

    ghost var log: Log

    constructor (isSlave: bool, driver: SimulatedLinDriver, config: TransportConfig, channel: byte)
      requires driver.isSlave == isSlave
      ensures this.isSlave == isSlave && this.driver == driver && this.channel == channel
      ensures this.config == Normalize(config)
      ensures var c := this.config;
        && c.txQueueSize == (if config.txQueueSize > 0 then config.txQueueSize else 683)
        && c.rxQueueSize == (if config.rxQueueSize > 0 then config.rxQueueSize else 10)
        && c.multiFrameTimeout == (if config.multiFrameTimeout > 0 then config.multiFrameTimeout else 1000)
        && c.continuousSlavePoll == config.continuousSlavePoll
      ensures Valid() && View() == EMPTY_NODE && !closed
    {
      this.isSlave := isSlave;
      this.driver := driver;
      this.channel := channel;
      this.config := Normalize(config);
      txQueue, rxQueue, scheduledTxEvent, awaitingSlaveResponse := [], [], None, false;
      currentFrameData, currentSID, currentNAD, currentFrameCounter, remainingBytes := [], 0, 0, 0, 0;
      multiFrameStartTime := 0;
      closed, errors, receiveErrors := false, [], [];
      log := EMPTY_LOG;
    }

    ghost function RxView(): Rx
      reads this
    {
      Rx(RxState(currentFrameData, currentSID, currentNAD, currentFrameCounter, remainingBytes), multiFrameStartTime)
    }

    /** The object as a node of the machine. */
    ghost function View(): Node
      reads this
    {
      Node(txQueue, rxQueue, RxView(), awaitingSlaveResponse, scheduledTxEvent, log)
    }

    ghost function Cfg(): Config
      requires config == Normalize(config)
    {
      Config(channel, config.txQueueSize, config.rxQueueSize, config.multiFrameTimeout, config.continuousSlavePoll)
    }

    /** Queued and scheduled frames are this transport's own. */
    ghost predicate Valid()
      reads this
    {
      && config == Normalize(config) && driver.isSlave == isSlave
      && AllBuilt(isSlave, channel, txQueue)
      && (scheduledTxEvent.Some? ==> Built(isSlave, channel, scheduledTxEvent.value))
    }

    /** The driver belongs to a valid network. */
    ghost predicate Attached()
      reads driver.network
    {
      && driver.network.Valid()
      && if isSlave then driver in driver.network.slaveDrivers else driver.network.masterDriver == driver
    }

    /** The network as this channel and the driver `peer` see it. */
    ghost function NetView(peer: SimulatedLinDriver): Net
      reads driver.network, driver.network.masterDriver, peer
    {
      var n := driver.network;
      Net(if (channel, SLAVE_DIAGNOSTIC_ID) in n.slaveResponses then Some(n.slaveResponses[(channel, SLAVE_DIAGNOSTIC_ID)]) else None,
          if n.masterDriver == null then [] else QueueOf(n.masterDriver.eventQueues, channel),
          QueueOf(peer.eventQueues, channel), [], [], false, false, false)
    }

    // ------------------------------------------------ receiving

    method ReportError(e: TransportError)
      modifies this`errors, this`receiveErrors
      ensures errors == if |old(errors)| < 16 then old(errors) + [e] else old(errors)
      ensures receiveErrors == if |old(receiveErrors)| < 16 then old(receiveErrors) + [e] else old(receiveErrors)
    {
      if |errors| < ERROR_QUEUE { errors := errors + [e]; }
      if |receiveErrors| < ERROR_QUEUE { receiveErrors := receiveErrors + [e]; }
    }

    method DeliverMessage(msg: LinMessage)
      requires Valid()
      modifies this`rxQueue, this`errors, this`receiveErrors, this`log
      ensures View() == Complete(config.rxQueueSize, old(View()), msg)
      ensures |old(rxQueue)| < config.rxQueueSize ==>
        rxQueue == old(rxQueue) + [msg] && errors == old(errors) && receiveErrors == old(receiveErrors)
      ensures |old(rxQueue)| >= config.rxQueueSize ==>
        && rxQueue == old(rxQueue)
        && errors == (if |old(errors)| < 16 then old(errors) + [RxQueueFull] else old(errors))
        && receiveErrors == (if |old(receiveErrors)| < 16 then old(receiveErrors) + [RxQueueFull] else old(receiveErrors))
    {
      log := log.(completed := log.completed + [msg], overflow := log.overflow || |rxQueue| >= config.rxQueueSize);
      if |rxQueue| < config.rxQueueSize {
        rxQueue := rxQueue + [msg];
      } else {
        ReportError(RxQueueFull);
      }
    }

    method ResetState()
      modifies this`currentFrameData, this`currentSID, this`currentNAD, this`currentFrameCounter,
               this`remainingBytes, this`multiFrameStartTime
      ensures RxView() == FRESH
    {
      currentFrameData := [];
      currentSID := 0;
      currentNAD := 0;
      currentFrameCounter := 0;
      remainingBytes := 0;
      multiFrameStartTime := 0;
    }

    method CheckMultiFrameTimeout(now: int)
      requires Valid()
      modifies this`currentFrameData, this`currentSID, this`currentNAD, this`currentFrameCounter,
               this`remainingBytes, this`multiFrameStartTime, this`log
      ensures View() == Expire(Cfg(), old(View()), now)
    {
      if remainingBytes > 0 && now - multiFrameStartTime > config.multiFrameTimeout {
        log := log.(expired := true);
        ResetState();
      }
    }

    /** The consecutive-frame branch. */
    method ReceiveConsecutive(ev: LinEvent, ghost now: int) returns (done: bool)
      requires Valid() && Relevant(isSlave, ev) && IsConsecutive(ev.payload)
      modifies this`currentFrameData, this`currentSID, this`currentNAD, this`currentFrameCounter, this`remainingBytes,
               this`multiFrameStartTime, this`rxQueue, this`errors, this`receiveErrors, this`log
      ensures (View(), done) == ReceiveEvent(Cfg(), isSlave, old(View()), ev, now)
    {
      var payload := ev.payload;
      var next := (currentFrameCounter as int + 1) % 16;
      if remainingBytes == 0 || payload[1] as int % 16 != next {
        ResetState();
        return false;
      }
      var length := Min(remainingBytes, 6);
      if |payload| < 2 + length {
        ResetState();
        return false;
      }
      remainingBytes := remainingBytes - length;
      currentFrameData := currentFrameData + payload[2..2 + length];
      currentFrameCounter := next;
      if remainingBytes == 0 {
        CompleteMessage();
        return true;
      }
      return false;
    }

    /** Delivers what has been put together and starts afresh. */
    method CompleteMessage()
      requires Valid()
      modifies this`currentFrameData, this`currentSID, this`currentNAD, this`currentFrameCounter, this`remainingBytes,
               this`multiFrameStartTime, this`rxQueue, this`errors, this`receiveErrors, this`log
      ensures var s := old(RxView()).state;
        View() == Complete(config.rxQueueSize, old(View()).(rx := FRESH), LinMessage(s.nad, s.sid, s.data))
    {
      DeliverMessage(LinMessage(currentNAD, currentSID, currentFrameData));
      ResetState();
    }

    /** The single-frame branch. */
    method ReceiveSingle(ev: LinEvent, ghost now: int) returns (done: bool)
      requires Valid() && Relevant(isSlave, ev) && |ev.payload| >= 2 && PciType(ev.payload) == 0
      modifies this`currentFrameData, this`currentSID, this`currentNAD, this`currentFrameCounter, this`remainingBytes,
               this`multiFrameStartTime, this`rxQueue, this`errors, this`receiveErrors, this`log
      ensures (View(), done) == ReceiveEvent(Cfg(), isSlave, old(View()), ev, now)
    {
      var payload := ev.payload;
      ResetState();
      var dataLength := payload[1] as int % 16 - 1;
      if |payload| < 3 + dataLength || dataLength < 0 { return false; }
      DeliverMessage(LinMessage(payload[0], payload[2], payload[3..3 + dataLength]));
      return true;
    }

    /** The first-frame branch, which never completes a message. */
    method ReceiveFirst(ev: LinEvent, now: int)
      requires Valid() && Relevant(isSlave, ev) && |ev.payload| >= 2 && PciType(ev.payload) == 1
      modifies this`currentFrameData, this`currentSID, this`currentNAD, this`currentFrameCounter, this`remainingBytes,
               this`multiFrameStartTime
      ensures (View(), false) == ReceiveEvent(Cfg(), isSlave, old(View()), ev, now)
    {
      var payload := ev.payload;
      ResetState();
      if |payload| < 8 { return; }
      var length := payload[1] as int % 16 * 256 + payload[2] as int;
      if length <= 6 || length > MAX_DATA + 1 { return; }
      remainingBytes := length - 1 - 4;
      currentFrameData := payload[4..];
      currentNAD := payload[0];
      currentSID := payload[3];
      multiFrameStartTime := now;
    }

    /** A relevant frame of at least two bytes. */
    method Reassemble(ev: LinEvent, now: int) returns (done: bool)
      requires Valid() && Relevant(isSlave, ev) && |ev.payload| >= 2
      modifies this`currentFrameData, this`currentSID, this`currentNAD, this`currentFrameCounter, this`remainingBytes,
               this`multiFrameStartTime, this`rxQueue, this`errors, this`receiveErrors, this`log
      ensures (View(), done) == ReceiveEvent(Cfg(), isSlave, old(View()), ev, now)
    {
      var pciType := ev.payload[1] as int / 16;
      done := false;
      if pciType == 0 {
        done := ReceiveSingle(ev, now);
      } else if pciType == 1 {
        ReceiveFirst(ev, now);
      } else if pciType == 2 {
        done := ReceiveConsecutive(ev, now);
      }
    }

    /** Hands the oldest queued frame to the driver as the next response. */
    method ScheduleQueued(ghost peer: SimulatedLinDriver)
      requires Valid() && Attached() && isSlave && txQueue != []
      modifies this`txQueue, this`scheduledTxEvent, this`log, driver.network`slaveResponses
      ensures Valid() && Attached()
      ensures (View(), NetView(peer)) == ScheduleNext(Cfg(), old(View()), old(NetView(peer)))
    {
      var event := txQueue[0];
      txQueue := txQueue[1..];
      driver.ScheduleSlaveResponse(event, channel);
      log := log.(written := log.written + [event]);
      scheduledTxEvent := Some(event);
    }

    /** One event taken from the driver; reports a completed message. */
    method ReceiveFromDriver(ev: LinEvent, now: int, ghost peer: SimulatedLinDriver) returns (done: bool)
      requires Valid() && Attached()
      modifies this, driver.network`slaveResponses
      ensures Valid() && Attached() && closed == old(closed)
      ensures (View(), NetView(peer), done) == HandleEvent(Cfg(), isSlave, old(View()), old(NetView(peer)), ev, now)
    {
      if isSlave && ev.direction.TX? && scheduledTxEvent.Some? {
        if scheduledTxEvent.value.id == ev.id {
          scheduledTxEvent := None;
          if txQueue != [] { ScheduleQueued(peer); }
        }
        return false;
      }
      var masterReceiving := !isSlave && ev.id == SLAVE_DIAGNOSTIC_ID;
      var slaveReceiving := isSlave && ev.id == MASTER_DIAGNOSTIC_ID;
      if ev.direction.RX? && (masterReceiving || slaveReceiving) && |ev.payload| >= 2 {
        done := Reassemble(ev, now);
        return;
      }
      return false;
    }

    // ------------------------------------------------ execute

    predicate ShouldRequestSlaveResponse()
      reads this
    {
      config.continuousSlavePoll || awaitingSlaveResponse || remainingBytes > 0
    }

    /** Takes the oldest event of this channel from the driver. */
    method NextEvent(ghost peer: SimulatedLinDriver) returns (event: Option<LinEvent>)
      requires Valid() && Attached() && peer in driver.network.slaveDrivers && (isSlave ==> peer == driver)
      modifies this`log, driver
      ensures Valid() && Attached() && View() == CountRead(old(View()))
      ensures var net := old(NetView(peer));
        if QueueAt(isSlave, net) == [] then event == None && NetView(peer) == net
        else event == Some(QueueAt(isSlave, net)[0]) && NetView(peer) == PopQueue(isSlave, net)
    {
      event := driver.ReadEvent(channel);
      log := log.(readCalls := log.readCalls + 1);
    }

    /** Drains the driver's queue of this channel. */
    method ReadEvents(now: int, ghost peer: SimulatedLinDriver) returns (received: bool)
      requires Valid() && Attached() && peer in driver.network.slaveDrivers && (isSlave ==> peer == driver)
      modifies this, driver, driver.network`slaveResponses
      ensures Valid() && Attached() && closed == old(closed)
      ensures (View(), NetView(peer), received)
              == ReadLoop(Cfg(), isSlave, old(View()), old(NetView(peer)), false, now)
    {
      received := false;
      ghost var end := ReadLoop(Cfg(), isSlave, View(), NetView(peer), false, now);
      while true
        invariant Valid() && Attached() && closed == old(closed)
        invariant ReadLoop(Cfg(), isSlave, View(), NetView(peer), received, now) == end
        decreases |QueueAt(isSlave, NetView(peer))|
      {
        var event := NextEvent(peer);
        if event.None? { break; }
        var done := ReceiveFromDriver(event.value, now, peer);
        received := received || done;
      }
    }

    method WriteQueued(ghost peer: SimulatedLinDriver)
      requires Valid() && Attached() && !isSlave && peer in driver.network.slaveDrivers && txQueue != []
      modifies this`txQueue, this`log, driver.network.Drivers()
      ensures Valid() && Attached()
      ensures View() == MasterSend(Cfg(), old(View()), old(NetView(peer)), false).0
      ensures SameQueues(NetView(peer), NetWrite(Cfg(), old(NetView(peer)), old(txQueue)[0]))
    {
      var event := txQueue[0];
      txQueue := txQueue[1..];
      driver.WriteMessage(event, channel);
      log := log.(written := log.written + [event]);
    }

    method RequestHeader(ghost peer: SimulatedLinDriver)
      requires Valid() && Attached() && !isSlave && peer in driver.network.slaveDrivers
      modifies this`log, driver.network`slaveResponses, driver.network.Drivers()
      ensures Valid() && Attached()
      ensures View() == old(View()).(log := old(log).(requests := old(log).requests + 1))
      ensures SameQueues(NetView(peer), NetRequest(old(NetView(peer))))
    {
      driver.RequestSlaveResponse(SLAVE_DIAGNOSTIC_ID, channel);
      log := log.(requests := log.requests + 1);
    }

    /** The master's half of the cycle: one frame, or one header. */
    method SendAsMaster(received: bool, ghost peer: SimulatedLinDriver)
      requires Valid() && Attached() && !isSlave && peer in driver.network.slaveDrivers
      modifies this`txQueue, this`log, driver.network`slaveResponses, driver.network.Drivers()
      ensures Valid() && Attached()
      ensures var (n, net) := MasterSend(Cfg(), old(View()), old(NetView(peer)), received);
        View() == n && SameQueues(NetView(peer), net)
    {
      if txQueue != [] {
        WriteQueued(peer);
      } else if !received && ShouldRequestSlaveResponse() {
        RequestHeader(peer);
      }
    }

    /** The active part of a cycle. */
    method ReadAndSend(now: int, ghost peer: SimulatedLinDriver)
      requires Valid() && Attached() && peer in driver.network.slaveDrivers && (isSlave ==> peer == driver)
      modifies this, driver.network`slaveResponses, driver.network.Drivers()
      ensures Valid() && Attached() && closed == old(closed)
      ensures var (n1, net1, done) := ReadLoop(Cfg(), isSlave, old(View()), old(NetView(peer)), false, now);
        var (n, net) := if isSlave then SlaveSend(Cfg(), n1, net1) else MasterSend(Cfg(), n1, net1, done);
        View() == n && SameQueues(NetView(peer), net)
    {
      var received := ReadEvents(now, peer);
      if isSlave {
        if scheduledTxEvent.None? && txQueue != [] { ScheduleQueued(peer); }
      } else {
        SendAsMaster(received, peer);
      }
    }

    /** One processing cycle. It is exactly the uninterrupted run of the
        machine that MasterCycleRun and SlaveCycleRun speak about. */
    method Execute(now: int, ghost peer: SimulatedLinDriver) returns (r: Result<(), TransportError>)
      requires Valid() && Attached() && peer in driver.network.slaveDrivers && (isSlave ==> peer == driver)
      modifies this, driver.network`slaveResponses, driver.network.Drivers()
      ensures Valid() && Attached() && closed == old(closed)
      ensures closed ==> r == Err(TransportClosed) && View() == old(View()) && NetView(peer) == old(NetView(peer))
      ensures !closed ==>
        && r == Ok(())
        && var (n, net) := ExecuteCycle(Cfg(), isSlave, old(View()), old(NetView(peer)), now);
        View() == n && SameQueues(NetView(peer), net)
    {
      if closed { return Err(TransportClosed); }
      CheckMultiFrameTimeout(now);
      if isSlave || |txQueue| > 0 || ShouldRequestSlaveResponse() {
        ReadAndSend(now, peer);
      }
      return Ok(());
    }

    // ------------------------------------------------ the application side

    method Enqueue(frames: seq<LinEvent>)
      modifies this`txQueue
      ensures txQueue == old(txQueue) + frames
    {
      var i := 0;
      while i < |frames|
        invariant 0 <= i <= |frames|
        invariant txQueue == old(txQueue) + frames[..i]
      {
        txQueue := txQueue + [frames[i]];
        i := i + 1;
      }
      assert frames[..|frames|] == frames;
    }

    /** Queues all frames of a message or none. */
    method Transmit(nad: byte, sid: byte, data: seq<byte>) returns (r: Result<(), TransportError>)
      requires Valid()
      modifies this`txQueue, this`awaitingSlaveResponse, this`log
      ensures Valid()
      ensures (View(), r) == TransmitResult(Cfg(), isSlave, closed, old(View()), LinMessage(nad, sid, data))
      ensures r.Ok? <==> |data| <= 4094 && !closed && FrameTotal(|data|) <= config.txQueueSize - |old(txQueue)|
      ensures |data| > 4094 ==> r == Err(MessageTooLong)
      ensures |data| <= 4094 && closed ==> r == Err(TransportClosed)
      ensures |data| <= 4094 && !closed && r.Err? ==> r == Err(TxQueueFull)
      ensures r.Ok? ==>
        && txQueue == old(txQueue) + Frames(isSlave, channel, Payloads(LinMessage(nad, sid, data)))
        && awaitingSlaveResponse == (old(awaitingSlaveResponse) || !isSlave)
      ensures r.Err? ==> txQueue == old(txQueue) && awaitingSlaveResponse == old(awaitingSlaveResponse)
    {
      var built := BuildFrames(isSlave, channel, nad, sid, data);
      if built.Err? { return Err(built.error); }
      if closed { return Err(TransportClosed); }
      var frames := built.value;
      if |frames| > config.txQueueSize - |txQueue| { return Err(TxQueueFull); }
      PayloadSize(LinMessage(nad, sid, data));
      FramesBuilt(isSlave, channel, Payloads(LinMessage(nad, sid, data)));
      Enqueue(frames);
      log := log.(accepted := log.accepted + [LinMessage(nad, sid, data)]);
      if !isSlave { awaitingSlaveResponse := true; }
      return Ok(());
    }

    /** The oldest received message, if any. */
    method Receive() returns (msg: Option<LinMessage>)
      modifies this`rxQueue, this`log
      ensures View() == PopNode(old(View()))
      ensures if old(rxQueue) == [] then msg == None && rxQueue == []
              else msg == Some(old(rxQueue)[0]) && rxQueue == old(rxQueue)[1..]
    {
      if rxQueue == [] { return None; }
      msg := Some(rxQueue[0]);
      rxQueue := rxQueue[1..];
      log := log.(popped := log.popped + [msg.value]);
    }

    /** Marks the transport closed; what its goroutine does then is the subject
        of the lifecycle machine. */
    method Close()
      modifies this`closed
      ensures closed && View() == old(View())
    {
      closed := true;
    }

    method SetAwaitingSlaveResponse(awaiting: bool)
      modifies this`awaitingSlaveResponse
      ensures View() == old(View()).(awaiting := awaiting)
    {
      awaitingSlaveResponse := awaiting;
    }
  }

  /** A Transmit call: refused without effect, or all frames queued. */
  function TransmitResult(c: Config, isSlave: bool, closed: bool, n: Node, m: LinMessage): (Node, Result<(), TransportError>) {
    if |m.data| > MAX_DATA then (n, Err(MessageTooLong))
    else if closed then (n, Err(TransportClosed))
    else if Admit(c, isSlave, n, m).None? then (n, Err(TxQueueFull))
    else (Transmitted(c, isSlave, n, m), Ok(()))
  }
}
