/** The simulated bus: a response slot per (channel, frame identifier) and a
    bounded event queue per driver and channel. */
module Simulation {
  import opened LinTypes
  import opened Bus

  type Queues = map<byte, seq<LinEvent>>

  function QueueOf(qs: Queues, channel: byte): seq<LinEvent> {
    if channel in qs then qs[channel] else []
  }

  /** pushEvent: only the event's own channel is touched, a full queue drops. */
  function Pushed(qs: Queues, ev: LinEvent): (r: Queues)
    ensures var q := QueueOf(qs, ev.channel); QueueOf(r, ev.channel) == if |q| < 20 then q + [ev] else q
    ensures forall ch: byte :: ch != ev.channel ==> QueueOf(r, ch) == QueueOf(qs, ch)
  {
    qs[ev.channel := Push(QueueOf(qs, ev.channel), ev)]
  }

  type Slots = map<(byte, byte), LinEvent>

  class SimulatedLinNetwork {
    var slaveResponses: Slots
    var masterDriver: SimulatedLinDriver?
    var slaveDrivers: seq<SimulatedLinDriver>

    ghost predicate Valid()
      reads this
    {
      && (masterDriver != null ==> !masterDriver.isSlave && masterDriver.network == this)
      && (forall i :: 0 <= i < |slaveDrivers| ==> slaveDrivers[i].isSlave && slaveDrivers[i].network == this)
      && (forall i, j :: 0 <= i < j < |slaveDrivers| ==> slaveDrivers[i] != slaveDrivers[j])
      && (forall k <- slaveResponses :: slaveResponses[k].channel == k.0 && slaveResponses[k].id == k.1)
    }

    /** Every driver attached to the network. */
    ghost function Drivers(): set<object>
      reads this
    {
      (set d | d in slaveDrivers) + (if masterDriver == null then {} else {masterDriver})
    }

    constructor ()
      ensures Valid() && slaveResponses == map[] && masterDriver == null && slaveDrivers == []
    {
      slaveResponses := map[];
      masterDriver := null;
      slaveDrivers := [];
    }

    /** The master's driver, made on first use. */
    method GetMasterDriver() returns (d: SimulatedLinDriver)
      requires Valid()
      modifies this`masterDriver
      ensures Valid() && masterDriver == d && !d.isSlave && d.network == this
      ensures old(masterDriver) == null ==> fresh(d) && d.eventQueues == map[]
      ensures old(masterDriver) != null ==> d == old(masterDriver)
    {
      if masterDriver == null {
        masterDriver := new SimulatedLinDriver(this, false);
      }
      d := masterDriver;
    }

    /** A new driver for one more slave. */
    method CreateSlaveDriver() returns (d: SimulatedLinDriver)
      requires Valid()
      modifies this`slaveDrivers
      ensures Valid() && fresh(d) && d.isSlave && d.network == this && d.eventQueues == map[]
      ensures slaveDrivers == old(slaveDrivers) + [d]
    {
      d := new SimulatedLinDriver(this, true);
      slaveDrivers := slaveDrivers + [d];
    }

    /** Broadcasts one event to the slaves, in order. */
    method Broadcast(ev: LinEvent)
      requires Valid()
      modifies slaveDrivers
      ensures forall d <- slaveDrivers :: d.eventQueues == Pushed(old(d.eventQueues), ev)
    {
      var i := 0;
      while i < |slaveDrivers|
        invariant 0 <= i <= |slaveDrivers|
        invariant forall j :: 0 <= j < i ==> slaveDrivers[j].eventQueues == Pushed(old(slaveDrivers[j].eventQueues), ev)
        invariant forall j :: i <= j < |slaveDrivers| ==> slaveDrivers[j].eventQueues == old(slaveDrivers[j].eventQueues)
      {
        slaveDrivers[i].PushEvent(ev);
        i := i + 1;
      }
    }

    /** The master hears its own frame as TX, every slave as RX. */
    method WriteMessage(ev: LinEvent)
      requires Valid()
      modifies Drivers()
      ensures masterDriver != null ==>
        masterDriver.eventQueues == Pushed(old(masterDriver.eventQueues), ev.(direction := TX))
      ensures forall d <- slaveDrivers :: d.eventQueues == Pushed(old(d.eventQueues), ev.(direction := RX))
    {
      if masterDriver != null { masterDriver.PushEvent(ev.(direction := TX)); }
      Broadcast(ev.(direction := RX));
    }

    /** Empties the slot: its frame reaches the master as RX and every slave as
        TX. An empty slot answers nothing. */
    method RequestSlaveResponse(id: byte, channel: byte)
      requires Valid()
      modifies this`slaveResponses, Drivers()
      ensures Valid()
      ensures (channel, id) !in old(slaveResponses) ==>
        && slaveResponses == old(slaveResponses)
        && (masterDriver != null ==> masterDriver.eventQueues == old(masterDriver.eventQueues))
        && forall d <- slaveDrivers :: d.eventQueues == old(d.eventQueues)
      ensures (channel, id) in old(slaveResponses) ==>
        && var ev := old(slaveResponses)[(channel, id)];
        && slaveResponses == old(slaveResponses) - {(channel, id)}
        && (masterDriver != null ==>
              masterDriver.eventQueues == Pushed(old(masterDriver.eventQueues), ev.(direction := RX)))
        && forall d <- slaveDrivers :: d.eventQueues == Pushed(old(d.eventQueues), ev.(direction := TX))
    {
      if (channel, id) !in slaveResponses { return; }
      var result := slaveResponses[(channel, id)];
      slaveResponses := slaveResponses - {(channel, id)};
      if masterDriver != null { masterDriver.PushEvent(result.(direction := RX)); }
      Broadcast(result.(direction := TX));
    }

    method ScheduleSlaveResponse(ev: LinEvent)
      requires Valid()
      modifies this`slaveResponses
      ensures Valid()
      ensures slaveResponses == old(slaveResponses)[(ev.channel, ev.id) := ev]
    {
      slaveResponses := slaveResponses[(ev.channel, ev.id) := ev];
    }
  }

  class SimulatedLinDriver {
    const isSlave: bool
    const network: SimulatedLinNetwork
    var eventQueues: Queues

    constructor (network: SimulatedLinNetwork, isSlave: bool)
      ensures this.network == network && this.isSlave == isSlave && eventQueues == map[]
    {
      this.network := network;
      this.isSlave := isSlave;
      eventQueues := map[];
    }

    method PushEvent(ev: LinEvent)
      modifies this
      ensures eventQueues == Pushed(old(eventQueues), ev)
    {
      var q := QueueOf(eventQueues, ev.channel);
      if |q| < EVENT_QUEUE { q := q + [ev]; }
      eventQueues := eventQueues[ev.channel := q];
    }

    /** The oldest event of the channel, or None when there is none. */
    method ReadEvent(channel: byte) returns (r: Option<LinEvent>)
      modifies this
      ensures var q := QueueOf(old(eventQueues), channel);
        if q == [] then r == None && QueueOf(eventQueues, channel) == []
        else r == Some(q[0]) && QueueOf(eventQueues, channel) == q[1..]
      ensures forall ch: byte :: ch != channel ==> QueueOf(eventQueues, ch) == QueueOf(old(eventQueues), ch)
    {
      var q := QueueOf(eventQueues, channel);
      if q == [] {
        r := None;
      } else {
        r := Some(q[0]);
        q := q[1..];
      }
      eventQueues := eventQueues[channel := q];
    }

    /** A slave's driver ignores master frames. */
    method WriteMessage(ev: LinEvent, channel: byte)
      requires network.Valid()
      modifies network.Drivers()
      ensures isSlave ==> forall d <- network.slaveDrivers :: d.eventQueues == old(d.eventQueues)
      ensures isSlave && network.masterDriver != null ==>
        network.masterDriver.eventQueues == old(network.masterDriver.eventQueues)
      ensures !isSlave ==> forall d <- network.slaveDrivers ::
        d.eventQueues == Pushed(old(d.eventQueues), ev.(channel := channel, direction := RX))
      ensures !isSlave && network.masterDriver != null ==>
        network.masterDriver.eventQueues
        == Pushed(old(network.masterDriver.eventQueues), ev.(channel := channel, direction := TX))
    {
      if !isSlave { network.WriteMessage(ev.(channel := channel)); }
    }

    /** A slave's driver requests nothing. */
    method RequestSlaveResponse(id: byte, channel: byte)
      requires network.Valid()
      modifies network`slaveResponses, network.Drivers()
      ensures network.Valid()
      ensures isSlave || (channel, id) !in old(network.slaveResponses) ==>
        && network.slaveResponses == old(network.slaveResponses)
        && (network.masterDriver != null ==> network.masterDriver.eventQueues == old(network.masterDriver.eventQueues))
        && forall d <- network.slaveDrivers :: d.eventQueues == old(d.eventQueues)
      ensures !isSlave && (channel, id) in old(network.slaveResponses) ==>
        && var ev := old(network.slaveResponses)[(channel, id)];
        && network.slaveResponses == old(network.slaveResponses) - {(channel, id)}
        && (network.masterDriver != null ==>
              network.masterDriver.eventQueues == Pushed(old(network.masterDriver.eventQueues), ev.(direction := RX)))
        && forall d <- network.slaveDrivers :: d.eventQueues == Pushed(old(d.eventQueues), ev.(direction := TX))
    {
      if !isSlave { network.RequestSlaveResponse(id, channel); }
    }

    /** A master's driver ignores slave responses. */
    method ScheduleSlaveResponse(ev: LinEvent, channel: byte)
      requires network.Valid()
      modifies network`slaveResponses
      ensures network.Valid()
      ensures network.slaveResponses ==
        if isSlave then old(network.slaveResponses)[(channel, ev.id) := ev.(channel := channel)]
        else old(network.slaveResponses)
    {
      if isSlave { network.ScheduleSlaveResponse(ev.(channel := channel)); }
    }
  }
}
