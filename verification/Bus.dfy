/** One master transport, one slave transport and the simulated network on one
    channel, as a machine whose steps are the single shared-memory accesses of
    the source. Every lock-protected access and every channel operation is a
    step of its own; a run is any interleaving of them. */
module Bus {
  import opened LinTypes
  import opened Framing
  import opened Reassembly
  import opened History

  datatype Config = Config(channel: byte, txCap: nat, rxCap: nat, timeout: int, poll: bool)

  /** What happened at a node so far. `written` are the frames handed to
      WriteMessage (master) or ScheduleSlaveResponse (slave). */
  datatype Log = Log(accepted: seq<Sendable>, completed: seq<LinMessage>, popped: seq<LinMessage>,
                     written: seq<LinEvent>, readCalls: nat, requests: nat, expired: bool, overflow: bool)

  /** The fields of a transport that more than one goroutine touches, and the
      reassembly state. */
  datatype Node = Node(txq: seq<LinEvent>, rxq: seq<LinMessage>, rx: Rx, awaiting: bool,
                       scheduled: Option<LinEvent>, log: Log)

  /** The network: the response slot of 0x3D, the event queues of the two
      drivers, the slave frames put on the bus so far, the received payloads put
      into the slave's queue so far, and whether that queue ever dropped the
      first frame of a message, any received frame, or a confirmation. */
  datatype Net = Net(slot: Option<LinEvent>, mq: seq<LinEvent>, sq: seq<LinEvent>,
                     taken: seq<LinEvent>, heard: seq<seq<byte>>,
                     lostFirst: bool, lostRx: bool, lostTx: bool)

  /** Where the master's execute is. */
  datatype MPc =
    | MIdle | MLen | MFlag | MRead(done: bool) | MSelect(done: bool) | MDecide
    | MWrite(f: LinEvent) | MRequest | MPushM(ev: LinEvent) | MPushS(ev: LinEvent)

  /** Where the slave's execute is; `reading` says it is inside the read loop. */
  datatype SPc =
    | SIdle | SRead | SConfirm | SSelect
    | SSchedule(f: LinEvent, reading: bool) | SSet(f: LinEvent, reading: bool)

  // ------------------------------------------------ node operations

  function Complete(cap: nat, n: Node, m: LinMessage): Node {
    var full := |n.rxq| >= cap;
    n.(rxq := if full then n.rxq else n.rxq + [m],
       log := n.log.(completed := n.log.completed + [m], overflow := n.log.overflow || full))
  }

  /** receiveFromDriver on an event that is not a confirmation. */
  function ReceiveEvent(c: Config, isSlave: bool, n: Node, ev: LinEvent, now: int): (Node, bool) {
    var (rx, out) := RxEvent(isSlave, n.rx, ev, now);
    if out.Some? then (Complete(c.rxCap, n.(rx := rx), out.value), true) else (n.(rx := rx), false)
  }

  function Expire(c: Config, n: Node, now: int): Node {
    var rx := CheckTimeout(n.rx, c.timeout, now);
    n.(rx := rx, log := n.log.(expired := n.log.expired || rx != n.rx))
  }

  predicate ShouldRequest(c: Config, n: Node) {
    c.poll || n.awaiting || n.rx.state.remaining > 0
  }

  function CountRead(n: Node): Node { n.(log := n.log.(readCalls := n.log.readCalls + 1)) }

  // ------------------------------------------------ network operations

  function Push(q: seq<LinEvent>, ev: LinEvent): seq<LinEvent> {
    if |q| < EVENT_QUEUE then q + [ev] else q
  }

  function NetWrite(c: Config, net: Net, f: LinEvent): Net {
    net.(mq := Push(net.mq, f.(channel := c.channel, direction := TX)),
         sq := Push(net.sq, f.(channel := c.channel, direction := RX)),
         heard := if |net.sq| < EVENT_QUEUE then net.heard + [f.payload] else net.heard,
         lostFirst := net.lostFirst || (|net.sq| >= EVENT_QUEUE && IsFirst(f.payload)),
         lostRx := net.lostRx || |net.sq| >= EVENT_QUEUE)
  }

  // ------------------------------------------------ execute, access by access

  function MasterStep(c: Config, n: Node, net: Net, pc: MPc, now: int): (Node, Net, MPc) {
    match pc
    case MIdle => (Expire(c, n, now), net, MLen)
    case MLen => (n, net, if n.txq != [] then MRead(false) else MFlag)
    case MFlag => (n, net, if ShouldRequest(c, n) then MRead(false) else MIdle)
    case MRead(done) =>
      if net.mq == [] then (CountRead(n), net, MSelect(done))
      else
        var (n', complete) := ReceiveEvent(c, false, CountRead(n), net.mq[0], now);
        (n', net.(mq := net.mq[1..]), MRead(done || complete))
    case MSelect(done) =>
      if n.txq != [] then (n.(txq := n.txq[1..]), net, MWrite(n.txq[0]))
      else (n, net, if done then MIdle else MDecide)
    case MDecide => (n, net, if ShouldRequest(c, n) then MRequest else MIdle)
    case MWrite(f) => (n.(log := n.log.(written := n.log.written + [f])), NetWrite(c, net, f), MIdle)
    case MRequest =>
      var n' := n.(log := n.log.(requests := n.log.requests + 1));
      if net.slot.None? then (n', net, MIdle)
      else (n', net.(slot := None, taken := net.taken + [net.slot.value]), MPushM(net.slot.value))
    case MPushM(ev) => (n, net.(mq := Push(net.mq, ev.(direction := RX))), MPushS(ev))
    case MPushS(ev) =>
      (n, net.(sq := Push(net.sq, ev.(direction := TX)), lostTx := net.lostTx || |net.sq| >= EVENT_QUEUE), MIdle)
  }

  function SlaveStep(c: Config, n: Node, net: Net, pc: SPc, now: int): (Node, Net, SPc) {
    match pc
    case SIdle => (Expire(c, n, now), net, SRead)
    case SRead =>
      if net.sq == [] then (CountRead(n), net, SSelect)
      else
        var ev, net' := net.sq[0], net.(sq := net.sq[1..]);
        if ev.direction.TX? && n.scheduled.Some? then
          if n.scheduled.value.id == ev.id then (CountRead(n).(scheduled := None), net', SConfirm)
          else (CountRead(n), net', SRead)
        else (ReceiveEvent(c, true, CountRead(n), ev, now).0, net', SRead)
    case SConfirm =>
      if n.txq == [] then (n, net, SRead) else (n.(txq := n.txq[1..]), net, SSchedule(n.txq[0], true))
    case SSelect =>
      if n.scheduled.Some? || n.txq == [] then (n, net, SIdle)
      else (n.(txq := n.txq[1..]), net, SSchedule(n.txq[0], false))
    case SSchedule(f, reading) =>
      (n.(log := n.log.(written := n.log.written + [f])), net.(slot := Some(f.(channel := c.channel))), SSet(f, reading))
    case SSet(f, reading) => (n.(scheduled := Some(f)), net, if reading then SRead else SIdle)
  }

  // ------------------------------------------------ the whole system

  /** `hold` is the Transmit that owns txMu and the frames it has not sent;
      `stopHeld` says a StopAwaitingSlaveResponse owns executeMu. */
  datatype System = System(m: Node, s: Node, net: Net, mpc: MPc, spc: SPc,
                           mhold: Hold, shold: Hold, stopHeld: bool)

  datatype Action =
    | MExec(now: int) | SExec(now: int)
    | Begin(slave: bool, msg: LinMessage) | Send(slave: bool) | End(slave: bool)
    | Pop(slave: bool)
    | SetAwaiting | StopClear | StopAcquire | StopRelease

  const EMPTY_LOG := Log([], [], [], [], 0, 0, false, false)
  const EMPTY_NODE := Node([], [], FRESH, false, None, EMPTY_LOG)
  const INITIAL := System(EMPTY_NODE, EMPTY_NODE, Net(None, [], [], [], [], false, false, false), MIdle, SIdle, None, None, false)

  /** Both transports are configured for the same channel. */
  datatype Setup = Setup(m: Config, s: Config)

  predicate ValidSetup(c: Setup) { c.m.channel == c.s.channel }

  function MessageFrames(isSlave: bool, channel: byte, m: Sendable): seq<LinEvent> {
    Frames(isSlave, channel, Payloads(m))
  }

  /** Transmit up to the capacity test: None when it returns an error. */
  function Admit(c: Config, isSlave: bool, n: Node, m: LinMessage): Option<seq<LinEvent>> {
    if |m.data| > MAX_DATA then None
    else
      var fs := MessageFrames(isSlave, c.channel, m);
      if |fs| > c.txCap - |n.txq| then None else Some(fs)
  }

  function Accept(n: Node, m: Sendable): Node { n.(log := n.log.(accepted := n.log.accepted + [m])) }

  type Hold = Option<seq<LinEvent>>

  /** Transmit takes txMu and tests the capacity. */
  function BeginTx(c: Config, isSlave: bool, n: Node, hold: Hold, msg: LinMessage): (Node, Hold) {
    if hold.Some? || Admit(c, isSlave, n, msg).None? then (n, hold)
    else (Accept(n, msg), Admit(c, isSlave, n, msg))
  }

  /** Transmit sends one frame; it would block on a full queue. */
  function SendTx(c: Config, n: Node, hold: Hold): (Node, Hold) {
    if hold.None? || hold.value == [] || |n.txq| >= c.txCap then (n, hold)
    else (n.(txq := n.txq + [hold.value[0]]), Some(hold.value[1..]))
  }

  /** Transmit sets the master's response flag and releases txMu. */
  function EndTx(isSlave: bool, n: Node, hold: Hold): (Node, Hold) {
    if hold != Some([]) then (n, hold)
    else (if isSlave then n else n.(awaiting := true), None)
  }

  function PopNode(n: Node): Node {
    if n.rxq == [] then n
    else n.(rxq := n.rxq[1..], log := n.log.(popped := n.log.popped + [n.rxq[0]]))
  }

  /** One step. A step whose goroutine would block leaves the system as it is. */
  function Apply(c: Setup, b: System, a: Action): System {
    match a
    case MExec(now) =>
      if b.mpc.MIdle? && b.stopHeld then b
      else
        var (n, net, pc) := MasterStep(c.m, b.m, b.net, b.mpc, now);
        b.(m := n, net := net, mpc := pc)
    case SExec(now) =>
      var (n, net, pc) := SlaveStep(c.s, b.s, b.net, b.spc, now);
      b.(s := n, net := net, spc := pc)
    case Begin(true, msg) => var (n, h) := BeginTx(c.s, true, b.s, b.shold, msg); b.(s := n, shold := h)
    case Begin(false, msg) => var (n, h) := BeginTx(c.m, false, b.m, b.mhold, msg); b.(m := n, mhold := h)
    case Send(true) => var (n, h) := SendTx(c.s, b.s, b.shold); b.(s := n, shold := h)
    case Send(false) => var (n, h) := SendTx(c.m, b.m, b.mhold); b.(m := n, mhold := h)
    case End(true) => var (n, h) := EndTx(true, b.s, b.shold); b.(s := n, shold := h)
    case End(false) => var (n, h) := EndTx(false, b.m, b.mhold); b.(m := n, mhold := h)
    case Pop(slave) => if slave then b.(s := PopNode(b.s)) else b.(m := PopNode(b.m))
    case SetAwaiting => b.(m := b.m.(awaiting := true))
    case StopClear => b.(m := b.m.(awaiting := false))
    case StopAcquire => if b.mpc.MIdle? then b.(stopHeld := true) else b
    case StopRelease => b.(stopHeld := false)
  }

  function RunFrom(c: Setup, b: System, acts: seq<Action>): System {
    if acts == [] then b else Apply(c, RunFrom(c, b, acts[..|acts| - 1]), acts[|acts| - 1])
  }

  function Run(c: Setup, acts: seq<Action>): System { RunFrom(c, INITIAL, acts) }

  lemma {:induction false} RunConcat(c: Setup, b: System, x: seq<Action>, y: seq<Action>)
    ensures RunFrom(c, b, x + y) == RunFrom(c, RunFrom(c, b, x), y)
  {
    if y == [] {
      assert x + y == x;
    } else {
      assert (x + y)[..|x + y| - 1] == x + y[..|y| - 1];
      RunConcat(c, b, x, y[..|y| - 1]);
    }
  }

  lemma OneStep(c: Setup, b: System, x: Action)
    ensures RunFrom(c, b, [x]) == Apply(c, b, x)
  {
    assert [x][..0] == [];
  }

  lemma TwoSteps(c: Setup, b: System, x: Action, y: Action)
    ensures RunFrom(c, b, [x, y]) == Apply(c, Apply(c, b, x), y)
  {
    OneStep(c, b, x);
    OneStep(c, Apply(c, b, x), y);
    RunConcat(c, b, [x], [y]);
    assert [x] + [y] == [x, y];
  }
}
