/** The close protocol as a machine: any number of preset operations, callers
    of Preset.Close, callers of the transport's own Close and Run, and the
    transport goroutine, interleaved at every shared access. */
module Lifecycle {
  import opened LinTypes

  /** Inside Transport.Close. */
  datatype TPc = TTest | TCancel | TWait | TErrors | TReceive | TDone | TAwait | TReturned

  datatype Pc =
    | OpCheck | OpLock | OpRecheck | OpBody | OpUnlock
    | ClOnce | ClSet | ClTransport(t: TPc) | ClLock | ClDriver | ClUnlock
    | Closing(t: TPc)
    | Starting
    | Finished

  datatype Once = Fresh | Running(owner: nat) | Completed

  /** The transport goroutine; `again` says a report is made from inside
      execute, which then goes on. */
  datatype GPc = GOff | GSelect | GTest | GRun | GErrors(again: bool) | GReceive(again: bool) | GGone

  /** How often the transport's channels were closed. */
  datatype Closed = Closed(errors: nat, receive: nat, done: nat)

  /** What must not happen: a send on a closed channel, a call of the closed
      driver, closing the driver during an operation. */
  datatype Bad = Bad(send: bool, call: bool, inOperation: bool)

  /** The transport's lifecycle fields; `owner` is the thread that runs the
      closing part of Close. */
  datatype Tp = Tp(closed: bool, owner: Option<nat>, cancelled: bool, running: bool, g: GPc)

  datatype State = State(closed: bool, once: Once, opMu: Option<nat>, tp: Tp, ch: Closed, driverClosed: nat,
                         bad: Bad, threads: map<nat, Pc>)

  const INITIAL := State(false, Fresh, None, Tp(false, None, false, false, GOff), Closed(0, 0, 0), 0,
                         Bad(false, false, false), map[])

  datatype Action =
    | Spawn(id: nat, what: Pc)
    | Thread(id: nat, call: bool)
    | Goroutine(call: bool, fail: bool)

  predicate Entry(p: Pc) { p.OpCheck? || p.ClOnce? || p == Closing(TTest) || p.Starting? }

  function Go(s: State, id: nat, p: Pc): State { s.(threads := s.threads[id := p]) }

  /** A call of the hardware driver. */
  function Called(bad: Bad, driverClosed: nat): Bad { bad.(call := bad.call || driverClosed > 0) }

  predicate Operating(s: State) { exists i <- s.threads :: s.threads[i].OpBody? }

  /** One step of Transport.Close by thread `id`. */
  function TransportClose(tp: Tp, ch: Closed, id: nat, t: TPc): (Tp, Closed, TPc) {
    match t
    case TTest => if tp.closed then (tp, ch, TAwait) else (tp.(closed := true, owner := Some(id)), ch, TCancel)
    case TCancel => (tp.(cancelled := true), ch, TWait)
    case TWait => (tp, ch, if Gone(tp.g) then TErrors else TWait)
    case TErrors => (tp, ch.(errors := ch.errors + 1), TReceive)
    case TReceive => (tp, ch.(receive := ch.receive + 1), TDone)
    case TDone => (tp, ch.(done := ch.done + 1), TReturned)
    case TAwait => (tp, ch, if ch.done > 0 then TReturned else TAwait)
    case TReturned => (tp, ch, TReturned)
  }

  /** One step of thread `id`; blocked steps change nothing. `call` chooses
      between calling the driver and ending the operation. */
  function ThreadStep(s: State, id: nat, p: Pc, call: bool): State {
    match p
    case OpCheck => Go(s, id, if s.closed then Finished else OpLock)
    case OpLock => if s.opMu.Some? then s else Go(s, id, OpRecheck).(opMu := Some(id))
    case OpRecheck => Go(s, id, if s.closed then OpUnlock else OpBody)
    case OpBody => if call then s.(bad := Called(s.bad, s.driverClosed)) else Go(s, id, OpUnlock)
    case OpUnlock => Go(s, id, Finished).(opMu := None)
    case ClOnce =>
      (match s.once
       case Fresh => Go(s, id, ClSet).(once := Running(id))
       case Running(_) => s
       case Completed => Go(s, id, Finished))
    case ClSet => Go(s, id, ClTransport(TTest)).(closed := true)
    case ClTransport(t) =>
      if t.TReturned? then Go(s, id, ClLock)
      else var (tp, ch, t') := TransportClose(s.tp, s.ch, id, t); Go(s, id, ClTransport(t')).(tp := tp, ch := ch)
    case ClLock => if s.opMu.Some? then s else Go(s, id, ClDriver).(opMu := Some(id))
    case ClDriver =>
      Go(s, id, ClUnlock).(driverClosed := s.driverClosed + 1,
                           bad := s.bad.(inOperation := s.bad.inOperation || Operating(s)))
    case ClUnlock => Go(s, id, Finished).(opMu := None, once := Completed)
    case Closing(t) =>
      if t.TReturned? then Go(s, id, Finished)
      else var (tp, ch, t') := TransportClose(s.tp, s.ch, id, t); Go(s, id, Closing(t')).(tp := tp, ch := ch)
    case Starting =>
      if s.tp.running || s.tp.closed then Go(s, id, Finished)
      else Go(s, id, Finished).(tp := s.tp.(running := true, g := GSelect))
    case Finished => s
  }

  /** One step of the goroutine. A cancelled select may still pick a tick. */
  function GoroutineStep(tp: Tp, ch: Closed, driverClosed: nat, bad: Bad, call: bool, fail: bool): (GPc, Bad) {
    match tp.g
    case GOff => (GOff, bad)
    case GSelect => (if tp.cancelled && fail then GGone else GTest, bad)
    case GTest => (if tp.closed then GErrors(false) else GRun, bad)
    case GRun =>
      if call then if fail then (GErrors(true), bad) else (GRun, Called(bad, driverClosed))
      else (if fail then GErrors(false) else GSelect, bad)
    case GErrors(again) => (GReceive(again), bad.(send := bad.send || ch.errors > 0))
    case GReceive(again) => (if again then GRun else GSelect, bad.(send := bad.send || ch.receive > 0))
    case GGone => (GGone, bad)
  }

  function Apply(s: State, a: Action): State {
    match a
    case Spawn(id, what) => if id in s.threads || !Entry(what) then s else Go(s, id, what)
    case Thread(id, call) => if id in s.threads then ThreadStep(s, id, s.threads[id], call) else s
    case Goroutine(call, fail) =>
      var (g, bad) := GoroutineStep(s.tp, s.ch, s.driverClosed, s.bad, call, fail);
      s.(tp := s.tp.(g := g), bad := bad)
  }

  function Run(acts: seq<Action>): State {
    if acts == [] then INITIAL else Apply(Run(acts[..|acts| - 1]), acts[|acts| - 1])
  }

  // ------------------------------------------------ invariant

  /** Holds operationMu. */
  predicate Locks(p: Pc) { p.OpRecheck? || p.OpBody? || p.OpUnlock? || p.ClDriver? || p.ClUnlock? }

  /** Is inside closeOnce. */
  predicate InOnce(p: Pc) { p.ClSet? || p.ClTransport? || p.ClLock? || p.ClDriver? || p.ClUnlock? }

  function TransportPc(p: Pc): Option<TPc> {
    if p.ClTransport? || p.Closing? then Some(p.t) else None
  }

  /** Runs the closing part of Transport.Close. */
  predicate Owns(p: Pc) {
    var t := TransportPc(p);
    t.Some? && (t.value.TCancel? || t.value.TWait? || t.value.TErrors? || t.value.TReceive? || t.value.TDone?)
  }

  /** Has returned from Transport.Close. */
  predicate PastTransport(p: Pc) {
    TransportPc(p) == Some(TReturned) || p.ClLock? || p.ClDriver? || p.ClUnlock?
  }

  predicate ThreadOk(s: State, id: nat, p: Pc) {
    && (Locks(p) <==> s.opMu == Some(id))
    && (InOnce(p) <==> s.once == Running(id))
    && (Owns(p) <==> s.tp.owner == Some(id) && s.ch.done == 0)
    && (PastTransport(p) ==> s.ch.done > 0)
    && (InOnce(p) && !p.ClSet? ==> s.closed)
    && (p.OpBody? || (InOnce(p) && !p.ClUnlock?) ==> s.driverClosed == 0)
    && (p.ClUnlock? ==> s.driverClosed == 1)
  }

  predicate AllOk(s: State) { forall id <- s.threads :: ThreadOk(s, id, s.threads[id]) }

  /** The closing thread's progress, as the counters show it. */
  predicate Counters(tp: Tp, ch: Closed, threads: map<nat, Pc>) {
    && (tp.owner.Some? <==> tp.closed)
    && (tp.g.GOff? <==> !tp.running)
    && (if tp.owner.None? then ch == Closed(0, 0, 0)
        else if ch.done > 0 then ch == Closed(1, 1, 1) && Gone(tp.g)
        else
          && tp.owner.value in threads
          && var t := TransportPc(threads[tp.owner.value]);
          && t.Some?
          && ch == Closed(if t.value.TReceive? || t.value.TDone? then 1 else 0, if t.value.TDone? then 1 else 0, 0)
          && (t.value.TErrors? || t.value.TReceive? || t.value.TDone? ==> Gone(tp.g)))
  }

  predicate Gone(g: GPc) { g.GOff? || g.GGone? }

  /** What the fields say without looking at every thread. */
  predicate Globals(s: State) {
    && (s.opMu.Some? ==> s.opMu.value in s.threads)
    && (s.once.Running? ==> s.once.owner in s.threads)
    && (s.once.Fresh? ==> s.driverClosed == 0)
    && (s.once.Completed? ==> s.closed && s.driverClosed == 1)
    && s.driverClosed <= 1
    && (s.driverClosed == 1 ==> s.closed && s.ch.done > 0)
    && s.bad == Bad(false, false, false)
  }

  predicate Inv(s: State) { AllOk(s) && Counters(s.tp, s.ch, s.threads) && Globals(s) }

  /** The fields a thread's place is judged by; `closed` may only be set. */
  predicate SameLocks(s: State, s': State) {
    && s'.opMu == s.opMu && s'.once == s.once && s'.tp.owner == s.tp.owner && s'.ch.done == s.ch.done
    && s'.driverClosed == s.driverClosed && (s.closed ==> s'.closed)
  }

  lemma ThreadKept(s: State, s': State, id: nat, p: Pc)
    requires SameLocks(s, s') && ThreadOk(s, id, p)
    ensures ThreadOk(s', id, p)
  {}

  /** Moving one thread, locks unchanged, leaves the others in order. */
  lemma OneMoved(s: State, s': State, id: nat, p: Pc)
    requires AllOk(s) && SameLocks(s, s') && s'.threads == s.threads[id := p] && ThreadOk(s', id, p)
    ensures AllOk(s')
  {
    forall j <- s'.threads ensures ThreadOk(s', j, s'.threads[j]) {
      if j != id { ThreadKept(s, s', j, s.threads[j]); }
    }
  }

  lemma OperationStep(s: State, id: nat, call: bool)
    requires Inv(s) && id in s.threads
    requires var p := s.threads[id]; p.OpCheck? || p.OpRecheck? || p.OpBody?
    ensures Inv(ThreadStep(s, id, s.threads[id], call))
  {
    var s' := ThreadStep(s, id, s.threads[id], call);
    assert ThreadOk(s, id, s.threads[id]);
    assert s'.threads == s.threads[id := s'.threads[id]];
    OneMoved(s, s', id, s'.threads[id]);
  }

  lemma LockStep(s: State, id: nat, call: bool)
    requires Inv(s) && id in s.threads
    requires var p := s.threads[id]; p.OpLock? || p.ClLock?
    ensures Inv(ThreadStep(s, id, s.threads[id], call))
  {
    var s' := ThreadStep(s, id, s.threads[id], call);
    assert ThreadOk(s, id, s.threads[id]);
    forall j <- s'.threads ensures ThreadOk(s', j, s'.threads[j]) {
      assert ThreadOk(s, j, s.threads[j]);
    }
  }

  lemma UnlockStep(s: State, id: nat, call: bool)
    requires Inv(s) && id in s.threads && s.threads[id].OpUnlock?
    ensures Inv(ThreadStep(s, id, s.threads[id], call))
  {
    var s' := ThreadStep(s, id, s.threads[id], call);
    assert ThreadOk(s, id, s.threads[id]);
    forall j <- s'.threads ensures ThreadOk(s', j, s'.threads[j]) {
      assert ThreadOk(s, j, s.threads[j]);
    }
  }

  lemma PresetCloseStep(s: State, id: nat, call: bool)
    requires Inv(s) && id in s.threads
    requires var p := s.threads[id];
      p.ClOnce? || p.ClSet? || p.ClDriver? || p.ClUnlock? || p == ClTransport(TReturned)
    ensures Inv(ThreadStep(s, id, s.threads[id], call))
  {
    var s' := ThreadStep(s, id, s.threads[id], call);
    assert ThreadOk(s, id, s.threads[id]);
    forall j <- s'.threads ensures ThreadOk(s', j, s'.threads[j]) {
      assert ThreadOk(s, j, s.threads[j]);
    }
  }

  /** Inside Transport.Close but neither starting nor finishing it. */
  predicate InnerTransport(p: Pc) {
    var t := TransportPc(p);
    t.Some? && !t.value.TTest? && !t.value.TDone? && p != ClTransport(TReturned)
  }

  lemma TransportInnerThreads(s: State, id: nat, call: bool)
    requires AllOk(s) && id in s.threads && InnerTransport(s.threads[id])
    ensures AllOk(ThreadStep(s, id, s.threads[id], call))
  {
    var s' := ThreadStep(s, id, s.threads[id], call);
    assert ThreadOk(s, id, s.threads[id]);
    assert s'.threads == s.threads[id := s'.threads[id]];
    OneMoved(s, s', id, s'.threads[id]);
  }

  lemma TransportInnerStep(s: State, id: nat, call: bool)
    requires Inv(s) && id in s.threads && InnerTransport(s.threads[id])
    ensures Inv(ThreadStep(s, id, s.threads[id], call))
  {
    TransportInnerThreads(s, id, call);
    assert ThreadOk(s, id, s.threads[id]);
  }

  lemma TransportEdgeStep(s: State, id: nat, call: bool)
    requires Inv(s) && id in s.threads
    requires TransportPc(s.threads[id]) == Some(TTest) || TransportPc(s.threads[id]) == Some(TDone)
    ensures Inv(ThreadStep(s, id, s.threads[id], call))
  {
    var s' := ThreadStep(s, id, s.threads[id], call);
    assert ThreadOk(s, id, s.threads[id]);
    forall j <- s'.threads ensures ThreadOk(s', j, s'.threads[j]) {
      assert ThreadOk(s, j, s.threads[j]);
    }
  }

  lemma StartStep(s: State, id: nat, call: bool)
    requires Inv(s) && id in s.threads && (s.threads[id].Starting? || s.threads[id].Finished?)
    ensures Inv(ThreadStep(s, id, s.threads[id], call))
  {
    var s' := ThreadStep(s, id, s.threads[id], call);
    assert ThreadOk(s, id, s.threads[id]);
    assert s'.threads == s.threads[id := s'.threads[id]];
    OneMoved(s, s', id, s'.threads[id]);
  }

  lemma InvGoroutine(s: State, call: bool, fail: bool)
    requires Inv(s)
    ensures Inv(Apply(s, Goroutine(call, fail)))
  {
    var s' := Apply(s, Goroutine(call, fail));
    if !Gone(s.tp.g) {
      assert s.ch.errors == 0 && s.ch.receive == 0;
      forall j <- s'.threads ensures ThreadOk(s', j, s'.threads[j]) {
        ThreadKept(s, s', j, s.threads[j]);
      }
    }
  }

  lemma InvSpawn(s: State, id: nat, what: Pc)
    requires Inv(s) && id !in s.threads && Entry(what)
    ensures Inv(Go(s, id, what))
  {}

  lemma InvThread(s: State, id: nat, call: bool)
    requires Inv(s) && id in s.threads
    ensures Inv(ThreadStep(s, id, s.threads[id], call))
  {
    match s.threads[id]
    case OpCheck => OperationStep(s, id, call);
    case OpRecheck => OperationStep(s, id, call);
    case OpBody => OperationStep(s, id, call);
    case OpLock => LockStep(s, id, call);
    case ClLock => LockStep(s, id, call);
    case OpUnlock => UnlockStep(s, id, call);
    case ClOnce => PresetCloseStep(s, id, call);
    case ClSet => PresetCloseStep(s, id, call);
    case ClDriver => PresetCloseStep(s, id, call);
    case ClUnlock => PresetCloseStep(s, id, call);
    case Starting => StartStep(s, id, call);
    case Finished => StartStep(s, id, call);
    case Closing(t) =>
      if t.TReturned? || InnerTransport(s.threads[id]) {
        TransportInnerStep(s, id, call);
      } else {
        TransportEdgeStep(s, id, call);
      }
    case ClTransport(t) =>
      if t.TReturned? {
        PresetCloseStep(s, id, call);
      } else if InnerTransport(s.threads[id]) {
        TransportInnerStep(s, id, call);
      } else {
        TransportEdgeStep(s, id, call);
      }
  }

  lemma {:induction false} InvRun(acts: seq<Action>)
    ensures Inv(Run(acts))
  {
    if acts != [] {
      var s, a := Run(acts[..|acts| - 1]), acts[|acts| - 1];
      InvRun(acts[..|acts| - 1]);
      match a
      case Spawn(id, what) => if id !in s.threads && Entry(what) { InvSpawn(s, id, what); }
      case Thread(id, call) => if id in s.threads { InvThread(s, id, call); }
      case Goroutine(call, fail) => InvGoroutine(s, call, fail);
    }
  }

  /** No use after close, in every interleaving of any number of operations,
      closers, starters and the goroutine: each channel of the transport is
      closed at most once and, once `done` is, exactly once; nothing is sent on
      a closed channel; the hardware driver is closed at most once, never
      during an operation, only after the transport is completely closed and
      its goroutine gone, and is never called afterwards. */
  lemma NoUseAfterClose(acts: seq<Action>)
    ensures var s := Run(acts);
      && s.bad == Bad(false, false, false)
      && s.ch.errors <= 1 && s.ch.receive <= 1 && s.ch.done <= 1
      && (s.ch.done == 1 ==> s.ch == Closed(1, 1, 1) && Gone(s.tp.g))
      && s.driverClosed <= 1
      && (s.driverClosed == 1 ==> s.closed && s.ch == Closed(1, 1, 1) && Gone(s.tp.g) && !Operating(s))
      && (s.once.Completed? ==> s.driverClosed == 1)
  {
    InvRun(acts);
    var s := Run(acts);
    assert forall id <- s.threads :: ThreadOk(s, id, s.threads[id]);
  }

  /** Mutual exclusion of operations with each other and with closing the
      driver. */
  lemma OneAtATime(acts: seq<Action>, i: nat, j: nat)
    requires var s := Run(acts); i in s.threads && j in s.threads && Locks(s.threads[i]) && Locks(s.threads[j])
    ensures i == j
  {
    InvRun(acts);
    assert ThreadOk(Run(acts), i, Run(acts).threads[i]) && ThreadOk(Run(acts), j, Run(acts).threads[j]);
  }

  // ------------------------------------------------ operations before and after closing

  lemma {:induction false} RunStep(acts: seq<Action>, a: Action)
    ensures Run(acts + [a]) == Apply(Run(acts), a)
  {
    assert (acts + [a])[..|acts|] == acts;
  }

  /** On an open preset with no operation under way, a new operation gets to
      call the driver. */
  lemma OperationStarts(acts: seq<Action>, id: nat)
    requires var s := Run(acts); !s.closed && s.opMu.None? && id !in s.threads
    ensures var s := Run(acts + [Spawn(id, OpCheck)] + [Thread(id, false)] + [Thread(id, false)] + [Thread(id, false)]);
      id in s.threads && s.threads[id].OpBody? && s.opMu == Some(id)
  {
    var a1 := acts + [Spawn(id, OpCheck)];
    var a2 := a1 + [Thread(id, false)];
    var a3 := a2 + [Thread(id, false)];
    RunStep(acts, Spawn(id, OpCheck));
    RunStep(a1, Thread(id, false));
    RunStep(a2, Thread(id, false));
    RunStep(a3, Thread(id, false));
  }

  /** The preset is closed and this thread is not inside an operation. */
  predicate Refused(s: State, id: nat) {
    s.closed && (id in s.threads ==>
      var p := s.threads[id]; !p.OpLock? && !p.OpRecheck? && !p.OpBody? && !p.OpUnlock?)
  }

  lemma RefusedStep(s: State, a: Action, id: nat)
    requires Refused(s, id)
    ensures Refused(Apply(s, a), id)
  {}

  /** An operation that begins once the preset is marked closed is refused: it
      never takes the operation mutex, let alone calls the driver. */
  lemma {:induction false} RefusedAfterClose(acts: seq<Action>, more: seq<Action>, id: nat)
    requires Run(acts).closed && id !in Run(acts).threads
    ensures Refused(Run(acts + more), id)
  {
    if more == [] {
      assert acts + more == acts;
    } else {
      var init, a := more[..|more| - 1], more[|more| - 1];
      RefusedAfterClose(acts, init, id);
      assert acts + more == acts + init + [a];
      RunStep(acts + init, a);
      RefusedStep(Run(acts + init), a, id);
    }
  }

  ghost predicate Reachable(s: State) { exists acts :: Run(acts) == s }

  lemma ReachableStep(s: State, a: Action)
    requires Reachable(s)
    ensures Reachable(Apply(s, a))
  {
    var acts :| Run(acts) == s;
    RunStep(acts, a);
  }

  /** The transport runs. */
  lemma TransportRuns() returns (s: State)
    ensures Reachable(s) && s == INITIAL.(tp := Tp(false, None, false, true, GSelect), threads := map[0 := Finished])
  {
    assert Run([]) == INITIAL;
    var s1 := INITIAL.(threads := map[0 := Starting]);
    ReachableStep(INITIAL, Spawn(0, Starting));
    s := Apply(s1, Thread(0, false));
    ReachableStep(s1, Thread(0, false));
  }

  /** A closer marks the preset closed. */
  lemma CloserMarks(s: State) returns (s': State)
    requires Reachable(s) && s.once.Fresh? && 1 !in s.threads
    ensures Reachable(s') && s' == Go(s, 1, ClTransport(TTest)).(once := Running(1), closed := true)
  {
    var t := Thread(1, false);
    var s1 := Go(s, 1, ClOnce);
    ReachableStep(s, Spawn(1, ClOnce));
    var s2 := Go(s, 1, ClSet).(once := Running(1));
    assert Apply(s1, t) == s2;
    ReachableStep(s1, t);
    s' := Go(s, 1, ClTransport(TTest)).(once := Running(1), closed := true);
    assert Apply(s2, t) == s';
    ReachableStep(s2, t);
  }

  /** It marks the transport closed and waits for the goroutine. */
  lemma CloserWaits(s: State) returns (s': State)
    requires Reachable(s) && !s.tp.closed && 1 in s.threads && s.threads[1] == ClTransport(TTest)
    ensures Reachable(s') && s' == Go(s, 1, ClTransport(TWait)).(tp := s.tp.(closed := true, owner := Some(1), cancelled := true))
  {
    var t := Thread(1, false);
    var s1 := Go(s, 1, ClTransport(TCancel)).(tp := s.tp.(closed := true, owner := Some(1)));
    assert Apply(s, t) == s1;
    ReachableStep(s, t);
    s' := Go(s, 1, ClTransport(TWait)).(tp := s1.tp.(cancelled := true));
    assert Apply(s1, t) == s';
    ReachableStep(s1, t);
  }

  /** Once the goroutine is gone the closer closes the channels. */
  lemma CloserClosesChannels(s: State) returns (s': State)
    requires Reachable(s) && 1 in s.threads && s.threads[1] == ClTransport(TWait) && Gone(s.tp.g)
    ensures Reachable(s') && s' == Go(s, 1, ClTransport(TReturned)).(ch := Closed(s.ch.errors + 1, s.ch.receive + 1, s.ch.done + 1))
  {
    var t := Thread(1, false);
    var s1 := Go(s, 1, ClTransport(TErrors));
    ReachableStep(s, t);
    var s2 := Go(s1, 1, ClTransport(TReceive)).(ch := s.ch.(errors := s.ch.errors + 1));
    assert Apply(s1, t) == s2;
    ReachableStep(s1, t);
    var s3 := Go(s2, 1, ClTransport(TDone)).(ch := s2.ch.(receive := s2.ch.receive + 1));
    assert Apply(s2, t) == s3;
    ReachableStep(s2, t);
    s' := Go(s3, 1, ClTransport(TReturned)).(ch := s3.ch.(done := s3.ch.done + 1));
    assert Apply(s3, t) == s';
    ReachableStep(s3, t);
  }

  /** And then the driver. */
  lemma CloserClosesDriver(s: State) returns (s': State)
    requires Reachable(s) && 1 in s.threads && s.threads[1] == ClTransport(TReturned) && s.opMu.None?
    ensures Reachable(s') && s'.once == Completed && s'.ch == s.ch && s'.driverClosed == s.driverClosed + 1
  {
    var t := Thread(1, false);
    var s1 := Go(s, 1, ClLock);
    ReachableStep(s, t);
    var s2 := Apply(s1, t);
    ReachableStep(s1, t);
    assert s2 == Go(s1, 1, ClDriver).(opMu := Some(1));
    var s3 := Apply(s2, t);
    ReachableStep(s2, t);
    assert s3.threads[1] == ClUnlock && s3.driverClosed == s.driverClosed + 1 && s3.ch == s.ch;
    s' := Apply(s3, t);
    ReachableStep(s3, t);
  }

  /** Whoever closes later returns: a second Close of the preset in one step of
      its own once the first is complete, one of the transport once its last
      channel is closed, and neither before. */
  lemma LaterClosersReturn(s: State, id: nat, call: bool)
    requires id in s.threads
    ensures s.threads[id] == ClOnce && !s.once.Fresh? ==>
      ThreadStep(s, id, ClOnce, call) == if s.once.Completed? then Go(s, id, Finished) else s
    ensures s.threads[id] == Closing(TAwait) ==>
      ThreadStep(s, id, Closing(TAwait), call) == if s.ch.done > 0 then Go(s, id, Closing(TReturned)) else s
  {
    assert s.threads[id := s.threads[id]] == s.threads;
  }

  /** Closing comes to its end: there is a run from a running transport in which
      Close has closed the channels and the driver, once each. */
  lemma CloseCompletes()
    ensures exists acts :: Run(acts).once == Completed && Run(acts).ch == Closed(1, 1, 1) && Run(acts).driverClosed == 1
  {
    var running := TransportRuns();
    var marked := CloserMarks(running);
    var waiting := CloserWaits(marked);
    var gone := Apply(waiting, Goroutine(false, true));
    ReachableStep(waiting, Goroutine(false, true));
    var closed := CloserClosesChannels(gone);
    var end := CloserClosesDriver(closed);
    var acts :| Run(acts) == end;
    assert Run(acts).once == Completed;
  }
}
