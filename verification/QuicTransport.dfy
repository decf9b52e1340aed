/** The QUIC transport's lifecycle under its state lock, and its callbacks through the gate, for any
    number of threads. */
module QuicTransport {
  import opened Counting
  import opened CallbackGate

  datatype Lifecycle = Created | Bound | Connecting | Connected | Failed | Closed
  {
    function Rank(): nat {
      match this
      case Created => 0
      case Bound => 1
      case Connecting => 2
      case Connected => 3
      case Failed => 4
      case Closed => 5
    }
  }

  /** What the state lock protects; for the three resources, whether they are present. */
  datatype QuicState = QuicState(lifecycle: Lifecycle, endpoint: bool, channel: bool, outbound: bool)

  const CREATED := QuicState(Created, false, false, false)

  // ----- critical sections

  /** `bind_transport_socket`, once the socket is ready. */
  function BindSection(q: QuicState): (QuicState, bool) {
    if q.lifecycle != Created then (q, false) else (q.(endpoint := true, lifecycle := Bound), true)
  }

  /** The first section of the connect call. */
  function ConnectSection(q: QuicState): (QuicState, bool) {
    if q.lifecycle != Bound || !q.endpoint then (q, false) else (q.(lifecycle := Connecting), true)
  }

  datatype Established = Refused | Running | NotStarted

  /** `connect_transport` with a channel in hand; `spawned` says whether the background tasks could be started. */
  function EstablishSection(q: QuicState, cancelled: bool, spawned: bool): (QuicState, Established) {
    if q.lifecycle != Connecting || cancelled then (q, Refused)
    else if spawned then (QuicState(Connected, q.endpoint, true, true), Running)
    else (QuicState(Failed, q.endpoint, false, false), NotStarted)
  }

  /** `fail_transport` under the lock. */
  function FailSection(q: QuicState): (QuicState, bool) {
    if q.lifecycle == Failed || q.lifecycle == Closed then (q, false)
    else (QuicState(Failed, q.endpoint, false, false), true)
  }

  /** `close_transport` under the lock. */
  function CloseSection(q: QuicState): (QuicState, bool) {
    if q.lifecycle == Closed then (q, false) else (QuicState(Closed, false, false, false), true)
  }

  /** `enqueue_packet` under the lock: is there a queue to send on? */
  function EnqueueSection(q: QuicState): bool { q.lifecycle == Connected && q.outbound }

  class FfiQuicTransport {
    var lifecycle: Lifecycle
    var endpoint: bool
    var channel: bool
    var outbound: bool

    constructor ()
      ensures Current() == CREATED
    {
      lifecycle, endpoint, channel, outbound := Created, false, false, false;
    }

    function Current(): QuicState
      reads this
    {
      QuicState(lifecycle, endpoint, channel, outbound)
    }

    method Bind() returns (ok: bool)
      modifies this
      ensures (Current(), ok) == BindSection(old(Current()))
    {
      if lifecycle != Created {
        return false;
      }
      endpoint := true;
      lifecycle := Bound;
      return true;
    }

    method Connect() returns (ok: bool)
      modifies this
      ensures (Current(), ok) == ConnectSection(old(Current()))
    {
      if lifecycle != Bound {
        return false;
      }
      if !endpoint {
        return false;
      }
      lifecycle := Connecting;
      return true;
    }

    method Establish(cancelled: bool, spawned: bool) returns (r: Established)
      modifies this
      ensures (Current(), r) == EstablishSection(old(Current()), cancelled, spawned)
    {
      if lifecycle != Connecting || cancelled {
        return Refused;
      }
      channel := true;
      outbound := true;
      if !spawned {
        channel := false;
        outbound := false;
        lifecycle := Failed;
        return NotStarted;
      }
      lifecycle := Connected;
      return Running;
    }

    method Fail() returns (first: bool)
      modifies this
      ensures (Current(), first) == FailSection(old(Current()))
    {
      if lifecycle == Failed || lifecycle == Closed {
        return false;
      }
      lifecycle := Failed;
      outbound := false;
      channel := false;
      return true;
    }

    method Enqueue() returns (ok: bool)
      ensures ok == EnqueueSection(Current())
    {
      if lifecycle != Connected {
        return false;
      }
      return outbound;
    }

    method Close() returns (first: bool)
      modifies this
      ensures (Current(), first) == CloseSection(old(Current()))
    {
      if lifecycle == Closed {
        return false;
      }
      lifecycle := Closed;
      endpoint := false;
      outbound := false;
      channel := false;
      return true;
    }
  }

  /** What the lock's holders always find. */
  ghost predicate StateInv(q: QuicState) {
    && (q.channel <==> q.lifecycle == Connected)
    && (q.outbound <==> q.lifecycle == Connected)
    && (q.lifecycle == Bound || q.lifecycle == Connecting || q.lifecycle == Connected ==> q.endpoint)
    && (q.lifecycle == Created || q.lifecycle == Closed ==> !q.endpoint)
  }

  // ----- threads

  datatype Callback = State | Packet | Disconnect | ClosedCallback

  /** Where a thread is. Every operation ends by emitting one callback or none. */
  datatype Pc =
    | Idle
    /** `fail_transport`: not cancelled when it looked, state lock not yet taken. */
    | Failing
    /** `fail_transport` has moved the lifecycle and is about to cancel. */
    | Cancelling
    /** `close_transport` has moved the lifecycle and is about to cancel. */
    | ClosingDown(emit: bool)
    /** About to ask the gate for a lease. */
    | Emitting(callback: Callback)
    /** Holds a lease, waits for the callback lock. */
    | Leased(callback: Callback)
    /** In the callback, holding lease and callback lock. */
    | Calling(callback: Callback)
    /** The callback has returned and its lock is free; the lease is not yet dropped. */
    | Leaving
    /** Destroy, in the gate's `close_and_wait`. */
    | GateAsleep
    | GateWoken
    /** Destroy, after the gate has closed. */
    | Destroying

  datatype Transport = Transport(
    state: QuicState,
    cancelled: bool,
    gate: Gate,
    /** The callback lock is taken. */
    serial: bool,
    /** The transport is still in the handle table. */
    registered: bool,
    /** A destroy has come back from the gate. */
    drained: bool,
    disconnects: nat,
    closes: nat,
    threads: seq<Pc>)

  datatype Action =
    | DoBind(t: nat)
    | DoConnect(t: nat)
    | DoEstablish(t: nat, spawned: bool)
    /** A background task has received a packet group. */
    | Receive(t: nat)
    | FailLooks(t: nat)
    | FailLocks(t: nat)
    | DoCancel(t: nat)
    | DoClose(t: nat)
    | DoDestroy(t: nat)
    | GateSpurious(t: nat)
    | GateRecheck(t: nat)
    | FinishDestroy(t: nat)
    | Ask(t: nat)
    | Call(t: nat)
    | Return(t: nat)
    | DropLease(t: nat)

  predicate Enabled(s: Transport, a: Action) {
    && a.t < |s.threads|
    && var pc := s.threads[a.t];
       match a
       case DoBind(_) => pc == Idle
       case DoConnect(_) => pc == Idle
       case DoEstablish(_, _) => pc == Idle
       case Receive(_) => pc == Idle
       case FailLooks(_) => pc == Idle
       case FailLocks(_) => pc == Failing
       case DoCancel(_) => pc == Cancelling || pc.ClosingDown?
       case DoClose(_) => pc == Idle
       case DoDestroy(_) => pc == Idle && s.registered
       case GateSpurious(_) => pc == GateAsleep
       case GateRecheck(_) => pc == GateWoken
       case FinishDestroy(_) => pc == Destroying
       case Ask(_) => pc.Emitting?
       case Call(_) => pc.Leased? && !s.serial
       case Return(_) => pc.Calling?
       case DropLease(_) => pc == Leaving
  }

  function WakeUp(pc: Pc): Pc { if pc == GateAsleep then GateWoken else pc }

  /** `notify_all` */
  function NotifyAll(threads: seq<Pc>): seq<Pc> { Each(threads, WakeUp) }

  function Goto(s: Transport, i: nat, pc: Pc): Transport
    requires i < |s.threads|
  {
    s.(threads := s.threads[i := pc])
  }

  function GateTest(s: Transport, i: nat): Transport
    requires i < |s.threads|
  {
    if s.gate.active == 0 then Goto(s.(drained := true), i, Destroying) else Goto(s, i, GateAsleep)
  }

  /** Actions on the gate and the callbacks, as opposed to the state lock and the cancellation flag. */
  predicate OnGate(a: Action) {
    a.DoDestroy? || a.GateSpurious? || a.GateRecheck? || a.Ask? || a.Call? || a.Return? || a.DropLease?
  }

  /** What an action on the state lock or the cancellation flag does, and where it leaves its thread. */
  datatype Effect = Effect(state: QuicState, cancelled: bool, pc: Pc)

  function EffectOf(q: QuicState, cancelled: bool, pc: Pc, a: Action): Effect
    requires !OnGate(a)
  {
    match a
    case DoBind(_) =>
      var (after, ok) := BindSection(q);
      Effect(after, cancelled, if ok then Emitting(State) else Idle)
    case DoConnect(_) =>
      var (after, ok) := ConnectSection(q);
      Effect(after, cancelled, if ok then Emitting(State) else Idle)
    case DoEstablish(_, spawned) =>
      var (after, r) := EstablishSection(q, cancelled, spawned);
      Effect(after, cancelled,
             match r case Running => Emitting(State) case NotStarted => Emitting(Disconnect) case Refused => Idle)
    case Receive(_) => Effect(q, cancelled, Emitting(Packet))
    case FailLooks(_) => Effect(q, cancelled, if cancelled then Idle else Failing)
    case FailLocks(_) =>
      var (after, first) := FailSection(q);
      Effect(after, cancelled, if first then Cancelling else Idle)
    case DoClose(_) =>
      var (after, first) := CloseSection(q);
      Effect(after, cancelled, if first then ClosingDown(true) else Idle)
    case FinishDestroy(_) =>
      var (after, first) := CloseSection(q);
      Effect(after, cancelled, if first then ClosingDown(false) else Idle)
    case DoCancel(_) =>
      Effect(q, true,
             if pc == Cancelling then Emitting(Disconnect)
             else if pc == ClosingDown(true) then Emitting(ClosedCallback) else Idle)
  }

  /** `CallbackGate::enter` at the head of an emit. */
  function AskGate(s: Transport, i: nat): Transport
    requires i < |s.threads| && s.threads[i].Emitting?
  {
    var (gate, granted) := Enter(s.gate);
    Goto(s.(gate := gate), i, if granted then Leased(s.threads[i].callback) else Idle)
  }

  /** The callback lock is taken and the callback begins. */
  function BeginCallback(s: Transport, i: nat): Transport
    requires i < |s.threads| && s.threads[i].Leased?
  {
    var callback := s.threads[i].callback;
    Goto(s.(serial := true,
            disconnects := s.disconnects + (if callback == Disconnect then 1 else 0),
            closes := s.closes + (if callback == ClosedCallback then 1 else 0)),
         i, Calling(callback))
  }

  function EndLease(s: Transport, i: nat): Transport
    requires i < |s.threads|
  {
    var left := Goto(s.(gate := Leave(s.gate)), i, Idle);
    if left.gate.active == 0 then left.(threads := NotifyAll(left.threads)) else left
  }

  function Perform(s: Transport, a: Action): Transport
    requires Enabled(s, a)
  {
    if !OnGate(a) then
      var e := EffectOf(s.state, s.cancelled, s.threads[a.t], a);
      Goto(s.(state := e.state, cancelled := e.cancelled), a.t, e.pc)
    else if a.DoDestroy? then GateTest(s.(registered := false, gate := BeginClose(s.gate)), a.t)
    else if a.GateSpurious? then Goto(s, a.t, GateWoken)
    else if a.GateRecheck? then GateTest(s, a.t)
    else if a.Ask? then AskGate(s, a.t)
    else if a.Call? then BeginCallback(s, a.t)
    else if a.Return? then Goto(s.(serial := false), a.t, Leaving)
    else EndLease(s, a.t)
  }

  ghost predicate Run(start: Transport, actions: seq<Action>, end: Transport)
    decreases |actions|
  {
    if actions == [] then start == end
    else Enabled(start, actions[0]) && Run(Perform(start, actions[0]), actions[1..], end)
  }

  // ----- what every run keeps

  function HoldsLease(pc: Pc): nat { if pc.Leased? || pc.Calling? || pc == Leaving then 1 else 0 }

  function InCallback(pc: Pc): nat { if pc.Calling? then 1 else 0 }

  /** On its way to the disconnect callback. */
  function OwesDisconnect(pc: Pc): nat {
    if pc == Cancelling || pc == Emitting(Disconnect) || pc == Leased(Disconnect) then 1 else 0
  }

  /** On its way to the closed callback. */
  function OwesClosed(pc: Pc): nat {
    if pc == ClosingDown(true) || pc == Emitting(ClosedCallback) || pc == Leased(ClosedCallback) then 1 else 0
  }

  ghost predicate Waits(pc: Pc) { pc == GateAsleep || pc == GateWoken }

  ghost predicate GateInv(s: Transport) {
    && s.gate.active == Total(s.threads, HoldsLease)
    && (forall i :: 0 <= i < |s.threads| && Waits(s.threads[i]) ==> s.gate.closing)
    && (forall i :: 0 <= i < |s.threads| && s.threads[i] == GateAsleep ==> s.gate.active != 0)
    && (s.drained ==> s.gate.closing && s.gate.active == 0)
    && Total(s.threads, InCallback) == (if s.serial then 1 else 0)
  }

  ghost predicate CountInv(s: Transport) {
    && Total(s.threads, OwesDisconnect) + s.disconnects <= AfterFailure(s.state)
    && Total(s.threads, OwesClosed) + s.closes <= AfterClose(s.state)
  }

  ghost predicate Inv(s: Transport) { StateInv(s.state) && GateInv(s) && CountInv(s) }

  function Initial(threads: seq<Pc>): Transport {
    Transport(CREATED, false, OPEN_GATE, false, true, false, 0, 0, threads)
  }

  lemma InitialInv(threads: seq<Pc>)
    requires forall i :: 0 <= i < |threads| ==> threads[i] == Idle
    ensures Inv(Initial(threads))
  {
    TotalZero(threads, HoldsLease);
    TotalZero(threads, InCallback);
    TotalZero(threads, OwesDisconnect);
    TotalZero(threads, OwesClosed);
  }

  function AfterFailure(q: QuicState): nat { if q.lifecycle.Rank() >= Failed.Rank() then 1 else 0 }

  function AfterClose(q: QuicState): nat { if q.lifecycle == Closed then 1 else 0 }

  /**
   * A move that keeps the state consistent, takes the lifecycle forward or nowhere, and commits the
   * thread to a final callback only when it is the one that moved the lifecycle there.
   */
  ghost predicate Sound(q: QuicState, pc: Pc, e: Effect) {
    && StateInv(e.state) && e.state.lifecycle.Rank() >= q.lifecycle.Rank()
    && HoldsLease(pc) == 0 == HoldsLease(e.pc) && InCallback(pc) == 0 == InCallback(e.pc) && !Waits(e.pc)
    && OwesDisconnect(e.pc) + AfterFailure(q) <= OwesDisconnect(pc) + AfterFailure(e.state)
    && OwesClosed(e.pc) + AfterClose(q) <= OwesClosed(pc) + AfterClose(e.state)
  }

  lemma OpeningIsSound(q: QuicState, cancelled: bool, a: Action)
    requires StateInv(q) && (a.DoBind? || a.DoConnect? || a.DoEstablish? || a.Receive? || a.FailLooks?)
    ensures Sound(q, Idle, EffectOf(q, cancelled, Idle, a))
  {
  }

  lemma ClosingIsSound(q: QuicState, cancelled: bool, pc: Pc, a: Action)
    requires StateInv(q)
    requires (a.FailLocks? && pc == Failing) || (a.DoClose? && pc == Idle) || (a.FinishDestroy? && pc == Destroying)
          || (a.DoCancel? && (pc == Cancelling || pc.ClosingDown?))
    ensures Sound(q, pc, EffectOf(q, cancelled, pc, a))
  {
  }

  /** Every critical section, and the cancellation after it, is such a move. */
  lemma SectionsAreSound(s: Transport, a: Action)
    requires StateInv(s.state) && Enabled(s, a) && !OnGate(a)
    ensures Sound(s.state, s.threads[a.t], EffectOf(s.state, s.cancelled, s.threads[a.t], a))
  {
    if a.DoBind? || a.DoConnect? || a.DoEstablish? || a.Receive? || a.FailLooks? {
      OpeningIsSound(s.state, s.cancelled, a);
    } else {
      ClosingIsSound(s.state, s.cancelled, s.threads[a.t], a);
    }
  }

  /** The four totals after one thread has moved. */
  lemma Moved(threads: seq<Pc>, i: nat, pc: Pc)
    requires i < |threads|
    ensures
      var after := threads[i := pc];
      && Total(after, HoldsLease) + HoldsLease(threads[i]) == Total(threads, HoldsLease) + HoldsLease(pc)
      && Total(after, InCallback) + InCallback(threads[i]) == Total(threads, InCallback) + InCallback(pc)
      && Total(after, OwesDisconnect) + OwesDisconnect(threads[i])
         == Total(threads, OwesDisconnect) + OwesDisconnect(pc)
      && Total(after, OwesClosed) + OwesClosed(threads[i]) == Total(threads, OwesClosed) + OwesClosed(pc)
  {
    TotalUpdate(threads, HoldsLease, i, pc);
    TotalUpdate(threads, InCallback, i, pc);
    TotalUpdate(threads, OwesDisconnect, i, pc);
    TotalUpdate(threads, OwesClosed, i, pc);
  }

  lemma Notified(threads: seq<Pc>)
    ensures Total(NotifyAll(threads), HoldsLease) == Total(threads, HoldsLease)
    ensures Total(NotifyAll(threads), InCallback) == Total(threads, InCallback)
    ensures Total(NotifyAll(threads), OwesDisconnect) == Total(threads, OwesDisconnect)
    ensures Total(NotifyAll(threads), OwesClosed) == Total(threads, OwesClosed)
  {
    TotalSame(threads, NotifyAll(threads), HoldsLease);
    TotalSame(threads, NotifyAll(threads), InCallback);
    TotalSame(threads, NotifyAll(threads), OwesDisconnect);
    TotalSame(threads, NotifyAll(threads), OwesClosed);
  }

  lemma SoundKeepsInv(s: Transport, i: nat, e: Effect)
    requires Inv(s) && i < |s.threads| && Sound(s.state, s.threads[i], e)
    ensures Inv(Goto(s.(state := e.state, cancelled := e.cancelled), i, e.pc))
  {
    Moved(s.threads, i, e.pc);
  }

  lemma GateTestKeepsInv(s: Transport, i: nat)
    requires Inv(s) && s.gate.closing && i < |s.threads| && (s.threads[i] == Idle || Waits(s.threads[i]))
    ensures Inv(GateTest(s, i))
  {
    if s.gate.active == 0 { Moved(s.threads, i, Destroying); } else { Moved(s.threads, i, GateAsleep); }
  }

  lemma AskKeepsInv(s: Transport, i: nat)
    requires Inv(s) && i < |s.threads| && s.threads[i].Emitting?
    ensures Inv(AskGate(s, i))
  {
    Moved(s.threads, i, Leased(s.threads[i].callback));
    Moved(s.threads, i, Idle);
  }

  lemma CallKeepsInv(s: Transport, i: nat)
    requires Inv(s) && i < |s.threads| && s.threads[i].Leased? && !s.serial
    ensures Inv(BeginCallback(s, i))
  {
    Moved(s.threads, i, Calling(s.threads[i].callback));
  }

  lemma ReturnKeepsInv(s: Transport, i: nat)
    requires Inv(s) && i < |s.threads| && s.threads[i].Calling?
    ensures Inv(Goto(s.(serial := false), i, Leaving))
  {
    Moved(s.threads, i, Leaving);
    TotalAtLeast(s.threads, InCallback, i);
  }

  lemma LeaveKeepsCounts(s: Transport, i: nat)
    requires Inv(s) && i < |s.threads| && s.threads[i] == Leaving
    ensures CountInv(EndLease(s, i)) && Total(EndLease(s, i).threads, InCallback) == Total(s.threads, InCallback)
    ensures EndLease(s, i).gate.active == Total(EndLease(s, i).threads, HoldsLease) && s.gate.active > 0
  {
    Moved(s.threads, i, Idle);
    Notified(s.threads[i := Idle]);
    TotalAtLeast(s.threads, HoldsLease, i);
  }

  lemma LeaveKeepsInv(s: Transport, i: nat)
    requires Inv(s) && i < |s.threads| && s.threads[i] == Leaving
    ensures Inv(EndLease(s, i))
  {
    LeaveKeepsCounts(s, i);
    var after := EndLease(s, i);
    forall j | 0 <= j < |after.threads|
      ensures Waits(after.threads[j]) ==> after.gate.closing
      ensures after.threads[j] == GateAsleep ==> after.gate.active != 0
    {
      assert Waits(after.threads[j]) ==> Waits(s.threads[j]);
    }
  }

  lemma GateStepKeepsInv(s: Transport, a: Action)
    requires Inv(s) && Enabled(s, a) && OnGate(a)
    ensures Inv(Perform(s, a)) && Perform(s, a).state == s.state
  {
    if a.DoDestroy? {
      GateTestKeepsInv(s.(registered := false, gate := BeginClose(s.gate)), a.t);
    } else if a.GateSpurious? {
      Moved(s.threads, a.t, GateWoken);
    } else if a.GateRecheck? {
      GateTestKeepsInv(s, a.t);
    } else if a.Ask? {
      AskKeepsInv(s, a.t);
    } else if a.Call? {
      CallKeepsInv(s, a.t);
    } else if a.Return? {
      ReturnKeepsInv(s, a.t);
    } else {
      LeaveKeepsInv(s, a.t);
    }
  }

  lemma StepKeepsInv(s: Transport, a: Action)
    requires Inv(s) && Enabled(s, a)
    ensures Inv(Perform(s, a))
    ensures Perform(s, a).state.lifecycle.Rank() >= s.state.lifecycle.Rank()
  {
    if OnGate(a) {
      GateStepKeepsInv(s, a);
    } else {
      SectionsAreSound(s, a);
      SoundKeepsInv(s, a.t, EffectOf(s.state, s.cancelled, s.threads[a.t], a));
    }
  }

  lemma {:induction false} RunKeepsInv(start: Transport, actions: seq<Action>, end: Transport)
    requires Inv(start) && Run(start, actions, end)
    ensures Inv(end)
    ensures end.state.lifecycle.Rank() >= start.state.lifecycle.Rank()
    decreases |actions|
  {
    if actions != [] {
      StepKeepsInv(start, actions[0]);
      RunKeepsInv(Perform(start, actions[0]), actions[1..], end);
    }
  }

  // ----- the results

  /** The lifecycle only moves forward, over any run from any reachable state. */
  lemma LifecycleOnlyForward(threads: seq<Pc>, before: seq<Action>, middle: Transport, after: seq<Action>,
                             end: Transport)
    requires forall i :: 0 <= i < |threads| ==> threads[i] == Idle
    requires Run(Initial(threads), before, middle) && Run(middle, after, end)
    ensures middle.state.lifecycle.Rank() <= end.state.lifecycle.Rank()
  {
    InitialInv(threads);
    RunKeepsInv(Initial(threads), before, middle);
    RunKeepsInv(middle, after, end);
  }

  /**
   * In every reachable state the channel and the outbound queue are present exactly in Connected, the
   * endpoint is there whenever it is needed, and each of the two final callbacks has run at most once.
   */
  lemma ReachableStates(threads: seq<Pc>, actions: seq<Action>, end: Transport)
    requires forall i :: 0 <= i < |threads| ==> threads[i] == Idle
    requires Run(Initial(threads), actions, end)
    ensures end.state.channel <==> end.state.lifecycle == Connected
    ensures end.state.outbound <==> end.state.lifecycle == Connected
    ensures ConnectSection(end.state).1 <==> end.state.lifecycle == Bound
    ensures EnqueueSection(end.state) <==> end.state.lifecycle == Connected
    ensures end.disconnects <= 1
    ensures end.disconnects == 1 ==> end.state.lifecycle == Failed || end.state.lifecycle == Closed
    ensures end.closes <= 1 && (end.closes == 1 ==> end.state.lifecycle == Closed)
    ensures end.gate.active == Total(end.threads, HoldsLease) && Total(end.threads, InCallback) <= 1
  {
    InitialInv(threads);
    RunKeepsInv(Initial(threads), actions, end);
  }

  lemma {:induction false} DrainedStays(start: Transport, actions: seq<Action>, end: Transport)
    requires Inv(start) && start.drained && Run(start, actions, end)
    ensures end.drained && end.disconnects == start.disconnects && end.closes == start.closes
    decreases |actions|
  {
    if actions != [] {
      StepKeepsInv(start, actions[0]);
      TotalAtLeast(start.threads, HoldsLease, actions[0].t);
      DrainedStays(Perform(start, actions[0]), actions[1..], end);
    }
  }

  /** After destroy has come back from the gate, no callback runs and none ever runs again. */
  lemma NoCallbackAfterDestroy(threads: seq<Pc>, before: seq<Action>, middle: Transport, after: seq<Action>,
                               end: Transport)
    requires forall i :: 0 <= i < |threads| ==> threads[i] == Idle
    requires Run(Initial(threads), before, middle) && middle.drained && Run(middle, after, end)
    ensures forall i :: 0 <= i < |end.threads| ==> !end.threads[i].Calling? && !end.threads[i].Leased?
    ensures end.disconnects == middle.disconnects && end.closes == middle.closes
  {
    InitialInv(threads);
    RunKeepsInv(Initial(threads), before, middle);
    RunKeepsInv(middle, after, end);
    DrainedStays(middle, after, end);
    forall i | 0 <= i < |end.threads|
      ensures HoldsLease(end.threads[i]) == 0
    {
      TotalAtLeast(end.threads, HoldsLease, i);
    }
  }

  // ----- the two final callbacks

  /** Disconnect callbacks run or still to run. */
  function Disconnects(s: Transport): nat { Total(s.threads, OwesDisconnect) + s.disconnects }

  lemma MoveOwes(threads: seq<Pc>, i: nat, pc: Pc)
    requires i < |threads|
    ensures Total(threads[i := pc], OwesDisconnect) + OwesDisconnect(threads[i])
         == Total(threads, OwesDisconnect) + OwesDisconnect(pc)
  {
    TotalUpdate(threads, OwesDisconnect, i, pc);
  }

  lemma EmitOwesNoMore(s: Transport, i: nat)
    requires i < |s.threads|
    ensures s.threads[i].Emitting? ==> Disconnects(AskGate(s, i)) <= Disconnects(s)
    ensures s.threads[i].Leased? ==> Disconnects(BeginCallback(s, i)) <= Disconnects(s)
  {
    MoveOwes(s.threads, i, Idle);
    if s.threads[i].Emitting? { MoveOwes(s.threads, i, Leased(s.threads[i].callback)); }
    if s.threads[i].Leased? { MoveOwes(s.threads, i, Calling(s.threads[i].callback)); }
  }

  lemma WaitOwesNoMore(s: Transport, i: nat)
    requires i < |s.threads|
    ensures Disconnects(GateTest(s, i)) <= Disconnects(s) && Disconnects(EndLease(s, i)) <= Disconnects(s)
    ensures Disconnects(Goto(s, i, GateWoken)) <= Disconnects(s)
    ensures Disconnects(Goto(s.(serial := false), i, Leaving)) <= Disconnects(s)
  {
    MoveOwes(s.threads, i, Destroying);
    MoveOwes(s.threads, i, GateAsleep);
    MoveOwes(s.threads, i, GateWoken);
    MoveOwes(s.threads, i, Leaving);
    MoveOwes(s.threads, i, Idle);
    Notified(s.threads[i := Idle]);
  }

  lemma GateStepOwesNoMore(s: Transport, a: Action)
    requires Enabled(s, a) && OnGate(a)
    ensures Disconnects(Perform(s, a)) <= Disconnects(s)
  {
    EmitOwesNoMore(s, a.t);
    WaitOwesNoMore(s, a.t);
    WaitOwesNoMore(s.(registered := false, gate := BeginClose(s.gate)), a.t);
  }

  lemma StepOwesNoMore(s: Transport, a: Action)
    requires Inv(s) && Enabled(s, a)
    ensures Disconnects(Perform(s, a)) + AfterFailure(s.state) <= Disconnects(s) + AfterFailure(Perform(s, a).state)
  {
    if OnGate(a) {
      GateStepOwesNoMore(s, a);
      GateStepKeepsInv(s, a);
    } else {
      SectionsAreSound(s, a);
      Moved(s.threads, a.t, EffectOf(s.state, s.cancelled, s.threads[a.t], a).pc);
    }
  }

  lemma {:induction false} RunOwesNoMore(start: Transport, actions: seq<Action>, end: Transport)
    requires Inv(start) && AfterFailure(start.state) == 1 && Run(start, actions, end)
    ensures Disconnects(end) <= Disconnects(start)
    decreases |actions|
  {
    if actions != [] {
      StepKeepsInv(start, actions[0]);
      StepOwesNoMore(start, actions[0]);
      RunOwesNoMore(Perform(start, actions[0]), actions[1..], end);
    }
  }

  /** A disconnect callback after the close is one that a failure before the close already owed. */
  lemma LateDisconnectWasOwed(threads: seq<Pc>, before: seq<Action>, middle: Transport, after: seq<Action>,
                              end: Transport)
    requires forall i :: 0 <= i < |threads| ==> threads[i] == Idle
    requires Run(Initial(threads), before, middle) && middle.state.lifecycle == Closed && Run(middle, after, end)
    ensures end.disconnects > middle.disconnects ==>
      middle.disconnects == 0 && Total(middle.threads, OwesDisconnect) == 1
  {
    InitialInv(threads);
    RunKeepsInv(Initial(threads), before, middle);
    RunOwesNoMore(middle, after, end);
  }

  // ----- what each step does

  /** A bind moves a created transport, and only that, to Bound with its endpoint. */
  lemma BindTakesEffect(s: Transport, t: nat)
    requires Enabled(s, DoBind(t))
    ensures Perform(s, DoBind(t))
         == if s.state.lifecycle == Created
            then Goto(s.(state := QuicState(Bound, true, s.state.channel, s.state.outbound)), t, Emitting(State))
            else s
  {
  }

  /** A connect moves a bound transport, and only that, to Connecting. */
  lemma ConnectTakesEffect(s: Transport, t: nat)
    requires StateInv(s.state) && Enabled(s, DoConnect(t))
    ensures Perform(s, DoConnect(t))
         == if s.state.lifecycle == Bound
            then Goto(s.(state := QuicState(Connecting, true, false, false)), t, Emitting(State))
            else s
  {
  }

  /** An established channel is kept exactly by a connecting transport that is not cancelled and has its tasks. */
  lemma EstablishTakesEffect(s: Transport, t: nat, spawned: bool)
    requires StateInv(s.state) && Enabled(s, DoEstablish(t, spawned))
    ensures Perform(s, DoEstablish(t, spawned))
         == if s.state.lifecycle != Connecting || s.cancelled then s
            else if spawned then Goto(s.(state := QuicState(Connected, true, true, true)), t, Emitting(State))
            else Goto(s.(state := QuicState(Failed, true, false, false)), t, Emitting(Disconnect))
  {
  }

  /** A failure goes on exactly if nothing is cancelled yet. */
  lemma FailureLooks(s: Transport, t: nat)
    requires Enabled(s, FailLooks(t))
    ensures Perform(s, FailLooks(t)) == if s.cancelled then s else Goto(s, t, Failing)
  {
  }

  /** The first failure before a close moves to Failed, drops channel and queue, and owes the disconnect. */
  lemma FailureTakesEffect(s: Transport, t: nat)
    requires Enabled(s, FailLocks(t))
    ensures
      var after := Perform(s, FailLocks(t));
      if s.state.lifecycle == Failed || s.state.lifecycle == Closed then after == Goto(s, t, Idle)
      else
        && after == Goto(s.(state := QuicState(Failed, s.state.endpoint, false, false)), t, Cancelling)
        && OwesDisconnect(after.threads[t]) == 1
  {
  }

  /** The first close drops everything and owes the closed callback; that of a destroy owes none. */
  lemma CloseTakesEffect(s: Transport, t: nat)
    ensures Enabled(s, DoClose(t)) ==>
      var after := Perform(s, DoClose(t));
      if s.state.lifecycle == Closed then after == s
      else
        && after == Goto(s.(state := QuicState(Closed, false, false, false)), t, ClosingDown(true))
        && OwesClosed(after.threads[t]) == 1
    ensures Enabled(s, FinishDestroy(t)) ==>
      Perform(s, FinishDestroy(t))
      == if s.state.lifecycle == Closed then Goto(s, t, Idle)
         else Goto(s.(state := QuicState(Closed, false, false, false)), t, ClosingDown(false))
  {
  }

  /** A destroy takes the handle out of the table, closes the gate, and waits exactly while a lease is live. */
  lemma DestroyTakesEffect(s: Transport, t: nat)
    requires Inv(s) && Enabled(s, DoDestroy(t))
    ensures
      var closed := s.(registered := false, gate := Gate(true, s.gate.active));
      Perform(s, DoDestroy(t))
      == if Total(s.threads, HoldsLease) == 0 then Goto(closed.(drained := true), t, Destroying)
         else Goto(closed, t, GateAsleep)
  {
  }

  /** The steps a thread that owes a final callback still has to take until it is in it. */
  function StepsToCallback(pc: Pc, t: nat): seq<Action> {
    if pc.Emitting? then [Ask(t)] + [Call(t)]
    else if pc.Leased? then [Call(t)]
    else [DoCancel(t)] + ([Ask(t)] + [Call(t)])
  }

  /** The callback a thread owes. */
  function Owed(pc: Pc): Callback {
    if pc.Emitting? || pc.Leased? then pc.callback else if pc == Cancelling then Disconnect else ClosedCallback
  }

  /** The transport with thread `t` in its final callback. */
  function InFinalCallback(s: Transport, t: nat, callback: Callback): Transport
    requires t < |s.threads|
  {
    var leased := if s.threads[t].Leased? then s else s.(gate := Gate(false, s.gate.active + 1));
    Goto(leased.(cancelled := s.cancelled || !(s.threads[t].Emitting? || s.threads[t].Leased?),
                 serial := true,
                 disconnects := s.disconnects + (if callback == Disconnect then 1 else 0),
                 closes := s.closes + (if callback == ClosedCallback then 1 else 0)),
         t, Calling(callback))
  }

  /** After its section, a thread cancels and goes on to the callback it owes. */
  lemma CancelTakesEffect(s: Transport, t: nat)
    requires Enabled(s, DoCancel(t))
    ensures
      var pc := s.threads[t];
      Perform(s, DoCancel(t))
      == Goto(s.(cancelled := true), t, if pc == ClosingDown(false) then Idle else Emitting(Owed(pc)))
  {
  }

  /** The gate grants a lease exactly while it is open. */
  lemma AskTakesEffect(s: Transport, t: nat)
    requires Enabled(s, Ask(t))
    ensures Perform(s, Ask(t))
         == if s.gate.closing then Goto(s, t, Idle)
            else Goto(s.(gate := Gate(false, s.gate.active + 1)), t, Leased(s.threads[t].callback))
  {
  }

  lemma OneStep(s: Transport, a: Action, rest: seq<Action>, end: Transport)
    requires Enabled(s, a) && Run(Perform(s, a), rest, end)
    ensures Run(s, [a] + rest, end)
  {
    assert ([a] + rest)[1..] == rest;
  }

  lemma CallRuns(s: Transport, t: nat)
    requires t < |s.threads| && s.threads[t].Leased? && !s.serial
    ensures Run(s, [Call(t)], InFinalCallback(s, t, s.threads[t].callback))
  {
    var end := Perform(s, Call(t));
    assert Run(end, [], end);
    OneStep(s, Call(t), [], end);
    assert [Call(t)] + [] == [Call(t)];
  }

  lemma AskRuns(s: Transport, t: nat)
    requires t < |s.threads| && s.threads[t].Emitting? && !s.serial && !s.gate.closing
    ensures Run(s, [Ask(t)] + [Call(t)], InFinalCallback(s, t, s.threads[t].callback))
  {
    AskTakesEffect(s, t);
    SameLeasedCallback(s, t);
    CallRuns(Perform(s, Ask(t)), t);
    OneStep(s, Ask(t), [Call(t)], InFinalCallback(s, t, s.threads[t].callback));
  }

  lemma SameLeasedCallback(s: Transport, t: nat)
    requires t < |s.threads| && s.threads[t].Emitting? && !s.gate.closing
    ensures
      var callback := s.threads[t].callback;
      InFinalCallback(Goto(s.(gate := Gate(false, s.gate.active + 1)), t, Leased(callback)), t, callback)
      == InFinalCallback(s, t, callback)
  {
    var callback := s.threads[t].callback;
    assert s.threads[t := Leased(callback)][t := Calling(callback)] == s.threads[t := Calling(callback)];
  }

  lemma CancelRuns(s: Transport, t: nat)
    requires t < |s.threads| && (s.threads[t] == Cancelling || s.threads[t] == ClosingDown(true))
    requires !s.serial && !s.gate.closing
    ensures Run(s, [DoCancel(t)] + ([Ask(t)] + [Call(t)]), InFinalCallback(s, t, Owed(s.threads[t])))
  {
    CancelTakesEffect(s, t);
    SameFinalCallback(s, t);
    AskRuns(Perform(s, DoCancel(t)), t);
    OneStep(s, DoCancel(t), [Ask(t)] + [Call(t)], InFinalCallback(s, t, Owed(s.threads[t])));
  }

  lemma SameFinalCallback(s: Transport, t: nat)
    requires t < |s.threads| && !s.threads[t].Emitting? && !s.threads[t].Leased? && !s.gate.closing
    ensures
      var callback := Owed(s.threads[t]);
      InFinalCallback(Goto(s.(cancelled := true), t, Emitting(callback)), t, callback)
      == InFinalCallback(s, t, callback)
  {
    var callback := Owed(s.threads[t]);
    assert s.threads[t := Emitting(callback)][t := Calling(callback)] == s.threads[t := Calling(callback)];
  }

  /**
   * With the gate open, or a lease already held, and the callback lock free, a thread that owes a final
   * callback gets into it by its own steps, and it is the first and only one of its kind.
   */
  lemma OwedCallbackRuns(s: Transport, t: nat)
    requires Inv(s) && t < |s.threads| && !s.serial && (s.gate.closing ==> s.threads[t].Leased?)
    requires OwesDisconnect(s.threads[t]) == 1 || OwesClosed(s.threads[t]) == 1
    ensures
      var pc := s.threads[t];
      var end := InFinalCallback(s, t, Owed(pc));
      && Run(s, StepsToCallback(pc, t), end) && end.threads[t] == Calling(Owed(pc))
      && (OwesDisconnect(pc) == 1 ==> s.disconnects == 0 && end.disconnects == 1 && end.closes == s.closes)
      && (OwesClosed(pc) == 1 ==> s.closes == 0 && end.closes == 1 && end.disconnects == s.disconnects)
  {
    TotalAtLeast(s.threads, OwesDisconnect, t);
    TotalAtLeast(s.threads, OwesClosed, t);
    if s.threads[t].Leased? {
      CallRuns(s, t);
    } else if s.threads[t].Emitting? {
      AskRuns(s, t);
    } else {
      CancelRuns(s, t);
    }
  }

  // ----- while the gate is open, no final callback is lost

  /** Closed callbacks run or still to run. */
  function Closes(s: Transport): nat { Total(s.threads, OwesClosed) + s.closes }

  ghost predicate PastGate(pc: Pc) { pc == Destroying || pc == ClosingDown(false) }

  /** A destroy past the gate has closed it; with the gate open, a failure or close still has its callback. */
  ghost predicate NothingLost(s: Transport) {
    && (forall i :: 0 <= i < |s.threads| && PastGate(s.threads[i]) ==> s.gate.closing)
    && (!s.gate.closing && s.state.lifecycle == Failed ==> Disconnects(s) >= 1)
    && (!s.gate.closing && s.state.lifecycle == Closed ==> Closes(s) >= 1)
  }

  /** Where a thread may go: it keeps what it owes until it has called, and a failure or close owes. */
  lemma MoveLosesNothing(s: Transport, after: Transport, i: nat, pc: Pc)
    requires NothingLost(s) && i < |s.threads| && after.threads == s.threads[i := pc]
    requires (s.gate.closing || PastGate(pc)) ==> after.gate.closing
    requires !after.gate.closing && after.state.lifecycle == Failed ==>
      || OwesDisconnect(pc) == 1
      || (s.state.lifecycle == Failed
          && OwesDisconnect(pc) + after.disconnects >= OwesDisconnect(s.threads[i]) + s.disconnects)
    requires !after.gate.closing && after.state.lifecycle == Closed ==>
      || OwesClosed(pc) == 1
      || (s.state.lifecycle == Closed && OwesClosed(pc) + after.closes >= OwesClosed(s.threads[i]) + s.closes)
    ensures NothingLost(after)
  {
    TotalUpdate(s.threads, OwesDisconnect, i, pc);
    TotalUpdate(s.threads, OwesClosed, i, pc);
    TotalAtLeast(after.threads, OwesDisconnect, i);
    TotalAtLeast(after.threads, OwesClosed, i);
  }

  lemma SectionLosesNothing(s: Transport, a: Action)
    requires StateInv(s.state) && NothingLost(s) && Enabled(s, a) && !OnGate(a)
    ensures NothingLost(Perform(s, a))
  {
    var e := EffectOf(s.state, s.cancelled, s.threads[a.t], a);
    MoveLosesNothing(s, Perform(s, a), a.t, e.pc);
  }

  lemma EndLosesNothing(s: Transport, i: nat)
    requires NothingLost(s) && i < |s.threads| && s.threads[i] == Leaving
    ensures NothingLost(EndLease(s, i))
  {
    var left := Goto(s.(gate := Leave(s.gate)), i, Idle);
    MoveLosesNothing(s, left, i, Idle);
    NotifyLosesNothing(left);
  }

  lemma NotifyLosesNothing(s: Transport)
    requires NothingLost(s)
    ensures NothingLost(s.(threads := NotifyAll(s.threads)))
  {
    Notified(s.threads);
    var after := NotifyAll(s.threads);
    assert forall j :: 0 <= j < |after| && PastGate(after[j]) ==> PastGate(s.threads[j]);
  }

  lemma GateStepLosesNothing(s: Transport, a: Action)
    requires Inv(s) && NothingLost(s) && Enabled(s, a) && OnGate(a)
    ensures NothingLost(Perform(s, a))
  {
    if a.DropLease? {
      EndLosesNothing(s, a.t);
    } else {
      MoveLosesNothing(s, Perform(s, a), a.t, Perform(s, a).threads[a.t]);
    }
  }

  lemma {:induction false} RunLosesNothing(start: Transport, actions: seq<Action>, end: Transport)
    requires Inv(start) && NothingLost(start) && Run(start, actions, end)
    ensures NothingLost(end)
    decreases |actions|
  {
    if actions != [] {
      StepKeepsInv(start, actions[0]);
      if OnGate(actions[0]) {
        GateStepLosesNothing(start, actions[0]);
      } else {
        SectionLosesNothing(start, actions[0]);
      }
      RunLosesNothing(Perform(start, actions[0]), actions[1..], end);
    }
  }

  /**
   * In every reachable state with the gate open the two counts are exact: before a failure no disconnect
   * callback has run or is owed, in Failed exactly one, and the same for the close.
   */
  lemma CallbacksAreExact(threads: seq<Pc>, actions: seq<Action>, end: Transport)
    requires forall i :: 0 <= i < |threads| ==> threads[i] == Idle
    requires Run(Initial(threads), actions, end) && !end.gate.closing
    ensures end.state.lifecycle != Failed && end.state.lifecycle != Closed ==> Disconnects(end) == 0
    ensures end.state.lifecycle == Failed ==> Disconnects(end) == 1
    ensures Closes(end) == if end.state.lifecycle == Closed then 1 else 0
  {
    InitialInv(threads);
    RunKeepsInv(Initial(threads), actions, end);
    RunLosesNothing(Initial(threads), actions, end);
  }
}
