/** The callback gate: leases counted under a lock, and a close that waits for the last of them. */
module CallbackGate {
  import opened Counting

  datatype Gate = Gate(closing: bool, active: nat)

  const OPEN_GATE := Gate(false, 0)

  /** `enter` under the lock: the new state, and whether a lease is granted. */
  function Enter(g: Gate): (Gate, bool) {
    if g.closing then (g, false) else (g.(active := g.active + 1), true)
  }

  /** A lease's drop under the lock, with its saturating subtraction. */
  function Leave(g: Gate): Gate { g.(active := if g.active == 0 then 0 else g.active - 1) }

  /** What `close_and_wait` does before it first waits or returns. */
  function BeginClose(g: Gate): Gate { g.(closing := true) }

  // ----- the object

  class SharedGate {
    var closing: bool
    var active: nat

    constructor ()
      ensures Current() == OPEN_GATE
    {
      closing, active := false, 0;
    }

    function Current(): Gate
      reads this
    {
      Gate(closing, active)
    }

    method TryEnter() returns (granted: bool)
      modifies this
      ensures (Current(), granted) == Enter(old(Current()))
    {
      if closing {
        return false;
      }
      active := active + 1;
      return true;
    }

    /** Returns whether the waiting closers are notified. */
    method DropLease() returns (notify: bool)
      modifies this
      ensures Current() == Leave(old(Current())) && notify == (active == 0)
    {
      active := if active == 0 then 0 else active - 1;
      return active == 0;
    }

    /** The closer's first critical section; it goes on to wait unless it returns. */
    method StartClosing() returns (done: bool)
      modifies this
      ensures Current() == BeginClose(old(Current())) && done == (active == 0)
    {
      closing := true;
      return active == 0;
    }
  }

  // ----- any number of threads around one gate

  /** Where a thread is in `close_and_wait`: not in it, asleep on the condition, or woken and about to test again. */
  datatype Wait = Outside | Asleep | Woken

  /** A thread and the leases it holds; a callback runs exactly while its lease is held. */
  datatype Thread = Thread(leases: nat, wait: Wait)

  function Leases(t: Thread): nat { t.leases }

  /** The gate, the threads, and whether some `close_and_wait` has returned. */
  datatype System = System(gate: Gate, threads: seq<Thread>, closed: bool)

  datatype Action =
    | TryEnter(t: nat)
    | DropOne(t: nat)
    | Close(t: nat)
    /** A wake-up without a notification. */
    | Spurious(t: nat)
    /** A woken closer has the lock again and tests. */
    | Recheck(t: nat)

  predicate Enabled(s: System, a: Action) {
    && a.t < |s.threads|
    && var t := s.threads[a.t];
       match a
       case TryEnter(_) => t.wait == Outside
       case DropOne(_) => t.wait == Outside && t.leases > 0
       case Close(_) => t.wait == Outside
       case Spurious(_) => t.wait == Asleep
       case Recheck(_) => t.wait == Woken
  }

  function WakeUp(t: Thread): Thread { if t.wait == Asleep then t.(wait := Woken) else t }

  /** `notify_all` */
  function NotifyAll(threads: seq<Thread>): seq<Thread> { Each(threads, WakeUp) }

  /** The closer's test, at its start and after each wake-up. */
  function Test(s: System, i: nat): System
    requires i < |s.threads|
  {
    if s.gate.active == 0 then s.(threads := s.threads[i := s.threads[i].(wait := Outside)], closed := true)
    else s.(threads := s.threads[i := s.threads[i].(wait := Asleep)])
  }

  function Perform(s: System, a: Action): System
    requires Enabled(s, a)
  {
    var t := s.threads[a.t];
    match a
    case TryEnter(i) =>
      var (gate, granted) := Enter(s.gate);
      s.(gate := gate, threads := s.threads[i := t.(leases := t.leases + if granted then 1 else 0)])
    case DropOne(i) =>
      var gate := Leave(s.gate);
      var threads := s.threads[i := t.(leases := t.leases - 1)];
      s.(gate := gate, threads := if gate.active == 0 then NotifyAll(threads) else threads)
    case Close(i) => Test(s.(gate := BeginClose(s.gate)), i)
    case Spurious(i) => s.(threads := s.threads[i := t.(wait := Woken)])
    case Recheck(i) => Test(s, i)
  }

  /** The states a run goes through, each action applied where it is enabled. */
  ghost predicate Run(start: System, actions: seq<Action>, end: System)
    decreases |actions|
  {
    if actions == [] then start == end
    else Enabled(start, actions[0]) && Run(Perform(start, actions[0]), actions[1..], end)
  }

  // ----- what every run keeps

  ghost predicate Inv(s: System) {
    && s.gate.active == Total(s.threads, Leases)
    && (forall i :: 0 <= i < |s.threads| && s.threads[i].wait != Outside ==> s.gate.closing)
    && (forall i :: 0 <= i < |s.threads| && s.threads[i].wait == Asleep ==> s.gate.active != 0)
    && (s.closed ==> s.gate.closing && s.gate.active == 0)
  }

  lemma InitialInv(threads: seq<Thread>)
    requires forall i :: 0 <= i < |threads| ==> threads[i] == Thread(0, Outside)
    ensures Inv(System(OPEN_GATE, threads, false))
  {
    TotalZero(threads, Leases);
  }

  /** Dropping a lease finds at least one counted, so the subtraction never saturates. */
  lemma DropFindsALease(s: System, t: nat)
    requires Inv(s) && Enabled(s, DropOne(t))
    ensures s.gate.active > 0
  {
    TotalAtLeast(s.threads, Leases, t);
  }

  lemma StepKeepsCount(s: System, a: Action)
    requires Inv(s) && Enabled(s, a)
    ensures Perform(s, a).gate.active == Total(Perform(s, a).threads, Leases)
  {
    var t := s.threads[a.t];
    if a.TryEnter? {
      TotalUpdate(s.threads, Leases, a.t, t.(leases := t.leases + 1));
      TotalUpdate(s.threads, Leases, a.t, t.(leases := t.leases + 0));
    } else if a.DropOne? {
      DropFindsALease(s, a.t);
      var threads := s.threads[a.t := t.(leases := t.leases - 1)];
      TotalUpdate(s.threads, Leases, a.t, t.(leases := t.leases - 1));
      TotalSame(threads, NotifyAll(threads), Leases);
    } else {
      TotalUpdate(s.threads, Leases, a.t, t.(wait := Outside));
      TotalUpdate(s.threads, Leases, a.t, t.(wait := Asleep));
      TotalUpdate(s.threads, Leases, a.t, t.(wait := Woken));
    }
  }

  lemma StepKeepsInv(s: System, a: Action)
    requires Inv(s) && Enabled(s, a)
    ensures Inv(Perform(s, a))
  {
    StepKeepsCount(s, a);
    if a.DropOne? { DropFindsALease(s, a.t); }
  }

  lemma {:induction false} RunKeepsInv(start: System, actions: seq<Action>, end: System)
    requires Inv(start) && Run(start, actions, end)
    ensures Inv(end) && |end.threads| == |start.threads|
    decreases |actions|
  {
    if actions != [] {
      StepKeepsInv(start, actions[0]);
      RunKeepsInv(Perform(start, actions[0]), actions[1..], end);
    }
  }

  /** In every reachable state the count is the number of live leases, and nobody sleeps with none left. */
  lemma ReachableStates(threads: seq<Thread>, actions: seq<Action>, end: System)
    requires forall i :: 0 <= i < |threads| ==> threads[i] == Thread(0, Outside)
    requires Run(System(OPEN_GATE, threads, false), actions, end)
    ensures end.gate.active == Total(end.threads, Leases)
    ensures end.gate.active == 0 ==>
      forall i :: 0 <= i < |end.threads| && end.threads[i].wait != Outside ==>
        && Enabled(end, Recheck(i)) && Perform(end, Recheck(i)).closed
        && Perform(end, Recheck(i)).threads[i].wait == Outside
  {
    InitialInv(threads);
    RunKeepsInv(System(OPEN_GATE, threads, false), actions, end);
  }

  lemma {:induction false} ClosedStays(start: System, actions: seq<Action>, end: System)
    requires Inv(start) && start.closed && Run(start, actions, end)
    ensures end.closed
    decreases |actions|
  {
    if actions != [] {
      StepKeepsInv(start, actions[0]);
      ClosedStays(Perform(start, actions[0]), actions[1..], end);
    }
  }

  /** Once a close has returned, in every later state no lease is live and none will be granted. */
  lemma NothingAfterClose(start: System, actions: seq<Action>, end: System)
    requires Inv(start) && start.closed && Run(start, actions, end)
    ensures forall i :: 0 <= i < |end.threads| ==> end.threads[i].leases == 0
    ensures forall i: nat :: Enabled(end, TryEnter(i)) ==> Perform(end, TryEnter(i)).threads[i].leases == 0
  {
    ClosedStays(start, actions, end);
    RunKeepsInv(start, actions, end);
    forall i | 0 <= i < |end.threads|
      ensures end.threads[i].leases == 0
    {
      TotalAtLeast(end.threads, Leases, i);
    }
  }

  /** A closer that itself holds a lease waits for ever: no run lets its close return. */
  lemma {:induction false} HolderNeverReturns(start: System, actions: seq<Action>, end: System, i: nat)
    requires Inv(start) && Run(start, actions, end) && i < |start.threads|
    requires start.threads[i].wait != Outside && start.threads[i].leases > 0
    ensures i < |end.threads| && end.threads[i].wait != Outside && end.threads[i].leases == start.threads[i].leases
    decreases |actions|
  {
    if actions != [] {
      TotalAtLeast(start.threads, Leases, i);
      StepKeepsInv(start, actions[0]);
      HolderNeverReturns(Perform(start, actions[0]), actions[1..], end, i);
    }
  }

  // ----- what each step does

  /** A lease is granted exactly while no close has begun, and is counted. */
  lemma GrantsIff(s: System, i: nat)
    requires Enabled(s, TryEnter(i))
    ensures Perform(s, TryEnter(i))
         == if s.gate.closing then s
            else System(Gate(false, s.gate.active + 1),
                        s.threads[i := Thread(s.threads[i].leases + 1, Outside)], s.closed)
  {
  }

  /** A dropped lease is counted off, and the last of them wakes every closer. */
  lemma DropCountsOff(s: System, i: nat, j: nat)
    requires Inv(s) && Enabled(s, DropOne(i)) && j < |s.threads|
    ensures
      var after := Perform(s, DropOne(i));
      && after.gate.closing == s.gate.closing && after.gate.active + 1 == s.gate.active && after.closed == s.closed
      && |after.threads| == |s.threads|
      && after.threads[j].leases == s.threads[j].leases - (if j == i then 1 else 0)
      && (s.gate.active == 1 ==> after.threads[j].wait != Asleep)
      && (after.threads[j].wait == Outside <==> s.threads[j].wait == Outside)
  {
    DropFindsALease(s, i);
  }

  /** A close, and each test of a woken closer, returns exactly when no lease is live. */
  lemma CloseReturnsIff(s: System, i: nat)
    requires Inv(s) && (Enabled(s, Close(i)) || Enabled(s, Recheck(i)))
    ensures
      var after := if Enabled(s, Close(i)) then Perform(s, Close(i)) else Perform(s, Recheck(i));
      && after.gate == Gate(true, s.gate.active)
      && (after.threads[i].wait == Outside <==> forall j :: 0 <= j < |s.threads| ==> s.threads[j].leases == 0)
      && (after.threads[i].wait == Outside ==> after.closed)
      && (after.threads[i].wait != Outside ==> after.threads[i].wait == Asleep && after.closed == s.closed)
  {
    if s.gate.active == 0 {
      forall j | 0 <= j < |s.threads| ensures s.threads[j].leases == 0 {
        TotalAtLeast(s.threads, Leases, j);
      }
    } else if forall j :: 0 <= j < |s.threads| ==> s.threads[j].leases == 0 {
      TotalZero(s.threads, Leases);
    }
  }
}
