/** The signal worker: connect, stay online, and reconnect a bounded number of times. */
module SignalWorker {
  import opened Bytes
  import opened SignalHello
  import opened SignalMachine

  /** The calls made on the machine so far. */
  datatype Log = Start | Then(earlier: Log, call: Call)

  /** The machine after a log of calls. */
  function After(log: Log): Machine {
    match log
    case Start => IDLE
    case Then(earlier, call) => Do(After(earlier), call)
  }

  function Calls(log: Log): seq<Call> {
    match log
    case Start => []
    case Then(earlier, call) => Calls(earlier) + [call]
  }

  lemma {:induction false} AtPrefix(calls: seq<Call>, more: seq<Call>, n: nat)
    requires n <= |calls|
    ensures At(calls + more, n) == At(calls, n)
  {
    if n > 0 { AtPrefix(calls, more, n - 1); }
  }

  /** The log's machine is the machine after its calls. */
  lemma {:induction false} AfterItsCalls(log: Log)
    ensures At(Calls(log), |Calls(log)|) == After(log)
  {
    if log.Then? {
      AfterItsCalls(log.earlier);
      AtPrefix(Calls(log.earlier), [log.call], |Calls(log.earlier)|);
    }
  }

  // ----- one connection attempt

  /** What comes back after the hello response, or what goes wrong on the way. */
  datatype Answer =
    | SendFails(error: SignalError)
    | NoHello(error: SignalError)
    | NoType(error: SignalError)
    | Rejected
    | OtherType
    | Unreadable
    | Hello(hello: HelloOk, listFails: Option<SignalError>)

  /** What the network does to one attempt. */
  datatype Attempt =
    | NoSocket(error: SignalError)
    | NoChallenge(error: SignalError)
    | BadChallenge(error: SignalError)
    | Challenged(challenge: HelloChallenge, now: u64, nonce: Bytes32, answer: Answer)

  /** `establish_connection`: the calls it adds to the log, and its result. */
  function Establish(log: Log, client: Client, a: Attempt): (Log, Outcome) {
    match a
    case NoSocket(e) => (log, Err(e))
    case NoChallenge(e) => (log, Err(e))
    case BadChallenge(e) => (Then(log, CallFail), Err(e))
    case Challenged(c, now, nonce, answer) =>
      var built := Then(log, CallBuild(c, client, now, nonce));
      match BuildHelloResponse(After(log), c, client, now, nonce).1
      case Err(e) => (built, Err(e))
      case Ok(_) => Answered(built, answer)
  }

  function Answered(log: Log, answer: Answer): (Log, Outcome) {
    match answer
    case SendFails(e) => (log, Err(e))
    case NoHello(e) => (log, Err(e))
    case NoType(e) => (log, Err(e))
    case Rejected => (Then(log, CallFail), Err(AuthenticationRejected))
    case OtherType => (Then(log, CallFail), Err(InvalidServerMessage))
    case Unreadable => (Then(log, CallFail), Err(InvalidServerMessage))
    case Hello(hello, listFails) =>
      match AcceptHelloOk(After(log), hello).1
      case Err(e) => (Then(log, CallAccept(hello)), Err(e))
      case Ok(_) => (Then(log, CallAccept(hello)), if listFails.Some? then Err(listFails.value) else Ok(()))
  }

  /**
   * An attempt succeeds exactly when a fitting challenge is answered by a matching hello and the list
   * request goes out.
   */
  lemma EstablishedIff(log: Log, client: Client, a: Attempt)
    requires After(log).state == AwaitingChallenge
    ensures Establish(log, client, a).1.Ok? <==>
      && a.Challenged? && Answerable(a.challenge, client, a.now, a.nonce) && a.answer.Hello?
      && Matches(ExpectedBy(CallBuild(a.challenge, client, a.now, a.nonce)), a.answer.hello)
      && a.answer.listFails.None?
    ensures Establish(log, client, a).1.Ok? ==> After(Establish(log, client, a).0) == Machine(Online, None)
  {
    if a.Challenged? {
      var call := CallBuild(a.challenge, client, a.now, a.nonce);
      BuildsIff(After(log), call);
      assert After(Then(log, call)) == Do(After(log), call);
    }
  }

  method EstablishConnection(machine: SignalStateMachine, client: Client, a: Attempt, ghost log: Log)
    returns (r: Outcome)
    requires machine.Current() == After(log) && client.RespondsAsSpecified()
    modifies machine
    ensures machine.Current() == After(Establish(log, client, a).0) && r == Establish(log, client, a).1
  {
    match a {
      case NoSocket(e) => return Err(e);
      case NoChallenge(e) => return Err(e);
      case BadChallenge(e) =>
        machine.Fail();
        return Err(e);
      case Challenged(c, now, nonce, answer) =>
        var built := machine.BuildResponse(c, client, now, nonce);
        if built.Err? {
          return Err(built.error);
        }
        r := FinishHandshake(machine, answer, Then(log, CallBuild(c, client, now, nonce)));
    }
  }

  method FinishHandshake(machine: SignalStateMachine, answer: Answer, ghost log: Log) returns (r: Outcome)
    requires machine.Current() == After(log)
    modifies machine
    ensures machine.Current() == After(Answered(log, answer).0) && r == Answered(log, answer).1
  {
    match answer {
      case SendFails(e) => return Err(e);
      case NoHello(e) => return Err(e);
      case NoType(e) => return Err(e);
      case Rejected =>
        machine.Fail();
        return Err(AuthenticationRejected);
      case OtherType =>
        machine.Fail();
        return Err(InvalidServerMessage);
      case Unreadable =>
        machine.Fail();
        return Err(InvalidServerMessage);
      case Hello(hello, listFails) =>
        var accepted := machine.Accept(hello);
        if accepted.Err? {
          return accepted;
        }
        if listFails.Some? {
          return Err(listFails.value);
        }
        return Ok(());
    }
  }

  // ----- reconnecting

  /** One round of the inner loop: cancelled while waiting, or an attempt. */
  datatype Retry = Retry(cancelled: bool, attempt: Attempt)

  function Began(log: Log): Log { Then(Then(log, CallMark), CallBegin) }

  /** A round: mark, wait, begin and try; a cancelled one disconnects. */
  function Round(log: Log, client: Client, round: Retry): (Log, Outcome) {
    if round.cancelled then (Then(Then(log, CallMark), CallDisconnect), Err(Cancelled))
    else
      var (tried, r) := Establish(Began(log), client, round.attempt);
      if r == Err(Cancelled) then (Then(tried, CallDisconnect), r) else (tried, r)
  }

  /** The `begin_connect` of a round always finds a machine it may connect. */
  lemma BeginAlwaysWorks(log: Log)
    ensures BeginConnect(After(Then(log, CallMark))).1 == Ok(())
    ensures After(Began(log)) == Machine(AwaitingChallenge, None)
  {
  }

  lemma RoundEnds(log: Log, client: Client, round: Retry)
    ensures Round(log, client, round).1.Ok? ==>
      !round.cancelled && After(Round(log, client, round).0) == Machine(Online, None)
    ensures Round(log, client, round).1 == Err(Cancelled) ==> After(Round(log, client, round).0) == IDLE
  {
    if round.cancelled {
    } else {
      BeginAlwaysWorks(log);
      EstablishedIff(Began(log), client, round.attempt);
    }
  }

  method RunRound(machine: SignalStateMachine, client: Client, round: Retry, ghost log: Log) returns (r: Outcome)
    requires machine.Current() == After(log) && client.RespondsAsSpecified()
    modifies machine
    ensures machine.Current() == After(Round(log, client, round).0) && r == Round(log, client, round).1
  {
    BeginAlwaysWorks(log);
    machine.MarkReconnecting();
    if round.cancelled {
      machine.Disconnect();
      return Err(Cancelled);
    }
    var began := machine.Begin();
    assert began.Ok?;
    r := EstablishConnection(machine, client, round.attempt, Began(log));
    if r == Err(Cancelled) {
      machine.Disconnect();
    }
  }

  /** Back online, stopped for good, or cut off by the end of what the network has done so far. */
  datatype End = Back | Stopped | Ongoing

  datatype RetryRun = RetryRun(log: Log, end: End, tries: nat)

  /** The inner loop from a lost connection on; `attempt` counts the rounds already made. */
  function RetryLoop(log: Log, client: Client, error: SignalError, attempt: nat, max: nat, retries: seq<Retry>)
    : RetryRun
    decreases |retries|
  {
    if !IsRetriable(error) || attempt >= max then RetryRun(Then(log, CallFail), Stopped, 0)
    else if retries == [] then RetryRun(log, Ongoing, 0)
    else
      var (tried, r) := Round(log, client, retries[0]);
      var made := if retries[0].cancelled then 0 else 1;
      if r.Ok? then RetryRun(tried, Back, made)
      else if r.error == Cancelled then RetryRun(tried, Stopped, made)
      else
        var rest := RetryLoop(tried, client, r.error, attempt + 1, max, retries[1..]);
        rest.(tries := rest.tries + made)
  }

  ghost predicate AtRest(m: Machine) { m == Machine(Failed, None) || m == IDLE }

  /** At most the configured number of tries, then online again or at rest. */
  lemma {:induction false} RetriesAreBounded(log: Log, client: Client, error: SignalError, attempt: nat, max: nat,
                                             retries: seq<Retry>)
    requires attempt <= max
    ensures
      var run := RetryLoop(log, client, error, attempt, max, retries);
      && attempt + run.tries <= max
      && (run.end == Back ==> run.tries > 0 && After(run.log) == Machine(Online, None))
      && (run.end == Stopped ==> AtRest(After(run.log)))
    decreases |retries|
  {
    if !IsRetriable(error) || attempt >= max {
    } else if retries != [] {
      RoundEnds(log, client, retries[0]);
      var (tried, r) := Round(log, client, retries[0]);
      if r.Err? && r.error != Cancelled {
        RetriesAreBounded(tried, client, r.error, attempt + 1, max, retries[1..]);
      }
    }
  }

  // ----- exactly when a round is tried again

  /** What an attempt comes to, whatever the calls before it. */
  function AttemptOutcome(client: Client, a: Attempt): Outcome {
    match a
    case NoSocket(e) => Err(e)
    case NoChallenge(e) => Err(e)
    case BadChallenge(e) => Err(e)
    case Challenged(c, now, nonce, answer) =>
      if !ChallengeFits(c, client, now) then Err(InvalidChallenge)
      else
        var response := client.respond(c, now, nonce);
        if response.Err? then Err(response.error) else AnswerOutcome(Expect(c, client, response.value), answer)
  }

  function AnswerOutcome(e: ExpectedHello, answer: Answer): Outcome {
    match answer
    case SendFails(error) => Err(error)
    case NoHello(error) => Err(error)
    case NoType(error) => Err(error)
    case Rejected => Err(AuthenticationRejected)
    case OtherType => Err(InvalidServerMessage)
    case Unreadable => Err(InvalidServerMessage)
    case Hello(hello, listFails) =>
      if !Matches(e, hello) then Err(HelloMismatch)
      else if listFails.Some? then Err(listFails.value)
      else Ok(())
  }

  lemma AttemptComesTo(log: Log, client: Client, a: Attempt)
    requires After(log) == Machine(AwaitingChallenge, None)
    ensures Establish(log, client, a).1 == AttemptOutcome(client, a)
  {
    if a.Challenged? {
      var call := CallBuild(a.challenge, client, a.now, a.nonce);
      BuildRefusals(After(log), a.challenge, client, a.now, a.nonce);
      BuildsIff(After(log), call);
      assert After(Then(log, call)) == Do(After(log), call);
    }
  }

  function RoundOutcome(client: Client, round: Retry): Outcome {
    if round.cancelled then Err(Cancelled) else AttemptOutcome(client, round.attempt)
  }

  lemma RoundComesTo(log: Log, client: Client, round: Retry)
    ensures Round(log, client, round).1 == RoundOutcome(client, round)
  {
    BeginAlwaysWorks(log);
    AttemptComesTo(Began(log), client, round.attempt);
  }

  /** The connection was closed, timed out or broke. */
  ghost predicate Lost(r: Outcome) {
    r == Err(Transport) || r == Err(TimedOut) || r == Err(ConnectionClosed)
  }

  /** What follows `n` rounds that each lost the connection. */
  ghost predicate FollowsLosses(run: RetryRun, client: Client, rounds: int, retries: seq<Retry>, n: nat)
    requires n <= |retries|
  {
    if rounds == 0 then run.end == Stopped && run.tries == n && After(run.log) == Machine(Failed, None)
    else if n == |retries| then run.end == Ongoing && run.tries == n
    else if retries[n].cancelled then run.end == Stopped && run.tries == n && After(run.log) == IDLE
    else if RoundOutcome(client, retries[n]).Ok? then
      run.end == Back && run.tries == n + 1 && After(run.log) == Machine(Online, None)
    else if RoundOutcome(client, retries[n]) == Err(Cancelled) then
      run.end == Stopped && run.tries == n + 1 && After(run.log) == IDLE
    else if Lost(RoundOutcome(client, retries[n])) then run.tries > n
    else run.end == Stopped && run.tries == n + 1 && After(run.log) == Machine(Failed, None)
  }

  /**
   * A lost connection is tried again as long as there are rounds left: after `n` rounds that lost it too,
   * one more is made unless it is cancelled, and only a full count, a cancellation, a success or
   * another error ends the loop.
   */
  lemma {:induction false} LossesAreRetried(log: Log, client: Client, error: SignalError, attempt: nat, max: nat,
                                            retries: seq<Retry>, n: nat)
    requires Lost(Err(error)) && n <= |retries| && attempt + n <= max
    requires forall i :: 0 <= i < n ==> Lost(RoundOutcome(client, retries[i]))
    ensures FollowsLosses(RetryLoop(log, client, error, attempt, max, retries), client, max - attempt - n, retries, n)
    decreases |retries|
  {
    if attempt < max && retries != [] {
      RetryStep(log, client, error, attempt, max, retries);
      RoundComesTo(log, client, retries[0]);
      RoundEnds(log, client, retries[0]);
      var (tried, r) := Round(log, client, retries[0]);
      if n > 0 {
        LossesAreRetried(tried, client, r.error, attempt + 1, max, retries[1..], n - 1);
      }
    }
  }

  /** Any other error ends the loop at once. */
  lemma OtherErrorsAreNot(log: Log, client: Client, error: SignalError, attempt: nat, max: nat, retries: seq<Retry>)
    requires !Lost(Err(error))
    ensures
      var run := RetryLoop(log, client, error, attempt, max, retries);
      run.end == Stopped && run.tries == 0 && After(run.log) == Machine(Failed, None)
  {
  }

  // ----- the worker

  /** One online period: how it ends, and the rounds that follow. */
  datatype Period = Period(online: Outcome, retries: seq<Retry>)

  datatype WorkerRun = WorkerRun(log: Log, stopped: bool, tries: seq<nat>)

  function LossOf(online: Outcome): SignalError { if online.Ok? then ConnectionClosed else online.error }

  function OnlineLoop(log: Log, client: Client, max: nat, periods: seq<Period>): WorkerRun
    decreases |periods|
  {
    if periods == [] then WorkerRun(log, false, [])
    else if periods[0].online == Err(Cancelled) then WorkerRun(Then(log, CallDisconnect), true, [])
    else
      var run := RetryLoop(log, client, LossOf(periods[0].online), 0, max, periods[0].retries);
      if run.end != Back then WorkerRun(run.log, run.end == Stopped, [run.tries])
      else
        var rest := OnlineLoop(run.log, client, max, periods[1..]);
        rest.(tries := [run.tries] + rest.tries)
  }

  /** A first attempt that fails is not retried. */
  function AfterFirst(log: Log, r: Outcome, client: Client, max: nat, periods: seq<Period>): WorkerRun {
    if r.Err? then WorkerRun(Then(log, if r.error == Cancelled then CallDisconnect else CallFail), true, [])
    else OnlineLoop(log, client, max, periods)
  }

  function Worker(log: Log, client: Client, max: nat, first: Attempt, periods: seq<Period>): WorkerRun {
    var (established, r) := Establish(log, client, first);
    AfterFirst(established, r, client, max, periods)
  }

  lemma {:induction false} OnlineLoopIsBounded(log: Log, client: Client, max: nat, periods: seq<Period>)
    requires After(log) == Machine(Online, None)
    ensures
      var run := OnlineLoop(log, client, max, periods);
      && (forall i :: 0 <= i < |run.tries| ==> run.tries[i] <= max)
      && (run.stopped ==> AtRest(After(run.log)))
    decreases |periods|
  {
    if periods != [] && periods[0].online != Err(Cancelled) {
      RetriesAreBounded(log, client, LossOf(periods[0].online), 0, max, periods[0].retries);
      var run := RetryLoop(log, client, LossOf(periods[0].online), 0, max, periods[0].retries);
      if run.end == Back { OnlineLoopIsBounded(run.log, client, max, periods[1..]); }
    }
  }

  /** No period makes more than `max` tries, and a stopped worker leaves the machine failed or disconnected. */
  ghost predicate WellBehaved(run: WorkerRun, max: nat) {
    && (forall i :: 0 <= i < |run.tries| ==> run.tries[i] <= max)
    && (run.stopped ==> AtRest(After(run.log)))
  }

  lemma AfterFirstIsBounded(log: Log, r: Outcome, client: Client, max: nat, periods: seq<Period>)
    requires r.Ok? ==> After(log) == Machine(Online, None)
    ensures WellBehaved(AfterFirst(log, r, client, max, periods), max)
  {
    if r.Ok? {
      OnlineLoopIsBounded(log, client, max, periods);
    } else {
    }
  }

  /**
   * Every run of the worker from a fresh connect: after each lost connection at most `max` tries
   * are made, and a worker that has stopped leaves the machine failed or disconnected.
   */
  lemma WorkerIsBounded(log: Log, client: Client, max: nat, first: Attempt, periods: seq<Period>)
    requires After(log).state == AwaitingChallenge
    ensures WellBehaved(Worker(log, client, max, first, periods), max)
  {
    EstablishedIff(log, client, first);
    var (established, r) := Establish(log, client, first);
    AfterFirstIsBounded(established, r, client, max, periods);
  }

  /** A first attempt that fails stops the worker; one that succeeds is followed by the first online period. */
  lemma FirstAttemptDecides(log: Log, client: Client, max: nat, first: Attempt, periods: seq<Period>)
    requires After(log) == Machine(AwaitingChallenge, None)
    ensures
      var run, r := Worker(log, client, max, first, periods), AttemptOutcome(client, first);
      && (r.Err? ==>
            && run.stopped && run.tries == []
            && After(run.log) == if r == Err(Cancelled) then IDLE else Machine(Failed, None))
      && (r.Ok? && periods == [] ==> !run.stopped && run.tries == [] && After(run.log) == Machine(Online, None))
      && (r.Ok? && periods != [] && periods[0].online == Err(Cancelled) ==>
            run.stopped && run.tries == [] && After(run.log) == IDLE)
  {
    AttemptComesTo(log, client, first);
    EstablishedIff(log, client, first);
  }

  /** A connection that was established and then closed, timed out or broke is tried again. */
  lemma WorkerTriesAgain(log: Log, client: Client, max: nat, first: Attempt, periods: seq<Period>)
    requires After(log) == Machine(AwaitingChallenge, None) && AttemptOutcome(client, first).Ok? && max > 0
    requires periods != [] && (periods[0].online.Ok? || Lost(periods[0].online))
    requires periods[0].retries != [] && !periods[0].retries[0].cancelled
    ensures
      var run := Worker(log, client, max, first, periods);
      run.tries != [] && 1 <= run.tries[0] <= max
  {
    AttemptComesTo(log, client, first);
    var established := Establish(log, client, first).0;
    var loss := LossOf(periods[0].online);
    LossesAreRetried(established, client, loss, 0, max, periods[0].retries, 0);
    RetriesAreBounded(established, client, loss, 0, max, periods[0].retries);
    PeriodStep(established, client, max, periods);
  }

  /** What the client's connect leaves before it starts the worker. */
  const FRESH_CONNECT := Then(Then(Start, CallDisconnect), CallBegin)

  /**
   * Whenever the machine is online in a worker's run, one attempt in its calls took it there with a
   * matching hello; and the run ends with the machine those calls make.
   */
  lemma WorkerOnlineIsEarned(client: Client, max: nat, first: Attempt, periods: seq<Period>, n: nat)
    returns (i: nat, k: nat, j: nat)
    requires n <= |Calls(Worker(FRESH_CONNECT, client, max, first, periods).log)|
    requires At(Calls(Worker(FRESH_CONNECT, client, max, first, periods).log), n).state == Online
    ensures
      var run := Worker(FRESH_CONNECT, client, max, first, periods);
      var calls := Calls(run.log);
      && At(calls, |calls|) == After(run.log)
      && i < k < j < n && calls[i] == CallBegin && calls[k].CallBuild? && calls[j].CallAccept?
      && Answerable(calls[k].challenge, calls[k].client, calls[k].now, calls[k].nonce)
      && Matches(ExpectedBy(calls[k]), calls[j].hello)
      && Throughout(calls, i + 1, k, AwaitingChallenge) && Throughout(calls, k + 1, j, Authenticating)
  {
    var run := Worker(FRESH_CONNECT, client, max, first, periods);
    AfterItsCalls(run.log);
    i, k, j := OnlineOnlyByOneAttempt(Calls(run.log), n);
  }

  // ----- the worker as the program runs it

  /** What is still to come of a run of which `tries` have been made. */
  ghost predicate Continues(whole: RetryRun, rest: RetryRun, tries: nat) {
    whole.log == rest.log && whole.end == rest.end && whole.tries == tries + rest.tries
  }

  lemma RetryStep(log: Log, client: Client, error: SignalError, attempt: nat, max: nat, retries: seq<Retry>)
    requires IsRetriable(error) && attempt < max && retries != []
    ensures
      var whole := RetryLoop(log, client, error, attempt, max, retries);
      var (tried, r) := Round(log, client, retries[0]);
      var made := if retries[0].cancelled then 0 else 1;
      if r.Ok? then whole == RetryRun(tried, Back, made)
      else if r.error == Cancelled then whole == RetryRun(tried, Stopped, made)
      else Continues(whole, RetryLoop(tried, client, r.error, attempt + 1, max, retries[1..]), made)
  {
  }

  /** The inner loop; returns how it ended and how many tries it made. */
  method RunRetries(machine: SignalStateMachine, client: Client, loss: SignalError, max: nat, retries: seq<Retry>,
                    ghost log: Log)
    returns (end: End, tries: nat)
    requires machine.Current() == After(log) && client.RespondsAsSpecified()
    modifies machine
    ensures
      var run := RetryLoop(log, client, loss, 0, max, retries);
      machine.Current() == After(run.log) && end == run.end && tries == run.tries
  {
    ghost var now, whole := log, RetryLoop(log, client, loss, 0, max, retries);
    var error := loss;
    var attempt := 0;
    tries := 0;
    assert retries[0..] == retries;
    while true
      invariant attempt <= |retries|
      invariant machine.Current() == After(now)
      invariant Continues(whole, RetryLoop(now, client, error, attempt, max, retries[attempt..]), tries)
      decreases |retries| - attempt
    {
      if !IsRetriable(error) || attempt >= max {
        machine.Fail();
        return Stopped, tries;
      }
      if attempt == |retries| {
        return Ongoing, tries;
      }
      var round := retries[attempt];
      assert retries[attempt..][0] == round && retries[attempt..][1..] == retries[attempt + 1..];
      RetryStep(now, client, error, attempt, max, retries[attempt..]);
      var r := RunRound(machine, client, round, now);
      now := Round(now, client, round).0;
      attempt := attempt + 1;
      tries := tries + if round.cancelled then 0 else 1;
      if r.Ok? {
        return Back, tries;
      }
      if r.error == Cancelled {
        return Stopped, tries;
      }
      error := r.error;
    }
  }

  ghost predicate Carries(whole: WorkerRun, rest: WorkerRun, tries: seq<nat>) {
    whole.log == rest.log && whole.stopped == rest.stopped && whole.tries == tries + rest.tries
  }

  lemma CarriesOn(whole: WorkerRun, middle: WorkerRun, rest: WorkerRun, tries: seq<nat>, made: nat)
    requires Carries(whole, middle, tries) && Carries(middle, rest, [made])
    ensures Carries(whole, rest, tries + [made])
  {
    Assoc(tries, [made], rest.tries);
  }

  lemma PeriodStep(log: Log, client: Client, max: nat, periods: seq<Period>)
    requires periods != [] && periods[0].online != Err(Cancelled)
    ensures
      var whole := OnlineLoop(log, client, max, periods);
      var run := RetryLoop(log, client, LossOf(periods[0].online), 0, max, periods[0].retries);
      if run.end != Back then Carries(whole, WorkerRun(run.log, run.end == Stopped, []), [run.tries])
      else Carries(whole, OnlineLoop(run.log, client, max, periods[1..]), [run.tries])
  {
    assert periods[0].online != Err(Cancelled);
  }

  /** The outer loop, from an established connection on. */
  method RunPeriods(machine: SignalStateMachine, client: Client, max: nat, periods: seq<Period>, ghost log: Log)
    returns (stopped: bool, tries: seq<nat>)
    requires machine.Current() == After(log) && client.RespondsAsSpecified()
    modifies machine
    ensures
      var run := OnlineLoop(log, client, max, periods);
      machine.Current() == After(run.log) && stopped == run.stopped && tries == run.tries
  {
    ghost var now, whole := log, OnlineLoop(log, client, max, periods);
    tries := [];
    var p := 0;
    assert periods[0..] == periods;
    while p < |periods|
      invariant p <= |periods|
      invariant machine.Current() == After(now)
      invariant Carries(whole, OnlineLoop(now, client, max, periods[p..]), tries)
    {
      ghost var rest := periods[p..];
      assert rest[1..] == periods[p + 1..];
      if periods[p].online == Err(Cancelled) {
        machine.Disconnect();
        return true, tries;
      }
      PeriodStep(now, client, max, rest);
      var end, made := RunRetries(machine, client, LossOf(periods[p].online), max, periods[p].retries, now);
      ghost var middle := OnlineLoop(now, client, max, rest);
      now := RetryLoop(now, client, LossOf(periods[p].online), 0, max, periods[p].retries).log;
      if end != Back {
        CarriesOn(whole, middle, WorkerRun(now, end == Stopped, []), tries, made);
        assert tries + [made] + [] == tries + [made];
        return end == Stopped, tries + [made];
      }
      CarriesOn(whole, middle, OnlineLoop(now, client, max, periods[p + 1..]), tries, made);
      tries := tries + [made];
      p := p + 1;
    }
    return false, tries;
  }

  /** `run_signal_worker`, for as long as the network's behaviour is given. */
  method RunSignalWorker(machine: SignalStateMachine, client: Client, max: nat, first: Attempt, periods: seq<Period>,
                         ghost log: Log)
    returns (stopped: bool, tries: seq<nat>)
    requires machine.Current() == After(log) && client.RespondsAsSpecified()
    modifies machine
    ensures
      var run := Worker(log, client, max, first, periods);
      machine.Current() == After(run.log) && stopped == run.stopped && tries == run.tries
  {
    var r := EstablishConnection(machine, client, first, log);
    stopped, tries := AfterConnecting(machine, client, max, r, periods, Establish(log, client, first).0);
  }

  method AfterConnecting(machine: SignalStateMachine, client: Client, max: nat, r: Outcome, periods: seq<Period>,
                         ghost log: Log)
    returns (stopped: bool, tries: seq<nat>)
    requires machine.Current() == After(log) && client.RespondsAsSpecified()
    modifies machine
    ensures
      var run := AfterFirst(log, r, client, max, periods);
      machine.Current() == After(run.log) && stopped == run.stopped && tries == run.tries
  {
    if r.Err? {
      if r.error == Cancelled {
        machine.Disconnect();
      } else {
        machine.Fail();
      }
      return true, [];
    }
    stopped, tries := RunPeriods(machine, client, max, periods, log);
  }

  // ----- how long a round waits

  function Min(a: nat, b: nat): nat { if a <= b then a else b }

  /** `reconnect_delay`, in nanoseconds; `limit` is the longest `Duration`. */
  function ReconnectDelay(initial: nat, max: nat, limit: nat, attempt: nat): nat {
    var exponent := Min(if attempt == 0 then 0 else attempt - 1, 31);
    Min(Min(initial * Pow2(exponent), limit), max)
  }

  /**
   * The first two rounds wait the initial delay, each later one twice as long as the one before until
   * the maximum is reached, and from the thirty-second on the wait stays the same.
   */
  lemma DelaysDouble(initial: nat, max: nat, limit: nat, attempt: nat)
    requires max <= limit
    ensures ReconnectDelay(initial, max, limit, 0) == ReconnectDelay(initial, max, limit, 1) == Min(initial, max)
    ensures 1 <= attempt < 32 ==>
      ReconnectDelay(initial, max, limit, attempt + 1) == Min(2 * ReconnectDelay(initial, max, limit, attempt), max)
    ensures 32 <= attempt ==>
      ReconnectDelay(initial, max, limit, attempt + 1) == ReconnectDelay(initial, max, limit, attempt)
  {
    if 1 <= attempt < 32 {
      assert Pow2(attempt) == 2 * Pow2(attempt - 1);
      Twice(initial, Pow2(attempt - 1));
    }
  }

  lemma Twice(a: nat, x: nat)
    ensures a * (2 * x) == 2 * (a * x)
  {
  }
}
