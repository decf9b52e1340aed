/** The signal client's state machine and what any sequence of calls on it means. */
module SignalMachine {
  import opened Bytes
  import opened SignalHello

  datatype ConnectionState =
    | Disconnected
    | Connecting
    | AwaitingChallenge
    | Authenticating
    | Online
    | Reconnecting
    | Failed

  predicate IsRetriable(e: SignalError) { e == Transport || e == TimedOut || e == ConnectionClosed }

  // ----- the calls, on values

  datatype Machine = Machine(state: ConnectionState, expected: Option<ExpectedHello>)

  const IDLE := Machine(Disconnected, None)

  type Outcome = Result<(), SignalError>

  function BeginConnect(m: Machine): (Machine, Outcome) {
    if m.state == Disconnected || m.state == Failed || m.state == Reconnecting then
      (Machine(AwaitingChallenge, None), Ok(()))
    else (m, Err(InvalidTransition))
  }

  function BuildHelloResponse(m: Machine, c: HelloChallenge, client: Client, now: u64, nonce: Bytes32)
    : (Machine, Result<HelloResponse, SignalError>)
  {
    if m.state != AwaitingChallenge then (m, Err(InvalidTransition))
    else if !ChallengeFits(c, client, now) then (Machine(Failed, None), Err(InvalidChallenge))
    else
      var response := client.respond(c, now, nonce);
      (if response.Ok? then Machine(Authenticating, Some(Expect(c, client, response.value))) else m, response)
  }

  function AcceptHelloOk(m: Machine, hello: HelloOk): (Machine, Outcome) {
    if m.state != Authenticating then (m, Err(InvalidTransition))
    else if m.expected.Some? && Matches(m.expected.value, hello) then (Machine(Online, None), Ok(()))
    else (Machine(Failed, None), Err(HelloMismatch))
  }

  function Reconnect(m: Machine): (Machine, Outcome) {
    if m.state != Online then (m, Err(InvalidTransition)) else (Machine(Reconnecting, None), Ok(()))
  }

  // ----- the object

  class SignalStateMachine {
    var state: ConnectionState
    var expected: Option<ExpectedHello>

    constructor ()
      ensures Current() == IDLE
    {
      state, expected := Disconnected, None;
    }

    function Current(): Machine
      reads this
    {
      Machine(state, expected)
    }

    method Begin() returns (r: Outcome)
      modifies this
      ensures (Current(), r) == BeginConnect(old(Current()))
    {
      if !(state == Disconnected || state == Failed || state == Reconnecting) {
        return Err(InvalidTransition);
      }
      expected := None;
      state := Connecting;
      state := AwaitingChallenge;
      return Ok(());
    }

    method BuildResponse(c: HelloChallenge, client: Client, now: u64, nonce: Bytes32)
      returns (r: Result<HelloResponse, SignalError>)
      requires client.RespondsAsSpecified()
      modifies this
      ensures (Current(), r) == BuildHelloResponse(old(Current()), c, client, now, nonce)
    {
      if state != AwaitingChallenge {
        return Err(InvalidTransition);
      }
      if !ChallengeFits(c, client, now) {
        Fail();
        return Err(InvalidChallenge);
      }
      r := Respond(c, client, now, nonce);
      if r.Err? {
        return;
      }
      expected := Some(Expect(c, client, r.value));
      state := Authenticating;
    }

    method Accept(hello: HelloOk) returns (r: Outcome)
      modifies this
      ensures (Current(), r) == AcceptHelloOk(old(Current()), hello)
    {
      if state != Authenticating {
        return Err(InvalidTransition);
      }
      var matches := expected.Some? && Matches(expected.value, hello);
      expected := None;
      if !matches {
        Fail();
        return Err(HelloMismatch);
      }
      state := Online;
      return Ok(());
    }

    method MarkReconnecting()
      modifies this
      ensures Current() == Machine(Reconnecting, None)
    {
      expected := None;
      state := Reconnecting;
    }

    method Fail()
      modifies this
      ensures Current() == Machine(Failed, None)
    {
      expected := None;
      state := Failed;
    }

    method Disconnect()
      modifies this
      ensures Current() == IDLE
    {
      expected := None;
      state := Disconnected;
    }
  }

  // ----- any sequence of calls

  datatype Call =
    | CallBegin
    | CallBuild(challenge: HelloChallenge, client: Client, now: u64, nonce: Bytes32)
    | CallAccept(hello: HelloOk)
    | CallReconnect
    | CallMark
    | CallFail
    | CallDisconnect

  function Do(m: Machine, c: Call): Machine {
    match c
    case CallBegin => BeginConnect(m).0
    case CallBuild(challenge, client, now, nonce) => BuildHelloResponse(m, challenge, client, now, nonce).0
    case CallAccept(hello) => AcceptHelloOk(m, hello).0
    case CallReconnect => Reconnect(m).0
    case CallMark => Machine(Reconnecting, None)
    case CallFail => Machine(Failed, None)
    case CallDisconnect => IDLE
  }

  /** The machine after the first `n` calls. */
  function At(calls: seq<Call>, n: nat): Machine
    requires n <= |calls|
  {
    if n == 0 then IDLE else Do(At(calls, n - 1), calls[n - 1])
  }

  /** An expectation exists exactly while authenticating. */
  lemma {:induction false} ExpectationIffAuthenticating(calls: seq<Call>, n: nat)
    requires n <= |calls|
    ensures At(calls, n).expected.Some? <==> At(calls, n).state == Authenticating
    ensures At(calls, n).state != Connecting
  {
    if n > 0 { ExpectationIffAuthenticating(calls, n - 1); }
  }

  /** The state is the same after each of the calls from `from` to `to`. */
  ghost predicate Throughout(calls: seq<Call>, from: nat, to: nat, state: ConnectionState) {
    from <= to <= |calls| && forall m :: from <= m <= to ==> At(calls, m).state == state
  }

  lemma {:induction false} AwaitingSince(calls: seq<Call>, n: nat) returns (i: nat)
    requires n <= |calls| && At(calls, n).state == AwaitingChallenge
    ensures i < n && calls[i] == CallBegin && Throughout(calls, i + 1, n, AwaitingChallenge)
  {
    if At(calls, n - 1).state == AwaitingChallenge {
      i := AwaitingSince(calls, n - 1);
    } else {
      i := n - 1;
    }
  }

  /** The expectation an answered challenge leaves. */
  function ExpectedBy(c: Call): ExpectedHello
    requires c.CallBuild? && Answerable(c.challenge, c.client, c.now, c.nonce)
  {
    Expect(c.challenge, c.client, c.client.respond(c.challenge, c.now, c.nonce).value)
  }

  /** The call at `k` answered a fitting challenge, and the expectation it stored has been the machine's since. */
  ghost predicate Answered(calls: seq<Call>, k: nat, n: nat, e: ExpectedHello) {
    && k < n <= |calls| && calls[k].CallBuild?
    && Answerable(calls[k].challenge, calls[k].client, calls[k].now, calls[k].nonce)
    && e == ExpectedBy(calls[k])
    && At(calls, k).state == AwaitingChallenge && Throughout(calls, k + 1, n, Authenticating)
  }

  /** A challenge is answered, with its expectation stored, exactly when it is awaited, fits and can be answered. */
  lemma BuildsIff(m: Machine, c: Call)
    requires c.CallBuild?
    ensures
      var (after, r) := BuildHelloResponse(m, c.challenge, c.client, c.now, c.nonce);
      && (r.Ok? <==> m.state == AwaitingChallenge && Answerable(c.challenge, c.client, c.now, c.nonce))
      && (r.Ok? ==> after == Machine(Authenticating, Some(ExpectedBy(c))))
      && (r.Err? ==> after == m || after == Machine(Failed, None))
  {
  }

  lemma EntersAuthenticating(m: Machine, c: Call)
    requires Do(m, c).state == Authenticating
    ensures
      || Do(m, c) == m
      || (c.CallBuild? && m.state == AwaitingChallenge && Answerable(c.challenge, c.client, c.now, c.nonce)
          && Do(m, c).expected == Some(ExpectedBy(c)))
  {
    if c.CallBuild? { BuildsIff(m, c); }
  }

  lemma {:induction false} AuthenticatingSince(calls: seq<Call>, n: nat) returns (k: nat)
    requires n <= |calls| && At(calls, n).state == Authenticating
    ensures At(calls, n).expected.Some? && Answered(calls, k, n, At(calls, n).expected.value)
  {
    ExpectationIffAuthenticating(calls, n);
    EntersAuthenticating(At(calls, n - 1), calls[n - 1]);
    if At(calls, n - 1).state == Authenticating {
      k := AuthenticatingSince(calls, n - 1);
    } else {
      k := n - 1;
    }
  }

  lemma {:induction false} OnlineSince(calls: seq<Call>, n: nat) returns (j: nat)
    requires n <= |calls| && At(calls, n).state == Online
    ensures j < n && calls[j].CallAccept? && At(calls, j).state == Authenticating
    ensures At(calls, j).expected.Some? && Matches(At(calls, j).expected.value, calls[j].hello)
    ensures Throughout(calls, j + 1, n, Online)
  {
    if At(calls, n - 1).state == Online {
      j := OnlineSince(calls, n - 1);
    } else {
      j := n - 1;
    }
  }

  /**
   * Online is reached only within one attempt: a begin at `i`, a fitting challenge answered at `k`
   * and a matching hello at `j`, with the machine waiting, then authenticating, then online in
   * between and nothing else happening to it.
   */
  lemma OnlineOnlyByOneAttempt(calls: seq<Call>, n: nat) returns (i: nat, k: nat, j: nat)
    requires n <= |calls| && At(calls, n).state == Online
    ensures i < k < j < n && calls[i] == CallBegin && calls[k].CallBuild? && calls[j].CallAccept?
    ensures Answerable(calls[k].challenge, calls[k].client, calls[k].now, calls[k].nonce)
    ensures Matches(ExpectedBy(calls[k]), calls[j].hello)
    ensures Throughout(calls, i + 1, k, AwaitingChallenge)
    ensures Throughout(calls, k + 1, j, Authenticating)
    ensures Throughout(calls, j + 1, n, Online)
  {
    j := OnlineSince(calls, n);
    k := AuthenticatingSince(calls, j);
    i := AwaitingSince(calls, k);
  }

  // ----- what each call does

  /** A connect begins exactly from rest or a reconnect; a reconnect begins exactly from online. */
  lemma BeginsIff(m: Machine)
    ensures
      var startable := m.state == Disconnected || m.state == Failed || m.state == Reconnecting;
      BeginConnect(m) == if startable then (Machine(AwaitingChallenge, None), Ok(())) else (m, Err(InvalidTransition))
    ensures Reconnect(m)
         == if m.state == Online then (Machine(Reconnecting, None), Ok(())) else (m, Err(InvalidTransition))
  {
  }

  /** Why a challenge is not answered: it is not awaited, it does not fit, or the response cannot be built. */
  lemma BuildRefusals(m: Machine, c: HelloChallenge, client: Client, now: u64, nonce: Bytes32)
    ensures
      var build := BuildHelloResponse(m, c, client, now, nonce);
      && (m.state != AwaitingChallenge ==> build == (m, Err(InvalidTransition)))
      && (m.state == AwaitingChallenge && !ChallengeFits(c, client, now) ==>
            build == (Machine(Failed, None), Err(InvalidChallenge)))
      && (m.state == AwaitingChallenge && ChallengeFits(c, client, now) ==> build.1 == client.respond(c, now, nonce))
      && (m.state == AwaitingChallenge && ChallengeFits(c, client, now) && build.1.Err? ==> build.0 == m)
  {
  }

  /** A hello is accepted exactly while authenticating and when it matches; a mismatch fails the machine. */
  lemma AcceptsIff(m: Machine, hello: HelloOk)
    ensures
      var matching := m.expected.Some? && Matches(m.expected.value, hello);
      AcceptHelloOk(m, hello)
      == if m.state != Authenticating then (m, Err(InvalidTransition))
         else if matching then (Machine(Online, None), Ok(()))
         else (Machine(Failed, None), Err(HelloMismatch))
  {
  }
}
