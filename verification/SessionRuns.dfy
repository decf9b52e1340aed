/** Properties of whole runs of one session: phase safety and nonce uniqueness. */
module SessionRuns {
  import opened Bytes
  import opened Header
  import opened Security
  import opened Primitives
  import opened E2ee
  import opened SecureSession

  /** The state after a list of operations, and the outcome of each. */
  function Run(p: Primitives, s: State, ops: seq<Op>): (r: (State, seq<Outcome>))
    ensures |r.1| == |ops|
  {
    if ops == [] then (s, [])
    else
      var (before, outcomes) := Run(p, s, ops[..|ops| - 1]);
      var (after, outcome) := Step(p, before, ops[|ops| - 1]);
      (after, outcomes + [outcome])
  }

  lemma {:induction false} RunPrefix(p: Primitives, s: State, ops: seq<Op>, i: nat)
    requires i <= |ops|
    ensures Run(p, s, ops[..i]).1 == Run(p, s, ops).1[..i]
    decreases |ops|
  {
    if i == |ops| {
      assert ops[..i] == ops;
    } else {
      RunPrefix(p, s, ops[..|ops| - 1], i);
      assert ops[..|ops| - 1][..i] == ops[..i];
    }
  }

  lemma RunLast(p: Primitives, s: State, ops: seq<Op>, op: Op)
    ensures Run(p, s, ops + [op]).1[|ops|] == Step(p, Run(p, s, ops).0, op).1
  {
    assert (ops + [op])[..|ops|] == ops;
  }

  /** The outcome at `i` is the step taken from the state after the first `i` operations. */
  lemma RunAt(p: Primitives, s: State, ops: seq<Op>, i: nat)
    requires i < |ops|
    ensures Step(p, Run(p, s, ops[..i]).0, ops[i]).1 == Run(p, s, ops).1[i]
  {
    RunPrefix(p, s, ops, i + 1);
    RunLast(p, s, ops[..i], ops[i]);
    assert ops[..i + 1] == ops[..i] + [ops[i]];
  }

  // ----- phase safety

  /** A failed or repeated peer confirm, a changed binding, or a reboot. */
  predicate Breaks(op: Op, outcome: Outcome) {
    op.Reboot? || (outcome.Failed? && (op.VerifyConfirm? || op.CheckBinding?))
  }

  function Count(outcomes: seq<Outcome>, what: Outcome -> bool): nat {
    if outcomes == [] then 0
    else Count(outcomes[..|outcomes| - 1], what) + if what(outcomes[|outcomes| - 1]) then 1 else 0
  }

  function LocalConfirms(outcomes: seq<Outcome>): nat { Count(outcomes, (o: Outcome) => o.ConfirmSent?) }

  function PeerConfirms(outcomes: seq<Outcome>): nat { Count(outcomes, (o: Outcome) => o.ConfirmVerified?) }

  ghost predicate NothingBroke(ops: seq<Op>, outcomes: seq<Outcome>)
    requires |ops| == |outcomes|
  {
    forall i :: 0 <= i < |ops| ==> !Breaks(ops[i], outcomes[i])
  }

  /** How one step moves the three flags. */
  lemma StepFlags(p: Primitives, s: State, op: Op)
    ensures var (t, o) := Step(p, s, op);
            && t.binding == s.binding
            && (t.invalidated <==> s.invalidated || Breaks(op, o))
            && (t.localConfirmSent <==> s.localConfirmSent || o.ConfirmSent?)
            && (t.peerConfirmed <==> s.peerConfirmed || o.ConfirmVerified?)
            && (o.ConfirmSent? ==> !s.localConfirmSent)
            && (o.ConfirmVerified? ==> !s.peerConfirmed)
  {
  }

  /** Every confirmation happens at most once, and the flags are exactly the history. */
  lemma {:induction false} FlagsAreHistory(p: Primitives, b: Binding, ops: seq<Op>)
    ensures var (s, outcomes) := Run(p, Initial(b), ops);
            && s.binding == b
            && (s.invalidated <==> !NothingBroke(ops, outcomes))
            && LocalConfirms(outcomes) == (if s.localConfirmSent then 1 else 0)
            && PeerConfirms(outcomes) == (if s.peerConfirmed then 1 else 0)
  {
    if ops != [] {
      var front, op := ops[..|ops| - 1], ops[|ops| - 1];
      FlagsAreHistory(p, b, front);
      var (s, outcomes) := Run(p, Initial(b), front);
      StepFlags(p, s, op);
      var o := Step(p, s, op).1;
      assert (outcomes + [o])[..|front|] == outcomes;
      assert NothingBroke(ops, outcomes + [o]) <==> NothingBroke(front, outcomes) && !Breaks(op, o);
    }
  }

  /** Data moves only after exactly one local and one verified peer confirm, with nothing broken
      since the start; otherwise the session says which of the two is missing. */
  lemma DataNeedsConfirmedSession(p: Primitives, b: Binding, ops: seq<Op>, i: nat)
    requires i < |ops| && (ops[i].Seal? || ops[i].Open?)
    ensures var outcomes := Run(p, Initial(b), ops).1;
            && (outcomes[i].Sealed? || outcomes[i].Opened? ==>
                  && LocalConfirms(outcomes[..i]) == 1
                  && PeerConfirms(outcomes[..i]) == 1
                  && NothingBroke(ops[..i], outcomes[..i]))
            && (outcomes[i] == Failed(Invalidated) <==> !NothingBroke(ops[..i], outcomes[..i]))
            && (outcomes[i] == Failed(KeyConfirmationRequired) <==>
                  && NothingBroke(ops[..i], outcomes[..i])
                  && !(LocalConfirms(outcomes[..i]) == 1 && PeerConfirms(outcomes[..i]) == 1))
  {
    RunPrefix(p, Initial(b), ops, i);
    RunAt(p, Initial(b), ops, i);
    FlagsAreHistory(p, b, ops[..i]);
    PhaseRefusals(p, Run(p, Initial(b), ops[..i]).0, ops[i]);
  }

  /** In every run, a peer confirm is verified only if it is authentic under the session's own keys and the first. */
  lemma VerifiedConfirmIsAuthentic(p: Primitives, b: Binding, ops: seq<Op>, i: nat)
    requires i < |ops| && ops[i].VerifyConfirm? && Run(p, Initial(b), ops).1[i] == ConfirmVerified
    ensures
      var c := ops[i].confirm;
      && c.sessionId == b.sessionId && c.deviceId == ops[i].peerDeviceId && c.role == b.localRole.Opposite()
      && c.transcriptHash == b.transcriptHash
      && c.timestamp <= ops[i].now + 30_000 && ops[i].now <= c.timestamp + 30_000
      && c.CanonicalMacInput().Ok?
      && c.confirmMac
         == p.hmac(if b.localRole == Controller then b.keys.backwardConfirm else b.keys.forwardConfirm,
                   c.CanonicalMacInput().value)
    ensures PeerConfirms(Run(p, Initial(b), ops).1[..i]) == 0
    ensures NothingBroke(ops[..i], Run(p, Initial(b), ops).1[..i])
  {
    RunPrefix(p, Initial(b), ops, i);
    RunAt(p, Initial(b), ops, i);
    FlagsAreHistory(p, b, ops[..i]);
    var s := Run(p, Initial(b), ops[..i]).0;
    VerifiesConfirmIff(p, s, ops[i].confirm, ops[i].peerDeviceId, ops[i].now);
  }

  lemma PhaseRefusals(p: Primitives, s: State, op: Op)
    requires op.Seal? || op.Open?
    ensures var o := Step(p, s, op).1;
            && (o.Sealed? || o.Opened? ==> s.Phase() == Ready)
            && (o == Failed(Invalidated) <==> s.Phase() == Closed)
            && (o == Failed(KeyConfirmationRequired) <==> s.Phase() == AwaitingKeyConfirm)
  {
  }

  /** Awaiting, Ready, Closed, and never back. */
  lemma {:induction false} PhaseNeverGoesBack(p: Primitives, b: Binding, ops: seq<Op>, i: nat)
    requires i <= |ops|
    ensures Run(p, Initial(b), ops[..i]).0.Phase().Rank() <= Run(p, Initial(b), ops).0.Phase().Rank()
    decreases |ops|
  {
    if i == |ops| {
      assert ops[..i] == ops;
    } else {
      var front := ops[..|ops| - 1];
      assert front[..i] == ops[..i];
      PhaseNeverGoesBack(p, b, front, i);
      StepFlags(p, Run(p, Initial(b), front).0, ops[|ops| - 1]);
    }
  }

  // ----- nonce uniqueness

  /** Every frame sealed so far carries a number below the channel's counter. */
  ghost predicate BelowCounters(s: State, outcomes: seq<Outcome>) {
    forall i :: 0 <= i < |outcomes| && outcomes[i].Sealed? ==>
      var h := outcomes[i].frame.header;
      h.sequence < s.sendSequences[h.channel.Code()] && h.sequence <= MAX_SECURE_SEQUENCE
  }

  /** Sealing takes the counter and moves it up; nothing moves it down. */
  lemma StepCounters(p: Primitives, s: State, op: Op)
    ensures var (t, o) := Step(p, s, op);
            && (forall c :: 0 <= c < CHANNEL_COUNT ==> s.sendSequences[c] <= t.sendSequences[c])
            && (o.Sealed? ==>
                  var h := o.frame.header;
                  && h.sequence == s.sendSequences[h.channel.Code()] <= MAX_SECURE_SEQUENCE
                  && h.sequence < t.sendSequences[h.channel.Code()])
  {
  }

  lemma {:induction false} SealedBelowCounters(p: Primitives, s: State, ops: seq<Op>)
    ensures BelowCounters(Run(p, s, ops).0, Run(p, s, ops).1)
  {
    if ops != [] {
      SealedBelowCounters(p, s, ops[..|ops| - 1]);
      StepCounters(p, Run(p, s, ops[..|ops| - 1]).0, ops[|ops| - 1]);
    }
  }

  function NonceOf(b: Binding, frame: Frame): Result<Bytes, CryptoError> {
    BuildNonce(b.keys.NoncePrefix(b.Outgoing()), frame.header.channel, frame.header.sequence)
  }

  /** Over any mix of operations, from any state: numbers sealed on a channel strictly increase
      up to 2^48 - 1, and no nonce is used twice under the session's key. */
  lemma NoncesNeverRepeat(p: Primitives, s: State, ops: seq<Op>, i: nat, j: nat)
    requires i < j < |ops|
    requires Run(p, s, ops).1[i].Sealed? && Run(p, s, ops).1[j].Sealed?
    ensures var f, g := Run(p, s, ops).1[i].frame, Run(p, s, ops).1[j].frame;
            && (f.header.channel == g.header.channel ==> f.header.sequence < g.header.sequence)
            && NonceOf(s.binding, f).Ok? && NonceOf(s.binding, g).Ok?
            && NonceOf(s.binding, f) != NonceOf(s.binding, g)
  {
    var f, g := Run(p, s, ops).1[i].frame, Run(p, s, ops).1[j].frame;
    SealedBelowCounters(p, s, ops[..j]);
    RunPrefix(p, s, ops, j);
    RunAt(p, s, ops, j);
    StepCounters(p, Run(p, s, ops[..j]).0, ops[j]);
    assert Run(p, s, ops[..j]).1[i] == Run(p, s, ops).1[i];
    if NonceOf(s.binding, f) == NonceOf(s.binding, g) {
      var prefix := s.binding.keys.NoncePrefix(s.binding.Outgoing());
      NonceInjective(prefix, f.header.channel, f.header.sequence, prefix, g.header.channel, g.header.sequence);
    }
  }
}
