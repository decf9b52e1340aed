/** The probe replay guard: a table of seen probes, pruned by expiry. */
module ProbeReplay {
  import opened Bytes
  import opened Security
  import opened Primitives
  import opened Binding

  datatype ProbeKey = ProbeKey(sessionId: u128, candidateId: u128, role: SessionRole, nonce: Bytes32)

  /** One call of `validate`. */
  datatype Probe = Probe(
    candidate: Candidate,
    authorization: Authorization,
    returnedToken: Bytes,
    role: SessionRole,
    nonce: Bytes32,
    now: u64)
  {
    function Key(): ProbeKey { ProbeKey(candidate.sessionId, candidate.candidateId, role, nonce) }

    function Expiry(): u64 { authorization.expiresAt }
  }

  /** Everything `validate` checks before it looks at the table. */
  function CheckProbe(p: Primitives, probe: Probe): Result<(), BindingError> {
    match CheckAuthorization(p, probe.candidate, probe.authorization, probe.now)
    case Err(e) => Err(e)
    case Ok(_) =>
      if probe.role == probe.candidate.role then Err(ProbeRoleMismatch)
      else if probe.returnedToken != probe.authorization.token then Err(TokenMismatch)
      else Ok(())
  }

  /** What the table gets to see of a probe: its key, its expiry, the time, and the checks' verdict. */
  datatype Shown = Shown(checked: Result<(), BindingError>, key: ProbeKey, expiry: u64, now: u64)
  {
    /** A probe that passes the checks has not expired. */
    ghost predicate Valid() { checked.Ok? ==> now <= expiry }
  }

  function Show(p: Primitives, probe: Probe): (r: Shown)
    ensures r.Valid()
  {
    Shown(CheckProbe(p, probe), probe.Key(), probe.Expiry(), probe.now)
  }

  type Table = map<ProbeKey, u64>

  function Pruned(seen: Table, now: u64): Table {
    map k | k in seen && seen[k] >= now :: seen[k]
  }

  function Step(seen: Table, shown: Shown): (Table, Result<(), BindingError>) {
    if shown.checked.Err? then (seen, shown.checked)
    else
      var live := Pruned(seen, shown.now);
      (live[shown.key := shown.expiry], if shown.key in live then Err(ProbeReplay) else Ok(()))
  }

  class ProbeReplayGuard {
    var seen: Table

    constructor ()
      ensures seen == map[]
    {
      seen := map[];
    }

    method Validate(p: Primitives, probe: Probe) returns (r: Result<(), BindingError>)
      modifies this
      ensures (seen, r) == Step(old(seen), Show(p, probe))
    {
      var checked := CheckProbe(p, probe);
      if checked.Err? {
        return checked;
      }
      seen := map k | k in seen && seen[k] >= probe.now :: seen[k];
      var replaced := probe.Key() in seen;
      seen := seen[probe.Key() := probe.Expiry()];
      if replaced {
        return Err(ProbeReplay);
      }
      return Ok(());
    }
  }

  // ----- the checks, and exactly when they pass

  /**
   * A probe passes exactly with a valid authorization, from the other role than the candidate's, and with
   * the very token of the authorization; the refusals come in that order.
   */
  lemma ChecksIff(p: Primitives, probe: Probe)
    ensures
      var r, authorized := CheckProbe(p, probe), CheckAuthorization(p, probe.candidate, probe.authorization, probe.now);
      var opposite := probe.role == probe.candidate.role.Opposite();
      && (r.Ok? <==> authorized.Ok? && opposite && probe.returnedToken == probe.authorization.token)
      && (authorized.Err? ==> r == authorized)
      && (authorized.Ok? && !opposite ==> r == Err(ProbeRoleMismatch))
      && (authorized.Ok? && opposite && probe.returnedToken != probe.authorization.token ==> r == Err(TokenMismatch))
  {
  }

  /** Two probes share a key exactly when session, candidate, role and nonce are the same. */
  lemma SameKeyIff(a: Probe, b: Probe)
    ensures a.Key() == b.Key() <==>
      && a.candidate.sessionId == b.candidate.sessionId && a.candidate.candidateId == b.candidate.candidateId
      && a.role == b.role && a.nonce == b.nonce
  {
  }

  /** A refused probe stores nothing; a checked one stores its key, drops what has expired and keeps the rest. */
  lemma StoresIff(p: Primitives, probe: Probe, seen: Table, k: ProbeKey)
    ensures
      var (after, r) := Step(seen, Show(p, probe));
      && (CheckProbe(p, probe).Err? ==> after == seen && r == CheckProbe(p, probe))
      && (CheckProbe(p, probe).Ok? ==>
            && (r == Ok(()) <==> !(probe.Key() in seen && seen[probe.Key()] >= probe.now))
            && (r.Err? ==> r == Err(ProbeReplay))
            && (k in after <==> k == probe.Key() || (k in seen && seen[k] >= probe.now))
            && (k in after ==> after[k] == if k == probe.Key() then probe.authorization.expiresAt else seen[k]))
  {
  }

  // ----- runs

  function TableAfter(run: seq<Shown>): Table {
    if run == [] then map[] else Step(TableAfter(run[..|run| - 1]), run[|run| - 1]).0
  }

  /** What the guard answers to the `i`th probe of a run. */
  function Answer(run: seq<Shown>, i: nat): Result<(), BindingError>
    requires i < |run|
  {
    Step(TableAfter(run[..i]), run[i]).1
  }

  predicate Shows(shown: Shown, k: ProbeKey) { shown.checked.Ok? && shown.key == k }

  /** The expiry last shown with a key, and the latest time of a checked probe since. */
  datatype Memory = Memory(expiry: u64, latest: u64)
  {
    /** No pruning since has dropped it. */
    predicate Live() { expiry >= latest }
  }

  function Remember(memory: Option<Memory>, shown: Shown, k: ProbeKey): Option<Memory> {
    if shown.checked.Err? then memory
    else if shown.key == k then Some(Memory(shown.expiry, 0))
    else if memory.None? || shown.now <= memory.value.latest then memory
    else Some(memory.value.(latest := shown.now))
  }

  function MemoryOf(run: seq<Shown>, k: ProbeKey): Option<Memory> {
    if run == [] then None else Remember(MemoryOf(run[..|run| - 1], k), run[|run| - 1], k)
  }

  /** The table holds a key exactly while its memory is live, with the expiry last shown. */
  ghost predicate Tracked(memory: Option<Memory>, seen: Table, k: ProbeKey) {
    && (k in seen <==> memory.Some? && memory.value.Live())
    && (k in seen ==> seen[k] == memory.value.expiry)
  }

  lemma StepTracks(memory: Option<Memory>, seen: Table, shown: Shown, k: ProbeKey)
    requires Tracked(memory, seen, k)
    ensures Tracked(Remember(memory, shown, k), Step(seen, shown).0, k)
  {
  }

  lemma {:induction false} TableTracks(run: seq<Shown>, k: ProbeKey)
    ensures Tracked(MemoryOf(run, k), TableAfter(run), k)
  {
    if run != [] {
      var earlier, last := run[..|run| - 1], run[|run| - 1];
      TableTracks(earlier, k);
      StepTracks(MemoryOf(earlier, k), TableAfter(earlier), last, k);
    }
  }

  /**
   * On any clock: a probe that passes the checks is refused as a replay exactly when the expiry last
   * shown with its key has been passed neither by its own time nor by that of any checked probe since.
   */
  lemma ReplayIff(run: seq<Shown>, i: nat)
    requires i < |run| && run[i].checked.Ok?
    ensures
      var memory := MemoryOf(run[..i], run[i].key);
      Answer(run, i) ==
        if memory.Some? && memory.value.Live() && memory.value.expiry >= run[i].now then Err(ProbeReplay) else Ok(())
  {
    TableTracks(run[..i], run[i].key);
  }

  // ----- at most once

  /** Probes each of which is checked as above: one that passes has not expired. */
  ghost predicate ValidRun(run: seq<Shown>) {
    forall i :: 0 <= i < |run| ==> run[i].Valid()
  }

  /** One authorization per candidate: every probe for `k` that passes the checks shows the same expiry. */
  ghost predicate OneExpiry(run: seq<Shown>, k: ProbeKey, expiry: u64) {
    forall i :: 0 <= i < |run| && Shows(run[i], k) ==> run[i].expiry == expiry
  }

  /** Some probe that passes the checks, after the `from`th and before the `to`th, is later than the expiry. */
  ghost predicate LapsesBetween(run: seq<Shown>, from: int, to: int, expiry: u64) {
    exists m :: 0 <= m < |run| && from < m < to && run[m].checked.Ok? && run[m].now > expiry
  }

  /** `k` is shown, the clock passes its expiry, and `k` is shown again. */
  ghost predicate Lapses(run: seq<Shown>, k: ProbeKey, expiry: u64) {
    exists i, j :: 0 <= i < j < |run| && Shows(run[i], k) && Shows(run[j], k) && LapsesBetween(run, i, j, expiry)
  }

  ghost predicate AcceptedTwice(run: seq<Shown>, k: ProbeKey) {
    exists i, j :: 0 <= i < j < |run| && AcceptedAt(run, i, k) && AcceptedAt(run, j, k)
  }

  ghost predicate AcceptedAt(run: seq<Shown>, i: nat, k: ProbeKey)
    requires i < |run|
  {
    Shows(run[i], k) && Answer(run, i) == Ok(())
  }

  /** Where the last probe for `k` before the `n`th stands, or -1. */
  function LastShown(run: seq<Shown>, n: nat, k: ProbeKey): (r: int)
    requires n <= |run|
    ensures -1 <= r < n
    ensures r >= 0 ==> Shows(run[r], k)
    ensures forall i :: r < i < n ==> !Shows(run[i], k)
  {
    if n == 0 then -1 else if Shows(run[n - 1], k) then n - 1 else LastShown(run, n - 1, k)
  }

  /** What is remembered of `k`, read off the run. */
  lemma {:induction false} MemoryIsLastShown(run: seq<Shown>, n: nat, k: ProbeKey)
    requires n <= |run|
    ensures
      var last, memory := LastShown(run, n, k), MemoryOf(run[..n], k);
      && (memory.Some? <==> last >= 0)
      && (last >= 0 ==>
            memory.value.expiry == run[last].expiry
            && (memory.value.Live() <==> !LapsesBetween(run, last, n, run[last].expiry)))
  {
    if n > 0 {
      MemoryIsLastShown(run, n - 1, k);
      assert run[..n][..n - 1] == run[..n - 1];
      var last := LastShown(run, n - 1, k);
      if last >= 0 && !Shows(run[n - 1], k) {
        LapseStep(run, last, n, run[last].expiry);
      }
    }
  }

  lemma LapseStep(run: seq<Shown>, from: int, n: nat, expiry: u64)
    requires 0 < n <= |run| && from < n - 1
    ensures LapsesBetween(run, from, n, expiry)
       <==> LapsesBetween(run, from, n - 1, expiry) || (run[n - 1].checked.Ok? && run[n - 1].now > expiry)
  {
    if LapsesBetween(run, from, n - 1, expiry) {
      var m :| 0 <= m < |run| && from < m < n - 1 && run[m].checked.Ok? && run[m].now > expiry;
      assert from < m < n;
    }
  }

  /**
   * With one expiry, a shown probe is accepted exactly when it is the first or the clock has passed the
   * expiry since the last.
   */
  lemma AcceptedIff(run: seq<Shown>, i: nat, k: ProbeKey, expiry: u64)
    requires ValidRun(run) && OneExpiry(run, k, expiry) && i < |run| && Shows(run[i], k)
    ensures AcceptedAt(run, i, k) <==> LastShown(run, i, k) < 0 || LapsesBetween(run, LastShown(run, i, k), i, expiry)
  {
    ReplayIff(run, i);
    MemoryIsLastShown(run, i, k);
  }

  /** The first probe for `k` from `n` on. */
  lemma FirstShown(run: seq<Shown>, n: nat, j: nat, k: ProbeKey) returns (i: nat)
    requires n <= j < |run| && Shows(run[j], k)
    ensures n <= i <= j && Shows(run[i], k) && LastShown(run, i, k) < n
  {
    i := j;
    while LastShown(run, i, k) >= n
      invariant n <= i <= j && Shows(run[i], k)
      decreases i
    {
      i := LastShown(run, i, k);
    }
  }

  lemma LapseAccepts(run: seq<Shown>, k: ProbeKey, expiry: u64)
    requires ValidRun(run) && OneExpiry(run, k, expiry) && Lapses(run, k, expiry)
    ensures AcceptedTwice(run, k)
  {
    var i, j :| 0 <= i < j < |run| && Shows(run[i], k) && Shows(run[j], k) && LapsesBetween(run, i, j, expiry);
    var m :| 0 <= m < |run| && i < m < j && run[m].checked.Ok? && run[m].now > expiry;
    var first := FirstShown(run, 0, i, k);
    var again := FirstShown(run, m, j, k);
    AcceptedIff(run, first, k, expiry);
    AcceptedIff(run, again, k, expiry);
    assert again != m;
    assert LapsesBetween(run, LastShown(run, again, k), again, expiry);
  }

  lemma AcceptedLapses(run: seq<Shown>, k: ProbeKey, expiry: u64)
    requires ValidRun(run) && OneExpiry(run, k, expiry) && AcceptedTwice(run, k)
    ensures Lapses(run, k, expiry)
  {
    var i, j :| 0 <= i < j < |run| && AcceptedAt(run, i, k) && AcceptedAt(run, j, k);
    AcceptedIff(run, j, k, expiry);
    assert LastShown(run, j, k) >= i;
  }

  /**
   * With one authorization per candidate, on any clock: a (candidate, role, nonce) is accepted more than
   * once exactly when the clock passes the expiry between two of its probes.
   */
  lemma AcceptedTwiceIff(run: seq<Shown>, k: ProbeKey, expiry: u64)
    requires ValidRun(run) && OneExpiry(run, k, expiry)
    ensures AcceptedTwice(run, k) <==> Lapses(run, k, expiry)
  {
    if AcceptedTwice(run, k) {
      AcceptedLapses(run, k, expiry);
    } else if Lapses(run, k, expiry) {
      LapseAccepts(run, k, expiry);
    }
  }

  ghost predicate ClockNeverGoesBack(run: seq<Shown>) {
    forall i, j :: 0 <= i < j < |run| ==> run[i].now <= run[j].now
  }

  /** With one authorization per candidate and a clock that never goes back: at most once in a whole run. */
  lemma AcceptedAtMostOnce(run: seq<Shown>, k: ProbeKey, expiry: u64)
    requires ValidRun(run) && ClockNeverGoesBack(run) && OneExpiry(run, k, expiry)
    ensures !AcceptedTwice(run, k)
  {
    AcceptedTwiceIff(run, k, expiry);
  }

  // ----- why one authorization, and why the clock

  /**
   * A second, shorter authorization for the same candidate breaks at-most-once: its refused probe
   * overwrites the stored expiry, which then lapses while the first authorization still holds.
   */
  lemma ShorterAuthorizationReadmits(p: Primitives, c: Candidate, token: Bytes, nonce: Bytes32)
    returns (first: Probe, second: Probe, third: Probe)
    requires token != [] && TokenBindingHash(p, c, 50_000).Ok? && TokenBindingHash(p, c, 1_000).Ok?
    ensures first.candidate == second.candidate == third.candidate == c
    ensures first.Key() == second.Key() == third.Key() && first.authorization == third.authorization
    ensures
      var run := [Show(p, first), Show(p, second), Show(p, third)];
      && ValidRun(run) && ClockNeverGoesBack(run)
      && Answer(run, 0) == Ok(()) && Answer(run, 1) == Err(ProbeReplay) && Answer(run, 2) == Ok(())
  {
    var long := Authorization(token, TokenBindingHash(p, c, 50_000).value, 50_000);
    var short := Authorization(token, TokenBindingHash(p, c, 1_000).value, 1_000);
    first := Probe(c, long, token, c.role.Opposite(), nonce, 0);
    second := Probe(c, short, token, c.role.Opposite(), nonce, 500);
    third := Probe(c, long, token, c.role.Opposite(), nonce, 2_000);
    ShorterReadmits(Show(p, first), Show(p, second), Show(p, third));
  }

  lemma ShorterReadmits(first: Shown, second: Shown, third: Shown)
    requires first.checked.Ok? && second.checked.Ok? && third.checked.Ok?
    requires first.key == second.key == third.key
    requires first.now <= second.now <= second.expiry < third.now <= third.expiry && second.now <= first.expiry
    ensures
      var run := [first, second, third];
      && ValidRun(run) && ClockNeverGoesBack(run)
      && Answer(run, 0) == Ok(()) && Answer(run, 1) == Err(ProbeReplay) && Answer(run, 2) == Ok(())
  {
    var run := [first, second, third];
    assert run[..1] == [first] && run[..2] == [first, second] && [first, second][..1] == [first];
    ReplayIff(run, 0);
    ReplayIff(run, 1);
    ReplayIff(run, 2);
  }

  /**
   * A clock that steps back breaks it too: another probe later than the expiry prunes the key, and the
   * same probe is accepted again at an earlier time.
   */
  lemma BackwardClockReadmits(p: Primitives, c: Candidate, token: Bytes, nonce: Bytes32, other: Bytes32)
    returns (first: Probe, second: Probe, third: Probe)
    requires token != [] && TokenBindingHash(p, c, 1_000).Ok? && TokenBindingHash(p, c, 3_000).Ok? && nonce != other
    ensures first.candidate == second.candidate == third.candidate == c
    ensures first.Key() == third.Key() && first.authorization == third.authorization && second.Key() != first.Key()
    ensures
      var run := [Show(p, first), Show(p, second), Show(p, third)];
      && ValidRun(run) && OneExpiry(run, first.Key(), 1_000)
      && Answer(run, 0) == Ok(()) && Answer(run, 1) == Ok(()) && Answer(run, 2) == Ok(())
  {
    var short := Authorization(token, TokenBindingHash(p, c, 1_000).value, 1_000);
    var long := Authorization(token, TokenBindingHash(p, c, 3_000).value, 3_000);
    first := Probe(c, short, token, c.role.Opposite(), nonce, 100);
    second := Probe(c, long, token, c.role.Opposite(), other, 2_000);
    third := Probe(c, short, token, c.role.Opposite(), nonce, 500);
    StepBackReadmits(Show(p, first), Show(p, second), Show(p, third));
  }

  lemma StepBackReadmits(first: Shown, second: Shown, third: Shown)
    requires first.checked.Ok? && second.checked.Ok? && third.checked.Ok?
    requires first.Valid() && second.Valid() && third.Valid()
    requires first.key == third.key != second.key && first.expiry == third.expiry < second.now
    ensures
      var run := [first, second, third];
      && ValidRun(run) && OneExpiry(run, first.key, first.expiry)
      && Answer(run, 0) == Ok(()) && Answer(run, 1) == Ok(()) && Answer(run, 2) == Ok(())
  {
    var run := [first, second, third];
    assert run[..1] == [first] && run[..2] == [first, second] && [first, second][..1] == [first];
    ReplayIff(run, 0);
    ReplayIff(run, 1);
    ReplayIff(run, 2);
  }

  // ----- runs of probes

  function ShowAll(p: Primitives, probes: seq<Probe>): (r: seq<Shown>)
    ensures |r| == |probes| && ValidRun(r)
    ensures forall i :: 0 <= i < |r| ==> r[i] == Show(p, probes[i])
  {
    seq(|probes|, i requires 0 <= i < |probes| => Show(p, probes[i]))
  }

  /**
   * In every run, on any clock: a probe is accepted exactly when its authorization is valid, its role is
   * the candidate's opposite, it returns the token, and its key is not remembered as live.
   */
  lemma AcceptsIff(p: Primitives, probes: seq<Probe>, i: nat)
    requires i < |probes|
    ensures
      var run, probe := ShowAll(p, probes), probes[i];
      var memory := MemoryOf(run[..i], probe.Key());
      Answer(run, i) == Ok(()) <==>
        && CheckAuthorization(p, probe.candidate, probe.authorization, probe.now).Ok?
        && probe.role == probe.candidate.role.Opposite() && probe.returnedToken == probe.authorization.token
        && !(memory.Some? && memory.value.Live() && memory.value.expiry >= probe.now)
  {
    ChecksIff(p, probes[i]);
    var run := ShowAll(p, probes);
    if run[i].checked.Ok? {
      ReplayIff(run, i);
    }
  }

  /** A probe refused by the checks leaves no trace in the table. */
  lemma RefusedLeavesNoTrace(p: Primitives, probes: seq<Probe>, i: nat)
    requires i < |probes| && CheckProbe(p, probes[i]).Err?
    ensures var run := ShowAll(p, probes);
            TableAfter(run[..i + 1]) == TableAfter(run[..i]) && Answer(run, i) == CheckProbe(p, probes[i])
  {
    var run := ShowAll(p, probes);
    assert run[..i + 1][..i] == run[..i];
  }
}
