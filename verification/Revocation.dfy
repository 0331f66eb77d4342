/** The Apple revocation queue: stored credentials, the deletions that detach them from
    their account, and replicas that claim detached ones, call Revoke and delete them or
    back off - each of which may crash at any point.

    One clock serves the database and the replicas, in nanoseconds. Sealing binds a
    refresh token to its row's id. */
module Revocation {
  import opened Common

  type CredentialId = nat
  type UserId = nat
  type Token = string
  type Time = int
  type WorkerId = nat

  const MINUTE: int := 60_000_000_000

  /** The context of one replica's batch ends after 45 seconds. */
  const BATCH_DEADLINE: int := 45_000_000_000

  /** AES-GCM with the row id as additional data: it opens under that id only. */
  datatype Sealed = Sealed(token: Token, boundTo: CredentialId)

  function Open(c: Sealed, id: CredentialId): Option<Token> {
    if c.boundTo == id then Some(c.token) else None
  }

  datatype Credential = Credential(user: Option<UserId>, sealed: Sealed, attempts: nat, nextAttemptAt: Time)

  /** A replica between its claim and the end of its transaction; it holds the row lock. */
  datatype Claim = Claim(id: CredentialId, sealed: Sealed, attempts: nat, at: Time, outcome: Option<bool>)

  type Table = map<CredentialId, Credential>

  datatype State = State(
    table: Table,
    claims: map<WorkerId, Claim>,
    revoked: set<Token>,       // tokens for which a Revoke call has succeeded
    issued: set<CredentialId>, // ids handed out by uuid.New
    now: Time,
    failures: map<CredentialId, seq<Time>>) // when each credential's failures were recorded

  datatype Step =
    | Tick(later: Time)
    | Login(user: UserId, id: CredentialId, token: Token)
    | DeleteUser(user: UserId)
    | ClaimNext(worker: WorkerId, id: CredentialId)
    | Revoke(worker: WorkerId, ok: bool)
    | Finish(worker: WorkerId)
    | Crash(worker: WorkerId)

  const INITIAL := State(map[], map[], {}, {}, 0, map[])

  // ---------- backoff ----------

  function Pow2(n: nat): nat { if n == 0 then 1 else 2 * Pow2(n - 1) }

  function Delay(attempts: nat): int { MINUTE * Pow2(if attempts < 10 then attempts else 10) }

  /** The delays before the second, third, ... n-th attempt. */
  function Backoff(n: nat): int { if n <= 1 then 0 else Backoff(n - 1) + Delay(n - 2) }

  // ---------- transactions ----------

  /** ON CONFLICT (user_id) DO UPDATE: the user's attached row takes the new id and token;
      a NULL user_id conflicts with nothing. */
  function AfterLogin(t: Table, user: UserId, id: CredentialId, token: Token, now: Time): Table {
    (map c | c in t && t[c].user != Some(user) :: t[c])[id := Credential(Some(user), Sealed(token, id), 0, now)]
  }

  /** ON DELETE SET NULL. */
  function AfterDelete(t: Table, user: UserId): Table {
    map c | c in t :: if t[c].user == Some(user) then t[c].(user := None) else t[c]
  }

  predicate Detached(t: Table, id: CredentialId) { id in t && t[id].user.None? }

  predicate Due(t: Table, id: CredentialId, now: Time) { Detached(t, id) && t[id].nextAttemptAt <= now }

  predicate Locked(s: State, id: CredentialId) { exists w :: w in s.claims && s.claims[w].id == id }

  /** SELECT ... ORDER BY next_attempt_at LIMIT 1 FOR UPDATE SKIP LOCKED. */
  ghost predicate ClaimsFirst(s: State, id: CredentialId) {
    && Due(s.table, id, s.now) && !Locked(s, id)
    && forall c :: Due(s.table, c, s.now) && !Locked(s, c) ==> s.table[id].nextAttemptAt <= s.table[c].nextAttemptAt
  }

  /** The last statement of a processing transaction. */
  function AfterFinish(t: Table, claim: Claim, now: Time): Table
    requires claim.outcome.Some?
  {
    if claim.outcome.value then t - {claim.id}
    else if claim.id in t then
      t[claim.id := t[claim.id].(attempts := t[claim.id].attempts + 1, nextAttemptAt := now + Delay(claim.attempts))]
    else t
  }

  // ---------- steps ----------

  ghost predicate Enabled(s: State, e: Step) {
    match e
    case Tick(later) => s.now <= later
    case Login(_, id, _) => id !in s.issued
    case DeleteUser(_) => true
    case ClaimNext(w, id) => w !in s.claims && ClaimsFirst(s, id)
    case Revoke(w, ok) =>
      && w in s.claims && s.claims[w].outcome.None?
      && (Open(s.claims[w].sealed, s.claims[w].id).None? ==> !ok)
    case Finish(w) => w in s.claims && s.claims[w].outcome.Some?
    case Crash(w) => w in s.claims
  }

  function Recorded(s: State, id: CredentialId): seq<Time> {
    if id in s.failures then s.failures[id] else []
  }

  function Apply(s: State, e: Step): State {
    match e
    case Tick(later) => s.(now := later)
    case Login(user, id, token) => s.(table := AfterLogin(s.table, user, id, token, s.now), issued := s.issued + {id})
    case DeleteUser(user) => s.(table := AfterDelete(s.table, user))
    case ClaimNext(w, id) =>
      if id in s.table then
        s.(claims := s.claims[w := Claim(id, s.table[id].sealed, s.table[id].attempts, s.now, None)])
      else s
    case Revoke(w, ok) =>
      if w in s.claims then
        s.(claims := s.claims[w := s.claims[w].(outcome := Some(ok))],
           revoked := if ok then s.revoked + {s.claims[w].sealed.token} else s.revoked)
      else s
    case Finish(w) =>
      if w in s.claims && s.claims[w].outcome.Some? then
        var claim := s.claims[w];
        s.(table := AfterFinish(s.table, claim, s.now), claims := s.claims - {w},
           failures := if claim.outcome.value then s.failures
                       else s.failures[claim.id := Recorded(s, claim.id) + [s.now]])
      else s
    case Crash(w) => s.(claims := s.claims - {w})
  }

  ghost predicate Runs(s: State, steps: seq<Step>)
    decreases |steps|
  {
    steps == [] || (Enabled(s, steps[0]) && Runs(Apply(s, steps[0]), steps[1..]))
  }

  function Outcome(s: State, steps: seq<Step>): State
    decreases |steps|
  {
    if steps == [] then s else Outcome(Apply(s, steps[0]), steps[1..])
  }

  ghost predicate Reachable(s: State) {
    exists steps :: Runs(INITIAL, steps) && Outcome(INITIAL, steps) == s
  }

  // ---------- the invariant ----------

  ghost predicate TableOk(s: State) {
    && (forall id :: id in s.table ==> id in s.issued && s.table[id].sealed.boundTo == id)
    && (forall c, d :: c in s.table && d in s.table && c != d && s.table[c].user.Some? ==>
          s.table[c].user != s.table[d].user)
  }

  /** A claimed row is detached and still what the claim read. */
  ghost predicate ClaimsOk(s: State) {
    && (forall w :: w in s.claims ==>
          var claim := s.claims[w];
          && Detached(s.table, claim.id)
          && s.table[claim.id].sealed == claim.sealed && s.table[claim.id].attempts == claim.attempts
          && s.table[claim.id].nextAttemptAt <= claim.at <= s.now
          && (claim.outcome == Some(true) ==> claim.sealed.token in s.revoked))
    && (forall v, w :: v in s.claims && w in s.claims && v != w ==> s.claims[v].id != s.claims[w].id)
  }

  /** Each failure waited out the delay of the one before. */
  ghost predicate Apart(times: seq<Time>) {
    forall i :: 0 <= i < |times| - 1 ==> times[i + 1] - times[i] >= Delay(i)
  }

  /** A credential's recorded failures fit its row. */
  ghost predicate Fits(row: Credential, times: seq<Time>) {
    && |times| == row.attempts
    && (times != [] ==> row.nextAttemptAt == times[|times| - 1] + Delay(|times| - 1))
  }

  /** One recorded failure per attempt, spaced by the backoff, those of revoked credentials
      included. */
  ghost predicate FailuresOk(s: State) {
    && (forall id :: id in s.failures ==> id in s.issued && Apart(s.failures[id]))
    && (forall id :: id in s.table ==> Fits(s.table[id], Recorded(s, id)))
  }

  ghost predicate Inv(s: State) { TableOk(s) && ClaimsOk(s) && FailuresOk(s) }

  lemma DelayIsPositive(attempts: nat)
    ensures MINUTE <= Delay(attempts) <= 1024 * MINUTE
  {
    Pow2Bounds(if attempts < 10 then attempts else 10);
  }

  lemma {:induction false} Pow2Bounds(n: nat)
    requires n <= 10
    ensures 1 <= Pow2(n) && Pow2(n) * Pow2(10 - n) == 1024
    decreases 10 - n
  {
    if n == 10 {
      assert Pow2(10) == 1024;
    } else {
      Pow2Bounds(n + 1);
    }
  }

  /** A finished processing touches its own row only. */
  lemma FinishRows(t: Table, claim: Claim, now: Time)
    requires claim.outcome.Some?
    ensures var t' := AfterFinish(t, claim, now);
      && (forall c :: c in t' ==> c in t && t'[c].user == t[c].user && t'[c].sealed == t[c].sealed)
      && (forall c :: c in t && c != claim.id ==> c in t' && t'[c] == t[c])
  {
  }

  lemma FinishKeepsClaims(s: State, w: WorkerId)
    requires TableOk(s) && ClaimsOk(s) && Enabled(s, Finish(w))
    ensures TableOk(Apply(s, Finish(w))) && ClaimsOk(Apply(s, Finish(w)))
  {
    FinishRows(s.table, s.claims[w], s.now);
    hide AfterFinish, Recorded;
    var s' := Apply(s, Finish(w));
    assert s'.claims == s.claims - {w} && s'.revoked == s.revoked && s'.now == s.now && s'.issued == s.issued;
    forall v | v in s'.claims ensures s'.claims[v] == s.claims[v] && s.claims[v].id != s.claims[w].id {}
  }

  /** One more failure, no earlier than the row allowed it, keeps the spacing. */
  lemma OneMoreFailure(row: Credential, times: seq<Time>, now: Time)
    requires Apart(times) && Fits(row, times) && row.nextAttemptAt <= now
    ensures Apart(times + [now])
    ensures Fits(row.(attempts := row.attempts + 1, nextAttemptAt := now + Delay(row.attempts)), times + [now])
  {
    hide Delay;
  }

  lemma FinishReads(s: State, w: WorkerId)
    requires Inv(s) && Enabled(s, Finish(w))
    ensures var claim := s.claims[w];
      && claim.id in s.table && claim.id in s.issued && claim.attempts == s.table[claim.id].attempts
      && s.table[claim.id].nextAttemptAt <= s.now
  {
    hide FailuresOk;
  }

  lemma FinishKeepsFailures(s: State, w: WorkerId)
    requires Inv(s) && Enabled(s, Finish(w))
    ensures FailuresOk(Apply(s, Finish(w)))
  {
    FinishReads(s, w);
    var (s', claim) := (Apply(s, Finish(w)), s.claims[w]);
    var (row, times) := (s.table[claim.id], Recorded(s, claim.id));
    assert FailuresOk(s);
    hide TableOk, ClaimsOk, FailuresOk, Delay;
    if claim.outcome.value {
      assert s'.table == s.table - {claim.id} && s'.failures == s.failures && s'.issued == s.issued;
      hide *;
      FewerRowsStayOk(s, s', claim.id);
    } else {
      var after := row.(attempts := row.attempts + 1, nextAttemptAt := s.now + Delay(row.attempts));
      assert s'.table == s.table[claim.id := after] && s'.issued == s.issued;
      assert s'.failures == s.failures[claim.id := times + [s.now]];
      hide *;
      RecordedFits(s, claim.id);
      OneMoreFailure(row, times, s.now);
      NewFailureStaysOk(s, s', claim.id, after, times + [s.now]);
    }
  }

  lemma RecordedFits(s: State, id: CredentialId)
    requires FailuresOk(s) && id in s.table
    ensures Apart(Recorded(s, id)) && Fits(s.table[id], Recorded(s, id))
  {
  }

  lemma FewerRowsStayOk(s: State, s': State, id: CredentialId)
    requires FailuresOk(s)
    requires s'.table == s.table - {id} && s'.failures == s.failures && s'.issued == s.issued
    ensures FailuresOk(s')
  {
    hide Fits, Apart;
    assert forall c :: Recorded(s', c) == Recorded(s, c);
  }

  lemma NewFailureStaysOk(s: State, s': State, id: CredentialId, row: Credential, times: seq<Time>)
    requires FailuresOk(s) && id in s.issued && Apart(times) && Fits(row, times)
    requires s'.table == s.table[id := row] && s'.failures == s.failures[id := times] && s'.issued == s.issued
    ensures FailuresOk(s')
  {
    hide Fits, Apart;
    assert Recorded(s', id) == times && forall c :: c != id ==> Recorded(s', c) == Recorded(s, c);
  }

  /** A login keeps every row but the user's own, and every detached row. */
  lemma LoginRows(t: Table, user: UserId, id: CredentialId, token: Token, now: Time)
    requires id !in t
    ensures var t' := AfterLogin(t, user, id, token, now);
      && t'[id] == Credential(Some(user), Sealed(token, id), 0, now)
      && (forall c :: c in t' && c != id ==> c in t && t'[c] == t[c] && t[c].user != Some(user))
      && (forall c :: Detached(t, c) ==> c in t' && t'[c] == t[c])
  {
  }

  lemma LoginKeepsTable(s: State, user: UserId, id: CredentialId, token: Token)
    requires Inv(s) && Enabled(s, Login(user, id, token))
    ensures TableOk(Apply(s, Login(user, id, token)))
  {
    LoginRows(s.table, user, id, token, s.now);
    hide AfterLogin, FailuresOk, ClaimsOk;
  }

  lemma LoginKeepsFailures(s: State, user: UserId, id: CredentialId, token: Token)
    requires Inv(s) && Enabled(s, Login(user, id, token))
    ensures FailuresOk(Apply(s, Login(user, id, token)))
  {
    LoginRows(s.table, user, id, token, s.now);
    var s' := Apply(s, Login(user, id, token));
    assert id !in s.failures && s'.failures == s.failures;
    hide Delay, Apart, AfterLogin, ClaimsOk;
    forall c | c in s'.table ensures Fits(s'.table[c], Recorded(s', c)) {
      assert Recorded(s', c) == Recorded(s, c);
    }
  }

  lemma LoginKeepsInv(s: State, user: UserId, id: CredentialId, token: Token)
    requires Inv(s) && Enabled(s, Login(user, id, token))
    ensures Inv(Apply(s, Login(user, id, token)))
  {
    var s' := Apply(s, Login(user, id, token));
    LoginKeepsTable(s, user, id, token);
    LoginKeepsFailures(s, user, id, token);
    assert id !in s.table;
    LoginRows(s.table, user, id, token, s.now);
    assert s'.claims == s.claims && s'.revoked == s.revoked && s'.now == s.now;
    hide FailuresOk, TableOk, AfterLogin, Recorded;
    forall w | w in s.claims ensures s'.table[s.claims[w].id] == s.table[s.claims[w].id] {
      assert Detached(s.table, s.claims[w].id);
    }
  }

  lemma DeleteKeepsRows(s: State, user: UserId)
    requires TableOk(s) && FailuresOk(s)
    ensures TableOk(Apply(s, DeleteUser(user))) && FailuresOk(Apply(s, DeleteUser(user)))
  {
    hide Delay, Apart;
    var s' := Apply(s, DeleteUser(user));
    forall c | c in s'.table ensures Fits(s'.table[c], Recorded(s', c)) {
      assert Recorded(s', c) == Recorded(s, c) && Fits(s.table[c], Recorded(s, c));
    }
  }

  lemma DeleteKeepsInv(s: State, user: UserId)
    requires Inv(s)
    ensures Inv(Apply(s, DeleteUser(user)))
  {
    DeleteKeepsRows(s, user);
    hide TableOk, FailuresOk, Recorded;
    var s' := Apply(s, DeleteUser(user));
    assert s'.claims == s.claims && s'.revoked == s.revoked && s'.now == s.now;
    forall c | Detached(s.table, c) ensures Detached(s'.table, c) && s'.table[c] == s.table[c] {}
  }

  lemma ClaimKeepsClaims(s: State, w: WorkerId, id: CredentialId)
    requires ClaimsOk(s) && Enabled(s, ClaimNext(w, id))
    ensures ClaimsOk(Apply(s, ClaimNext(w, id)))
  {
    hide Recorded;
    var s' := Apply(s, ClaimNext(w, id));
    assert forall v :: v in s.claims ==> s.claims[v].id != id;
    assert s'.table == s.table && s'.revoked == s.revoked && s'.now == s.now;
    forall v | v in s'.claims && v != w ensures s'.claims[v] == s.claims[v] {}
  }

  /** Claims and the clock have no part in what the rows and their failures must satisfy. */
  lemma SameRowsStayOk(s: State, s': State)
    requires TableOk(s) && FailuresOk(s)
    requires s'.table == s.table && s'.issued == s.issued && s'.failures == s.failures
    ensures TableOk(s') && FailuresOk(s')
  {
    hide Fits, Apart;
    assert forall c :: Recorded(s', c) == Recorded(s, c);
  }

  lemma ClaimKeepsInv(s: State, w: WorkerId, id: CredentialId)
    requires Inv(s) && Enabled(s, ClaimNext(w, id))
    ensures Inv(Apply(s, ClaimNext(w, id)))
  {
    ClaimKeepsClaims(s, w, id);
    SameRowsStayOk(s, Apply(s, ClaimNext(w, id)));
  }

  /** Claims may end or learn their outcome, and time may pass. */
  lemma FewerClaimsStayOk(s: State, s': State)
    requires ClaimsOk(s)
    requires s'.table == s.table && s.now <= s'.now && s.revoked <= s'.revoked
    requires forall v :: v in s'.claims ==>
      && v in s.claims && s'.claims[v] == s.claims[v].(outcome := s'.claims[v].outcome)
      && (s'.claims[v].outcome == Some(true) ==> s'.claims[v].sealed.token in s'.revoked)
    ensures ClaimsOk(s')
  {
  }

  lemma OtherStepKeepsInv(s: State, e: Step)
    requires Inv(s) && Enabled(s, e) && (e.Tick? || e.Revoke? || e.Crash?)
    ensures Inv(Apply(s, e))
  {
    var s' := Apply(s, e);
    SameRowsStayOk(s, s');
    hide TableOk, FailuresOk, Recorded;
    forall v | v in s'.claims
      ensures v in s.claims && s'.claims[v] == s.claims[v].(outcome := s'.claims[v].outcome)
      ensures s'.claims[v].outcome == Some(true) ==> s'.claims[v].sealed.token in s'.revoked
    {
      assert s.claims[v].outcome == Some(true) ==> s.claims[v].sealed.token in s.revoked;
    }
    hide ClaimsOk;
    FewerClaimsStayOk(s, s');
  }

  lemma StepKeepsInv(s: State, e: Step)
    requires Inv(s) && Enabled(s, e)
    ensures Inv(Apply(s, e))
  {
    match e {
      case Login(user, id, token) => LoginKeepsInv(s, user, id, token);
      case DeleteUser(user) => DeleteKeepsInv(s, user);
      case ClaimNext(w, id) => ClaimKeepsInv(s, w, id);
      case Finish(w) => FinishKeepsClaims(s, w); FinishKeepsFailures(s, w);
      case _ => OtherStepKeepsInv(s, e);
    }
  }

  lemma {:induction false} RunKeepsInv(s: State, steps: seq<Step>)
    requires Inv(s) && Runs(s, steps)
    ensures Inv(Outcome(s, steps))
    decreases |steps|
  {
    if steps != [] {
      StepKeepsInv(s, steps[0]);
      RunKeepsInv(Apply(s, steps[0]), steps[1..]);
    }
  }

  lemma ReachableIsInv(s: State)
    requires Reachable(s)
    ensures Inv(s)
  {
    var steps :| Runs(INITIAL, steps) && Outcome(INITIAL, steps) == s;
    RunKeepsInv(INITIAL, steps);
  }

  // ---------- a revocation is never lost ----------

  /** The credential waits with the token it was sealed with. */
  ghost predicate Waits(s: State, id: CredentialId, token: Token) {
    Detached(s.table, id) && Open(s.table[id].sealed, id) == Some(token)
  }

  /** A user's deletion puts the credential's own token in the queue. */
  lemma DeletionDetaches(s: State, user: UserId, id: CredentialId)
    requires Inv(s) && id in s.table && s.table[id].user == Some(user)
    ensures var s' := Apply(s, DeleteUser(user));
      Waits(s', id, s.table[id].sealed.token) && s'.table[id].attempts == s.table[id].attempts
  {
  }

  lemma StepKeepsWaiting(s: State, e: Step, id: CredentialId, token: Token)
    requires Inv(s) && Enabled(s, e) && Waits(s, id, token)
    ensures var s' := Apply(s, e); Waits(s', id, token) || token in s'.revoked
  {
  }

  /** Over every run of logins, deletions, replicas and crashes, a detached credential stays
      in the table with its own token until a Revoke of that token has succeeded. */
  lemma {:induction false} RevocationIsNeverLost(s: State, steps: seq<Step>, id: CredentialId, token: Token)
    requires Inv(s) && Runs(s, steps) && (Waits(s, id, token) || token in s.revoked)
    ensures var s' := Outcome(s, steps); Waits(s', id, token) || token in s'.revoked
    decreases |steps|
  {
    if steps != [] {
      StepKeepsInv(s, steps[0]);
      if Waits(s, id, token) { StepKeepsWaiting(s, steps[0], id, token); }
      RevocationIsNeverLost(Apply(s, steps[0]), steps[1..], id, token);
    }
  }

  /** The row leaves the table only with its token revoked; nothing else drops it. */
  lemma OnlySuccessRemoves(s: State, e: Step, id: CredentialId)
    requires Inv(s) && Enabled(s, e) && Detached(s.table, id) && id !in Apply(s, e).table
    ensures e.Finish? && s.claims[e.worker].id == id && s.table[id].sealed.token in s.revoked
  {
  }

  // ---------- backoff ----------

  /** The minutes a credential waits after its first, second, ... failure; the last figure
      repeats. */
  lemma DelayInMinutes(attempts: nat)
    ensures var minutes := [1, 2, 4, 8, 16, 32, 64, 128, 256, 512, 1024];
      Delay(attempts) == 60_000_000_000 * minutes[if attempts < 10 then attempts else 10]
  {
    assert Pow2(3) == 8;
    assert Pow2(6) == 64;
    assert Pow2(9) == 512;
  }

  /** In every reachable state a credential that has failed n times is due again exactly
      2^(n - 1) minutes after its last failure, and 1024 minutes once n is above ten; one
      that never failed has no failure recorded. */
  lemma DueAfterTheBackoff(s: State, id: CredentialId)
    requires Reachable(s) && id in s.table
    ensures var (row, times) := (s.table[id], Recorded(s, id));
      var minutes := [1, 2, 4, 8, 16, 32, 64, 128, 256, 512, 1024];
      && |times| == row.attempts
      && (row.attempts > 0 ==>
            && row.nextAttemptAt == times[row.attempts - 1]
                                    + 60_000_000_000 * minutes[if row.attempts <= 10 then row.attempts - 1 else 10]
            && row.nextAttemptAt <= times[row.attempts - 1] + 1024 * 60_000_000_000)
  {
    ReachableIsInv(s);
    RecordedFits(s, id);
    if s.table[id].attempts > 0 {
      DelayInMinutes(s.table[id].attempts - 1);
      DelayIsPositive(s.table[id].attempts - 1);
    }
    hide Reachable, Inv, Recorded, Delay;
  }

  /** From the first to the last of n recorded failures at least the first n - 1 delays
      have passed. */
  lemma FailuresAreSpaced(s: State, id: CredentialId)
    requires Reachable(s) && id in s.table && s.table[id].attempts > 0
    ensures var times := Recorded(s, id);
      && |times| == s.table[id].attempts
      && times[|times| - 1] - times[0] >= Backoff(|times|)
      && s.table[id].nextAttemptAt == times[|times| - 1] + Delay(|times| - 1)
  {
    ReachableIsInv(s);
    ApartAddsUp(Recorded(s, id));
  }

  lemma {:induction false} ApartAddsUp(times: seq<Time>)
    requires Apart(times) && times != []
    ensures times[|times| - 1] - times[0] >= Backoff(|times|)
  {
    var n := |times| - 1;
    if n > 0 {
      assert Apart(times[..n]) by {
        forall i | 0 <= i < n - 1 ensures times[..n][i + 1] - times[..n][i] >= Delay(i) {
          assert times[i + 1] - times[i] >= Delay(i);
        }
      }
      ApartAddsUp(times[..n]);
      assert times[n] - times[n - 1] >= Delay(n - 1);
    }
  }

  lemma {:induction false} AMinuteApart(times: seq<Time>, i: nat, j: nat)
    requires Apart(times) && i < j < |times|
    ensures times[j] - times[i] >= MINUTE
    decreases j
  {
    DelayIsPositive(j - 1);
    assert times[j - 1 + 1] - times[j - 1] >= Delay(j - 1);
    hide Delay;
    if i < j - 1 { AMinuteApart(times, i, j - 1); }
  }

  /** Whatever other replicas do meanwhile, no batch sees two failures of one credential:
      between its start and its deadline at most one is recorded. */
  lemma OneFailurePerBatch(s: State, id: CredentialId, started: Time, i: nat, j: nat)
    requires Reachable(s) && i < |Recorded(s, id)| && j < |Recorded(s, id)|
    requires started <= Recorded(s, id)[i] <= started + BATCH_DEADLINE
    requires started <= Recorded(s, id)[j] <= started + BATCH_DEADLINE
    ensures i == j
  {
    ReachableIsInv(s);
    if i < j { AMinuteApart(Recorded(s, id), i, j); }
    if j < i { AMinuteApart(Recorded(s, id), j, i); }
  }

  /** The total wait, in closed form: doubling up to ten failures, 1024 minutes from then on. */
  lemma {:induction false} BackoffSum(n: nat)
    requires n >= 1
    ensures Backoff(n) == MINUTE * (if n <= 11 then Pow2(n - 1) - 1 else 1023 + 1024 * (n - 11))
  {
    if n > 1 {
      BackoffSum(n - 1);
      Pow2Bounds(10);
      if n > 11 { assert Delay(n - 2) == MINUTE * 1024 by { assert Pow2(10) == 1024; } }
      if n == 12 { assert Pow2(10) == 1024; }
    }
  }

  // ---------- no starvation ----------

  /** Queued credentials a claim may take before `id`. */
  function Ahead(t: Table, id: CredentialId): set<CredentialId>
    requires id in t
  {
    set c | c in t && c != id && t[c].user.None? && t[c].nextAttemptAt <= t[id].nextAttemptAt
  }

  /** Claims in flight on credentials that are not ahead of `id`: they were taken before `id`
      was due and free. */
  function Strays(s: State, id: CredentialId): set<WorkerId>
    requires id in s.table
  {
    set w | w in s.claims && s.claims[w].id !in Ahead(s.table, id)
  }

  /** The committed processing steps of a run. */
  function Commits(steps: seq<Step>): nat {
    if steps == [] then 0 else (if steps[0].Finish? then 1 else 0) + Commits(steps[1..])
  }

  /** Deletions of a run that put one more credential in the queue. */
  ghost function Detaches(s: State, steps: seq<Step>): nat
    decreases |steps|
  {
    if steps == [] then 0
    else (if DetachesOne(s, steps[0]) then 1 else 0)
         + Detaches(Apply(s, steps[0]), steps[1..])
  }

  ghost predicate DetachesOne(s: State, e: Step) {
    e.DeleteUser? && exists c :: c in s.table && s.table[c].user == Some(e.user)
  }

  predicate Unclaimed(steps: seq<Step>, id: CredentialId) {
    forall i :: 0 <= i < |steps| && steps[i].ClaimNext? ==> steps[i].id != id
  }

  /** Due, and nobody is working on it. */
  ghost predicate Free(s: State, id: CredentialId) { Due(s.table, id, s.now) && !Locked(s, id) }

  lemma SubsetSize<T>(a: set<T>, b: set<T>)
    requires a <= b
    ensures |a| <= |b|
  {
    if a != {} {
      var x :| x in a;
      SubsetSize(a - {x}, b - {x});
    }
  }

  /** Finishing takes the credential out of everyone's way: it is gone, or due later than
      any credential that is due now. */
  lemma FinishedIsNotAhead(t: Table, claim: Claim, now: Time, id: CredentialId)
    requires claim.outcome.Some? && id in t && id != claim.id && t[id].nextAttemptAt <= now
    ensures Ahead(AfterFinish(t, claim, now), id) == Ahead(t, id) - {claim.id}
  {
    DelayIsPositive(claim.attempts);
    hide Delay;
  }

  /** What finishing does, seen from a credential that waits. */
  lemma FinishSpares(s: State, w: WorkerId, id: CredentialId)
    requires Inv(s) && Enabled(s, Finish(w)) && Free(s, id)
    ensures var s' := Apply(s, Finish(w));
      && Free(s', id) && s'.claims == s.claims - {w}
      && Ahead(s'.table, id) == Ahead(s.table, id) - {s.claims[w].id}
      && forall v :: v in s'.claims ==> s.claims[v].id != s.claims[w].id
  {
    assert s.claims[w].id != id;
    FinishRows(s.table, s.claims[w], s.now);
    FinishedIsNotAhead(s.table, s.claims[w], s.now, id);
    hide Ahead, AfterFinish, TableOk, FailuresOk, Recorded;
    assert Apply(s, Finish(w)).table[id] == s.table[id];
  }

  lemma OneLess(ahead: set<CredentialId>, strays: set<WorkerId>, c: CredentialId, w: WorkerId)
    requires c in ahead || w in strays
    ensures |ahead - {c}| + |if c in ahead then strays else strays - {w}| + 1 <= |ahead| + |strays|
  {
  }

  lemma FinishStrays(s: State, w: WorkerId, id: CredentialId)
    requires Inv(s) && Enabled(s, Finish(w)) && Free(s, id)
    ensures id in Apply(s, Finish(w)).table && Strays(Apply(s, Finish(w)), id) == Strays(s, id) - {w}
    ensures w in Strays(s, id) <==> s.claims[w].id !in Ahead(s.table, id)
  {
    FinishSpares(s, w, id);
    var s' := Apply(s, Finish(w));
    assert id in s.table && id in s'.table && w in s.claims;
    hide Ahead, Apply, Inv, Free, Enabled;
    forall v ensures v in Strays(s', id) <==> v in Strays(s, id) && v != w {
      assert v in s'.claims ==> s'.claims[v] == s.claims[v];
    }
  }

  lemma FinishLowersAhead(s: State, w: WorkerId, id: CredentialId)
    requires Inv(s) && Enabled(s, Finish(w)) && Free(s, id)
    ensures var s' := Apply(s, Finish(w));
      && Free(s', id) && Strays(s', id) <= Strays(s, id)
      && |Ahead(s'.table, id)| + |Strays(s', id)| + 1 <= |Ahead(s.table, id)| + |Strays(s, id)|
  {
    FinishSpares(s, w, id);
    FinishStrays(s, w, id);
    assert id in s.table;
    var (c, ahead, strays) := (s.claims[w].id, Ahead(s.table, id), Strays(s, id));
    hide *;
    OneLess(ahead, strays, c, w);
    assert c in ahead ==> strays - {w} == strays;
  }

  lemma DeleteAddsAtMostOne(s: State, user: UserId, id: CredentialId)
    requires Inv(s) && Free(s, id)
    ensures var s' := Apply(s, DeleteUser(user));
      && Free(s', id) && Strays(s', id) <= Strays(s, id)
      && |Ahead(s'.table, id)| + |Strays(s', id)|
         <= |Ahead(s.table, id)| + |Strays(s, id)| + (if DetachesOne(s, DeleteUser(user)) then 1 else 0)
  {
    hide FailuresOk;
    var s' := Apply(s, DeleteUser(user));
    assert s'.claims == s.claims && s'.table[id] == s.table[id];
    assert Ahead(s.table, id) <= Ahead(s'.table, id);
    if c :| c in s.table && s.table[c].user == Some(user) {
      assert Ahead(s'.table, id) <= Ahead(s.table, id) + {c};
      SubsetSize(Ahead(s'.table, id), Ahead(s.table, id) + {c});
    } else {
      assert s'.table == s.table;
    }
    SubsetSize(Strays(s', id), Strays(s, id));
  }

  lemma LoginKeepsAhead(s: State, user: UserId, newId: CredentialId, token: Token, id: CredentialId)
    requires Inv(s) && Enabled(s, Login(user, newId, token)) && Free(s, id)
    ensures var s' := Apply(s, Login(user, newId, token));
      Free(s', id) && Ahead(s'.table, id) == Ahead(s.table, id) && Strays(s', id) == Strays(s, id)
  {
    LoginRows(s.table, user, newId, token, s.now);
    hide AfterLogin, FailuresOk;
    var s' := Apply(s, Login(user, newId, token));
    assert newId !in s.table;
    assert s'.table[id] == s.table[id];
    forall c ensures c in Ahead(s'.table, id) <==> c in Ahead(s.table, id) {
      if c in Ahead(s.table, id) { assert Detached(s.table, c); }
    }
  }

  /** A claim taken while `id` is due and free is taken from ahead of it. */
  lemma ClaimKeepsAhead(s: State, w: WorkerId, c: CredentialId, id: CredentialId)
    requires Inv(s) && Enabled(s, ClaimNext(w, c)) && Free(s, id) && c != id
    ensures c in Ahead(s.table, id)
    ensures var s' := Apply(s, ClaimNext(w, c));
      Free(s', id) && s'.table == s.table && Strays(s', id) == Strays(s, id)
  {
    hide Inv;
    var s' := Apply(s, ClaimNext(w, c));
    assert forall v :: v in s.claims ==> s.claims[v].id != id;
  }

  lemma OtherStepKeepsAhead(s: State, e: Step, id: CredentialId)
    requires Enabled(s, e) && Free(s, id) && (e.Tick? || e.Revoke? || e.Crash?)
    ensures var s' := Apply(s, e);
      && Free(s', id) && s'.table == s.table
      && Strays(s', id) <= Strays(s, id) && |Strays(s', id)| <= |Strays(s, id)|
  {
    hide Ahead;
    var s' := Apply(s, e);
    assert forall v :: v in s'.claims ==> v in s.claims && s'.claims[v].id == s.claims[v].id;
    SubsetSize(Strays(s', id), Strays(s, id));
  }

  /** Every commit lowers the number of credentials ahead plus stray claims; only a deletion
      raises it, by one. */
  lemma WaitingStep(s: State, e: Step, id: CredentialId)
    requires Inv(s) && Enabled(s, e) && Free(s, id)
    requires e.ClaimNext? ==> e.id != id
    ensures var s' := Apply(s, e);
      && Free(s', id) && Strays(s', id) <= Strays(s, id)
      && |Ahead(s'.table, id)| + |Strays(s', id)| + (if e.Finish? then 1 else 0)
         <= |Ahead(s.table, id)| + |Strays(s, id)| + (if DetachesOne(s, e) then 1 else 0)
  {
    hide Ahead, Strays, Inv, DetachesOne;
    match e {
      case Finish(w) => FinishLowersAhead(s, w, id);
      case DeleteUser(user) => DeleteAddsAtMostOne(s, user, id);
      case Login(user, newId, token) => LoginKeepsAhead(s, user, newId, token, id);
      case ClaimNext(w, c) => ClaimKeepsAhead(s, w, c, id);
      case _ => OtherStepKeepsAhead(s, e, id);
    }
  }

  /** While a due credential waits unclaimed, all processing commits together number at most
      those ahead of it at the start, plus those detached meanwhile, plus the stray claims
      already in flight; stray claims do not come anew. */
  lemma {:induction false} NoStarvation(s: State, steps: seq<Step>, id: CredentialId)
    requires Inv(s) && Runs(s, steps) && Free(s, id) && Unclaimed(steps, id)
    ensures Commits(steps) <= |Ahead(s.table, id)| + Detaches(s, steps) + |Strays(s, id)|
    ensures Free(Outcome(s, steps), id) && Strays(Outcome(s, steps), id) <= Strays(s, id)
    decreases |steps|
  {
    if steps != [] {
      WaitingStep(s, steps[0], id);
      StepKeepsInv(s, steps[0]);
      hide Ahead, Strays, Inv, Free;
      assert Unclaimed(steps[1..], id) by {
        forall i | 0 <= i < |steps[1..]| && steps[1..][i].ClaimNext? ensures steps[1..][i].id != id {
          assert steps[1..][i] == steps[i + 1];
        }
      }
      NoStarvation(Apply(s, steps[0]), steps[1..], id);
    }
  }

  /** Without stray claims, in particular when no replica is at work, it is served within its
      place in line. */
  lemma ServedWithinItsPlace(s: State, steps: seq<Step>, id: CredentialId)
    requires Reachable(s) && Runs(s, steps) && Free(s, id) && Unclaimed(steps, id)
    requires forall w :: w in s.claims ==> s.claims[w].id in Ahead(s.table, id)
    ensures Commits(steps) <= |Ahead(s.table, id)| + Detaches(s, steps)
  {
    ReachableIsInv(s);
    NoStarvation(s, steps, id);
    assert Strays(s, id) == {};
  }

  lemma {:induction false} RunExtends(s: State, steps: seq<Step>, e: Step)
    requires Runs(s, steps) && Enabled(Outcome(s, steps), e)
    ensures Runs(s, steps + [e]) && Outcome(s, steps + [e]) == Apply(Outcome(s, steps), e)
    decreases |steps|
  {
    if steps == [] {
      assert steps + [e] == [e] && [e][1..] == [];
    } else {
      assert (steps + [e])[1..] == steps[1..] + [e];
      RunExtends(Apply(s, steps[0]), steps[1..], e);
    }
  }

  lemma Reaches(s: State, e: Step)
    requires Reachable(s) && Enabled(s, e)
    ensures Reachable(Apply(s, e))
  {
    var steps :| Runs(INITIAL, steps) && Outcome(INITIAL, steps) == s;
    RunExtends(INITIAL, steps, e);
  }

  const ROW_A := Credential(None, Sealed("a", 1), 0, 10)
  const ROW_B := Credential(Some(20), Sealed("b", 2), 0, 0)

  lemma OneDetached() returns (s: State)
    ensures Reachable(s) && s == State(map[2 := ROW_B, 1 := ROW_A], map[], {}, {1, 2}, 10, map[])
  {
    hide Delay;
    assert Runs(INITIAL, []) && Outcome(INITIAL, []) == INITIAL;
    assert Reachable(INITIAL);
    hide Reachable;
    Reaches(INITIAL, Login(20, 2, "b"));
    var s1 := State(map[2 := ROW_B], map[], {}, {2}, 0, map[]);
    assert Apply(INITIAL, Login(20, 2, "b")) == s1;
    Reaches(s1, Tick(10));
    var s2 := s1.(now := 10);
    Reaches(s2, Login(10, 1, "a"));
    var s3 := s2.(table := map[2 := ROW_B, 1 := ROW_A.(user := Some(10))], issued := {1, 2});
    assert Apply(s2, Login(10, 1, "a")) == s3;
    Reaches(s3, DeleteUser(10));
    s := Apply(s3, DeleteUser(10));
    assert s.table == map[2 := ROW_B, 1 := ROW_A];
  }

  /** A credential is claimed, and then an older one is detached. */
  lemma StrayClaim() returns (s: State)
    ensures Reachable(s) && s.claims == map[0 := Claim(1, ROW_A.sealed, 0, 10, None)] && s.now == 10
    ensures s.table == map[2 := ROW_B.(user := None), 1 := ROW_A]
  {
    var s0 := OneDetached();
    hide Reachable, Delay;
    assert forall c :: Due(s0.table, c, s0.now) ==> c == 1;
    assert ClaimsFirst(s0, 1);
    Reaches(s0, ClaimNext(0, 1));
    var s1 := Apply(s0, ClaimNext(0, 1));
    assert s1.table == s0.table && s1.claims == map[0 := Claim(1, ROW_A.sealed, 0, 10, None)];
    Reaches(s1, DeleteUser(20));
    s := Apply(s1, DeleteUser(20));
  }

  /** A stray claim's commit comes on top: here one commits with nobody ahead and nobody
      detached meanwhile. */
  lemma StrayCommitsCount() returns (s: State, steps: seq<Step>)
    ensures Reachable(s) && Runs(s, steps) && Free(s, 2) && Unclaimed(steps, 2)
    ensures Ahead(s.table, 2) == {} && Detaches(s, steps) == 0 && Strays(s, 2) == {0} && Commits(steps) == 1
  {
    s := StrayClaim();
    steps := [Revoke(0, false), Finish(0)];
    assert s.claims[0].id == 1;
    assert steps[1..] == [Finish(0)] && steps[1..][1..] == [];
    var s1 := Apply(s, steps[0]);
    assert Enabled(s, steps[0]) && Enabled(s1, Finish(0));
    assert Runs(Apply(s1, Finish(0)), []) && Runs(s1, [Finish(0)]);
    assert Commits([Finish(0)]) == 1 && Detaches(s1, [Finish(0)]) == 0;
  }

  // ---------- one replica's batch ----------

  const BATCH_SIZE: nat := 10

  /** When a processing transaction began, whether Revoke succeeded, and when it ended. */
  datatype Attempt = Attempt(began: Time, ok: bool, ended: Time)

  class RevocationQueue {
    var table: Table
    var revoked: set<Token>

    constructor (table: Table)
      ensures this.table == table && revoked == {}
    {
      this.table := table;
      revoked := {};
    }

    /** processAppleRevocation with nobody else at work: the earliest due credential is
        deleted when its token opens and Revoke succeeds, and backs off otherwise. */
    method ProcessOne(attempt: Attempt) returns (found: bool, id: CredentialId)
      modifies this
      ensures found <==> exists c :: Due(old(table), c, attempt.began)
      ensures !found ==> table == old(table) && revoked == old(revoked)
      ensures found ==>
                && Due(old(table), id, attempt.began)
                && (forall c :: Due(old(table), c, attempt.began) ==>
                    old(table)[id].nextAttemptAt <= old(table)[c].nextAttemptAt)
                && var row := old(table)[id];
                   var ok := attempt.ok && Open(row.sealed, id).Some?;
                && table == AfterFinish(old(table), Claim(id, row.sealed, row.attempts, attempt.began, Some(ok)),
                    attempt.ended)
                && revoked == if ok then old(revoked) + {row.sealed.token} else old(revoked)
      ensures found ==>
                var (row, minutes) := (old(table)[id], [1, 2, 4, 8, 16, 32, 64, 128, 256, 512, 1024]);
                if attempt.ok && row.sealed.boundTo == id then table == old(table) - {id}
                else
                  var delay := 60_000_000_000 * minutes[if row.attempts < 10 then row.attempts else 10];
                  table == old(table)[id := row.(attempts := row.attempts + 1, nextAttemptAt := attempt.ended + delay)]
    {
      id := 0;
      found := false;
      var rest := table.Keys;
      while rest != {}
        invariant rest <= table.Keys && table == old(table) && revoked == old(revoked)
        invariant found ==> Due(table, id, attempt.began)
        invariant forall c :: c in table && c !in rest && Due(table, c, attempt.began) ==>
          found && table[id].nextAttemptAt <= table[c].nextAttemptAt
        decreases rest
      {
        var c :| c in rest;
        rest := rest - {c};
        if table[c].user.None? && table[c].nextAttemptAt <= attempt.began
          && (!found || table[c].nextAttemptAt < table[id].nextAttemptAt) {
          found, id := true, c;
        }
      }
      if found {
        var row := table[id];
        var token := Open(row.sealed, id);
        if token.Some? && attempt.ok {
          revoked := revoked + {row.sealed.token};
          table := table - {id};
        } else {
          var delay := Delay(row.attempts);
          DelayInMinutes(row.attempts);
          table := table[id := row.(attempts := row.attempts + 1, nextAttemptAt := attempt.ended + delay)];
        }
      }
    }

    /** ProcessAppleRevocations: at most ten credentials, stopping at an empty queue. Within
        the batch's deadline no credential fails twice, and none is touched that was not
        due. */
    method ProcessBatch(attempts: seq<Attempt>) returns (processed: nat)
      requires |attempts| == BATCH_SIZE
      requires forall i :: 0 <= i < |attempts| ==>
                 attempts[0].began <= attempts[i].began <= attempts[i].ended <= attempts[0].began + BATCH_DEADLINE
      modifies this
      ensures processed <= BATCH_SIZE
      ensures processed < BATCH_SIZE ==> forall c :: !Due(table, c, attempts[processed].began)
      ensures forall c :: c in table ==>
                && c in old(table)
                && (table[c] == old(table)[c] ||
                    (&& Detached(old(table), c)
                     && table[c].attempts == old(table)[c].attempts + 1
                     && exists i :: 0 <= i < processed
                          && table[c].nextAttemptAt == attempts[i].ended + Delay(old(table)[c].attempts)))
      ensures forall c :: c in old(table) && c !in table ==>
                Detached(old(table), c) && Open(old(table)[c].sealed, c).Some? && old(table)[c].sealed.token in revoked
    {
      processed := 0;
      for i := 0 to BATCH_SIZE
        invariant processed == i
        invariant old(revoked) <= revoked
        invariant forall c :: c in table ==>
          && c in old(table)
          && (table[c] == old(table)[c] ||
              (&& Detached(old(table), c) && table[c].user.None? && table[c].sealed == old(table)[c].sealed
               && table[c].attempts == old(table)[c].attempts + 1
               && exists k :: 0 <= k < i
                    && table[c].nextAttemptAt == attempts[k].ended + Delay(old(table)[c].attempts)))
        invariant forall c :: c in old(table) && c !in table ==>
          Detached(old(table), c) && Open(old(table)[c].sealed, c).Some? && old(table)[c].sealed.token in revoked
      {
        ghost var before := table;
        var found, id := ProcessOne(attempts[i]);
        if !found {
          return;
        }
        DelayIsPositive(old(table)[id].attempts);
        assert before[id] == old(table)[id];
        processed := processed + 1;
      }
    }
  }
}
