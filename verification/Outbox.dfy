/** The outbox half of backend/services/integrationEvents.js: dispatchers lease rows of
    `integration_outbox_events`, publish, retry or dead-letter them, and may stall at any point.

    A `Store` is the database as one statement sees it. Every SQL statement is one atomic `Action`;
    `Exec` runs any interleaving of actions by any number of dispatchers while the clock advances. */
module Outbox {
  import opened Wrappers
  import opened Sets

  type EventId = string

  /** The claim owner `${leaseOwner}:${randomUUID()}`; a fresh UUID is the next unused number. */
  type Token = nat

  const DEFAULT_MAX_ATTEMPTS: nat := 5
  const FIRST_BACKOFF_MS := 1000

  datatype State = Pending | Claimed | RetryScheduled | Published | TerminalFailed | DeadLettered | Cancelled

  datatype Row = Row(
    state: State,
    attempts: nat,
    maxAttempts: nat,
    nextAttemptAt: int,
    owner: Option<Token>,
    expiresAt: Option<int>,
    publishedAt: Option<int>,
    deadLetteredAt: Option<int>,
    errorClass: Option<string>,
    version: nat,
    createdAt: int)

  datatype DeadLetter = DeadLetter(event: EventId, attempts: nat, reason: string)

  datatype Store = Store(now: int, nextToken: Token, rows: map<EventId, Row>, deadLetters: seq<DeadLetter>)

  datatype Action =
    | Tick(elapsed: nat)
    | Append(event: EventId)
    | Claim(picked: set<EventId>, locked: set<EventId>, limit: nat, leaseMs: int)
    | MarkPublished(event: EventId, owner: Option<Token>)
    | ScheduleRetry(event: EventId, owner: Option<Token>, reason: string, delayMs: int)
    | MoveToDeadLetter(event: EventId, owner: Option<Token>, reason: string)
    | ReleaseExpired

  // ----- What the WHERE clauses say -----

  /** `lease_expires_at > now()`, false for NULL. */
  predicate LeaseLive(row: Row, now: int) {
    row.expiresAt.Some? && row.expiresAt.value > now
  }

  /** `lease_expires_at <= now()`, also false for NULL. */
  predicate LeaseLapsed(row: Row, now: int) {
    row.expiresAt.Some? && row.expiresAt.value <= now
  }

  /** The common guard of every write: claimed, lease not expired, and `$owner is null or lease_owner = $owner`. */
  predicate Writable(s: Store, e: EventId, owner: Option<Token>) {
    && e in s.rows
    && s.rows[e].state.Claimed?
    && (owner.None? || s.rows[e].owner == owner)
    && LeaseLive(s.rows[e], s.now)
  }

  predicate Claimable(row: Row, now: int) {
    || ((row.state.Pending? || row.state.RetryScheduled?) && row.nextAttemptAt <= now)
    || (row.state.Claimed? && LeaseLapsed(row, now))
  }

  function ClaimableIn(s: Store, locked: set<EventId>): set<EventId> {
    set e | e in s.rows && e !in locked && Claimable(s.rows[e], s.now)
  }

  /** What `order by created_at for update skip locked limit n` may return: claimable rows that no other
      transaction has locked, as many as the limit allows, and none younger than one left behind. */
  predicate ValidPick(s: Store, picked: set<EventId>, locked: set<EventId>, limit: nat) {
    var pool := ClaimableIn(s, locked);
    && picked <= pool
    && |picked| == (if |pool| <= limit then |pool| else limit)
    && forall e, f | e in picked && f in pool && f !in picked :: s.rows[e].createdAt <= s.rows[f].createdAt
  }

  // ----- What the SET clauses do -----

  function Appended(now: int): Row {
    Row(Pending, 0, DEFAULT_MAX_ATTEMPTS, now, None, None, None, None, None, 1, now)
  }

  function Leased(row: Row, token: Token, expiresAt: int): Row {
    row.(state := Claimed, owner := Some(token), expiresAt := Some(expiresAt),
    attempts := row.attempts + 1, version := row.version + 1)
  }

  function PublishedRow(row: Row, now: int): Row {
    row.(state := Published, publishedAt := Some(now), owner := None, expiresAt := None, version := row.version + 1)
  }

  predicate Exhausted(row: Row) {
    row.attempts >= row.maxAttempts
  }

  function RetriedRow(row: Row, now: int, reason: string, delayMs: int): Row {
    row.(state := if Exhausted(row) then DeadLettered else RetryScheduled,
    nextAttemptAt := now + (if delayMs == 0 then FIRST_BACKOFF_MS else delayMs),
    owner := None, expiresAt := None, errorClass := Some(reason),
    deadLetteredAt := if Exhausted(row) then Some(now) else row.deadLetteredAt,
    version := row.version + 1)
  }

  /** Unlike the other exits, this one leaves `lease_owner` and `lease_expires_at` in place. */
  function DeadLetteredRow(row: Row, now: int, reason: string): Row {
    row.(state := DeadLettered, deadLetteredAt := Some(now), errorClass := Some(reason), version := row.version + 1)
  }

  /** `releaseExpiredClaims` compares with `<`, `claimBatch` with `<=`. */
  function ReleasedRow(row: Row, now: int): Row {
    if row.state.Claimed? && row.expiresAt.Some? && row.expiresAt.value < now
    then row.(state := RetryScheduled, owner := None, expiresAt := None, version := row.version + 1)
    else row
  }

  /** The database after one action. A write whose guard fails, a second append of an event id, and a pick
      the query could not have returned change nothing. */
  function After(s: Store, a: Action): Store {
    match a
    case Tick(d) => s.(now := s.now + d)
    case Append(e) =>
      if e in s.rows then s else s.(rows := s.rows[e := Appended(s.now)])
    case Claim(picked, locked, limit, leaseMs) =>
      if ValidPick(s, picked, locked, limit) then ClaimStore(s, picked, leaseMs) else s
    case MarkPublished(e, owner) =>
      if Writable(s, e, owner) then s.(rows := s.rows[e := PublishedRow(s.rows[e], s.now)]) else s
    case ScheduleRetry(e, owner, reason, delayMs) =>
      if Writable(s, e, owner) then RetryStore(s, e, reason, delayMs) else s
    case MoveToDeadLetter(e, owner, reason) =>
      if Writable(s, e, owner) then DeadLetterStore(s, e, reason) else s
    case ReleaseExpired =>
      s.(rows := map e | e in s.rows :: ReleasedRow(s.rows[e], s.now))
  }

  function ClaimStore(s: Store, picked: set<EventId>, leaseMs: int): Store {
    s.(nextToken := s.nextToken + 1,
    rows := map e | e in s.rows ::
      if e in picked then Leased(s.rows[e], s.nextToken, s.now + leaseMs) else s.rows[e])
  }

  function RetryStore(s: Store, e: EventId, reason: string, delayMs: int): Store
    requires e in s.rows
  {
    var row := s.rows[e];
    s.(rows := s.rows[e := RetriedRow(row, s.now, reason, delayMs)],
    deadLetters := if Exhausted(row) then s.deadLetters + [DeadLetter(e, row.attempts, reason)] else s.deadLetters)
  }

  function DeadLetterStore(s: Store, e: EventId, reason: string): Store
    requires e in s.rows
  {
    var row := s.rows[e];
    s.(rows := s.rows[e := DeadLetteredRow(row, s.now, reason)],
    deadLetters := s.deadLetters + [DeadLetter(e, row.attempts, reason)])
  }

  function Exec(s: Store, acts: seq<Action>): Store
    decreases |acts|
  {
    if acts == [] then s else Exec(After(s, acts[0]), acts[1..])
  }

  lemma {:induction false} ExecConcat(s: Store, first: seq<Action>, second: seq<Action>)
    ensures Exec(s, first + second) == Exec(Exec(s, first), second)
    decreases |first|
  {
    if first == [] {
      assert first + second == second;
    } else {
      assert (first + second)[1..] == first[1..] + second;
      ExecConcat(After(s, first[0]), first[1..], second);
    }
  }

  // ----- The invariant of every reachable database -----

  function LettersFor(letters: seq<DeadLetter>, e: EventId): nat {
    if letters == [] then 0
    else LettersFor(letters[..|letters| - 1], e) + (if letters[|letters| - 1].event == e then 1 else 0)
  }

  predicate RowInv(row: Row, now: int, nextToken: Token) {
    && !row.state.TerminalFailed? && !row.state.Cancelled?
    && (row.owner.Some? ==> row.owner.value < nextToken)
    && (row.state.Claimed? ==> row.owner.Some? && row.expiresAt.Some? && row.nextAttemptAt <= now)
    && (row.state.Pending? || row.state.RetryScheduled? || row.state.Published? ==>
        row.owner.None? && row.expiresAt.None?)
    && (row.state.Published? <==> row.publishedAt.Some?)
    && (row.state.DeadLettered? <==> row.deadLetteredAt.Some?)
  }

  predicate DeadLetteredIn(s: Store, e: EventId) {
    e in s.rows && s.rows[e].state.DeadLettered?
  }

  ghost predicate Inv(s: Store) {
    && (forall e | e in s.rows :: RowInv(s.rows[e], s.now, s.nextToken))
    && (forall e :: LettersFor(s.deadLetters, e) == if DeadLetteredIn(s, e) then 1 else 0)
  }

  function Empty(now: int): Store {
    Store(now, 0, map[], [])
  }

  lemma AppendLetter(letters: seq<DeadLetter>, d: DeadLetter)
    ensures forall e :: LettersFor(letters + [d], e) == LettersFor(letters, e) + if d.event == e then 1 else 0
  {
    assert (letters + [d])[..|letters|] == letters;
  }

  lemma AfterKeepsRows(s: Store, a: Action)
    requires Inv(s)
    ensures forall e | e in After(s, a).rows :: RowInv(After(s, a).rows[e], After(s, a).now, After(s, a).nextToken)
  {
    forall e | e in After(s, a).rows ensures RowInv(After(s, a).rows[e], After(s, a).now, After(s, a).nextToken) {
      assert e in s.rows ==> RowInv(s.rows[e], s.now, s.nextToken);
    }
  }

  /** Dead letters stay one-to-one with dead-lettered rows. */
  lemma AfterKeepsLetters(s: Store, a: Action, e: EventId)
    requires Inv(s)
    ensures LettersFor(After(s, a).deadLetters, e) == if DeadLetteredIn(After(s, a), e) then 1 else 0
  {
    match a
    case ScheduleRetry(f, owner, reason, _) =>
      if Writable(s, f, owner) { AppendLetter(s.deadLetters, DeadLetter(f, s.rows[f].attempts, reason)); }
    case MoveToDeadLetter(f, owner, reason) =>
      if Writable(s, f, owner) { AppendLetter(s.deadLetters, DeadLetter(f, s.rows[f].attempts, reason)); }
    case _ =>
  }

  lemma StepKeepsRowsAndLettersInStep(s: Store, a: Action)
    requires Inv(s)
    ensures Inv(After(s, a))
  {
    AfterKeepsRows(s, a);
    forall e ensures LettersFor(After(s, a).deadLetters, e) == if DeadLetteredIn(After(s, a), e) then 1 else 0 {
      AfterKeepsLetters(s, a, e);
    }
  }

  lemma {:induction false} RunsKeepRowsAndLettersInStep(s: Store, acts: seq<Action>)
    requires Inv(s)
    ensures Inv(Exec(s, acts))
    decreases |acts|
  {
    if acts != [] {
      StepKeepsRowsAndLettersInStep(s, acts[0]);
      RunsKeepRowsAndLettersInStep(After(s, acts[0]), acts[1..]);
    }
  }

  // ----- Fencing -----

  /** Dispatcher `t` holds the live lease of `e`. */
  predicate Holds(s: Store, e: EventId, t: Token) {
    Writable(s, e, Some(t))
  }

  /** A call that names event `e` with owner argument `owner`. */
  predicate CallOn(a: Action, e: EventId, owner: Option<Token>) {
    match a
    case MarkPublished(f, o) => f == e && o == owner
    case ScheduleRetry(f, o, _, _) => f == e && o == owner
    case MoveToDeadLetter(f, o, _) => f == e && o == owner
    case _ => false
  }

  lemma AfterKeepsLost(s: Store, a: Action, e: EventId, t: Token)
    requires Inv(s) && t < s.nextToken && !Holds(s, e, t)
    ensures !Holds(After(s, a), e, t) && t < After(s, a).nextToken
  {
  }

  /** Fencing over whole runs: once an issued token does not hold the live lease of an event (it expired,
      was re-claimed, was given up), no later call with that token ever changes the database, whatever
      the other dispatchers do and however late the call arrives. */
  lemma {:induction false} LostLeaseNeverWrites(s: Store, acts: seq<Action>, e: EventId, t: Token, call: Action)
    requires Inv(s) && t < s.nextToken && !Holds(s, e, t)
    requires CallOn(call, e, Some(t))
    ensures !Holds(Exec(s, acts), e, t)
    ensures After(Exec(s, acts), call) == Exec(s, acts)
    decreases |acts|
  {
    if acts != [] {
      AfterKeepsLost(s, acts[0], e, t);
      StepKeepsRowsAndLettersInStep(s, acts[0]);
      LostLeaseNeverWrites(After(s, acts[0]), acts[1..], e, t, call);
    }
  }

  /** No two leases of one row overlap: from the moment `t` holds `e`, and for as long as the clock has not
      reached its expiry, only `t` itself (or a caller that passes no owner) can change the row. Every other
      claim, call and release leaves it as it was. */
  lemma {:induction false} LeaseIsExclusive(s: Store, acts: seq<Action>, e: EventId, t: Token)
    requires Inv(s) && Holds(s, e, t)
    requires forall a | a in acts :: !CallOn(a, e, Some(t)) && !CallOn(a, e, None)
    requires Exec(s, acts).now < s.rows[e].expiresAt.value
    ensures Holds(Exec(s, acts), e, t) && Exec(s, acts).rows[e] == s.rows[e]
    decreases |acts|
  {
    if acts != [] {
      ClockNeverGoesBack(After(s, acts[0]), acts[1..]);
      assert acts[0] in acts;
      StepKeepsRowsAndLettersInStep(s, acts[0]);
      LeaseIsExclusive(After(s, acts[0]), acts[1..], e, t);
    }
  }

  lemma {:induction false} ClockNeverGoesBack(s: Store, acts: seq<Action>)
    ensures s.now <= Exec(s, acts).now
    decreases |acts|
  {
    if acts != [] { ClockNeverGoesBack(After(s, acts[0]), acts[1..]); }
  }

  /** A caller that passes no owner is not fenced: it may publish under another dispatcher's live lease. */
  lemma AnonymousCallsAreNotFenced(s: Store, e: EventId, t: Token)
    requires Holds(s, e, t)
    ensures After(s, MarkPublished(e, None)).rows[e].state == Published
    ensures !Holds(After(s, MarkPublished(e, None)), e, t)
  {
  }

  // ----- Absorbing states and no loss -----

  predicate Terminal(row: Row) {
    row.state.Published? || row.state.DeadLettered?
  }

  /** `published` and `dead_lettered` are absorbing: not one column of such a row changes again. */
  lemma {:induction false} TerminalRowsNeverChange(s: Store, acts: seq<Action>, e: EventId)
    requires e in s.rows && Terminal(s.rows[e])
    ensures e in Exec(s, acts).rows && Exec(s, acts).rows[e] == s.rows[e]
    decreases |acts|
  {
    if acts != [] { TerminalRowsNeverChange(After(s, acts[0]), acts[1..], e); }
  }

  /** The moment from which a non-terminal row may be claimed. */
  function Deadline(row: Row): int
    requires row.state.Claimed? ==> row.expiresAt.Some?
  {
    if row.state.Claimed? then row.expiresAt.value else row.nextAttemptAt
  }

  /** No event is lost. Every event of a database that grew from an empty one is published, or dead-lettered
      with exactly one dead letter, or claimable exactly when the clock has reached its deadline; and an
      event once appended is still there after any further run. */
  lemma {:induction false} NoEventIsLost(now: int, acts: seq<Action>, more: seq<Action>, e: EventId)
    requires e in Exec(Empty(now), acts).rows
    ensures var s := Exec(Empty(now), acts); var row := s.rows[e];
            && (LettersFor(s.deadLetters, e) == if row.state.DeadLettered? then 1 else 0)
            && (row.state.Claimed? ==> row.expiresAt.Some? && row.owner.Some?)
            && (!Terminal(row) ==> (Claimable(row, s.now) <==> Deadline(row) <= s.now))
            && (Terminal(row) ==> !Claimable(row, s.now))
    ensures e in Exec(Exec(Empty(now), acts), more).rows
  {
    var s := Exec(Empty(now), acts);
    RunsKeepRowsAndLettersInStep(Empty(now), acts);
    assert RowInv(s.rows[e], s.now, s.nextToken);
    RowsStay(s, more, e);
  }

  lemma {:induction false} RowsStay(s: Store, acts: seq<Action>, e: EventId)
    requires e in s.rows
    ensures e in Exec(s, acts).rows
    decreases |acts|
  {
    if acts != [] { RowsStay(After(s, acts[0]), acts[1..], e); }
  }

  /** A lease that ran out is claimable again at once, whether or not the release job got to it first:
      releasing does not push `next_attempt_at` into the future. */
  lemma ReleasedRowsAreClaimable(s: Store, e: EventId)
    requires Inv(s) && e in s.rows && s.rows[e].state.Claimed? && LeaseLapsed(s.rows[e], s.now)
    ensures Claimable(s.rows[e], s.now)
    ensures Claimable(After(s, ReleaseExpired).rows[e], After(s, ReleaseExpired).now)
  {
    assert RowInv(s.rows[e], s.now, s.nextToken);
  }

  /** No starvation: a claimable row that fewer than `limit` unlocked claimable rows precede or tie with
      is in every batch the query may return, and ends up leased to the new token. */
  lemma OldestRowsAreClaimed(s: Store, picked: set<EventId>, locked: set<EventId>, limit: nat, leaseMs: int, e: EventId)
    requires ValidPick(s, picked, locked, limit)
    requires e in ClaimableIn(s, locked)
    requires |set f | f in ClaimableIn(s, locked) && f != e && s.rows[f].createdAt <= s.rows[e].createdAt| < limit
    ensures e in picked
    ensures After(s, Claim(picked, locked, limit, leaseMs)).rows[e] == Leased(s.rows[e], s.nextToken, s.now + leaseMs)
  {
    var pool := ClaimableIn(s, locked);
    var older := set f | f in pool && f != e && s.rows[f].createdAt <= s.rows[e].createdAt;
    if e !in picked {
      assert picked <= older;
      SubsetSize(picked, older);
      SubsetSize(picked + {e}, pool);
    }
  }

  // ----- The bound on attempts -----

  /** A claim that takes a row whose attempts are used up. */
  predicate ClaimsExhausted(s: Store, a: Action, e: EventId) {
    a.Claim? && ValidPick(s, a.picked, a.locked, a.limit) && e in a.picked && e in s.rows && Exhausted(s.rows[e])
  }

  predicate ClaimedExhausted(s: Store, acts: seq<Action>, e: EventId)
    decreases |acts|
  {
    acts != [] && (ClaimsExhausted(s, acts[0], e) || ClaimedExhausted(After(s, acts[0]), acts[1..], e))
  }

  predicate OverTheBound(s: Store, e: EventId) {
    e in s.rows && s.rows[e].attempts > s.rows[e].maxAttempts
  }

  /** A claim keeps the bound of a row it takes if and only if the row has an attempt left. */
  lemma ClaimKeepsTheBoundExactlyWhenAttemptsAreLeft(s: Store, picked: set<EventId>, locked: set<EventId>, limit: nat,
                                                     leaseMs: int, e: EventId)
    requires ValidPick(s, picked, locked, limit) && e in picked
    ensures !OverTheBound(After(s, Claim(picked, locked, limit, leaseMs)), e) <==>
              s.rows[e].attempts < s.rows[e].maxAttempts
  {
    assert e in ClaimableIn(s, locked);
  }

  lemma {:induction false} BoundBreaksOnTheWay(s: Store, acts: seq<Action>, e: EventId)
    ensures OverTheBound(Exec(s, acts), e) <==> OverTheBound(s, e) || ClaimedExhausted(s, acts, e)
    decreases |acts|
  {
    if acts != [] {
      StepBreaksTheBound(s, acts[0], e);
      BoundBreaksOnTheWay(After(s, acts[0]), acts[1..], e);
    }
  }

  lemma StepBreaksTheBound(s: Store, a: Action, e: EventId)
    ensures OverTheBound(After(s, a), e) <==> OverTheBound(s, e) || ClaimsExhausted(s, a, e)
  {
  }

  /** In a database that grew from an empty one a row has more attempts than its maximum if and only if it was claimed
      with its attempts used up. */
  lemma BoundBreaksExactlyWhenClaimedExhausted(now: int, acts: seq<Action>, e: EventId)
    requires e in Exec(Empty(now), acts).rows
    ensures var row := Exec(Empty(now), acts).rows[e];
            row.attempts <= row.maxAttempts <==> !ClaimedExhausted(Empty(now), acts, e)
  {
    BoundBreaksOnTheWay(Empty(now), acts, e);
  }

  /** The dispatcher that makes the last attempt has let its lease lapse. */
  predicate LastAttemptLapsed(s: Store, e: EventId) {
    e in s.rows && s.rows[e].state.Claimed? && Exhausted(s.rows[e]) && LeaseLapsed(s.rows[e], s.now)
  }

  predicate LastAttemptLapses(s: Store, acts: seq<Action>, e: EventId)
    decreases |acts|
  {
    LastAttemptLapsed(s, e) || (acts != [] && LastAttemptLapses(After(s, acts[0]), acts[1..], e))
  }

  predicate WaitsExhausted(s: Store, e: EventId) {
    e in s.rows && (s.rows[e].state.Pending? || s.rows[e].state.RetryScheduled?) && Exhausted(s.rows[e])
  }

  lemma {:induction false} OnlyLapsesLeaveExhaustedRowsWaiting(s: Store, acts: seq<Action>, e: EventId)
    requires !WaitsExhausted(s, e)
    ensures WaitsExhausted(Exec(s, acts), e) || LastAttemptLapsed(Exec(s, acts), e) ==> LastAttemptLapses(s, acts, e)
    decreases |acts|
  {
    if acts != [] && !LastAttemptLapsed(s, e) {
      assert !WaitsExhausted(After(s, acts[0]), e);
      OnlyLapsesLeaveExhaustedRowsWaiting(After(s, acts[0]), acts[1..], e);
    }
  }

  /** That takes a lapse: whenever a row is claimed with its attempts used up, the lease of its last attempt had lapsed
      by then. Dispatchers that report on every last attempt in time keep the bound. */
  lemma ExhaustedRowsAreClaimedOnlyAfterALapse(now: int, acts: seq<Action>, claim: Action, e: EventId)
    requires ClaimsExhausted(Exec(Empty(now), acts), claim, e)
    ensures LastAttemptLapses(Empty(now), acts, e)
  {
    assert e in ClaimableIn(Exec(Empty(now), acts), claim.locked);
    OnlyLapsesLeaveExhaustedRowsWaiting(Empty(now), acts, e);
  }

  /** `n` dispatchers in a row that claim `e` and never come back. */
  function CrashRun(e: EventId, n: nat): seq<Action> {
    if n == 0 then [Append(e)] else CrashRun(e, n - 1) + [Claim({e}, {}, 1, 10), Tick(10)]
  }

  /** `claimBatch` never looks at `max_attempts`: dispatchers that keep dying drive the count past any bound. */
  lemma {:induction false} AttemptsAreUnbounded(e: EventId, n: nat)
    ensures var s := Exec(Empty(0), CrashRun(e, n));
            s.rows.Keys == {e} && s.rows[e].attempts == n && s.rows[e].maxAttempts == DEFAULT_MAX_ATTEMPTS &&
            Claimable(s.rows[e], s.now)
  {
    if n == 0 {
      assert Exec(Empty(0), [Append(e)]) == After(Empty(0), Append(e));
    } else {
      AttemptsAreUnbounded(e, n - 1);
      var s := Exec(Empty(0), CrashRun(e, n - 1));
      var acts := [Claim({e}, {}, 1, 10), Tick(10)];
      ExecConcat(Empty(0), CrashRun(e, n - 1), acts);
      assert ClaimableIn(s, {}) == {e};
      var leased := After(s, acts[0]);
      assert acts[1..] == [Tick(10)] && [Tick(10)][1..] == [];
      assert Exec(s, acts) == Exec(leased, [Tick(10)]) == After(leased, Tick(10));
    }
  }
}
