/** `createPostgresIntegrationRepository` (outbox methods) and `createIntegrationDispatcher` of
    backend/services/integrationEvents.js: the code that updates the outbox rows, proved against the
    `Outbox` actions. Whatever other dispatchers do between two awaits is an arbitrary list of actions. */
module OutboxDispatcher {
  import opened Wrappers
  import opened Sets
  import opened Outbox

  /** Why one dispatch attempt failed. */
  datatype Failure =
    | EventError(code: string)    // an IntegrationEventError: registry validation or a lease conflict
    | OtherError(transient: bool) // of the transport or the database; transient by its message

  datatype FailureClass = TerminalFailure | ReconciliationRequired | Retryable

  const CLAIM_CONFLICT := "integration_outbox_claim_conflict"

  function Classify(f: Failure): FailureClass {
    match f
    case EventError(code) =>
      if code in {"integration_event_payload_prohibited", "integration_event_invalid",
                  "integration_event_unknown_type", "integration_event_consumer_not_allowed"}
      then TerminalFailure else ReconciliationRequired
    case OtherError(transient) => if transient then Retryable else TerminalFailure
  }

  function ReasonCode(f: Failure): string {
    match f
    case EventError(code) => code
    case OtherError(transient) =>
      if transient then "integration_outbox_publish_retryable" else "integration_outbox_publish_terminal"
  }

  /** What validation and the transport answer for one event; a transport may raise an error although it has taken the
      event. */
  datatype Verdict = Accepted | Refused(failure: Failure, delivered: bool)

  predicate Delivers(verdict: Verdict) {
    verdict.Accepted? || verdict.delivered
  }

  /** A statement of the dispatcher may raise an error of the database, before or after it took effect. */
  datatype Fault = NoFault | Lost(effect: bool, transient: bool)

  /** What becomes of `markPublished`, and of the call in the catch block. */
  datatype Faults = Faults(marking: Fault, failing: Fault)

  /** Why the catch block is entered other than by a lease conflict. */
  function FailureOf(verdict: Verdict, marking: Fault): Option<Failure> {
    if verdict.Refused? then Some(verdict.failure)
    else if marking.Lost? then Some(OtherError(marking.transient)) else None
  }

  datatype Outcome = PublishedOutcome | FailedOutcome(failureClass: FailureClass)

  class OutboxRepository {
    var now: int
    var nextToken: Token
    var rows: map<EventId, Row>
    var deadLetters: seq<DeadLetter>

    /** The database this repository talks to. */
    function Database(): Store
      reads this
    {
      Store(now, nextToken, rows, deadLetters)
    }

    constructor (start: int)
      ensures Database() == Empty(start)
    {
      now, nextToken, rows, deadLetters := start, 0, map[], [];
    }

    /** Everything other dispatchers, producers, the release job and the clock do while this code awaits. */
    method Interleave(acts: seq<Action>)
      modifies this
      ensures Database() == Exec(old(Database()), acts)
    {
      var s := Exec(Database(), acts);
      now, nextToken, rows, deadLetters := s.now, s.nextToken, s.rows, s.deadLetters;
    }

    method AppendEvent(e: EventId) returns (ok: bool)
      modifies this
      ensures ok == (e !in old(rows))
      ensures Database() == After(old(Database()), Append(e))
    {
      ok := e !in rows;
      if ok { rows := rows[e := Appended(now)]; }
    }

    method Oldest(pool: set<EventId>) returns (e: EventId)
      requires pool != {} && pool <= rows.Keys
      ensures e in pool && forall f | f in pool :: rows[e].createdAt <= rows[f].createdAt
    {
      e :| e in pool;
      var rest := pool - {e};
      while rest != {}
        invariant e in pool && rest <= pool
        invariant forall f | f in pool - rest :: rows[e].createdAt <= rows[f].createdAt
        decreases rest
      {
        var f :| f in rest;
        if rows[f].createdAt < rows[e].createdAt { e := f; }
        rest := rest - {f};
      }
    }

    /** The `picked` common table expression, read row by row. */
    method PickOldest(limit: nat, locked: set<EventId>) returns (picked: set<EventId>)
      ensures ValidPick(Database(), picked, locked, limit)
    {
      var pool := ClaimableIn(Database(), locked);
      picked := {};
      while picked != pool && |picked| < limit
        invariant picked <= pool && |picked| <= limit
        invariant forall e, f | e in picked && f in pool && f !in picked :: rows[e].createdAt <= rows[f].createdAt
        decreases pool - picked
      {
        var e := Oldest(pool - picked);
        picked := picked + {e};
      }
      SubsetSize(picked, pool);
      if picked != pool {
        assert pool == picked + (pool - picked);
        assert |pool - picked| > 0;
      }
    }

    method ClaimBatch(limit: nat, leaseMs: int, locked: set<EventId>) returns (picked: set<EventId>, token: Token)
      modifies this
      ensures ValidPick(old(Database()), picked, locked, limit) && token == old(nextToken)
      ensures Database() == After(old(Database()), Claim(picked, locked, limit, leaseMs))
    {
      picked := PickOldest(limit, locked);
      token := nextToken;
      var s := ClaimStore(Database(), picked, leaseMs);
      nextToken, rows := s.nextToken, s.rows;
    }

    method MarkPublished(e: EventId, owner: Option<Token>) returns (ok: bool)
      modifies this
      ensures ok == Writable(old(Database()), e, owner)
      ensures Database() == After(old(Database()), Action.MarkPublished(e, owner))
    {
      ok := Writable(Database(), e, owner);
      if ok { rows := rows[e := PublishedRow(rows[e], now)]; }
    }

    method ScheduleRetry(e: EventId, owner: Option<Token>, reason: string, delayMs: int) returns (ok: bool)
      modifies this
      ensures ok == Writable(old(Database()), e, owner)
      ensures Database() == After(old(Database()), Action.ScheduleRetry(e, owner, reason, delayMs))
    {
      ok := Writable(Database(), e, owner);
      if ok {
        var row := rows[e];
        rows := rows[e := RetriedRow(row, now, reason, delayMs)];
        if rows[e].state.DeadLettered? { deadLetters := deadLetters + [DeadLetter(e, row.attempts, reason)]; }
      }
    }

    method MoveToDeadLetter(e: EventId, owner: Option<Token>, reason: string) returns (ok: bool)
      modifies this
      ensures ok == Writable(old(Database()), e, owner)
      ensures Database() == After(old(Database()), Action.MoveToDeadLetter(e, owner, reason))
    {
      ok := Writable(Database(), e, owner);
      if ok {
        deadLetters := deadLetters + [DeadLetter(e, rows[e].attempts, reason)];
        rows := rows[e := DeadLetteredRow(rows[e], now, reason)];
      }
    }

    method ReleaseExpiredClaims()
      modifies this
      ensures Database() == After(old(Database()), ReleaseExpired)
    {
      rows := map e | e in rows :: ReleasedRow(rows[e], now);
    }
  }

  /** The transport, which keeps what it accepted. */
  class Transport {
    var accepted: set<EventId>

    constructor ()
      ensures accepted == {}
    {
      accepted := {};
    }

    method Publish(e: EventId, verdict: Verdict) returns (failure: Option<Failure>)
      modifies this
      ensures failure == if verdict.Refused? then Some(verdict.failure) else None
      ensures accepted == old(accepted) + if Delivers(verdict) then {e} else {}
    {
      if Delivers(verdict) { accepted := accepted + {e}; }
      failure := if verdict.Refused? then Some(verdict.failure) else None;
    }
  }

  /** What one dispatched event ended as, and what that says about its row: its lease is given up, a published event
      was handed to the transport and is published, a failed one has a failure and, unless that is retryable, is
      dead-lettered. */
  ghost predicate Settled(s: Store, accepted: set<EventId>, e: EventId, outcome: Outcome, failure: Option<Failure>,
                          token: Token) {
    && !Holds(s, e, token)
    && e in s.rows
    && (if outcome.PublishedOutcome? then failure.None? && e in accepted && s.rows[e].state.Published?
        else && failure.Some? && outcome.failureClass == Classify(failure.value)
             && (outcome.failureClass != Retryable ==> s.rows[e].state.DeadLettered?))
  }

  lemma SettledStays(s: Store, acts: seq<Action>, accepted: set<EventId>, e: EventId, outcome: Outcome,
                     failure: Option<Failure>, token: Token)
    requires Inv(s) && token < s.nextToken && Settled(s, accepted, e, outcome, failure, token)
    ensures Settled(Exec(s, acts), accepted, e, outcome, failure, token)
  {
    LostLeaseNeverWrites(s, acts, e, token, Action.MarkPublished(e, Some(token)));
    RowsStay(s, acts, e);
    if Outbox.Terminal(s.rows[e]) { TerminalRowsNeverChange(s, acts, e); }
  }

  /** Everything reported so far is settled; `picked` are the rows of the batch. */
  ghost predicate Reported(s: Store, accepted: set<EventId>, report: map<EventId, Outcome>, picked: set<EventId>,
                           failure: EventId -> Option<Failure>, token: Token) {
    && report.Keys <= picked <= s.rows.Keys
    && forall e | e in report :: Settled(s, accepted, e, report[e], failure(e), token)
  }

  /** What happens while one more event is dispatched does not unsettle the events reported before it. */
  lemma ReportSurvives(s: Store, more: seq<Action>, accepted: set<EventId>, accepted': set<EventId>,
                       report: map<EventId, Outcome>, picked: set<EventId>, failure: EventId -> Option<Failure>,
                           token: Token)
    requires Inv(s) && token < s.nextToken && Reported(s, accepted, report, picked, failure, token)
    requires accepted <= accepted'
    ensures Reported(Exec(s, more), accepted', report, picked, failure, token)
  {
    forall e | e in report ensures Settled(Exec(s, more), accepted', e, report[e], failure(e), token) {
      SettledStays(s, more, accepted, e, report[e], failure(e), token);
    }
    forall e | e in picked ensures e in Exec(s, more).rows { RowsStay(s, more, e); }
  }

  /** `markPublished` as the dispatcher sees it. */
  method Mark(repo: OutboxRepository, e: EventId, token: Token, fault: Fault)
    returns (failure: Option<Failure>, ghost run: seq<Action>)
    modifies repo
    ensures run == if fault.Lost? && !fault.effect then [] else [Action.MarkPublished(e, Some(token))]
    ensures repo.Database() == Exec(old(repo.Database()), run)
    ensures failure == if fault.Lost? then Some(OtherError(fault.transient))
                       else if Holds(old(repo.Database()), e, token) then None else Some(EventError(CLAIM_CONFLICT))
    ensures run != [] ==> !Holds(repo.Database(), e, token)
  {
    run := [];
    if fault.Lost? && !fault.effect {
      return Some(OtherError(fault.transient)), run;
    }
    var ok := repo.MarkPublished(e, Some(token));
    run := [Action.MarkPublished(e, Some(token))];
    assert run[1..] == [];
    failure := if fault.Lost? then Some(OtherError(fault.transient)) else if ok then None
        else Some(EventError(CLAIM_CONFLICT));
  }

  /** The catch block; an error of its own call escapes. */
  method Catch(repo: OutboxRepository, e: EventId, token: Token, failure: Failure, fault: Fault)
    returns (ok: bool, ghost run: seq<Action>)
    modifies repo
    ensures run == if fault.Lost? && !fault.effect then [] else [GiveUp(e, token, failure)]
    ensures repo.Database() == Exec(old(repo.Database()), run)
    ensures ok <==> fault.NoFault? && Holds(old(repo.Database()), e, token)
  {
    run := [];
    if fault.Lost? && !fault.effect {
      return false, run;
    }
    if Classify(failure).Retryable? {
      ok := repo.ScheduleRetry(e, Some(token), ReasonCode(failure), 0);
    } else {
      ok := repo.MoveToDeadLetter(e, Some(token), ReasonCode(failure));
    }
    run := [GiveUp(e, token, failure)];
    assert run[1..] == [];
    ok := ok && fault.NoFault?;
  }

  function GiveUp(e: EventId, token: Token, failure: Failure): Action {
    if Classify(failure).Retryable? then Action.ScheduleRetry(e, Some(token), ReasonCode(failure), 0)
    else Action.MoveToDeadLetter(e, Some(token), ReasonCode(failure))
  }

  lemma GivingUpSettles(s: Store, e: EventId, token: Token, failure: Failure)
    requires e in s.rows
    ensures var after := After(s, GiveUp(e, token, failure));
            && !Holds(after, e, token) && e in after.rows
            && (Holds(s, e, token) && !Classify(failure).Retryable? ==> after.rows[e].state.DeadLettered?)
            && (!Holds(s, e, token) ==> after == s)
  {
  }

  /** One iteration of the `dispatchOnce` loop; `None` means that an error escaped the catch block. `whileSending` and
      `whileFailing` are what the rest of the system does during the two awaits before a write.

      An event is reported published exactly when the transport accepted it and marking it went through in time. It is
      reported failed exactly when validation or the transport raised an error, or marking it raised one of the database
      without effect, and the lease still held when the catch block wrote. So an event that the transport has taken is
      never retried or dead-lettered by the call unless the transport raised an error all the same, or marking did. */
  method DispatchRow(repo: OutboxRepository, transport: Transport, e: EventId, token: Token, verdict: Verdict,
                     faults: Faults,
                     whileSending: seq<Action>, whileFailing: seq<Action>)
    returns (outcome: Option<Outcome>, ghost run: seq<Action>)
    requires Inv(repo.Database()) && token < repo.nextToken && e in repo.rows
    modifies repo, transport
    ensures transport.accepted == old(transport.accepted) + if Delivers(verdict) then {e} else {}
    ensures Inv(repo.Database()) && token < repo.nextToken
    ensures repo.Database() == Exec(old(repo.Database()), run)
    ensures outcome.Some? ==>
              Settled(repo.Database(), transport.accepted, e, outcome.value, FailureOf(verdict, faults.marking), token)
    ensures outcome == Some(PublishedOutcome) <==>
            verdict.Accepted? && faults.marking.NoFault? && Holds(Exec(old(repo.Database()), whileSending), e, token)
    ensures outcome.Some? && outcome.value.FailedOutcome? <==>
            && (verdict.Refused? || (faults.marking.Lost? && !faults.marking.effect)) && faults.failing.NoFault?
            && Holds(Exec(Exec(old(repo.Database()), whileSending), whileFailing), e, token)
    ensures verdict.Accepted? && faults.marking.NoFault? ==>
              var marked := After(Exec(old(repo.Database()), whileSending), Action.MarkPublished(e, Some(token)));
              repo.Database() == if outcome.Some? then marked else Exec(marked, whileFailing)
    ensures outcome.None? && Holds(repo.Database(), e, token) ==> faults.failing.Lost? && !faults.failing.effect
  {
    ghost var start := repo.Database();
    var refusal := transport.Publish(e, verdict);
    repo.Interleave(whileSending);
    run := whileSending;
    Progress(start, whileSending, e);
    ghost var sent := repo.Database();
    if refusal.None? {
      var failed, marking := Mark(repo, e, token, faults.marking);
      Progress(sent, marking, e);
      run := Extend(start, run, marking);
      assert Exec(sent, [Action.MarkPublished(e, Some(token))]) ==
             After(sent, Action.MarkPublished(e, Some(token))) by {
        assert [Action.MarkPublished(e, Some(token))][1..] == [];
      }
      if failed.None? { return Some(PublishedOutcome), run; }
      if marking != [] {
        LostLeaseNeverWrites(repo.Database(), whileFailing, e, token, GiveUp(e, token, failed.value));
      }
      refusal := failed;
    }
    ghost var marked := repo.Database();
    Progress(marked, whileFailing, e);
    repo.Interleave(whileFailing);
    run := Extend(start, run, whileFailing);
    ghost var caught := repo.Database();
    GivingUpSettles(caught, e, token, refusal.value);
    var ok, giving := Catch(repo, e, token, refusal.value, faults.failing);
    assert Exec(caught, [GiveUp(e, token, refusal.value)]) == After(caught, GiveUp(e, token, refusal.value)) by {
      assert [GiveUp(e, token, refusal.value)][1..] == [];
    }
    Progress(caught, giving, e);
    run := Extend(start, run, giving);
    outcome := if ok then Some(FailedOutcome(Classify(refusal.value))) else None;
  }

  lemma Progress(s: Store, acts: seq<Action>, e: EventId)
    requires Inv(s) && e in s.rows
    ensures Inv(Exec(s, acts)) && e in Exec(s, acts).rows && s.nextToken <= Exec(s, acts).nextToken
  {
    RunsKeepRowsAndLettersInStep(s, acts);
    RowsStay(s, acts, e);
    TokensGrow(s, acts);
  }

  /** Appends actions to a run. */
  ghost function Extend(s: Store, run: seq<Action>, acts: seq<Action>): (longer: seq<Action>)
    ensures Exec(s, longer) == Exec(Exec(s, run), acts)
    ensures |acts| == 1 ==> Exec(s, longer) == After(Exec(s, run), acts[0])
  {
    ExecConcat(s, run, acts);
    assert |acts| == 1 ==> acts[1..] == [];
    run + acts
  }

  lemma {:induction false} TokensGrow(s: Store, acts: seq<Action>)
    ensures s.nextToken <= Exec(s, acts).nextToken
    decreases |acts|
  {
    if acts != [] { TokensGrow(After(s, acts[0]), acts[1..]); }
  }

  /** The loop of `dispatchOnce` over an already claimed batch. */
  method DispatchBatch(repo: OutboxRepository, transport: Transport, batch: set<EventId>, token: Token,
                       verdict: EventId -> Verdict, faults: EventId -> Faults,
                       whileSending: EventId -> seq<Action>, whileFailing: EventId -> seq<Action>)
    returns (report: map<EventId, Outcome>, threw: bool, ghost run: seq<Action>)
    requires Inv(repo.Database()) && batch <= repo.rows.Keys && token < repo.nextToken
    modifies repo, transport
    ensures Inv(repo.Database()) && repo.Database() == Exec(old(repo.Database()), run)
    ensures Reported(repo.Database(), transport.accepted, report, batch, e => FailureOf(verdict(e), faults(e).marking),
                     token)
    ensures if threw then report.Keys < batch else report.Keys == batch
  {
    ghost var failure := e => FailureOf(verdict(e), faults(e).marking);
    run, report, threw := [], map[], false;
    var todo := batch;
    while todo != {} && !threw
      invariant token < repo.nextToken && Inv(repo.Database())
      invariant repo.Database() == Exec(old(repo.Database()), run)
      invariant Reported(repo.Database(), transport.accepted, report, batch, failure, token)
      invariant todo <= batch && report.Keys == batch - todo && (threw ==> todo != {})
      decreases !threw, todo
    {
      var e :| e in todo;
      ghost var before, accepted := repo.Database(), transport.accepted;
      var outcome, more := DispatchRow(repo, transport, e, token, verdict(e), faults(e), whileSending(e),
                                       whileFailing(e));
      ReportSurvives(before, more, accepted, transport.accepted, report, batch, failure, token);
      run := Extend(old(repo.Database()), run, more);
      if outcome.None? {
        threw := true;
      } else {
        report := report[e := outcome.value];
        todo := todo - {e};
      }
    }
  }

  /** `dispatchOnce`: claim a batch, then dispatch its events one by one while the rest of the system runs.
      The whole call is a run of outbox actions. Every event it reports as published was first handed to
      the transport and is published from then on; an event it reports as failed was one for which validation, the
      transport or the marking raised an error; and no reported event is still leased to it. When nothing escapes the
      catch block, the report covers exactly the claimed batch. */
  method DispatchOnce(repo: OutboxRepository, transport: Transport, limit: nat, locked: set<EventId>, leaseMs: int,
                      verdict: EventId -> Verdict, faults: EventId -> Faults,
                      whileSending: EventId -> seq<Action>, whileFailing: EventId -> seq<Action>)
    returns (report: map<EventId, Outcome>, threw: bool, ghost picked: set<EventId>, ghost run: seq<Action>)
    requires Inv(repo.Database())
    modifies repo, transport
    ensures ValidPick(old(repo.Database()), picked, locked, limit)
    ensures Inv(repo.Database())
    ensures repo.Database() == Exec(After(old(repo.Database()), Claim(picked, locked, limit, leaseMs)), run)
    ensures Reported(repo.Database(), transport.accepted, report, picked, e => FailureOf(verdict(e), faults(e).marking),
                     old(repo.nextToken))
    ensures if threw then report.Keys < picked else report.Keys == picked
  {
    var batch, token := repo.ClaimBatch(limit, leaseMs, locked);
    picked := batch;
    StepKeepsRowsAndLettersInStep(old(repo.Database()), Claim(batch, locked, limit, leaseMs));
    report, threw, run := DispatchBatch(repo, transport, batch, token, verdict, faults, whileSending, whileFailing);
  }
}
