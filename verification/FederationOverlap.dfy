/** What overlapping `applyIdentityFederationReconciliation` calls do to each other: when a key still has one attempt,
    and when the two stores still agree. */
module FederationOverlap {
  import opened Wrappers
  import opened FederationApply
  import opened FederationRuns

  // ----- Plans and keys stay -----

  /** Steps of everybody but call `c`. */
  predicate Apart(acts: seq<Action>, c: CallId) {
    forall i | 0 <= i < |acts| :: acts[i].call != c
  }

  lemma {:induction false} OwnCallStays(s: Store, acts: seq<Action>, c: CallId)
    requires Apart(acts, c)
    ensures (c in Exec(s, acts).calls) == (c in s.calls)
    ensures c in s.calls ==> Exec(s, acts).calls[c] == s.calls[c]
    decreases |acts|
  {
    if acts != [] {
      OwnCallStays(After(s, acts[0]), acts[1..], c);
    }
  }

  lemma {:induction false} PlansStay(s: Store, acts: seq<Action>, c: CallId)
    requires c in s.calls
    ensures c in Exec(s, acts).calls
    ensures var call := Exec(s, acts).calls[c];
            call.plan == s.calls[c].plan && call.key == s.calls[c].key &&
            call.now == s.calls[c].now
    decreases |acts|
  {
    if acts != [] {
      PlansStay(After(s, acts[0]), acts[1..], c);
    }
  }

  // ----- One attempt for a key -----

  /** The call records its attempt. */
  predicate Begins(s: Store, a: Action) {
    a.Next? && a.call in s.calls && s.calls[a.call].stage.Opened? && a.fault != Lost
  }

  predicate BeginsUnder(s: Store, a: Action, organization: string, key: string) {
    Begins(s, a) && s.calls[a.call].plan.organization == organization && s.calls[a.call].key == key
  }

  predicate BegunIn(s: Store, acts: seq<Action>, organization: string, key: string)
    decreases |acts|
  {
    acts != [] && (BeginsUnder(s, acts[0], organization, key) ||
                   BegunIn(After(s, acts[0]), acts[1..], organization, key))
  }

  /** What a step makes of the attempts: one more, or the same requests. */
  lemma AttemptsAfter(s: Store, a: Action)
    ensures var before, after := s.tables.attempts, After(s, a).tables.attempts;
            && (forall i | 0 <= i < |before| ::
                i < |after| && IsFor(after[i], before[i].organization, before[i].idempotencyKey))
            && (if Begins(s, a) then after ==
                before + [Attempt(s.calls[a.call].plan.organization, s.calls[a.call].key, Processing)]
                else |after| == |before|)
  {
  }

  lemma AttemptedAfter(s: Store, a: Action, organization: string, key: string)
    ensures Attempted(After(s, a).tables.attempts, organization, key) <==>
            Attempted(s.tables.attempts, organization, key) || BeginsUnder(s, a, organization, key)
  {
    var before, after := s.tables.attempts, After(s, a).tables.attempts;
    AttemptsAfter(s, a);
    if i :| 0 <= i < |before| && IsFor(before[i], organization, key) {
      assert IsFor(after[i], organization, key);
    }
    if BeginsUnder(s, a, organization, key) {
      assert IsFor(after[|before|], organization, key);
    }
  }

  lemma {:induction false} AttemptedExactlyWhenBegun(s: Store, acts: seq<Action>, organization: string, key: string)
    ensures Attempted(Exec(s, acts).tables.attempts, organization, key) <==>
            Attempted(s.tables.attempts, organization, key) || BegunIn(s, acts, organization, key)
    decreases |acts|
  {
    if acts != [] {
      AttemptedAfter(s, acts[0], organization, key);
      AttemptedExactlyWhenBegun(After(s, acts[0]), acts[1..], organization, key);
    }
  }

  /** A step keeps one attempt for every key if and only if it does not begin under a key that has one. */
  lemma BeginKeepsOneAttemptExactlyWhenFirst(s: Store, a: Action)
    ensures OneAttemptPerKey(After(s, a).tables.attempts) <==>
            OneAttemptPerKey(s.tables.attempts) &&
            (Begins(s, a) ==> !Attempted(s.tables.attempts, s.calls[a.call].plan.organization, s.calls[a.call].key))
  {
    var before, after := s.tables.attempts, After(s, a).tables.attempts;
    AttemptsAfter(s, a);
    if OneAttemptPerKey(after) {
      forall i, j | 0 <= i < j < |before|
        ensures !IsFor(before[j], before[i].organization, before[i].idempotencyKey)
      {
        assert !IsFor(after[j], after[i].organization, after[i].idempotencyKey);
      }
      if Begins(s, a) {
        forall i | 0 <= i < |before|
          ensures !IsFor(before[i], s.calls[a.call].plan.organization, s.calls[a.call].key)
        {
          assert !IsFor(after[|before|], after[i].organization, after[i].idempotencyKey);
        }
      }
    }
  }

  /** Every call that records its attempt is the first under its key. */
  predicate AllFirst(s: Store, acts: seq<Action>)
    decreases |acts|
  {
    acts == [] ||
    ((Begins(s, acts[0]) ==> !Attempted(s.tables.attempts, s.calls[acts[0].call].plan.organization,
                                        s.calls[acts[0].call].key)) &&
     AllFirst(After(s, acts[0]), acts[1..]))
  }

  lemma {:induction false} OneAttemptWasOneBefore(s: Store, acts: seq<Action>)
    requires OneAttemptPerKey(Exec(s, acts).tables.attempts)
    ensures OneAttemptPerKey(s.tables.attempts)
    decreases |acts|
  {
    if acts != [] {
      OneAttemptWasOneBefore(After(s, acts[0]), acts[1..]);
      BeginKeepsOneAttemptExactlyWhenFirst(s, acts[0]);
    }
  }

  /** Over any run of overlapping calls there is still one attempt for a key if and only if every call that recorded
      one was the first under its key. */
  lemma {:induction false} RunsKeepOneAttemptExactlyWhenFirst(s: Store, acts: seq<Action>)
    requires OneAttemptPerKey(s.tables.attempts)
    ensures OneAttemptPerKey(Exec(s, acts).tables.attempts) <==> AllFirst(s, acts)
    decreases |acts|
  {
    if acts != [] {
      BeginKeepsOneAttemptExactlyWhenFirst(s, acts[0]);
      var next := After(s, acts[0]);
      if OneAttemptPerKey(next.tables.attempts) {
        RunsKeepOneAttemptExactlyWhenFirst(next, acts[1..]);
      } else if OneAttemptPerKey(Exec(next, acts[1..]).tables.attempts) {
        OneAttemptWasOneBefore(next, acts[1..]);
      }
    }
  }

  /** A call whose lookup found nothing, with any steps of any calls up to the moment it records its attempt: the key
      has one attempt then if and only if no other call began under it since the lookup. */
  lemma OneAttemptExactlyWhenNobodyBegan(s: Store, c: CallId, p: Plan, key: string, now: int, acts: seq<Action>,
                                         fault: Fault)
    requires c !in s.calls && !Attempted(s.tables.attempts, p.organization, key) && fault != Lost
    requires var at := Exec(After(s, Lookup(c, p, key, now, Fine)), acts);
             c in at.calls && at.calls[c].stage.Opened? && OneAttemptPerKey(at.tables.attempts)
    ensures var looked := After(s, Lookup(c, p, key, now, Fine));
            OneAttemptPerKey(After(Exec(looked, acts), Next(c, fault)).tables.attempts) <==>
            !BegunIn(looked, acts, p.organization, key)
  {
    var looked := After(s, Lookup(c, p, key, now, Fine));
    PlansStay(looked, acts, c);
    AttemptedExactlyWhenBegun(looked, acts, p.organization, key);
    BeginKeepsOneAttemptExactlyWhenFirst(Exec(looked, acts), Next(c, fault));
  }

  // ----- A call that is left alone -----

  /** The operation, then the attempt. */
  lemma BeginsAlone(s: Store, c: CallId)
    requires c in s.calls && s.calls[c].stage.LookedUp? && MayGoAhead(s.calls[c].plan, s.calls[c].now)
    ensures var call, begun := s.calls[c], Exec(s, [Next(c, Fine), Next(c, Fine)]);
            && begun.calls == s.calls[c := call.(stage := Carrying, attempt := Some(|s.tables.attempts|))]
            && begun.tables.attempts == s.tables.attempts + [Attempt(call.plan.organization, call.key, Processing)]
  {
    var entered := After(s, Next(c, Fine));
    assert [Next(c, Fine), Next(c, Fine)][1..] == [Next(c, Fine)] && [Next(c, Fine)][1..] == [];
    assert Exec(entered, [Next(c, Fine)]) == After(entered, Next(c, Fine));
    assert entered.calls == s.calls[c := s.calls[c].(stage := Opened)];
  }

  /** The two halves of a step. */
  lemma StepAlone(s: Store, c: CallId)
    requires c in s.calls && RemoteNext(s.calls[c])
    ensures var call, n, both := s.calls[c], s.calls[c].reached.done, Exec(s, [Next(c, Fine), Next(c, Fine)]);
            && both.calls == s.calls[c := call.(reached := Reached(n + 1, n + 1, n + 1))]
            && both.tables == s.tables.(roles := RemoteStep(s.tables.roles, call.plan, CurrentStep(call)),
                                        rows := LocalStep(s.tables.rows, call.plan, call.key, CurrentStep(call)))
  {
    var call, half := s.calls[c], After(s, Next(c, Fine));
    assert [Next(c, Fine), Next(c, Fine)][1..] == [Next(c, Fine)] && [Next(c, Fine)][1..] == [];
    assert Exec(half, [Next(c, Fine)]) == After(half, Next(c, Fine));
    assert half.calls == s.calls[c := call.(reached := call.reached.(remote := call.reached.done + 1))];
    assert LocalNext(half.calls[c]) && CurrentStep(half.calls[c]) == CurrentStep(call);
  }

  predicate OwnSteps(acts: seq<Action>, c: CallId) {
    forall i | 0 <= i < |acts| :: acts[i] == Next(c, Fine)
  }

  /** Left alone from between two steps, a call that nothing fails carries out the rest of its plan. */
  lemma {:induction false} CarriesOutAlone(s: Store, c: CallId, n: nat) returns (acts: seq<Action>)
    requires c in s.calls && s.calls[c].stage.Carrying? && s.calls[c].reached == Reached(n, n, n) &&
             n <= |Steps(s.calls[c].plan)|
    ensures OwnSteps(acts, c) && c in Exec(s, acts).calls
    ensures Exec(s, acts).calls == s.calls[c := Exec(s, acts).calls[c]]
    ensures Exec(s, acts).calls[c].stage == Ended(Done(Steps(s.calls[c].plan)))
    decreases |Steps(s.calls[c].plan)| - n
  {
    var call := s.calls[c];
    if n == |Steps(call.plan)| {
      acts := [Next(c, Fine)];
      assert acts[1..] == [];
      assert Exec(s, acts) == After(s, Next(c, Fine));
      assert Steps(call.plan)[..n] == Steps(call.plan);
    } else {
      var both := [Next(c, Fine), Next(c, Fine)];
      StepAlone(s, c);
      var rest := CarriesOutAlone(Exec(s, both), c, n + 1);
      acts := both + rest;
      RunThenRun(s, both, rest);
    }
  }

  /** Two calls under one key, neither of which sees the other's attempt. */
  function BothLookUp(c: CallId, d: CallId, p: Plan, q: Plan, key: string, now: int): seq<Action> {
    [Lookup(c, p, key, now, Fine), Lookup(d, q, key, now, Fine)]
  }

  function BothBegin(c: CallId, d: CallId, p: Plan, q: Plan, key: string, now: int): seq<Action> {
    BothLookUp(c, d, p, q, key, now) + [Next(c, Fine), Next(c, Fine)] + [Next(d, Fine), Next(d, Fine)]
  }

  lemma BothFindNothing(s: Store, c: CallId, d: CallId, p: Plan, q: Plan, key: string, now: int)
    requires c != d && c !in s.calls && d !in s.calls
    requires p.organization == q.organization && !Attempted(s.tables.attempts, p.organization, key)
    ensures var looked := Exec(s, BothLookUp(c, d, p, q, key, now));
            && looked.tables == s.tables
            && looked.calls == s.calls[c := Call(p, key, now, LookedUp, None, Reached(0, 0, 0))]
                                      [d := Call(q, key, now, LookedUp, None, Reached(0, 0, 0))]
  {
    var acts := BothLookUp(c, d, p, q, key, now);
    var first := After(s, acts[0]);
    assert acts[1..] == [acts[1]] && [acts[1]][1..] == [];
    assert Exec(first, [acts[1]]) == After(first, acts[1]);
  }

  lemma BothHaveBegun(s: Store, c: CallId, d: CallId, p: Plan, q: Plan, key: string, now: int)
    requires c != d && c !in s.calls && d !in s.calls
    requires p.organization == q.organization && !Attempted(s.tables.attempts, p.organization, key)
    requires MayGoAhead(p, now) && MayGoAhead(q, now)
    ensures var n, begun := |s.tables.attempts|, Exec(s, BothBegin(c, d, p, q, key, now));
            && begun.calls == s.calls[c := Call(p, key, now, Carrying, Some(n), Reached(0, 0, 0))]
                                     [d := Call(q, key, now, Carrying, Some(n + 1), Reached(0, 0, 0))]
            && begun.tables.attempts ==
               s.tables.attempts + [Attempt(p.organization, key, Processing)] +
                   [Attempt(q.organization, key, Processing)]
  {
    var look := BothLookUp(c, d, p, q, key, now);
    BothFindNothing(s, c, d, p, q, key, now);
    BeginsAlone(Exec(s, look), c);
    RunThenRun(s, look, [Next(c, Fine), Next(c, Fine)]);
    BeginsAlone(Exec(s, look + [Next(c, Fine), Next(c, Fine)]), d);
    RunThenRun(s, look + [Next(c, Fine), Next(c, Fine)], [Next(d, Fine), Next(d, Fine)]);
  }

  /** Whatever the plans and the key: two calls whose lookups both come before either records its attempt leave two
      attempts for the key, and both carry their plans out. */
  lemma OverlappingCallsBothCarryOut(s: Store, c: CallId, d: CallId, p: Plan, q: Plan, key: string, now: int)
    returns (acts: seq<Action>)
    requires c != d && c !in s.calls && d !in s.calls
    requires p.organization == q.organization && !Attempted(s.tables.attempts, p.organization, key)
    requires MayGoAhead(p, now) && MayGoAhead(q, now)
    ensures !OneAttemptPerKey(Exec(s, BothBegin(c, d, p, q, key, now)).tables.attempts)
    ensures var done := Exec(s, BothBegin(c, d, p, q, key, now) + acts);
            && c in done.calls && done.calls[c].stage == Ended(Done(Steps(p)))
            && d in done.calls && done.calls[d].stage == Ended(Done(Steps(q)))
            && !OneAttemptPerKey(done.tables.attempts)
  {
    var both := BothBegin(c, d, p, q, key, now);
    var begun := Exec(s, both);
    BothHaveBegun(s, c, d, p, q, key, now);
    var n := |s.tables.attempts|;
    assert IsFor(begun.tables.attempts[n + 1], begun.tables.attempts[n].organization,
                 begun.tables.attempts[n].idempotencyKey);
    var first := CarriesOutAlone(begun, c, 0);
    var second := CarriesOutAlone(Exec(begun, first), d, 0);
    acts := first + second;
    RunThenRun(begun, first, second);
    RunThenRun(s, both, acts);
    if OneAttemptPerKey(Exec(begun, acts).tables.attempts) {
      OneAttemptWasOneBefore(begun, acts);
    }
  }

  predicate AllOf(acts: seq<Action>, c: CallId) {
    forall i | 0 <= i < |acts| :: acts[i].Next? && acts[i].call == c
  }

  /** A call beside which no other call takes a step, whatever fails, keeps one attempt for every key. */
  lemma {:induction false} AloneItKeepsOneAttempt(s: Store, acts: seq<Action>, c: CallId)
    requires c in s.calls && AllOf(acts, c) && OneAttemptPerKey(s.tables.attempts)
    requires s.calls[c].stage.LookedUp? || s.calls[c].stage.Opened? ==>
               !Attempted(s.tables.attempts, s.calls[c].plan.organization, s.calls[c].key)
    ensures OneAttemptPerKey(Exec(s, acts).tables.attempts)
    decreases |acts|
  {
    if acts != [] {
      BeginKeepsOneAttemptExactlyWhenFirst(s, acts[0]);
      AttemptedAfter(s, acts[0], s.calls[c].plan.organization, s.calls[c].key);
      AloneItKeepsOneAttempt(After(s, acts[0]), acts[1..], c);
    }
  }

  // ----- When the two stores agree -----

  /** The change of a role, or of a row, that a step of the run makes: `true` for adding. */
  function RemoteChange(s: Store, a: Action, r: Role): Option<bool> {
    if a.Next? && a.call in s.calls && RemoteNext(s.calls[a.call]) && a.fault != Lost &&
       RoleOf(s.calls[a.call].plan, CurrentStep(s.calls[a.call])) == r
    then Some(CurrentStep(s.calls[a.call]).Add?) else None
  }

  function LocalChange(s: Store, a: Action, k: RowKey): Option<bool> {
    if a.Next? && a.call in s.calls && LocalNext(s.calls[a.call]) && a.fault != Lost &&
       KeyOf(s.calls[a.call].plan, CurrentStep(s.calls[a.call])) == k
    then Some(CurrentStep(s.calls[a.call]).Add?) else None
  }

  function LastRemote(s: Store, acts: seq<Action>, r: Role): Option<bool>
    decreases |acts|
  {
    if acts == [] then None
    else
      var later := LastRemote(After(s, acts[0]), acts[1..], r);
      if later.Some? then later else RemoteChange(s, acts[0], r)
  }

  function LastLocal(s: Store, acts: seq<Action>, k: RowKey): Option<bool>
    decreases |acts|
  {
    if acts == [] then None
    else
      var later := LastLocal(After(s, acts[0]), acts[1..], k);
      if later.Some? then later else LocalChange(s, acts[0], k)
  }

  function Or(change: Option<bool>, before: bool): bool {
    if change.Some? then change.value else before
  }

  lemma {:induction false} RolesFollowTheLastChange(s: Store, acts: seq<Action>, r: Role)
    ensures r in Exec(s, acts).tables.roles <==> Or(LastRemote(s, acts, r), r in s.tables.roles)
    decreases |acts|
  {
    if acts != [] {
      RolesFollowTheLastChange(After(s, acts[0]), acts[1..], r);
      assert r in After(s, acts[0]).tables.roles <==> Or(RemoteChange(s, acts[0], r), r in s.tables.roles);
    }
  }

  lemma {:induction false} RowsFollowTheLastChange(s: Store, acts: seq<Action>, k: RowKey)
    ensures k in Exec(s, acts).tables.rows <==> Or(LastLocal(s, acts, k), k in s.tables.rows)
    decreases |acts|
  {
    if acts != [] {
      RowsFollowTheLastChange(After(s, acts[0]), acts[1..], k);
      assert k in After(s, acts[0]).tables.rows <==> Or(LocalChange(s, acts[0], k), k in s.tables.rows);
    }
  }

  /** Over any interleaving of any calls with any failures: a row and a role that both changed agree after the run if
      and only if the last change of the row and the last change of the role were of the same kind; one that did not
      change counts with what it was before. */
  lemma PairAgreesExactlyWhenLastChangesDo(s: Store, acts: seq<Action>, k: RowKey, r: Role)
    ensures (k in Exec(s, acts).tables.rows <==> r in Exec(s, acts).tables.roles) <==>
            (Or(LastLocal(s, acts, k), k in s.tables.rows) <==> Or(LastRemote(s, acts, r), r in s.tables.roles))
    ensures LastLocal(s, acts, k).Some? && LastRemote(s, acts, r).Some? ==>
              ((k in Exec(s, acts).tables.rows <==> r in Exec(s, acts).tables.roles) <==>
               LastLocal(s, acts, k) == LastRemote(s, acts, r))
  {
    RolesFollowTheLastChange(s, acts, r);
    RowsFollowTheLastChange(s, acts, k);
  }

  /** Two calls at steps on the same role and row, one adding and one removing. */
  predicate Crossing(s: Store, c: CallId, d: CallId) {
    && c in s.calls && d in s.calls && c != d && RemoteNext(s.calls[c]) && RemoteNext(s.calls[d])
    && CurrentStep(s.calls[c]).Add? && CurrentStep(s.calls[d]).Remove?
    && RoleOf(s.calls[c].plan, CurrentStep(s.calls[c])) == RoleOf(s.calls[d].plan, CurrentStep(s.calls[d]))
    && KeyOf(s.calls[c].plan, CurrentStep(s.calls[c])) == KeyOf(s.calls[d].plan, CurrentStep(s.calls[d]))
  }

  predicate JustDone(s: Store, c: CallId, n: nat) {
    c in s.calls && s.calls[c].reached == Reached(n + 1, n + 1, n + 1)
  }

  /** Wherever two calls come to such steps, they can leave a row without its role, both steps fully carried out and
      nothing in flight. */
  lemma CrossingStepsDisagree(s: Store, c: CallId, d: CallId)
    requires Crossing(s, c, d)
    ensures var crossed := Exec(s, [Next(c, Fine), Next(d, Fine), Next(d, Fine), Next(c, Fine)]);
            && KeyOf(s.calls[c].plan, CurrentStep(s.calls[c])) in crossed.tables.rows
            && RoleOf(s.calls[c].plan, CurrentStep(s.calls[c])) !in crossed.tables.roles
            && JustDone(crossed, c, s.calls[c].reached.done) && JustDone(crossed, d, s.calls[d].reached.done)
  {
    var acts := [Next(c, Fine), Next(d, Fine), Next(d, Fine), Next(c, Fine)];
    var s1 := After(s, Next(c, Fine));
    var s2 := After(s1, Next(d, Fine));
    var s3 := After(s2, Next(d, Fine));
    var s4 := After(s3, Next(c, Fine));
    assert acts[1..][1..] == [Next(d, Fine), Next(c, Fine)] && [Next(d, Fine), Next(c, Fine)][1..] == [Next(c, Fine)];
    assert Exec(s3, [Next(c, Fine)]) == s4;
    assert Exec(s2, [Next(d, Fine), Next(c, Fine)]) == s4;
    assert Exec(s, acts) == Exec(s1, acts[1..]) == s4;
    assert LocalNext(s2.calls[d]) && CurrentStep(s2.calls[d]) == CurrentStep(s.calls[d]);
    assert LocalNext(s3.calls[c]) && CurrentStep(s3.calls[c]) == CurrentStep(s.calls[c]);
  }

  // ----- Calls that keep off each other's pairs -----

  predicate KeepsOff(p: Plan, k: RowKey, r: Role) {
    !TouchesKey(p, Steps(p), k) && !TouchesRole(p, Steps(p), r)
  }

  /** The plans of the other calls, of those under way and of those that come, touch neither the row nor the role. */
  predicate OthersKeepOff(s: Store, acts: seq<Action>, c: CallId, k: RowKey, r: Role) {
    && (forall d | d in s.calls && d != c :: s.calls[d].stage.Ended? || KeepsOff(s.calls[d].plan, k, r))
    && (forall i | 0 <= i < |acts| && acts[i].Lookup? && acts[i].call != c :: KeepsOff(acts[i].plan, k, r))
  }

  /** At the row and the role, the stores are where the progress of the call says. */
  predicate FollowsCall(t: Tables, c: Call, rows: Rows, roles: set<Role>, k: RowKey, r: Role)
    requires Bounded(c)
  {
    && SameAt(t.rows, Local(rows, c.plan, c.key, Steps(c.plan)[..c.reached.local]), k)
    && (r in t.roles <==> r in Remote(roles, c.plan, Steps(c.plan)[..c.reached.remote]))
  }

  lemma OthersLeavePair(t: Tables, d: Call, k: RowKey, r: Role)
    requires d.stage.Ended? || KeepsOff(d.plan, k, r)
    ensures SameAt(Effect(t, d).rows, t.rows, k) && (r in Effect(t, d).roles <==> r in t.roles)
  {
    if d.stage.Carrying? && !Finished(d) {
      var n := d.reached.done;
      assert Steps(d.plan)[n] == StepAt(d.plan, n);
      assert KeyOf(d.plan, Steps(d.plan)[n]) != k && RoleOf(d.plan, Steps(d.plan)[n]) != r;
    }
  }

  lemma RemoteStepFollows(t: Tables, c: Call, fault: Fault, rows: Rows, roles: set<Role>, k: RowKey, r: Role)
    requires RemoteNext(c) && Bounded(c) && Bounded(Moved(c, |t.attempts|, fault)) &&
             FollowsCall(t, c, rows, roles, k, r)
    ensures FollowsCall(if fault == Lost then t else Effect(t, c), Moved(c, |t.attempts|, fault), rows, roles, k, r)
  {
    NextStep(c.plan, c.key, rows, roles, c.reached.done);
  }

  lemma LocalStepFollows(t: Tables, c: Call, fault: Fault, rows: Rows, roles: set<Role>, k: RowKey, r: Role)
    requires LocalNext(c) && Bounded(c) && c.reached.local == c.reached.done
    requires Bounded(Moved(c, |t.attempts|, fault)) && FollowsCall(t, c, rows, roles, k, r)
    ensures FollowsCall(if fault == Lost then t else Effect(t, c), Moved(c, |t.attempts|, fault), rows, roles, k, r)
  {
    NextStep(c.plan, c.key, rows, roles, c.reached.done);
  }

  lemma OwnStepFollows(t: Tables, c: Call, fault: Fault, rows: Rows, roles: set<Role>, k: RowKey, r: Role)
    requires CallInv(t, c) && Bounded(Moved(c, |t.attempts|, fault)) && FollowsCall(t, c, rows, roles, k, r)
    ensures FollowsCall(if fault == Lost then t else Effect(t, c), Moved(c, |t.attempts|, fault), rows, roles, k, r)
  {
    if RemoteNext(c) {
      RemoteStepFollows(t, c, fault, rows, roles, k, r);
    } else if LocalNext(c) {
      LocalStepFollows(t, c, fault, rows, roles, k, r);
    } else {
      assert Moved(c, |t.attempts|, fault).reached == c.reached;
      assert Effect(t, c).rows == t.rows && Effect(t, c).roles == t.roles;
    }
  }

  lemma StepFollowsCall(s: Store, a: Action, c: CallId, rows: Rows, roles: set<Role>, k: RowKey, r: Role)
    requires Inv(s) && c in s.calls && FollowsCall(s.tables, s.calls[c], rows, roles, k, r)
    requires a.Next? && a.call in s.calls && a.call != c ==>
               s.calls[a.call].stage.Ended? || KeepsOff(s.calls[a.call].plan, k, r)
    ensures Inv(After(s, a)) && c in After(s, a).calls && Bounded(After(s, a).calls[c])
    ensures FollowsCall(After(s, a).tables, After(s, a).calls[c], rows, roles, k, r)
  {
    StepKeepsRecords(s, a);
    assert CallInv(After(s, a).tables, After(s, a).calls[c]);
    if a.Next? && a.call in s.calls {
      if a.call == c {
        OwnStepFollows(s.tables, s.calls[c], a.fault, rows, roles, k, r);
      } else {
        OthersLeavePair(s.tables, s.calls[a.call], k, r);
      }
    }
  }

  lemma OthersStillKeepOff(s: Store, acts: seq<Action>, c: CallId, k: RowKey, r: Role)
    requires acts != [] && OthersKeepOff(s, acts, c, k, r)
    ensures OthersKeepOff(After(s, acts[0]), acts[1..], c, k, r)
  {
    assert acts[0].Lookup? && acts[0].call != c ==> KeepsOff(acts[0].plan, k, r);
  }

  lemma {:induction false} RunFollowsCall(s: Store, acts: seq<Action>, c: CallId, rows: Rows, roles: set<Role>,
                                          k: RowKey, r: Role)
    requires Inv(s) && c in s.calls && FollowsCall(s.tables, s.calls[c], rows, roles, k, r) &&
             OthersKeepOff(s, acts, c, k, r)
    ensures c in Exec(s, acts).calls && Bounded(Exec(s, acts).calls[c])
    ensures FollowsCall(Exec(s, acts).tables, Exec(s, acts).calls[c], rows, roles, k, r)
    decreases |acts|
  {
    if acts != [] {
      StepFollowsCall(s, acts[0], c, rows, roles, k, r);
      OthersStillKeepOff(s, acts, c, k, r);
      RunFollowsCall(After(s, acts[0]), acts[1..], c, rows, roles, k, r);
    }
  }

  /** A call that has changed nothing yet, and any run of any calls with any failures in which no other call's plan
      touches the pair: however far the call gets, the pair agrees if it agreed before or was touched, except for the
      one step that the remote store may be ahead. */
  lemma PairsOfItsOwnAgree(s: Store, acts: seq<Action>, c: CallId, x: Item)
    requires Inv(s) && c in s.calls && Untouched(s.calls[c]) && KeyFollowsPair(Steps(s.calls[c].plan), x)
    requires var p := s.calls[c].plan; OthersKeepOff(s, acts, c, RowKeyOf(p, x), RoleOf(p, Add(x)))
    ensures c in Exec(s, acts).calls && Bounded(Exec(s, acts).calls[c]) &&
            Exec(s, acts).calls[c].plan == s.calls[c].plan
    ensures var p, done, at := s.calls[c].plan, Exec(s, acts).tables, Exec(s, acts).calls[c].reached;
            InSync(s.tables.rows, s.tables.roles, p, x) || Touches(Steps(p)[..at.local], x) ==>
              InSync(done.rows, done.roles, p, x) || (at.remote == at.local + 1 && SamePair(Steps(p)[at.local].item, x))
  {
    var call, k, r := s.calls[c], RowKeyOf(s.calls[c].plan, x), RoleOf(s.calls[c].plan, Add(x));
    var rows, roles := s.tables.rows, s.tables.roles;
    RunFollowsCall(s, acts, c, rows, roles, k, r);
    PlansStay(s, acts, c);
    var at := Exec(s, acts).calls[c].reached;
    if InSync(rows, roles, call.plan, x) || Touches(Steps(call.plan)[..at.local], x) {
      StoresAgreeUpToOneStep(rows, roles, call.plan, call.key, at,
                             Local(rows, call.plan, call.key, Steps(call.plan)[..at.local]),
                             Remote(roles, call.plan, Steps(call.plan)[..at.remote]), x);
    }
  }

  // ----- A call beside which nothing happens -----

  predicate AtCall(t: Tables, c: Call, rows: Rows, roles: set<Role>)
    requires Bounded(c)
  {
    && t.rows == Local(rows, c.plan, c.key, Steps(c.plan)[..c.reached.local])
    && t.roles == Remote(roles, c.plan, Steps(c.plan)[..c.reached.remote])
  }

  lemma OwnStepAt(t: Tables, c: Call, fault: Fault, rows: Rows, roles: set<Role>)
    requires CallInv(t, c) && Bounded(Moved(c, |t.attempts|, fault)) && AtCall(t, c, rows, roles)
    ensures AtCall(if fault == Lost then t else Effect(t, c), Moved(c, |t.attempts|, fault), rows, roles)
  {
    if RemoteNext(c) || LocalNext(c) {
      NextStep(c.plan, c.key, rows, roles, c.reached.done);
    }
  }

  /** Without any other call both stores are exactly where the call has got. */
  lemma {:induction false} AloneItLeavesItsSteps(s: Store, acts: seq<Action>, c: CallId, rows: Rows, roles: set<Role>)
    requires Inv(s) && c in s.calls && AllOf(acts, c) && AtCall(s.tables, s.calls[c], rows, roles)
    ensures c in Exec(s, acts).calls && Bounded(Exec(s, acts).calls[c])
    ensures AtCall(Exec(s, acts).tables, Exec(s, acts).calls[c], rows, roles)
    decreases |acts|
  {
    if acts != [] {
      var next := After(s, acts[0]);
      StepKeepsRecords(s, acts[0]);
      assert CallInv(next.tables, next.calls[c]);
      OwnStepAt(s.tables, s.calls[c], acts[0].fault, rows, roles);
      AloneItLeavesItsSteps(next, acts[1..], c, rows, roles);
    }
  }

  /** A whole call has its reply on record, and one whose plan may not go ahead has changed nothing. */
  ghost predicate LeftOnRecord(s: Store, look: Action, done: Store)
    requires look.Lookup?
  {
    Inv(s) ==>
      && Inv(done) && look.call in done.calls && done.calls[look.call].plan == look.plan
      && (done.calls[look.call].stage.Ended? ==>
          OnRecord(done.tables, done.calls[look.call], done.calls[look.call].stage.reply))
      && (!MayGoAhead(look.plan, look.now) ==> Untouched(done.calls[look.call]))
  }

  /** Both stores are exactly where the call has got, and every key still has one attempt. */
  ghost predicate LeftItsSteps(s: Store, look: Action, done: Store)
    requires look.Lookup?
  {
    && (OneAttemptPerKey(s.tables.attempts) ==> OneAttemptPerKey(done.tables.attempts))
    && (Inv(s) ==>
          look.call in done.calls &&
          At(look.plan, look.key, s.tables.rows, s.tables.roles, done.tables.rows, done.tables.roles,
             done.calls[look.call].reached))
  }

  lemma CallIsOnRecord(s: Store, look: Action, acts: seq<Action>)
    requires look.Lookup? && look.call !in s.calls
    ensures LeftOnRecord(s, look, Exec(After(s, look), acts))
  {
    if Inv(s) {
      StepKeepsRecords(s, look);
      RepliesAreOnRecord(After(s, look), acts, look.call);
      PlansStay(After(s, look), acts, look.call);
      var done := Exec(After(s, look), acts);
      assert CallInv(done.tables, done.calls[look.call]);
    }
  }

  /** A whole call beside which no other call takes a step. */
  lemma QuietCallLeavesItsSteps(s: Store, look: Action, acts: seq<Action>)
    requires look.Lookup? && look.call !in s.calls && AllOf(acts, look.call)
    ensures LeftItsSteps(s, look, Exec(After(s, look), acts))
  {
    var looked := After(s, look);
    if OneAttemptPerKey(s.tables.attempts) {
      AloneItKeepsOneAttempt(looked, acts, look.call);
    }
    if Inv(s) {
      StepKeepsRecords(s, look);
      assert AtCall(looked.tables, looked.calls[look.call], s.tables.rows, s.tables.roles);
      AloneItLeavesItsSteps(looked, acts, look.call, s.tables.rows, s.tables.roles);
      PlansStay(looked, acts, look.call);
    }
  }
}
