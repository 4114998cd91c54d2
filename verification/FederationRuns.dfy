/** Any number of `applyIdentityFederationReconciliation` calls at the same time. Every call to the attempts, the
    remote provider or the local rows is one step, may be lost or take effect and then raise an error, and between
    two steps of a call any steps of the others may come. */
module FederationRuns {
  import opened Wrappers
  import opened FederationApply

  type CallId = nat

  /** The statement a call has come to; a failing call writes a dead letter first, a blocked one its event. */
  datatype Stage = LookedUp | Opened | Carrying | Blocking(emitted: bool) | Failing(written: bool) | Ended(reply: Reply)

  /** `reached` tells what the call has really done in either store, whatever it knows of it. */
  datatype Call = Call(plan: Plan, key: string, now: int, stage: Stage, attempt: Option<nat>, reached: Reached)

  datatype Tables = Tables(attempts: seq<Attempt>, rows: Rows, roles: set<Role>, deadLetters: seq<nat>,
                           operations: seq<string>)

  datatype Store = Store(tables: Tables, calls: map<CallId, Call>)

  datatype Action =
    | Lookup(call: CallId, plan: Plan, key: string, now: int, fault: Fault)
    | Next(call: CallId, fault: Fault)

  const APPLY := "identity_federation.reconciliation.apply"
  const GUARD_TRIGGERED := "scim.mass_deprovision_guard.triggered"

  // ----- One step -----

  function FirstAttempt(attempts: seq<Attempt>, organization: string, key: string): (r: Option<nat>)
    ensures r.Some? <==> Attempted(attempts, organization, key)
    ensures r.Some? ==> r.value < |attempts| && IsFor(attempts[r.value], organization, key)
  {
    if attempts == [] then None
    else
      var n := |attempts| - 1;
      var earlier := FirstAttempt(attempts[..n], organization, key);
      if earlier.Some? then earlier else if IsFor(attempts[n], organization, key) then Some(n) else None
  }

  lemma {:induction false} FirstStays(attempts: seq<Attempt>, n: nat, organization: string, key: string)
    requires n <= |attempts| && FirstAttempt(attempts[..n], organization, key).Some?
    ensures FirstAttempt(attempts, organization, key) == FirstAttempt(attempts[..n], organization, key)
    decreases |attempts|
  {
    if n == |attempts| {
      assert attempts[..n] == attempts;
    } else {
      assert attempts[..|attempts| - 1][..n] == attempts[..n];
      FirstStays(attempts[..|attempts| - 1], n, organization, key);
    }
  }

  function Found(t: Tables, p: Plan, key: string, now: int, fault: Fault): Call {
    var existing := FirstAttempt(t.attempts, p.organization, key);
    Call(p, key, now,
         if fault != Fine then Ended(Interrupted) else if existing.Some? then Ended(Repeated(existing.value))
            else LookedUp,
         None, Reached(0, 0, 0))
  }

  function WithStatus(attempts: seq<Attempt>, attempt: Option<nat>, status: Status): seq<Attempt> {
    if attempt.Some? && attempt.value < |attempts|
    then attempts[attempt.value := attempts[attempt.value].(status := status)] else attempts
  }

  predicate Finished(c: Call) {
    c.reached.done >= |Steps(c.plan)|
  }

  /** The remote half of a step comes first. */
  predicate RemoteNext(c: Call) {
    c.stage.Carrying? && !Finished(c) && c.reached.remote == c.reached.done
  }

  predicate LocalNext(c: Call) {
    c.stage.Carrying? && !Finished(c) && c.reached.remote != c.reached.done
  }

  function CurrentStep(c: Call): Step
    requires !Finished(c)
  {
    StepAt(c.plan, c.reached.done)
  }

  /** What the next statement of a call does if it takes effect. */
  function Effect(t: Tables, c: Call): Tables {
    match c.stage
    case LookedUp => t.(operations := t.operations + [APPLY])
    case Opened => t.(attempts := t.attempts + [Attempt(c.plan.organization, c.key, Processing)])
    case Carrying =>
      if Finished(c) then t.(attempts := WithStatus(t.attempts, c.attempt, Succeeded))
      else if RemoteNext(c) then t.(roles := RemoteStep(t.roles, c.plan, CurrentStep(c)))
      else t.(rows := LocalStep(t.rows, c.plan, c.key, CurrentStep(c)))
    case Blocking(emitted) =>
      if emitted then t.(attempts := WithStatus(t.attempts, c.attempt, Failed))
      else t.(operations := t.operations + [GUARD_TRIGGERED])
    case Failing(written) =>
      if written then t.(attempts := WithStatus(t.attempts, c.attempt, Failed))
      else if c.attempt.Some? then t.(deadLetters := t.deadLetters + [c.attempt.value]) else t
    case Ended(_) => t
  }

  function Advanced(r: Reached, remote: bool, fault: Fault): Reached {
    if fault == Lost then r
    else if remote then r.(remote := r.done + 1)
    else if fault == Fine then Reached(r.done + 1, r.done + 1, r.done + 1) else r.(local := r.done + 1)
  }

  /** Where a call is after its next statement; `n` is the number of attempts before it. */
  function Moved(c: Call, n: nat, fault: Fault): Call {
    var ok := fault == Fine;
    match c.stage
    case LookedUp => c.(stage := if ok then Opened else Ended(Interrupted))
    case Opened =>
      if ok then c.(stage := if MayGoAhead(c.plan, c.now) then Carrying else Blocking(false), attempt := Some(n))
      else c.(stage := Ended(Interrupted))
    case Carrying =>
      if Finished(c) then c.(stage := if ok then Ended(Concluded(c)) else Failing(false))
      else c.(stage := if ok then Carrying else Failing(false), reached := Advanced(c.reached, RemoteNext(c), fault))
    case Blocking(emitted) =>
      if !ok || c.attempt.None? then c.(stage := Ended(Interrupted))
      else c.(stage := if emitted then Ended(Concluded(c)) else Blocking(true))
    case Failing(written) =>
      if !ok then c.(stage := Ended(Interrupted))
      else c.(stage := if written then Ended(Concluded(c)) else Failing(true))
    case Ended(_) => c
  }

  /** The steps a call reports as applied. */
  function Applied(c: Call): seq<Step> {
    if c.reached.done <= |Steps(c.plan)| then Steps(c.plan)[..c.reached.done] else Steps(c.plan)
  }

  /** What a call replies once its attempt has its last status. */
  function Concluded(c: Call): Reply {
    if c.stage.Carrying? then Done(Applied(c))
    else if c.stage.Failing? then Stopped(Applied(c))
    else if c.stage.Blocking? && c.attempt.Some? then Blocked(c.attempt.value, PreservesAccess(c.plan)) else Interrupted
  }

  function After(s: Store, a: Action): Store {
    match a
    case Lookup(c, p, key, now, fault) =>
      if c in s.calls then s else s.(calls := s.calls[c := Found(s.tables, p, key, now, fault)])
    case Next(c, fault) =>
      if c !in s.calls then s
      else Store(if fault == Lost then s.tables else Effect(s.tables, s.calls[c]),
                 s.calls[c := Moved(s.calls[c], |s.tables.attempts|, fault)])
  }

  function Exec(s: Store, acts: seq<Action>): Store
    decreases |acts|
  {
    if acts == [] then s else Exec(After(s, acts[0]), acts[1..])
  }

  lemma {:induction false} RunThenRun(s: Store, first: seq<Action>, rest: seq<Action>)
    ensures Exec(s, first + rest) == Exec(Exec(s, first), rest)
    decreases |first|
  {
    if first == [] {
      assert first + rest == rest;
    } else {
      assert (first + rest)[1..] == first[1..] + rest;
      RunThenRun(After(s, first[0]), first[1..], rest);
    }
  }

  lemma OneMore(s: Store, acts: seq<Action>, a: Action)
    ensures Exec(s, acts + [a]) == After(Exec(s, acts), a)
  {
    RunThenRun(s, acts, [a]);
    assert [a][1..] == [];
  }

  // ----- What every run keeps -----

  predicate Bounded(c: Call) {
    var r := c.reached;
    r.done <= r.local <= r.remote <= r.done + 1 && r.remote <= |Steps(c.plan)|
  }

  predicate OwnAttempt(t: Tables, c: Call) {
    c.attempt.Some? && c.attempt.value < |t.attempts| && IsFor(t.attempts[c.attempt.value], c.plan.organization, c.key)
  }

  predicate Untouched(c: Call) {
    c.reached == Reached(0, 0, 0)
  }

  function Letters(t: Tables, attempt: nat): nat {
    multiset(t.deadLetters)[attempt]
  }

  /** What is on record when a call has replied. */
  predicate OnRecord(t: Tables, c: Call, reply: Reply) {
    match reply
    case Repeated(i) => Untouched(c) && i < |t.attempts| && IsFor(t.attempts[i], c.plan.organization, c.key)
    case Blocked(i, preserve) =>
      && !MayGoAhead(c.plan, c.now) && Untouched(c) && c.attempt == Some(i) && preserve == PreservesAccess(c.plan)
      && OwnAttempt(t, c) && t.attempts[i].status == Failed && Letters(t, i) == 0
    case Done(applied) =>
      && MayGoAhead(c.plan, c.now) && c.reached == Reached(|Steps(c.plan)|, |Steps(c.plan)|, |Steps(c.plan)|)
      && applied == Steps(c.plan) && OwnAttempt(t, c) && t.attempts[c.attempt.value].status == Succeeded
      && Letters(t, c.attempt.value) == 0
    case Stopped(applied) =>
      && MayGoAhead(c.plan, c.now) && applied == Applied(c)
      && OwnAttempt(t, c) && t.attempts[c.attempt.value].status == Failed && Letters(t, c.attempt.value) == 1
    case Interrupted => true
  }

  predicate CallInv(t: Tables, c: Call) {
    && Bounded(c) && (c.attempt.Some? ==> OwnAttempt(t, c))
    && (!Untouched(c) ==> c.attempt.Some? && MayGoAhead(c.plan, c.now))
    && match c.stage
       case LookedUp => c.attempt.None?
       case Opened => c.attempt.None?
       case Carrying =>
         c.attempt.Some? && c.reached.local == c.reached.done && MayGoAhead(c.plan, c.now) &&
             Letters(t, c.attempt.value) == 0
       case Blocking(_) => c.attempt.Some? && !MayGoAhead(c.plan, c.now) && Letters(t, c.attempt.value) == 0
       case Failing(written) =>
         c.attempt.Some? && MayGoAhead(c.plan, c.now) && Letters(t, c.attempt.value) == if written then 1 else 0
       case Ended(reply) => OnRecord(t, c, reply)
  }

  /** No two calls have the same attempt, and letters are about attempts that there are. */
  predicate Owned(t: Tables, calls: map<CallId, Call>) {
    && (forall c, d | c in calls && d in calls && c != d && calls[c].attempt.Some? ::
        calls[c].attempt != calls[d].attempt)
    && (forall c | c in calls && calls[c].attempt.Some? :: calls[c].attempt.value < |t.attempts|)
    && LettersKnown(t)
  }

  predicate LettersKnown(t: Tables) {
    forall i | 0 <= i < |t.deadLetters| :: t.deadLetters[i] < |t.attempts|
  }

  ghost predicate Inv(s: Store) {
    Owned(s.tables, s.calls) && forall c | c in s.calls :: CallInv(s.tables, s.calls[c])
  }

  const EMPTY := Store(Tables([], map[], {}, [], []), map[])

  /** The effect on the attempts and letters that are not the call's own. */
  predicate KeepsOthers(t: Tables, after: Tables, own: Option<nat>) {
    && |t.attempts| <= |after.attempts|
    && (forall i | 0 <= i < |t.attempts| ::
          IsFor(after.attempts[i], t.attempts[i].organization, t.attempts[i].idempotencyKey))
    && (forall i: nat | i < |t.attempts| && own != Some(i) ::
          after.attempts[i] == t.attempts[i] && Letters(after, i) == Letters(t, i))
  }

  lemma EffectKeepsOthers(t: Tables, c: Call)
    ensures KeepsOthers(t, Effect(t, c), c.attempt)
  {
    if c.stage.Failing? && !c.stage.written && c.attempt.Some? {
      assert multiset(t.deadLetters + [c.attempt.value]) == multiset(t.deadLetters) + multiset{c.attempt.value};
    }
  }

  /** Another call's attempt keeps its status and its letters. */
  lemma OthersKeepRecords(t: Tables, after: Tables, own: Option<nat>, d: Call)
    requires KeepsOthers(t, after, own) && CallInv(t, d) && (d.attempt.Some? ==> d.attempt != own)
    ensures CallInv(after, d)
  {
    if d.attempt.Some? {
      assert after.attempts[d.attempt.value] == t.attempts[d.attempt.value];
    }
  }

  lemma NoLettersYet(t: Tables)
    requires LettersKnown(t)
    ensures Letters(t, |t.attempts|) == 0
  {
    if |t.attempts| in multiset(t.deadLetters) {
      assert |t.attempts| in t.deadLetters;
    }
  }

  lemma BeginIsSound(t: Tables, c: Call, fault: Fault)
    requires CallInv(t, c) && LettersKnown(t) && (c.stage.LookedUp? || c.stage.Opened?)
    ensures CallInv(if fault == Lost then t else Effect(t, c), Moved(c, |t.attempts|, fault))
  {
    NoLettersYet(t);
    if c.stage.Opened? {
      assert Letters(Effect(t, c), |t.attempts|) == Letters(t, |t.attempts|);
    }
  }

  lemma CarryIsSound(t: Tables, c: Call, fault: Fault)
    requires CallInv(t, c) && c.stage.Carrying? && !Finished(c)
    ensures CallInv(if fault == Lost then t else Effect(t, c), Moved(c, |t.attempts|, fault))
  {
    var after := Effect(t, c);
    assert after.attempts == t.attempts && after.deadLetters == t.deadLetters;
  }

  lemma FinishIsSound(t: Tables, c: Call, fault: Fault)
    requires CallInv(t, c) && c.stage.Carrying? && Finished(c)
    ensures CallInv(if fault == Lost then t else Effect(t, c), Moved(c, |t.attempts|, fault))
  {
    var after := Effect(t, c);
    assert Letters(after, c.attempt.value) == Letters(t, c.attempt.value);
  }

  lemma BlockIsSound(t: Tables, c: Call, fault: Fault)
    requires CallInv(t, c) && c.stage.Blocking?
    ensures CallInv(if fault == Lost then t else Effect(t, c), Moved(c, |t.attempts|, fault))
  {
    var after := Effect(t, c);
    assert Letters(after, c.attempt.value) == Letters(t, c.attempt.value);
  }

  lemma FailIsSound(t: Tables, c: Call, fault: Fault)
    requires CallInv(t, c) && c.stage.Failing?
    ensures CallInv(if fault == Lost then t else Effect(t, c), Moved(c, |t.attempts|, fault))
  {
    var after := Effect(t, c);
    if c.stage.written {
      assert Letters(after, c.attempt.value) == Letters(t, c.attempt.value);
    } else {
      assert multiset(after.deadLetters) == multiset(t.deadLetters) + multiset{c.attempt.value};
    }
  }

  lemma OwnStepIsSound(t: Tables, c: Call, fault: Fault)
    requires CallInv(t, c) && LettersKnown(t)
    ensures CallInv(if fault == Lost then t else Effect(t, c), Moved(c, |t.attempts|, fault))
  {
    match c.stage {
      case Carrying => if Finished(c) { FinishIsSound(t, c, fault); } else { CarryIsSound(t, c, fault); }
      case Blocking(_) => BlockIsSound(t, c, fault);
      case Failing(_) => FailIsSound(t, c, fault);
      case Ended(_) =>
      case _ => BeginIsSound(t, c, fault);
    }
  }

  /** A call gets an attempt of its own by recording it, and keeps it. */
  lemma OnlyBeginningTakesAnAttempt(t: Tables, c: Call, fault: Fault)
    requires LettersKnown(t) && (c.attempt.Some? ==> c.attempt.value < |t.attempts|)
    ensures var moved, after := Moved(c, |t.attempts|, fault), if fault == Lost then t else Effect(t, c);
            && LettersKnown(after) && |t.attempts| <= |after.attempts|
            && (moved.attempt == c.attempt ||
                (moved.attempt == Some(|t.attempts|) && |after.attempts| == |t.attempts| + 1))
  {
  }

  lemma AttemptsStayOwned(s: Store, call: CallId, fault: Fault)
    requires Owned(s.tables, s.calls) && call in s.calls
    ensures Owned(After(s, Next(call, fault)).tables, After(s, Next(call, fault)).calls)
  {
    OnlyBeginningTakesAnAttempt(s.tables, s.calls[call], fault);
    var moved := Moved(s.calls[call], |s.tables.attempts|, fault);
    assert After(s, Next(call, fault)).calls == s.calls[call := moved];
  }

  lemma OthersStayRecorded(t: Tables, calls: map<CallId, Call>, call: CallId, fault: Fault, d: CallId)
    requires Owned(t, calls) && call in calls && d in calls && d != call && CallInv(t, calls[d])
    ensures CallInv(if fault == Lost then t else Effect(t, calls[call]), calls[d])
  {
    EffectKeepsOthers(t, calls[call]);
    if fault != Lost {
      OthersKeepRecords(t, Effect(t, calls[call]), calls[call].attempt, calls[d]);
    }
  }

  lemma OwnStepKeepsRecords(s: Store, call: CallId, fault: Fault)
    requires Inv(s) && call in s.calls
    ensures Inv(After(s, Next(call, fault)))
  {
    var after := After(s, Next(call, fault));
    OwnStepIsSound(s.tables, s.calls[call], fault);
    AttemptsStayOwned(s, call, fault);
    forall d | d in after.calls
      ensures CallInv(after.tables, after.calls[d])
    {
      if d != call {
        OthersStayRecorded(s.tables, s.calls, call, fault, d);
      }
    }
  }

  lemma LookupKeepsRecords(s: Store, a: Action)
    requires Inv(s) && a.Lookup?
    ensures Inv(After(s, a))
  {
    if a.call !in s.calls {
      var found := Found(s.tables, a.plan, a.key, a.now, a.fault);
      assert CallInv(s.tables, found);
      assert Owned(s.tables, s.calls[a.call := found]);
    }
  }

  lemma StepKeepsRecords(s: Store, a: Action)
    requires Inv(s)
    ensures Inv(After(s, a))
  {
    if a.Lookup? {
      LookupKeepsRecords(s, a);
    } else if a.call in s.calls {
      OwnStepKeepsRecords(s, a.call, a.fault);
    }
  }

  /** In every run of any number of calls: what a call has done in either store never differs from what it reports by
      more than a step, an attempt is on record before either store changes, and a call that has replied left exactly
      the record its reply stands for, with one dead letter if it stopped. */
  lemma {:induction false} RepliesAreOnRecord(s: Store, acts: seq<Action>, c: CallId)
    requires Inv(s)
    ensures Inv(Exec(s, acts))
    ensures c in Exec(s, acts).calls ==>
              var call := Exec(s, acts).calls[c];
              && Bounded(call) && (call.reached.remote > 0 ==> OwnAttempt(Exec(s, acts).tables, call))
              && (call.stage.Ended? ==> OnRecord(Exec(s, acts).tables, call, call.stage.reply))
    decreases |acts|
  {
    if acts != [] {
      StepKeepsRecords(s, acts[0]);
      RepliesAreOnRecord(After(s, acts[0]), acts[1..], c);
    } else {
      assert c in s.calls ==> CallInv(s.tables, s.calls[c]);
    }
  }
}
