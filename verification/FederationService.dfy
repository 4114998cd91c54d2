/** `applyIdentityFederationReconciliation` of backend/identity-federation/reconciliationApplyService.js, statement by
    statement: its calls to the attempts, the remote provider and the local rows may fail, and before each of them
    other calls do what they like. The whole call is a run of FederationRuns. */
module FederationService {
  import opened Wrappers
  import opened FederationApply
  import opened FederationRuns
  import opened FederationOverlap
  import Guard = MassDeprovisionGuard

  class ApplyService {
    const faults: nat -> Fault
    const others: nat -> seq<Action>
    var turn: nat
    var attempts: seq<Attempt>
    var rows: Rows
    var roles: set<Role>
    var deadLetters: seq<nat>
    var operations: seq<string>
    var calls: map<CallId, Call>

    constructor (faults: nat -> Fault, others: nat -> seq<Action>)
      ensures Database() == EMPTY && this.faults == faults && this.others == others
    {
      this.faults, this.others := faults, others;
      turn, attempts, rows, roles, deadLetters, operations, calls := 0, [], map[], {}, [], [], map[];
    }

    function Database(): Store
      reads this
    {
      Store(Tables(attempts, rows, roles, deadLetters, operations), calls)
    }

    /** None of the call's own statements fails from here on. */
    ghost predicate Calm()
      reads this`turn
    {
      forall n | n >= turn :: faults(n) == Fine
    }

    ghost predicate OthersApart(c: CallId) {
      forall n :: Apart(others(n), c)
    }

    /** The next `k` turns: what the others do, then a statement of the call. */
    function Woven(c: CallId, first: nat, k: nat): seq<Action>
      decreases k
    {
      if k == 0 then [] else Woven(c, first, k - 1) + others(first + k - 1) + [Next(c, faults(first + k - 1))]
    }

    /** Since turn `first` the call and the others have taken the store here from `start`. */
    ghost predicate Follows(start: Store, c: CallId, first: nat)
      reads this
    {
      first <= turn && Database() == Exec(start, Woven(c, first, turn - first))
    }

    /** The others have had their turn, and the next statement of the call is due. */
    ghost predicate Due(start: Store, c: CallId, first: nat)
      reads this
    {
      first <= turn && Database() == Exec(Exec(start, Woven(c, first, turn - first)), others(turn))
    }

    /** The call has made the statement that was due. */
    lemma OneTurnMore(start: Store, c: CallId, first: nat, k: nat)
      ensures Exec(start, Woven(c, first, k + 1)) ==
              After(Exec(Exec(start, Woven(c, first, k)), others(first + k)), Next(c, faults(first + k)))
    {
      RunThenRun(start, Woven(c, first, k), others(first + k));
      OneMore(start, Woven(c, first, k) + others(first + k), Next(c, faults(first + k)));
    }

    /** What the others do before the next statement. */
    method Pause(c: CallId, ghost start: Store, ghost first: nat)
      requires OthersApart(c) && c in calls && Follows(start, c, first)
      modifies this
      ensures Due(start, c, first) && turn == old(turn)
      ensures c in calls && calls[c] == old(calls)[c]
    {
      OwnCallStays(Database(), others(turn), c);
      var s := Exec(Database(), others(turn));
      var t := s.tables;
      attempts, rows, roles, deadLetters, operations, calls := t.attempts, t.rows, t.roles, t.deadLetters, t.operations,
          s.calls;
    }

    /** A statement has been made, with the tables as they are; the call goes on to the next. */
    method Advance(c: CallId, ghost before: Store, ghost start: Store, ghost first: nat, n: nat) returns (ok: bool)
      requires c in calls && first <= turn && before.calls == calls && n == |before.tables.attempts|
      requires before == Exec(Exec(start, Woven(c, first, turn - first)), others(turn))
      requires Database().tables == if faults(turn) == Lost then before.tables else Effect(before.tables, calls[c])
      modifies this`turn, this`calls
      ensures Follows(start, c, first) && turn == old(turn) + 1
      ensures c in calls && calls[c] == Moved(old(calls)[c], n, faults(old(turn)))
      ensures ok == (faults(old(turn)) == Fine)
      ensures old(Calm()) ==> ok && Calm()
    {
      OneTurnMore(start, c, first, turn - first);
      calls := calls[c := Moved(calls[c], n, faults(turn))];
      ok := faults(turn) == Fine;
      turn := turn + 1;
    }

    method CreateOperation(c: CallId, ghost start: Store, ghost first: nat) returns (ok: bool)
      requires c in calls && calls[c].stage.LookedUp? && Due(start, c, first)
      modifies this`operations, this`turn, this`calls
      ensures Follows(start, c, first) && c in calls
      ensures calls[c] == old(calls)[c].(stage := if ok then Opened else Ended(Interrupted))
      ensures old(Calm()) ==> ok && Calm()
    {
      ghost var before := Database();
      if faults(turn) != Lost {
        operations := operations + [APPLY];
      }
      ok := Advance(c, before, start, first, |attempts|);
    }

    method CreateApplyAttempt(c: CallId, ghost start: Store, ghost first: nat) returns (ok: bool, attempt: nat)
      requires c in calls && calls[c].stage.Opened? && Due(start, c, first)
      modifies this`attempts, this`turn, this`calls
      ensures Follows(start, c, first) && c in calls
      ensures var call := old(calls)[c];
              calls[c] == if ok then call.(stage := if MayGoAhead(call.plan, call.now) then Carrying
                                           else Blocking(false), attempt := Some(attempt))
                          else call.(stage := Ended(Interrupted))
      ensures old(Calm()) ==> ok && Calm()
    {
      ghost var before := Database();
      attempt := |attempts|;
      if faults(turn) != Lost {
        attempts := attempts + [Attempt(calls[c].plan.organization, calls[c].key, Processing)];
      }
      ok := Advance(c, before, start, first, attempt);
    }

    /** The remote half of step `n`. */
    method ChangeRemote(c: CallId, n: nat, ghost start: Store, ghost first: nat) returns (ok: bool)
      requires c in calls && RemoteNext(calls[c]) && calls[c].reached == Reached(n, n, n) && Due(start, c, first)
      modifies this`roles, this`turn, this`calls
      ensures Follows(start, c, first) && c in calls
      ensures calls[c] == old(calls)[c].(stage := calls[c].stage, reached := calls[c].reached)
      ensures calls[c].reached == Reached(n, n, n) || calls[c].reached == Reached(n, n, n + 1)
      ensures if ok then calls[c].stage.Carrying? && calls[c].reached == Reached(n, n, n + 1)
              else calls[c].stage == Failing(false)
      ensures old(Calm()) ==> ok && Calm()
    {
      ghost var before := Database();
      var p, s := calls[c].plan, CurrentStep(calls[c]);
      if faults(turn) != Lost {
        roles := if s.Add? then roles + {RoleOf(p, s)} else roles - {RoleOf(p, s)};
      }
      ok := Advance(c, before, start, first, |attempts|);
    }

    /** The local half, made only if the call to the remote provider returned. */
    method ChangeLocal(c: CallId, n: nat, ghost start: Store, ghost first: nat) returns (ok: bool)
      requires c in calls && LocalNext(calls[c]) && calls[c].reached == Reached(n, n, n + 1) && Due(start, c, first)
      modifies this`rows, this`turn, this`calls
      ensures Follows(start, c, first) && c in calls
      ensures calls[c] == old(calls)[c].(stage := calls[c].stage, reached := calls[c].reached)
      ensures if ok then calls[c].stage.Carrying? && calls[c].reached == Reached(n + 1, n + 1, n + 1)
              else calls[c].stage == Failing(false) && calls[c].reached.done == n
      ensures old(Calm()) ==> ok && Calm()
    {
      ghost var before := Database();
      var call, s := calls[c], CurrentStep(calls[c]);
      if faults(turn) != Lost {
        rows := if s.Add? then rows[KeyOf(call.plan, s) := Row(s.item.user, s.item.role, call.key)]
            else rows - {KeyOf(call.plan, s)};
      }
      ok := Advance(c, before, start, first, |attempts|);
    }

    /** `updateApplyAttempt`, at the end of a plan, of a refusal, or of the catch block. */
    method UpdateAttempt(c: CallId, status: Status, ghost start: Store, ghost first: nat) returns (ok: bool)
      requires c in calls && calls[c].attempt.Some? && Due(start, c, first)
      requires if status.Succeeded? then calls[c].stage.Carrying? && Finished(calls[c])
               else status.Failed? && (calls[c].stage == Blocking(true) || calls[c].stage == Failing(true))
      modifies this`attempts, this`turn, this`calls
      ensures Follows(start, c, first) && c in calls
      ensures calls[c] == old(calls)[c].(stage := if ok then Ended(Concluded(old(calls)[c])) else
                if status.Succeeded? then Failing(false) else Ended(Interrupted))
      ensures old(Calm()) ==> ok && Calm()
    {
      ghost var before := Database();
      var n, attempt := |attempts|, calls[c].attempt;
      if faults(turn) != Lost {
        attempts := WithStatus(attempts, attempt, status);
      }
      ok := Advance(c, before, start, first, n);
    }

    method WriteDeadLetter(c: CallId, ghost start: Store, ghost first: nat) returns (ok: bool)
      requires c in calls && calls[c].attempt.Some? && calls[c].stage == Failing(false) && Due(start, c, first)
      modifies this`deadLetters, this`turn, this`calls
      ensures Follows(start, c, first) && c in calls
      ensures calls[c] == old(calls)[c].(stage := if ok then Failing(true) else Ended(Interrupted))
      ensures old(Calm()) ==> ok && Calm()
    {
      ghost var before := Database();
      if faults(turn) != Lost {
        deadLetters := deadLetters + [calls[c].attempt.value];
      }
      ok := Advance(c, before, start, first, |attempts|);
    }

    method EmitEvent(c: CallId, ghost start: Store, ghost first: nat) returns (ok: bool)
      requires c in calls && calls[c].attempt.Some? && calls[c].stage == Blocking(false) && Due(start, c, first)
      modifies this`operations, this`turn, this`calls
      ensures Follows(start, c, first) && c in calls
      ensures calls[c] == old(calls)[c].(stage := if ok then Blocking(true) else Ended(Interrupted))
      ensures old(Calm()) ==> ok && Calm()
    {
      ghost var before := Database();
      if faults(turn) != Lost {
        operations := operations + [GUARD_TRIGGERED];
      }
      ok := Advance(c, before, start, first, |attempts|);
    }

    /** One step: first the remote store, and only if that call returned the local one. */
    method Carry(c: CallId, n: nat, ghost start: Store, ghost first: nat) returns (ok: bool)
      requires OthersApart(c) && c in calls && Follows(start, c, first)
      requires calls[c].stage.Carrying? && n < |Steps(calls[c].plan)| && calls[c].reached == Reached(n, n, n)
      modifies this
      ensures Follows(start, c, first) && c in calls
      ensures calls[c] == old(calls)[c].(stage := calls[c].stage, reached := calls[c].reached)
      ensures if ok then calls[c].stage.Carrying? && calls[c].reached == Reached(n + 1, n + 1, n + 1)
              else calls[c].stage == Failing(false) && calls[c].reached.done == n
      ensures old(Calm()) ==> ok && Calm()
    {
      Pause(c, start, first);
      ok := ChangeRemote(c, n, start, first);
      if ok {
        Pause(c, start, first);
        ok := ChangeLocal(c, n, start, first);
      }
    }

    /** The call is between two steps of its plan, or has failed after `n` of them. */
    ghost predicate HasCarried(c: CallId, call: Call, n: nat, ok: bool)
      reads this`calls
    {
      && c in calls && calls[c] == call.(stage := calls[c].stage, reached := calls[c].reached)
      && if ok then calls[c].stage.Carrying? && calls[c].reached == Reached(n, n, n)
         else calls[c].stage == Failing(false) && calls[c].reached.done == n
    }

    method CarryAdds(c: CallId, p: Plan, ghost start: Store, ghost first: nat) returns (ok: bool, applied: seq<Step>)
      requires OthersApart(c) && c in calls && Follows(start, c, first)
      requires calls[c].plan == p && HasCarried(c, calls[c], 0, true)
      modifies this
      ensures Follows(start, c, first)
      ensures |applied| <= |Steps(p)| && applied == Steps(p)[..|applied|] && HasCarried(c, old(calls)[c], |applied|, ok)
      ensures ok ==> |applied| == |p.adds|
      ensures old(Calm()) ==> ok && Calm()
    {
      applied, ok := [], true;
      for i := 0 to |p.adds|
        invariant Follows(start, c, first) && HasCarried(c, old(calls)[c], i, true)
        invariant applied == Steps(p)[..i] && ok
        invariant old(Calm()) ==> Calm()
      {
        ok := Carry(c, i, start, first);
        if !ok {
          return;
        }
        applied := applied + [Add(p.adds[i])];
      }
    }

    method CarryRemoves(c: CallId, p: Plan, before: seq<Step>, ghost start: Store, ghost first: nat)
      returns (ok: bool, applied: seq<Step>)
      requires OthersApart(c) && c in calls && Follows(start, c, first)
      requires calls[c].plan == p && before == Steps(p)[..|p.adds|] && HasCarried(c, calls[c], |p.adds|, true)
      modifies this
      ensures Follows(start, c, first)
      ensures |applied| <= |Steps(p)| && applied == Steps(p)[..|applied|] && HasCarried(c, old(calls)[c], |applied|, ok)
      ensures ok ==> |applied| == |Steps(p)|
      ensures old(Calm()) ==> ok && Calm()
    {
      applied, ok := before, true;
      for i := 0 to |p.removes|
        invariant Follows(start, c, first) && HasCarried(c, old(calls)[c], |p.adds| + i, true)
        invariant applied == Steps(p)[..|p.adds| + i] && ok
        invariant old(Calm()) ==> Calm()
      {
        ok := Carry(c, |p.adds| + i, start, first);
        if !ok {
          return;
        }
        applied := applied + [Remove(p.removes[i])];
      }
    }

    /** The loop over adds, then the loop over removes. */
    method CarryOut(c: CallId, p: Plan, ghost start: Store, ghost first: nat) returns (ok: bool, applied: seq<Step>)
      requires OthersApart(c) && c in calls && Follows(start, c, first)
      requires calls[c].plan == p && HasCarried(c, calls[c], 0, true)
      modifies this
      ensures Follows(start, c, first)
      ensures |applied| <= |Steps(p)| && applied == Steps(p)[..|applied|] && HasCarried(c, old(calls)[c], |applied|, ok)
      ensures ok ==> |applied| == |Steps(p)|
      ensures old(Calm()) ==> ok && Calm()
    {
      ok, applied := CarryAdds(c, p, start, first);
      if ok {
        ok, applied := CarryRemoves(c, p, applied, start, first);
      }
    }

    /** The call has replied. */
    ghost predicate Replied(c: CallId, call: Call, reply: Reply)
      reads this`calls
    {
      c in calls && calls[c] == call.(stage := Ended(reply), attempt := calls[c].attempt, reached := calls[c].reached)
    }

    /** The catch block: a dead letter for the attempt, then its failure. Both may fail in turn. */
    method RecordFailure(c: CallId, applied: seq<Step>, ghost start: Store, ghost first: nat) returns (reply: Reply)
      requires OthersApart(c) && c in calls && Follows(start, c, first)
      requires calls[c].stage == Failing(false) && calls[c].attempt.Some? && applied == Applied(calls[c])
      modifies this
      ensures Follows(start, c, first) && Replied(c, old(calls)[c], reply)
    {
      Pause(c, start, first);
      var ok := WriteDeadLetter(c, start, first);
      if ok {
        Pause(c, start, first);
        ok := UpdateAttempt(c, Failed, start, first);
      }
      reply := if ok then Stopped(applied) else Interrupted;
    }

    /** A blocked plan emits its event and fails the attempt. */
    method RecordBlock(c: CallId, attempt: nat, preserve: bool, ghost start: Store, ghost first: nat)
      returns (reply: Reply)
      requires OthersApart(c) && c in calls && Follows(start, c, first)
      requires calls[c].stage == Blocking(false) && calls[c].attempt == Some(attempt) &&
               preserve == PreservesAccess(calls[c].plan)
      modifies this
      ensures Follows(start, c, first) && Replied(c, old(calls)[c], reply)
      ensures old(Calm()) ==> reply.Blocked?
    {
      Pause(c, start, first);
      var ok := EmitEvent(c, start, first);
      if ok {
        Pause(c, start, first);
        ok := UpdateAttempt(c, Failed, start, first);
      }
      reply := if ok then Blocked(attempt, preserve) else Interrupted;
    }

    /** Everything after the attempt is recorded and the guard has let the plan through. */
    method CarryOutAndRecord(c: CallId, p: Plan, ghost start: Store, ghost first: nat) returns (reply: Reply)
      requires OthersApart(c) && c in calls && Follows(start, c, first)
      requires calls[c].plan == p && calls[c].attempt.Some? && HasCarried(c, calls[c], 0, true)
      modifies this
      ensures Follows(start, c, first) && Replied(c, old(calls)[c], reply)
      ensures old(Calm()) ==> reply.Done?
    {
      var ok, applied := CarryOut(c, p, start, first);
      if ok {
        Pause(c, start, first);
        ok := UpdateAttempt(c, Succeeded, start, first);
        if ok {
          return Done(applied);
        }
      }
      reply := RecordFailure(c, applied, start, first);
    }

    method FindApplyAttempt(organization: string, key: string) returns (found: Option<nat>)
      ensures found == FirstAttempt(attempts, organization, key)
    {
      for i := 0 to |attempts|
        invariant FirstAttempt(attempts[..i], organization, key).None?
      {
        assert attempts[..i + 1][..i] == attempts[..i];
        if IsFor(attempts[i], organization, key) {
          FirstStays(attempts, i + 1, organization, key);
          return Some(i);
        }
      }
      assert attempts[..|attempts|] == attempts;
      found := None;
    }

    /** From the recording of the operation on. */
    method Begin(c: CallId, p: Plan, now: int, ghost start: Store, ghost first: nat) returns (reply: Reply)
      requires OthersApart(c) && c in calls && Follows(start, c, first)
      requires calls[c].stage.LookedUp? && calls[c].plan == p && calls[c].now == now && Untouched(calls[c])
      modifies this
      ensures Follows(start, c, first) && Replied(c, old(calls)[c], reply)
      ensures old(Calm()) ==> if MayGoAhead(p, now) then reply.Done? else reply.Blocked?
    {
      Pause(c, start, first);
      var ok := CreateOperation(c, start, first);
      if !ok {
        return Interrupted;
      }
      Pause(c, start, first);
      var attempt;
      ok, attempt := CreateApplyAttempt(c, start, first);
      if !ok {
        return Interrupted;
      }
      var decision := Guard.EvaluateMassDeprovisionGuard(GuardPlan(p), p.config, p.totals, p.approval, now);
      if decision.allowed {
        reply := CarryOutAndRecord(c, p, start, first);
      } else {
        reply := RecordBlock(c, attempt, decision.preserveExistingAccess, start, first);
      }
    }

    /** The others do nothing. */
    ghost predicate Quiet() {
      forall n :: others(n) == []
    }

    lemma QuietTurnsAreOwn(c: CallId, first: nat, k: nat)
      requires Quiet()
      ensures AllOf(Woven(c, first, k), c)
      decreases k
    {
      if k > 0 {
        QuietTurnsAreOwn(c, first, k - 1);
      }
    }

    lemma TurnsAreOnRecord(start: Store, look: Action, first: nat)
      requires look.Lookup? && look.call !in start.calls && Follows(After(start, look), look.call, first)
      ensures LeftOnRecord(start, look, Database())
    {
      CallIsOnRecord(start, look, Woven(look.call, first, turn - first));
    }

    lemma QuietTurnsLeaveTheSteps(start: Store, look: Action, first: nat)
      requires look.Lookup? && look.call !in start.calls && Follows(After(start, look), look.call, first) && Quiet()
      ensures LeftItsSteps(start, look, Database())
    {
      QuietTurnsAreOwn(look.call, first, turn - first);
      QuietCallLeavesItsSteps(start, look, Woven(look.call, first, turn - first));
    }

    /** The lookup and what follows it. */
    method Run(c: CallId, p: Plan, key: string, now: int) returns (reply: Reply)
      requires OthersApart(c) && c !in calls
      modifies this
      ensures Follows(After(old(Database()), Lookup(c, p, key, now, faults(old(turn)))), c, old(turn) + 1)
      ensures c in calls && calls[c].plan == p && calls[c].key == key && calls[c].now == now &&
              calls[c].stage == Ended(reply)
      ensures Attempted(old(attempts), p.organization, key) ==>
                (reply.Repeated? || reply.Interrupted?) && Untouched(calls[c]) &&
                    Database().tables == old(Database()).tables
      ensures old(Calm()) ==>
                if Attempted(old(attempts), p.organization, key) then reply.Repeated?
                else if MayGoAhead(p, now) then reply.Done? else reply.Blocked?
    {
      ghost var looked, first := After(Database(), Lookup(c, p, key, now, faults(turn))), turn + 1;
      var existing := FindApplyAttempt(p.organization, key);
      var failed := faults(turn) != Fine;
      calls, turn := calls[c := Found(Database().tables, p, key, now, faults(turn))], turn + 1;
      assert Follows(looked, c, first);
      if failed {
        reply := Interrupted;
      } else if existing.Some? {
        reply := Repeated(existing.value);
      } else {
        reply := Begin(c, p, now, looked, first);
      }
    }

    /** `applyIdentityFederationReconciliation` as call `c`, with any steps of any other calls before each of its
        statements: a run of FederationRuns that ends the call with this reply. A key that already has an attempt is
        answered at once; if none of its own statements fails, every other call carries its plan out or is refused,
        whatever the others do. Beside other calls that do nothing, both stores are where the call has got. */
    method Apply(c: CallId, p: Plan, key: string, now: int) returns (reply: Reply)
      requires OthersApart(c) && c !in calls
      modifies this
      ensures Follows(After(old(Database()), Lookup(c, p, key, now, faults(old(turn)))), c, old(turn) + 1)
      ensures c in calls && calls[c].plan == p && calls[c].key == key && calls[c].now == now &&
              calls[c].stage == Ended(reply)
      ensures Attempted(old(attempts), p.organization, key) ==>
                (reply.Repeated? || reply.Interrupted?) && Untouched(calls[c]) &&
                    Database().tables == old(Database()).tables
      ensures LeftOnRecord(old(Database()), Lookup(c, p, key, now, faults(old(turn))), Database())
      ensures Quiet() ==> LeftItsSteps(old(Database()), Lookup(c, p, key, now, faults(old(turn))), Database())
      ensures old(Calm()) ==>
                if Attempted(old(attempts), p.organization, key) then reply.Repeated?
                else if MayGoAhead(p, now) then reply.Done? else reply.Blocked?
    {
      ghost var start, first, look := Database(), turn + 1, Lookup(c, p, key, now, faults(turn));
      reply := Run(c, p, key, now);
      TurnsAreOnRecord(start, look, first);
      if Quiet() {
        QuietTurnsLeaveTheSteps(start, look, first);
      }
    }
  }
}
