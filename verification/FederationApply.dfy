/** backend/identity-federation/reconciliationApplyService.js: carrying out a reconciliation plan against two stores,
    the remote identity provider and the local assignment rows. Any call may be lost, or take effect and then
    raise an error all the same. */
module FederationApply {
  import opened Wrappers
  import Guard = MassDeprovisionGuard

  datatype AssignmentId = Given(id: string) | Default(user: string, role: string)

  datatype Item = Item(user: string, role: string, assignment: Option<string>,
                       operationType: Option<Guard.OperationType>, reactivatedAt: Option<int>)

  datatype Step = Add(item: Item) | Remove(item: Item)

  datatype Plan = Plan(organization: string, connection: string, adds: seq<Item>, removes: seq<Item>,
                       destructive: Guard.Plan, config: Guard.Config, totals: Guard.Totals, approval: Guard.Approval)

  /** The parts of `organization|connection|assignmentId`. */
  datatype RowKey = RowKey(organization: string, connection: string, assignment: AssignmentId)

  datatype Row = Row(user: string, role: string, idempotencyKey: string)

  type Rows = map<RowKey, Row>

  datatype Role = Role(organization: string, user: string, role: string)

  datatype Status = Processing | Succeeded | Failed

  datatype Attempt = Attempt(organization: string, idempotencyKey: string, status: Status)

  // ----- What the steps do to either store -----

  function StepAt(p: Plan, i: nat): Step
    requires i < |p.adds| + |p.removes|
  {
    if i < |p.adds| then Add(p.adds[i]) else Remove(p.removes[i - |p.adds|])
  }

  /** All adds, then all removes. */
  function Steps(p: Plan): (r: seq<Step>)
    ensures |r| == |p.adds| + |p.removes|
    ensures forall i | 0 <= i < |r| :: r[i] == StepAt(p, i)
  {
    seq(|p.adds| + |p.removes|, i requires 0 <= i < |p.adds| + |p.removes| => StepAt(p, i))
  }

  function IdOf(item: Item): AssignmentId {
    if item.assignment.Some? then Given(item.assignment.value) else Default(item.user, item.role)
  }

  function KeyOf(p: Plan, s: Step): RowKey {
    RowKey(p.organization, p.connection, IdOf(s.item))
  }

  function RoleOf(p: Plan, s: Step): Role {
    Role(p.organization, s.item.user, s.item.role)
  }

  function LocalStep(rows: Rows, p: Plan, key: string, s: Step): Rows {
    match s
    case Add(item) => rows[KeyOf(p, s) := Row(item.user, item.role, key)]
    case Remove(_) => rows - {KeyOf(p, s)}
  }

  function RemoteStep(roles: set<Role>, p: Plan, s: Step): set<Role> {
    match s
    case Add(_) => roles + {RoleOf(p, s)}
    case Remove(_) => roles - {RoleOf(p, s)}
  }

  function Local(rows: Rows, p: Plan, key: string, steps: seq<Step>): Rows {
    if steps == [] then rows
    else LocalStep(Local(rows, p, key, steps[..|steps| - 1]), p, key, steps[|steps| - 1])
  }

  function Remote(roles: set<Role>, p: Plan, steps: seq<Step>): set<Role> {
    if steps == [] then roles else RemoteStep(Remote(roles, p, steps[..|steps| - 1]), p, steps[|steps| - 1])
  }

  /** How far a run got: `done` steps are reported as applied, the local store has carried out `local` of them and
      the remote store `remote`, at most one step ahead of what is reported. */
  datatype Reached = Reached(done: nat, local: nat, remote: nat)

  ghost predicate At(p: Plan, key: string, rows: Rows, roles: set<Role>, rows': Rows, roles': set<Role>, at: Reached) {
    && at.done <= at.local <= at.remote <= at.done + 1
    && at.remote <= |Steps(p)|
    && rows' == Local(rows, p, key, Steps(p)[..at.local])
    && roles' == Remote(roles, p, Steps(p)[..at.remote])
  }

  lemma NextStep(p: Plan, key: string, rows: Rows, roles: set<Role>, n: nat)
    requires n < |Steps(p)|
    ensures Local(rows, p, key, Steps(p)[..n + 1]) ==
            LocalStep(Local(rows, p, key, Steps(p)[..n]), p, key, StepAt(p, n))
    ensures Remote(roles, p, Steps(p)[..n + 1]) == RemoteStep(Remote(roles, p, Steps(p)[..n]), p, StepAt(p, n))
  {
    assert Steps(p)[..n + 1][..n] == Steps(p)[..n];
  }

  // ----- The two stores agree -----

  function RowKeyOf(p: Plan, x: Item): RowKey {
    RowKey(p.organization, p.connection, IdOf(x))
  }

  /** The role of an item is recorded locally exactly if it is granted remotely. */
  predicate InSync(rows: Rows, roles: set<Role>, p: Plan, x: Item) {
    RowKeyOf(p, x) in rows <==> Role(p.organization, x.user, x.role) in roles
  }

  predicate SamePair(x: Item, y: Item) {
    x.user == y.user && x.role == y.role
  }

  /** A step has the row of the item if and only if it has its user and role: so it is where no item carries an
      assignment id, and where every id stands for one user and role. */
  predicate KeyFollowsPair(steps: seq<Step>, x: Item) {
    forall i | 0 <= i < |steps| :: IdOf(steps[i].item) == IdOf(x) <==> SamePair(steps[i].item, x)
  }

  predicate Touches(steps: seq<Step>, x: Item) {
    exists i | 0 <= i < |steps| :: SamePair(steps[i].item, x)
  }

  lemma {:induction false} SameStepsAgree(rows: Rows, roles: set<Role>, p: Plan, key: string, steps: seq<Step>, x: Item)
    requires KeyFollowsPair(steps, x)
    requires InSync(rows, roles, p, x) || Touches(steps, x)
    ensures InSync(Local(rows, p, key, steps), Remote(roles, p, steps), p, x)
    decreases |steps|
  {
    if steps != [] {
      var last := steps[|steps| - 1];
      if !SamePair(last.item, x) {
        assert Touches(steps, x) ==> Touches(steps[..|steps| - 1], x);
        SameStepsAgree(rows, roles, p, key, steps[..|steps| - 1], x);
      }
    }
  }

  /** Wherever a run stops, a user's role is recorded locally exactly if it is granted remotely, for every pair that
      agreed before or was touched, except for the one step that the remote store may be ahead. */
  lemma StoresAgreeUpToOneStep(rows: Rows, roles: set<Role>, p: Plan, key: string, at: Reached, rows': Rows,
                               roles': set<Role>, x: Item)
    requires At(p, key, rows, roles, rows', roles', at) && KeyFollowsPair(Steps(p), x)
    requires InSync(rows, roles, p, x) || Touches(Steps(p)[..at.local], x)
    ensures InSync(rows', roles', p, x) || (at.remote == at.local + 1 && SamePair(StepAt(p, at.local).item, x))
  {
    SameStepsAgree(rows, roles, p, key, Steps(p)[..at.local], x);
    if at.remote == at.local + 1 {
      NextStep(p, key, rows, roles, at.local);
    }
  }

  // ----- Trying again -----

  predicate TouchesKey(p: Plan, steps: seq<Step>, k: RowKey) {
    exists i | 0 <= i < |steps| :: KeyOf(p, steps[i]) == k
  }

  predicate TouchesRole(p: Plan, steps: seq<Step>, r: Role) {
    exists i | 0 <= i < |steps| :: RoleOf(p, steps[i]) == r
  }

  predicate SameAt(a: Rows, b: Rows, k: RowKey) {
    (k in a <==> k in b) && (k in a ==> a[k] == b[k])
  }

  lemma {:induction false} LocalForgets(a: Rows, b: Rows, p: Plan, key: string, steps: seq<Step>, k: RowKey)
    requires SameAt(a, b, k) || TouchesKey(p, steps, k)
    ensures SameAt(Local(a, p, key, steps), Local(b, p, key, steps), k)
    decreases |steps|
  {
    if steps != [] && KeyOf(p, steps[|steps| - 1]) != k {
      assert TouchesKey(p, steps, k) ==> TouchesKey(p, steps[..|steps| - 1], k);
      LocalForgets(a, b, p, key, steps[..|steps| - 1], k);
    }
  }

  lemma {:induction false} LocalLeaves(rows: Rows, p: Plan, key: string, steps: seq<Step>, k: RowKey)
    requires !TouchesKey(p, steps, k)
    ensures SameAt(Local(rows, p, key, steps), rows, k)
    decreases |steps|
  {
    if steps != [] {
      assert KeyOf(p, steps[|steps| - 1]) != k;
      assert !TouchesKey(p, steps[..|steps| - 1], k);
      LocalLeaves(rows, p, key, steps[..|steps| - 1], k);
    }
  }

  lemma {:induction false} RemoteForgets(a: set<Role>, b: set<Role>, p: Plan, steps: seq<Step>, r: Role)
    requires (r in a <==> r in b) || TouchesRole(p, steps, r)
    ensures r in Remote(a, p, steps) <==> r in Remote(b, p, steps)
    decreases |steps|
  {
    if steps != [] && RoleOf(p, steps[|steps| - 1]) != r {
      assert TouchesRole(p, steps, r) ==> TouchesRole(p, steps[..|steps| - 1], r);
      RemoteForgets(a, b, p, steps[..|steps| - 1], r);
    }
  }

  lemma {:induction false} RemoteLeaves(roles: set<Role>, p: Plan, steps: seq<Step>, r: Role)
    requires !TouchesRole(p, steps, r)
    ensures r in Remote(roles, p, steps) <==> r in roles
    decreases |steps|
  {
    if steps != [] {
      assert RoleOf(p, steps[|steps| - 1]) != r;
      assert !TouchesRole(p, steps[..|steps| - 1], r);
      RemoteLeaves(roles, p, steps[..|steps| - 1], r);
    }
  }

  lemma PrefixTouchesNoMore(p: Plan, steps: seq<Step>, n: nat, k: RowKey, r: Role)
    requires n <= |steps|
    ensures TouchesKey(p, steps[..n], k) ==> TouchesKey(p, steps, k)
    ensures TouchesRole(p, steps[..n], r) ==> TouchesRole(p, steps, r)
  {
    if i :| 0 <= i < n && KeyOf(p, steps[..n][i]) == k {
      assert KeyOf(p, steps[i]) == k;
    }
    if i :| 0 <= i < n && RoleOf(p, steps[..n][i]) == r {
      assert RoleOf(p, steps[i]) == r;
    }
  }

  /** A run that stopped anywhere and a complete run of the same plan under a new key leave both stores exactly as
      the complete run alone would have. */
  lemma TryingAgainHeals(rows: Rows, roles: set<Role>, p: Plan, key: string, at: Reached, rows': Rows,
                         roles': set<Role>, newKey: string)
    requires At(p, key, rows, roles, rows', roles', at)
    ensures Local(rows', p, newKey, Steps(p)) == Local(rows, p, newKey, Steps(p))
    ensures Remote(roles', p, Steps(p)) == Remote(roles, p, Steps(p))
  {
    forall k: RowKey
      ensures SameAt(Local(rows', p, newKey, Steps(p)), Local(rows, p, newKey, Steps(p)), k)
    {
      if !TouchesKey(p, Steps(p), k) {
        PrefixTouchesNoMore(p, Steps(p), at.local, k, Role("", "", ""));
        LocalLeaves(rows, p, key, Steps(p)[..at.local], k);
      }
      LocalForgets(rows', rows, p, newKey, Steps(p), k);
    }
    SameEverywhere(Local(rows', p, newKey, Steps(p)), Local(rows, p, newKey, Steps(p)));
    forall r: Role
      ensures r in Remote(roles', p, Steps(p)) <==> r in Remote(roles, p, Steps(p))
    {
      if !TouchesRole(p, Steps(p), r) {
        PrefixTouchesNoMore(p, Steps(p), at.remote, RowKey("", "", Given("")), r);
        RemoteLeaves(roles, p, Steps(p)[..at.remote], r);
      }
      RemoteForgets(roles', roles, p, Steps(p), r);
    }
  }

  lemma SameEverywhere(a: Rows, b: Rows)
    requires forall k: RowKey :: SameAt(a, b, k)
    ensures a == b
  {
    forall k | k in a
      ensures k in b && a[k] == b[k]
    {
      assert SameAt(a, b, k);
    }
    forall k | k in b
      ensures k in a
    {
      assert SameAt(a, b, k);
    }
  }

  // ----- The guard's view of a plan -----

  function GuardItems(items: seq<Item>): seq<Guard.Item> {
    seq(|items|, i requires 0 <= i < |items| =>
        Guard.Item(Some(items[i].user), items[i].operationType, items[i].reactivatedAt))
  }

  function GuardPlan(p: Plan): Guard.Plan {
    p.destructive.(removes := GuardItems(p.removes))
  }

  predicate MayGoAhead(p: Plan, now: int) {
    Guard.Allowed(GuardPlan(p), p.config, p.totals, p.approval, now)
  }

  /** A refused plan promises to preserve existing access unless the cooldown alone refuses it. */
  predicate PreservesAccess(p: Plan) {
    exists v: Guard.Violation :: Guard.Violates(Guard.Destructive(GuardPlan(p)), p.config, p.totals, p.approval, v)
  }

  // ----- Attempts -----

  predicate IsFor(a: Attempt, organization: string, key: string) {
    a.organization == organization && a.idempotencyKey == key
  }

  predicate Attempted(attempts: seq<Attempt>, organization: string, key: string) {
    exists i | 0 <= i < |attempts| :: IsFor(attempts[i], organization, key)
  }

  predicate OneAttemptPerKey(attempts: seq<Attempt>) {
    forall i, j | 0 <= i < j < |attempts| :: !IsFor(attempts[j], attempts[i].organization, attempts[i].idempotencyKey)
  }

  /** What becomes of a call to either store. */
  datatype Fault = Fine | Lost | Unacknowledged

  /** `Interrupted` is an error that escapes without the failure having been fully recorded. */
  datatype Reply = Repeated(attempt: nat) | Blocked(attempt: nat, preserveExistingAccess: bool)
                 | Done(applied: seq<Step>) | Stopped(applied: seq<Step>) | Interrupted
}
