/** backend/identity-federation/massDeprovisionGuard.js: may a plan with many destructive items be carried out? */
module MassDeprovisionGuard {
  import opened Wrappers
  import opened Sets

  datatype OperationType = UserDelete | GroupDelete | ActiveFalse | MembershipRemove | MembershipReplace
                         | ReconciliationApply | AnotherOperation

  /** What the guard reads of an item. Only `removes` keep an operation type of their own. */
  datatype Item = Item(user: Option<string>, operationType: Option<OperationType>, reactivatedAt: Option<int>)

  datatype Plan = Plan(userDeletes: seq<Item>, groupDeletes: seq<Item>, activeFalseUsers: seq<Item>,
                       membershipRemoves: seq<Item>, removes: seq<Item>, replaceRemoves: seq<Item>)

  /** Every limit is a finite number that is not negative, or its default. */
  datatype Config = Config(maxAbsoluteRemovals: real, maxActiveUsersPercent: real, maxMembershipsPercent: real,
                           manualApprovalThreshold: real, reactivationCooldownMinutes: real)

  datatype Totals = Totals(activeUsers: int, memberships: int)

  datatype Approval = Approval(manualApproval: bool, emergencyFailClosed: bool)

  datatype Violation = MaxAbsoluteRemovals | MaxActiveUsersPercent | MaxMembershipsPercent | ManualApprovalThreshold

  datatype Decision = Decision(allowed: bool, preserveExistingAccess: bool, emergency: bool, violations: seq<Violation>,
                               cooldownBlocked: bool, event: bool)

  const DEFAULTS := Config(25.0, 10.0, 10.0, 10.0, 60.0)

  /** A setting as it arrives; `None` stands for everything `Number` does not turn into a finite number. */
  datatype Settings = Settings(maxAbsoluteRemovals: Option<real>, maxActiveUsersPercent: Option<real>,
                               maxMembershipsPercent: Option<real>, manualApprovalThreshold: Option<real>,
                               reactivationCooldownMinutes: Option<real>)

  function NumberOrDefault(n: Option<real>, fallback: real): (r: real)
    requires fallback >= 0.0
    ensures r >= 0.0 && (r == fallback || n == Some(r))
  {
    if n.Some? && n.value >= 0.0 then n.value else fallback
  }

  function NormalizeGuardConfig(s: Settings): (c: Config)
    ensures c.maxAbsoluteRemovals >= 0.0 && c.maxActiveUsersPercent >= 0.0 && c.maxMembershipsPercent >= 0.0
    ensures c.manualApprovalThreshold >= 0.0 && c.reactivationCooldownMinutes >= 0.0
  {
    Config(NumberOrDefault(s.maxAbsoluteRemovals, DEFAULTS.maxAbsoluteRemovals),
           NumberOrDefault(s.maxActiveUsersPercent, DEFAULTS.maxActiveUsersPercent),
           NumberOrDefault(s.maxMembershipsPercent, DEFAULTS.maxMembershipsPercent),
           NumberOrDefault(s.manualApprovalThreshold, DEFAULTS.manualApprovalThreshold),
           NumberOrDefault(s.reactivationCooldownMinutes, DEFAULTS.reactivationCooldownMinutes))
  }

  function Typed(items: seq<Item>, t: OperationType): seq<Item> {
    if items == [] then [] else Typed(items[..|items| - 1], t) + [items[|items| - 1].(operationType := Some(t))]
  }

  /** `removes`: the item's own type if it has one; types outside the destructive ones are filtered out. */
  function Removes(items: seq<Item>): seq<Item> {
    if items == [] then []
    else
      var last := items[|items| - 1];
      var t := if last.operationType.Some? then last.operationType.value else MembershipRemove;
      Removes(items[..|items| - 1]) + if t == AnotherOperation then [] else [last.(operationType := Some(t))]
  }

  function Destructive(p: Plan): seq<Item> {
    Typed(p.userDeletes, UserDelete) + Typed(p.groupDeletes, GroupDelete) + Typed(p.activeFalseUsers, ActiveFalse) +
    Typed(p.membershipRemoves, MembershipRemove) + Removes(p.removes) + Typed(p.replaceRemoves, MembershipReplace)
  }

  function Users(items: seq<Item>): set<string> {
    set i | i in items && i.user.Some? :: i.user.value
  }

  predicate TouchesMembership(i: Item) {
    i.operationType == Some(MembershipRemove) || i.operationType == Some(MembershipReplace)
  }

  function Memberships(items: seq<Item>): nat {
    if items == [] then 0
    else Memberships(items[..|items| - 1]) + if TouchesMembership(items[|items| - 1]) then 1 else 0
  }

  /** `percent(count, total) > limit`, without the rounding of a division. */
  predicate ExceedsPercent(count: nat, total: int, limit: real) {
    total > 0 && (count * 100) as real > limit * total as real
  }

  predicate CoolingDown(i: Item, config: Config, now: int) {
    i.reactivatedAt.Some? && (now - i.reactivatedAt.value) as real < config.reactivationCooldownMinutes * 60000.0
  }

  predicate Violates(items: seq<Item>, config: Config, totals: Totals, approval: Approval, v: Violation) {
    match v
    case MaxAbsoluteRemovals => |items| as real > config.maxAbsoluteRemovals
    case MaxActiveUsersPercent => ExceedsPercent(|Users(items)|, totals.activeUsers, config.maxActiveUsersPercent)
    case MaxMembershipsPercent => ExceedsPercent(Memberships(items), totals.memberships, config.maxMembershipsPercent)
    case ManualApprovalThreshold => |items| as real >= config.manualApprovalThreshold && !approval.manualApproval
  }

  predicate Blocked(items: seq<Item>, config: Config, totals: Totals, approval: Approval, now: int) {
    (exists v: Violation :: Violates(items, config, totals, approval, v)) ||
        (exists i | i in items :: CoolingDown(i, config, now))
  }

  predicate Emergency(approval: Approval) {
    approval.emergencyFailClosed && approval.manualApproval
  }

  predicate Allowed(plan: Plan, config: Config, totals: Totals, approval: Approval, now: int) {
    !Blocked(Destructive(plan), config, totals, approval, now) || Emergency(approval)
  }

  method CountMemberships(items: seq<Item>) returns (n: nat)
    ensures n == Memberships(items)
  {
    n := 0;
    for k := 0 to |items|
      invariant n == Memberships(items[..k])
    {
      assert items[..k + 1][..k] == items[..k];
      if TouchesMembership(items[k]) {
        n := n + 1;
      }
    }
    assert items[..|items|] == items;
  }

  method AffectedUsers(items: seq<Item>) returns (users: set<string>)
    ensures users == Users(items)
  {
    users := {};
    for k := 0 to |items|
      invariant users == Users(items[..k])
    {
      assert items[..k + 1] == items[..k] + [items[k]];
      if items[k].user.Some? {
        users := users + {items[k].user.value};
      }
    }
    assert items[..|items|] == items;
  }

  method AnyCoolingDown(items: seq<Item>, config: Config, now: int) returns (found: bool)
    ensures found == exists i | i in items :: CoolingDown(i, config, now)
  {
    for k := 0 to |items|
      invariant forall j | 0 <= j < k :: !CoolingDown(items[j], config, now)
    {
      if CoolingDown(items[k], config, now) {
        return true;
      }
    }
    found := false;
  }

  predicate Lists(violations: seq<Violation>, items: seq<Item>, config: Config, totals: Totals, approval: Approval) {
    && (MaxAbsoluteRemovals in violations <==> Violates(items, config, totals, approval, MaxAbsoluteRemovals))
    && (MaxActiveUsersPercent in violations <==> Violates(items, config, totals, approval, MaxActiveUsersPercent))
    && (MaxMembershipsPercent in violations <==> Violates(items, config, totals, approval, MaxMembershipsPercent))
    && (ManualApprovalThreshold in violations <==> Violates(items, config, totals, approval, ManualApprovalThreshold))
  }

  lemma ListedIffAny(violations: seq<Violation>, items: seq<Item>, config: Config, totals: Totals, approval: Approval)
    requires Lists(violations, items, config, totals, approval)
    ensures violations != [] <==> exists v: Violation :: Violates(items, config, totals, approval, v)
    ensures forall v :: v in violations <==> Violates(items, config, totals, approval, v)
  {
    forall v: Violation
      ensures v in violations <==> Violates(items, config, totals, approval, v)
    {
      match v {
        case MaxAbsoluteRemovals =>
        case MaxActiveUsersPercent =>
        case MaxMembershipsPercent =>
        case ManualApprovalThreshold =>
      }
    }
    if violations != [] {
      assert violations[0] in violations;
    }
  }

  /** Violations are pushed in a fixed order, each at most once. */
  method CollectViolations(items: seq<Item>, config: Config, totals: Totals, approval: Approval)
    returns (violations: seq<Violation>)
    ensures Lists(violations, items, config, totals, approval) && |violations| <= 4
  {
    var users := AffectedUsers(items);
    var memberships := CountMemberships(items);
    violations := [];
    if |items| as real > config.maxAbsoluteRemovals {
      violations := violations + [MaxAbsoluteRemovals];
    }
    if ExceedsPercent(|users|, totals.activeUsers, config.maxActiveUsersPercent) {
      violations := violations + [MaxActiveUsersPercent];
    }
    if ExceedsPercent(memberships, totals.memberships, config.maxMembershipsPercent) {
      violations := violations + [MaxMembershipsPercent];
    }
    if |items| as real >= config.manualApprovalThreshold && !approval.manualApproval {
      violations := violations + [ManualApprovalThreshold];
    }
  }

  /** The plan goes ahead exactly when there is no violation and nothing is cooling down, or both emergency flags
      are set. A plan stopped by the cooldown alone is refused without the promise to preserve existing access. */
  method EvaluateMassDeprovisionGuard(plan: Plan, config: Config, totals: Totals, approval: Approval, now: int)
    returns (d: Decision)
    ensures d.allowed == Allowed(plan, config, totals, approval, now)
    ensures forall v :: v in d.violations <==> Violates(Destructive(plan), config, totals, approval, v)
    ensures d.event == Blocked(Destructive(plan), config, totals, approval, now)
    ensures d.emergency == Emergency(approval)
    ensures d.cooldownBlocked <==> exists i | i in Destructive(plan) :: CoolingDown(i, config, now)
    ensures !d.allowed && !d.preserveExistingAccess <==>
            !d.emergency && d.cooldownBlocked && forall v: Violation ::
                  !Violates(Destructive(plan), config, totals, approval, v)
    ensures d.allowed ==> !d.preserveExistingAccess
  {
    var items := Destructive(plan);
    var violations := CollectViolations(items, config, totals, approval);
    ListedIffAny(violations, items, config, totals, approval);
    var cooling := AnyCoolingDown(items, config, now);
    var emergency := approval.emergencyFailClosed && approval.manualApproval;
    d := Decision((violations == [] && !cooling) || emergency, violations != [] && !emergency, emergency, violations,
                  cooling, violations != [] || cooling);
  }

  // ----- Larger plans are no easier to get through -----

  /** Every destructive list holds at least the same items, in any order. */
  predicate Enlarges(p: Plan, q: Plan) {
    && multiset(p.userDeletes) <= multiset(q.userDeletes)
    && multiset(p.groupDeletes) <= multiset(q.groupDeletes)
    && multiset(p.activeFalseUsers) <= multiset(q.activeFalseUsers)
    && multiset(p.membershipRemoves) <= multiset(q.membershipRemoves)
    && multiset(p.removes) <= multiset(q.removes)
    && multiset(p.replaceRemoves) <= multiset(q.replaceRemoves)
  }

  /** The list without one occurrence of an item. */
  function Without(items: seq<Item>, x: Item): (r: seq<Item>)
    requires x in items
    ensures multiset(r) == multiset(items) - multiset{x}
  {
    var n := |items| - 1;
    assert items == items[..n] + [items[n]];
    if items[n] == x then items[..n] else Without(items[..n], x) + [items[n]]
  }

  lemma TypedAppended(items: seq<Item>, x: Item, t: OperationType)
    ensures multiset(Typed(items + [x], t)) == multiset(Typed(items, t)) + multiset{x.(operationType := Some(t))}
  {
    assert (items + [x])[..|items|] == items;
  }

  lemma {:induction false} TypedWithout(items: seq<Item>, x: Item, t: OperationType)
    requires x in items
    ensures multiset(Typed(items, t)) == multiset(Typed(Without(items, x), t)) + multiset{x.(operationType := Some(t))}
    decreases |items|
  {
    var n := |items| - 1;
    assert items == items[..n] + [items[n]];
    TypedAppended(items[..n], items[n], t);
    if items[n] != x {
      TypedWithout(items[..n], x, t);
      TypedAppended(Without(items[..n], x), items[n], t);
    }
  }

  lemma {:induction false} TypedGrows(p: seq<Item>, q: seq<Item>, t: OperationType)
    requires multiset(p) <= multiset(q)
    ensures multiset(Typed(p, t)) <= multiset(Typed(q, t))
    decreases |p|
  {
    if p != [] {
      var n := |p| - 1;
      assert p == p[..n] + [p[n]];
      assert p[n] in multiset(q);
      TypedWithout(q, p[n], t);
      TypedGrows(p[..n], Without(q, p[n]), t);
    }
  }

  function RemovesOne(x: Item): multiset<Item> {
    multiset(Removes([x]))
  }

  lemma RemovesLast(items: seq<Item>)
    requires items != []
    ensures multiset(Removes(items)) == multiset(Removes(items[..|items| - 1])) + RemovesOne(items[|items| - 1])
  {
    var last := items[|items| - 1];
    assert [last][..0] == [];
    assert Removes([last]) == Removes([]) + Removes(items)[|Removes(items[..|items| - 1])|..];
  }

  lemma {:induction false} RemovesWithout(items: seq<Item>, x: Item)
    requires x in items
    ensures multiset(Removes(items)) == multiset(Removes(Without(items, x))) + RemovesOne(x)
    decreases |items|
  {
    var n := |items| - 1;
    assert items == items[..n] + [items[n]];
    RemovesLast(items);
    if items[n] != x {
      RemovesWithout(items[..n], x);
      var w := Without(items, x);
      assert w[..|w| - 1] == Without(items[..n], x);
      RemovesLast(w);
    }
  }

  lemma {:induction false} RemovesGrows(p: seq<Item>, q: seq<Item>)
    requires multiset(p) <= multiset(q)
    ensures multiset(Removes(p)) <= multiset(Removes(q))
    decreases |p|
  {
    if p != [] {
      var n := |p| - 1;
      assert p == p[..n] + [p[n]];
      assert p[n] in multiset(q);
      RemovesLast(p);
      RemovesWithout(q, p[n]);
      RemovesGrows(p[..n], Without(q, p[n]));
    }
  }

  lemma SixParts(a: seq<Item>, b: seq<Item>, c: seq<Item>, d: seq<Item>, e: seq<Item>, f: seq<Item>)
    ensures multiset(a + b + c + d + e + f) ==
            multiset(a) + multiset(b) + multiset(c) + multiset(d) + multiset(e) + multiset(f)
  {
  }

  lemma DestructiveGrows(p: Plan, q: Plan)
    requires Enlarges(p, q)
    ensures multiset(Destructive(p)) <= multiset(Destructive(q))
  {
    TypedGrows(p.userDeletes, q.userDeletes, UserDelete);
    TypedGrows(p.groupDeletes, q.groupDeletes, GroupDelete);
    TypedGrows(p.activeFalseUsers, q.activeFalseUsers, ActiveFalse);
    TypedGrows(p.membershipRemoves, q.membershipRemoves, MembershipRemove);
    RemovesGrows(p.removes, q.removes);
    TypedGrows(p.replaceRemoves, q.replaceRemoves, MembershipReplace);
    SixParts(Typed(p.userDeletes, UserDelete), Typed(p.groupDeletes, GroupDelete),
             Typed(p.activeFalseUsers, ActiveFalse),
             Typed(p.membershipRemoves, MembershipRemove), Removes(p.removes),
                 Typed(p.replaceRemoves, MembershipReplace));
    SixParts(Typed(q.userDeletes, UserDelete), Typed(q.groupDeletes, GroupDelete),
             Typed(q.activeFalseUsers, ActiveFalse),
             Typed(q.membershipRemoves, MembershipRemove), Removes(q.removes),
                 Typed(q.replaceRemoves, MembershipReplace));
  }

  lemma {:induction false} MembershipsWithout(items: seq<Item>, x: Item)
    requires x in items
    ensures Memberships(items) == Memberships(Without(items, x)) + if TouchesMembership(x) then 1 else 0
    decreases |items|
  {
    var n := |items| - 1;
    if items[n] != x {
      MembershipsWithout(items[..n], x);
      var w := Without(items, x);
      assert w[..|w| - 1] == Without(items[..n], x);
    }
  }

  lemma {:induction false} MembershipsGrow(p: seq<Item>, q: seq<Item>)
    requires multiset(p) <= multiset(q)
    ensures Memberships(p) <= Memberships(q)
    decreases |p|
  {
    if p != [] {
      var n := |p| - 1;
      assert p == p[..n] + [p[n]];
      assert p[n] in multiset(q);
      MembershipsWithout(q, p[n]);
      MembershipsGrow(p[..n], Without(q, p[n]));
    }
  }

  lemma LargerStaysBlocked(p: seq<Item>, q: seq<Item>, config: Config, totals: Totals, approval: Approval, now: int)
    requires multiset(p) <= multiset(q)
    requires Blocked(p, config, totals, approval, now)
    ensures Blocked(q, config, totals, approval, now)
  {
    forall i | i in p
      ensures i in q
    {
      assert i in multiset(p);
    }
    assert |p| == |multiset(p)| <= |multiset(q)| == |q| by {
      assert multiset(q) == multiset(p) + (multiset(q) - multiset(p));
    }
    if v: Violation :| Violates(p, config, totals, approval, v) {
      SubsetSize(Users(p), Users(q));
      MembershipsGrow(p, q);
      assert Violates(q, config, totals, approval, v);
    }
  }

  /** Adding items to a blocked plan never gets it through. */
  lemma LargerPlansStayBlocked(p: Plan, q: Plan, config: Config, totals: Totals, approval: Approval, now: int)
    requires Enlarges(p, q) && !Allowed(p, config, totals, approval, now)
    ensures !Allowed(q, config, totals, approval, now)
  {
    DestructiveGrows(p, q);
    LargerStaysBlocked(Destructive(p), Destructive(q), config, totals, approval, now);
  }
}
