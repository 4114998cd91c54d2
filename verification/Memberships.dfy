/** Memberships of units: backend/organization-structure/unitMembershipService.js, together with the unit calls
    of unitService.js, run one call after another. */
module Memberships {
  import opened Wrappers
  import opened UnitForest

  datatype Relationship = Leads | Teaches | Manages | Member | Supports | Studies | AssignedTo | UnknownRelationship

  datatype MemberStatus = Scheduled | Current | Revoked

  /** What `findMembershipIdentity` compares; an absent role is the empty string. */
  datatype Identity = Identity(unit: UnitId, user: string, relationship: Relationship, role: string)

  datatype Membership = Membership(organization: Org, identity: Identity, validFrom: int, validUntil: Option<int>,
                                   status: MemberStatus)

  /** Position in the list is the number in `membership_<n>`. */
  type Members = seq<Membership>

  datatype MemberError = UnitUnknown | UnitNotActive | RelationshipUnknown | RoleRequired | EndsBeforeItBegins
                       | Duplicate | MembershipUnknown

  datatype State = State(units: Units, members: Members, graph: map<Org, nat>, membership: map<Org, nat>)

  datatype Call =
    | OnUnits(request: Request)
    | Assign(organization: Org, identity: Identity, validFrom: int, validUntil: Option<int>, now: int)
    | Revoke(organization: Org, id: nat)

  datatype Reply =
    | Saved(id: UnitId)
    | Found(stableKey: string)
    | UnitError(error: Error)
    | MemberSaved(member: nat)
    | MembershipError(memberError: MemberError)

  // ----- Registries -----

  function UnitTypesFor(r: Relationship): set<UnitType> {
    match r
    case Leads => {AcademicDivision, AcademicDepartment, AdministrativeDepartment, Campus, Program, Team}
    case Teaches => {AcademicDepartment, AcademicDivision, Program}
    case Manages => {AdministrativeDepartment, Team, Campus}
    case Member => {AcademicDivision, AcademicDepartment, AdministrativeDepartment, Campus, Program, Team, Custom}
    case Supports => {AdministrativeDepartment, Team, Custom}
    case Studies => {AcademicDivision, Program}
    case AssignedTo => {Custom, Team}
    case UnknownRelationship => {}
  }

  predicate NeedsRole(r: Relationship) {
    r in {Leads, Teaches, Manages}
  }

  // ----- Validity in time -----

  predicate IsEffective(m: Membership, now: int) {
    m.status == Current && m.validFrom <= now && (m.validUntil.None? || now < m.validUntil.value)
  }

  /** The earlier of the two ends that still lie ahead. */
  function NextBoundary(m: Membership, now: int): Option<int> {
    var from := if m.validFrom > now then Some(m.validFrom) else None;
    var until := if m.validUntil.Some? && m.validUntil.value > now then m.validUntil else None;
    if from.None? then until
    else if until.None? then from
    else Some(if until.value < from.value then until.value else from.value)
  }

  /** Whether a membership is effective can be cached exactly until its next boundary: nothing changes before it,
      and a current membership with a non-empty period does change at it. */
  lemma EffectiveUntilNextBoundary(m: Membership, now: int, later: int)
    requires now <= later
    ensures NextBoundary(m, now).None? || later < NextBoundary(m, now).value ==>
              IsEffective(m, later) == IsEffective(m, now)
    ensures NextBoundary(m, now) == Some(later) && m.status == Current &&
            (m.validUntil.Some? ==> m.validFrom < m.validUntil.value) ==>
              IsEffective(m, later) != IsEffective(m, now)
  {
  }

  // ----- One call -----

  predicate HasActiveMembers(members: Members, org: Org, unit: UnitId) {
    exists i | 0 <= i < |members| ::
      members[i].organization == org && members[i].identity.unit == unit && members[i].status == Current
  }

  /** The request with the answer of `listMemberships` filled in. */
  function Informed(members: Members, r: Request): Request {
    if r.Archive? then r.(hasActiveMembers := HasActiveMembers(members, r.organization, r.unit)) else r
  }

  function Bumped(versions: map<Org, nat>, org: Org): map<Org, nat> {
    versions[org := VersionOf(versions, org) + 1]
  }

  /** `bumpVersion` compares the version a reparenting expected once the new parent is stored. */
  predicate Stale(graph: map<Org, nat>, r: Request) {
    r.Reparent? && r.expectedVersion.Some? && r.expectedVersion.value != VersionOf(graph, r.organization)
  }

  function UnitVerdict(s: State, r: Request): Verdict {
    Decide(s.units, VersionOf(s.graph, r.organization), Informed(s.members, r))
  }

  function AfterUnitCall(s: State, r: Request): State {
    var v := UnitVerdict(s, r);
    if !v.Proceed? then s
    else s.(units := Written(s.units, v.write),
            graph := if Stale(s.graph, r) then s.graph else Bumped(s.graph, r.organization))
  }

  function Touched(units: Units, w: Write): UnitId {
    match w
    case Insert(_) => NextId(units)
    case SetParent(id, _) => id
    case SetStatus(id, _) => id
  }

  function UnitReply(s: State, r: Request): Reply {
    var v := UnitVerdict(s, r);
    match v
    case Refused(e) => UnitError(e)
    case AlreadyThere => Found(if r.Create? then r.stableKey else "")
    case Proceed(w) => if Stale(s.graph, r) then UnitError(VersionConflict) else Saved(Touched(s.units, w))
  }

  predicate IdentityTaken(members: Members, identity: Identity) {
    exists i | 0 <= i < |members| :: members[i].identity == identity
  }

  function AssignError(units: Units, members: Members, org: Org, identity: Identity, from: int,
                       until: Option<int>): Option<MemberError> {
    if !OwnUnit(units, org, identity.unit) then Some(UnitUnknown)
    else if units[identity.unit].unit.status != Active then Some(UnitNotActive)
    else if units[identity.unit].unit.unitType !in UnitTypesFor(identity.relationship) then Some(RelationshipUnknown)
    else if NeedsRole(identity.relationship) && identity.role == "" then Some(RoleRequired)
    else if until.Some? && until.value <= from then Some(EndsBeforeItBegins)
    else if IdentityTaken(members, identity) then Some(Duplicate)
    else None
  }

  function Assigned(org: Org, identity: Identity, from: int, until: Option<int>, now: int): Membership {
    Membership(org, identity, from, until, if from <= now then Current else Scheduled)
  }

  predicate Revocable(members: Members, org: Org, id: nat) {
    id < |members| && members[id].organization == org
  }

  function AfterRevoke(members: Members, org: Org, id: nat): Members {
    if Revocable(members, org, id) then members[id := members[id].(status := Revoked)] else members
  }

  function After(s: State, c: Call): State {
    match c
    case OnUnits(r) => AfterUnitCall(s, r)
    case Assign(org, identity, from, until, now) =>
      if AssignError(s.units, s.members, org, identity, from, until).Some? then s
      else s.(members := s.members + [Assigned(org, identity, from, until, now)],
              membership := Bumped(s.membership, org))
    case Revoke(org, id) =>
      if Revocable(s.members, org, id)
      then s.(members := AfterRevoke(s.members, org, id), membership := Bumped(s.membership, org))
      else s
  }

  function Exec(s: State, calls: seq<Call>): State
    decreases |calls|
  {
    if calls == [] then s else Exec(After(s, calls[0]), calls[1..])
  }

  /** An error leaves the units as they were, unless the error is the version conflict of a reparenting: that one
      is raised when the new parent is already stored, and only the version counter tells. */
  lemma ErrorsLeaveUnitsUnlessStale(s: State, r: Request)
    requires UnitReply(s, r).UnitError?
    ensures AfterUnitCall(s, r).graph == s.graph && AfterUnitCall(s, r).members == s.members
    ensures AfterUnitCall(s, r).units != s.units <==>
            Stale(s.graph, r) && UnitVerdict(s, r).Proceed? && s.units[r.unit].unit.parent != r.parent
  {
    var v := UnitVerdict(s, r);
    if Stale(s.graph, r) && v.Proceed? {
      assert v.write == SetParent(r.unit, r.parent);
      assert Written(s.units, v.write)[r.unit].unit.parent == r.parent;
    }
  }

  /** A call moves exactly one counter of its organization by one, or it is refused and moves none; a stale
      reparenting counts as refused. */
  lemma OneCounterPerCall(s: State, c: Call)
    ensures var s' := After(s, c);
            match c
            case OnUnits(r) =>
              && s'.membership == s.membership
              && s'.graph == if UnitReply(s, r).Saved? then Bumped(s.graph, r.organization) else s.graph
            case Assign(org, _, _, _, _) =>
              && s'.graph == s.graph && s'.units == s.units
              && s'.membership == if |s'.members| > |s.members| then Bumped(s.membership, org) else s.membership
            case Revoke(org, id) =>
              && s'.graph == s.graph && s'.units == s.units && |s'.members| == |s.members|
              && s'.membership == if Revocable(s.members, org, id) then Bumped(s.membership, org) else s.membership
  {
  }

  // ----- Stable keys -----

  /** A stable key names at most one unit of an organization. */
  ghost predicate KeysAreUnique(units: Units) {
    forall i, j | Exists(units, i) && Exists(units, j) && units[i].unit.organization == units[j].unit.organization &&
                  units[i].unit.stableKey == units[j].unit.stableKey :: i == j
  }

  lemma CallKeepsKeysUnique(s: State, c: Call)
    requires KeysAreUnique(s.units)
    ensures KeysAreUnique(After(s, c).units)
  {
    if c.OnUnits? && UnitVerdict(s, c.request).Proceed? {
      var w := UnitVerdict(s, c.request).write;
      var after := Written(s.units, w);
      forall id | Exists(after, id)
        ensures (w.Insert? && id == NextId(s.units)) ||
                (Exists(s.units, id) && after[id].unit.stableKey == s.units[id].unit.stableKey &&
                 after[id].unit.organization == s.units[id].unit.organization)
      {
      }
      if w.Insert? {
        assert !KeyTaken(s.units, w.unit.organization, w.unit.stableKey);
      }
    }
  }

  /** Calls that run one after another keep stable keys unique. */
  lemma {:induction false} StableKeysStayUnique(s: State, calls: seq<Call>)
    requires KeysAreUnique(s.units)
    ensures KeysAreUnique(Exec(s, calls).units)
    decreases |calls|
  {
    if calls != [] {
      CallKeepsKeysUnique(s, calls[0]);
      StableKeysStayUnique(After(s, calls[0]), calls[1..]);
    }
  }

  lemma InsertedTwice(units: Units, u: Unit)
    requires NextIdIsFree(units)
    ensures !KeysAreUnique(Written(Written(units, Insert(u)), Insert(u)))
  {
    var once := Written(units, Insert(u));
    var twice := Written(once, Insert(u));
    assert NextId(units) !in units;
    assert NextId(once) == Numbered(|units| + 2);
    assert Exists(twice, NextId(units)) && Exists(twice, NextId(once));
    assert twice[NextId(units)] == twice[NextId(once)] == Known(u);
  }

  /** Four steps of two calls: both check, then both write. */
  function Overlapped(s: UnitForest.Store, r: Request): UnitForest.Store {
    UnitForest.After(UnitForest.After(UnitForest.After(UnitForest.After(s, Start(0, r)), Start(1, r)), Finish(0)),
                     Finish(1))
  }

  lemma BothWrite(s: UnitForest.Store, r: Request, w: Write)
    requires Decide(s.units, VersionOf(s.versions, r.organization), r) == Proceed(w)
    ensures Overlapped(s, r).units == Written(Written(s.units, w), w)
  {
  }

  /** Two creations that overlap do not keep them unique: whatever unit may be created, two calls for it that both
      check before either writes store it twice under one key. */
  lemma OverlappingCreationsRepeatTheKey(s: UnitForest.Store, r: Request)
    requires r.Create? && NextIdIsFree(s.units) && Decide(s.units, VersionOf(s.versions, r.organization), r).Proceed?
    ensures !KeysAreUnique(Overlapped(s, r).units)
  {
    var w := Decide(s.units, VersionOf(s.versions, r.organization), r).write;
    BothWrite(s, r, w);
    InsertedTwice(s.units, w.unit);
  }

  // ----- Memberships over runs -----

  predicate Distinct(members: Members) {
    forall i, j | 0 <= i < j < |members| :: members[i].identity != members[j].identity
  }

  /** Memberships are appended and revoked, and otherwise never change. */
  predicate Grown(before: Members, after: Members) {
    && |before| <= |after|
    && forall i | 0 <= i < |before| :: after[i] == before[i] || after[i] == before[i].(status := Revoked)
  }

  lemma AfterGrows(s: State, c: Call)
    requires Distinct(s.members)
    ensures Distinct(After(s, c).members) && Grown(s.members, After(s, c).members)
  {
  }

  lemma GrownTwice(a: Members, b: Members, c: Members)
    requires Grown(a, b) && Grown(b, c)
    ensures Grown(a, c)
  {
  }

  lemma {:induction false} RunsOnlyAppendAndRevoke(s: State, calls: seq<Call>)
    requires Distinct(s.members)
    ensures Distinct(Exec(s, calls).members) && Grown(s.members, Exec(s, calls).members)
    decreases |calls|
  {
    if calls != [] {
      AfterGrows(s, calls[0]);
      RunsOnlyAppendAndRevoke(After(s, calls[0]), calls[1..]);
      GrownTwice(s.members, After(s, calls[0]).members, Exec(s, calls).members);
    }
  }

  /** Revoking is for good: the duplicate check also sees revoked rows, so neither that membership nor another with
      its identity is ever effective again. */
  lemma RevocationIsFinal(s: State, calls: seq<Call>, id: nat, other: nat, now: int)
    requires Distinct(s.members) && id < |s.members| && s.members[id].status == Revoked
    requires other < |Exec(s, calls).members| && Exec(s, calls).members[other].identity == s.members[id].identity
    ensures !IsEffective(Exec(s, calls).members[other], now)
  {
    RunsOnlyAppendAndRevoke(s, calls);
    var after := Exec(s, calls).members;
    assert after[id].identity == s.members[id].identity;
    assert other == id;
  }

  /** A membership assigned before its first day stays scheduled: no call ever makes it current, so it becomes
      effective if and only if it began by the time it was assigned. */
  lemma OnlyBegunAssignmentsTakeEffect(s: State, org: Org, identity: Identity, from: int, until: Option<int>, now: int,
                                       calls: seq<Call>, later: int)
    requires Distinct(s.members) && AssignError(s.units, s.members, org, identity, from, until).None?
    ensures |s.members| < |Exec(After(s, Assign(org, identity, from, until, now)), calls).members|
    ensures var m := Exec(After(s, Assign(org, identity, from, until, now)), calls).members[|s.members|];
            IsEffective(m, later) <==>
              from <= now && from <= later && (until.None? || later < until.value) && m.status != Revoked
  {
    var c := Assign(org, identity, from, until, now);
    AfterGrows(s, c);
    RunsOnlyAppendAndRevoke(After(s, c), calls);
    assert After(s, c).members[|s.members|] == Assigned(org, identity, from, until, now);
  }

  // ----- Archived units and their members -----

  /** Nobody is a current member of an archived unit. */
  predicate Vacated(s: State, i: nat)
    requires i < |s.members|
  {
    s.members[i].status == Current ==>
      && OwnUnit(s.units, s.members[i].organization, s.members[i].identity.unit)
      && s.units[s.members[i].identity.unit].unit.status != Archived
  }

  ghost predicate ArchivedAreVacant(s: State) {
    Forest(s.units) && NextIdIsFree(s.units) && forall i | 0 <= i < |s.members| :: Vacated(s, i)
  }

  /** `archiveUnit` does not look at whose unit it archives, only at the caller's own memberships in it. */
  predicate Foreign(s: State, c: Call) {
    && c.OnUnits? && c.request.Archive?
    && UnitVerdict(s, c.request).Proceed?
    && Exists(s.units, c.request.unit) && !OwnUnit(s.units, c.request.organization, c.request.unit)
    && HasActiveMembers(s.members, s.units[c.request.unit].unit.organization, c.request.unit)
  }

  predicate SkipsAhead(s: State, c: Call) {
    c.OnUnits? && UnitVerdict(s, c.request).Proceed? && Skips(s.units, UnitVerdict(s, c.request).write)
  }

  lemma WritesKeepVacancy(s: State, r: Request, i: nat)
    requires ArchivedAreVacant(s) && i < |s.members| && !Foreign(s, OnUnits(r))
    ensures Vacated(AfterUnitCall(s, r), i)
  {
    var v := UnitVerdict(s, r);
    assert Vacated(s, i);
    if v.Proceed? && s.members[i].status == Current {
      WritesKeepUnits(s.units, v.write);
      var id := s.members[i].identity.unit;
      if r.Archive? && id == r.unit {
        assert HasActiveMembers(s.members, s.members[i].organization, id);
      } else {
        assert Exists(Written(s.units, v.write), id);
      }
    }
  }

  lemma ForeignArchiveLeavesMembers(s: State, c: Call)
    requires ArchivedAreVacant(s) && Foreign(s, c)
    ensures !ArchivedAreVacant(After(s, c))
  {
    var id := c.request.unit;
    var i :| 0 <= i < |s.members| && s.members[i].organization == s.units[id].unit.organization &&
             s.members[i].identity.unit == id && s.members[i].status == Current;
    assert !Vacated(After(s, c), i);
  }

  /** As long as ids are not skipped, one call keeps archived units vacant if and only if it is not one
      organization archiving the unit of another that has current members. */
  lemma ArchivedStayVacant(s: State, c: Call)
    requires ArchivedAreVacant(s) && !SkipsAhead(s, c)
    ensures ArchivedAreVacant(After(s, c)) <==> !Foreign(s, c)
  {
    if Foreign(s, c) {
      ForeignArchiveLeavesMembers(s, c);
    } else if c.OnUnits? {
      var r := Informed(s.members, c.request);
      var version := VersionOf(s.graph, c.request.organization);
      if UnitVerdict(s, c.request).Proceed? {
        ProceedsWithGoodWrite(s.units, version, r);
        WritesKeepForest(s.units, UnitVerdict(s, c.request).write);
        NumberingKeptUnlessSkipped(s.units, UnitVerdict(s, c.request).write);
      }
      forall i | 0 <= i < |s.members|
        ensures Vacated(After(s, c), i)
      {
        WritesKeepVacancy(s, c.request, i);
      }
    } else {
      MemberCallsKeepVacancy(s, c);
    }
  }

  lemma MemberCallsKeepVacancy(s: State, c: Call)
    requires ArchivedAreVacant(s) && !c.OnUnits?
    ensures ArchivedAreVacant(After(s, c))
  {
    forall i | 0 <= i < |After(s, c).members|
      ensures Vacated(After(s, c), i)
    {
      if i < |s.members| {
        assert Vacated(s, i);
      }
    }
  }
}
