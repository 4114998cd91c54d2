/** The services of unitService.js and unitMembershipService.js as they run, on the maps of unitRepository.js.
    Every method is tied to `Memberships.After`, over which the forest and membership results are proved. */
module UnitService {
  import opened Wrappers
  import opened UnitForest
  import opened Memberships

  class OrganizationStructure {
    var units: Units
    var members: Members
    var graph: map<Org, nat>
    var membership: map<Org, nat>
    var outbox: seq<(string, Org, nat)>
    var audits: seq<(string, Org, nat)>

    ghost function Database(): Memberships.State
      reads this
    {
      Memberships.State(units, members, graph, membership)
    }

    constructor ()
      ensures Database() == Memberships.State(map[], [], map[], map[]) && outbox == [] && audits == []
    {
      units, members, graph, membership, outbox, audits := map[], [], map[], map[], [], [];
    }

    /** The loop over `cur` and `seen`: it ends on every store, and climbs as far as the guard allows. */
    method AncestorsOf(id: UnitId) returns (result: seq<UnitId>)
      ensures result == Climb(units, id, {})
      ensures Forest(units) && Exists(units, id) ==> result == Chain(units, id)[1..]
    {
      result := [];
      var cur := if id in units then Some(id) else None;
      var seen: set<UnitId> := {};
      while cur.Some? && Exists(units, cur.value) && units[cur.value].unit.parent.Some? &&
            units[cur.value].unit.parent.value !in seen
        invariant cur.Some? ==> cur.value in units
        invariant Climb(units, id, {}) == result + if cur.Some? then Climb(units, cur.value, seen) else []
        decreases if cur.Some? then 1 else 0, units.Keys - seen
      {
        var parent := units[cur.value].unit.parent.value;
        ghost var rest := Climb(units, cur.value, seen);
        seen := seen + {parent};
        if parent in units {
          result := result + [parent];
          cur := Some(parent);
        } else {
          cur := None;
        }
      }
      if Forest(units) && Exists(units, id) {
        ClimbFindsTheChain(units, id, {});
      }
    }

    method AssertPlacement(child: Unit, self: Option<UnitId>) returns (error: Option<Error>)
      ensures error == PlacementError(units, child, self)
    {
      if child.parent.None? {
        return LevelError(child.level, Order(OrganizationLevel));
      }
      var parent := child.parent.value;
      if parent !in units {
        return Some(UnitNotFound);
      }
      var ancestors := AncestorsOf(parent);
      if units[parent].Stray? || child.organization != units[parent].unit.organization {
        return Some(WrongTenant);
      }
      if child.hierarchy != units[parent].unit.hierarchy {
        return Some(ParentWrongHierarchy);
      }
      if self == Some(parent) {
        return Some(ParentInvalid);
      }
      if units[parent].unit.status == Archived {
        return Some(ParentArchived);
      }
      if child.unitType == UnknownType {
        return Some(UnitTypeUnknown);
      }
      if units[parent].unit.unitType !in AllowedParents(child.unitType) {
        return Some(ParentInvalid);
      }
      if self.Some? && self.value in ancestors {
        return Some(CycleDetected);
      }
      error := LevelError(child.level, Order(units[parent].unit.level));
    }

    /** `bumpVersion` and the event that follows it; nothing is published when the version is not the expected one. */
    method Event(org: Org, name: string, expected: Option<nat>) returns (ok: bool)
      modifies this`graph, this`outbox, this`audits
      ensures ok == (expected.None? || expected.value == VersionOf(old(graph), org))
      ensures graph == if ok then Bumped(old(graph), org) else old(graph)
      ensures outbox == if ok then old(outbox) + [(name, org, VersionOf(graph, org))] else old(outbox)
      ensures audits == if ok then old(audits) + [(name, org, VersionOf(graph, org))] else old(audits)
    {
      var current := VersionOf(graph, org);
      if expected.Some? && expected.value != current {
        return false;
      }
      graph := graph[org := current + 1];
      outbox := outbox + [(name, org, current + 1)];
      audits := audits + [(name, org, current + 1)];
      ok := true;
    }

    method CreateUnit(r: Request) returns (reply: Reply)
      requires r.Create?
      modifies this
      ensures Database() == Memberships.After(old(Database()), OnUnits(r)) && reply == UnitReply(old(Database()), r)
      ensures |outbox| == |old(outbox)| + if reply.Saved? then 1 else 0
    {
      if !ValidStableKey(r.stableKey) {
        return UnitError(StableKeyInvalid);
      }
      if r.unitType == UnknownType {
        return UnitError(UnitTypeUnknown);
      }
      if r.hierarchy !in AllowedHierarchies(r.unitType) || (r.unitType == Custom && !r.described) {
        return UnitError(HierarchyInvalid);
      }
      if r.expectedVersion.Some? && r.expectedVersion.value != VersionOf(graph, r.organization) {
        return UnitError(VersionConflict);
      }
      if KeyTaken(units, r.organization, r.stableKey) {
        return Found(r.stableKey);
      }
      var child := NewUnit(r);
      var error := AssertPlacement(child, None);
      if error.Some? {
        return UnitError(error.value);
      }
      if !r.dimensionAccepted {
        return UnitError(DimensionRejected);
      }
      var id := NextId(units);
      units := units[id := Known(child)];
      var _ := Event(r.organization, "organization.unit.created", None);
      reply := Saved(id);
    }

    /** The parent is stored first and the expected version compared afterwards. */
    method ReparentUnit(r: Request) returns (reply: Reply)
      requires r.Reparent?
      modifies this
      ensures Database() == Memberships.After(old(Database()), OnUnits(r)) && reply == UnitReply(old(Database()), r)
      ensures |outbox| == |old(outbox)| + if reply.Saved? then 1 else 0
    {
      if !OwnUnit(units, r.organization, r.unit) {
        return UnitError(UnitNotFound);
      }
      var moved := units[r.unit].unit.(parent := r.parent);
      var error := AssertPlacement(moved, Some(r.unit));
      if error.Some? {
        return UnitError(error.value);
      }
      units := units[r.unit := Known(moved)];
      var ok := Event(r.organization, "organization.unit.reparented", r.expectedVersion);
      reply := if ok then Saved(r.unit) else UnitError(VersionConflict);
    }

    method ActivateUnit(r: Request) returns (reply: Reply)
      requires r.Activate?
      modifies this
      ensures Database() == Memberships.After(old(Database()), OnUnits(r)) && reply == UnitReply(old(Database()), r)
      ensures |outbox| == |old(outbox)| + if reply.Saved? then 1 else 0
    {
      if !OwnUnit(units, r.organization, r.unit) {
        return UnitError(UnitNotFound);
      }
      units := units[r.unit := Known(units[r.unit].unit.(status := Active))];
      var _ := Event(r.organization, "organization.unit.updated", None);
      reply := Saved(r.unit);
    }

    /** `impactPreview` is the answer of the impact service, when there is one. */
    method ArchiveUnit(r: Request) returns (reply: Reply)
      requires r.Archive?
      modifies this
      ensures Database() == Memberships.After(old(Database()), OnUnits(r)) && reply == UnitReply(old(Database()), r)
      ensures |outbox| == |old(outbox)| + if reply.Saved? then 1 else 0
    {
      var occupied := AnyActiveMember(r.organization, r.unit);
      if HasActiveChildren(units, r.unit) || occupied {
        return UnitError(ArchiveBlocked);
      }
      if r.impact == UnknownImpact {
        return UnitError(ImpactUnknown);
      }
      if r.impact == NotSafe {
        return UnitError(ArchiveBlocked);
      }
      units := units[r.unit := if Exists(units, r.unit) then Known(units[r.unit].unit.(status := Archived))
                     else Stray(Archived)];
      var _ := Event(r.organization, "organization.unit.archived", None);
      reply := Saved(r.unit);
    }

    method AnyActiveMember(org: Org, unit: UnitId) returns (found: bool)
      ensures found == HasActiveMembers(members, org, unit)
    {
      for i := 0 to |members|
        invariant !HasActiveMembers(members[..i], org, unit)
      {
        if members[i].organization == org && members[i].identity.unit == unit && members[i].status == Current {
          return true;
        }
      }
      assert members[..|members|] == members;
      found := false;
    }

    /** The first membership with the identity, whatever its status. */
    method FindMembershipIdentity(identity: Identity) returns (found: Option<nat>)
      ensures found.Some? <==> IdentityTaken(members, identity)
      ensures found.Some? ==> found.value < |members| && members[found.value].identity == identity
    {
      for i := 0 to |members|
        invariant !IdentityTaken(members[..i], identity)
      {
        if members[i].identity == identity {
          return Some(i);
        }
      }
      assert members[..|members|] == members;
      found := None;
    }

    method AssignMembership(org: Org, identity: Identity, from: int, until: Option<int>, now: int)
      returns (reply: Reply)
      modifies this
      ensures Database() == Memberships.After(old(Database()), Assign(org, identity, from, until, now))
      ensures reply == match AssignError(old(units), old(members), org, identity, from, until)
                       case Some(e) => MembershipError(e)
                       case None => MemberSaved(|old(members)|)
    {
      if !OwnUnit(units, org, identity.unit) {
        return MembershipError(UnitUnknown);
      }
      if units[identity.unit].unit.status != Active {
        return MembershipError(UnitNotActive);
      }
      if units[identity.unit].unit.unitType !in UnitTypesFor(identity.relationship) {
        return MembershipError(RelationshipUnknown);
      }
      if NeedsRole(identity.relationship) && identity.role == "" {
        return MembershipError(RoleRequired);
      }
      if until.Some? && until.value <= from {
        return MembershipError(EndsBeforeItBegins);
      }
      var duplicate := FindMembershipIdentity(identity);
      if duplicate.Some? {
        return MembershipError(Duplicate);
      }
      reply := MemberSaved(|members|);
      members := members + [Membership(org, identity, from, until, if from <= now then Current else Scheduled)];
      membership := membership[org := VersionOf(membership, org) + 1];
    }

    method RevokeMembership(org: Org, id: nat) returns (reply: Reply)
      modifies this
      ensures Database() == Memberships.After(old(Database()), Revoke(org, id))
      ensures reply == if Revocable(old(members), org, id) then MemberSaved(id) else MembershipError(MembershipUnknown)
    {
      if !(id < |members| && members[id].organization == org) {
        return MembershipError(MembershipUnknown);
      }
      members := members[id := members[id].(status := Revoked)];
      membership := membership[org := VersionOf(membership, org) + 1];
      reply := MemberSaved(id);
    }
  }
}
