/** The calls of Memberships when they overlap. A call checks, then writes, and then `bumpVersion` reads the counters of
    the organization and writes them back; between any two of these other calls may run. Each result says what holds
    of calls one after another, and exactly when overlapping ones still keep it. */
module MembershipOverlap {
  import opened Wrappers
  import opened UnitForest
  import opened Memberships

  datatype Versions = Versions(graph: nat, membership: nat)

  datatype Kind = Graph | MembershipKind

  /** A write that is due: of a unit, of a new membership, of a revocation, or of both counters. */
  datatype Ticket = Changes(write: Write) | Joins(member: Membership) | Leaves(id: nat) |
      Saves(organization: Org, versions: Versions)

  datatype Store = Store(units: Units, members: Members, versions: map<Org, Versions>, tickets: map<CallId, Ticket>)

  datatype Action =
    | StartUnit(call: CallId, request: Request)
    | StartAssign(call: CallId, organization: Org, identity: Identity, validFrom: int, validUntil: Option<int>,
                  now: int)
    | StartRevoke(call: CallId, organization: Org, id: nat)
    | ReadVersions(call: CallId, organization: Org, kind: Kind)
    | Commit(call: CallId)

  function VersionsOf(s: Store, org: Org): Versions {
    if org in s.versions then s.versions[org] else Versions(0, 0)
  }

  function Next(v: Versions, kind: Kind): Versions {
    if kind.Graph? then v.(graph := v.graph + 1) else v.(membership := v.membership + 1)
  }

  function Remember(s: Store, c: CallId, t: Option<Ticket>): Store {
    s.(tickets := if t.Some? then s.tickets[c := t.value] else s.tickets - {c})
  }

  function Written(s: Store, t: Ticket): Store {
    match t
    case Changes(w) => s.(units := UnitForest.Written(s.units, w))
    case Joins(m) => s.(members := s.members + [m])
    case Leaves(id) => s.(members := if id < |s.members| then s.members[id := s.members[id].(status := Revoked)]
                          else s.members)
    case Saves(org, v) => s.(versions := s.versions[org := v])
  }

  function Checked(s: Store, a: Action): Option<Ticket> {
    match a
    case StartUnit(_, r) =>
      var v := Decide(s.units, VersionsOf(s, r.organization).graph, Informed(s.members, r));
      if v.Proceed? then Some(Changes(v.write)) else None
    case StartAssign(_, org, identity, from, until, now) =>
      if AssignError(s.units, s.members, org, identity, from, until).Some? then None
      else Some(Joins(Assigned(org, identity, from, until, now)))
    case StartRevoke(_, org, id) => if Revocable(s.members, org, id) then Some(Leaves(id)) else None
    case ReadVersions(_, org, kind) => Some(Saves(org, Next(VersionsOf(s, org), kind)))
    case Commit(_) => None
  }

  function After(s: Store, a: Action): Store {
    if !a.Commit? then Remember(s, a.call, Checked(s, a))
    else if a.call in s.tickets then Remember(Written(s, s.tickets[a.call]), a.call, None)
    else s
  }

  function Exec(s: Store, acts: seq<Action>): Store
    decreases |acts|
  {
    if acts == [] then s else Exec(After(s, acts[0]), acts[1..])
  }

  // ----- Identities -----

  /** A new membership is stored although its identity is there by now. */
  predicate Repeats(s: Store, a: Action) {
    && a.Commit? && a.call in s.tickets && s.tickets[a.call].Joins?
    && IdentityTaken(s.members, s.tickets[a.call].member.identity)
  }

  predicate NeverRepeats(s: Store, acts: seq<Action>)
    decreases |acts|
  {
    acts == [] || (!Repeats(s, acts[0]) && NeverRepeats(After(s, acts[0]), acts[1..]))
  }

  lemma StepKeepsIdentitiesExactlyWhenFirst(s: Store, a: Action)
    ensures Distinct(After(s, a).members) <==> Distinct(s.members) && !Repeats(s, a)
    ensures Grown(s.members, After(s, a).members)
  {
    var before, after := s.members, After(s, a).members;
    if Distinct(after) {
      forall i, j | 0 <= i < j < |before|
        ensures before[i].identity != before[j].identity
      {
        assert after[i].identity != after[j].identity;
      }
      if a.Commit? && a.call in s.tickets && s.tickets[a.call].Joins? {
        forall i | 0 <= i < |before|
          ensures before[i].identity != s.tickets[a.call].member.identity
        {
          assert after[i].identity != after[|before|].identity;
        }
      }
    }
  }

  /** Over any run of overlapping calls memberships are appended and revoked and nothing else, and no identity is stored
      twice if and only if every membership that was stored was the first of its identity. */
  lemma {:induction false} IdentitiesStayDistinctExactlyWhenFirst(s: Store, acts: seq<Action>)
    ensures Grown(s.members, Exec(s, acts).members)
    ensures Distinct(Exec(s, acts).members) <==> Distinct(s.members) && NeverRepeats(s, acts)
    decreases |acts|
  {
    if acts != [] {
      StepKeepsIdentitiesExactlyWhenFirst(s, acts[0]);
      IdentitiesStayDistinctExactlyWhenFirst(After(s, acts[0]), acts[1..]);
      GrownTwice(s.members, After(s, acts[0]).members, Exec(s, acts).members);
    }
  }

  // ----- Stable keys -----

  /** A new unit is stored although its key is taken by now. */
  predicate RepeatsKey(s: Store, a: Action) {
    && a.Commit? && a.call in s.tickets && s.tickets[a.call].Changes? && s.tickets[a.call].write.Insert?
    && KeyTaken(s.units, s.tickets[a.call].write.unit.organization, s.tickets[a.call].write.unit.stableKey)
  }

  lemma OtherWritesKeepKeys(units: Units, w: Write)
    requires KeysAreUnique(units) && !w.Insert?
    ensures KeysAreUnique(UnitForest.Written(units, w))
  {
    var after := UnitForest.Written(units, w);
    forall id | Exists(after, id)
      ensures Exists(units, id) && after[id].unit.stableKey == units[id].unit.stableKey
      ensures after[id].unit.organization == units[id].unit.organization
    {
    }
  }

  lemma InsertKeepsKeysExactlyWhenFirst(units: Units, u: Unit)
    requires KeysAreUnique(units) && NextIdIsFree(units)
    ensures KeysAreUnique(UnitForest.Written(units, Insert(u))) <==> !KeyTaken(units, u.organization, u.stableKey)
  {
    var after, added := UnitForest.Written(units, Insert(u)), NextId(units);
    assert added !in units;
    if KeyTaken(units, u.organization, u.stableKey) {
      var id :| id in units && OwnUnit(units, u.organization, id) && units[id].unit.stableKey == u.stableKey;
      assert Exists(after, id) && Exists(after, added);
    }
  }

  /** However calls overlap, as long as the next unit id is free, a step keeps stable keys unique if and only if it does
      not store a unit whose key was taken since the check. */
  lemma StepKeepsKeysExactlyWhenFirst(s: Store, a: Action)
    requires KeysAreUnique(s.units) && NextIdIsFree(s.units)
    ensures KeysAreUnique(After(s, a).units) <==> !RepeatsKey(s, a)
  {
    if a.Commit? && a.call in s.tickets && s.tickets[a.call].Changes? {
      var w := s.tickets[a.call].write;
      if w.Insert? {
        InsertKeepsKeysExactlyWhenFirst(s.units, w.unit);
      } else {
        OtherWritesKeepKeys(s.units, w);
      }
    }
  }

  // ----- Revocation -----

  /** The identity can come back into effect through a ticket that was checked before. */
  predicate ComesBack(s: Store, identity: Identity, c: CallId) {
    && c in s.tickets && s.tickets[c].Joins? && s.tickets[c].member.identity == identity &&
       s.tickets[c].member.status == Current
    && (s.tickets[c].member.validUntil.Some? ==> s.tickets[c].member.validFrom < s.tickets[c].member.validUntil.value)
  }

  predicate CameBack(m: Membership, identity: Identity) {
    m.identity == identity && m.status == Current && (m.validUntil.Some? ==> m.validFrom < m.validUntil.value)
  }

  /** No row of the identity takes effect, none can, and the identity stays taken. */
  predicate Final(s: Store, identity: Identity) {
    && IdentityTaken(s.members, identity)
    && (forall i | 0 <= i < |s.members| :: !CameBack(s.members[i], identity))
    && (forall c | c in s.tickets :: !ComesBack(s, identity, c))
  }

  lemma StepKeepsFinal(s: Store, a: Action, identity: Identity)
    requires Final(s, identity)
    ensures Final(After(s, a), identity)
  {
    var after := After(s, a);
    var i :| 0 <= i < |s.members| && s.members[i].identity == identity;
    assert after.members[i].identity == identity;
    forall c | c in after.tickets
      ensures !ComesBack(after, identity, c)
    {
      assert c in s.tickets && after.tickets[c] == s.tickets[c] ==> !ComesBack(s, identity, c);
    }
    forall j | 0 <= j < |after.members|
      ensures !CameBack(after.members[j], identity)
    {
      if j < |s.members| {
        assert !CameBack(s.members[j], identity);
      } else {
        assert !ComesBack(s, identity, a.call);
      }
    }
  }

  lemma {:induction false} RunsKeepFinal(s: Store, acts: seq<Action>, identity: Identity)
    requires Final(s, identity)
    ensures Final(Exec(s, acts), identity)
    decreases |acts|
  {
    if acts != [] {
      StepKeepsFinal(s, acts[0], identity);
      RunsKeepFinal(After(s, acts[0]), acts[1..], identity);
    }
  }

  /** A revocation is for good, whatever calls follow and however they overlap, if and only if no assignment of the
      identity that was checked before it is still to be stored in effect. */
  lemma RevocationIsFinalExactlyUnlessPending(s: Store, id: nat)
    requires Distinct(s.members) && id < |s.members| && s.members[id].status == Revoked
    ensures (forall c | c in s.tickets :: !ComesBack(s, s.members[id].identity, c)) <==>
            forall acts, i: nat, now | i < |Exec(s, acts).members| &&
                   Exec(s, acts).members[i].identity == s.members[id].identity ::
              !IsEffective(Exec(s, acts).members[i], now)
  {
    var identity := s.members[id].identity;
    if forall c | c in s.tickets :: !ComesBack(s, identity, c) {
      forall i | 0 <= i < |s.members|
        ensures !CameBack(s.members[i], identity)
      {
        assert s.members[i].identity == identity ==> i == id;
      }
      forall acts, i: nat, now | i < |Exec(s, acts).members| && Exec(s, acts).members[i].identity == identity
        ensures !IsEffective(Exec(s, acts).members[i], now)
      {
        RunsKeepFinal(s, acts, identity);
        assert !CameBack(Exec(s, acts).members[i], identity);
      }
    } else {
      var c :| c in s.tickets && ComesBack(s, identity, c);
      var acts := [Commit(c)];
      assert acts[1..] == [];
      assert Exec(s, acts) == After(s, Commit(c));
      assert Exec(s, acts).members[|s.members|] == s.tickets[c].member;
      assert IsEffective(Exec(s, acts).members[|s.members|], s.tickets[c].member.validFrom);
    }
  }

  // ----- Archived units -----

  predicate InUse(units: Units, m: Membership) {
    m.status == Current ==>
          OwnUnit(units, m.organization, m.identity.unit) && units[m.identity.unit].unit.status != Archived
  }

  predicate Vacant(s: Store) {
    forall i | 0 <= i < |s.members| :: InUse(s.units, s.members[i])
  }

  predicate Occupied(members: Members, unit: UnitId) {
    exists i | 0 <= i < |members| :: members[i].identity.unit == unit && members[i].status == Current
  }

  /** A unit is archived over a current member, or a current member stored in a unit that is archived by now. */
  predicate Overtakes(s: Store, a: Action) {
    && a.Commit? && a.call in s.tickets
    && match s.tickets[a.call]
       case Changes(w) => w.SetStatus? && w.status == Archived && Occupied(s.members, w.id)
       case Joins(m) => !InUse(s.units, m)
       case _ => false
  }

  lemma UnitWritesKeepUse(units: Units, w: Write, m: Membership)
    requires NextIdIsFree(units) && InUse(units, m) && m.status == Current
    requires w.SetStatus? && w.id == m.identity.unit ==> w.status != Archived
    ensures InUse(UnitForest.Written(units, w), m)
  {
    WritesKeepUnits(units, w);
    assert Exists(UnitForest.Written(units, w), m.identity.unit);
  }

  lemma OvertakingOccupies(s: Store, a: Action)
    requires Overtakes(s, a)
    ensures !Vacant(After(s, a))
  {
    var after, t := After(s, a), s.tickets[a.call];
    if t.Changes? {
      var i :| 0 <= i < |s.members| && s.members[i].identity.unit == t.write.id && s.members[i].status == Current;
      assert !InUse(after.units, after.members[i]);
    } else {
      assert after.members[|s.members|] == t.member;
    }
  }

  lemma OtherStepsKeepUse(s: Store, a: Action, i: nat)
    requires Vacant(s) && NextIdIsFree(s.units) && !Overtakes(s, a) && i < |After(s, a).members|
    ensures InUse(After(s, a).units, After(s, a).members[i])
  {
    if i < |s.members| {
      assert InUse(s.units, s.members[i]);
      if a.Commit? && a.call in s.tickets && s.tickets[a.call].Changes? && s.members[i].status == Current {
        UnitWritesKeepUse(s.units, s.tickets[a.call].write, s.members[i]);
      }
    }
  }

  /** However calls overlap, as long as the next unit id is free, a step keeps archived units free of current members if
      and only if neither an archiving nor an assignment has overtaken the other since its check. */
  lemma StepKeepsVacancyExactlyUnlessOvertaken(s: Store, a: Action)
    requires Vacant(s) && NextIdIsFree(s.units)
    ensures Vacant(After(s, a)) <==> !Overtakes(s, a)
  {
    if Overtakes(s, a) {
      OvertakingOccupies(s, a);
    } else {
      forall i | 0 <= i < |After(s, a).members|
        ensures InUse(After(s, a).units, After(s, a).members[i])
      {
        OtherStepsKeepUse(s, a, i);
      }
    }
  }

  /** And that happens: whatever unit may be archived and given a member, both checks may come before both writes. */
  lemma ArchivingMissesAnAssignment(s: Store, c: CallId, d: CallId, archive: Request, identity: Identity, from: int,
                                    until: Option<int>, now: int)
    requires c != d && archive.Archive? && archive.unit == identity.unit && from <= now
    requires Checked(s, StartUnit(c, archive)).Some?
    requires Checked(s, StartAssign(d, archive.organization, identity, from, until, now)).Some?
    ensures var checked := After(After(s, StartUnit(c, archive)),
                                 StartAssign(d, archive.organization, identity, from, until, now));
            !Vacant(After(After(checked, Commit(d)), Commit(c)))
  {
    var checked := After(After(s, StartUnit(c, archive)),
                         StartAssign(d, archive.organization, identity, from, until, now));
    var joined := After(checked, Commit(d));
    var done := After(joined, Commit(c));
    assert checked.tickets[c] == Changes(SetStatus(archive.unit, Archived));
    assert joined.members[|s.members|].identity == identity && joined.tickets[c] == checked.tickets[c];
    assert done.members[|s.members|].status == Current && !InUse(done.units, done.members[|s.members|]);
  }

  // ----- Counters -----

  /** Saving moves the counter by one and leaves the other alone if and only if the counters are what they were when
      they were read; any other save takes back what has been counted since. */
  lemma SaveCountsExactlyWhenUnchanged(s: Store, c: CallId, org: Org, kind: Kind, read: Versions)
    requires c in s.tickets && s.tickets[c] == Saves(org, Next(read, kind))
    ensures VersionsOf(After(s, Commit(c)), org) == Next(VersionsOf(s, org), kind) <==> VersionsOf(s, org) == read
    ensures VersionsOf(After(s, Commit(c)), org) == Next(read, kind)
    ensures forall other | other != org :: VersionsOf(After(s, Commit(c)), other) == VersionsOf(s, other)
  {
  }

  predicate SavesFor(s: Store, a: Action, org: Org) {
    a.Commit? && a.call in s.tickets && s.tickets[a.call].Saves? && s.tickets[a.call].organization == org
  }

  predicate NobodySaves(s: Store, acts: seq<Action>, org: Org)
    decreases |acts|
  {
    acts == [] || (!SavesFor(s, acts[0], org) && NobodySaves(After(s, acts[0]), acts[1..], org))
  }

  lemma {:induction false} CountersStayUnlessSaved(s: Store, acts: seq<Action>, org: Org)
    requires NobodySaves(s, acts, org)
    ensures VersionsOf(Exec(s, acts), org) == VersionsOf(s, org)
    decreases |acts|
  {
    if acts != [] {
      CountersStayUnlessSaved(After(s, acts[0]), acts[1..], org);
    }
  }

  predicate Apart(acts: seq<Action>, c: CallId) {
    forall i | 0 <= i < |acts| :: acts[i].call != c
  }

  lemma {:induction false} OwnTicketStays(s: Store, acts: seq<Action>, c: CallId)
    requires Apart(acts, c) && c in s.tickets
    ensures c in Exec(s, acts).tickets && Exec(s, acts).tickets[c] == s.tickets[c]
    decreases |acts|
  {
    if acts != [] {
      OwnTicketStays(After(s, acts[0]), acts[1..], c);
    }
  }

  /** So a call counts for one if nobody else of its organization saves between its read and its save. */
  lemma OneCountUnlessOvertaken(s: Store, c: CallId, org: Org, kind: Kind, acts: seq<Action>)
    requires Apart(acts, c)
    ensures var read := After(s, ReadVersions(c, org, kind));
            var saved := After(Exec(read, acts), Commit(c));
            && (VersionsOf(saved, org) == Next(VersionsOf(Exec(read, acts), org), kind) <==>
                  VersionsOf(Exec(read, acts), org) == VersionsOf(s, org))
            && (NobodySaves(read, acts, org) ==> VersionsOf(saved, org) == Next(VersionsOf(s, org), kind))
  {
    var read := After(s, ReadVersions(c, org, kind));
    OwnTicketStays(read, acts, c);
    SaveCountsExactlyWhenUnchanged(Exec(read, acts), c, org, kind, VersionsOf(s, org));
    if NobodySaves(read, acts, org) {
      CountersStayUnlessSaved(read, acts, org);
    }
  }

  /** Two overlapping bumps of one counter count as one, and one of another counter is taken back altogether. */
  lemma OverlappingBumpsLoseOne(s: Store, c: CallId, d: CallId, org: Org, kind: Kind, other: Kind)
    requires c != d
    ensures var read := After(After(s, ReadVersions(c, org, kind)), ReadVersions(d, org, other));
            VersionsOf(After(After(read, Commit(c)), Commit(d)), org) == Next(VersionsOf(s, org), other)
  {
    var read := After(After(s, ReadVersions(c, org, kind)), ReadVersions(d, org, other));
    assert read.tickets[d] == Saves(org, Next(VersionsOf(s, org), other));
    assert After(read, Commit(c)).tickets[d] == read.tickets[d];
  }
}
