/** Organization units and their hierarchies: backend/organization-structure/unitService.js over the in-memory
    repository of unitRepository.js.

    A service call reads and checks, then writes, and other calls may run at every `await` in between: `Start`
    is everything up to the write, `Finish` is the write. The forest rules speak only of attributes no write
    ever changes, so a link that was checked before such a pause is still a good link after it. */
module UnitForest {
  import opened Wrappers

  type Org = string
  type CallId = nat

  datatype Hierarchy = AcademicStructure | AdministrativeStructure | GeographicStructure | ProgramStructure
                     | TeamStructure | UnknownHierarchy

  datatype UnitType = AcademicDivision | AcademicDepartment | AdministrativeDepartment | Campus | Program | Team
                    | Custom | UnknownType

  datatype Level = OrganizationLevel | Strategic | Tactical | Coordination | Operational | Administrative | UnknownLevel

  datatype Status = Draft | Active | Archived

  /** The repository names the units it inserts `unit_<n>`; a caller may send any other string. */
  datatype UnitId = Numbered(n: nat) | Other(name: string)

  datatype Unit = Unit(organization: Org, hierarchy: Hierarchy, unitType: UnitType, level: Level,
                       parent: Option<UnitId>, status: Status, stableKey: string)

  /** `updateUnit` on an id that is not there stores the bare patch: a row with a status and nothing else. */
  datatype Row = Known(unit: Unit) | Stray(status: Status)

  type Units = map<UnitId, Row>

  datatype Impact = Safe | UnknownImpact | NotSafe

  datatype Request =
    | Create(organization: Org, hierarchy: Hierarchy, unitType: UnitType, stableKey: string, described: bool,
             parent: Option<UnitId>, level: Option<Level>, expectedVersion: Option<nat>, dimensionAccepted: bool)
    | Reparent(organization: Org, unit: UnitId, parent: Option<UnitId>, expectedVersion: Option<nat>)
    | Activate(organization: Org, unit: UnitId)
    | Archive(organization: Org, unit: UnitId, hasActiveMembers: bool, impact: Impact)

  datatype Error = StableKeyInvalid | UnitTypeUnknown | HierarchyInvalid | VersionConflict | UnitNotFound
                 | WrongTenant | ParentWrongHierarchy | ParentInvalid | ParentArchived | CycleDetected
                 | LevelUnknown | LevelRootReserved | LevelOrderInvalid | DimensionRejected
                 | ArchiveBlocked | ImpactUnknown

  datatype Write =
    | Insert(unit: Unit)
    | SetParent(id: UnitId, parent: Option<UnitId>)
    | SetStatus(id: UnitId, status: Status)

  /** What a call decides from what it reads: the write to make, the unit that already has the key, or an error. */
  datatype Verdict = Proceed(write: Write) | AlreadyThere | Refused(error: Error)

  // ----- The registries -----

  function Order(l: Level): int {
    match l
    case OrganizationLevel => 0
    case Strategic => 1
    case Tactical => 2
    case Coordination => 3
    case Operational => 4
    case Administrative => 5
    case UnknownLevel => -1
  }

  predicate Persisted(l: Level) {
    l != OrganizationLevel && l != UnknownLevel
  }

  function AllowedHierarchies(t: UnitType): set<Hierarchy> {
    match t
    case AcademicDivision | AcademicDepartment => {AcademicStructure}
    case AdministrativeDepartment => {AdministrativeStructure}
    case Campus => {GeographicStructure, AcademicStructure}
    case Program => {ProgramStructure}
    case Team => {TeamStructure, AdministrativeStructure}
    case Custom => {AcademicStructure, AdministrativeStructure, GeographicStructure, ProgramStructure, TeamStructure}
    case UnknownType => {}
  }

  function AllowedParents(t: UnitType): set<UnitType> {
    match t
    case AcademicDivision => {Campus, AcademicDivision}
    case AcademicDepartment => {AcademicDivision, AcademicDepartment}
    case AdministrativeDepartment => {AdministrativeDepartment}
    case Campus => {Campus}
    case Program => {Program, AcademicDivision}
    case Team => {Team, AdministrativeDepartment}
    case Custom => {AcademicDivision, AcademicDepartment, AdministrativeDepartment, Campus, Program, Team, Custom}
    case UnknownType => {}
  }

  predicate KeyCharacter(c: char) {
    'a' <= c <= 'z' || '0' <= c <= '9' || c == '_' || c == '-'
  }

  predicate ValidStableKey(key: string) {
    && key != ""
    && key[0] != '_' && key[0] != '-'
    && forall i | 0 <= i < |key| :: KeyCharacter(key[i])
  }

  // ----- Reading -----

  predicate Exists(units: Units, id: UnitId) {
    id in units && units[id].Known?
  }

  /** `getUnit` and the tenant test that activating and reparenting begin with. */
  predicate OwnUnit(units: Units, org: Org, id: UnitId) {
    Exists(units, id) && units[id].unit.organization == org
  }

  predicate KeyTaken(units: Units, org: Org, key: string) {
    exists id | id in units :: OwnUnit(units, org, id) && units[id].unit.stableKey == key
  }

  predicate HasActiveChildren(units: Units, id: UnitId) {
    exists c | c in units :: units[c].Known? && units[c].unit.parent == Some(id) && units[c].unit.status == Active
  }

  /** The walk of `ancestorsOf` with its `seen` set, on any store whatsoever. */
  function Climb(units: Units, id: UnitId, seen: set<UnitId>): seq<UnitId>
    decreases units.Keys - seen
  {
    if Exists(units, id) && units[id].unit.parent.Some? && units[id].unit.parent.value !in seen &&
       units[id].unit.parent.value in units
    then [units[id].unit.parent.value] + Climb(units, units[id].unit.parent.value, seen + {units[id].unit.parent.value})
    else []
  }

  /** `assertUnitParentAllowed`; `self` is absent for a unit that is still being created. */
  function ParentError(units: Units, child: Unit, self: Option<UnitId>, parent: UnitId): Option<Error> {
    if parent !in units then Some(UnitNotFound)
    else if units[parent].Stray? || child.organization != units[parent].unit.organization then Some(WrongTenant)
    else if child.hierarchy != units[parent].unit.hierarchy then Some(ParentWrongHierarchy)
    else if self == Some(parent) then Some(ParentInvalid)
    else if units[parent].unit.status == Archived then Some(ParentArchived)
    else if child.unitType == UnknownType then Some(UnitTypeUnknown)
    else if units[parent].unit.unitType !in AllowedParents(child.unitType) then Some(ParentInvalid)
    else if self.Some? && self.value in Climb(units, parent, {}) then Some(CycleDetected)
    else None
  }

  /** `assertManagementLevelAllowed`. */
  function LevelError(child: Level, parentOrder: int): Option<Error> {
    if child == UnknownLevel then Some(LevelUnknown)
    else if child == OrganizationLevel then Some(LevelRootReserved)
    else if Order(child) <= parentOrder then Some(LevelOrderInvalid)
    else None
  }

  function PlacementError(units: Units, child: Unit, self: Option<UnitId>): Option<Error> {
    if child.parent.None? then LevelError(child.level, Order(OrganizationLevel))
    else
      var e := ParentError(units, child, self, child.parent.value);
      if e.Some? then e else LevelError(child.level, Order(units[child.parent.value].unit.level))
  }

  function NewUnit(r: Request): Unit
    requires r.Create?
  {
    Unit(r.organization, r.hierarchy, r.unitType,
         if r.level.Some? then r.level.value else if r.parent.Some? then Operational else Strategic,
         r.parent, Draft, r.stableKey)
  }

  function DecideCreate(units: Units, version: nat, r: Request): Verdict
    requires r.Create?
  {
    if !ValidStableKey(r.stableKey) then Refused(StableKeyInvalid)
    else if r.unitType == UnknownType then Refused(UnitTypeUnknown)
    else if r.hierarchy !in AllowedHierarchies(r.unitType) then Refused(HierarchyInvalid)
    else if r.unitType == Custom && !r.described then Refused(HierarchyInvalid)
    else if r.expectedVersion.Some? && r.expectedVersion.value != version then Refused(VersionConflict)
    else if KeyTaken(units, r.organization, r.stableKey) then AlreadyThere
    else
      var e := PlacementError(units, NewUnit(r), None);
      if e.Some? then Refused(e.value)
      else if !r.dimensionAccepted then Refused(DimensionRejected)
      else Proceed(Insert(NewUnit(r)))
  }

  /** The expected version is not looked at before the write. */
  function DecideReparent(units: Units, r: Request): Verdict
    requires r.Reparent?
  {
    if !OwnUnit(units, r.organization, r.unit) then Refused(UnitNotFound)
    else
      var e := PlacementError(units, units[r.unit].unit.(parent := r.parent), Some(r.unit));
      if e.Some? then Refused(e.value) else Proceed(SetParent(r.unit, r.parent))
  }

  function Decide(units: Units, version: nat, r: Request): Verdict {
    match r
    case Create(_, _, _, _, _, _, _, _, _) => DecideCreate(units, version, r)
    case Reparent(_, _, _, _) => DecideReparent(units, r)
    case Activate(org, id) => if OwnUnit(units, org, id) then Proceed(SetStatus(id, Active)) else Refused(UnitNotFound)
    case Archive(_, id, hasActiveMembers, impact) =>
      if HasActiveChildren(units, id) || hasActiveMembers then Refused(ArchiveBlocked)
      else if impact == UnknownImpact then Refused(ImpactUnknown)
      else if impact == NotSafe then Refused(ArchiveBlocked)
      else Proceed(SetStatus(id, Archived))
  }

  // ----- Writing -----

  function NextId(units: Units): UnitId {
    Numbered(|units| + 1)
  }

  /** `insertUnit` and the two patches of `updateUnit`. Only a unit that was there gets a new parent. */
  function Written(units: Units, w: Write): Units {
    match w
    case Insert(u) => units[NextId(units) := Known(u)]
    case SetParent(id, p) => if Exists(units, id) then units[id := Known(units[id].unit.(parent := p))] else units
    case SetStatus(id, st) => units[id := if Exists(units, id) then Known(units[id].unit.(status := st)) else Stray(st)]
  }

  // ----- Runs -----

  /** Versions may become anything at any time: the forest does not depend on how they are counted. */
  datatype Action =
    | Start(call: CallId, request: Request)
    | Finish(call: CallId)
    | VersionsBecome(organization: Org, version: nat)

  datatype Store = Store(units: Units, versions: map<Org, nat>, pending: map<CallId, Write>)

  function VersionOf(versions: map<Org, nat>, org: Org): nat {
    if org in versions then versions[org] else 0
  }

  function After(s: Store, a: Action): Store {
    match a
    case Start(c, r) =>
      var v := Decide(s.units, VersionOf(s.versions, r.organization), r);
      s.(pending := if v.Proceed? then s.pending[c := v.write] else s.pending - {c})
    case Finish(c) =>
      if c in s.pending then s.(units := Written(s.units, s.pending[c]), pending := s.pending - {c}) else s
    case VersionsBecome(org, v) => s.(versions := s.versions[org := v])
  }

  function Exec(s: Store, acts: seq<Action>): Store
    decreases |acts|
  {
    if acts == [] then s else Exec(After(s, acts[0]), acts[1..])
  }

  // ----- The forest -----

  predicate GoodLink(child: Unit, parent: Unit) {
    && child.organization == parent.organization
    && child.hierarchy == parent.hierarchy
    && parent.unitType in AllowedParents(child.unitType)
    && Order(parent.level) < Order(child.level)
  }

  predicate WellPlaced(units: Units, u: Unit) {
    && Persisted(u.level)
    && (u.parent.Some? ==> Exists(units, u.parent.value) && GoodLink(u, units[u.parent.value].unit))
  }

  ghost predicate Forest(units: Units) {
    forall id | Exists(units, id) :: WellPlaced(units, units[id].unit)
  }

  /** No numbered id lies above the count, so the next number is free. */
  ghost predicate NextIdIsFree(units: Units) {
    forall n: nat :: Numbered(n) in units ==> n <= |units|
  }

  predicate GoodWrite(units: Units, w: Write) {
    match w
    case Insert(u) => WellPlaced(units, u)
    case SetParent(id, p) => Exists(units, id) && WellPlaced(units, units[id].unit.(parent := p))
    case SetStatus(_, _) => true
  }

  ghost predicate Inv(s: Store) {
    Forest(s.units) && NextIdIsFree(s.units) && forall c | c in s.pending :: GoodWrite(s.units, s.pending[c])
  }

  /** The one write that spoils the numbering: a status for a `unit_<n>` nobody created, beyond the next number. */
  predicate Skips(units: Units, w: Write) {
    w.SetStatus? && w.id.Numbered? && w.id !in units && w.id.n > |units| + 1
  }

  predicate SamePlace(u: Unit, v: Unit) {
    u.organization == v.organization && u.hierarchy == v.hierarchy && u.unitType == v.unitType && u.level == v.level
  }

  /** Units stay, and keep every attribute that the forest rules look at. */
  ghost predicate UnitsStay(before: Units, after: Units) {
    forall id | Exists(before, id) :: Exists(after, id) && SamePlace(before[id].unit, after[id].unit)
  }

  lemma AcceptedPlacementIsGood(units: Units, u: Unit, self: Option<UnitId>)
    requires Forest(units) && PlacementError(units, u, self).None?
    ensures WellPlaced(units, u)
  {
  }

  lemma ProceedsWithGoodWrite(units: Units, version: nat, r: Request)
    requires Forest(units) && Decide(units, version, r).Proceed?
    ensures GoodWrite(units, Decide(units, version, r).write)
  {
    match r {
      case Create(_, _, _, _, _, _, _, _, _) => AcceptedPlacementIsGood(units, NewUnit(r), None);
      case Reparent(_, id, p, _) => AcceptedPlacementIsGood(units, units[id].unit.(parent := p), Some(id));
      case _ =>
    }
  }

  lemma PlacementOutlivesOthers(before: Units, after: Units, u: Unit)
    requires WellPlaced(before, u) && UnitsStay(before, after)
    ensures WellPlaced(after, u)
  {
  }

  lemma WritesKeepUnits(units: Units, w: Write)
    requires NextIdIsFree(units)
    ensures UnitsStay(units, Written(units, w))
  {
  }

  lemma WritesKeepForest(units: Units, w: Write)
    requires Forest(units) && NextIdIsFree(units) && GoodWrite(units, w)
    ensures Forest(Written(units, w))
  {
    WritesKeepUnits(units, w);
    var after := Written(units, w);
    forall id | Exists(after, id)
      ensures WellPlaced(after, after[id].unit)
    {
      var u := after[id].unit;
      assert WellPlaced(units, u);
      PlacementOutlivesOthers(units, after, u);
    }
  }

  /** A write keeps the numbering sound if and only if it does not skip. */
  lemma NumberingKeptUnlessSkipped(units: Units, w: Write)
    requires NextIdIsFree(units)
    ensures NextIdIsFree(Written(units, w)) <==> !Skips(units, w)
  {
    var after := Written(units, w);
    if Skips(units, w) {
      assert Numbered(w.id.n) in after;
    }
  }

  predicate StepSkips(s: Store, a: Action) {
    a.Finish? && a.call in s.pending && Skips(s.units, s.pending[a.call])
  }

  predicate NeverSkips(s: Store, acts: seq<Action>)
    decreases |acts|
  {
    acts == [] || (!StepSkips(s, acts[0]) && NeverSkips(After(s, acts[0]), acts[1..]))
  }

  lemma GoodWriteOutlivesOthers(before: Units, after: Units, w: Write)
    requires GoodWrite(before, w) && UnitsStay(before, after)
    ensures GoodWrite(after, w)
  {
    match w {
      case Insert(u) => PlacementOutlivesOthers(before, after, u);
      case SetParent(id, p) => PlacementOutlivesOthers(before, after, before[id].unit.(parent := p));
      case SetStatus(_, _) =>
    }
  }

  lemma StepKeepsForestAndNumbering(s: Store, a: Action)
    requires Inv(s) && !StepSkips(s, a)
    ensures Inv(After(s, a)) && UnitsStay(s.units, After(s, a).units)
  {
    match a {
      case Start(c, r) =>
        var version := VersionOf(s.versions, r.organization);
        if Decide(s.units, version, r).Proceed? {
          ProceedsWithGoodWrite(s.units, version, r);
        }
      case Finish(c) =>
        if c in s.pending {
          var w := s.pending[c];
          WritesKeepUnits(s.units, w);
          WritesKeepForest(s.units, w);
          NumberingKeptUnlessSkipped(s.units, w);
          forall d | d in After(s, a).pending
            ensures GoodWrite(After(s, a).units, s.pending[d])
          {
            GoodWriteOutlivesOthers(s.units, After(s, a).units, s.pending[d]);
          }
        }
      case VersionsBecome(_, _) =>
    }
  }

  /** Every run of interleaved calls keeps the forest, as long as no archive call skips ahead of the numbering. */
  lemma {:induction false} AlwaysAForest(s: Store, acts: seq<Action>)
    requires Inv(s) && NeverSkips(s, acts)
    ensures Inv(Exec(s, acts)) && UnitsStay(s.units, Exec(s, acts).units)
    decreases |acts|
  {
    if acts != [] {
      StepKeepsForestAndNumbering(s, acts[0]);
      AlwaysAForest(After(s, acts[0]), acts[1..]);
    }
  }

  // ----- What a skip leads to -----

  /** A call with nothing in between, and several of them. */
  function Called(s: Store, c: CallId, r: Request): Store {
    After(After(s, Start(c, r)), Finish(c))
  }

  function CalledAll(s: Store, c: CallId, rs: seq<Request>): Store
    decreases |rs|
  {
    if rs == [] then s else CalledAll(Called(s, c, rs[0]), c, rs[1..])
  }

  predicate Creates(s: Store, r: Request) {
    r.Create? && Decide(s.units, VersionOf(s.versions, r.organization), r).Proceed?
  }

  /** Creations one after the other, none of them refused. */
  predicate AllCreate(s: Store, c: CallId, rs: seq<Request>)
    decreases |rs|
  {
    rs == [] || (Creates(s, rs[0]) && AllCreate(Called(s, c, rs[0]), c, rs[1..]))
  }

  lemma CreationInserts(s: Store, c: CallId, r: Request)
    requires Creates(s, r)
    ensures Called(s, c, r).units == Written(s.units, Insert(NewUnit(r)))
  {
  }

  lemma {:induction false} CreationsKeepForest(s: Store, c: CallId, rs: seq<Request>)
    requires Inv(s) && AllCreate(s, c, rs)
    ensures Forest(CalledAll(s, c, rs).units)
    decreases |rs|
  {
    if rs != [] {
      StepKeepsForestAndNumbering(s, Start(c, rs[0]));
      StepKeepsForestAndNumbering(After(s, Start(c, rs[0])), Finish(c));
      CreationsKeepForest(Called(s, c, rs[0]), c, rs[1..]);
    }
  }

  /** A key of `m` characters. */
  function LongKey(m: nat): (key: string)
    requires m >= 1
    ensures |key| == m && ValidStableKey(key)
  {
    seq(m, _ => 'a')
  }

  function NewTeam(m: nat, parent: Option<UnitId>): Request
    requires m >= 1
  {
    Create("org", TeamStructure, Team, LongKey(m), false, parent, None, None, true)
  }

  predicate KeysShorter(units: Units, m: nat) {
    m >= 1 && forall id | id in units :: units[id].Known? ==> |units[id].unit.stableKey| < m
  }

  lemma {:induction false} SomeLengthIsFree(units: Units) returns (m: nat)
    ensures KeysShorter(units, m)
    decreases |units|
  {
    m := 1;
    if units != map[] {
      var id :| id in units;
      var rest := units - {id};
      assert rest.Keys == units.Keys - {id} && |rest| == |rest.Keys|;
      m := SomeLengthIsFree(rest);
      if units[id].Known? && |units[id].unit.stableKey| >= m {
        m := |units[id].unit.stableKey| + 1;
      }
      assert forall x | x in units && x != id :: x in rest && rest[x] == units[x];
    }
  }

  /** A row without a unit lies at `unit_<k>`, beyond the count, and nothing else does. */
  ghost predicate StrayAhead(units: Units, k: nat) {
    && Numbered(k) in units && units[Numbered(k)].Stray? && |units| < k
    && forall n: nat | Numbered(n) in units && n != k :: n <= |units|
  }

  lemma RootIsCreated(s: Store, m: nat)
    requires KeysShorter(s.units, m)
    ensures Creates(s, NewTeam(m, None))
  {
  }

  lemma ChildIsCreated(s: Store, m: nat, parent: UnitId)
    requires m >= 2 && KeysShorter(s.units, m) && parent in s.units &&
             s.units[parent] == Known(NewUnit(NewTeam(m - 1, None)))
    ensures Creates(s, NewTeam(m, Some(parent)))
  {
    assert ParentError(s.units, NewUnit(NewTeam(m, Some(parent))), None, parent).None?;
  }

  lemma OwnParentIsNoForest(units: Units, id: UnitId)
    requires Exists(units, id) && units[id].unit.parent == Some(id)
    ensures !Forest(units)
  {
    assert !WellPlaced(units, units[id].unit);
  }

  /** Creations fill the numbers up to the stray row; a root then takes its place, and the child of that root, counted
      to the same number, takes the place of its own parent. */
  lemma {:induction false} FillUpToTheStray(s: Store, c: CallId, k: nat, m: nat) returns (rs: seq<Request>)
    requires StrayAhead(s.units, k) && KeysShorter(s.units, m)
    ensures AllCreate(s, c, rs) && !Forest(CalledAll(s, c, rs).units)
    decreases k - |s.units|
  {
    var root := NewTeam(m, None);
    RootIsCreated(s, m);
    CreationInserts(s, c, root);
    var rooted := Called(s, c, root);
    if |s.units| + 1 < k {
      var rest := FillUpToTheStray(rooted, c, k, m + 1);
      rs := [root] + rest;
    } else {
      var child := NewTeam(m + 1, Some(Numbered(k)));
      ChildIsCreated(rooted, m + 1, Numbered(k));
      CreationInserts(rooted, c, child);
      var broken := Called(rooted, c, child);
      OwnParentIsNoForest(broken.units, Numbered(k));
      assert AllCreate(rooted, c, [child]) && CalledAll(rooted, c, [child]) == broken by {
        assert [child][1..] == [];
      }
      rs := [root] + [child];
      assert rs[1..] == [child];
    }
  }

  /** After any write that skips, some accepted creations one after the other leave a unit that is its own parent. */
  lemma SkippingBreaksTheForest(s: Store, c: CallId) returns (rs: seq<Request>)
    requires Inv(s) && StepSkips(s, Finish(c))
    ensures AllCreate(After(s, Finish(c)), c, rs) && !Forest(CalledAll(After(s, Finish(c)), c, rs).units)
  {
    var after := After(s, Finish(c));
    var m := SomeLengthIsFree(after.units);
    rs := FillUpToTheStray(after, c, s.pending[c].id.n, m);
  }

  /** The write of a call is safe, in that no creations after it can break the forest, if and only if it does not
      skip. */
  lemma ForestStaysExactlyUnlessSkipped(s: Store, c: CallId)
    requires Inv(s) && c in s.pending
    ensures !Skips(s.units, s.pending[c]) <==>
            forall rs | AllCreate(After(s, Finish(c)), c, rs) :: Forest(CalledAll(After(s, Finish(c)), c, rs).units)
  {
    if Skips(s.units, s.pending[c]) {
      var rs := SkippingBreaksTheForest(s, c);
      assert AllCreate(After(s, Finish(c)), c, rs);
    } else {
      StepKeepsForestAndNumbering(s, Finish(c));
      forall rs | AllCreate(After(s, Finish(c)), c, rs)
        ensures Forest(CalledAll(After(s, Finish(c)), c, rs).units)
      {
        CreationsKeepForest(After(s, Finish(c)), c, rs);
      }
    }
  }

  /** And such a write takes no more than to archive a unit that is not there. */
  lemma ArchivingAnAbsentUnitMaySkip(s: Store, c: CallId, org: Org, n: nat)
    requires Inv(s) && Numbered(n) !in s.units && n > |s.units| + 1
    ensures StepSkips(After(s, Start(c, Archive(org, Numbered(n), false, Safe))), Finish(c))
  {
    NobodyIsBelowAnAbsentUnit(s.units, Numbered(n));
  }

  lemma NobodyIsBelowAnAbsentUnit(units: Units, id: UnitId)
    requires Forest(units) && !Exists(units, id)
    ensures !HasActiveChildren(units, id)
  {
    forall x | Exists(units, x)
      ensures units[x].unit.parent != Some(id)
    {
      assert WellPlaced(units, units[x].unit);
    }
  }

  // ----- Chains -----

  /** A unit, its parent, and so on up to a root. */
  ghost function Chain(units: Units, id: UnitId): (r: seq<UnitId>)
    requires Forest(units) && Exists(units, id)
    ensures r != [] && r[0] == id && |r| <= Order(units[id].unit.level) <= 5
    ensures forall i | 0 <= i < |r| :: Exists(units, r[i])
    ensures forall i | 0 < i < |r| :: units[r[i - 1]].unit.parent == Some(r[i])
    ensures units[r[|r| - 1]].unit.parent == None
    decreases Order(units[id].unit.level)
  {
    if units[id].unit.parent.None? then [id] else [id] + Chain(units, units[id].unit.parent.value)
  }

  /** Levels fall strictly from a unit to its root, so no unit is its own ancestor. */
  lemma {:induction false} LevelsFall(units: Units, id: UnitId, i: nat, j: nat)
    requires Forest(units) && Exists(units, id) && i < j < |Chain(units, id)|
    ensures Order(units[Chain(units, id)[j]].unit.level) < Order(units[Chain(units, id)[i]].unit.level)
    ensures Chain(units, id)[i] != Chain(units, id)[j]
    decreases j
  {
    var c := Chain(units, id);
    assert WellPlaced(units, units[c[j - 1]].unit);
    if i < j - 1 {
      LevelsFall(units, id, i, j - 1);
    }
  }

  lemma {:induction false} OneTree(units: Units, id: UnitId, i: nat)
    requires Forest(units) && Exists(units, id) && i < |Chain(units, id)|
    ensures units[Chain(units, id)[i]].unit.organization == units[id].unit.organization
    ensures units[Chain(units, id)[i]].unit.hierarchy == units[id].unit.hierarchy
    decreases i
  {
    if i > 0 {
      OneTree(units, id, i - 1);
      assert WellPlaced(units, units[Chain(units, id)[i - 1]].unit);
    }
  }

  /** The guard against revisiting never cuts the walk short: it finds the whole chain above the unit. */
  lemma {:induction false} ClimbFindsTheChain(units: Units, id: UnitId, seen: set<UnitId>)
    requires Forest(units) && Exists(units, id)
    requires forall x | x in seen && Exists(units, x) :: Order(units[x].unit.level) >= Order(units[id].unit.level)
    ensures Climb(units, id, seen) == Chain(units, id)[1..]
    decreases Order(units[id].unit.level)
  {
    if units[id].unit.parent.Some? {
      var p := units[id].unit.parent.value;
      assert WellPlaced(units, units[id].unit);
      assert p !in seen;
      ClimbFindsTheChain(units, p, seen + {p});
      assert Chain(units, id)[1..] == [p] + Chain(units, p)[1..];
    }
  }

  lemma {:induction false} HigherUnitsAreNotAbove(units: Units, id: UnitId, x: UnitId)
    requires Forest(units) && Exists(units, id) && Exists(units, x)
    requires Order(units[x].unit.level) > Order(units[id].unit.level)
    ensures x !in Chain(units, id)
    decreases Order(units[id].unit.level)
  {
    if units[id].unit.parent.Some? {
      assert WellPlaced(units, units[id].unit);
      HigherUnitsAreNotAbove(units, units[id].unit.parent.value, x);
    }
  }

  /** The level rule alone already excludes what the cycle check looks for. */
  lemma CycleCheckFollowsFromLevels(units: Units, id: UnitId, parent: UnitId)
    requires Forest(units) && Exists(units, id) && Exists(units, parent)
    requires LevelError(units[id].unit.level, Order(units[parent].unit.level)).None?
    ensures id != parent && id !in Climb(units, parent, {})
  {
    ClimbFindsTheChain(units, parent, {});
    HigherUnitsAreNotAbove(units, parent, id);
  }

  ghost function Above(units: Units, parent: Option<UnitId>): seq<UnitId>
    requires Forest(units) && (parent.Some? ==> Exists(units, parent.value))
  {
    if parent.None? then [] else Chain(units, parent.value)
  }

  lemma {:induction false} ChainWithoutMoved(units: Units, id: UnitId, parent: Option<UnitId>, x: UnitId)
    requires Forest(units) && Exists(units, x) && Forest(Written(units, SetParent(id, parent)))
    requires id !in Chain(units, x)
    ensures Chain(Written(units, SetParent(id, parent)), x) == Chain(units, x)
    decreases Order(units[x].unit.level)
  {
    if units[x].unit.parent.Some? {
      assert WellPlaced(units, units[x].unit);
      assert Chain(units, x)[1..] == Chain(units, units[x].unit.parent.value);
      ChainWithoutMoved(units, id, parent, units[x].unit.parent.value);
    }
  }

  /** The moved unit itself: nothing above its new parent changes. */
  lemma ChainOfMoved(units: Units, id: UnitId, parent: Option<UnitId>)
    requires Forest(units) && GoodWrite(units, SetParent(id, parent))
    requires Forest(Written(units, SetParent(id, parent)))
    ensures Chain(Written(units, SetParent(id, parent)), id) == [id] + Above(units, parent)
  {
    if parent.Some? {
      HigherUnitsAreNotAbove(units, parent.value, id);
      ChainWithoutMoved(units, id, parent, parent.value);
    }
  }

  lemma ChainStep(units: Units, x: UnitId)
    requires Forest(units) && Exists(units, x) && units[x].unit.parent.Some?
    ensures Exists(units, units[x].unit.parent.value)
    ensures Chain(units, x) == [x] + Chain(units, units[x].unit.parent.value)
  {
  }

  /** The chain of a unit below the moved one grows by that unit alone. */
  lemma ChainStepBelow(units: Units, id: UnitId, parent: Option<UnitId>, x: UnitId, p: UnitId, i: nat)
    requires Forest(units) && Forest(Written(units, SetParent(id, parent)))
    requires parent.Some? ==> Exists(units, parent.value)
    requires Exists(units, x) && x != id && units[x].unit.parent == Some(p) && Exists(units, p)
    requires Exists(Written(units, SetParent(id, parent)), p)
    requires i <= |Chain(units, p)|
    requires Chain(Written(units, SetParent(id, parent)), p) == Chain(units, p)[..i] + Above(units, parent)
    ensures Chain(Written(units, SetParent(id, parent)), x) == Chain(units, x)[..i + 1] + Above(units, parent)
  {
    ChainStep(units, x);
    ChainStep(Written(units, SetParent(id, parent)), x);
    Prepended(x, Chain(units, p), Above(units, parent), i);
  }

  lemma {:induction false} ChainBelowMoved(units: Units, id: UnitId, parent: Option<UnitId>, x: UnitId, i: nat)
    requires Forest(units) && GoodWrite(units, SetParent(id, parent)) && Exists(units, x)
    requires Forest(Written(units, SetParent(id, parent)))
    requires i < |Chain(units, x)| && Chain(units, x)[i] == id
    ensures Chain(Written(units, SetParent(id, parent)), x) == Chain(units, x)[..i + 1] + Above(units, parent)
    decreases i
  {
    if i == 0 {
      ChainOfMoved(units, id, parent);
      assert Chain(units, x)[..1] == [id];
    } else {
      LevelsFall(units, x, 0, i);
      ChainStep(units, x);
      var p := units[x].unit.parent.value;
      ChainBelowMoved(units, id, parent, p, i - 1);
      ChainStepBelow(units, id, parent, x, p, i);
    }
  }

  lemma Prepended(x: UnitId, c: seq<UnitId>, above: seq<UnitId>, i: nat)
    requires i <= |c|
    ensures [x] + (c[..i] + above) == ([x] + c)[..i + 1] + above
  {
    assert ([x] + c)[..i + 1] == [x] + c[..i];
  }

  /** Reparenting moves a whole subtree: below the moved unit chains keep their lower part and continue with the
      chain of the new parent; every other chain is untouched. */
  lemma ReparentMovesTheSubtree(units: Units, id: UnitId, parent: Option<UnitId>, x: UnitId)
    requires Forest(units) && NextIdIsFree(units) && GoodWrite(units, SetParent(id, parent)) && Exists(units, x)
    ensures Forest(Written(units, SetParent(id, parent)))
    ensures id !in Chain(units, x) ==> Chain(Written(units, SetParent(id, parent)), x) == Chain(units, x)
    ensures forall i | 0 <= i < |Chain(units, x)| && Chain(units, x)[i] == id ::
              Chain(Written(units, SetParent(id, parent)), x) == Chain(units, x)[..i + 1] + Above(units, parent)
  {
    WritesKeepForest(units, SetParent(id, parent));
    if id !in Chain(units, x) {
      ChainWithoutMoved(units, id, parent, x);
    }
    forall i | 0 <= i < |Chain(units, x)| && Chain(units, x)[i] == id
      ensures Chain(Written(units, SetParent(id, parent)), x) == Chain(units, x)[..i + 1] + Above(units, parent)
    {
      ChainBelowMoved(units, id, parent, x, i);
    }
  }
}
