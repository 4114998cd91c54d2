/** backend/organization-structure/scopeProjectionReconciler.js: making the derived scope assignments of a subject
    agree with its live candidates.

    Candidates and rows come with the identity strings of ScopeIdentity: `identity` is a candidate's own,
    `rowIdentity` the one that will be computed from a row created for it. `valid` is the outcome of its
    validation, and `slot` what the governance contract and the checks of `createAssignment` make of it. */
module ScopeReconciler {
  import opened Wrappers
  import I = ScopeIdentity

  /** What two live assignments may not share. */
  datatype Slot = Slot(organization: string, membership: string, canonicalRole: string, capability: string,
                       target: I.Target)

  datatype Origin = Explicit | From(kind: string, ref: string)

  datatype Status = Scheduled | Active | Invalidated | Revoked

  datatype Row = Row(organization: string, user: string, origin: Origin, identity: string, slot: Slot, status: Status)

  /** `user` is the candidate's own subject, for whom a row would be created. */
  datatype Candidate = Candidate(identity: string, rowIdentity: string, user: string, origin: Origin, valid: bool,
                                 slot: Option<Slot>)

  datatype Store = Store(rows: seq<Row>, policyVersion: nat)

  /** One call: for whom, and which policy version was expected, if any; an expected version of 0 counts as none. */
  datatype Scope = Scope(organization: string, user: string, expectedPolicy: Option<nat>)

  // ----- What a run reads -----

  predicate Derived(r: Row, who: Scope) {
    r.organization == who.organization && r.user == who.user && r.origin.From?
  }

  /** `byIdentity`: of several rows with the identity the map keeps the last. */
  function Current(rows: seq<Row>, who: Scope, identity: string): (r: Option<nat>)
    ensures r.Some? ==> r.value < |rows| && Derived(rows[r.value], who) && rows[r.value].identity == identity
    ensures r.None? ==> forall i | 0 <= i < |rows| :: !(Derived(rows[i], who) && rows[i].identity == identity)
  {
    if rows == [] then None
    else
      var n := |rows| - 1;
      if Derived(rows[n], who) && rows[n].identity == identity then Some(n) else Current(rows[..n], who, identity)
  }

  predicate Live(r: Row) {
    r.status == Active || r.status == Scheduled
  }

  predicate SlotTaken(rows: seq<Row>, slot: Slot) {
    exists i | 0 <= i < |rows| :: Live(rows[i]) && rows[i].slot == slot
  }

  // ----- One candidate -----

  predicate Expects(who: Scope) {
    who.expectedPolicy.Some? && who.expectedPolicy.value != 0
  }

  predicate AsExpected(who: Scope, policyVersion: nat) {
    Expects(who) ==> who.expectedPolicy.value == policyVersion
  }

  /** `createAssignment` goes through: governance resolves, the policy version is the expected one, the slot is free. */
  predicate Creatable(s: Store, who: Scope, c: Candidate) {
    && c.slot.Some?
    && AsExpected(who, s.policyVersion)
    && !SlotTaken(s.rows, c.slot.value)
  }

  function NewRow(who: Scope, c: Candidate): Row
    requires c.slot.Some?
  {
    Row(who.organization, c.user, c.origin, c.rowIdentity, c.slot.value, Active)
  }

  /** The status tests look at `before`, the rows as they were read when the run began. */
  function Handled(before: seq<Row>, s: Store, who: Scope, c: Candidate): (r: Store)
    requires |before| <= |s.rows|
    ensures |s.rows| <= |r.rows|
  {
    var current := Current(before, who, c.identity);
    if !c.valid then
      if current.Some? && before[current.value].status == Active
      then s.(rows := s.rows[current.value := s.rows[current.value].(status := Invalidated)])
      else s
    else if current.None? then
      if Creatable(s, who, c) then Store(s.rows + [NewRow(who, c)], s.policyVersion + 1) else s
    else if before[current.value].status != Active then
      s.(rows := s.rows[current.value := s.rows[current.value].(status := Active)])
    else s
  }

  function HandledAll(before: seq<Row>, s: Store, who: Scope, cs: seq<Candidate>): (r: Store)
    requires |before| <= |s.rows|
    ensures |s.rows| <= |r.rows|
  {
    if cs == [] then s
    else Handled(before, HandledAll(before, s, who, cs[..|cs| - 1]), who, cs[|cs| - 1])
  }

  predicate Seen(cs: seq<Candidate>, identity: string) {
    exists i | 0 <= i < |cs| :: cs[i].identity == identity
  }

  predicate Stale(r: Row, who: Scope, cs: seq<Candidate>) {
    Derived(r, who) && r.status == Active && !Seen(cs, r.identity)
  }

  /** The second loop: rows that were active when the run began and that no candidate stands for are revoked. */
  function Swept(before: seq<Row>, rows: seq<Row>, who: Scope, cs: seq<Candidate>): (r: seq<Row>)
    requires |before| <= |rows|
    ensures |r| == |rows|
    ensures forall i | 0 <= i < |rows| ::
              r[i] == if i < |before| && Stale(before[i], who, cs) then rows[i].(status := Revoked) else rows[i]
  {
    seq(|rows|, i requires 0 <= i < |rows| =>
      if i < |before| && Stale(before[i], who, cs) then rows[i].(status := Revoked) else rows[i])
  }

  function Reconciled(s: Store, who: Scope, cs: seq<Candidate>): (r: Store)
    ensures |s.rows| <= |r.rows|
  {
    var h := HandledAll(s.rows, s, who, cs);
    h.(rows := Swept(s.rows, h.rows, who, cs))
  }

  // ----- What a run achieves -----

  predicate DistinctCandidates(cs: seq<Candidate>) {
    forall i, j | 0 <= i < j < |cs| :: cs[i].identity != cs[j].identity
  }

  predicate DistinctRows(rows: seq<Row>, who: Scope) {
    forall i, j | 0 <= i < j < |rows| && Derived(rows[i], who) && Derived(rows[j], who) ::
             rows[i].identity != rows[j].identity
  }

  /** A row made from a candidate is recognised as its own, and counts as derived for the subject of the run. */
  predicate Faithful(c: Candidate, who: Scope) {
    c.rowIdentity == c.identity && c.origin.From? && c.user == who.user
  }

  predicate AllFaithful(cs: seq<Candidate>, who: Scope) {
    forall i | 0 <= i < |cs| :: Faithful(cs[i], who)
  }

  predicate ValidFor(cs: seq<Candidate>, identity: string) {
    exists i | 0 <= i < |cs| :: cs[i].valid && cs[i].identity == identity
  }

  /** What the first loop makes of a row that was there. */
  function Fate(r: Row, who: Scope, cs: seq<Candidate>): Status {
    if !Derived(r, who) || !Seen(cs, r.identity) then r.status
    else if ValidFor(cs, r.identity) then Active
    else if r.status == Active then Invalidated else r.status
  }

  /** Half way: old rows have met their fate, new rows are active and stand for valid candidates without a row. */
  ghost predicate HalfWay(before: seq<Row>, s: Store, who: Scope, cs: seq<Candidate>) {
    && |before| <= |s.rows|
    && (forall i | 0 <= i < |before| :: s.rows[i] == before[i].(status := Fate(before[i], who, cs)))
    && (forall i | |before| <= i < |s.rows| ::
          Derived(s.rows[i], who) && s.rows[i].status == Active && ValidFor(cs, s.rows[i].identity))
    && DistinctRows(s.rows, who)
  }

  lemma SeenLast(cs: seq<Candidate>, identity: string)
    requires cs != []
    ensures Seen(cs, identity) <==> Seen(cs[..|cs| - 1], identity) || cs[|cs| - 1].identity == identity
    ensures ValidFor(cs, identity) <==>
            ValidFor(cs[..|cs| - 1], identity) || (cs[|cs| - 1].valid && cs[|cs| - 1].identity == identity)
  {
    var n := |cs| - 1;
    if i :| 0 <= i < |cs| && cs[i].identity == identity && i < n {
      assert cs[..n][i].identity == identity;
    }
    if i :| 0 <= i < |cs| && cs[i].valid && cs[i].identity == identity && i < n {
      assert cs[..n][i].valid && cs[..n][i].identity == identity;
    }
  }

  lemma FateOfOthers(r: Row, who: Scope, cs: seq<Candidate>)
    requires cs != [] && cs[|cs| - 1].identity != r.identity
    ensures Fate(r, who, cs) == Fate(r, who, cs[..|cs| - 1])
  {
    SeenLast(cs, r.identity);
  }

  lemma LastIsNew(cs: seq<Candidate>)
    requires cs != [] && DistinctCandidates(cs)
    ensures !Seen(cs[..|cs| - 1], cs[|cs| - 1].identity) && !ValidFor(cs[..|cs| - 1], cs[|cs| - 1].identity)
  {
  }

  lemma {:induction false} FirstLoop(before: seq<Row>, s: Store, who: Scope, cs: seq<Candidate>)
    requires s.rows == before && DistinctRows(before, who) && DistinctCandidates(cs) && AllFaithful(cs, who)
    ensures HalfWay(before, HandledAll(before, s, who, cs), who, cs)
    decreases |cs|
  {
    if cs != [] {
      FirstLoop(before, s, who, cs[..|cs| - 1]);
      OneMoreCandidate(before, HandledAll(before, s, who, cs[..|cs| - 1]), who, cs);
    }
  }

  lemma OneMoreCandidate(before: seq<Row>, s: Store, who: Scope, cs: seq<Candidate>)
    requires cs != [] && HalfWay(before, s, who, cs[..|cs| - 1]) && DistinctRows(before, who) &&
             DistinctCandidates(cs) && AllFaithful(cs, who)
    ensures HalfWay(before, Handled(before, s, who, cs[|cs| - 1]), who, cs)
  {
    var c := cs[|cs| - 1];
    var after := Handled(before, s, who, c);
    LastIsNew(cs);
    forall i | 0 <= i < |before|
      ensures after.rows[i] == before[i].(status := Fate(before[i], who, cs))
    {
      SeenLast(cs, before[i].identity);
      if before[i].identity != c.identity {
        FateOfOthers(before[i], who, cs);
      }
    }
    forall i | |before| <= i < |after.rows|
      ensures Derived(after.rows[i], who) && after.rows[i].status == Active && ValidFor(cs, after.rows[i].identity)
    {
      SeenLast(cs, after.rows[i].identity);
    }
  }

  /** A derived row is active exactly when it stands for a valid candidate. */
  predicate Agrees(r: Row, who: Scope, cs: seq<Candidate>) {
    Derived(r, who) ==> (r.status == Active <==> ValidFor(cs, r.identity))
  }

  /** After a run the subject's derived rows are active exactly when their identity belongs to a valid candidate;
      explicit rows and other subjects' rows are untouched, and no row changes in anything but its status. */
  lemma AgreesAfterRun(s: Store, who: Scope, cs: seq<Candidate>)
    requires DistinctRows(s.rows, who) && DistinctCandidates(cs) && AllFaithful(cs, who)
    ensures var r := Reconciled(s, who, cs);
            && (forall i | 0 <= i < |r.rows| :: Agrees(r.rows[i], who, cs))
            && (forall i | 0 <= i < |s.rows| :: r.rows[i] == s.rows[i].(status := r.rows[i].status))
            && (forall i | 0 <= i < |s.rows| && !Derived(s.rows[i], who) :: r.rows[i] == s.rows[i])
            && DistinctRows(r.rows, who)
  {
    var h := HandledAll(s.rows, s, who, cs);
    FirstLoop(s.rows, s, who, cs);
    var r := Reconciled(s, who, cs);
    forall i | 0 <= i < |r.rows|
      ensures Agrees(r.rows[i], who, cs)
    {
      if i < |s.rows| {
        assert h.rows[i] == s.rows[i].(status := Fate(s.rows[i], who, cs));
        ValidIsSeen(cs, s.rows[i].identity);
      }
    }
  }

  /** Every row a run adds was made from a valid candidate that had none. */
  lemma {:induction false} NewRowsComeFromCandidates(before: seq<Row>, s: Store, who: Scope, cs: seq<Candidate>, i: nat)
    requires s.rows == before && |before| <= i < |HandledAll(before, s, who, cs).rows|
    ensures exists j | 0 <= j < |cs| ::
              && cs[j].valid && cs[j].slot.Some? && Current(before, who, cs[j].identity).None?
              && HandledAll(before, s, who, cs).rows[i] == NewRow(who, cs[j])
    decreases |cs|
  {
    if cs != [] {
      var n := |cs| - 1;
      var earlier := HandledAll(before, s, who, cs[..n]);
      if i < |earlier.rows| {
        NewRowsComeFromCandidates(before, s, who, cs[..n], i);
        var j :| 0 <= j < n && cs[..n][j].valid && cs[..n][j].slot.Some? &&
            Current(before, who, cs[..n][j].identity).None? &&
                 earlier.rows[i] == NewRow(who, cs[..n][j]);
        assert cs[j] == cs[..n][j];
      } else {
        assert cs[n].valid && Current(before, who, cs[n].identity).None?;
      }
    }
  }

  /** Creating a row respects the slots of live rows, reactivating one does not: two live rows may end up sharing a
      slot that a creation would have been refused. */
  lemma ReactivationIgnoresTheSlot(who: Scope, slot: Slot, origin: Origin, identity: string, version: nat)
    requires origin.From?
    ensures var revoked := Row(who.organization, who.user, origin, identity, slot, Revoked);
            var explicit := Row(who.organization, who.user, Explicit, "", slot, Active);
            var r := Reconciled(Store([revoked, explicit], version), who,
                                [Candidate(identity, identity, who.user, origin, true, Some(slot))]);
            r.rows == [revoked.(status := Active), explicit]
  {
    var revoked := Row(who.organization, who.user, origin, identity, slot, Revoked);
    var explicit := Row(who.organization, who.user, Explicit, "", slot, Active);
    var s := Store([revoked, explicit], version);
    OnlyCandidate(s, who, Candidate(identity, identity, who.user, origin, true, Some(slot)));
    assert s.rows[..1] == [revoked] && [revoked][..0] == [];
    assert Current(s.rows, who, identity) == Some(0);
  }

  // ----- Which candidates are given a row -----

  /** Whether a row that was there is live when the first `k` candidates have been handled. */
  predicate LiveAt(r: Row, who: Scope, cs: seq<Candidate>, k: nat)
    requires k <= |cs|
  {
    Live(r.(status := Fate(r, who, cs[..k])))
  }

  /** Candidate `k` is given a row: it is valid and has none, its slot is then neither held by a live row that was there
      nor by a row created before, and a run that expects a version has created none. */
  ghost predicate Creates(s: Store, who: Scope, cs: seq<Candidate>, k: nat)
    decreases k
  {
    && k < |cs| && cs[k].valid && cs[k].slot.Some? && Current(s.rows, who, cs[k].identity).None?
    && AsExpected(who, s.policyVersion)
    && (forall i | 0 <= i < |s.rows| && LiveAt(s.rows[i], who, cs, k) :: s.rows[i].slot != cs[k].slot.value)
    && (forall j: nat | j < k && Creates(s, who, cs, j) :: !Expects(who) && cs[j].slot != cs[k].slot)
  }

  ghost predicate MadeFrom(r: Row, s: Store, who: Scope, cs: seq<Candidate>, j: nat) {
    Creates(s, who, cs, j) && r == NewRow(who, cs[j])
  }

  ghost predicate MadeByOne(r: Row, s: Store, who: Scope, cs: seq<Candidate>, n: nat) {
    exists j: nat | j < n :: MadeFrom(r, s, who, cs, j)
  }

  ghost predicate HasItsRow(s: Store, h: Store, who: Scope, cs: seq<Candidate>, j: nat) {
    exists i: nat | |s.rows| <= i < |h.rows| :: MadeFrom(h.rows[i], s, who, cs, j)
  }

  /** The rows added for the first `n` candidates are those of the candidates that create one. */
  ghost predicate AddedExactly(s: Store, h: Store, who: Scope, cs: seq<Candidate>, n: nat) {
    && (forall i: nat | |s.rows| <= i < |h.rows| :: MadeByOne(h.rows[i], s, who, cs, n))
    && (forall j: nat | j < n && Creates(s, who, cs, j) :: HasItsRow(s, h, who, cs, j))
  }

  lemma {:induction false} CreationsMoveTheVersion(before: seq<Row>, s: Store, who: Scope, cs: seq<Candidate>)
    requires |before| <= |s.rows|
    ensures HandledAll(before, s, who, cs).policyVersion ==
            s.policyVersion + |HandledAll(before, s, who, cs).rows| - |s.rows|
    decreases |cs|
  {
    if cs != [] {
      CreationsMoveTheVersion(before, s, who, cs[..|cs| - 1]);
    }
  }

  lemma VersionIsAsExpected(s: Store, h: Store, who: Scope, cs: seq<Candidate>, n: nat)
    requires |s.rows| <= |h.rows| && h.policyVersion == s.policyVersion + |h.rows| - |s.rows| &&
             AddedExactly(s, h, who, cs, n)
    ensures AsExpected(who, h.policyVersion) <==>
            AsExpected(who, s.policyVersion) && (Expects(who) ==> forall j: nat | j < n :: !Creates(s, who, cs, j))
  {
    if |h.rows| > |s.rows| {
      assert MadeByOne(h.rows[|s.rows|], s, who, cs, n);
      var j: nat :| j < n && MadeFrom(h.rows[|s.rows|], s, who, cs, j);
      assert Creates(s, who, cs, j) && AsExpected(who, s.policyVersion);
    } else {
      assert forall j: nat | j < n && Creates(s, who, cs, j) :: HasItsRow(s, h, who, cs, j);
    }
  }

  predicate HeldByOldRow(s: Store, who: Scope, cs: seq<Candidate>, n: nat, slot: Slot)
    requires n <= |cs|
  {
    exists i | 0 <= i < |s.rows| :: LiveAt(s.rows[i], who, cs, n) && s.rows[i].slot == slot
  }

  ghost predicate GivenTo(s: Store, who: Scope, cs: seq<Candidate>, n: nat, slot: Slot)
    requires n <= |cs|
  {
    exists j: nat | j < n :: Creates(s, who, cs, j) && cs[j].slot == Some(slot)
  }

  lemma TakenIsHeldOrGiven(s: Store, h: Store, who: Scope, cs: seq<Candidate>, n: nat, slot: Slot)
    requires n <= |cs| && HalfWay(s.rows, h, who, cs[..n]) && AddedExactly(s, h, who, cs, n) && SlotTaken(h.rows, slot)
    ensures HeldByOldRow(s, who, cs, n, slot) || GivenTo(s, who, cs, n, slot)
  {
    var i :| 0 <= i < |h.rows| && Live(h.rows[i]) && h.rows[i].slot == slot;
    if i < |s.rows| {
      assert LiveAt(s.rows[i], who, cs, n) && s.rows[i].slot == slot;
    } else {
      assert MadeByOne(h.rows[i], s, who, cs, n);
      var j: nat :| j < n && MadeFrom(h.rows[i], s, who, cs, j);
    }
  }

  lemma HeldOrGivenIsTaken(s: Store, h: Store, who: Scope, cs: seq<Candidate>, n: nat, slot: Slot)
    requires n <= |cs| && HalfWay(s.rows, h, who, cs[..n]) && AddedExactly(s, h, who, cs, n)
    requires HeldByOldRow(s, who, cs, n, slot) || GivenTo(s, who, cs, n, slot)
    ensures SlotTaken(h.rows, slot)
  {
    if HeldByOldRow(s, who, cs, n, slot) {
      var i :| 0 <= i < |s.rows| && LiveAt(s.rows[i], who, cs, n) && s.rows[i].slot == slot;
      assert Live(h.rows[i]) && h.rows[i].slot == slot;
    } else {
      var j: nat :| j < n && Creates(s, who, cs, j) && cs[j].slot == Some(slot);
      assert HasItsRow(s, h, who, cs, j);
      var i: nat :| |s.rows| <= i < |h.rows| && MadeFrom(h.rows[i], s, who, cs, j);
      assert Live(h.rows[i]) && h.rows[i].slot == slot;
    }
  }

  lemma CreatableExactlyWhen(s: Store, h: Store, who: Scope, cs: seq<Candidate>, n: nat)
    requires n < |cs| && HalfWay(s.rows, h, who, cs[..n]) && AddedExactly(s, h, who, cs, n)
    requires h.policyVersion == s.policyVersion + |h.rows| - |s.rows|
    ensures Creates(s, who, cs, n) <==>
            cs[n].valid && Current(s.rows, who, cs[n].identity).None? && Creatable(h, who, cs[n])
  {
    VersionIsAsExpected(s, h, who, cs, n);
    if cs[n].slot.Some? {
      var slot := cs[n].slot.value;
      if SlotTaken(h.rows, slot) {
        TakenIsHeldOrGiven(s, h, who, cs, n, slot);
      } else if HeldByOldRow(s, who, cs, n, slot) || GivenTo(s, who, cs, n, slot) {
        HeldOrGivenIsTaken(s, h, who, cs, n, slot);
      }
    }
  }

  /** The first loop adds exactly the rows of the candidates that create one. */
  lemma {:induction false} CreatedExactly(s: Store, who: Scope, cs: seq<Candidate>, n: nat)
    requires n <= |cs| && DistinctRows(s.rows, who) && DistinctCandidates(cs) && AllFaithful(cs, who)
    ensures AddedExactly(s, HandledAll(s.rows, s, who, cs[..n]), who, cs, n)
    decreases n
  {
    if n > 0 {
      var earlier := cs[..n - 1];
      assert cs[..n][..n - 1] == earlier && cs[..n][n - 1] == cs[n - 1];
      CreatedExactly(s, who, cs, n - 1);
      FirstLoop(s.rows, s, who, earlier);
      CreationsMoveTheVersion(s.rows, s, who, earlier);
      CreatableExactlyWhen(s, HandledAll(s.rows, s, who, earlier), who, cs, n - 1);
      OneMoreIsAdded(s, HandledAll(s.rows, s, who, earlier), who, cs, n);
    }
  }

  lemma OneMoreIsAdded(s: Store, h: Store, who: Scope, cs: seq<Candidate>, n: nat)
    requires 1 <= n <= |cs| && |s.rows| <= |h.rows| && AddedExactly(s, h, who, cs, n - 1)
    requires Creates(s, who, cs, n - 1) <==>
             cs[n - 1].valid && Current(s.rows, who, cs[n - 1].identity).None? && Creatable(h, who, cs[n - 1])
    ensures AddedExactly(s, Handled(s.rows, h, who, cs[n - 1]), who, cs, n)
  {
    var after := Handled(s.rows, h, who, cs[n - 1]);
    assert forall i: nat | |s.rows| <= i < |h.rows| :: after.rows[i] == h.rows[i];
    assert |after.rows| > |h.rows| ==> Creates(s, who, cs, n - 1) && after.rows[|h.rows|] == NewRow(who, cs[n - 1]);
    assert |after.rows| == |h.rows| ==> !Creates(s, who, cs, n - 1);
    assert |after.rows| <= |h.rows| + 1;
    AddedStays(s, h, after, who, cs, n);
  }

  lemma AddedStays(s: Store, h: Store, after: Store, who: Scope, cs: seq<Candidate>, n: nat)
    requires 1 <= n <= |cs| && |s.rows| <= |h.rows| <= |after.rows| <= |h.rows| + 1 &&
             AddedExactly(s, h, who, cs, n - 1)
    requires forall i: nat | |s.rows| <= i < |h.rows| :: after.rows[i] == h.rows[i]
    requires |after.rows| > |h.rows| ==> Creates(s, who, cs, n - 1) && after.rows[|h.rows|] == NewRow(who, cs[n - 1])
    requires |after.rows| == |h.rows| ==> !Creates(s, who, cs, n - 1)
    ensures AddedExactly(s, after, who, cs, n)
  {
    forall i: nat | |s.rows| <= i < |after.rows|
      ensures MadeByOne(after.rows[i], s, who, cs, n)
    {
      if i < |h.rows| {
        assert MadeByOne(h.rows[i], s, who, cs, n - 1);
        var j: nat :| j < n - 1 && MadeFrom(h.rows[i], s, who, cs, j);
        assert MadeFrom(after.rows[i], s, who, cs, j);
      } else {
        assert MadeFrom(after.rows[i], s, who, cs, n - 1);
      }
    }
    forall j: nat | j < n && Creates(s, who, cs, j)
      ensures HasItsRow(s, after, who, cs, j)
    {
      if j < n - 1 {
        assert HasItsRow(s, h, who, cs, j);
        var i: nat :| |s.rows| <= i < |h.rows| && MadeFrom(h.rows[i], s, who, cs, j);
        assert MadeFrom(after.rows[i], s, who, cs, j);
      } else {
        assert MadeFrom(after.rows[|h.rows|], s, who, cs, j);
      }
    }
  }

  // ----- Slots -----

  predicate LiveSlotsDistinct(rows: seq<Row>) {
    forall i, j | 0 <= i < j < |rows| && Live(rows[i]) && Live(rows[j]) :: rows[i].slot != rows[j].slot
  }

  /** Whether a row that is there will be live after a run. */
  predicate LiveAfter(r: Row, who: Scope, cs: seq<Candidate>) {
    if !Derived(r, who) then Live(r) else ValidFor(cs, r.identity) || r.status == Scheduled
  }

  predicate Reactivated(r: Row, who: Scope, cs: seq<Candidate>) {
    Derived(r, who) && !Live(r) && ValidFor(cs, r.identity)
  }

  /** A row to be reactivated has the slot of another row that will be live. */
  ghost predicate SlotConflict(s: Store, who: Scope, cs: seq<Candidate>) {
    exists i | 0 <= i < |s.rows| :: Reactivated(s.rows[i], who, cs) && SlotIsMet(s, who, cs, i)
  }

  ghost predicate SlotIsMet(s: Store, who: Scope, cs: seq<Candidate>, i: int)
    requires 0 <= i < |s.rows|
  {
    || (exists j | 0 <= j < |s.rows| && j != i :: LiveAfter(s.rows[j], who, cs) && s.rows[j].slot == s.rows[i].slot)
    || (exists k: nat | k < |cs| :: Creates(s, who, cs, k) && cs[k].slot == Some(s.rows[i].slot))
  }

  lemma LiveThroughout(r: Row, who: Scope, cs: seq<Candidate>, k: nat)
    requires Live(r) && LiveAfter(r, who, cs) && DistinctCandidates(cs) && k <= |cs|
    ensures LiveAt(r, who, cs, k)
  {
    if Derived(r, who) && Seen(cs[..k], r.identity) && r.status == Active {
      var i :| 0 <= i < k && cs[..k][i].identity == r.identity;
      var j :| 0 <= j < |cs| && cs[j].valid && cs[j].identity == r.identity;
      assert cs[i] == cs[..k][i];
      assert i == j;
      assert cs[..k][i].valid;
    }
  }

  ghost predicate LiveAsForeseen(s: Store, r: Store, who: Scope, cs: seq<Candidate>) {
    && |s.rows| <= |r.rows|
    && (forall i | 0 <= i < |s.rows| ::
        r.rows[i].slot == s.rows[i].slot && (Live(r.rows[i]) <==> LiveAfter(s.rows[i], who, cs)))
    && (forall i | |s.rows| <= i < |r.rows| :: Live(r.rows[i]) && Derived(r.rows[i], who))
    && AddedExactly(s, r, who, cs, |cs|)
  }

  lemma AddedSurvivesTheSweep(s: Store, h: Store, r: Store, who: Scope, cs: seq<Candidate>)
    requires |s.rows| <= |h.rows| == |r.rows| && AddedExactly(s, h, who, cs, |cs|)
    requires forall i | |s.rows| <= i < |h.rows| :: r.rows[i] == h.rows[i]
    ensures AddedExactly(s, r, who, cs, |cs|)
  {
    forall j: nat | j < |cs| && Creates(s, who, cs, j)
      ensures HasItsRow(s, r, who, cs, j)
    {
      assert HasItsRow(s, h, who, cs, j);
      var i: nat :| |s.rows| <= i < |h.rows| && MadeFrom(h.rows[i], s, who, cs, j);
      assert MadeFrom(r.rows[i], s, who, cs, j);
    }
  }

  lemma OldRowAfterRun(s: Store, who: Scope, cs: seq<Candidate>, i: nat)
    requires DistinctRows(s.rows, who) && DistinctCandidates(cs) && AllFaithful(cs, who) && i < |s.rows|
    ensures var r := Reconciled(s, who, cs).rows[i];
            r.slot == s.rows[i].slot && (Live(r) <==> LiveAfter(s.rows[i], who, cs))
  {
    FirstLoop(s.rows, s, who, cs);
    assert HandledAll(s.rows, s, who, cs).rows[i] == s.rows[i].(status := Fate(s.rows[i], who, cs));
    ValidIsSeen(cs, s.rows[i].identity);
  }

  lemma NewRowsAfterRun(s: Store, who: Scope, cs: seq<Candidate>)
    requires DistinctRows(s.rows, who) && DistinctCandidates(cs) && AllFaithful(cs, who)
    ensures var r := Reconciled(s, who, cs);
            && (forall i | |s.rows| <= i < |r.rows| :: Live(r.rows[i]) && Derived(r.rows[i], who))
            && AddedExactly(s, r, who, cs, |cs|)
  {
    FirstLoop(s.rows, s, who, cs);
    CreatedExactly(s, who, cs, |cs|);
    assert cs[..|cs|] == cs;
    AddedSurvivesTheSweep(s, HandledAll(s.rows, s, who, cs), Reconciled(s, who, cs), who, cs);
  }

  /** What a run leaves, row by row. */
  lemma RowsAfterRun(s: Store, who: Scope, cs: seq<Candidate>)
    requires DistinctRows(s.rows, who) && DistinctCandidates(cs) && AllFaithful(cs, who)
    ensures LiveAsForeseen(s, Reconciled(s, who, cs), who, cs) && DistinctRows(Reconciled(s, who, cs).rows, who)
  {
    AgreesAfterRun(s, who, cs);
    NewRowsAfterRun(s, who, cs);
    forall i | 0 <= i < |s.rows|
      ensures var r := Reconciled(s, who, cs).rows[i];
              r.slot == s.rows[i].slot && (Live(r) <==> LiveAfter(s.rows[i], who, cs))
    {
      OldRowAfterRun(s, who, cs, i);
    }
  }

  lemma ConflictIsSharing(s: Store, r: Store, who: Scope, cs: seq<Candidate>)
    requires LiveAsForeseen(s, r, who, cs) && SlotConflict(s, who, cs)
    ensures !LiveSlotsDistinct(r.rows)
  {
    var i :| 0 <= i < |s.rows| && Reactivated(s.rows[i], who, cs) && SlotIsMet(s, who, cs, i);
    if j :| 0 <= j < |s.rows| && j != i && LiveAfter(s.rows[j], who, cs) && s.rows[j].slot == s.rows[i].slot {
      TwoShare(r.rows, i, j);
    } else {
      var k: nat :| k < |cs| && Creates(s, who, cs, k) && cs[k].slot == Some(s.rows[i].slot);
      var j := RowOf(s, r, who, cs, k);
      TwoShare(r.rows, i, j);
    }
  }

  lemma TwoShare(rows: seq<Row>, i: nat, j: nat)
    requires i < |rows| && j < |rows| && i != j && Live(rows[i]) && Live(rows[j]) && rows[i].slot == rows[j].slot
    ensures !LiveSlotsDistinct(rows)
  {
    var x, y := if i < j then i else j, if i < j then j else i;
    assert 0 <= x < y < |rows| && Live(rows[x]) && Live(rows[y]) && rows[x].slot == rows[y].slot;
  }

  lemma RowOf(s: Store, r: Store, who: Scope, cs: seq<Candidate>, k: nat) returns (j: nat)
    requires LiveAsForeseen(s, r, who, cs) && k < |cs| && Creates(s, who, cs, k)
    ensures |s.rows| <= j < |r.rows| && Live(r.rows[j]) && Some(r.rows[j].slot) == cs[k].slot
  {
    assert HasItsRow(s, r, who, cs, k);
    j :| |s.rows| <= j < |r.rows| && MadeFrom(r.rows[j], s, who, cs, k);
  }

  /** A row that was there and a row that is added. */
  lemma AddedSharesOnlyWithReactivated(s: Store, who: Scope, cs: seq<Candidate>, i: nat, k: nat)
    requires DistinctCandidates(cs) && i < |s.rows| && LiveAfter(s.rows[i], who, cs)
    requires Creates(s, who, cs, k) && cs[k].slot == Some(s.rows[i].slot)
    ensures SlotConflict(s, who, cs)
  {
    if Live(s.rows[i]) {
      LiveThroughout(s.rows[i], who, cs, k);
      assert false;
    } else {
      assert Reactivated(s.rows[i], who, cs) && SlotIsMet(s, who, cs, i);
    }
  }

  lemma AddedRowsDoNotShare(s: Store, who: Scope, cs: seq<Candidate>, j: nat, k: nat)
    requires Creates(s, who, cs, j) && Creates(s, who, cs, k) && j != k
    ensures cs[j].slot != cs[k].slot
  {
    assert if j < k then Creates(s, who, cs, j) else Creates(s, who, cs, k);
  }

  lemma SharingIsConflict(s: Store, r: Store, who: Scope, cs: seq<Candidate>, i: nat, j: nat)
    requires LiveSlotsDistinct(s.rows) && LiveAsForeseen(s, r, who, cs)
    requires DistinctRows(r.rows, who) && DistinctCandidates(cs) && AllFaithful(cs, who)
    requires i < j < |r.rows| && Live(r.rows[i]) && Live(r.rows[j]) && r.rows[i].slot == r.rows[j].slot
    ensures SlotConflict(s, who, cs)
  {
    if j < |s.rows| {
      var x, y := if Live(s.rows[i]) then j else i, if Live(s.rows[i]) then i else j;
      assert Reactivated(s.rows[x], who, cs) && LiveAfter(s.rows[y], who, cs) && s.rows[y].slot == s.rows[x].slot;
      assert SlotIsMet(s, who, cs, x);
    } else {
      assert MadeByOne(r.rows[j], s, who, cs, |cs|);
      var k: nat :| k < |cs| && MadeFrom(r.rows[j], s, who, cs, k);
      if i < |s.rows| {
        AddedSharesOnlyWithReactivated(s, who, cs, i, k);
      } else {
        BothAdded(s, r, who, cs, i, j);
      }
    }
  }

  lemma BothAdded(s: Store, r: Store, who: Scope, cs: seq<Candidate>, i: nat, j: nat)
    requires LiveAsForeseen(s, r, who, cs) && DistinctRows(r.rows, who) && |s.rows| <= i < j < |r.rows|
    ensures r.rows[i].slot != r.rows[j].slot
  {
    assert MadeByOne(r.rows[i], s, who, cs, |cs|) && MadeByOne(r.rows[j], s, who, cs, |cs|);
    var k: nat :| k < |cs| && MadeFrom(r.rows[i], s, who, cs, k);
    var l: nat :| l < |cs| && MadeFrom(r.rows[j], s, who, cs, l);
    assert k != l;
    AddedRowsDoNotShare(s, who, cs, k, l);
  }

  /** Where live rows have distinct slots before a run, they have after it if and only if no row that is to be
      reactivated has the slot of another row that will be live. */
  lemma SlotsStayDistinctExactlyWithoutConflict(s: Store, who: Scope, cs: seq<Candidate>)
    requires LiveSlotsDistinct(s.rows)
    requires DistinctRows(s.rows, who) && DistinctCandidates(cs) && AllFaithful(cs, who)
    ensures LiveSlotsDistinct(Reconciled(s, who, cs).rows) <==> !SlotConflict(s, who, cs)
  {
    var r := Reconciled(s, who, cs);
    RowsAfterRun(s, who, cs);
    if SlotConflict(s, who, cs) {
      ConflictIsSharing(s, r, who, cs);
    } else if !LiveSlotsDistinct(r.rows) {
      var i, j :| 0 <= i < j < |r.rows| && Live(r.rows[i]) && Live(r.rows[j]) && r.rows[i].slot == r.rows[j].slot;
      SharingIsConflict(s, r, who, cs, i, j);
      assert false;
    }
  }

  lemma ValidIsSeen(cs: seq<Candidate>, identity: string)
    ensures ValidFor(cs, identity) ==> Seen(cs, identity)
  {
  }

  // ----- Running again -----

  /** A candidate for which this store would be given a new row. */
  predicate Pending(s: Store, who: Scope, c: Candidate) {
    c.valid && Current(s.rows, who, c.identity).None? && Creatable(s, who, c)
  }

  predicate NonePending(s: Store, who: Scope, cs: seq<Candidate>) {
    forall i | 0 <= i < |cs| :: !Pending(s, who, cs[i])
  }

  ghost predicate InAgreement(s: Store, who: Scope, cs: seq<Candidate>) {
    DistinctRows(s.rows, who) && DistinctCandidates(cs) && forall i | 0 <= i < |s.rows| :: Agrees(s.rows[i], who, cs)
  }

  lemma OneCandidateChangesNothing(s: Store, who: Scope, cs: seq<Candidate>, i: nat)
    requires InAgreement(s, who, cs) && i < |cs| && !Pending(s, who, cs[i])
    ensures Handled(s.rows, s, who, cs[i]) == s
  {
    var c := cs[i];
    var current := Current(s.rows, who, c.identity);
    if current.Some? {
      assert Agrees(s.rows[current.value], who, cs);
      assert ValidFor(cs, c.identity) <==> c.valid;
    }
  }

  lemma {:induction false} FirstLoopChangesNothing(s: Store, who: Scope, cs: seq<Candidate>, n: nat)
    requires InAgreement(s, who, cs) && n <= |cs| && NonePending(s, who, cs[..n])
    ensures HandledAll(s.rows, s, who, cs[..n]) == s
    decreases n
  {
    if n > 0 {
      assert cs[..n][..n - 1] == cs[..n - 1];
      assert cs[..n][n - 1] == cs[n - 1];
      FirstLoopChangesNothing(s, who, cs, n - 1);
      OneCandidateChangesNothing(s, who, cs, n - 1);
    }
  }

  /** The first pending candidate gets its row, and nothing takes rows away again. */
  lemma {:induction false} PendingGetsARow(s: Store, who: Scope, cs: seq<Candidate>, n: nat)
    requires InAgreement(s, who, cs) && n <= |cs| && !NonePending(s, who, cs[..n])
    ensures |HandledAll(s.rows, s, who, cs[..n]).rows| > |s.rows|
    decreases n
  {
    assert cs[..n][..n - 1] == cs[..n - 1];
    assert cs[..n][n - 1] == cs[n - 1];
    if NonePending(s, who, cs[..n - 1]) {
      FirstLoopChangesNothing(s, who, cs, n - 1);
      assert Pending(s, who, cs[n - 1]);
    } else {
      PendingGetsARow(s, who, cs, n - 1);
    }
  }

  /** Where rows and candidates agree, a run changes nothing if and only if no candidate is pending. */
  lemma SettledUnlessPending(s: Store, who: Scope, cs: seq<Candidate>)
    requires InAgreement(s, who, cs)
    ensures Reconciled(s, who, cs) == s <==> NonePending(s, who, cs)
  {
    assert cs[..|cs|] == cs;
    if NonePending(s, who, cs) {
      FirstLoopChangesNothing(s, who, cs, |cs|);
      assert Swept(s.rows, s.rows, who, cs) == s.rows by {
        forall i | 0 <= i < |s.rows|
          ensures !Stale(s.rows[i], who, cs)
        {
          assert Agrees(s.rows[i], who, cs);
          ValidIsSeen(cs, s.rows[i].identity);
        }
      }
    } else {
      PendingGetsARow(s, who, cs, |cs|);
    }
  }

  /** So a second run with the same inputs changes nothing, unless a candidate that could not be given a row in
      the first run can be given one now. */
  lemma SecondRunChangesNothingUnlessPending(s: Store, who: Scope, cs: seq<Candidate>)
    requires DistinctRows(s.rows, who) && DistinctCandidates(cs) && AllFaithful(cs, who)
    ensures Reconciled(Reconciled(s, who, cs), who, cs) == Reconciled(s, who, cs) <==>
              NonePending(Reconciled(s, who, cs), who, cs)
  {
    AgreesAfterRun(s, who, cs);
    SettledUnlessPending(Reconciled(s, who, cs), who, cs);
  }

  /** That does happen. A row whose identity has changed, say by a new rule version, is still active when its
      replacement is created, which therefore fails; then the row is revoked. Only the second run creates the
      replacement, and in between the subject has neither. */
  lemma ReplacementTakesTwoRuns(who: Scope, slot: Slot, origin: Origin, older: string, newer: string, version: nat)
    requires origin.From? && older != newer && !Expects(who)
    ensures var s := Store([Row(who.organization, who.user, origin, older, slot, Active)], version);
            var cs := [Candidate(newer, newer, who.user, origin, true, Some(slot))];
            && Reconciled(s, who, cs) == Store([Row(who.organization, who.user, origin, older, slot, Revoked)], version)
            && Reconciled(Reconciled(s, who, cs), who, cs).rows ==
               [Row(who.organization, who.user, origin, older, slot, Revoked),
                Row(who.organization, who.user, origin, newer, slot, Active)]
  {
    var row := Row(who.organization, who.user, origin, older, slot, Active);
    var revoked := row.(status := Revoked);
    var s := Store([row], version);
    var c := Candidate(newer, newer, who.user, origin, true, Some(slot));
    OnlyCandidate(s, who, c);
    assert SlotTaken(s.rows, slot);
    assert !Seen([c], older);
    var r := Reconciled(s, who, [c]);
    assert r.rows == [revoked];
    OnlyCandidate(r, who, c);
    assert !SlotTaken(r.rows, slot);
    assert Reconciled(r, who, [c]).rows == [revoked, NewRow(who, c)];
  }

  lemma OnlyCandidate(s: Store, who: Scope, c: Candidate)
    ensures HandledAll(s.rows, s, who, [c]) == Handled(s.rows, s, who, c)
  {
    assert [c][..0] == [];
    assert HandledAll(s.rows, s, who, []) == s;
  }

  /** Every creation moves the policy version on, so a run that expects one creates at most one row. */
  lemma {:induction false} ExpectingAVersionCreatesOneRow(s: Store, who: Scope, cs: seq<Candidate>)
    requires Expects(who)
    ensures |HandledAll(s.rows, s, who, cs).rows| <= |s.rows| + 1
    ensures HandledAll(s.rows, s, who, cs).policyVersion ==
            s.policyVersion + |HandledAll(s.rows, s, who, cs).rows| - |s.rows|
    ensures |HandledAll(s.rows, s, who, cs).rows| > |s.rows| ==> s.policyVersion == who.expectedPolicy.value
    decreases |cs|
  {
    if cs != [] {
      ExpectingAVersionCreatesOneRow(s, who, cs[..|cs| - 1]);
    }
  }

  // ----- From candidates as they arrive -----

  /** What the run needs to know of a candidate, given the ports, the clock and the governance contract. A source
      type that is empty or `explicit` would be stored as an explicit row. */
  function Prepared(c: I.Candidate, organization: string, ports: I.Ports, now: int,
                    govern: I.Candidate -> Option<Slot>): Candidate {
    Candidate(I.Join(I.CandidateParts(c)), I.Join(I.AssignmentParts(I.Projected(c))), c.subject,
              if c.source.kind == "" || c.source.kind == "explicit" then Explicit else From(c.source.kind, c.source.id),
              I.Validate(c, organization, ports, now).None?, govern(c))
  }

  lemma PreparedIsFaithful(c: I.Candidate, who: Scope, ports: I.Ports, now: int, govern: I.Candidate -> Option<Slot>)
    requires I.NoColon(c.source.version) && I.NoColon(c.ruleId) && I.NoColon(c.ruleVersion) && c.ruleVersion != ""
    requires c.source.kind != "" && c.source.kind != "explicit" && c.subject == who.user
    ensures Faithful(Prepared(c, who.organization, ports, now, govern), who)
  {
    I.ProjectionKeepsIdentity(c);
  }

  // ----- The service -----

  class Reconciler {
    var rows: seq<Row>
    var policyVersion: nat
    var outbox: seq<(nat, nat, nat, nat)>

    ghost function Database(): Store
      reads this
    {
      Store(rows, policyVersion)
    }

    method FindCurrent(existing: seq<Row>, who: Scope, identity: string) returns (current: Option<nat>)
      ensures current == Current(existing, who, identity)
    {
      current := None;
      for i := 0 to |existing|
        invariant current == Current(existing[..i], who, identity)
      {
        assert existing[..i + 1][..i] == existing[..i];
        if Derived(existing[i], who) && existing[i].identity == identity {
          current := Some(i);
        }
      }
      assert existing[..|existing|] == existing;
    }

    method CreateAssignment(who: Scope, c: Candidate) returns (created: bool)
      modifies this`rows, this`policyVersion
      ensures created == Creatable(old(Database()), who, c)
      ensures Database() == if created then Store(old(rows) + [NewRow(who, c)], old(policyVersion) + 1)
              else old(Database())
    {
      if c.slot.None? || (who.expectedPolicy.Some? && who.expectedPolicy.value != 0 &&
                          who.expectedPolicy.value != policyVersion) {
        return false;
      }
      for i := 0 to |rows|
        invariant !SlotTaken(rows[..i], c.slot.value)
      {
        if Live(rows[i]) && rows[i].slot == c.slot.value {
          return false;
        }
      }
      assert rows[..|rows|] == rows;
      rows := rows + [NewRow(who, c)];
      policyVersion := policyVersion + 1;
      created := true;
    }

    method UpdateStatus(i: nat, status: Status)
      requires i < |rows|
      modifies this`rows
      ensures rows == old(rows)[i := old(rows)[i].(status := status)]
    {
      rows := rows[i := rows[i].(status := status)];
    }

    /** The four lists of the reply, as counts: what became of one candidate. */
    method Handle(existing: seq<Row>, who: Scope, c: Candidate)
      returns (created: nat, updated: nat, invalidated: nat, errors: nat)
      requires |existing| <= |rows|
      modifies this`rows, this`policyVersion
      ensures Database() == Handled(existing, old(Database()), who, c)
      ensures created == |rows| - |old(rows)|
      ensures created + updated + invalidated + errors <= 1
      ensures created + updated + invalidated == 0 ==> Database() == old(Database())
    {
      created, updated, invalidated, errors := 0, 0, 0, 0;
      var current := FindCurrent(existing, who, c.identity);
      if !c.valid {
        if current.Some? && existing[current.value].status == Active {
          UpdateStatus(current.value, Invalidated);
          invalidated := 1;
        } else {
          errors := 1;
        }
      } else if current.None? {
        var ok := CreateAssignment(who, c);
        if ok {
          created := 1;
        } else {
          errors := 1;
        }
      } else if existing[current.value].status != Active {
        UpdateStatus(current.value, Active);
        updated := 1;
      }
    }

    method RevokeStale(existing: seq<Row>, who: Scope, cs: seq<Candidate>) returns (revoked: nat)
      requires |existing| <= |rows|
      modifies this`rows
      ensures rows == Swept(existing, old(rows), who, cs)
    {
      revoked := 0;
      for i := 0 to |existing|
        invariant |rows| == |old(rows)|
        invariant forall j | 0 <= j < |rows| ::
                    rows[j] == if j < i && Stale(existing[j], who, cs) then old(rows)[j].(status := Revoked)
                        else old(rows)[j]
      {
        if Stale(existing[i], who, cs) {
          UpdateStatus(i, Revoked);
          revoked := revoked + 1;
        }
      }
    }

    /** `reconcileScopeCandidates`. */
    method ReconcileScopeCandidates(who: Scope, cs: seq<Candidate>) returns (created: nat, errors: nat)
      modifies this
      ensures Database() == Reconciled(old(Database()), who, cs)
      ensures created == |rows| - |old(rows)|
      ensures |outbox| == |old(outbox)| + 1 && outbox[..|old(outbox)|] == old(outbox)
      ensures outbox[|old(outbox)|].0 == created && outbox[|old(outbox)|].3 == errors
      ensures DistinctRows(old(rows), who) && DistinctCandidates(cs) && AllFaithful(cs, who) ==>
                forall i | 0 <= i < |rows| :: Agrees(rows[i], who, cs)
    {
      var existing := rows;
      ghost var start := Database();
      var updated, invalidated := 0, 0;
      created, errors := 0, 0;
      for i := 0 to |cs|
        invariant |existing| <= |rows| && created == |rows| - |existing|
        invariant Database() == HandledAll(existing, start, who, cs[..i])
        invariant outbox == old(outbox)
      {
        assert cs[..i + 1][..i] == cs[..i];
        var c, u, v, e := Handle(existing, who, cs[i]);
        created, updated, invalidated, errors := created + c, updated + u, invalidated + v, errors + e;
      }
      assert cs[..|cs|] == cs;
      var revoked := RevokeStale(existing, who, cs);
      outbox := outbox + [(created, updated, invalidated + revoked, errors)];
      if DistinctRows(existing, who) && DistinctCandidates(cs) && AllFaithful(cs, who) {
        AgreesAfterRun(start, who, cs);
      }
    }

    /** The whole call: one candidate without exactly one target fails it before anything is written. */
    method Reconcile(raw: seq<I.Candidate>, who: Scope, ports: I.Ports, now: int, govern: I.Candidate -> Option<Slot>)
      returns (ok: bool)
      modifies this
      ensures ok == forall i | 0 <= i < |raw| :: I.ValidTarget(raw[i].target)
      ensures !ok ==> Database() == old(Database()) && outbox == old(outbox)
      ensures ok ==> Database() == Reconciled(old(Database()), who,
                       seq(|raw|, i requires 0 <= i < |raw| => Prepared(raw[i], who.organization, ports, now, govern)))
    {
      var cs: seq<Candidate> := [];
      for i := 0 to |raw|
        invariant |cs| == i
        invariant forall j | 0 <= j < i :: I.ValidTarget(raw[j].target)
        invariant forall j | 0 <= j < i :: cs[j] == Prepared(raw[j], who.organization, ports, now, govern)
        invariant Database() == old(Database()) && outbox == old(outbox)
      {
        if !I.ValidTarget(raw[i].target) {
          return false;
        }
        cs := cs + [Prepared(raw[i], who.organization, ports, now, govern)];
      }
      assert cs == seq(|raw|, i requires 0 <= i < |raw| => Prepared(raw[i], who.organization, ports, now, govern));
      var created, errors := ReconcileScopeCandidates(who, cs);
      ok := true;
    }

    /** `revokeSourceDerivedScopes`: every active row of the organization that comes from one of the sources. */
    method RevokeSourceDerivedScopes(organization: string, kind: string, ids: set<string>) returns (revoked: nat)
      modifies this
      ensures |rows| == |old(rows)| && policyVersion == old(policyVersion)
      ensures forall i | 0 <= i < |rows| ::
                rows[i] == if FromSource(old(rows)[i], organization, kind, ids) && old(rows)[i].status == Active
                           then old(rows)[i].(status := Revoked) else old(rows)[i]
      ensures forall i | 0 <= i < |rows| && FromSource(rows[i], organization, kind, ids) :: rows[i].status != Active
    {
      revoked := 0;
      for i := 0 to |rows|
        invariant |rows| == |old(rows)| && policyVersion == old(policyVersion)
        invariant forall j | 0 <= j < |rows| ::
                    rows[j] == if j < i && FromSource(old(rows)[j], organization, kind, ids) &&
                        old(rows)[j].status == Active
                               then old(rows)[j].(status := Revoked) else old(rows)[j]
      {
        if FromSource(rows[i], organization, kind, ids) && rows[i].status == Active {
          UpdateStatus(i, Revoked);
          revoked := revoked + 1;
        }
      }
      outbox := outbox + [(0, 0, revoked, 0)];
    }
  }

  predicate FromSource(r: Row, organization: string, kind: string, ids: set<string>) {
    r.organization == organization && r.origin.From? && r.origin.kind == kind && r.origin.ref in ids
  }
}
