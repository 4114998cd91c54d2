/** The evidence side of backend/organization-mapping: what `reviewedState` reads, and the `review` call
    that numbers the reviews of an evaluation. A review id is a random UUID, so ids come in no order. */
module Reviewing {
  import opened Wrappers

  type Org = string
  type DraftId = nat
  type EvaluationId = nat
  type ReviewId = nat
  type PolicyId = nat
  type SnapshotId = nat

  datatype Policy = Policy(organization: Org, draft: DraftId)
  datatype Snapshot = Snapshot(organization: Org, version: nat, freshness: string)
  datatype Evaluation = Evaluation(organization: Org, draft: DraftId, policy: PolicyId, snapshot: SnapshotId,
                                   outcome: string, reasonCode: string, hash: string)
  datatype Review = Review(organization: Org, evaluation: EvaluationId, version: nat, decision: string)

  /** Policies that are archived are not in the table. */
  datatype Evidence = Evidence(policies: map<PolicyId, Policy>, evaluations: map<EvaluationId, Evaluation>,
                               reviews: map<ReviewId, Review>, snapshots: map<SnapshotId, Snapshot>)

  // ----- reviewedState -----

  datatype Blocker = Unresolved(evaluation: EvaluationId) | Unevaluated(policy: PolicyId) |
      Unapproved(evaluation: EvaluationId)

  /** The rows that concern one draft, and what stands in the way of publishing it. */
  datatype Reviewed = Reviewed(rows: Evidence, conflicts: set<EvaluationId>, blockers: set<Blocker>)

  /** Reviews are sorted by id before `new Map(...)`, so of one evaluation's reviews the greatest id wins. */
  predicate LatestById(reviews: map<ReviewId, Review>, r: ReviewId) {
    && r in reviews
    && forall q | q in reviews && reviews[q].evaluation == reviews[r].evaluation :: q <= r
  }

  predicate ApprovedLast(reviews: map<ReviewId, Review>, e: EvaluationId) {
    exists r | r in reviews :: LatestById(reviews, r) && reviews[r].evaluation == e && reviews[r].decision == "approved"
  }

  predicate UsedBy(evaluations: map<EvaluationId, Evaluation>, s: SnapshotId) {
    exists e | e in evaluations :: evaluations[e].snapshot == s
  }

  predicate Judged(evaluations: map<EvaluationId, Evaluation>, p: PolicyId) {
    exists e | e in evaluations :: evaluations[e].policy == p
  }

  function RowsFor(all: Evidence, org: Org, draft: DraftId): Evidence {
    var evaluations :=
      map e | e in all.evaluations && all.evaluations[e].organization == org && all.evaluations[e].draft == draft ::
            all.evaluations[e];
    Evidence(
      (map p | p in all.policies && all.policies[p] == Policy(org, draft) :: all.policies[p]),
      evaluations,
      (map r | r in all.reviews && all.reviews[r].organization == org && all.reviews[r].evaluation in evaluations ::
       all.reviews[r]),
      map s | s in all.snapshots && all.snapshots[s].organization == org && UsedBy(evaluations, s) :: all.snapshots[s])
  }

  function Conflicts(rows: Evidence): set<EvaluationId> {
    set e | e in rows.evaluations && rows.evaluations[e].reasonCode == "mapping_outcome_conflict"
  }

  function Blockers(rows: Evidence): set<Blocker> {
    (set e | e in rows.evaluations && rows.evaluations[e].outcome == "UNRESOLVED" :: Unresolved(e)) +
    (set p | p in rows.policies && !Judged(rows.evaluations, p) :: Unevaluated(p)) +
    (set e | e in rows.evaluations && rows.evaluations[e].outcome == "MATCH" && !ApprovedLast(rows.reviews, e) ::
     Unapproved(e))
  }

  function ReviewedState(all: Evidence, org: Org, draft: DraftId): Reviewed {
    var rows := RowsFor(all, org, draft);
    Reviewed(rows, Conflicts(rows), Blockers(rows))
  }

  /** Nothing unresolved, no conflict, and every source snapshot still current. */
  predicate Clean(state: Reviewed) {
    && state.blockers == {} && state.conflicts == {}
    && forall s | s in state.rows.snapshots :: state.rows.snapshots[s].freshness == "current"
  }

  /** What a clean state guarantees: every evaluation of the draft is resolved and free of conflict, every
      policy has one, every match has an approved review, and no evaluation rests on a stale snapshot. */
  lemma CleanMeansReviewed(all: Evidence, org: Org, draft: DraftId, e: EvaluationId)
    requires Clean(ReviewedState(all, org, draft))
    requires e in all.evaluations && all.evaluations[e].organization == org && all.evaluations[e].draft == draft
    ensures all.evaluations[e].outcome != "UNRESOLVED" && all.evaluations[e].reasonCode != "mapping_outcome_conflict"
    ensures all.evaluations[e].outcome == "MATCH" ==>
              exists r :: Concerns(all.reviews, r, org, e) && all.reviews[r].decision == "approved"
    ensures all.evaluations[e].snapshot in all.snapshots &&
            all.snapshots[all.evaluations[e].snapshot].organization == org ==>
              all.snapshots[all.evaluations[e].snapshot].freshness == "current"
  {
    var state := ReviewedState(all, org, draft);
    assert e in state.rows.evaluations;
    assert Unresolved(e) !in state.blockers && Unapproved(e) !in state.blockers && e !in state.conflicts;
    assert state.rows.evaluations[e] == all.evaluations[e];
    assert UsedBy(state.rows.evaluations, all.evaluations[e].snapshot);
    var s := all.evaluations[e].snapshot;
    assert s in all.snapshots && all.snapshots[s].organization == org ==> s in state.rows.snapshots;
    if all.evaluations[e].outcome == "MATCH" {
      var r :| r in state.rows.reviews && LatestById(state.rows.reviews, r) && state.rows.reviews[r].evaluation == e &&
               state.rows.reviews[r].decision == "approved";
      assert Concerns(all.reviews, r, org, e);
    }
  }

  // ----- Which review decides -----

  /** No review of the evaluation has a greater version. */
  predicate Newest(reviews: map<ReviewId, Review>, n: ReviewId) {
    && n in reviews
    && forall q | q in reviews && reviews[q].evaluation == reviews[n].evaluation ::
         reviews[q].version <= reviews[n].version
  }

  function Redecided(reviews: map<ReviewId, Review>, decide: ReviewId -> string): map<ReviewId, Review> {
    map r | r in reviews :: reviews[r].(decision := decide(r))
  }

  /** The review with the greatest id is the one `ApprovedLast` looks at, and it decides alone. */
  lemma GreatestIdDecides(reviews: map<ReviewId, Review>, r: ReviewId)
    requires LatestById(reviews, r)
    ensures ApprovedLast(reviews, reviews[r].evaluation) <==> reviews[r].decision == "approved"
  {
  }

  /** The greatest id carries the greatest version, reading either way. */
  lemma GreatestIdIsNewest(reviews: map<ReviewId, Review>, r: ReviewId, n: ReviewId)
    requires DistinctVersions(reviews)
    requires LatestById(reviews, r) && Newest(reviews, n) && reviews[r].evaluation == reviews[n].evaluation
    ensures r == n <==> Newest(reviews, r)
    ensures r == n <==> LatestById(reviews, n)
  {
    if Newest(reviews, r) {
      assert reviews[r].version == reviews[n].version;
    }
    if LatestById(reviews, n) {
      assert r <= n && n <= r;
    }
  }

  predicate DistinctVersions(reviews: map<ReviewId, Review>) {
    forall q, r | q in reviews && r in reviews && reviews[q].evaluation == reviews[r].evaluation &&
                  reviews[q].version == reviews[r].version :: q == r
  }

  /** Numbered reviews have distinct versions within what `reviewedState` reads for an organization. */
  lemma NumberedMeansDistinct(all: Evidence, org: Org, draft: DraftId)
    requires ReviewsNumbered(all.reviews)
    ensures DistinctVersions(ReviewedState(all, org, draft).rows.reviews)
  {
    var rows := RowsFor(all, org, draft);
    forall q, r | q in rows.reviews && r in rows.reviews && rows.reviews[q].evaluation == rows.reviews[r].evaluation &&
                  rows.reviews[q].version == rows.reviews[r].version
      ensures q == r
    {
      assert SameSlot(all.reviews[q], all.reviews[r]);
    }
  }

  /** Whether an evaluation counts as approved is what its newest review says, whatever the reviews decided, if and
      only if its greatest id is that of its newest review. */
  lemma NewestDecidesExactlyWhenGreatest(reviews: map<ReviewId, Review>, n: ReviewId)
    requires DistinctVersions(reviews) && Newest(reviews, n)
    ensures LatestById(reviews, n) <==>
            forall decide: ReviewId -> string ::
              ApprovedLast(Redecided(reviews, decide), reviews[n].evaluation) <==> decide(n) == "approved"
  {
    if LatestById(reviews, n) {
      forall decide: ReviewId -> string
        ensures ApprovedLast(Redecided(reviews, decide), reviews[n].evaluation) <==> decide(n) == "approved"
      {
        assert LatestById(Redecided(reviews, decide), n);
        GreatestIdDecides(Redecided(reviews, decide), n);
      }
    } else {
      var decide: ReviewId -> string := x => if x == n then "approved" else "rejected";
      var other := Redecided(reviews, decide);
      assert "rejected" != "approved" by { assert "rejected"[0] != "approved"[0]; }
      assert !ApprovedLast(other, reviews[n].evaluation) by {
        if ApprovedLast(other, reviews[n].evaluation) {
          var r :| r in other && LatestById(other, r) && other[r].evaluation == reviews[n].evaluation &&
              other[r].decision == "approved";
          assert r == n;
          forall q | q in reviews && reviews[q].evaluation == reviews[n].evaluation
            ensures q <= n
          {
            assert q in other && other[q].evaluation == other[r].evaluation;
          }
        }
      }
      assert !(ApprovedLast(Redecided(reviews, decide), reviews[n].evaluation) <==> decide(n) == "approved");
    }
  }

  /** Of the reviews that `reviewedState` reads, numbered as they are: whether an evaluation counts as approved is what
      its newest review says if and only if the greatest id carries the greatest version. */
  lemma NewestDecidesWhereReviewsAreNumbered(all: Evidence, org: Org, draft: DraftId, n: ReviewId, r: ReviewId)
    requires ReviewsNumbered(all.reviews)
    requires var reviews := ReviewedState(all, org, draft).rows.reviews;
             Newest(reviews, n) && LatestById(reviews, r) && reviews[r].evaluation == reviews[n].evaluation
    ensures var reviews := ReviewedState(all, org, draft).rows.reviews;
            r == n <==> forall decide: ReviewId -> string ::
              ApprovedLast(Redecided(reviews, decide), reviews[n].evaluation) <==> decide(n) == "approved"
  {
    var reviews := ReviewedState(all, org, draft).rows.reviews;
    NumberedMeansDistinct(all, org, draft);
    GreatestIdIsNewest(reviews, r, n);
    NewestDecidesExactlyWhenGreatest(reviews, n);
  }

  /** So in a clean state the newest review of a match approves, where its id is the greatest of its evaluation. */
  lemma CleanMeansNewestApproved(all: Evidence, org: Org, draft: DraftId, e: EvaluationId, n: ReviewId)
    requires Clean(ReviewedState(all, org, draft))
    requires e in all.evaluations && all.evaluations[e].organization == org && all.evaluations[e].draft == draft
    requires all.evaluations[e].outcome == "MATCH"
    requires Concerns(all.reviews, n, org, e) && forall q | q in all.reviews && Concerns(all.reviews, q, org, e) ::
               all.reviews[q].version <= all.reviews[n].version && q <= n
    ensures all.reviews[n].decision == "approved"
  {
    var rows := ReviewedState(all, org, draft).rows;
    assert e in rows.evaluations && n in rows.reviews;
    assert Unapproved(e) !in Blockers(rows);
    assert LatestById(rows.reviews, n);
    GreatestIdDecides(rows.reviews, n);
  }

  /** A new review, which has the greatest version, keeps the newest one deciding if and only if its random id is the
      greatest of its evaluation. */
  lemma NewReviewDecidesIffItsIdIsGreatest(reviews: map<ReviewId, Review>, id: ReviewId, row: Review)
    requires id !in reviews
    requires forall q | q in reviews && reviews[q].evaluation == row.evaluation :: reviews[q].version < row.version
    ensures Newest(reviews[id := row], id)
    ensures LatestById(reviews[id := row], id) <==>
              forall q | q in reviews && reviews[q].evaluation == row.evaluation :: q < id
  {
    if LatestById(reviews[id := row], id) {
      forall q | q in reviews && reviews[q].evaluation == row.evaluation
        ensures q < id
      {
        assert q in reviews[id := row];
      }
    }
  }

  /** The approved review need not be the newest one: here version 2 rejects what version 1 approved, its
      random id is the smaller one, and the draft still counts as fully approved. */
  lemma NewestReviewMayReject(org: Org)
    ensures var all := Evidence(map[], map[0 := Evaluation(org, 0, 0, 0, "MATCH", "", "")],
                                map[7 := Review(org, 0, 1, "approved"), 3 := Review(org, 0, 2, "rejected")], map[]);
            Clean(ReviewedState(all, org, 0)) && ReviewsNumbered(all.reviews)
  {
    var all := Evidence(map[], map[0 := Evaluation(org, 0, 0, 0, "MATCH", "", "")],
                        map[7 := Review(org, 0, 1, "approved"), 3 := Review(org, 0, 2, "rejected")], map[]);
    var rows := RowsFor(all, org, 0);
    assert LatestById(rows.reviews, 7) && rows.reviews[7].decision == "approved";
    assert ApprovedLast(rows.reviews, 0);
    assert Concerns(all.reviews, 7, org, 0) && all.reviews[7].version == 1;
  }

  // ----- review -----

  datatype Key = Key(organization: Org, subject: string, key: string)

  datatype Request = Request(evaluation: EvaluationId, decision: string, reason: string,
                             canonicalTarget: Option<string>, expectedReviewVersion: nat,
                             expectedEvaluationHash: Option<string>, expectedSnapshot: Option<SnapshotId>,
                             expectedSnapshotVersion: Option<nat>)

  datatype Stored = Stored(request: Request, response: Review)

  /** What the lock `${organizationId}:review:${evaluationId}` is held on. */
  datatype Place = Place(organization: Org, evaluation: EvaluationId)

  /** A review call between its checks and its commit. */
  datatype PendingReview = PendingReview(key: Key, request: Request, id: ReviewId, row: Review)

  datatype Desk = Desk(evidence: Evidence, idempotency: map<Key, Stored>, outbox: seq<Key>, locks: map<Place,
                       PendingReview>)

  /** Other calls may replace policies, evaluations and snapshots at any time. */
  datatype Action =
    | Intake(policies: map<PolicyId, Policy>, evaluations: map<EvaluationId, Evaluation>, snapshots: map<SnapshotId,
             Snapshot>)
    | Start(key: Key, request: Request, id: ReviewId)
    | Commit(place: Place)
    | Abort(place: Place)

  /** `Waiting` for the lock of the evaluation; nothing has been read yet. */
  datatype Reply = Refused | KeyConflict | Replayed(response: Review) | Waiting | Admitted(row: Review)

  const DECISIONS := {"approved", "rejected", "ignored", "returned_to_author", "canonical_target_selected",
                      "organization_value_created"}

  predicate Concerns(reviews: map<ReviewId, Review>, r: ReviewId, org: Org, e: EvaluationId) {
    r in reviews && reviews[r].organization == org && reviews[r].evaluation == e
  }

  /** `Math.max(0, ...versions)` of an evaluation's reviews. */
  predicate HighestVersion(reviews: map<ReviewId, Review>, org: Org, e: EvaluationId, version: nat) {
    && (forall r | r in reviews && Concerns(reviews, r, org, e) :: reviews[r].version <= version)
    && (version == 0 || exists r | r in reviews :: Concerns(reviews, r, org, e) && reviews[r].version == version)
  }

  /** What the caller may say it has seen of the evaluation and its snapshot; a version of zero says nothing. */
  predicate AsExpected(all: Evidence, request: Request)
    requires request.evaluation in all.evaluations && all.evaluations[request.evaluation].snapshot in all.snapshots
  {
    var evaluation := all.evaluations[request.evaluation];
    && (request.expectedEvaluationHash.Some? ==> request.expectedEvaluationHash.value == evaluation.hash)
    && (request.expectedSnapshot.Some? ==> request.expectedSnapshot.value == evaluation.snapshot)
    && (request.expectedSnapshotVersion.Some? && request.expectedSnapshotVersion.value != 0 ==>
          request.expectedSnapshotVersion.value == all.snapshots[evaluation.snapshot].version)
  }

  /** The checks of `review`, made under the lock of the evaluation. */
  predicate Acceptable(all: Evidence, org: Org, request: Request) {
    && request.decision in DECISIONS && request.reason != ""
    && request.evaluation in all.evaluations && all.evaluations[request.evaluation].organization == org
    && var snapshot := all.evaluations[request.evaluation].snapshot;
    && snapshot in all.snapshots && all.snapshots[snapshot].organization == org &&
       all.snapshots[snapshot].freshness == "current"
    && AsExpected(all, request)
    && (request.decision in {"canonical_target_selected", "organization_value_created"} ==>
        request.canonicalTarget.Some?)
    && HighestVersion(all.reviews, org, request.evaluation, request.expectedReviewVersion)
  }

  function NewReview(org: Org, request: Request): Review {
    Review(org, request.evaluation, request.expectedReviewVersion + 1, request.decision)
  }

  function PlaceOf(key: Key, request: Request): Place {
    Place(key.organization, request.evaluation)
  }

  function Answer(d: Desk, key: Key, request: Request): Reply {
    if key in d.idempotency then
      if d.idempotency[key].request == request then Replayed(d.idempotency[key].response) else KeyConflict
    else if PlaceOf(key, request) in d.locks then Waiting
    else if Acceptable(d.evidence, key.organization, request) then Admitted(NewReview(key.organization, request))
    else Refused
  }

  function Locked(d: Desk, key: Key, request: Request, id: ReviewId): Desk {
    if Answer(d, key, request).Admitted?
    then d.(locks := d.locks[PlaceOf(key, request) :=
                             PendingReview(key, request, id, NewReview(key.organization, request))]) else d
  }

  function Released(d: Desk, place: Place): Desk {
    d.(locks := d.locks - {place})
  }

  /** The insert, the outbox event and the stored response; a key or an id that is taken by now rolls back. */
  function Committed(d: Desk, place: Place): Desk {
    if place !in d.locks || d.locks[place].key in d.idempotency ||
       d.locks[place].id in d.evidence.reviews then Released(d, place)
    else
      var p := d.locks[place];
      Desk(d.evidence.(reviews := d.evidence.reviews[p.id := p.row]), d.idempotency[p.key := Stored(p.request, p.row)],
           d.outbox + [p.key], d.locks - {place})
  }

  function After(d: Desk, a: Action): Desk {
    match a
    case Intake(policies, evaluations, snapshots) =>
      d.(evidence := Evidence(policies, evaluations, d.evidence.reviews, snapshots))
    case Start(key, request, id) => Locked(d, key, request, id)
    case Commit(place) => Committed(d, place)
    case Abort(place) => Released(d, place)
  }

  function Exec(d: Desk, acts: seq<Action>): Desk
    decreases |acts|
  {
    if acts == [] then d else Exec(After(d, acts[0]), acts[1..])
  }

  /** The review versions of each evaluation are 1..n: positive, pairwise different, each with its predecessor. */
  ghost predicate ReviewsNumbered(reviews: map<ReviewId, Review>) {
    && (forall r | r in reviews :: reviews[r].version >= 1)
    && (forall q, r | q in reviews && r in reviews && SameSlot(reviews[q], reviews[r]) :: q == r)
    && (forall r | r in reviews && reviews[r].version > 1 :: HasPredecessor(reviews, reviews[r]))
  }

  predicate SameSlot(a: Review, b: Review) {
    a.organization == b.organization && a.evaluation == b.evaluation && a.version == b.version
  }

  ghost predicate HasPredecessor(reviews: map<ReviewId, Review>, row: Review) {
    exists q :: Concerns(reviews, q, row.organization, row.evaluation) && reviews[q].version + 1 == row.version
  }

  lemma NewReviewKeepsNumbering(reviews: map<ReviewId, Review>, id: ReviewId, row: Review)
    requires ReviewsNumbered(reviews) && id !in reviews && row.version >= 1
    requires HighestVersion(reviews, row.organization, row.evaluation, row.version - 1)
    ensures ReviewsNumbered(reviews[id := row])
  {
    var rs := reviews[id := row];
    forall r | r in rs && rs[r].version > 1 ensures HasPredecessor(rs, rs[r]) {
      if r == id {
        NextHasPredecessor(reviews, row);
      }
      PredecessorStays(reviews, id, row, rs[r]);
    }
    forall q | q in reviews ensures !SameSlot(reviews[q], row) {
      if SameSlot(reviews[q], row) { assert Concerns(reviews, q, row.organization, row.evaluation); }
    }
  }

  lemma NextHasPredecessor(reviews: map<ReviewId, Review>, row: Review)
    requires row.version > 1 && HighestVersion(reviews, row.organization, row.evaluation, row.version - 1)
    ensures HasPredecessor(reviews, row)
  {
    var q :| q in reviews && Concerns(reviews, q, row.organization, row.evaluation) &&
        reviews[q].version == row.version - 1;
    assert Concerns(reviews, q, row.organization, row.evaluation) && reviews[q].version + 1 == row.version;
  }

  lemma PredecessorStays(reviews: map<ReviewId, Review>, id: ReviewId, row: Review, other: Review)
    requires id !in reviews && HasPredecessor(reviews, other)
    ensures HasPredecessor(reviews[id := row], other)
  {
    var q :| Concerns(reviews, q, other.organization, other.evaluation) && reviews[q].version + 1 == other.version;
    assert Concerns(reviews[id := row], q, other.organization, other.evaluation);
  }

  /** Adding a review elsewhere does not change the highest version here. */
  lemma HighestElsewhere(reviews: map<ReviewId, Review>, id: ReviewId, row: Review, org: Org, e: EvaluationId,
                         version: nat)
    requires HighestVersion(reviews, org, e, version) && id !in reviews
    requires row.organization != org || row.evaluation != e
    ensures HighestVersion(reviews[id := row], org, e, version)
  {
    if version > 0 {
      var r :| r in reviews && Concerns(reviews, r, org, e) && reviews[r].version == version;
      assert Concerns(reviews[id := row], r, org, e);
    }
  }

  /** Every pending review is the next of its evaluation, and stays so for as long as its lock is held. */
  predicate NextInLine(reviews: map<ReviewId, Review>, place: Place, p: PendingReview) {
    && p.row.organization == place.organization && p.row.evaluation == place.evaluation && p.row.version >= 1
    && HighestVersion(reviews, place.organization, place.evaluation, p.row.version - 1)
  }

  ghost predicate Inv(d: Desk) {
    && ReviewsNumbered(d.evidence.reviews)
    && forall place | place in d.locks :: NextInLine(d.evidence.reviews, place, d.locks[place])
  }

  lemma CommitKeepsOthersInLine(d: Desk, place: Place, other: Place)
    requires Inv(d) && place in d.locks && other in d.locks && place != other &&
             d.locks[place].id !in d.evidence.reviews
    ensures NextInLine(d.evidence.reviews[d.locks[place].id := d.locks[place].row], other, d.locks[other])
  {
    assert NextInLine(d.evidence.reviews, place, d.locks[place]) &&
           NextInLine(d.evidence.reviews, other, d.locks[other]);
    HighestElsewhere(d.evidence.reviews, d.locks[place].id, d.locks[place].row, other.organization, other.evaluation,
                     d.locks[other].row.version - 1);
  }

  lemma CommitKeepsInv(d: Desk, place: Place)
    requires Inv(d)
    ensures Inv(Committed(d, place))
  {
    var after := Committed(d, place);
    if place in d.locks && d.locks[place].key !in d.idempotency && d.locks[place].id !in d.evidence.reviews {
      assert NextInLine(d.evidence.reviews, place, d.locks[place]);
      NewReviewKeepsNumbering(d.evidence.reviews, d.locks[place].id, d.locks[place].row);
      forall other | other in after.locks
        ensures NextInLine(after.evidence.reviews, other, after.locks[other])
      {
        CommitKeepsOthersInLine(d, place, other);
      }
    }
  }

  lemma StepKeepsNumbering(d: Desk, a: Action)
    requires Inv(d)
    ensures Inv(After(d, a))
  {
    match a {
      case Commit(place) => CommitKeepsInv(d, place);
      case _ =>
    }
  }

  /** Over any run, with evidence coming in and other reviews starting and committing between the checks of a review and
      its commit, the review versions of every evaluation are always 1..n. */
  lemma {:induction false} ReviewVersionsAreGapless(d: Desk, acts: seq<Action>)
    requires Inv(d)
    ensures Inv(Exec(d, acts)) && ReviewsNumbered(Exec(d, acts).evidence.reviews)
    decreases |acts|
  {
    if acts != [] {
      StepKeepsNumbering(d, acts[0]);
      ReviewVersionsAreGapless(After(d, acts[0]), acts[1..]);
    }
  }

  /** Saved reviews and stored responses are never replaced; and once a key has a stored response, a later
      call under it changes nothing: it gets that response, or a conflict if its request differs. */
  lemma {:induction false} ReviewReplayChangesNothing(d: Desk, acts: seq<Action>, key: Key, request: Request,
                                                      id: ReviewId)
    requires key in d.idempotency
    ensures var later := Exec(d, acts); var stored := d.idempotency[key];
            && After(later, Start(key, request, id)) == later
            && Answer(later, key, request) == if request == stored.request then Replayed(stored.response)
               else KeyConflict
    ensures forall r | r in d.evidence.reviews :: r in Exec(d, acts).evidence.reviews &&
              Exec(d, acts).evidence.reviews[r] == d.evidence.reviews[r]
    decreases |acts|
  {
    if acts != [] { ReviewReplayChangesNothing(After(d, acts[0]), acts[1..], key, request, id); }
  }
}
