/** `review` of backend/organization-mapping/service.js on the in-memory repository, where acquiring the lock of the
    evaluation does nothing: review calls overlap, and a failing one puts back its copy of the tables. */
module ReviewService {
  import opened Wrappers
  import opened Reviewing
  import M = MemoryTransactions

  /** The desk without locks, and the audit log. */
  datatype Memory = Memory(desk: Desk, audits: seq<Key>)

  datatype Submission = Submission(key: Key, request: Request, id: ReviewId)

  datatype Fit = Fit(id: ReviewId, row: Review)

  type Service = M.Service<Memory, Action, Submission, Fit, Review>

  type Store = M.Store<Memory, Submission, Fit, Review>

  type Step = M.Action<Action, Submission>

  /** What happens outside any review call. */
  function Edited(m: Memory, e: Action): Memory {
    if e.Intake? then m.(desk := Reviewing.After(m.desk, e)) else m
  }

  function Known(m: Memory, q: Submission): bool {
    q.key in m.desk.idempotency
  }

  function Verdict(m: Memory, q: Submission): M.Verdict<Fit> {
    if q.key in m.desk.idempotency then
      if m.desk.idempotency[q.key].request == q.request then M.Replay else M.Refuse
    else if Acceptable(m.desk.evidence, q.key.organization, q.request)
    then M.Proceed(Fit(q.id, NewReview(q.key.organization, q.request)))
    else M.Refuse
  }

  function WithReview(m: Memory, f: Fit): (Memory, Review) {
    (m.(desk := m.desk.(evidence := m.desk.evidence.(reviews := m.desk.evidence.reviews[f.id := f.row]))), f.row)
  }

  const WRITES: nat := 3

  /** The writes that follow: audit entry, outbox event, stored response. */
  function Following(m: Memory, q: Submission, row: Review, k: nat): Memory {
    if k == 0 then m.(audits := m.audits + [q.key])
    else if k == 1 then m.(desk := m.desk.(outbox := m.desk.outbox + [q.key]))
    else m.(desk := m.desk.(idempotency := m.desk.idempotency[q.key := Stored(q.request, row)]))
  }

  const SERVICE: Service := M.Service((m: Memory, e: Action) => Edited(m, e),
                                      (m: Memory, q: Submission) => Known(m, q),
                                      (m: Memory, q: Submission) => Verdict(m, q),
                                      (m: Memory, f: Fit) => WithReview(m, f),
                                      WRITES,
                                      (m: Memory, q: Submission, row: Review, k: nat) => Following(m, q, row, k))

  // ----- One save -----

  /** Only one version is the highest. */
  lemma HighestVersionIsUnique(reviews: map<ReviewId, Review>, org: Org, e: EvaluationId, v: nat, w: nat)
    requires HighestVersion(reviews, org, e, v) && HighestVersion(reviews, org, e, w)
    ensures v == w
  {
    if v > 0 {
      var r :| r in reviews && Concerns(reviews, r, org, e) && reviews[r].version == v;
    }
    if w > 0 {
      var r :| r in reviews && Concerns(reviews, r, org, e) && reviews[r].version == w;
    }
  }

  /** Numbered reviews have every version up to the highest. */
  lemma {:induction false} VersionIsThere(reviews: map<ReviewId, Review>, org: Org, e: EvaluationId, r: ReviewId,
                                          version: nat)
    returns (q: ReviewId)
    requires ReviewsNumbered(reviews) && Concerns(reviews, r, org, e) && 1 <= version <= reviews[r].version
    ensures Concerns(reviews, q, org, e) && reviews[q].version == version
    decreases reviews[r].version
  {
    if version == reviews[r].version {
      q := r;
    } else {
      assert HasPredecessor(reviews, reviews[r]);
      var p :| Concerns(reviews, p, org, e) && reviews[p].version + 1 == reviews[r].version;
      q := VersionIsThere(reviews, org, e, p, version);
    }
  }

  /** Saving a review under a new id keeps the versions 1..n if and only if the version it was numbered after is still
      the highest of its evaluation. */
  lemma SaveKeepsNumberingIffStillHighest(reviews: map<ReviewId, Review>, id: ReviewId, row: Review)
    requires ReviewsNumbered(reviews) && id !in reviews && row.version >= 1
    ensures ReviewsNumbered(reviews[id := row]) <==>
              HighestVersion(reviews, row.organization, row.evaluation, row.version - 1)
  {
    if HighestVersion(reviews, row.organization, row.evaluation, row.version - 1) {
      NewReviewKeepsNumbering(reviews, id, row);
    } else {
      NotHighestBreaksNumbering(reviews, id, row);
    }
  }

  lemma NotHighestBreaksNumbering(reviews: map<ReviewId, Review>, id: ReviewId, row: Review)
    requires ReviewsNumbered(reviews) && id !in reviews && row.version >= 1
    requires !HighestVersion(reviews, row.organization, row.evaluation, row.version - 1)
    ensures !ReviewsNumbered(reviews[id := row])
  {
    var org, e, after := row.organization, row.evaluation, reviews[id := row];
    if r :| r in reviews && Concerns(reviews, r, org, e) && reviews[r].version > row.version - 1 {
      var q := VersionIsThere(reviews, org, e, r, row.version);
      assert SameSlot(after[q], after[id]) && q != id;
    } else {
      assert forall r | r in reviews && Concerns(reviews, r, org, e) :: reviews[r].version != row.version - 1;
      assert id in after && after[id].version > 1;
    }
  }

  // ----- Runs -----

  predicate SavesAt(s: Store, a: Step, org: Org, e: EvaluationId) {
    a.Save? && M.MaySave(s, a.call) && s.calls[a.call].stage.row.row.organization == org &&
    s.calls[a.call].stage.row.row.evaluation == e
  }

  predicate NobodySaves(s: Store, acts: seq<Step>, org: Org, e: EvaluationId)
    decreases |acts|
  {
    acts == [] || (!SavesAt(s, acts[0], org, e) && NobodySaves(M.After(SERVICE, s, acts[0]), acts[1..], org, e))
  }

  /** Ids are random: a call never saves under an id that is taken. */
  predicate FreshIds(s: Store, acts: seq<Step>)
    decreases |acts|
  {
    acts == [] || (FreshId(s, acts[0]) && FreshIds(M.After(SERVICE, s, acts[0]), acts[1..]))
  }

  predicate FreshId(s: Store, a: Step) {
    a.Save? && M.MaySave(s, a.call) ==> s.calls[a.call].stage.row.id !in s.tables.desk.evidence.reviews
  }

  lemma StepElsewhere(s: Store, a: Step, org: Org, e: EvaluationId, version: nat)
    requires HighestVersion(s.tables.desk.evidence.reviews, org, e, version)
    requires !M.RollsBack(SERVICE, s, a) && !SavesAt(s, a, org, e) && FreshId(s, a)
    ensures HighestVersion(M.After(SERVICE, s, a).tables.desk.evidence.reviews, org, e, version)
  {
    if a.Save? && M.MaySave(s, a.call) {
      HighestElsewhere(s.tables.desk.evidence.reviews, s.calls[a.call].stage.row.id, s.calls[a.call].stage.row.row, org,
                       e, version);
    }
  }

  /** As long as nobody saves a review of the evaluation or rolls back, its highest version stays. */
  lemma {:induction false} HighestStaysWhenAlone(s: Store, acts: seq<Step>, org: Org, e: EvaluationId, version: nat)
    requires HighestVersion(s.tables.desk.evidence.reviews, org, e, version)
    requires M.NoRollback(SERVICE, s, acts) && NobodySaves(s, acts, org, e) && FreshIds(s, acts)
    ensures HighestVersion(M.Exec(SERVICE, s, acts).tables.desk.evidence.reviews, org, e, version)
    decreases |acts|
  {
    if acts != [] {
      StepElsewhere(s, acts[0], org, e, version);
      HighestStaysWhenAlone(M.After(SERVICE, s, acts[0]), acts[1..], org, e, version);
    }
  }

  /** The store in which call `c` saves, having checked in `s`. */
  function AtSave(s: Store, c: M.CallId, acts: seq<Step>): Store {
    M.Exec(SERVICE, M.After(SERVICE, s, M.Check(c)), acts)
  }

  lemma CheckedCall(s: Store, c: M.CallId, acts: seq<Step>)
    requires c in s.calls && s.calls[c].stage.Begun? && Verdict(s.tables, s.calls[c].request).Proceed? &&
             M.Apart(acts, c)
    ensures var q := s.calls[c].request;
            && c in AtSave(s, c, acts).calls
            && AtSave(s, c, acts).calls[c].stage == M.Passed(Fit(q.id, NewReview(q.key.organization, q.request)))
            && M.After(SERVICE, s, M.Check(c)).tables == s.tables
            && HighestVersion(s.tables.desk.evidence.reviews, q.key.organization, q.request.evaluation,
                              q.request.expectedReviewVersion)
  {
    M.OwnCallStays(SERVICE, M.After(SERVICE, s, M.Check(c)), acts, c);
  }

  /** Any number of calls overlap with call `c`, which checks in `s` and saves after the others' steps `acts`: its save
      keeps the versions 1..n if and only if the highest version is still the one it read. */
  lemma NumberedExactlyWhenStillHighest(s: Store, c: M.CallId, acts: seq<Step>)
    requires c in s.calls && s.calls[c].stage.Begun? && Verdict(s.tables, s.calls[c].request).Proceed? &&
             M.Apart(acts, c)
    requires ReviewsNumbered(AtSave(s, c, acts).tables.desk.evidence.reviews)
    requires s.calls[c].request.id !in AtSave(s, c, acts).tables.desk.evidence.reviews
    ensures var q := s.calls[c].request;
            ReviewsNumbered(M.After(SERVICE, AtSave(s, c, acts), M.Save(c)).tables.desk.evidence.reviews) <==>
            HighestVersion(AtSave(s, c, acts).tables.desk.evidence.reviews, q.key.organization, q.request.evaluation,
                           q.request.expectedReviewVersion)
  {
    var q := s.calls[c].request;
    CheckedCall(s, c, acts);
    SaveKeepsNumberingIffStillHighest(AtSave(s, c, acts).tables.desk.evidence.reviews, q.id,
                                      NewReview(q.key.organization, q.request));
  }

  predicate ReviewsStay(before: map<ReviewId, Review>, after: map<ReviewId, Review>) {
    forall r | r in before :: r in after && after[r] == before[r]
  }

  lemma {:induction false} ReviewsOnlyGrow(s: Store, acts: seq<Step>)
    requires M.NoRollback(SERVICE, s, acts) && FreshIds(s, acts)
    ensures ReviewsStay(s.tables.desk.evidence.reviews, M.Exec(SERVICE, s, acts).tables.desk.evidence.reviews)
    decreases |acts|
  {
    if acts != [] {
      ReviewsOnlyGrow(M.After(SERVICE, s, acts[0]), acts[1..]);
    }
  }

  lemma {:induction false} SavedByAnother(s: Store, acts: seq<Step>, org: Org, e: EvaluationId) returns (x: ReviewId)
    requires M.NoRollback(SERVICE, s, acts) && FreshIds(s, acts) && !NobodySaves(s, acts, org, e)
    ensures x !in s.tables.desk.evidence.reviews &&
            Concerns(M.Exec(SERVICE, s, acts).tables.desk.evidence.reviews, x, org, e)
    decreases |acts|
  {
    var next := M.After(SERVICE, s, acts[0]);
    ReviewsOnlyGrow(next, acts[1..]);
    if SavesAt(s, acts[0], org, e) {
      x := s.calls[acts[0].call].stage.row.id;
    } else {
      x := SavedByAnother(next, acts[1..], org, e);
    }
  }

  /** If somebody else saved a review of the evaluation and the numbering is still sound, the highest version is
      another. */
  lemma AnotherReviewRaisesTheVersion(s: Store, acts: seq<Step>, org: Org, e: EvaluationId, version: nat)
    requires ReviewsNumbered(s.tables.desk.evidence.reviews) &&
             HighestVersion(s.tables.desk.evidence.reviews, org, e, version)
    requires M.NoRollback(SERVICE, s, acts) && FreshIds(s, acts) && !NobodySaves(s, acts, org, e)
    requires ReviewsNumbered(M.Exec(SERVICE, s, acts).tables.desk.evidence.reviews)
    ensures !HighestVersion(M.Exec(SERVICE, s, acts).tables.desk.evidence.reviews, org, e, version)
  {
    var before, after := s.tables.desk.evidence.reviews, M.Exec(SERVICE, s, acts).tables.desk.evidence.reviews;
    var x := SavedByAnother(s, acts, org, e);
    ReviewsOnlyGrow(s, acts);
    if after[x].version <= version {
      var r :| r in before && Concerns(before, r, org, e) && before[r].version == version;
      var q := VersionIsThere(before, org, e, r, after[x].version);
      assert SameSlot(after[q], after[x]);
      assert false;
    }
  }

  /** Where nobody rolls back in between: if and only if no other review of the evaluation is saved in between. */
  lemma NumberedExactlyWhenAlone(s: Store, c: M.CallId, acts: seq<Step>)
    requires c in s.calls && s.calls[c].stage.Begun? && Verdict(s.tables, s.calls[c].request).Proceed? &&
             M.Apart(acts, c)
    requires ReviewsNumbered(s.tables.desk.evidence.reviews)
    requires ReviewsNumbered(AtSave(s, c, acts).tables.desk.evidence.reviews)
    requires s.calls[c].request.id !in AtSave(s, c, acts).tables.desk.evidence.reviews
    requires M.NoRollback(SERVICE, M.After(SERVICE, s, M.Check(c)), acts) &&
             FreshIds(M.After(SERVICE, s, M.Check(c)), acts)
    ensures ReviewsNumbered(M.After(SERVICE, AtSave(s, c, acts), M.Save(c)).tables.desk.evidence.reviews) <==>
            NobodySaves(M.After(SERVICE, s, M.Check(c)), acts, s.calls[c].request.key.organization,
                        s.calls[c].request.request.evaluation)
  {
    var q := s.calls[c].request;
    var checked := M.After(SERVICE, s, M.Check(c));
    CheckedCall(s, c, acts);
    NumberedExactlyWhenStillHighest(s, c, acts);
    if NobodySaves(checked, acts, q.key.organization, q.request.evaluation) {
      HighestStaysWhenAlone(checked, acts, q.key.organization, q.request.evaluation, q.request.expectedReviewVersion);
    } else {
      AnotherReviewRaisesTheVersion(checked, acts, q.key.organization, q.request.evaluation,
                                    q.request.expectedReviewVersion);
    }
  }

  // ----- Whole runs -----

  function ReviewsOf(s: Store): map<ReviewId, Review> {
    s.tables.desk.evidence.reviews
  }

  /** A save finds the version it was numbered after to be the highest still. */
  predicate OnHighest(s: Store, a: Step) {
    a.Save? && M.MaySave(s, a.call) ==>
      var row := s.calls[a.call].stage.row.row;
      row.version >= 1 && HighestVersion(ReviewsOf(s), row.organization, row.evaluation, row.version - 1)
  }

  predicate AllOnHighest(s: Store, acts: seq<Step>)
    decreases |acts|
  {
    acts == [] || (OnHighest(s, acts[0]) && AllOnHighest(M.After(SERVICE, s, acts[0]), acts[1..]))
  }

  /** Every row about to be saved was numbered after a version that is there. */
  ghost predicate Based(s: Store) {
    forall c | c in s.calls && s.calls[c].stage.Passed? :: IsBased(ReviewsOf(s), s.calls[c].stage.row.row)
  }

  ghost predicate IsBased(reviews: map<ReviewId, Review>, row: Review) {
    row.version >= 1 && (row.version > 1 ==> HasPredecessor(reviews, row))
  }

  lemma StaysBased(before: map<ReviewId, Review>, after: map<ReviewId, Review>, row: Review)
    requires ReviewsStay(before, after) && IsBased(before, row)
    ensures IsBased(after, row)
  {
    if row.version > 1 {
      var q :| Concerns(before, q, row.organization, row.evaluation) && before[q].version + 1 == row.version;
      assert Concerns(after, q, row.organization, row.evaluation);
    }
  }

  lemma AcceptedIsBased(all: Evidence, org: Org, request: Request)
    requires Acceptable(all, org, request)
    ensures IsBased(all.reviews, NewReview(org, request))
  {
    if request.expectedReviewVersion > 0 {
      var r :| r in all.reviews && Concerns(all.reviews, r, org, request.evaluation) &&
               all.reviews[r].version == request.expectedReviewVersion;
      assert Concerns(all.reviews, r, org, request.evaluation);
    }
  }

  lemma StepKeepsReviews(s: Store, a: Step)
    requires !M.RollsBack(SERVICE, s, a) && FreshId(s, a)
    ensures ReviewsStay(ReviewsOf(s), ReviewsOf(M.After(SERVICE, s, a)))
  {
  }

  lemma StepKeepsBased(s: Store, a: Step)
    requires Based(s) && !M.RollsBack(SERVICE, s, a) && FreshId(s, a)
    ensures Based(M.After(SERVICE, s, a))
  {
    var next := M.After(SERVICE, s, a);
    StepKeepsReviews(s, a);
    forall c | c in next.calls && next.calls[c].stage.Passed?
      ensures IsBased(ReviewsOf(next), next.calls[c].stage.row.row)
    {
      if c in s.calls && s.calls[c].stage.Passed? && next.calls[c] == s.calls[c] {
        StaysBased(ReviewsOf(s), ReviewsOf(next), s.calls[c].stage.row.row);
      } else {
        CheckedIsBased(s, a, c);
      }
    }
  }

  lemma CheckedIsBased(s: Store, a: Step, c: M.CallId)
    requires c in M.After(SERVICE, s, a).calls && M.After(SERVICE, s, a).calls[c].stage.Passed?
    requires !(c in s.calls && s.calls[c].stage.Passed? && M.After(SERVICE, s, a).calls[c] == s.calls[c])
    ensures IsBased(ReviewsOf(M.After(SERVICE, s, a)), M.After(SERVICE, s, a).calls[c].stage.row.row)
  {
    assert a == M.Check(c) && Verdict(s.tables, s.calls[c].request).Proceed?;
    AcceptedIsBased(s.tables.desk.evidence, s.calls[c].request.key.organization, s.calls[c].request.request);
  }

  ghost predicate Repeated(reviews: map<ReviewId, Review>) {
    exists q, r :: q in reviews && r in reviews && q != r && SameSlot(reviews[q], reviews[r])
  }

  lemma RepeatedStays(before: map<ReviewId, Review>, after: map<ReviewId, Review>)
    requires ReviewsStay(before, after) && Repeated(before)
    ensures !ReviewsNumbered(after)
  {
    var q, r :| q in before && r in before && q != r && SameSlot(before[q], before[r]);
    assert q in after && r in after && SameSlot(after[q], after[r]);
  }

  /** A row that was numbered after a version no longer the highest repeats a version. */
  lemma OvertakenRepeats(reviews: map<ReviewId, Review>, id: ReviewId, row: Review)
    requires ReviewsNumbered(reviews) && id !in reviews && IsBased(reviews, row)
    requires !HighestVersion(reviews, row.organization, row.evaluation, row.version - 1)
    ensures Repeated(reviews[id := row])
  {
    var org, e, after := row.organization, row.evaluation, reviews[id := row];
    if row.version > 1 {
      var p :| Concerns(reviews, p, org, e) && reviews[p].version + 1 == row.version;
    }
    var r :| r in reviews && Concerns(reviews, r, org, e) && reviews[r].version > row.version - 1;
    var q := VersionIsThere(reviews, org, e, r, row.version);
    assert SameSlot(after[q], after[id]) && q != id;
  }

  lemma OtherStepsLeaveReviews(s: Store, a: Step)
    requires !M.RollsBack(SERVICE, s, a) && !(a.Save? && M.MaySave(s, a.call))
    ensures ReviewsOf(M.After(SERVICE, s, a)) == ReviewsOf(s)
  {
  }

  lemma SaveAddsTheRow(s: Store, c: M.CallId)
    requires M.MaySave(s, c)
    ensures var f := s.calls[c].stage.row;
            ReviewsOf(M.After(SERVICE, s, M.Save(c))) == ReviewsOf(s)[f.id := f.row]
  {
  }

  lemma RowNumbers(reviews: map<ReviewId, Review>, id: ReviewId, row: Review)
    requires ReviewsNumbered(reviews) && IsBased(reviews, row) && id !in reviews
    ensures if HighestVersion(reviews, row.organization, row.evaluation, row.version - 1)
            then ReviewsNumbered(reviews[id := row]) else Repeated(reviews[id := row])
  {
    if HighestVersion(reviews, row.organization, row.evaluation, row.version - 1) {
      NewReviewKeepsNumbering(reviews, id, row);
    } else {
      OvertakenRepeats(reviews, id, row);
    }
  }

  lemma StepNumbers(s: Store, a: Step)
    requires ReviewsNumbered(ReviewsOf(s)) && Based(s) && !M.RollsBack(SERVICE, s, a) && FreshId(s, a)
    ensures OnHighest(s, a) ==> ReviewsNumbered(ReviewsOf(M.After(SERVICE, s, a)))
    ensures !OnHighest(s, a) ==> Repeated(ReviewsOf(M.After(SERVICE, s, a)))
  {
    if a.Save? && M.MaySave(s, a.call) {
      var f := s.calls[a.call].stage.row;
      assert IsBased(ReviewsOf(s), f.row);
      SaveAddsTheRow(s, a.call);
      RowNumbers(ReviewsOf(s), f.id, f.row);
    } else {
      OtherStepsLeaveReviews(s, a);
    }
  }

  /** Over any run of overlapping calls without a rollback, the versions of every evaluation are still 1..n if and only
      if every save found the version it was numbered after to be the highest. */
  lemma {:induction false} RunsAreNumberedExactlyWhenOnHighest(s: Store, acts: seq<Step>)
    requires ReviewsNumbered(ReviewsOf(s)) && Based(s) && M.NoRollback(SERVICE, s, acts) && FreshIds(s, acts)
    ensures ReviewsNumbered(ReviewsOf(M.Exec(SERVICE, s, acts))) <==> AllOnHighest(s, acts)
    decreases |acts|
  {
    if acts != [] {
      var next := M.After(SERVICE, s, acts[0]);
      StepNumbers(s, acts[0]);
      StepKeepsBased(s, acts[0]);
      if OnHighest(s, acts[0]) {
        RunsAreNumberedExactlyWhenOnHighest(next, acts[1..]);
      } else {
        ReviewsOnlyGrow(next, acts[1..]);
        RepeatedStays(ReviewsOf(next), ReviewsOf(M.Exec(SERVICE, next, acts[1..])));
      }
    }
  }

  // ----- The run that fails -----

  /** Two calls that both check before either saves. */
  function BothCheck(s: Store, q: Submission, r: Submission): Store {
    M.After(SERVICE, M.After(SERVICE, M.After(SERVICE, M.After(SERVICE, s, M.Begin(0, q)), M.Begin(1, r)), M.Check(0)),
            M.Check(1))
  }

  function BothSave(s: Store, q: Submission, r: Submission): Store {
    M.After(SERVICE, M.After(SERVICE, BothCheck(s, q, r), M.Save(0)), M.Save(1))
  }

  lemma BothPass(m: Memory, q: Submission, r: Submission, f: Fit, g: Fit)
    requires q.key !in m.desk.idempotency && r.key !in m.desk.idempotency
    requires Verdict(m, q) == M.Proceed(f) && Verdict(m, r) == M.Proceed(g)
    ensures var s := BothCheck(M.Store(m, map[]), q, r);
            s.tables == m && s.calls == map[0 := M.Call(q, m, M.Passed(f)), 1 := M.Call(r, m, M.Passed(g))]
  {
  }

  lemma BothSaved(s: Store, f: Fit, g: Fit)
    requires 0 in s.calls && 1 in s.calls && s.calls[0].stage == M.Passed(f) && s.calls[1].stage == M.Passed(g)
    ensures ReviewsOf(M.After(SERVICE, M.After(SERVICE, s, M.Save(0)), M.Save(1))) ==
            ReviewsOf(s)[f.id := f.row][g.id := g.row]
  {
    SaveAddsTheRow(s, 0);
    SaveAddsTheRow(M.After(SERVICE, s, M.Save(0)), 1);
  }

  /** Any two reviews of one evaluation that overlap so get the same version. */
  lemma OverlappingReviewsRepeatTheVersion(m: Memory, q: Submission, r: Submission)
    requires q.key !in m.desk.idempotency && r.key !in m.desk.idempotency && q.id != r.id
    requires Verdict(m, q).Proceed? && Verdict(m, r).Proceed?
    requires q.key.organization == r.key.organization && q.request.evaluation == r.request.evaluation
    ensures var reviews := ReviewsOf(BothSave(M.Store(m, map[]), q, r));
            && q.id in reviews && r.id in reviews && SameSlot(reviews[q.id], reviews[r.id])
            && !ReviewsNumbered(reviews)
  {
    var f, g := Verdict(m, q).row, Verdict(m, r).row;
    BothPass(m, q, r, f, g);
    BothSaved(BothCheck(M.Store(m, map[]), q, r), f, g);
    HighestVersionIsUnique(m.desk.evidence.reviews, q.key.organization, q.request.evaluation,
                           q.request.expectedReviewVersion, r.request.expectedReviewVersion);
    var reviews := m.desk.evidence.reviews[q.id := f.row][r.id := g.row];
    assert SameSlot(reviews[q.id], reviews[r.id]);
  }

  // ----- The repository -----

  datatype Outcome = Answered(reply: Reply) | Saved(response: Review) | RolledBack

  /** What everybody else does at the pauses of a review call: before its checks, before it saves the review, and before
      each of the writes that follow. */
  datatype Pauses = Pauses(beforeCheck: seq<Step>, beforeSave: seq<Step>, beforeWrite: nat -> seq<Step>)

  predicate ApartFrom(p: Pauses, c: M.CallId) {
    M.Apart(p.beforeCheck, c) && M.Apart(p.beforeSave, c) && forall k: nat | k < WRITES :: M.Apart(p.beforeWrite(k), c)
  }

  function UpToCheck(c: M.CallId, q: Submission, p: Pauses): seq<Step> {
    [M.Begin(c, q)] + p.beforeCheck + [M.Check(c)]
  }

  function UpToSave(c: M.CallId, q: Submission, p: Pauses): seq<Step> {
    UpToCheck(c, q, p) + p.beforeSave + [M.Save(c)]
  }

  /** Up to the first `k` of the writes that follow the save. */
  function UpToWrite(c: M.CallId, q: Submission, p: Pauses, k: nat): seq<Step> {
    if k == 0 then UpToSave(c, q, p) else UpToWrite(c, q, p, k - 1) + p.beforeWrite(k - 1) + [M.Write(c)]
  }

  function Complete(c: M.CallId, q: Submission, p: Pauses): seq<Step> {
    UpToWrite(c, q, p, WRITES)
  }

  function Further(stage: M.Stage<Fit, Review>): M.Stage<Fit, Review>
    requires stage.Stored?
  {
    M.Stored(stage.saved, stage.written + 1)
  }

  /** The places where a call that passed its checks may fail: each of its writes. */
  predicate Failed(run: seq<Step>, c: M.CallId, q: Submission, p: Pauses) {
    || run == UpToCheck(c, q, p) + p.beforeSave + [M.Fail(c)]
    || exists k: nat | k < WRITES :: run == UpToWrite(c, q, p, k) + p.beforeWrite(k) + [M.Fail(c)]
  }

  class ReviewRepository {
    const fails: nat -> bool
    var writes: nat
    var evidence: Evidence
    var idempotency: map<Key, Stored>
    var outbox: seq<Key>
    var locks: map<Place, PendingReview>
    var audits: seq<Key>
    var calls: map<M.CallId, M.Call<Memory, Submission, Fit, Review>>

    function Tables(): Memory
      reads this
    {
      Memory(Desk(evidence, idempotency, outbox, locks), audits)
    }

    function Database(): Store
      reads this
    {
      M.Store(Tables(), calls)
    }

    ghost predicate Calm()
      reads this
    {
      forall n | n >= writes :: !fails(n)
    }

    method Write() returns (ok: bool)
      modifies this`writes
      ensures old(Calm()) ==> ok && Calm()
    {
      ok := !fails(writes);
      writes := writes + 1;
    }

    /** `Math.max(0, ...versions)`. */
    method CurrentVersion(org: Org, e: EvaluationId) returns (current: nat)
      ensures HighestVersion(evidence.reviews, org, e, current)
    {
      current := 0;
      var left := evidence.reviews.Keys;
      while left != {}
        invariant left <= evidence.reviews.Keys
        invariant forall r | r in evidence.reviews && r !in left && Concerns(evidence.reviews, r, org, e) ::
                    evidence.reviews[r].version <= current
        invariant current == 0 || exists r | r in evidence.reviews ::
                    Concerns(evidence.reviews, r, org, e) && evidence.reviews[r].version == current
        decreases |left|
      {
        var r :| r in left;
        left := left - {r};
        if evidence.reviews[r].organization == org && evidence.reviews[r].evaluation == e &&
           evidence.reviews[r].version > current {
          current := evidence.reviews[r].version;
          assert Concerns(evidence.reviews, r, org, e);
        }
      }
    }

    /** Everything `review` checks inside the transaction. */
    method Check(org: Org, request: Request) returns (ok: bool)
      ensures ok == Acceptable(evidence, org, request)
    {
      if request.decision !in DECISIONS || request.reason == "" ||
         request.evaluation !in evidence.evaluations || evidence.evaluations[request.evaluation].organization != org {
        return false;
      }
      var snapshot := evidence.evaluations[request.evaluation].snapshot;
      if snapshot !in evidence.snapshots || evidence.snapshots[snapshot].organization != org ||
         evidence.snapshots[snapshot].freshness != "current" {
        return false;
      }
      if !AsExpected(evidence, request) {
        return false;
      }
      if request.decision in {"canonical_target_selected", "organization_value_created"} &&
         request.canonicalTarget.None? {
        return false;
      }
      var current := CurrentVersion(org, request.evaluation);
      if HighestVersion(evidence.reviews, org, request.evaluation, request.expectedReviewVersion) {
        HighestVersionIsUnique(evidence.reviews, org, request.evaluation, current, request.expectedReviewVersion);
      }
      ok := current == request.expectedReviewVersion;
    }

    method Interleave(acts: seq<Step>)
      modifies this`evidence, this`idempotency, this`outbox, this`locks, this`audits, this`calls
      ensures Database() == M.Exec(SERVICE, old(Database()), acts)
    {
      var s := M.Exec(SERVICE, Database(), acts);
      var d := s.tables.desk;
      evidence, idempotency, outbox, locks, audits, calls := d.evidence, d.idempotency, d.outbox, d.locks,
          s.tables.audits, s.calls;
    }

    method RollBack(c: M.CallId)
      requires c in calls
      modifies this`evidence, this`idempotency, this`outbox, this`locks, this`audits, this`calls
      ensures Database() == M.After(SERVICE, old(Database()), M.Fail(c))
    {
      var copy := calls[c].copy;
      evidence, idempotency, outbox, locks := copy.desk.evidence, copy.desk.idempotency, copy.desk.outbox,
          copy.desk.locks;
      audits, calls := copy.audits, calls - {c};
    }

    method BeginCall(c: M.CallId, q: Submission)
      requires c !in calls && q.key !in idempotency
      modifies this`calls
      ensures Database() == M.After(SERVICE, old(Database()), M.Begin(c, q))
      ensures c in calls && calls[c].request == q && calls[c].stage.Begun?
    {
      calls := calls[c := M.Call(q, Tables(), M.Begun)];
    }

    method CheckCall(c: M.CallId) returns (reply: Reply)
      requires c in calls && calls[c].stage.Begun?
      modifies this`evidence, this`idempotency, this`outbox, this`locks, this`audits, this`calls
      ensures Database() == M.After(SERVICE, old(Database()), M.Check(c))
      ensures reply == Answer(old(Database()).tables.desk.(locks := map[]), old(calls)[c].request.key,
                              old(calls)[c].request.request)
      ensures reply.Admitted? ==> c in calls && calls[c].stage.Passed? && calls[c].request == old(calls)[c].request
    {
      var q := calls[c].request;
      if q.key in idempotency {
        if idempotency[q.key].request == q.request {
          reply := Replayed(idempotency[q.key].response);
          calls := calls - {c};
        } else {
          RollBack(c);
          reply := KeyConflict;
        }
        return;
      }
      var ok := Check(q.key.organization, q.request);
      if !ok {
        RollBack(c);
        return Refused;
      }
      var row := NewReview(q.key.organization, q.request);
      calls := calls[c := calls[c].(stage := M.Passed(Fit(q.id, row)))];
      reply := Admitted(row);
    }

    method SaveCall(c: M.CallId) returns (ok: bool)
      requires c in calls && calls[c].stage.Passed?
      modifies this
      ensures Database() == M.After(SERVICE, old(Database()), if ok then M.Save(c) else M.Fail(c))
      ensures ok ==>
                c in calls && calls[c].stage == M.Stored(old(calls)[c].stage.row.row, 0) &&
                calls[c].request == old(calls)[c].request
      ensures old(Calm()) ==> ok && Calm()
    {
      var f := calls[c].stage.row;
      ok := Write();
      if ok {
        evidence := evidence.(reviews := evidence.reviews[f.id := f.row]);
        calls := calls[c := calls[c].(stage := M.Stored(f.row, 0))];
      } else {
        RollBack(c);
      }
    }

    /** The audit entry, the outbox event or the stored response, whichever is next. */
    method MakeWrite(q: Submission, row: Review, k: nat)
      modifies this`audits, this`outbox, this`idempotency
      ensures Database().tables == Following(old(Database()).tables, q, row, k)
    {
      if k == 0 {
        audits := audits + [q.key];
      } else if k == 1 {
        outbox := outbox + [q.key];
      } else {
        idempotency := idempotency[q.key := Stored(q.request, row)];
      }
    }

    /** One of the writes that follow the save, or the error that rolls back. */
    method WriteNext(c: M.CallId) returns (ok: bool)
      requires c in calls && calls[c].stage.Stored?
      modifies this
      ensures Database() == M.After(SERVICE, old(Database()), if ok then M.Write(c) else M.Fail(c))
      ensures ok && old(calls)[c].stage.written + 1 < WRITES ==>
                c in calls && calls[c] == old(calls)[c].(stage := Further(old(calls)[c].stage))
      ensures ok && old(calls)[c].stage.written + 1 == WRITES ==>
                var q := old(calls)[c].request;
                q.key in idempotency && idempotency[q.key] == Stored(q.request, old(calls)[c].stage.saved)
      ensures old(Calm()) ==> ok && Calm()
    {
      var q, row, k := calls[c].request, calls[c].stage.saved, calls[c].stage.written;
      ok := Write();
      if !ok {
        RollBack(c);
        return;
      }
      MakeWrite(q, row, k);
      calls := if k + 1 >= WRITES then calls - {c} else calls[c := calls[c].(stage := M.Stored(row, k + 1))];
    }

    /** A pause of call `c`, which has come this far since `start`. */
    method Pause(c: M.CallId, acts: seq<Step>, ghost start: Store, ghost run: seq<Step>)
      requires c in calls && M.Apart(acts, c) && Database() == M.Exec(SERVICE, start, run)
      modifies this`evidence, this`idempotency, this`outbox, this`locks, this`audits, this`calls
      ensures Database() == M.Exec(SERVICE, start, run + acts)
      ensures c in calls && calls[c] == old(calls)[c]
    {
      M.OwnCallStays(SERVICE, Database(), acts, c);
      Interleave(acts);
      M.ExecJoins(SERVICE, start, run, acts);
    }

    /** The writes that follow the save, with others at work before each. */
    method WriteRest(c: M.CallId, q: Submission, pauses: Pauses, ghost start: Store)
      returns (outcome: Outcome, ghost run: seq<Step>)
      requires c in calls && calls[c].stage.Stored? && calls[c].stage.written == 0 && calls[c].request == q
      requires ApartFrom(pauses, c) && Database() == M.Exec(SERVICE, start, UpToSave(c, q, pauses))
      modifies this
      ensures Database() == M.Exec(SERVICE, start, run) && !outcome.Answered?
      ensures outcome.Saved? ==> run == Complete(c, q, pauses)
      ensures outcome.Saved? ==> q.key in idempotency && idempotency[q.key] == Stored(q.request, outcome.response)
      ensures outcome.RolledBack? ==> Failed(run, c, q, pauses)
      ensures old(Calm()) ==> outcome.Saved?
    {
      var row := calls[c].stage.saved;
      for k := 0 to WRITES
        invariant Database() == M.Exec(SERVICE, start, UpToWrite(c, q, pauses, k))
        invariant k < WRITES ==> c in calls && calls[c].stage == M.Stored(row, k) && calls[c].request == q
        invariant k == WRITES ==> q.key in idempotency && idempotency[q.key] == Stored(q.request, row)
        invariant old(Calm()) ==> Calm()
      {
        Pause(c, pauses.beforeWrite(k), start, UpToWrite(c, q, pauses, k));
        var ok := WriteNext(c);
        M.ExecOne(SERVICE, start, UpToWrite(c, q, pauses, k) + pauses.beforeWrite(k), if ok then M.Write(c)
                  else M.Fail(c));
        if !ok {
          return RolledBack, UpToWrite(c, q, pauses, k) + pauses.beforeWrite(k) + [M.Fail(c)];
        }
      }
      outcome, run := Outcome.Saved(row), Complete(c, q, pauses);
    }

    /** From the moment the checks have passed. */
    method ReviewChecked(c: M.CallId, q: Submission, pauses: Pauses, ghost start: Store)
      returns (outcome: Outcome, ghost run: seq<Step>)
      requires c in calls && calls[c].stage.Passed? && calls[c].request == q && ApartFrom(pauses, c)
      requires Database() == M.Exec(SERVICE, start, UpToCheck(c, q, pauses))
      modifies this
      ensures Database() == M.Exec(SERVICE, start, run) && !outcome.Answered?
      ensures outcome.Saved? ==> run == Complete(c, q, pauses)
      ensures outcome.Saved? ==> q.key in idempotency && idempotency[q.key] == Stored(q.request, outcome.response)
      ensures outcome.RolledBack? ==> Failed(run, c, q, pauses)
      ensures old(Calm()) ==> outcome.Saved?
    {
      Pause(c, pauses.beforeSave, start, UpToCheck(c, q, pauses));
      var ok := SaveCall(c);
      run := UpToCheck(c, q, pauses) + pauses.beforeSave + [if ok then M.Save(c) else M.Fail(c)];
      M.ExecOne(SERVICE, start, UpToCheck(c, q, pauses) + pauses.beforeSave, if ok then M.Save(c) else M.Fail(c));
      if !ok {
        return RolledBack, run;
      }
      outcome, run := WriteRest(c, q, pauses, start);
    }

    method OpenCall(c: M.CallId, q: Submission, pauses: Pauses) returns (reply: Reply)
      requires c !in calls && q.key !in idempotency && ApartFrom(pauses, c)
      modifies this`evidence, this`idempotency, this`outbox, this`locks, this`audits, this`calls
      ensures Database() == M.Exec(SERVICE, old(Database()), UpToCheck(c, q, pauses))
      ensures reply == ReplyAtCheck(old(Database()), c, q, pauses)
      ensures reply.Admitted? ==> c in calls && calls[c].stage.Passed? && calls[c].request == q
    {
      ghost var start := Database();
      BeginCall(c, q);
      M.OwnCallStays(SERVICE, Database(), pauses.beforeCheck, c);
      Interleave(pauses.beforeCheck);
      reply := CheckCall(c);
      M.ExecPrefixed(SERVICE, start, M.Begin(c, q), pauses.beforeCheck, M.Check(c));
    }

    /** `review` as call `c`, with any steps of any other calls at its pauses: a run that is answered at its check,
        fails
        and rolls back, or goes through with its response remembered. Without failing writes it never fails. */
    method Review(c: M.CallId, q: Submission, pauses: Pauses) returns (outcome: Outcome, ghost run: seq<Step>)
      requires c !in calls && ApartFrom(pauses, c)
      modifies this
      ensures Database() == M.Exec(SERVICE, old(Database()), run)
      ensures outcome.Saved? ==> run == Complete(c, q, pauses)
      ensures outcome.Saved? ==> q.key in idempotency && idempotency[q.key] == Stored(q.request, outcome.response)
      ensures outcome.RolledBack? ==> Failed(run, c, q, pauses)
      ensures q.key in old(idempotency) ==> run == []
      ensures q.key in old(idempotency) ==>
                outcome == Answered(if old(idempotency)[q.key].request == q.request
                                    then Replayed(old(idempotency)[q.key].response) else KeyConflict)
      ensures q.key !in old(idempotency) ==>
                if ReplyAtCheck(old(Database()), c, q, pauses).Admitted? then !outcome.Answered?
                else outcome == Answered(ReplyAtCheck(old(Database()), c, q, pauses)) && run == UpToCheck(c, q, pauses)
      ensures old(Calm()) ==> !outcome.RolledBack?
    {
      run := [];
      if q.key in idempotency {
        outcome := Answered(if idempotency[q.key].request == q.request then Replayed(idempotency[q.key].response)
                            else KeyConflict);
        return;
      }
      var reply := OpenCall(c, q, pauses);
      if reply.Admitted? {
        outcome, run := ReviewChecked(c, q, pauses, old(Database()));
      } else {
        outcome, run := Answered(reply), UpToCheck(c, q, pauses);
      }
    }
  }

  /** What the protocol, freed of its locks, answers on the tables that the checks find. */
  function ReplyAtCheck(start: Store, c: M.CallId, q: Submission, pauses: Pauses): Reply {
    Answer(M.Exec(SERVICE, M.After(SERVICE, start, M.Begin(c, q)), pauses.beforeCheck).tables.desk.(locks := map[]),
           q.key, q.request)
  }
}
