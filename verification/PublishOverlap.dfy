/** Publish calls on the in-memory repository of backend/organization-mapping/repository.js, where acquiring the
    publication lock does nothing: calls overlap as they like, and a failing one puts back its copy of the tables.
    When does that still keep what the locked protocol of Publishing guarantees? */
module PublishOverlap {
  import opened Wrappers
  import opened Publishing
  import R = Reviewing
  import M = MemoryTransactions

  datatype Memory = Memory(tables: Tables, workItems: seq<(PublicationId, string)>, audits: seq<R.Key>)

  datatype Request = Request(key: R.Key, publish: PublishRequest)

  /** A row that passed its checks, with the view of the publication it was based on. */
  datatype Fit = Fit(row: Publication, previous: Option<View>)

  datatype Saved = Saved(response: Response, targets: seq<string>)

  type Affected = (Option<View>, View) -> seq<string>

  type PublishService = M.Service<Memory, Action, Request, Fit, Saved>

  type Store = M.Store<Memory, Request, Fit, Saved>

  type Step = M.Action<Action, Request>

  /** What happens outside any publish call. */
  predicate Edit(a: Action) {
    a.SaveDraft? || a.UpdateDraft? || a.SavePreview? || a.ChangeEvidence?
  }

  predicate Edits(acts: seq<Action>) {
    forall i | 0 <= i < |acts| :: Edit(acts[i])
  }

  /** One publish call from lock to commit, with the edits of others in between. */
  function Committed(project: Projector, t: Tables, key: R.Key, request: PublishRequest, others: seq<Action>): Tables {
    Commit(Publishing.Exec(project, Lock(project, t, key, request), others), key.organization)
  }

  lemma EditIgnoresLocks(project: Projector, t: Tables, locks: map<R.Org, Pending>, a: Action)
    requires Edit(a)
    ensures Publishing.After(project, t.(locks := locks), a) == Publishing.After(project, t, a).(locks := locks)
    ensures Publishing.After(project, t, a).locks == t.locks
    ensures Publishing.After(project, t, a).publications == t.publications
    ensures Publishing.After(project, t, a).responses == t.responses &&
            Publishing.After(project, t, a).outbox == t.outbox
  {
  }

  lemma {:induction false} EditsIgnoreLocks(project: Projector, t: Tables, locks: map<R.Org, Pending>,
                                            acts: seq<Action>)
    requires Edits(acts)
    ensures Publishing.Exec(project, t.(locks := locks), acts) == Publishing.Exec(project, t, acts).(locks := locks)
    ensures Publishing.Exec(project, t, acts).locks == t.locks
    ensures Publishing.Exec(project, t, acts).publications == t.publications
    ensures Publishing.Exec(project, t, acts).responses == t.responses &&
            Publishing.Exec(project, t, acts).outbox == t.outbox
    decreases |acts|
  {
    if acts != [] {
      EditIgnoresLocks(project, t, locks, acts[0]);
      EditsIgnoreLocks(project, Publishing.After(project, t, acts[0]), locks, acts[1..]);
    }
  }

  lemma LockOnly(project: Projector, t: Tables, key: R.Key, request: PublishRequest, row: Publication)
    requires Answer(project, t, key, request).Started? && ToPublish(project, t, key.organization, request) == Some(row)
    ensures Lock(project, t, key, request) == t.(locks := t.locks[key.organization := Pending(key, request, row)])
  {
  }

  function WithNextVersion(t: Tables, row: Publication): Publication {
    row.(version := MaxVersion(t.publications, row.organization) + 1)
  }

  /** The three writes of a commit. */
  function Appended(t: Tables, key: R.Key, request: PublishRequest, row: Publication): Tables {
    t.(publications := t.publications + [row], outbox := t.outbox + [key],
    responses := t.responses[key := Remembered(request, Response(|t.publications|, row))])
  }

  lemma CommitWrites(t: Tables, key: R.Key, request: PublishRequest, row: Publication)
    requires key !in t.responses && row.organization == key.organization && t.locks == map[]
    ensures Commit(t.(locks := map[key.organization := Pending(key, request, row)]), key.organization) ==
            Appended(t, key, request, WithNextVersion(t, row))
  {
    assert map[key.organization := Pending(key, request, row)] - {key.organization} == map[];
  }

  /** What is written when others have been at work since the call read its inputs. */
  lemma CommittedTables(project: Projector, t: Tables, key: R.Key, request: PublishRequest, others: seq<Action>,
                        row: Publication)
    requires t.locks == map[] && Edits(others) && row.organization == key.organization
    requires Answer(project, t, key, request).Started? && ToPublish(project, t, key.organization, request) == Some(row)
    ensures Committed(project, t, key, request, others) ==
            Appended(Publishing.Exec(project, t, others), key, request, WithNextVersion(t, row))
  {
    var pending := Pending(key, request, row);
    LockOnly(project, t, key, request, row);
    assert t.locks[key.organization := pending] == map[key.organization := pending];
    EditsIgnoreLocks(project, t, map[key.organization := pending], others);
    CommitWrites(Publishing.Exec(project, t, others), key, request, row);
  }

  lemma CommittedKeepsInv(project: Projector, t: Tables, key: R.Key, request: PublishRequest, others: seq<Action>)
    requires Inv(project, t)
    ensures Inv(project, Committed(project, t, key, request, others))
  {
    var locked := Lock(project, t, key, request);
    LockKeepsInv(project, t, key, request);
    RunsKeepHistorySound(project, locked, others);
    CommitIsAStep(project, Publishing.Exec(project, locked, others), key.organization);
  }

  lemma CommitIsAStep(project: Projector, t: Tables, org: R.Org)
    requires Inv(project, t)
    ensures Inv(project, Commit(t, org))
  {
    StepKeepsHistorySound(project, t, CommitPublish(org));
  }

  lemma RowToPublish(project: Projector, t: Tables, key: R.Key, request: PublishRequest, row: Publication)
    requires key !in t.responses && t.locks == map[] && ToPublish(project, t, key.organization, request) == Some(row)
    ensures Answer(project, t, key, request).Started? && row.organization == key.organization
  {
  }

  /** What one publish call that is not rolled back leaves behind, if `row` is what it found fit to publish. */
  function Called(project: Projector, t: Tables, key: R.Key, request: PublishRequest, others: seq<Action>,
                  row: Option<Publication>): Tables {
    if key in t.responses || row.None? then t
    else Appended(Publishing.Exec(project, t, others), key, request,
                  row.value.(version := CountFor(t.publications, row.value.organization) + 1))
  }

  lemma CommittedRow(project: Projector, t: Tables, key: R.Key, request: PublishRequest, others: seq<Action>,
                     row: Publication)
    requires MaxVersion(t.publications, key.organization) == CountFor(t.publications, key.organization)
    requires t.locks == map[] && Edits(others) && row.organization == key.organization
    requires Answer(project, t, key, request).Started? && ToPublish(project, t, key.organization, request) == Some(row)
    ensures Called(project, t, key, request, others, Some(row)) == Committed(project, t, key, request, others)
  {
    CommittedTables(project, t, key, request, others, row);
  }

  /** In a sound store, where numbering by count is numbering by maximum, a call that gets past its checks leaves
      exactly what the protocol's lock, edits of others and commit leave; any other call changes nothing. */
  lemma CallFollowsTheProtocol(project: Projector, t: Tables, key: R.Key, request: PublishRequest, others: seq<Action>)
    requires Publishing.Numbered(t.publications) && t.locks == map[] && Edits(others)
    ensures Called(project, t, key, request, others, ToPublish(project, t, key.organization, request)) ==
            if Answer(project, t, key, request).Started? then Committed(project, t, key, request, others) else t
  {
    NumberedMaximum(t.publications, key.organization);
    if key !in t.responses && ToPublish(project, t, key.organization, request).Some? {
      var row := ToPublish(project, t, key.organization, request).value;
      RowToPublish(project, t, key, request, row);
      CommittedRow(project, t, key, request, others, row);
    }
  }

  /** So publish calls keep everything that Publishing guarantees of its stores. */
  lemma CallsKeepTheStoreSound(project: Projector, t: Tables, key: R.Key, request: PublishRequest, others: seq<Action>)
    requires Inv(project, t) && t.locks == map[] && Edits(others)
    ensures Inv(project, Called(project, t, key, request, others, ToPublish(project, t, key.organization, request)))
  {
    CallFollowsTheProtocol(project, t, key, request, others);
    CommittedKeepsInv(project, t, key, request, others);
  }

  // ----- The service -----

  function Known(m: Memory, q: Request): bool {
    q.key in m.tables.responses
  }

  function PreviousView(t: Tables, org: R.Org): Option<View> {
    var base := Latest(t.publications, org);
    if base.Some? then Some(t.publications[base.value].view) else None
  }

  /** A key that has meanwhile got a response is replayed, or rolls back if its request differs. */
  function Verdict(project: Projector, m: Memory, q: Request): M.Verdict<Fit> {
    if q.key in m.tables.responses then
      if m.tables.responses[q.key].request == q.publish then M.Replay else M.Refuse
    else
      var row := ToPublish(project, m.tables, q.key.organization, q.publish);
      if row.None? then M.Refuse else M.Proceed(Fit(row.value, PreviousView(m.tables, q.key.organization)))
  }

  function WithVersion(pubs: seq<Publication>, row: Publication): Publication {
    row.(version := CountFor(pubs, row.organization) + 1)
  }

  /** `savePublication` numbers by the count at the moment it runs. */
  function Save(affected: Affected, m: Memory, f: Fit): (Memory, Saved) {
    var row := WithVersion(m.tables.publications, f.row);
    (m.(tables := m.tables.(publications := m.tables.publications + [row])),
     Saved(Response(|m.tables.publications|, row), affected(f.previous, f.row.view)))
  }

  function ItemsOf(s: Saved): seq<(PublicationId, string)> {
    seq(|s.targets|, i requires 0 <= i < |s.targets| => (s.response.id, s.targets[i]))
  }

  const WRITES: nat := 4

  /** The writes that follow: work items, audit entry, outbox event, stored response. */
  function Following(m: Memory, q: Request, s: Saved, k: nat): Memory {
    if k == 0 then m.(workItems := m.workItems + ItemsOf(s))
    else if k == 1 then m.(audits := m.audits + [q.key])
    else if k == 2 then m.(tables := m.tables.(outbox := m.tables.outbox + [q.key]))
    else m.(tables := m.tables.(responses := m.tables.responses[q.key := Remembered(q.publish, s.response)]))
  }

  function EditMemory(project: Projector, m: Memory, e: Action): Memory {
    if Edit(e) then m.(tables := Publishing.After(project, m.tables, e)) else m
  }

  function Service(project: Projector, affected: Affected): PublishService {
    M.Service((m: Memory, e: Action) => EditMemory(project, m, e),
              (m: Memory, q: Request) => Known(m, q),
              (m: Memory, q: Request) => Verdict(project, m, q),
              (m: Memory, f: Fit) => Save(affected, m, f),
              WRITES,
              (m: Memory, q: Request, s: Saved, k: nat) => Following(m, q, s, k))
  }

  lemma CheckPasses(project: Projector, affected: Affected, s: Store, c: M.CallId, f: Fit)
    requires c in s.calls && s.calls[c].stage.Begun? && Verdict(project, s.tables, s.calls[c].request) == M.Proceed(f)
    ensures M.After(Service(project, affected), s, M.Check(c)) == M.Staged(s, c, s.tables, M.Passed(f))
  {
  }

  // ----- One save -----

  /** A save keeps the numbering and the chain of bases if and only if the organization has as many publications as
      when the call looked for its base. */
  lemma SaveKeepsNumberingIffBaseIsLatest(pubs: seq<Publication>, row: Publication)
    requires Publishing.Numbered(pubs)
    ensures Publishing.Numbered(pubs + [WithVersion(pubs, row)]) <==>
              row.baseVersion == CountFor(pubs, row.organization)
  {
    var saved := WithVersion(pubs, row);
    var longer := pubs + [saved];
    assert longer[..|pubs|] == pubs;
    if row.baseVersion == CountFor(pubs, row.organization) {
      NumberedMaximum(pubs, row.organization);
      NumberedGrows(pubs, saved);
    } else {
      assert !InOrder(longer, |pubs|);
    }
  }

  lemma CheckFindsTheBase(project: Projector, m: Memory, q: Request, f: Fit)
    requires Publishing.Numbered(m.tables.publications) && Verdict(project, m, q) == M.Proceed(f)
    ensures f.row.organization == q.key.organization
    ensures f.row.baseVersion == CountFor(m.tables.publications, q.key.organization)
  {
    LatestHasMaxVersion(m.tables.publications, q.key.organization);
    NumberedMaximum(m.tables.publications, q.key.organization);
  }

  // ----- Runs -----

  /** The number of saves for an organization in a run. */
  function Saves(v: PublishService, s: Store, acts: seq<Step>, org: R.Org): nat
    decreases |acts|
  {
    if acts == [] then 0
    else (if SavesFor(s, acts[0], org) then 1 else 0) + Saves(v, M.After(v, s, acts[0]), acts[1..], org)
  }

  predicate SavesFor(s: Store, a: Step, org: R.Org) {
    a.Save? && M.MaySave(s, a.call) && s.calls[a.call].stage.row.row.organization == org
  }

  lemma CountLast(pubs: seq<Publication>, row: Publication, org: R.Org)
    ensures CountFor(pubs + [row], org) == CountFor(pubs, org) + if row.organization == org then 1 else 0
  {
    assert (pubs + [row])[..|pubs|] == pubs;
  }

  lemma StepCounts(project: Projector, affected: Affected, s: Store, a: Step, org: R.Org)
    requires !M.RollsBack(Service(project, affected), s, a)
    ensures CountFor(M.After(Service(project, affected), s, a).tables.tables.publications, org) ==
            CountFor(s.tables.tables.publications, org) + if SavesFor(s, a, org) then 1 else 0
    ensures s.tables.tables.publications <= M.After(Service(project, affected), s, a).tables.tables.publications
  {
    match a {
      case Edit(e) =>
        if Edit(e) {
          EditIgnoresLocks(project, s.tables.tables, map[], e);
        }
      case Save(c) =>
        if M.MaySave(s, c) {
          CountLast(s.tables.tables.publications, WithVersion(s.tables.tables.publications, s.calls[c].stage.row.row),
                    org);
        }
      case _ =>
    }
  }

  lemma {:induction false} RunCounts(project: Projector, affected: Affected, s: Store, acts: seq<Step>, org: R.Org)
    requires M.NoRollback(Service(project, affected), s, acts)
    ensures CountFor(M.Exec(Service(project, affected), s, acts).tables.tables.publications, org) ==
            CountFor(s.tables.tables.publications, org) + Saves(Service(project, affected), s, acts, org)
    ensures s.tables.tables.publications <= M.Exec(Service(project, affected), s, acts).tables.tables.publications
    decreases |acts|
  {
    if acts != [] {
      StepCounts(project, affected, s, acts[0], org);
      RunCounts(project, affected, M.After(Service(project, affected), s, acts[0]), acts[1..], org);
    }
  }

  /** Any number of calls overlap with call `c`, which checks in `s` and saves after the others' steps `acts`. Its
      save keeps versions 1..n, each based on its predecessor, if and only if the organization then has exactly as many
      publications as at the check. */
  lemma NumberedExactlyWhenCountIsUnchanged(project: Projector, affected: Affected, s: Store, c: M.CallId,
                                            acts: seq<Step>)
    requires c in s.calls && s.calls[c].stage.Begun? && Verdict(project, s.tables, s.calls[c].request).Proceed?
    requires M.Apart(acts, c) && Publishing.Numbered(s.tables.tables.publications)
    requires Publishing.Numbered(AtSave(project, affected, s, c, acts).tables.tables.publications)
    ensures Publishing.Numbered(AfterSave(project, affected, s, c, acts).tables.tables.publications) <==>
            CountFor(AtSave(project, affected, s, c, acts).tables.tables.publications,
                     s.calls[c].request.key.organization) ==
            CountFor(s.tables.tables.publications, s.calls[c].request.key.organization)
  {
    var v := Service(project, affected);
    var checked := M.After(v, s, M.Check(c));
    var f := Verdict(project, s.tables, s.calls[c].request).row;
    CheckFindsTheBase(project, s.tables, s.calls[c].request, f);
    assert checked.calls[c].stage == M.Passed(f) && checked.tables == s.tables;
    M.OwnCallStays(v, checked, acts, c);
    SaveKeepsNumberingIffBaseIsLatest(AtSave(project, affected, s, c, acts).tables.tables.publications, f.row);
  }

  /** The store in which call `c` saves, having checked in `s`. */
  function AtSave(project: Projector, affected: Affected, s: Store, c: M.CallId, acts: seq<Step>): Store {
    M.Exec(Service(project, affected), M.After(Service(project, affected), s, M.Check(c)), acts)
  }

  function AfterSave(project: Projector, affected: Affected, s: Store, c: M.CallId, acts: seq<Step>): Store {
    M.After(Service(project, affected), AtSave(project, affected, s, c, acts), M.Save(c))
  }

  /** Where nobody rolls back in between: if and only if no other publish of the organization saved in between. */
  lemma NumberedExactlyWhenAlone(project: Projector, affected: Affected, s: Store, c: M.CallId, acts: seq<Step>)
    requires c in s.calls && s.calls[c].stage.Begun? && Verdict(project, s.tables, s.calls[c].request).Proceed?
    requires M.Apart(acts, c) &&
             M.NoRollback(Service(project, affected), M.After(Service(project, affected), s, M.Check(c)), acts)
    requires Publishing.Numbered(s.tables.tables.publications)
    requires Publishing.Numbered(AtSave(project, affected, s, c, acts).tables.tables.publications)
    ensures Publishing.Numbered(AfterSave(project, affected, s, c, acts).tables.tables.publications) <==>
            Saves(Service(project, affected), M.After(Service(project, affected), s, M.Check(c)), acts,
                  s.calls[c].request.key.organization) == 0
  {
    NumberedExactlyWhenCountIsUnchanged(project, affected, s, c, acts);
    RunCounts(project, affected, M.After(Service(project, affected), s, M.Check(c)), acts,
              s.calls[c].request.key.organization);
  }

  // ----- Whole runs -----

  /** A save finds its base to be the latest still. */
  predicate OnLatest(s: Store, a: Step) {
    a.Save? && M.MaySave(s, a.call) ==>
      var row := s.calls[a.call].stage.row.row;
      row.baseVersion == CountFor(s.tables.tables.publications, row.organization)
  }

  predicate AllOnLatest(v: PublishService, s: Store, acts: seq<Step>)
    decreases |acts|
  {
    acts == [] || (OnLatest(s, acts[0]) && AllOnLatest(v, M.After(v, s, acts[0]), acts[1..]))
  }

  lemma PrefixIsNumbered(pubs: seq<Publication>, longer: seq<Publication>)
    requires pubs <= longer && Publishing.Numbered(longer)
    ensures Publishing.Numbered(pubs)
  {
    forall i | 0 <= i < |pubs|
      ensures InOrder(pubs, i)
    {
      assert InOrder(longer, i) && longer[..i] == pubs[..i];
    }
  }

  lemma StepNumbers(project: Projector, affected: Affected, s: Store, a: Step)
    requires Publishing.Numbered(s.tables.tables.publications) && !M.RollsBack(Service(project, affected), s, a)
    ensures Publishing.Numbered(M.After(Service(project, affected), s, a).tables.tables.publications) <==>
              OnLatest(s, a)
  {
    match a {
      case Edit(e) =>
        if Edit(e) {
          EditIgnoresLocks(project, s.tables.tables, map[], e);
        }
      case Save(c) =>
        if M.MaySave(s, c) {
          SaveKeepsNumberingIffBaseIsLatest(s.tables.tables.publications, s.calls[c].stage.row.row);
        }
      case _ =>
    }
  }

  /** Over any run of overlapping calls without a rollback, publications are still 1..n, each based on its
      predecessor, if and only if every save found its base to be the latest. */
  lemma {:induction false} RunsAreNumberedExactlyWhenOnLatest(project: Projector, affected: Affected, s: Store,
                                                              acts: seq<Step>)
    requires Publishing.Numbered(s.tables.tables.publications) && M.NoRollback(Service(project, affected), s, acts)
    ensures Publishing.Numbered(M.Exec(Service(project, affected), s, acts).tables.tables.publications) <==>
            AllOnLatest(Service(project, affected), s, acts)
    decreases |acts|
  {
    if acts != [] {
      var v := Service(project, affected);
      var next := M.After(v, s, acts[0]);
      StepNumbers(project, affected, s, acts[0]);
      RunCounts(project, affected, next, acts[1..], "");
      if OnLatest(s, acts[0]) {
        RunsAreNumberedExactlyWhenOnLatest(project, affected, next, acts[1..]);
      } else if Publishing.Numbered(M.Exec(v, next, acts[1..]).tables.tables.publications) {
        PrefixIsNumbered(next.tables.tables.publications, M.Exec(v, next, acts[1..]).tables.tables.publications);
      }
    }
  }

  // ----- What overlapping publications show -----

  /** Every publication, and every row about to be saved, shows what its preview shows. */
  ghost predicate Shown(project: Projector, s: Store) {
    var t := s.tables.tables;
    && (forall id | id in t.previews :: t.previews[id].impact.view == t.previews[id].view)
    && (forall i | 0 <= i < |t.publications| :: AsPreviewed(project, t.previews, t.publications[i]))
    && (forall c | c in s.calls && s.calls[c].stage.Passed? ::
        AsPreviewed(project, t.previews, s.calls[c].stage.row.row))
  }

  lemma FitShowsItsPreview(project: Projector, t: Tables, org: R.Org, request: PublishRequest)
    requires ToPublish(project, t, org, request).Some?
    requires forall id | id in t.previews :: t.previews[id].impact.view == t.previews[id].view
    ensures AsPreviewed(project, t.previews, ToPublish(project, t, org, request).value)
  {
    assert t.previews[request.preview].impact.view == t.previews[request.preview].view;
  }

  predicate PreviewsStay(before: map<PreviewId, Preview>, after: map<PreviewId, Preview>) {
    forall id | id in before :: id in after && after[id] == before[id]
  }

  lemma EditKeepsPreviews(project: Projector, t: Tables, e: Action)
    requires Edit(e)
    ensures PreviewsStay(t.previews, Publishing.After(project, t, e).previews)
    ensures forall id | id in Publishing.After(project, t, e).previews && id !in t.previews ::
              Publishing.After(project, t, e).previews[id].impact.view ==
                  Publishing.After(project, t, e).previews[id].view
  {
  }

  lemma EditKeepsShown(project: Projector, affected: Affected, s: Store, e: Action)
    requires Shown(project, s)
    ensures Shown(project, M.After(Service(project, affected), s, M.Edit(e)))
  {
    if Edit(e) {
      EditKeepsPreviews(project, s.tables.tables, e);
      EditIgnoresLocks(project, s.tables.tables, map[], e);
    }
  }

  lemma CheckKeepsShown(project: Projector, affected: Affected, s: Store, c: M.CallId)
    requires Shown(project, s) && !M.RollsBack(Service(project, affected), s, M.Check(c))
    ensures Shown(project, M.After(Service(project, affected), s, M.Check(c)))
  {
    if c in s.calls && s.calls[c].stage.Begun? && Verdict(project, s.tables, s.calls[c].request).Proceed? {
      FitShowsItsPreview(project, s.tables.tables, s.calls[c].request.key.organization, s.calls[c].request.publish);
    }
  }

  lemma SaveKeepsShown(project: Projector, affected: Affected, s: Store, c: M.CallId)
    requires Shown(project, s)
    ensures Shown(project, M.After(Service(project, affected), s, M.Save(c)))
  {
  }

  lemma StepKeepsShown(project: Projector, affected: Affected, s: Store, a: Step)
    requires Shown(project, s) && !M.RollsBack(Service(project, affected), s, a)
    ensures Shown(project, M.After(Service(project, affected), s, a))
  {
    match a {
      case Edit(e) => EditKeepsShown(project, affected, s, e);
      case Check(c) => CheckKeepsShown(project, affected, s, c);
      case Save(c) => SaveKeepsShown(project, affected, s, c);
      case _ =>
    }
  }

  /** Over any run of overlapping calls without a rollback, every publication still shows exactly what its preview
      showed, which is what its own content projects to, checked clean: only the numbering suffers from overlap. */
  lemma {:induction false} OverlapsStillShowPreviews(project: Projector, affected: Affected, s: Store, acts: seq<Step>)
    requires Shown(project, s) && M.NoRollback(Service(project, affected), s, acts)
    ensures Shown(project, M.Exec(Service(project, affected), s, acts))
    decreases |acts|
  {
    if acts != [] {
      StepKeepsShown(project, affected, s, acts[0]);
      OverlapsStillShowPreviews(project, affected, M.After(Service(project, affected), s, acts[0]), acts[1..]);
    }
  }

  // ----- The run that fails -----

  /** Two calls that both check before either saves. */
  function BothCheck(v: PublishService, s: Store, q: Request, r: Request): Store {
    M.After(v, M.After(v, M.After(v, M.After(v, s, M.Begin(0, q)), M.Begin(1, r)), M.Check(0)), M.Check(1))
  }

  lemma BothPass(project: Projector, affected: Affected, m: Memory, q: Request, r: Request, f: Fit, g: Fit)
    requires q.key !in m.tables.responses && r.key !in m.tables.responses
    requires Verdict(project, m, q) == M.Proceed(f) && Verdict(project, m, r) == M.Proceed(g)
    ensures var s := BothCheck(Service(project, affected), M.Store(m, map[]), q, r);
            s.tables == m && s.calls == map[0 := M.Call(q, m, M.Passed(f)), 1 := M.Call(r, m, M.Passed(g))]
  {
  }

  lemma BothSaved(project: Projector, affected: Affected, s: Store, f: Fit, g: Fit)
    requires 0 in s.calls && 1 in s.calls && s.calls[0].stage == M.Passed(f) && s.calls[1].stage == M.Passed(g)
    ensures var v := Service(project, affected);
            var first := s.tables.tables.publications + [WithVersion(s.tables.tables.publications, f.row)];
            M.After(v, M.After(v, s, M.Save(0)), M.Save(1)).tables.tables.publications ==
                first + [WithVersion(first, g.row)]
  {
  }

  /** Any two publish calls of one organization that overlap so end up with versions n + 1 and n + 2 both based on n. */
  lemma OverlappingPublishesRepeatTheBase(project: Projector, affected: Affected, m: Memory, q: Request, r: Request)
    requires q.key.organization == r.key.organization && q.key !in m.tables.responses && r.key !in m.tables.responses
    requires Verdict(project, m, q).Proceed? && Verdict(project, m, r).Proceed? &&
             Publishing.Numbered(m.tables.publications)
    ensures var v := Service(project, affected);
            var pubs := M.After(v, M.After(v, BothCheck(v, M.Store(m, map[]), q, r), M.Save(0)),
                                M.Save(1)).tables.tables.publications;
            var n := CountFor(m.tables.publications, q.key.organization);
            && |pubs| == |m.tables.publications| + 2
            && pubs[|pubs| - 2].version == n + 1 && pubs[|pubs| - 1].version == n + 2
            && pubs[|pubs| - 2].baseVersion == n == pubs[|pubs| - 1].baseVersion
            && !Publishing.Numbered(pubs)
  {
    var f, g := Verdict(project, m, q).row, Verdict(project, m, r).row;
    BothPass(project, affected, m, q, r, f, g);
    BothSaved(project, affected, BothCheck(Service(project, affected), M.Store(m, map[]), q, r), f, g);
    CheckFindsTheBase(project, m, q, f);
    CheckFindsTheBase(project, m, r, g);
    TwoOnOneBase(m.tables.publications, f.row, g.row);
  }

  lemma TwoOnOneBase(pubs: seq<Publication>, f: Publication, g: Publication)
    requires f.organization == g.organization && f.baseVersion == g.baseVersion == CountFor(pubs, f.organization)
    ensures var first := pubs + [WithVersion(pubs, f)];
            && WithVersion(first, g).version == g.baseVersion + 2
            && !Publishing.Numbered(first + [WithVersion(first, g)])
  {
    var first := pubs + [WithVersion(pubs, f)];
    CountLast(pubs, WithVersion(pubs, f), f.organization);
    var both := first + [WithVersion(first, g)];
    assert !InOrder(both, |first|);
  }

  /** And a call that fails puts the publications back as they were when it began, erasing every one that another call
      has published since, its response included. */
  lemma RollbackErasesPublications(project: Projector, affected: Affected, s: Store, acts: seq<Step>, c: M.CallId,
                                   q: Request)
    requires c !in s.calls && q.key !in s.tables.tables.responses && M.Apart(acts, c)
    ensures var after := M.Exec(Service(project, affected), s, [M.Begin(c, q)] + acts + [M.Fail(c)]);
            && after.tables.tables.publications == s.tables.tables.publications
            && after.tables.tables.responses == s.tables.tables.responses
  {
    M.FailureErasesEverythingSince(Service(project, affected), s, acts, c, q);
  }

  // ----- A call that nobody else publishes beside -----

  /** Edits as steps. */
  function Quiet(edits: seq<Action>): seq<Step> {
    seq(|edits|, i requires 0 <= i < |edits| => M.Edit(edits[i]))
  }

  lemma {:induction false} QuietRun(project: Projector, affected: Affected, s: Store, edits: seq<Action>)
    requires Edits(edits)
    ensures M.Exec(Service(project, affected), s, Quiet(edits)) ==
            s.(tables := s.tables.(tables := Publishing.Exec(project, s.tables.tables, edits)))
    decreases |edits|
  {
    if edits != [] {
      var next := M.After(Service(project, affected), s, M.Edit(edits[0]));
      assert Quiet(edits)[0] == M.Edit(edits[0]) && Quiet(edits)[1..] == Quiet(edits[1..]);
      QuietRun(project, affected, next, edits[1..]);
    }
  }

  /** The writes from number `k` on. */
  function Rest(m: Memory, q: Request, s: Saved, k: nat): Memory
    decreases WRITES - k
  {
    if k >= WRITES then m else Rest(Following(m, q, s, k), q, s, k + 1)
  }

  lemma EditsPassWrites(project: Projector, m: Memory, q: Request, s: Saved, k: nat, e: Action)
    requires Edit(e)
    ensures EditMemory(project, Following(m, q, s, k), e) == Following(EditMemory(project, m, e), q, s, k)
  {
  }

  lemma {:induction false} EditsPassTheRest(project: Projector, m: Memory, q: Request, s: Saved, k: nat, e: Action)
    requires Edit(e)
    ensures EditMemory(project, Rest(m, q, s, k), e) == Rest(EditMemory(project, m, e), q, s, k)
    decreases WRITES - k
  {
    if k < WRITES {
      EditsPassWrites(project, m, q, s, k, e);
      EditsPassTheRest(project, Following(m, q, s, k), q, s, k + 1, e);
    }
  }

  /** What may come after the save of a call beside which only edits happen: its writes, and edits. */
  predicate QuietlyWrites(acts: seq<Step>, c: M.CallId, n: nat)
    decreases |acts|
  {
    if acts == [] then n == 0
    else if acts[0].Edit? then Edit(acts[0].edit) && QuietlyWrites(acts[1..], c, n)
    else acts[0] == M.Write(c) && n > 0 && QuietlyWrites(acts[1..], c, n - 1)
  }

  function EditsOf(acts: seq<Step>): seq<Action> {
    if acts == [] then [] else (if acts[0].Edit? then [acts[0].edit] else []) + EditsOf(acts[1..])
  }

  function EditAll(project: Projector, m: Memory, edits: seq<Action>): Memory
    decreases |edits|
  {
    if edits == [] then m else EditAll(project, EditMemory(project, m, edits[0]), edits[1..])
  }

  lemma {:induction false} WritesAmongEdits(project: Projector, affected: Affected, s: Store, c: M.CallId,
                                            acts: seq<Step>,
                                            q: Request, saved: Saved, k: nat)
    requires k <= WRITES && QuietlyWrites(acts, c, WRITES - k)
    requires if k < WRITES then c in s.calls && s.calls[c].request == q && s.calls[c].stage == M.Stored(saved, k)
             else c !in s.calls
    ensures M.Exec(Service(project, affected), s, acts).tables ==
            EditAll(project, Rest(s.tables, q, saved, k), EditsOf(acts))
    decreases |acts|
  {
    if acts != [] {
      var next := M.After(Service(project, affected), s, acts[0]);
      if acts[0].Edit? {
        WritesAmongEdits(project, affected, next, c, acts[1..], q, saved, k);
        EditsPassTheRest(project, s.tables, q, saved, k, acts[0].edit);
        assert EditsOf(acts)[0] == acts[0].edit && EditsOf(acts)[1..] == EditsOf(acts[1..]);
      } else {
        assert next.tables == Following(s.tables, q, saved, k);
        WritesAmongEdits(project, affected, next, c, acts[1..], q, saved, k + 1);
        assert EditsOf(acts) == EditsOf(acts[1..]);
      }
    }
  }

  lemma {:induction false} EditAllEdits(project: Projector, m: Memory, edits: seq<Action>)
    requires Edits(edits)
    ensures EditAll(project, m, edits).tables == Publishing.Exec(project, m.tables, edits)
    decreases |edits|
  {
    if edits != [] {
      EditAllEdits(project, EditMemory(project, m, edits[0]), edits[1..]);
    }
  }

  lemma {:induction false} QuietStepsEdit(acts: seq<Step>, c: M.CallId, n: nat)
    requires QuietlyWrites(acts, c, n)
    ensures Edits(EditsOf(acts))
    decreases |acts|
  {
    if acts != [] {
      QuietStepsEdit(acts[1..], c, if acts[0].Edit? then n else n - 1);
    }
  }

  lemma RestIsAppended(m: Memory, q: Request, saved: Saved)
    ensures Rest(m, q, saved, 0).tables == m.tables.(outbox := m.tables.outbox + [q.key],
                                                     responses := m.tables.responses[q.key :=
                                                             Remembered(q.publish, saved.response)])
  {
    var m1 := Following(m, q, saved, 0);
    var m2 := Following(m1, q, saved, 1);
    var m3 := Following(m2, q, saved, 2);
    assert Rest(m, q, saved, 0) == Rest(m1, q, saved, 1) == Rest(m2, q, saved, 2) == Rest(m3, q, saved, 3);
    assert Rest(m3, q, saved, 3) == Rest(Following(m3, q, saved, 3), q, saved, 4);
  }

  lemma SavedIsAppended(project: Projector, affected: Affected, s: Store, c: M.CallId, f: Fit) returns (saved: Saved)
    requires c in s.calls && s.calls[c].stage == M.Passed(f)
    ensures var q, after := s.calls[c].request, M.After(Service(project, affected), s, M.Save(c));
            && c in after.calls && after.calls[c].request == q && after.calls[c].stage == M.Stored(saved, 0)
            && Rest(after.tables, q, saved, 0).tables ==
               Appended(s.tables.tables, q.key, q.publish, WithVersion(s.tables.tables.publications, f.row))
  {
    saved := Save(affected, s.tables, f).1;
    RestIsAppended(M.After(Service(project, affected), s, M.Save(c)).tables, s.calls[c].request, saved);
  }

  lemma QuietSaveIsCalled(project: Projector, affected: Affected, s: Store, c: M.CallId, edits: seq<Action>)
    returns (saved: Saved)
    requires c in s.calls && s.calls[c].stage.Begun? && Edits(edits)
    requires s.calls[c].request.key !in s.tables.tables.responses
    requires Verdict(project, s.tables, s.calls[c].request).Proceed?
    ensures var q, t, after := s.calls[c].request, s.tables.tables, AfterSave(project, affected, s, c, Quiet(edits));
            && c in after.calls && after.calls[c].request == q && after.calls[c].stage == M.Stored(saved, 0)
            && Rest(after.tables, q, saved, 0).tables ==
               Called(project, t, q.key, q.publish, edits, ToPublish(project, t, q.key.organization, q.publish))
  {
    var f := Verdict(project, s.tables, s.calls[c].request).row;
    var checked := M.After(Service(project, affected), s, M.Check(c));
    assert checked.tables == s.tables && checked.calls[c] == s.calls[c].(stage := M.Passed(f));
    QuietRun(project, affected, checked, edits);
    saved := SavedIsAppended(project, affected, AtSave(project, affected, s, c, Quiet(edits)), c, f);
    EditsIgnoreLocks(project, s.tables.tables, map[], edits);
  }

  /** A call beside which only edits happen, between its checks and its save and among the writes that follow, leaves
      what `Called` says and the later edits, and so what the locked protocol leaves. */
  lemma QuietCallIsCalled(project: Projector, affected: Affected, s: Store, c: M.CallId, edits: seq<Action>,
                          acts: seq<Step>)
    requires c in s.calls && s.calls[c].stage.Begun? && Edits(edits) && QuietlyWrites(acts, c, WRITES)
    requires s.calls[c].request.key !in s.tables.tables.responses
    requires Verdict(project, s.tables, s.calls[c].request).Proceed?
    ensures var q, t := s.calls[c].request, s.tables.tables;
            M.Exec(Service(project, affected), AfterSave(project, affected, s, c, Quiet(edits)), acts).tables.tables ==
            Publishing.Exec(project, Called(project, t, q.key, q.publish, edits,
                                            ToPublish(project, t, q.key.organization, q.publish)),
                            EditsOf(acts))
  {
    var saved := QuietSaveIsCalled(project, affected, s, c, edits);
    var q, after := s.calls[c].request, AfterSave(project, affected, s, c, Quiet(edits));
    WritesAmongEdits(project, affected, after, c, acts, q, saved, 0);
    QuietStepsEdit(acts, c, WRITES);
    EditAllEdits(project, Rest(after.tables, q, saved, 0), EditsOf(acts));
  }

  // ----- No lock is ever taken -----

  ghost predicate Unlocked(s: Store) {
    s.tables.tables.locks == map[] && forall c | c in s.calls :: s.calls[c].copy.tables.locks == map[]
  }

  lemma StepStaysUnlocked(project: Projector, affected: Affected, s: Store, a: Step)
    requires Unlocked(s)
    ensures Unlocked(M.After(Service(project, affected), s, a))
  {
    if a.Edit? && Edit(a.edit) {
      EditIgnoresLocks(project, s.tables.tables, map[], a.edit);
    }
  }

  lemma {:induction false} RunStaysUnlocked(project: Projector, affected: Affected, s: Store, acts: seq<Step>)
    requires Unlocked(s)
    ensures Unlocked(M.Exec(Service(project, affected), s, acts))
    decreases |acts|
  {
    if acts != [] {
      StepStaysUnlocked(project, affected, s, acts[0]);
      RunStaysUnlocked(project, affected, M.After(Service(project, affected), s, acts[0]), acts[1..]);
    }
  }
}
