/** The publish protocol of backend/organization-mapping/service.js over the tables of repository.js.

    A hash is its own content (SHA-256 taken as injective) and a publication id is its row number. A publish
    call reads its inputs and commits in two steps, holding the advisory lock of its organization, and
    everything else may happen in between. `project` stands for the projection of a draft to its graph, scope
    tree and facets: the protocol only relies on its being a function of the draft's content and version. */
module Publishing {
  import opened Wrappers
  import opened Reviewing
  import J = Json
  import OrganizationGraph
  import ScopeTree

  type PreviewId = nat
  type PublicationId = nat

  /** The model a draft carries. */
  datatype Content = Content(model: OrganizationGraph.Model, facets: seq<J.Value>)

  datatype Draft = Draft(organization: Org, version: nat, content: Content)

  datatype View = View(graph: OrganizationGraph.Graph, tree: ScopeTree.Projection, facets: multiset<J.Value>)

  type Projector = (Content, nat) -> Option<View>

  /** What `impactDigest` digests. */
  datatype Impact = Impact(view: View, previousModel: Option<Content>)

  datatype Preview = Preview(organization: Org, draftVersion: nat, view: View, impact: Impact, reviewed: Reviewed,
                             base: Option<PublicationId>)

  datatype Publication = Publication(organization: Org, draft: DraftId, draftVersion: nat, preview: PreviewId,
                                     version: nat, baseVersion: nat, content: Content, view: View, reviewed: Reviewed)

  datatype PublishRequest = PublishRequest(draft: DraftId, preview: PreviewId, expectedImpact: Impact, reason: string,
                                           expectedDraftVersion: nat, expectedPublishedVersion: nat)

  datatype Response = Response(id: PublicationId, publication: Publication)

  datatype Remembered = Remembered(request: PublishRequest, response: Response)

  /** A publish call between its reads and its commit. */
  datatype Pending = Pending(key: Key, request: PublishRequest, row: Publication)

  datatype Tables = Tables(
    drafts: map<DraftId, Draft>,
    previews: map<PreviewId, Preview>,
    evidence: Evidence,
    publications: seq<Publication>,
    responses: map<Key, Remembered>,
    outbox: seq<Key>,
    locks: map<Org, Pending>)

  // ----- Version order -----

  /** `order by published_version desc limit 1`. */
  function Latest(pubs: seq<Publication>, org: Org): (r: Option<PublicationId>)
    ensures r.Some? ==> r.value < |pubs| && pubs[r.value].organization == org
  {
    if pubs == [] then None
    else
      var n := |pubs| - 1;
      var earlier := Latest(pubs[..n], org);
      if pubs[n].organization == org && (earlier.None? || pubs[earlier.value].version <= pubs[n].version) then Some(n)
         else earlier
  }

  /** `coalesce(max(published_version), 0)`. */
  function MaxVersion(pubs: seq<Publication>, org: Org): nat {
    if pubs == [] then 0
    else
      var n := |pubs| - 1;
      var earlier := MaxVersion(pubs[..n], org);
      if pubs[n].organization == org && pubs[n].version > earlier then pubs[n].version else earlier
  }

  function CountFor(pubs: seq<Publication>, org: Org): nat {
    if pubs == [] then 0
    else CountFor(pubs[..|pubs| - 1], org) + if pubs[|pubs| - 1].organization == org then 1 else 0
  }

  /** `base?.publishedVersion || 0`. */
  function BaseVersion(pubs: seq<Publication>, base: Option<PublicationId>): nat {
    if base.Some? && base.value < |pubs| then pubs[base.value].version else 0
  }

  function PreviousModel(pubs: seq<Publication>, base: Option<PublicationId>): Option<Content> {
    if base.Some? && base.value < |pubs| then Some(pubs[base.value].content) else None
  }

  // ----- The actions -----

  datatype Action =
    | SaveDraft(id: DraftId, organization: Org, content: Content)
    | UpdateDraft(organization: Org, id: DraftId, content: Content, expectedVersion: nat)
    | SavePreview(id: PreviewId, organization: Org, draft: Draft, base: Option<PublicationId>, reviewed: Reviewed)
    | ChangeEvidence(evidence: Evidence)
    | StartPublish(key: Key, request: PublishRequest)
    | CommitPublish(organization: Org)
    | AbortPublish(organization: Org)

  /** `preview` awaits between reading the draft, the base and the reviewed state, so each may come from a
      different moment: any three values will do. */
  function PreviewOf(project: Projector, t: Tables, org: Org, draft: Draft, base: Option<PublicationId>,
                     reviewed: Reviewed): Option<Preview> {
    var view := project(draft.content, draft.version);
    if view.None? then None
    else Some(Preview(org, draft.version, view.value, Impact(view.value, PreviousModel(t.publications, base)), reviewed,
                      base))
  }

  /** The preconditions that `publish` compares versions, ids and digests for. */
  predicate Matches(t: Tables, org: Org, request: PublishRequest) {
    && request.reason != ""
    && request.draft in t.drafts && t.drafts[request.draft].organization == org
    && request.preview in t.previews && t.previews[request.preview].organization == org
    && t.drafts[request.draft].version == request.expectedDraftVersion == t.previews[request.preview].draftVersion
    && BaseVersion(t.publications, Latest(t.publications, org)) == request.expectedPublishedVersion
    && t.previews[request.preview].impact == request.expectedImpact
    && t.previews[request.preview].base == Latest(t.publications, org)
  }

  /** The publication that `publish` would save, if every precondition holds on what it reads. */
  function ToPublish(project: Projector, t: Tables, org: Org, request: PublishRequest): Option<Publication> {
    if !Matches(t, org, request) then None
    else
      var draft, preview, base := t.drafts[request.draft], t.previews[request.preview], Latest(t.publications, org);
      var reviewed := ReviewedState(t.evidence, org, request.draft);
      var view := project(draft.content, draft.version);
      if reviewed != preview.reviewed || !Clean(reviewed) || view.None? ||
         Impact(view.value, PreviousModel(t.publications, base)) != preview.impact
      then None
      else Some(Publication(org, request.draft, draft.version, request.preview, 0, BaseVersion(t.publications, base),
                            draft.content, view.value, reviewed))
  }

  datatype PublishReply = PublishRefused | KeyReused | Recalled(response: Response) | Locked | Started

  function Answer(project: Projector, t: Tables, key: Key, request: PublishRequest): PublishReply {
    if key in t.responses then
      if t.responses[key].request == request then Recalled(t.responses[key].response) else KeyReused
    else if key.organization in t.locks then Locked
    else if ToPublish(project, t, key.organization, request).None? then PublishRefused
    else Started
  }

  function Lock(project: Projector, t: Tables, key: Key, request: PublishRequest): Tables {
    if Answer(project, t, key, request).Started?
    then t.(locks := t.locks[key.organization :=
                             Pending(key, request, ToPublish(project, t, key.organization, request).value)])
    else t
  }

  function Unlock(t: Tables, org: Org): Tables {
    t.(locks := t.locks - {org})
  }

  /** `savePublication` numbers the row `max + 1`; the outbox row and the stored response go with it. A key
      that got a response meanwhile violates the primary key and rolls everything back. */
  function Commit(t: Tables, org: Org): Tables {
    if org !in t.locks || t.locks[org].key in t.responses then Unlock(t, org)
    else
      var p := t.locks[org];
      var row := p.row.(version := MaxVersion(t.publications, org) + 1);
      t.(publications := t.publications + [row], locks := t.locks - {org}, outbox := t.outbox + [p.key],
      responses := t.responses[p.key := Remembered(p.request, Response(|t.publications|, row))])
  }

  function After(project: Projector, t: Tables, a: Action): Tables {
    match a
    case SaveDraft(id, org, content) =>
      if id in t.drafts then t else t.(drafts := t.drafts[id := Draft(org, 1, content)])
    case UpdateDraft(org, id, content, expected) =>
      if id in t.drafts && t.drafts[id].organization == org && t.drafts[id].version == expected
      then t.(drafts := t.drafts[id := Draft(org, expected + 1, content)]) else t
    case SavePreview(id, org, draft, base, reviewed) =>
      var preview := PreviewOf(project, t, org, draft, base, reviewed);
      if id in t.previews || preview.None? then t else t.(previews := t.previews[id := preview.value])
    case ChangeEvidence(evidence) => t.(evidence := evidence)
    case StartPublish(key, request) => Lock(project, t, key, request)
    case CommitPublish(org) => Commit(t, org)
    case AbortPublish(org) => Unlock(t, org)
  }

  function Exec(project: Projector, t: Tables, acts: seq<Action>): Tables
    decreases |acts|
  {
    if acts == [] then t else Exec(project, After(project, t, acts[0]), acts[1..])
  }

  function Empty(): Tables {
    Tables(map[], map[], Evidence(map[], map[], map[], map[]), [], map[], [], map[])
  }

  // ----- Invariant -----

  /** The rows of each organization are numbered 1, 2, 3, ... in commit order, each based on the one before. */
  ghost predicate Numbered(pubs: seq<Publication>) {
    forall i | 0 <= i < |pubs| :: InOrder(pubs, i)
  }

  predicate InOrder(pubs: seq<Publication>, i: nat)
    requires i < |pubs|
  {
    pubs[i].version == CountFor(pubs[..i], pubs[i].organization) + 1 && pubs[i].baseVersion + 1 == pubs[i].version
  }

  /** The row shows what its preview showed, which is what its own content projects to, and was reviewed in
      the state the preview was reviewed in, with nothing left open. */
  ghost predicate AsPreviewed(project: Projector, previews: map<PreviewId, Preview>, p: Publication) {
    && p.preview in previews
    && previews[p.preview].organization == p.organization
    && previews[p.preview].view == p.view
    && previews[p.preview].reviewed == p.reviewed
    && previews[p.preview].draftVersion == p.draftVersion
    && project(p.content, p.draftVersion) == Some(p.view)
    && Clean(p.reviewed)
  }

  ghost predicate PendingInv(project: Projector, t: Tables, org: Org)
    requires org in t.locks
  {
    && t.locks[org].key.organization == org && t.locks[org].row.organization == org
    && t.locks[org].row.baseVersion == MaxVersion(t.publications, org)
    && AsPreviewed(project, t.previews, t.locks[org].row)
  }

  ghost predicate Inv(project: Projector, t: Tables) {
    && Numbered(t.publications)
    && (forall i | 0 <= i < |t.publications| :: AsPreviewed(project, t.previews, t.publications[i]))
    && (forall id | id in t.previews :: t.previews[id].impact.view == t.previews[id].view)
    && (forall org | org in t.locks :: PendingInv(project, t, org))
  }

  lemma {:induction false} LatestHasMaxVersion(pubs: seq<Publication>, org: Org)
    ensures BaseVersion(pubs, Latest(pubs, org)) == MaxVersion(pubs, org)
    decreases |pubs|
  {
    if pubs != [] { LatestHasMaxVersion(pubs[..|pubs| - 1], org); }
  }

  lemma {:induction false} NumberedMaximum(pubs: seq<Publication>, org: Org)
    requires Numbered(pubs)
    ensures MaxVersion(pubs, org) == CountFor(pubs, org)
    decreases |pubs|
  {
    if pubs != [] {
      var shorter := pubs[..|pubs| - 1];
      forall i | 0 <= i < |shorter| ensures InOrder(shorter, i) {
        assert InOrder(pubs, i) && shorter[..i] == pubs[..i];
      }
      NumberedMaximum(shorter, org);
      assert InOrder(pubs, |pubs| - 1);
    }
  }

  lemma NumberedGrows(pubs: seq<Publication>, row: Publication)
    requires Numbered(pubs)
    requires row.version == MaxVersion(pubs, row.organization) + 1 && row.baseVersion + 1 == row.version
    ensures Numbered(pubs + [row])
  {
    NumberedMaximum(pubs, row.organization);
    var longer := pubs + [row];
    forall i | 0 <= i < |longer| ensures InOrder(longer, i) {
      assert longer[..i] == pubs[..i];
      if i < |pubs| { assert InOrder(pubs, i); } else { assert pubs[..i] == pubs; }
    }
  }

  lemma MaxOfOthers(pubs: seq<Publication>, row: Publication, org: Org)
    requires row.organization != org
    ensures MaxVersion(pubs + [row], org) == MaxVersion(pubs, org)
  {
    assert (pubs + [row])[..|pubs|] == pubs;
  }

  /** What a publish call reads agrees with the preview it names: equal digests mean equal content. */
  lemma ReadsAgreeWithPreview(project: Projector, t: Tables, org: Org, request: PublishRequest)
    requires Inv(project, t) && ToPublish(project, t, org, request).Some?
    ensures var row := ToPublish(project, t, org, request).value;
            row.organization == org && row.baseVersion == MaxVersion(t.publications, org) &&
                AsPreviewed(project, t.previews, row)
  {
    LatestHasMaxVersion(t.publications, org);
    assert t.previews[request.preview].impact.view == t.previews[request.preview].view;
  }

  lemma LockKeepsInv(project: Projector, t: Tables, key: Key, request: PublishRequest)
    requires Inv(project, t)
    ensures Inv(project, Lock(project, t, key, request))
  {
    if Answer(project, t, key, request).Started? { ReadsAgreeWithPreview(project, t, key.organization, request); }
    forall org | org in Lock(project, t, key, request).locks ensures PendingInv(project, Lock(project, t, key, request),
                                                                                org) {
      if org in t.locks { assert PendingInv(project, t, org); }
    }
  }

  lemma UnlockKeepsInv(project: Projector, t: Tables, org: Org)
    requires Inv(project, t)
    ensures Inv(project, Unlock(t, org))
  {
    forall other | other in Unlock(t, org).locks ensures PendingInv(project, Unlock(t, org), other) {
      assert PendingInv(project, t, other);
    }
  }

  lemma CommitKeepsInv(project: Projector, t: Tables, org: Org)
    requires Inv(project, t) && org in t.locks && t.locks[org].key !in t.responses
    ensures Inv(project, Commit(t, org))
  {
    var t' := Commit(t, org);
    var row := t.locks[org].row.(version := MaxVersion(t.publications, org) + 1);
    assert PendingInv(project, t, org);
    NumberedGrows(t.publications, row);
    forall i | 0 <= i < |t'.publications| ensures AsPreviewed(project, t'.previews, t'.publications[i]) {
      if i < |t.publications| { assert AsPreviewed(project, t.previews, t.publications[i]); }
    }
    forall other | other in t'.locks ensures PendingInv(project, t', other) {
      assert PendingInv(project, t, other);
      MaxOfOthers(t.publications, row, other);
    }
  }

  lemma SavePreviewKeepsInv(project: Projector, t: Tables, id: PreviewId, preview: Preview)
    requires Inv(project, t) && id !in t.previews && preview.impact.view == preview.view
    ensures Inv(project, t.(previews := t.previews[id := preview]))
  {
    var t' := t.(previews := t.previews[id := preview]);
    forall i | 0 <= i < |t.publications| ensures AsPreviewed(project, t'.previews, t.publications[i]) {
      assert AsPreviewed(project, t.previews, t.publications[i]);
    }
    forall org | org in t.locks ensures PendingInv(project, t', org) {
      assert PendingInv(project, t, org);
    }
  }

  lemma UnrelatedKeepsInv(project: Projector, t: Tables, t': Tables)
    requires Inv(project, t)
    requires t'.previews == t.previews && t'.publications == t.publications && t'.locks == t.locks
    ensures Inv(project, t')
  {
    forall org | org in t'.locks ensures PendingInv(project, t', org) {
      assert PendingInv(project, t, org);
    }
  }

  lemma StepKeepsHistorySound(project: Projector, t: Tables, a: Action)
    requires Inv(project, t)
    ensures Inv(project, After(project, t, a))
  {
    match a
    case StartPublish(key, request) => LockKeepsInv(project, t, key, request);
    case AbortPublish(org) => UnlockKeepsInv(project, t, org);
    case CommitPublish(org) =>
      if org in t.locks && t.locks[org].key !in t.responses {
        CommitKeepsInv(project, t, org);
      } else {
        UnlockKeepsInv(project, t, org);
      }
    case SavePreview(id, org, draft, base, reviewed) =>
      var preview := PreviewOf(project, t, org, draft, base, reviewed);
      if id !in t.previews && preview.Some? { SavePreviewKeepsInv(project, t, id, preview.value); }
    case _ => UnrelatedKeepsInv(project, t, After(project, t, a));
  }

  lemma {:induction false} RunsKeepHistorySound(project: Projector, t: Tables, acts: seq<Action>)
    requires Inv(project, t)
    ensures Inv(project, Exec(project, t, acts))
    decreases |acts|
  {
    if acts != [] {
      StepKeepsHistorySound(project, t, acts[0]);
      RunsKeepHistorySound(project, After(project, t, acts[0]), acts[1..]);
    }
  }

  // ----- What every run guarantees -----

  /** Over any interleaving of draft edits, previews (torn reads included), new evidence and reviews, and
      overlapping publish calls: an organization's publications are numbered 1..n without gaps, each based on
      its predecessor, and each shows exactly the graph, tree and facets of the preview it names, which are
      those of the published content, in a reviewed state with no blocker, conflict or stale snapshot. */
  lemma {:induction false} PublicationsAreSound(project: Projector, acts: seq<Action>, i: nat)
    requires i < |Exec(project, Empty(), acts).publications|
    ensures var t := Exec(project, Empty(), acts);
            InOrder(t.publications, i) && AsPreviewed(project, t.previews, t.publications[i])
  {
    RunsKeepHistorySound(project, Empty(), acts);
    assert AsPreviewed(project, Exec(project, Empty(), acts).previews, Exec(project, Empty(), acts).publications[i]);
  }

  lemma AfterKeepsHistory(project: Projector, t: Tables, a: Action)
    ensures t.publications <= After(project, t, a).publications
    ensures forall k | k in t.responses ::
              k in After(project, t, a).responses && After(project, t, a).responses[k] == t.responses[k]
  {
  }

  /** Stored publications never change, and stored responses are never replaced. */
  lemma {:induction false} HistoryIsImmutable(project: Projector, t: Tables, acts: seq<Action>)
    ensures t.publications <= Exec(project, t, acts).publications
    ensures forall k | k in t.responses ::
              k in Exec(project, t, acts).responses && Exec(project, t, acts).responses[k] == t.responses[k]
    decreases |acts|
  {
    if acts != [] {
      AfterKeepsHistory(project, t, acts[0]);
      HistoryIsImmutable(project, After(project, t, acts[0]), acts[1..]);
    }
  }

  /** Once a publish key has a stored response, every later publish under it changes nothing: the same
      request gets the stored response back and a different one is rejected. */
  lemma {:induction false} PublishReplayChangesNothing(project: Projector, t: Tables, acts: seq<Action>, key: Key,
                                                       request: PublishRequest)
    requires key in t.responses
    ensures var later := Exec(project, t, acts); var stored := t.responses[key];
            && After(project, later, StartPublish(key, request)) == later
            && Answer(project, later, key, request) == if request == stored.request then Recalled(stored.response)
               else KeyReused
  {
    HistoryIsImmutable(project, t, acts);
  }

  /** A commit adds one row, which becomes the latest of its organization, and stores the response that
      every replay of the request will return. */
  lemma CommitIsRemembered(project: Projector, t: Tables, org: Org)
    requires Inv(project, t) && org in t.locks && t.locks[org].key !in t.responses
    ensures var t' := Commit(t, org); var p := t.locks[org];
            && |t'.publications| == |t.publications| + 1
            && Latest(t'.publications, org) == Some(|t.publications|)
            && p.key in t'.responses && t'.responses[p.key].request == p.request
            && t'.responses[p.key].response == Response(|t.publications|, t'.publications[|t.publications|])
  {
    var t' := Commit(t, org);
    assert PendingInv(project, t, org);
    assert t'.publications[..|t.publications|] == t.publications;
    LatestHasMaxVersion(t.publications, org);
  }

  lemma StepHoldsTheBase(project: Projector, t: Tables, a: Action, org: Org)
    requires Inv(project, t) && org in t.locks && a != CommitPublish(org) && a != AbortPublish(org)
    ensures org in After(project, t, a).locks && After(project, t, a).locks[org] == t.locks[org]
    ensures MaxVersion(After(project, t, a).publications, org) == MaxVersion(t.publications, org)
  {
    if a.CommitPublish? && a.organization in t.locks {
      assert PendingInv(project, t, a.organization);
      MaxOfOthers(t.publications,
                  t.locks[a.organization].row.(version := MaxVersion(t.publications, a.organization) + 1), org);
    }
  }

  /** While a publish call holds the lock, no other publication of its organization appears, whatever else
      happens: the base it read is still the latest when it commits. */
  lemma {:induction false} LockHoldsTheBase(project: Projector, t: Tables, acts: seq<Action>, org: Org)
    requires Inv(project, t) && org in t.locks
    requires CommitPublish(org) !in acts && AbortPublish(org) !in acts
    ensures org in Exec(project, t, acts).locks && Exec(project, t, acts).locks[org] == t.locks[org]
    ensures MaxVersion(Exec(project, t, acts).publications, org) == MaxVersion(t.publications, org)
    decreases |acts|
  {
    if acts != [] {
      assert acts[0] in acts;
      assert forall a | a in acts[1..] :: a in acts;
      StepKeepsHistorySound(project, t, acts[0]);
      StepHoldsTheBase(project, t, acts[0], org);
      LockHoldsTheBase(project, After(project, t, acts[0]), acts[1..], org);
    }
  }
}
