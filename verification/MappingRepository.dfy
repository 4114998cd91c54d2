/** The in-memory repository of backend/organization-mapping/repository.js with `publish` of service.js running in its
    `transaction`: the tables are written one after another, any write may raise an error, an error puts the copies
    back that were made when the transaction began, and other calls run at the pauses. Every method is one step of
    PublishOverlap, where the results about overlapping calls are proved. */
module MappingRepository {
  import opened Wrappers
  import opened Publishing
  import opened MappingService
  import opened PublishOverlap
  import M = MemoryTransactions
  import R = Reviewing
  import B = ScopeTreeBuilder
  import G = OrganizationGraph

  datatype Outcome = Replied(answer: PublishReply) | Published(response: Response) | RolledBack

  datatype Updated = Updated(version: nat) | DraftNotFound | VersionConflict

  /** What everybody else does at the pauses of a publish call: before its checks, before it saves the publication, and
      before each of the writes that follow. */
  datatype Pauses = Pauses(beforeCheck: seq<Step>, beforeSave: seq<Step>, beforeWrite: nat -> seq<Step>)

  predicate ApartFrom(p: Pauses, c: M.CallId) {
    M.Apart(p.beforeCheck, c) && M.Apart(p.beforeSave, c) && forall k: nat | k < WRITES :: M.Apart(p.beforeWrite(k), c)
  }

  function UpToCheck(c: M.CallId, q: Request, p: Pauses): seq<Step> {
    [M.Begin(c, q)] + p.beforeCheck + [M.Check(c)]
  }

  function UpToSave(c: M.CallId, q: Request, p: Pauses): seq<Step> {
    UpToCheck(c, q, p) + p.beforeSave + [M.Save(c)]
  }

  /** Up to the first `k` of the writes that follow the save. */
  function UpToWrite(c: M.CallId, q: Request, p: Pauses, k: nat): seq<Step> {
    if k == 0 then UpToSave(c, q, p) else UpToWrite(c, q, p, k - 1) + p.beforeWrite(k - 1) + [M.Write(c)]
  }

  function Complete(c: M.CallId, q: Request, p: Pauses): seq<Step> {
    UpToWrite(c, q, p, WRITES)
  }

  function Further(stage: M.Stage<Fit, Saved>): M.Stage<Fit, Saved>
    requires stage.Stored?
  {
    M.Stored(stage.saved, stage.written + 1)
  }

  /** The places where a call that passed its checks may fail: each of its writes. */
  predicate Failed(run: seq<Step>, c: M.CallId, q: Request, p: Pauses) {
    || run == UpToCheck(c, q, p) + p.beforeSave + [M.Fail(c)]
    || exists k: nat | k < WRITES :: run == UpToWrite(c, q, p, k) + p.beforeWrite(k) + [M.Fail(c)]
  }

  class Repository {
    const fails: nat -> bool
    const affected: Affected
    var writes: nat
    var drafts: map<R.DraftId, Draft>
    var previews: map<PreviewId, Preview>
    var evidence: R.Evidence
    var publications: seq<Publication>
    var workItems: seq<(PublicationId, string)>
    var responses: map<R.Key, Remembered>
    var audits: seq<R.Key>
    var integrationEvents: seq<R.Key>
    var calls: map<M.CallId, M.Call<Memory, Request, Fit, Saved>>

    function Tables(): Tables
      reads this
    {
      Publishing.Tables(drafts, previews, evidence, publications, responses, integrationEvents, map[])
    }

    function Database(): Store
      reads this
    {
      M.Store(Memory(Tables(), workItems, audits), calls)
    }

    function V(): PublishService
      reads this
    {
      Service(PROJECTOR, affected)
    }

    /** No write fails from here on. */
    ghost predicate Calm()
      reads this
    {
      forall n | n >= writes :: !fails(n)
    }

    method Write() returns (ok: bool)
      modifies this`writes
      ensures old(Calm()) ==> ok && Calm()
    {
      ok := !fails(writes);
      writes := writes + 1;
    }

    /** `updateDraft`: compare and set on the version of the draft. */
    method UpdateDraft(org: R.Org, id: R.DraftId, content: Content, expectedVersion: nat) returns (reply: Updated)
      modifies this`drafts
      ensures Tables() == Publishing.After(PROJECTOR, old(Tables()),
                                           Action.UpdateDraft(org, id, content, expectedVersion))
      ensures reply == if id !in old(drafts) || old(drafts)[id].organization != org then DraftNotFound
                       else if old(drafts)[id].version != expectedVersion then VersionConflict
                       else Updated(expectedVersion + 1)
    {
      if id !in drafts || drafts[id].organization != org {
        return DraftNotFound;
      }
      if drafts[id].version != expectedVersion {
        return VersionConflict;
      }
      drafts := drafts[id := Draft(org, drafts[id].version + 1, content)];
      reply := Updated(expectedVersion + 1);
    }

    method GetLatestPublication(org: R.Org) returns (latest: Option<PublicationId>)
      ensures latest == Latest(publications, org)
    {
      latest := None;
      for i := 0 to |publications|
        invariant latest == Latest(publications[..i], org)
      {
        assert publications[..i + 1][..i] == publications[..i];
        if publications[i].organization == org &&
           (latest.None? || publications[latest.value].version <= publications[i].version) {
          latest := Some(i);
        }
      }
      assert publications[..|publications|] == publications;
    }

    /** `current.length`, from which the new row is numbered. */
    method CountPublications(org: R.Org) returns (n: nat)
      ensures n == CountFor(publications, org)
    {
      n := 0;
      for i := 0 to |publications|
        invariant n == CountFor(publications[..i], org)
      {
        assert publications[..i + 1][..i] == publications[..i];
        if publications[i].organization == org {
          n := n + 1;
        }
      }
      assert publications[..|publications|] == publications;
    }

    /** The graph, then the tree with its own depth-first search, then the facets. */
    method ProjectDraft(c: Content, version: nat) returns (view: Option<View>)
      ensures view == PROJECTOR(c, version)
    {
      var m := Versioned(c, version);
      var graph := G.Build(m, true);
      if graph.Err? {
        return None;
      }
      var builder := new B.TreeBuilder();
      var tree := builder.BuildPrimaryScopeTree(m, true);
      if tree.Err? {
        return None;
      }
      view := Some(View(graph.value, tree.value, multiset(Canonicals(c.facets))));
    }

    /** Everything `publish` checks inside the transaction, in its order. */
    method Check(org: R.Org, request: PublishRequest) returns (row: Option<Publication>)
      ensures row == ToPublish(PROJECTOR, Tables(), org, request)
      ensures Database() == old(Database())
    {
      row := None;
      if request.reason == "" || request.draft !in drafts || drafts[request.draft].organization != org ||
         request.preview !in previews || previews[request.preview].organization != org {
        return;
      }
      var draft, preview := drafts[request.draft], previews[request.preview];
      var base := GetLatestPublication(org);
      var baseVersion := if base.Some? then publications[base.value].version else 0;
      if draft.version != request.expectedDraftVersion || preview.draftVersion != draft.version ||
         baseVersion != request.expectedPublishedVersion || preview.impact != request.expectedImpact ||
             preview.base != base {
        return;
      }
      var state := R.ReviewedState(evidence, org, request.draft);
      if state != preview.reviewed || !R.Clean(state) {
        return;
      }
      var view := ProjectDraft(draft.content, draft.version);
      if view.None? || Impact(view.value, if base.Some? then Some(publications[base.value].content)
                              else None) != preview.impact {
        return;
      }
      row := Some(Publication(org, request.draft, draft.version, request.preview, 0, baseVersion, draft.content,
                              view.value, state));
    }

    method BeginCall(c: M.CallId, q: Request)
      requires c !in calls && q.key !in responses && Unlocked(Database())
      modifies this`calls
      ensures Database() == M.After(V(), old(Database()), M.Begin(c, q)) && Unlocked(Database())
      ensures c in calls && calls[c].request == q && calls[c].stage.Begun?
    {
      calls := calls[c := M.Call(q, Memory(Tables(), workItems, audits), M.Begun)];
    }

    /** An error puts the copies back, whoever has written since. */
    method RollBack(c: M.CallId)
      requires c in calls && Unlocked(Database())
      modifies this`drafts, this`previews, this`evidence, this`publications, this`workItems, this`responses,
               this`audits, this`integrationEvents, this`calls
      ensures Database() == M.After(V(), old(Database()), M.Fail(c)) && Unlocked(Database())
    {
      var copy := calls[c].copy;
      drafts, previews, evidence, publications := copy.tables.drafts, copy.tables.previews, copy.tables.evidence,
          copy.tables.publications;
      responses, integrationEvents := copy.tables.responses, copy.tables.outbox;
      workItems, audits, calls := copy.workItems, copy.audits, calls - {c};
    }

    /** The key is known: its response, or an error if it was used for something else. */
    method ReplayCall(c: M.CallId) returns (answer: PublishReply)
      requires c in calls && calls[c].stage.Begun? && calls[c].request.key in responses && Unlocked(Database())
      modifies this`drafts, this`previews, this`evidence, this`publications, this`workItems, this`responses,
               this`audits, this`integrationEvents, this`calls
      ensures Database() == M.After(V(), old(Database()), M.Check(c)) && Unlocked(Database())
      ensures answer == var stored := old(responses)[old(calls)[c].request.key];
                        if stored.request == old(calls)[c].request.publish then Recalled(stored.response) else KeyReused
    {
      var q := calls[c].request;
      if responses[q.key].request == q.publish {
        answer := Recalled(responses[q.key].response);
        calls := calls - {c};
      } else {
        RollBack(c);
        answer := KeyReused;
      }
    }

    /** The checks have found the row to save. */
    method PassCall(c: M.CallId, row: Publication)
      requires c in calls && calls[c].stage.Begun? && Unlocked(Database())
      requires Verdict(PROJECTOR, Memory(Tables(), workItems, audits), calls[c].request) ==
               M.Proceed(Fit(row, PreviousView(Tables(), calls[c].request.key.organization)))
      modifies this`calls
      ensures Database() == M.After(V(), old(Database()), M.Check(c)) && Unlocked(Database())
      ensures c in calls && calls[c].stage.Passed? && calls[c].request == old(calls)[c].request
    {
      var base := GetLatestPublication(calls[c].request.key.organization);
      var previous := if base.Some? then Some(publications[base.value].view) else None;
      CheckPasses(PROJECTOR, affected, Database(), c, Fit(row, previous));
      calls := calls[c := calls[c].(stage := M.Passed(Fit(row, previous)))];
    }

    /** The locked replay and the checks; every refusal is an error inside the transaction, so it rolls back too. */
    method CheckCall(c: M.CallId) returns (answer: PublishReply)
      requires c in calls && calls[c].stage.Begun? && Unlocked(Database())
      modifies this`drafts, this`previews, this`evidence, this`publications, this`workItems, this`responses,
               this`audits, this`integrationEvents, this`calls
      ensures Database() == M.After(V(), old(Database()), M.Check(c)) && Unlocked(Database())
      ensures answer == Answer(PROJECTOR, old(Tables()), old(calls)[c].request.key, old(calls)[c].request.publish)
      ensures answer.Started? ==> c in calls && calls[c].stage.Passed? && calls[c].request == old(calls)[c].request
    {
      var q := calls[c].request;
      if q.key in responses {
        answer := ReplayCall(c);
        return;
      }
      var row := Check(q.key.organization, q.publish);
      if row.None? {
        RollBack(c);
        return PublishRefused;
      }
      PassCall(c, row.value);
      answer := Started;
    }

    method SaveCall(c: M.CallId) returns (ok: bool)
      requires c in calls && calls[c].stage.Passed? && Unlocked(Database())
      modifies this
      ensures Database() == M.After(V(), old(Database()), if ok then M.Save(c) else M.Fail(c)) && Unlocked(Database())
      ensures ok ==>
                c in calls && calls[c].stage.Stored? && calls[c].stage.written == 0 &&
                calls[c].request == old(calls)[c].request
      ensures old(Calm()) ==> ok && Calm()
    {
      var f := calls[c].stage.row;
      var n := CountPublications(f.row.organization);
      ok := Write();
      if !ok {
        RollBack(c);
        return;
      }
      var row := f.row.(version := n + 1);
      var response := Response(|publications|, row);
      publications := publications + [row];
      calls := calls[c := calls[c].(stage := M.Stored(Saved(response, affected(f.previous, f.row.view)), 0))];
    }

    /** Work items, audit entry, outbox event or stored response, whichever is next. */
    method MakeWrite(q: Request, saved: Saved, k: nat)
      modifies this`workItems, this`audits, this`integrationEvents, this`responses
      ensures Database().tables == Following(old(Database()).tables, q, saved, k)
    {
      if k == 0 {
        workItems := workItems + ItemsOf(saved);
      } else if k == 1 {
        audits := audits + [q.key];
      } else if k == 2 {
        integrationEvents := integrationEvents + [q.key];
      } else {
        responses := responses[q.key := Remembered(q.publish, saved.response)];
      }
    }

    /** One of the writes that follow the save, or the error that rolls back. */
    method WriteNext(c: M.CallId) returns (ok: bool)
      requires c in calls && calls[c].stage.Stored? && Unlocked(Database())
      modifies this
      ensures Database() == M.After(V(), old(Database()), if ok then M.Write(c) else M.Fail(c)) && Unlocked(Database())
      ensures ok && old(calls)[c].stage.written + 1 < WRITES ==>
                c in calls && calls[c] == old(calls)[c].(stage := Further(old(calls)[c].stage))
      ensures ok && old(calls)[c].stage.written + 1 == WRITES ==>
                var q := old(calls)[c].request;
                q.key in responses && responses[q.key] == Remembered(q.publish, old(calls)[c].stage.saved.response)
      ensures old(Calm()) ==> ok && Calm()
    {
      var q, saved, k := calls[c].request, calls[c].stage.saved, calls[c].stage.written;
      ok := Write();
      if !ok {
        RollBack(c);
        return;
      }
      MakeWrite(q, saved, k);
      calls := if k + 1 >= WRITES then calls - {c} else calls[c := calls[c].(stage := M.Stored(saved, k + 1))];
    }

    /** What everybody else does, in other transactions and outside of them. */
    method Interleave(acts: seq<Step>)
      modifies this`drafts, this`previews, this`evidence, this`publications, this`workItems, this`responses,
               this`audits, this`integrationEvents, this`calls
      requires Unlocked(Database())
      ensures Database() == M.Exec(V(), old(Database()), acts) && Unlocked(Database())
    {
      RunStaysUnlocked(PROJECTOR, affected, Database(), acts);
      var s := M.Exec(V(), Database(), acts);
      var t := s.tables.tables;
      drafts, previews, evidence, publications := t.drafts, t.previews, t.evidence, t.publications;
      responses, integrationEvents := t.responses, t.outbox;
      workItems, audits, calls := s.tables.workItems, s.tables.audits, s.calls;
    }

    /** A pause of call `c`, which has come this far since `start`. */
    method Pause(c: M.CallId, acts: seq<Step>, ghost start: Store, ghost run: seq<Step>)
      requires c in calls && Unlocked(Database()) && M.Apart(acts, c) && Database() == M.Exec(V(), start, run)
      modifies this`drafts, this`previews, this`evidence, this`publications, this`workItems, this`responses,
               this`audits, this`integrationEvents, this`calls
      ensures Database() == M.Exec(V(), start, run + acts) && Unlocked(Database())
      ensures c in calls && calls[c] == old(calls)[c]
    {
      M.OwnCallStays(V(), Database(), acts, c);
      Interleave(acts);
      M.ExecJoins(V(), start, run, acts);
    }

    /** From the moment the checks have passed. */
    method PublishChecked(c: M.CallId, q: Request, pauses: Pauses, ghost start: Store)
      returns (outcome: Outcome, ghost run: seq<Step>)
      requires c in calls && calls[c].stage.Passed? && calls[c].request == q && Unlocked(Database()) &&
               ApartFrom(pauses, c)
      requires Database() == M.Exec(V(), start, UpToCheck(c, q, pauses))
      modifies this
      ensures Database() == M.Exec(V(), start, run) && Unlocked(Database()) && !outcome.Replied?
      ensures outcome.Published? ==> run == Complete(c, q, pauses)
      ensures outcome.Published? ==> q.key in responses && responses[q.key] == Remembered(q.publish, outcome.response)
      ensures outcome.RolledBack? ==> Failed(run, c, q, pauses)
      ensures old(Calm()) ==> outcome.Published?
    {
      Pause(c, pauses.beforeSave, start, UpToCheck(c, q, pauses));
      var ok := SaveCall(c);
      run := UpToCheck(c, q, pauses) + pauses.beforeSave + [if ok then M.Save(c) else M.Fail(c)];
      M.ExecOne(V(), start, UpToCheck(c, q, pauses) + pauses.beforeSave, if ok then M.Save(c) else M.Fail(c));
      if !ok {
        return RolledBack, run;
      }
      outcome, run := WriteRest(c, q, pauses, start);
    }

    /** The next write of a call that has come this far since `start`. */
    method WriteOn(c: M.CallId, ghost start: Store, ghost run: seq<Step>) returns (ok: bool)
      requires c in calls && calls[c].stage.Stored? && Unlocked(Database()) && Database() == M.Exec(V(), start, run)
      modifies this
      ensures Database() == M.Exec(V(), start, run + [if ok then M.Write(c) else M.Fail(c)]) && Unlocked(Database())
      ensures ok && old(calls)[c].stage.written + 1 < WRITES ==>
                c in calls && calls[c] == old(calls)[c].(stage := Further(old(calls)[c].stage))
      ensures ok && old(calls)[c].stage.written + 1 == WRITES ==>
                var q := old(calls)[c].request;
                q.key in responses && responses[q.key] == Remembered(q.publish, old(calls)[c].stage.saved.response)
      ensures old(Calm()) ==> ok && Calm()
    {
      ok := WriteNext(c);
      M.ExecOne(V(), start, run, if ok then M.Write(c) else M.Fail(c));
    }

    /** The writes that follow the save, with others at work before each. */
    method WriteRest(c: M.CallId, q: Request, pauses: Pauses, ghost start: Store)
      returns (outcome: Outcome, ghost run: seq<Step>)
      requires c in calls && calls[c].stage.Stored? && calls[c].stage.written == 0 && calls[c].request == q
      requires Unlocked(Database()) && ApartFrom(pauses, c) && Database() == M.Exec(V(), start, UpToSave(c, q, pauses))
      modifies this
      ensures Database() == M.Exec(V(), start, run) && Unlocked(Database()) && !outcome.Replied?
      ensures outcome.Published? ==> run == Complete(c, q, pauses)
      ensures outcome.Published? ==> q.key in responses && responses[q.key] == Remembered(q.publish, outcome.response)
      ensures outcome.RolledBack? ==> Failed(run, c, q, pauses)
      ensures old(Calm()) ==> outcome.Published?
    {
      var saved := calls[c].stage.saved;
      for k := 0 to WRITES
        invariant Database() == M.Exec(V(), start, UpToWrite(c, q, pauses, k)) && Unlocked(Database())
        invariant k < WRITES ==> c in calls && calls[c].stage == M.Stored(saved, k) && calls[c].request == q
        invariant k == WRITES ==> q.key in responses && responses[q.key] == Remembered(q.publish, saved.response)
        invariant old(Calm()) ==> Calm()
      {
        Pause(c, pauses.beforeWrite(k), start, UpToWrite(c, q, pauses, k));
        var ok := WriteOn(c, start, UpToWrite(c, q, pauses, k) + pauses.beforeWrite(k));
        if !ok {
          return RolledBack, UpToWrite(c, q, pauses, k) + pauses.beforeWrite(k) + [M.Fail(c)];
        }
      }
      outcome, run := Published(saved.response), Complete(c, q, pauses);
    }

    /** From the start of the transaction to its checks. */
    method OpenCall(c: M.CallId, q: Request, pauses: Pauses) returns (answer: PublishReply)
      requires c !in calls && q.key !in responses && Unlocked(Database()) && ApartFrom(pauses, c)
      modifies this`drafts, this`previews, this`evidence, this`publications, this`workItems, this`responses,
               this`audits, this`integrationEvents, this`calls
      ensures Database() == M.Exec(V(), old(Database()), UpToCheck(c, q, pauses)) && Unlocked(Database())
      ensures answer == AnswerAtCheck(old(Database()), c, q, pauses)
      ensures answer.Started? ==> c in calls && calls[c].stage.Passed? && calls[c].request == q
    {
      ghost var start := Database();
      BeginCall(c, q);
      M.OwnCallStays(V(), Database(), pauses.beforeCheck, c);
      Interleave(pauses.beforeCheck);
      answer := CheckCall(c);
      M.ExecPrefixed(V(), start, M.Begin(c, q), pauses.beforeCheck, M.Check(c));
    }

    /** What the protocol answers on the tables that the checks find. */
    function AnswerAtCheck(start: Store, c: M.CallId, q: Request, pauses: Pauses): PublishReply
      reads this
    {
      Answer(PROJECTOR, M.Exec(V(), M.After(V(), start, M.Begin(c, q)), pauses.beforeCheck).tables.tables, q.key,
             q.publish)
    }

    /** `publish` as call `c`, with any steps of any other calls at its pauses. A known key is answered before the
        transaction begins; otherwise the whole call is a run of PublishOverlap in which it is refused or replayed at
        its check, fails and rolls back, or goes through with its response remembered. Without failing writes it never
        fails. */
    method Publish(c: M.CallId, q: Request, pauses: Pauses) returns (outcome: Outcome, ghost run: seq<Step>)
      requires c !in calls && Unlocked(Database()) && ApartFrom(pauses, c)
      modifies this
      ensures Database() == M.Exec(V(), old(Database()), run) && Unlocked(Database())
      ensures outcome.Published? ==> run == Complete(c, q, pauses)
      ensures outcome.Published? ==> q.key in responses && responses[q.key] == Remembered(q.publish, outcome.response)
      ensures outcome.RolledBack? ==> Failed(run, c, q, pauses)
      ensures outcome.Replied? ==> run == (if q.key in old(responses) then [] else UpToCheck(c, q, pauses))
      ensures q.key !in old(responses) ==>
                if AnswerAtCheck(old(Database()), c, q, pauses).Started? then !outcome.Replied?
                else outcome == Replied(AnswerAtCheck(old(Database()), c, q, pauses))
      ensures q.key in old(responses) ==>
                outcome == Replied(if old(responses)[q.key].request == q.publish
                                   then Recalled(old(responses)[q.key].response) else KeyReused)
      ensures old(Calm()) ==> !outcome.RolledBack?
    {
      run := [];
      if q.key in responses {
        outcome := Replied(if responses[q.key].request == q.publish then Recalled(responses[q.key].response)
                           else KeyReused);
        return;
      }
      var answer := OpenCall(c, q, pauses);
      if answer.Started? {
        outcome, run := PublishChecked(c, q, pauses, old(Database()));
      } else {
        outcome, run := Replied(answer), UpToCheck(c, q, pauses);
      }
    }
  }
}
