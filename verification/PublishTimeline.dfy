/** When the checks of a publication were made, and what may have become of the evidence by the time it is saved:
    `publish` reads the reviewed state once and awaits several times before it writes, and only other publish calls
    wait for its lock. */
module PublishTimeline {
  import opened Wrappers
  import opened Publishing
  import R = Reviewing

  function At(project: Projector, acts: seq<Action>, n: nat): Tables
    requires n <= |acts|
  {
    Exec(project, Empty(), acts[..n])
  }

  /** Step `n` of the run started the publish call that checked this row. */
  ghost predicate CheckedAt(project: Projector, acts: seq<Action>, n: nat, row: Publication) {
    && n < |acts| && acts[n].StartPublish?
    && Answer(project, At(project, acts, n), acts[n].key, acts[n].request).Started?
    && ToPublish(project, At(project, acts, n), acts[n].key.organization, acts[n].request) == Some(row)
  }

  ghost predicate Checked(project: Projector, acts: seq<Action>, row: Publication) {
    exists n: nat :: CheckedAt(project, acts, n, row)
  }

  function Unnumbered(p: Publication): Publication {
    p.(version := 0)
  }

  ghost predicate AllChecked(project: Projector, acts: seq<Action>, t: Tables) {
    && (forall i | 0 <= i < |t.publications| :: Checked(project, acts, Unnumbered(t.publications[i])))
    && (forall org | org in t.locks :: Checked(project, acts, t.locks[org].row) && t.locks[org].row.version == 0)
  }

  lemma {:induction false} ExecLast(project: Projector, t: Tables, acts: seq<Action>, a: Action)
    ensures Exec(project, t, acts + [a]) == After(project, Exec(project, t, acts), a)
    decreases |acts|
  {
    if acts == [] {
      assert [] + [a] == [a] && [a][1..] == [];
    } else {
      assert (acts + [a])[1..] == acts[1..] + [a];
      ExecLast(project, After(project, t, acts[0]), acts[1..], a);
    }
  }

  lemma CheckedStays(project: Projector, acts: seq<Action>, a: Action, row: Publication)
    requires Checked(project, acts, row)
    ensures Checked(project, acts + [a], row)
  {
    var n: nat :| CheckedAt(project, acts, n, row);
    assert (acts + [a])[..n] == acts[..n];
    assert CheckedAt(project, acts + [a], n, row);
  }

  lemma StartIsChecked(project: Projector, acts: seq<Action>, key: R.Key, request: PublishRequest, row: Publication)
    requires Answer(project, Exec(project, Empty(), acts), key, request).Started?
    requires ToPublish(project, Exec(project, Empty(), acts), key.organization, request) == Some(row)
    ensures Checked(project, acts + [StartPublish(key, request)], row) && row.version == 0
  {
    var all := acts + [StartPublish(key, request)];
    assert all[..|acts|] == acts;
    assert CheckedAt(project, all, |acts|, row);
  }

  lemma CommitAddsPending(t: Tables, org: R.Org, i: nat)
    requires i < |Commit(t, org).publications|
    ensures || (i < |t.publications| && Commit(t, org).publications[i] == t.publications[i])
            || (org in t.locks && Unnumbered(Commit(t, org).publications[i]) == Unnumbered(t.locks[org].row))
  {
  }

  /** Other steps neither publish nor take a lock. */
  lemma OthersAddNothing(project: Projector, t: Tables, a: Action)
    requires !a.CommitPublish? && !a.StartPublish?
    ensures After(project, t, a).publications == t.publications
    ensures forall org | org in After(project, t, a).locks ::
              org in t.locks && After(project, t, a).locks[org] == t.locks[org]
  {
  }

  lemma {:induction false} EverythingWasChecked(project: Projector, acts: seq<Action>)
    ensures AllChecked(project, acts, Exec(project, Empty(), acts))
    decreases |acts|
  {
    if acts != [] {
      var before, a := acts[..|acts| - 1], acts[|acts| - 1];
      assert before + [a] == acts;
      EverythingWasChecked(project, before);
      ExecLast(project, Empty(), before, a);
      StepIsChecked(project, before, a);
    }
  }

  lemma AllCheckedStays(project: Projector, acts: seq<Action>, t: Tables, a: Action)
    requires AllChecked(project, acts, t)
    ensures AllChecked(project, acts + [a], t)
  {
    forall i | 0 <= i < |t.publications|
      ensures Checked(project, acts + [a], Unnumbered(t.publications[i]))
    {
      CheckedStays(project, acts, a, Unnumbered(t.publications[i]));
    }
    forall org | org in t.locks
      ensures Checked(project, acts + [a], t.locks[org].row)
    {
      CheckedStays(project, acts, a, t.locks[org].row);
    }
  }

  lemma CommitIsChecked(project: Projector, acts: seq<Action>, t: Tables, org: R.Org)
    requires AllChecked(project, acts, t)
    ensures AllChecked(project, acts, Commit(t, org))
  {
    forall i | 0 <= i < |Commit(t, org).publications|
      ensures Checked(project, acts, Unnumbered(Commit(t, org).publications[i]))
    {
      CommitAddsPending(t, org, i);
    }
  }

  lemma LockIsChecked(project: Projector, acts: seq<Action>, t: Tables, key: R.Key, request: PublishRequest)
    requires AllChecked(project, acts, t) && Answer(project, t, key, request).Started?
    requires Checked(project, acts, ToPublish(project, t, key.organization, request).value)
    requires ToPublish(project, t, key.organization, request).value.version == 0
    ensures AllChecked(project, acts, Lock(project, t, key, request))
  {
  }

  lemma StepIsChecked(project: Projector, acts: seq<Action>, a: Action)
    requires AllChecked(project, acts, Exec(project, Empty(), acts))
    ensures AllChecked(project, acts + [a], After(project, Exec(project, Empty(), acts), a))
  {
    var t := Exec(project, Empty(), acts);
    AllCheckedStays(project, acts, t, a);
    if a.CommitPublish? {
      CommitIsChecked(project, acts + [a], t, a.organization);
    } else if a.StartPublish? {
      if Answer(project, t, a.key, a.request).Started? {
        StartIsChecked(project, acts, a.key, a.request, ToPublish(project, t, a.key.organization, a.request).value);
        LockIsChecked(project, acts + [a], t, a.key, a.request);
      }
    } else {
      OthersAddNothing(project, t, a);
    }
  }

  lemma ToPublishIsClean(project: Projector, t: Tables, org: R.Org, request: PublishRequest)
    requires ToPublish(project, t, org, request).Some?
    ensures var row := ToPublish(project, t, org, request).value;
            && row.organization == org && row.reviewed == R.ReviewedState(t.evidence, org, row.draft) &&
               R.Clean(row.reviewed)
  {
  }

  /** Every publication of every run was checked at some step of it, under the lock of its organization, and the
      reviewed state it carries is the one the evidence had at that very step, which was clean. */
  lemma PublicationsWereCleanWhenChecked(project: Projector, acts: seq<Action>, i: nat)
    requires i < |Exec(project, Empty(), acts).publications|
    ensures var p := Exec(project, Empty(), acts).publications[i];
            exists n | 0 <= n < |acts| ::
              && acts[n].StartPublish? && acts[n].key.organization == p.organization
              && p.reviewed == R.ReviewedState(At(project, acts, n).evidence, p.organization, p.draft)
              && R.Clean(R.ReviewedState(At(project, acts, n).evidence, p.organization, p.draft))
  {
    EverythingWasChecked(project, acts);
    var p := Exec(project, Empty(), acts).publications[i];
    var n: nat :| CheckedAt(project, acts, n, Unnumbered(p));
    ToPublishIsClean(project, At(project, acts, n), acts[n].key.organization, acts[n].request);
  }

  // ----- From the checks to the commit -----

  /** The evidence that the last change of a run leaves. */
  function LastEvidence(acts: seq<Action>, start: R.Evidence): R.Evidence {
    if acts == [] then start
    else if acts[|acts| - 1].ChangeEvidence? then acts[|acts| - 1].evidence
    else LastEvidence(acts[..|acts| - 1], start)
  }

  lemma {:induction false} EvidenceIsTheLastChange(project: Projector, t: Tables, acts: seq<Action>)
    ensures Exec(project, t, acts).evidence == LastEvidence(acts, t.evidence)
    decreases |acts|
  {
    if acts != [] {
      var before, a := acts[..|acts| - 1], acts[|acts| - 1];
      assert before + [a] == acts;
      ExecLast(project, t, before, a);
      EvidenceIsTheLastChange(project, t, before);
    }
  }

  predicate NoEvidenceChange(acts: seq<Action>) {
    forall i | 0 <= i < |acts| :: !acts[i].ChangeEvidence?
  }

  lemma {:induction false} UnchangedEvidence(acts: seq<Action>, start: R.Evidence)
    requires NoEvidenceChange(acts)
    ensures LastEvidence(acts, start) == start
    decreases |acts|
  {
    if acts != [] {
      UnchangedEvidence(acts[..|acts| - 1], start);
    }
  }

  /** The draft whose publication is pending has clean evidence. */
  predicate CleanFor(t: Tables, org: R.Org, draft: R.DraftId) {
    R.Clean(R.ReviewedState(t.evidence, org, draft))
  }

  /** Whatever happens between the checks of a publish call and its commit: the commit goes through all the same, and
      the evidence is clean for the draft at that moment if and only if the last change of evidence in between, if
      there was one, left it clean. */
  lemma CleanAtCommitUnlessEvidenceChanged(project: Projector, t: Tables, key: R.Key, request: PublishRequest,
                                           between: seq<Action>)
    requires Inv(project, t) && Answer(project, t, key, request).Started?
    requires CommitPublish(key.organization) !in between && AbortPublish(key.organization) !in between
    ensures var m := Exec(project, Lock(project, t, key, request), between);
            && (CleanFor(m, key.organization, request.draft) <==>
                  NoEvidenceChange(between) ||
                      R.Clean(R.ReviewedState(LastEvidence(between, t.evidence), key.organization, request.draft)))
            && key.organization in m.locks && m.locks[key.organization].key == key
            && m.locks[key.organization].row.draft == request.draft
  {
    var locked := Lock(project, t, key, request);
    LockKeepsInv(project, t, key, request);
    LockHoldsTheBase(project, locked, between, key.organization);
    EvidenceIsTheLastChange(project, locked, between);
    ToPublishIsClean(project, t, key.organization, request);
    StartedDraft(project, t, key, request);
    if NoEvidenceChange(between) {
      UnchangedEvidence(between, t.evidence);
    }
  }

  lemma StartedDraft(project: Projector, t: Tables, key: R.Key, request: PublishRequest)
    requires Answer(project, t, key, request).Started?
    ensures var locked := Lock(project, t, key, request);
            && key.organization in locked.locks && locked.evidence == t.evidence
            && locked.locks[key.organization].key == key && locked.locks[key.organization].row.draft == request.draft
  {
  }

  /** So a publication may be saved over evidence that is no longer clean: any change does, the commit looks at the
      evidence no more. */
  lemma EvidenceMayChangeBeforeCommit(project: Projector, t: Tables, org: R.Org, evidence: R.Evidence)
    requires org in t.locks && t.locks[org].key !in t.responses
    requires !R.Clean(R.ReviewedState(evidence, org, t.locks[org].row.draft))
    ensures var m := After(project, t, ChangeEvidence(evidence));
            var done := After(project, m, CommitPublish(org));
            && !CleanFor(m, org, t.locks[org].row.draft)
            && |done.publications| == |t.publications| + 1
            && done.publications[|t.publications|].draft == t.locks[org].row.draft
  {
  }
}
