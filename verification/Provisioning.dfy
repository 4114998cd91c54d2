/** The resumable provisioning of an organization: backend/services/organizationProvisioningCore.js over the step
    log of organizationProvisioningRecorder.js. An attempt runs its steps in order and skips those the log says are
    complete; any call, to the provider or to the recorder, may be lost or take effect and still raise an error. */
module Provisioning {
  import opened Wrappers

  type OrganizationId = string
  type UserId = string

  datatype Contact = Contact(key: string, email: string, roleName: string)

  datatype Input = Input(defaultRoleNames: seq<string>, contacts: seq<Contact>, hasDomain: bool)

  datatype Role = Role(id: Option<string>, name: string)

  datatype Step = Started | ListRoles | ValidateTemplate | CreateOrganization | ReplaceDomains | ReplaceRoles
                | AssignRole(key: string)

  datatype Output = Nothing | Roles(roles: seq<Role>) | InOrganization(organization: OrganizationId)
                  | Assigned(organization: OrganizationId, email: string, user: UserId, roleName: string)

  datatype Status = Running | Completed | Failed

  datatype Record = Record(step: Step, status: Status, output: Output)

  /** A call that reached the provider. */
  datatype Call = List | Ensure | Create(id: OrganizationId) | SetDomains(organization: OrganizationId)
                | SetRoles(organization: OrganizationId) | Resolve(email: string)
                | AddMember(organization: OrganizationId, user: UserId)
                | Grant(organization: OrganizationId, user: UserId, roleName: string)

  /** ... made for a step when the log held `after` records. */
  datatype Effect = Effect(step: Step, call: Call, after: nat)

  datatype Fault = Fine | Lost | Unacknowledged

  /** What the outside world has in store for a call. */
  datatype Answer = Answer(fault: Fault, roles: seq<Role>, organization: OrganizationId, user: Option<UserId>)

  datatype Assignment = Assignment(key: string, email: string, user: UserId, roleName: string, skipped: bool)

  datatype Report = Report(organization: OrganizationId, assignments: seq<Assignment>)

  datatype Ran = Ran(skipped: bool, output: Output)

  // ----- Roles -----

  /** `new Map(...)` keeps the last role of a name. */
  function FindRole(roles: seq<Role>, name: string): (r: Option<Role>)
    ensures r.Some? ==> r.value.name == name
  {
    if roles == [] then None
    else if roles[|roles| - 1].name == name then Some(roles[|roles| - 1])
    else FindRole(roles[..|roles| - 1], name)
  }

  predicate Usable(roles: seq<Role>, name: string) {
    FindRole(roles, name).Some? && FindRole(roles, name).value.id.Some?
  }

  predicate Covers(roles: seq<Role>, input: Input) {
    && (forall i | 0 <= i < |input.defaultRoleNames| :: Usable(roles, input.defaultRoleNames[i]))
    && (forall i | 0 <= i < |input.contacts| :: Usable(roles, input.contacts[i].roleName))
  }

  // ----- The log -----

  predicate Replayable(s: Step) {
    s == ListRoles || s == ValidateTemplate
  }

  predicate IsComplete(log: seq<Record>, s: Step) {
    exists i | 0 <= i < |log| :: log[i].step == s && log[i].status == Completed
  }

  /** `getCompletedSteps`: the last completed record of each step. */
  function CompletedSteps(log: seq<Record>): map<Step, Output> {
    if log == [] then map[]
    else
      var earlier := CompletedSteps(log[..|log| - 1]);
      var last := log[|log| - 1];
      if last.status == Completed then earlier[last.step := last.output] else earlier
  }

  lemma {:induction false} CompletedStepsAreRecorded(log: seq<Record>)
    ensures forall s :: s in CompletedSteps(log) <==> IsComplete(log, s)
    ensures forall s | s in CompletedSteps(log) :: Record(s, Completed, CompletedSteps(log)[s]) in log
    decreases |log|
  {
    if log != [] {
      var before := log[..|log| - 1];
      CompletedStepsAreRecorded(before);
      assert log == before + [log[|log| - 1]];
      forall s
        ensures s in CompletedSteps(log) <==> IsComplete(log, s)
      {
        if i :| 0 <= i < |log| && log[i].step == s && log[i].status == Completed && i < |before| {
          assert before[i].step == s;
        }
      }
    }
  }

  function FirstContact(contacts: seq<Contact>, key: string): Option<Contact> {
    if contacts == [] then None
    else if contacts[0].key == key then Some(contacts[0])
    else FirstContact(contacts[1..], key)
  }

  /** A completed record of a step other than listing roles and validating the template is the only one. */
  predicate CompletedOnce(log: seq<Record>) {
    forall i, j | 0 <= i < j < |log| && log[i].status == Completed && log[j].status == Completed &&
           !Replayable(log[i].step) ::
      log[i].step != log[j].step
  }

  predicate NeedsOrganization(s: Step) {
    s == ReplaceDomains || s == ReplaceRoles || s.AssignRole?
  }

  predicate WellFormed(input: Input, r: Record) {
    && (r.step == ListRoles ==> r.output.Roles?)
    && (r.step in {CreateOrganization, ReplaceDomains, ReplaceRoles} ==> r.output.InOrganization?)
    && (r.step.AssignRole? ==>
          && r.output.Assigned?
          && FirstContact(input.contacts, r.step.key).Some?
          && r.output.email == FirstContact(input.contacts, r.step.key).value.email
          && r.output.roleName == FirstContact(input.contacts, r.step.key).value.roleName)
  }

  predicate Organizational(r: Record) {
    r.output.InOrganization? || r.output.Assigned?
  }

  /** Everything complete is complete in the organization whose creation is recorded. */
  predicate OneOrganization(log: seq<Record>) {
    forall i | 0 <= i < |log| && log[i].status == Completed && NeedsOrganization(log[i].step) ::
      && Organizational(log[i])
      && Record(CreateOrganization, Completed, InOrganization(log[i].output.organization)) in log
  }

  /** What a completed record claims was really done at the provider. */
  predicate Backed(effects: seq<Effect>, r: Record) {
    && (r.step == CreateOrganization ==>
          r.output.InOrganization? && Done(effects, r.step, Create(r.output.organization)))
    && (r.step == ReplaceDomains ==>
        r.output.InOrganization? && Done(effects, r.step, SetDomains(r.output.organization)))
    && (r.step == ReplaceRoles ==> r.output.InOrganization? && Done(effects, r.step, SetRoles(r.output.organization)))
    && (r.step.AssignRole? ==>
          && r.output.Assigned?
          && Done(effects, r.step, AddMember(r.output.organization, r.output.user))
          && Done(effects, r.step, Grant(r.output.organization, r.output.user, r.output.roleName)))
  }

  predicate Done(effects: seq<Effect>, s: Step, c: Call) {
    exists i | 0 <= i < |effects| :: effects[i].step == s && effects[i].call == c
  }

  /** No call is ever made for a step whose completion was on record. */
  predicate NoneAfterCompletion(log: seq<Record>, effects: seq<Effect>) {
    forall i | 0 <= i < |effects| && !Replayable(effects[i].step) ::
      effects[i].after <= |log| && !IsComplete(log[..effects[i].after], effects[i].step)
  }

  ghost predicate LogInv(input: Input, log: seq<Record>, effects: seq<Effect>) {
    && CompletedOnce(log)
    && OneOrganization(log)
    && NoneAfterCompletion(log, effects)
    && forall i | 0 <= i < |log| && log[i].status == Completed :: WellFormed(input, log[i]) && Backed(effects, log[i])
  }

  /** An organization is the one on record. */
  predicate Recorded(log: seq<Record>, organization: OrganizationId) {
    Record(CreateOrganization, Completed, InOrganization(organization)) in log
  }

  lemma OnlyOneIsRecorded(log: seq<Record>, a: OrganizationId, b: OrganizationId)
    requires CompletedOnce(log) && Recorded(log, a) && Recorded(log, b)
    ensures a == b
  {
  }

  lemma OpenRecordKeepsInv(input: Input, log: seq<Record>, effects: seq<Effect>, s: Step, status: Status)
    requires LogInv(input, log, effects) && status != Completed
    ensures LogInv(input, log + [Record(s, status, Nothing)], effects)
    ensures CompletedSteps(log + [Record(s, status, Nothing)]) == CompletedSteps(log)
  {
    var after := log + [Record(s, status, Nothing)];
    assert after[..|after| - 1] == log;
    forall i | 0 <= i < |effects| && !Replayable(effects[i].step)
      ensures !IsComplete(after[..effects[i].after], effects[i].step)
    {
      assert after[..effects[i].after] == log[..effects[i].after];
    }
  }

  lemma OpenRecordCompletesNothing(log: seq<Record>, s: Step, status: Status)
    requires status != Completed
    ensures forall x :: IsComplete(log + [Record(s, status, Nothing)], x) <==> IsComplete(log, x)
  {
    var after := log + [Record(s, status, Nothing)];
    forall x | IsComplete(log, x)
      ensures IsComplete(after, x)
    {
      var i :| 0 <= i < |log| && log[i].step == x && log[i].status == Completed;
      assert after[i] == log[i];
    }
  }

  /** A step that is open, was really carried out, and in the organization on record. */
  predicate MayComplete(input: Input, log: seq<Record>, effects: seq<Effect>, s: Step, output: Output) {
    && (Replayable(s) || !IsComplete(log, s))
    && WellFormed(input, Record(s, Completed, output)) && Backed(effects, Record(s, Completed, output))
    && (NeedsOrganization(s) ==> Organizational(Record(s, Completed, output)) && Recorded(log, output.organization))
  }

  lemma CompletionKeepsInv(input: Input, log: seq<Record>, effects: seq<Effect>, s: Step, output: Output)
    requires LogInv(input, log, effects) && MayComplete(input, log, effects, s, output)
    ensures LogInv(input, log + [Record(s, Completed, output)], effects)
    ensures CompletedSteps(log + [Record(s, Completed, output)]) == CompletedSteps(log)[s := output]
  {
    var after := log + [Record(s, Completed, output)];
    assert after[..|after| - 1] == log;
    forall i | 0 <= i < |effects| && !Replayable(effects[i].step)
      ensures !IsComplete(after[..effects[i].after], effects[i].step)
    {
      assert after[..effects[i].after] == log[..effects[i].after];
    }
  }

  lemma EffectKeepsInv(input: Input, log: seq<Record>, effects: seq<Effect>, s: Step, c: Call)
    requires LogInv(input, log, effects)
    requires Replayable(s) || !IsComplete(log, s)
    ensures LogInv(input, log, effects + [Effect(s, c, |log|)])
  {
    var after := effects + [Effect(s, c, |log|)];
    assert log[..|log|] == log;
    forall x: Step, y: Call | Done(effects, x, y)
      ensures Done(after, x, y)
    {
      var i :| 0 <= i < |effects| && effects[i].step == x && effects[i].call == y;
      assert after[i] == effects[i];
    }
  }
}
