/** `runCanonicalOrganizationProvisioning` as it runs: one object is one operation with its step log, on which any
    number of attempts are made with the same input. */
module ProvisioningSaga {
  import opened Wrappers
  import opened Provisioning

  /** Nothing fails, every contact resolves to a user, and all roles asked for exist. */
  predicate Helpful(input: Input, a: Answer) {
    a.fault == Fine && a.user.Some? && Covers(a.roles, input)
  }

  predicate NamesItself(contacts: seq<Contact>, i: nat)
    requires i < |contacts|
  {
    FirstContact(contacts, contacts[i].key) == Some(contacts[i])
  }

  lemma {:induction false} FirstContactIsFirst(contacts: seq<Contact>, i: nat)
    requires i < |contacts|
    ensures FirstContact(contacts, contacts[i].key).Some?
    ensures exists j ::
              0 <= j <= i && FirstContact(contacts, contacts[i].key) == Some(contacts[j]) &&
              contacts[j].key == contacts[i].key
    decreases i
  {
    if contacts[0].key != contacts[i].key {
      FirstContactIsFirst(contacts[1..], i - 1);
      var j :| 0 <= j <= i - 1 && FirstContact(contacts[1..], contacts[i].key) == Some(contacts[1..][j]);
      assert contacts[1..][j] == contacts[j + 1];
    }
  }

  lemma FirstOfItsKey(contacts: seq<Contact>, i: nat)
    requires i < |contacts| && forall j | 0 <= j < i :: contacts[j].key != contacts[i].key
    ensures NamesItself(contacts, i)
  {
    FirstContactIsFirst(contacts, i);
  }

  predicate SameKeySameContact(contacts: seq<Contact>, i: nat, j: nat)
    requires i < |contacts| && j < |contacts|
  {
    contacts[i].key == contacts[j].key ==> contacts[i] == contacts[j]
  }

  lemma NamesItselfIfUnique(contacts: seq<Contact>, i: nat)
    requires i < |contacts| && forall j | 0 <= j < |contacts| :: SameKeySameContact(contacts, i, j)
    ensures NamesItself(contacts, i)
  {
    FirstContactIsFirst(contacts, i);
    var j :| 0 <= j <= i && FirstContact(contacts, contacts[i].key) == Some(contacts[j]) &&
        contacts[j].key == contacts[i].key;
    assert SameKeySameContact(contacts, i, j);
  }

  /** Every contact gets an assignment of its own if and only if contacts that share a key are the same contact. */
  lemma OwnAssignmentsNeedDistinctKeys(contacts: seq<Contact>)
    ensures (forall i | 0 <= i < |contacts| :: NamesItself(contacts, i)) <==>
            (forall i, j | 0 <= i < |contacts| && 0 <= j < |contacts| :: SameKeySameContact(contacts, i, j))
  {
    if forall i | 0 <= i < |contacts| :: NamesItself(contacts, i) {
      forall i, j | 0 <= i < |contacts| && 0 <= j < |contacts|
        ensures SameKeySameContact(contacts, i, j)
      {
        assert NamesItself(contacts, i) && NamesItself(contacts, j);
      }
    } else if forall i, j | 0 <= i < |contacts| && 0 <= j < |contacts| :: SameKeySameContact(contacts, i, j) {
      forall i | 0 <= i < |contacts|
        ensures NamesItself(contacts, i)
      {
        NamesItselfIfUnique(contacts, i);
      }
    }
  }

  /** What an attempt that returns reports about a contact is what is on record for its key. */
  predicate Reported(input: Input, log: seq<Record>, organization: OrganizationId, a: Assignment, c: Contact) {
    && FirstContact(input.contacts, c.key).Some?
    && a.key == c.key && a.email == c.email
    && a.roleName == FirstContact(input.contacts, c.key).value.roleName
    && Record(AssignRole(c.key), Completed,
              Assigned(organization, FirstContact(input.contacts, c.key).value.email, a.user, a.roleName)) in log
  }

  predicate ReportedSoFar(input: Input, log: seq<Record>, organization: OrganizationId, assignments: seq<Assignment>) {
    && |assignments| <= |input.contacts|
    && forall i | 0 <= i < |assignments| :: Reported(input, log, organization, assignments[i], input.contacts[i])
  }

  /** The default roles are set, and the domain if there is one. */
  predicate Configured(input: Input, log: seq<Record>) {
    IsComplete(log, ReplaceRoles) && (input.hasDomain ==> IsComplete(log, ReplaceDomains))
  }

  lemma ConfiguredStays(input: Input, before: seq<Record>, after: seq<Record>)
    requires before <= after && Configured(input, before)
    ensures Configured(input, after)
  {
    RecordsStay(before, after, ReplaceRoles);
    RecordsStay(before, after, ReplaceDomains);
  }

  predicate ReportsAll(input: Input, log: seq<Record>, r: Report) {
    && Recorded(log, r.organization)
    && |r.assignments| == |input.contacts|
    && ReportedSoFar(input, log, r.organization, r.assignments)
  }

  lemma RecordsStay(before: seq<Record>, after: seq<Record>, s: Step)
    requires before <= after
    ensures IsComplete(before, s) ==> IsComplete(after, s)
    ensures forall r | r in before :: r in after
  {
    if i :| 0 <= i < |before| && before[i].step == s && before[i].status == Completed {
      assert after[i] == before[i];
    }
    forall r | r in before
      ensures r in after
    {
      var i :| 0 <= i < |before| && before[i] == r;
      assert after[i] == r;
    }
  }

  /** A recorded assignment is in the recorded organization and for the first contact of its key. */
  lemma RecordedAssignment(input: Input, log: seq<Record>, effects: seq<Effect>, organization: OrganizationId,
                           key: string, output: Output)
    requires LogInv(input, log, effects) && Recorded(log, organization)
    requires Record(AssignRole(key), Completed, output) in log
    ensures output.Assigned? && output.organization == organization && FirstContact(input.contacts, key).Some?
    ensures output == Assigned(organization, FirstContact(input.contacts, key).value.email, output.user,
                               FirstContact(input.contacts, key).value.roleName)
  {
    var i :| 0 <= i < |log| && log[i] == Record(AssignRole(key), Completed, output);
    OnlyOneIsRecorded(log, output.organization, organization);
  }

  lemma RecordedOrganization(input: Input, log: seq<Record>, effects: seq<Effect>, output: Output)
    requires LogInv(input, log, effects) && Record(CreateOrganization, Completed, output) in log
    ensures output.InOrganization? && Recorded(log, output.organization)
  {
  }

  lemma RecordedRoles(input: Input, log: seq<Record>, effects: seq<Effect>, output: Output)
    requires LogInv(input, log, effects) && Record(ListRoles, Completed, output) in log
    ensures output.Roles?
  {
  }

  /** Reports stay true as the log grows. */
  lemma ReportsStay(input: Input, before: seq<Record>, after: seq<Record>, organization: OrganizationId,
                    assignments: seq<Assignment>)
    requires before <= after && ReportedSoFar(input, before, organization, assignments)
    ensures ReportedSoFar(input, after, organization, assignments)
  {
    RecordsStay(before, after, Started);
  }

  /** The assignment of the next contact, made from what is on record for its key. */
  lemma NextIsReported(input: Input, log: seq<Record>, effects: seq<Effect>, organization: OrganizationId,
                       assignments: seq<Assignment>, output: Output, next: Assignment)
    requires LogInv(input, log, effects) && Recorded(log, organization) && |assignments| < |input.contacts|
    requires ReportedSoFar(input, log, organization, assignments)
    requires Record(AssignRole(input.contacts[|assignments|].key), Completed, output) in log && output.Assigned?
    requires next.key == input.contacts[|assignments|].key && next.email == input.contacts[|assignments|].email
    requires next.user == output.user && next.roleName == output.roleName
    ensures ReportedSoFar(input, log, organization, assignments + [next])
  {
    RecordedAssignment(input, log, effects, organization, next.key, output);
  }

  /** A contact whose step is still open, after those before it, is the first of its key. */
  lemma OpenContactIsFirst(input: Input, log: seq<Record>, organization: OrganizationId, assignments: seq<Assignment>,
                           i: nat)
    requires i < |input.contacts| && |assignments| == i && !IsComplete(log, AssignRole(input.contacts[i].key))
    requires ReportedSoFar(input, log, organization, assignments)
    ensures NamesItself(input.contacts, i)
  {
    forall j | 0 <= j < i
      ensures input.contacts[j].key != input.contacts[i].key
    {
      assert Reported(input, log, organization, assignments[j], input.contacts[j]);
      var k :| 0 <= k < |log| && log[k].step == AssignRole(input.contacts[j].key) && log[k].status == Completed;
    }
    FirstOfItsKey(input.contacts, i);
  }

  predicate Grown(log: seq<Record>, effects: seq<Effect>, log': seq<Record>, effects': seq<Effect>) {
    && log <= log' && effects <= effects'
    && forall i | |effects| <= i < |effects'| :: Replayable(effects'[i].step) || !IsComplete(log, effects'[i].step)
  }

  /** The same organization, and for every contact the same user and role; whether a step was skipped may differ. */
  predicate SameReport(first: Report, second: Report) {
    && first.organization == second.organization && |first.assignments| == |second.assignments|
    && forall i | 0 <= i < |first.assignments| :: SameAssignment(first.assignments[i], second.assignments[i])
  }

  predicate SameAssignment(a: Assignment, b: Assignment) {
    a == b.(skipped := a.skipped)
  }

  lemma AssignmentsAgree(input: Input, log: seq<Record>, organization: OrganizationId, a: Assignment, b: Assignment,
                         c: Contact)
    requires CompletedOnce(log) && Reported(input, log, organization, a, c) && Reported(input, log, organization, b, c)
    ensures SameAssignment(a, b)
  {
    var known := FirstContact(input.contacts, c.key).value;
    RecordIsUnique(log, AssignRole(c.key), Assigned(organization, known.email, a.user, a.roleName),
                   Assigned(organization, known.email, b.user, b.roleName));
  }

  /** Any two attempts that return report the same: `before` is the log of the earlier one, `log` that of the later. */
  lemma ReportsAgree(input: Input, before: seq<Record>, log: seq<Record>, effects: seq<Effect>, first: Report,
                     second: Report)
    requires before <= log && LogInv(input, log, effects)
    requires ReportsAll(input, before, first) && ReportsAll(input, log, second)
    ensures SameReport(first, second)
  {
    RecordsStay(before, log, Started);
    OnlyOneIsRecorded(log, first.organization, second.organization);
    ReportsStay(input, before, log, first.organization, first.assignments);
    forall i | 0 <= i < |input.contacts|
      ensures SameAssignment(first.assignments[i], second.assignments[i])
    {
      AssignmentsAgree(input, log, first.organization, first.assignments[i], second.assignments[i], input.contacts[i]);
    }
  }

  lemma ReportStands(input: Input, before: seq<Record>, log: seq<Record>, report: Report)
    requires before <= log && ReportsAll(input, before, report)
    ensures ReportsAll(input, log, report)
  {
    RecordsStay(before, log, Started);
    ReportsStay(input, before, log, report.organization, report.assignments);
  }

  predicate AllStand(input: Input, log: seq<Record>, reports: seq<Option<Report>>) {
    forall i | 0 <= i < |reports| && reports[i].Some? :: ReportsAll(input, log, reports[i].value)
  }

  predicate AllAgree(reports: seq<Option<Report>>) {
    forall i, j | 0 <= i < j < |reports| && reports[i].Some? && reports[j].Some? ::
             SameReport(reports[i].value, reports[j].value)
  }

  lemma OneMoreReport(input: Input, before: seq<Record>, log: seq<Record>, effects: seq<Effect>,
                      reports: seq<Option<Report>>, report: Option<Report>)
    requires before <= log && LogInv(input, log, effects) && AllStand(input, before, reports) && AllAgree(reports)
    requires report.Some? ==> ReportsAll(input, log, report.value)
    ensures AllStand(input, log, reports + [report]) && AllAgree(reports + [report])
  {
    forall i | 0 <= i < |reports| && reports[i].Some?
      ensures ReportsAll(input, log, reports[i].value) && (report.Some? ==> SameReport(reports[i].value, report.value))
    {
      ReportStands(input, before, log, reports[i].value);
      if report.Some? {
        ReportsAgree(input, before, log, effects, reports[i].value, report.value);
      }
    }
  }

  lemma RecordIsUnique(log: seq<Record>, s: Step, a: Output, b: Output)
    requires CompletedOnce(log) && !Replayable(s) && Record(s, Completed, a) in log && Record(s, Completed, b) in log
    ensures a == b
  {
    var i :| 0 <= i < |log| && log[i] == Record(s, Completed, a);
    var j :| 0 <= j < |log| && log[j] == Record(s, Completed, b);
    assert i == j;
  }

  lemma GrownTwice(log: seq<Record>, effects: seq<Effect>, log': seq<Record>, effects': seq<Effect>,
                   log'': seq<Record>, effects'': seq<Effect>)
    requires Grown(log, effects, log', effects') && Grown(log', effects', log'', effects'')
    ensures Grown(log, effects, log'', effects'')
  {
    forall i | |effects| <= i < |effects''|
      ensures Replayable(effects''[i].step) || !IsComplete(log, effects''[i].step)
    {
      if i < |effects'| {
        assert effects''[i] == effects'[i];
      } else {
        RecordsStay(log, log', effects''[i].step);
      }
    }
  }

  class Saga {
    const input: Input
    const answers: nat -> Answer
    var calls: nat
    var steps: seq<Record>
    var effects: seq<Effect>
    var completed: map<Step, Output>

    ghost predicate Valid()
      reads this
    {
      LogInv(input, steps, effects)
    }

    /** During an attempt the map of completed steps mirrors the log. */
    ghost predicate Resumed()
      reads this
    {
      Valid() && completed == CompletedSteps(steps)
    }

    ghost predicate Calm()
      reads this
    {
      forall n | n >= calls :: Helpful(input, answers(n))
    }

    /** Both histories only grow, and whatever was complete is not touched again. */
    twostate predicate Grows()
      reads this
    {
      Grown(old(steps), old(effects), steps, effects)
    }

    constructor (input: Input, answers: nat -> Answer)
      ensures Valid() && steps == [] && effects == [] && this.input == input && this.answers == answers
    {
      this.input := input;
      this.answers := answers;
      calls, steps, effects, completed := 0, [], [], map[];
    }

    method Next() returns (effect: bool, ok: bool, answer: Answer)
      modifies this`calls
      ensures ok ==> effect
      ensures answer == answers(old(calls))
      ensures old(Calm()) ==> ok && Calm() && Helpful(input, answer)
    {
      answer := answers(calls);
      effect, ok := answer.fault != Lost, answer.fault == Fine;
      calls := calls + 1;
    }

    /** `recordStep` for a step that is starting or has failed. */
    method LogOpen(s: Step, status: Status) returns (ok: bool)
      requires Resumed() && status != Completed
      modifies this`calls, this`steps
      ensures Resumed() && old(steps) <= steps
      ensures forall x :: IsComplete(steps, x) <==> IsComplete(old(steps), x)
      ensures old(Calm()) ==> ok && Calm()
    {
      var effect, answer;
      effect, ok, answer := Next();
      if effect {
        OpenRecordKeepsInv(input, steps, effects, s, status);
        OpenRecordCompletesNothing(steps, s, status);
        steps := steps + [Record(s, status, Nothing)];
      }
    }

    /** `recordStep` for a completed step, which may be stored and still raise an error. */
    method LogCompletion(s: Step, output: Output) returns (ok: bool)
      requires Resumed() && MayComplete(input, steps, effects, s, output)
      modifies this`calls, this`steps, this`completed
      ensures Resumed() && old(steps) <= steps
      ensures ok ==> steps == old(steps) + [Record(s, Completed, output)]
      ensures old(Calm()) ==> ok && Calm()
    {
      var effect, answer;
      effect, ok, answer := Next();
      if effect {
        CompletionKeepsInv(input, steps, effects, s, output);
        steps := steps + [Record(s, Completed, output)];
        completed := completed[s := output];
      }
    }

    method Provider(s: Step, c: Call) returns (ok: bool, answer: Answer)
      requires Resumed() && (Replayable(s) || !IsComplete(steps, s))
      modifies this`calls, this`effects
      ensures Resumed() && Grows()
      ensures ok ==> Done(effects, s, c)
      ensures forall x, y | Done(old(effects), x, y) :: Done(effects, x, y)
      ensures answer == answers(old(calls))
      ensures old(Calm()) ==> ok && Calm() && Helpful(input, answer)
    {
      var effect;
      effect, ok, answer := Next();
      if effect {
        EffectKeepsInv(input, steps, effects, s, c);
        effects := effects + [Effect(s, c, |steps|)];
        assert effects[|effects| - 1] == Effect(s, c, |steps|);
        forall x, y | Done(old(effects), x, y)
          ensures Done(effects, x, y)
        {
          var i :| 0 <= i < |old(effects)| && old(effects)[i].step == x && old(effects)[i].call == y;
          assert effects[i] == old(effects)[i];
        }
      }
    }

    /** The effect of a contact's step. Its role is looked up only after the user has been resolved. */
    method AssignContact(c: Contact, organization: OrganizationId, roles: seq<Role>) returns (output: Option<Output>)
      requires Resumed() && !IsComplete(steps, AssignRole(c.key))
      modifies this`calls, this`effects
      ensures Resumed() && Grows()
      ensures output.Some? ==>
                && output.value.Assigned? && output.value.organization == organization
                && output.value.email == c.email && output.value.roleName == c.roleName
                && Backed(effects, Record(AssignRole(c.key), Completed, output.value))
      ensures old(Calm()) && Usable(roles, c.roleName) ==> output.Some? && Calm()
    {
      var s := AssignRole(c.key);
      var ok, answer := Provider(s, Resolve(c.email));
      if !ok || answer.user.None? {
        return None;
      }
      var user := answer.user.value;
      if !Usable(roles, c.roleName) {
        return None;
      }
      ok, answer := Provider(s, AddMember(organization, user));
      if !ok {
        return None;
      }
      ok, answer := Provider(s, Grant(organization, user, c.roleName));
      output := if ok then Some(Assigned(organization, c.email, user, c.roleName)) else None;
    }

    /** The effect of any step. */
    method Perform(s: Step, organization: OrganizationId, roles: seq<Role>, contact: Contact)
      returns (output: Option<Output>)
      requires Resumed() && (Replayable(s) || !IsComplete(steps, s))
      requires s.AssignRole? ==> s.key == contact.key && FirstContact(input.contacts, s.key) == Some(contact)
      modifies this`calls, this`effects
      ensures Resumed() && Grows()
      ensures output.Some? ==>
                && WellFormed(input, Record(s, Completed, output.value))
                && Backed(effects, Record(s, Completed, output.value))
      ensures output.Some? && NeedsOrganization(s) ==>
                Organizational(Record(s, Completed, output.value)) && output.value.organization == organization
      ensures old(Calm()) && (s.AssignRole? ==> Usable(roles, contact.roleName)) ==>
                output.Some? && Calm() && (s == ListRoles ==> Covers(output.value.roles, input))
    {
      var ok, answer;
      match s {
        case Started =>
          output := Some(Nothing);
        case ListRoles =>
          ok, answer := Provider(s, List);
          output := if ok then Some(Roles(answer.roles)) else None;
        case ValidateTemplate =>
          ok, answer := Provider(s, Ensure);
          output := if ok then Some(Nothing) else None;
        case CreateOrganization =>
          var created := answers(calls).organization;
          ok, answer := Provider(s, Create(created));
          output := if ok then Some(InOrganization(created)) else None;
        case ReplaceDomains =>
          ok, answer := Provider(s, SetDomains(organization));
          output := if ok then Some(InOrganization(organization)) else None;
        case ReplaceRoles =>
          ok, answer := Provider(s, SetRoles(organization));
          output := if ok then Some(InOrganization(organization)) else None;
        case AssignRole(_) =>
          output := AssignContact(contact, organization, roles);
      }
    }

    /** `runStep`: a step that is complete and not replayable is answered from the log, with no call at all. */
    method RunStep(s: Step, organization: OrganizationId, roles: seq<Role>, contact: Contact) returns (ran: Option<Ran>)
      requires Resumed()
      requires NeedsOrganization(s) ==> Recorded(steps, organization)
      requires s.AssignRole? && !IsComplete(steps, s) ==>
                 s.key == contact.key && FirstContact(input.contacts, s.key) == Some(contact)
      modifies this`calls, this`steps, this`effects, this`completed
      ensures Resumed() && Grows()
      ensures ran.Some? ==> Record(s, Completed, ran.value.output) in steps && IsComplete(steps, s)
      ensures ran.Some? && !Replayable(s) ==> ran.value.skipped == IsComplete(old(steps), s)
      ensures ran.Some? && ran.value.skipped ==> steps == old(steps) && effects == old(effects)
      ensures old(Calm()) && (s.AssignRole? ==> Usable(roles, contact.roleName)) ==>
                ran.Some? && Calm() && (s == ListRoles ==> Covers(ran.value.output.roles, input))
    {
      CompletedStepsAreRecorded(steps);
      if s in completed && !Replayable(s) {
        return Some(Ran(true, completed[s]));
      }
      ran := RunOpenStep(s, organization, roles, contact);
    }

    /** The rest of `runStep`: log, perform, log. */
    method RunOpenStep(s: Step, organization: OrganizationId, roles: seq<Role>, contact: Contact)
      returns (ran: Option<Ran>)
      requires Resumed() && (Replayable(s) || !IsComplete(steps, s))
      requires NeedsOrganization(s) ==> Recorded(steps, organization)
      requires s.AssignRole? && !IsComplete(steps, s) ==>
                 s.key == contact.key && FirstContact(input.contacts, s.key) == Some(contact)
      modifies this`calls, this`steps, this`effects, this`completed
      ensures Resumed() && Grows()
      ensures ran.Some? ==>
                !ran.value.skipped && Record(s, Completed, ran.value.output) in steps && IsComplete(steps, s)
      ensures old(Calm()) && (s.AssignRole? ==> Usable(roles, contact.roleName)) ==>
                ran.Some? && Calm() && (s == ListRoles ==> Covers(ran.value.output.roles, input))
    {
      var ok := LogOpen(s, Running);
      if !ok {
        return None;
      }
      var output := Perform(s, organization, roles, contact);
      if output.Some? {
        ghost var logged := steps;
        ok := LogCompletion(s, output.value);
        if ok {
          assert steps[|steps| - 1] == Record(s, Completed, output.value);
          return Some(Ran(false, output.value));
        }
      }
      ok := LogOpen(s, Failed);
      ran := None;
    }

    /** `getCompletedSteps`, one record after another. */
    method LoadCompletedSteps()
      requires Valid()
      modifies this`completed
      ensures Resumed()
    {
      completed := map[];
      for i := 0 to |steps|
        invariant completed == CompletedSteps(steps[..i])
      {
        assert steps[..i + 1][..i] == steps[..i];
        if steps[i].status == Completed {
          completed := completed[steps[i].step := steps[i].output];
        }
      }
      assert steps[..|steps|] == steps;
    }

    /** `requireRole` for every role name asked for; empty names are not looked up. */
    method RolesExist(roles: seq<Role>) returns (ok: bool)
      ensures Covers(roles, input) ==> ok
    {
      for i := 0 to |input.defaultRoleNames| {
        if input.defaultRoleNames[i] != "" && FindRole(roles, input.defaultRoleNames[i]).None? {
          return false;
        }
      }
      for i := 0 to |input.contacts| {
        if input.contacts[i].roleName != "" && FindRole(roles, input.contacts[i].roleName).None? {
          return false;
        }
      }
      ok := true;
    }

    method DefaultRolesHaveIds(roles: seq<Role>) returns (ok: bool)
      ensures Covers(roles, input) ==> ok
    {
      for i := 0 to |input.defaultRoleNames| {
        if !Usable(roles, input.defaultRoleNames[i]) {
          return false;
        }
      }
      ok := true;
    }

    /** The roles of this very attempt: the step is replayable, so they are always listed anew. */
    method ListRequiredRoles() returns (ok: bool, roles: seq<Role>)
      requires Resumed()
      modifies this`calls, this`steps, this`effects, this`completed
      ensures Resumed() && Grows()
      ensures old(Calm()) ==> ok && Calm() && Covers(roles, input)
    {
      roles := [];
      var ran := RunStep(ListRoles, "", [], Contact("", "", ""));
      if ran.None? {
        return false, [];
      }
      RecordedRoles(input, steps, effects, ran.value.output);
      roles := ran.value.output.roles;
      ok := RolesExist(roles);
    }

    method CreateTheOrganization() returns (created: Option<OrganizationId>)
      requires Resumed()
      modifies this`calls, this`steps, this`effects, this`completed
      ensures Resumed() && Grows()
      ensures created.Some? ==> Recorded(steps, created.value)
      ensures old(Calm()) ==> created.Some? && Calm()
    {
      created := None;
      var ran := RunStep(ValidateTemplate, "", [], Contact("", "", ""));
      if ran.None? {
        return;
      }
      ran := RunStep(CreateOrganization, "", [], Contact("", "", ""));
      if ran.Some? {
        RecordedOrganization(input, steps, effects, ran.value.output);
        created := Some(ran.value.output.organization);
      }
    }

    /** Up to and including the creation of the organization. */
    method Establish() returns (created: Option<OrganizationId>, roles: seq<Role>)
      requires Resumed()
      modifies this`calls, this`steps, this`effects, this`completed
      ensures Resumed() && Grows()
      ensures created.Some? ==> Recorded(steps, created.value)
      ensures old(Calm()) ==> created.Some? && Calm() && Covers(roles, input)
    {
      created, roles := None, [];
      var ran := RunStep(Started, "", [], Contact("", "", ""));
      if ran.None? {
        return;
      }
      var ok;
      ok, roles := ListRequiredRoles();
      if ok {
        created := CreateTheOrganization();
      }
    }

    method ConfigureDomains(organization: OrganizationId) returns (ok: bool)
      requires Resumed() && Recorded(steps, organization)
      modifies this`calls, this`steps, this`effects, this`completed
      ensures Resumed() && Grows() && Recorded(steps, organization)
      ensures ok && input.hasDomain ==> IsComplete(steps, ReplaceDomains)
      ensures old(Calm()) ==> ok && Calm()
    {
      if !input.hasDomain {
        return true;
      }
      var ran := RunStep(ReplaceDomains, organization, [], Contact("", "", ""));
      RecordsStay(old(steps), steps, Started);
      ok := ran.Some?;
    }

    method ConfigureRoles(organization: OrganizationId) returns (ok: bool)
      requires Resumed() && Recorded(steps, organization)
      modifies this`calls, this`steps, this`effects, this`completed
      ensures Resumed() && Grows() && Recorded(steps, organization)
      ensures ok ==> IsComplete(steps, ReplaceRoles)
      ensures old(Calm()) ==> ok && Calm()
    {
      var ran := RunStep(ReplaceRoles, organization, [], Contact("", "", ""));
      RecordsStay(old(steps), steps, Started);
      ok := ran.Some?;
    }

    method Configure(organization: OrganizationId, roles: seq<Role>) returns (ok: bool)
      requires Resumed() && Recorded(steps, organization)
      modifies this`calls, this`steps, this`effects, this`completed
      ensures Resumed() && Grows() && Recorded(steps, organization)
      ensures ok ==> Configured(input, steps)
      ensures old(Calm()) && Covers(roles, input) ==> ok && Calm()
    {
      ok := DefaultRolesHaveIds(roles);
      if !ok {
        return;
      }
      ok := ConfigureDomains(organization);
      if ok {
        ghost var log, done := steps, effects;
        ok := ConfigureRoles(organization);
        RecordsStay(log, steps, ReplaceDomains);
        GrownTwice(old(steps), old(effects), log, done, steps, effects);
      }
    }

    /** One turn of the loop over contacts. */
    method AssignNext(organization: OrganizationId, roles: seq<Role>, assignments: seq<Assignment>)
      returns (next: Option<Assignment>)
      requires Resumed() && Recorded(steps, organization) && |assignments| < |input.contacts|
      requires ReportedSoFar(input, steps, organization, assignments)
      modifies this`calls, this`steps, this`effects, this`completed
      ensures Resumed() && Grows() && Recorded(steps, organization)
      ensures next.Some? ==> ReportedSoFar(input, steps, organization, assignments + [next.value])
      ensures old(Calm()) && Covers(roles, input) ==> next.Some? && Calm()
    {
      var c := input.contacts[|assignments|];
      if !IsComplete(steps, AssignRole(c.key)) {
        OpenContactIsFirst(input, steps, organization, assignments, |assignments|);
      }
      var ran := RunStep(AssignRole(c.key), organization, roles, c);
      RecordsStay(old(steps), steps, Started);
      if ran.None? {
        return None;
      }
      ReportsStay(input, old(steps), steps, organization, assignments);
      RecordedAssignment(input, steps, effects, organization, c.key, ran.value.output);
      var made := Assignment(c.key, c.email, ran.value.output.user, ran.value.output.roleName, ran.value.skipped);
      NextIsReported(input, steps, effects, organization, assignments, ran.value.output, made);
      next := Some(made);
    }

    method AssignAll(organization: OrganizationId, roles: seq<Role>) returns (ok: bool, assignments: seq<Assignment>)
      requires Resumed() && Recorded(steps, organization)
      modifies this`calls, this`steps, this`effects, this`completed
      ensures Resumed() && Grows()
      ensures ok ==> ReportsAll(input, steps, Report(organization, assignments))
      ensures old(Calm()) && Covers(roles, input) ==> ok && Calm()
    {
      assignments := [];
      for i := 0 to |input.contacts|
        invariant Resumed() && Grows() && Recorded(steps, organization)
        invariant |assignments| == i
        invariant ReportedSoFar(input, steps, organization, assignments)
        invariant old(Calm()) && Covers(roles, input) ==> Calm()
      {
        ghost var log, done := steps, effects;
        var next := AssignNext(organization, roles, assignments);
        GrownTwice(old(steps), old(effects), log, done, steps, effects);
        if next.None? {
          return false, assignments;
        }
        assignments := assignments + [next.value];
      }
      ok := true;
    }

    /** Everything after the creation of the organization. */
    method Complete(organization: OrganizationId, roles: seq<Role>) returns (report: Option<Report>)
      requires Resumed() && Recorded(steps, organization)
      modifies this`calls, this`steps, this`effects, this`completed
      ensures Resumed() && Grows()
      ensures report.Some? ==> ReportsAll(input, steps, report.value) && Configured(input, steps)
      ensures old(Calm()) && Covers(roles, input) ==> report.Some? && Calm()
    {
      report := None;
      var ok := Configure(organization, roles);
      if ok {
        ghost var log, done := steps, effects;
        var assignments;
        ok, assignments := AssignAll(organization, roles);
        ConfiguredStays(input, log, steps);
        GrownTwice(old(steps), old(effects), log, done, steps, effects);
        report := if ok then Some(Report(organization, assignments)) else None;
      }
    }

    method RunSteps() returns (report: Option<Report>)
      requires Resumed()
      modifies this`calls, this`steps, this`effects, this`completed
      ensures Resumed() && Grows()
      ensures report.Some? ==> ReportsAll(input, steps, report.value) && Configured(input, steps)
      ensures old(Calm()) ==> report.Some? && Calm()
    {
      report := None;
      var created, roles := Establish();
      if created.Some? {
        ghost var log, done := steps, effects;
        report := Complete(created.value, roles);
        GrownTwice(old(steps), old(effects), log, done, steps, effects);
      }
    }

    /** One attempt. However earlier attempts ended, a step on record is never carried out again, an attempt that
        returns reports what is on record for every contact, and an attempt that meets no failure does return. */
    method Attempt() returns (report: Option<Report>)
      requires Valid()
      modifies this
      ensures Valid() && Grows()
      ensures report.Some? ==> ReportsAll(input, steps, report.value) && Configured(input, steps)
      ensures old(Calm()) ==> report.Some? && Calm()
    {
      report := None;
      var effect, ok, answer := Next();
      if !ok {
        return;
      }
      LoadCompletedSteps();
      effect, ok, answer := Next();
      if ok {
        report := RunSteps();
      }
      if report.Some? {
        effect, ok, answer := Next();
        if ok {
          return;
        }
      }
      effect, ok, answer := Next();
      report := None;
    }

    /** Any number of attempts on one operation: all that return report the same. */
    method AttemptTimes(n: nat) returns (reports: seq<Option<Report>>)
      requires Valid()
      modifies this
      ensures Valid() && Grows() && |reports| == n
      ensures AllStand(input, steps, reports) && AllAgree(reports)
    {
      reports := [];
      for i := 0 to n
        invariant Valid() && Grows() && |reports| == i
        invariant AllStand(input, steps, reports) && AllAgree(reports)
      {
        ghost var log, done := steps, effects;
        var report := Attempt();
        GrownTwice(old(steps), old(effects), log, done, steps, effects);
        OneMoreReport(input, log, steps, effects, reports, report);
        reports := reports + [report];
      }
    }
  }
}
