/** The module control plane: backend/services/moduleControlPlane.js. Binding a runtime and moving an installation
    through its lifecycle both read, check and then write, and other calls may run in between. */
module ModuleControlPlane {
  import opened Wrappers

  type CallId = nat
  type RuntimeId = string

  datatype Lifecycle = Disabled | Provisioning | Active | Degraded | Suspended | Decommissioning

  datatype InstallKey = InstallKey(organization: string, moduleId: string)

  datatype Installation = Installation(id: nat, moduleVersion: nat, lifecycle: Lifecycle, version: nat)

  datatype BindingStatus = Planned | Bound | Unbound

  /** The position in the list is the id of the binding. */
  datatype Binding = Binding(key: InstallKey, installation: nat, runtime: RuntimeId, status: BindingStatus,
                             executable: bool, version: nat)

  datatype Runtime = Runtime(moduleId: string, available: bool)

  /** The catalog side: which runtimes there are, and with which module versions they are compatible. */
  datatype Catalog = Catalog(runtimes: map<RuntimeId, Runtime>, compatible: set<(nat, RuntimeId)>)

  /** What the input of a binding may override: it is spread over the values the service has chosen. */
  datatype Overrides = Overrides(installation: Option<nat>, status: Option<BindingStatus>, executable: Option<bool>)

  /** A call between its checks and its write. `seen` is the version that was current when it read. */
  datatype Ticket =
    | Insert(binding: Binding)
    | Move(key: InstallKey, expectedVersion: nat, seen: nat, from: Lifecycle, to: Lifecycle)

  datatype Store = Store(catalog: Catalog, installations: map<InstallKey, Installation>, bindings: seq<Binding>,
                         next: nat, tickets: map<CallId, Ticket>)

  datatype Action =
    | ChangeCatalog(catalog: Catalog)
    | Provision(key: InstallKey, moduleVersion: nat, lifecycle: Option<Lifecycle>)
    | StartBind(call: CallId, key: InstallKey, runtime: RuntimeId, overrides: Overrides)
    | StartTransition(call: CallId, key: InstallKey, to: Lifecycle, expectedVersion: nat)
    | Finish(call: CallId)
    | UpdateBinding(organization: string, binding: nat, expectedVersion: nat, status: BindingStatus)

  predicate Edge(from: Lifecycle, to: Lifecycle) {
    match from
    case Disabled => to == Provisioning
    case Provisioning => to in {Disabled, Active, Suspended}
    case Active => to in {Degraded, Suspended, Decommissioning}
    case Degraded => to in {Suspended, Active, Decommissioning}
    case Suspended => to in {Provisioning, Decommissioning}
    case Decommissioning => false
  }

  predicate Executable(b: Binding) {
    b.executable && b.status == Bound
  }

  predicate HasExecutable(bindings: seq<Binding>, key: InstallKey) {
    exists i | 0 <= i < |bindings| :: bindings[i].key == key && Executable(bindings[i])
  }

  predicate SameSlot(a: Binding, b: Binding) {
    a.key == b.key && a.installation == b.installation
  }

  predicate SlotTaken(bindings: seq<Binding>, b: Binding) {
    exists i | 0 <= i < |bindings| :: SameSlot(bindings[i], b) && Executable(bindings[i])
  }

  /** The checks of `bindOrganizationModuleRuntime`. */
  predicate MayBind(s: Store, key: InstallKey, runtime: RuntimeId) {
    && key in s.installations
    && runtime in s.catalog.runtimes && s.catalog.runtimes[runtime].moduleId == key.moduleId &&
       s.catalog.runtimes[runtime].available
    && (s.installations[key].moduleVersion, runtime) in s.catalog.compatible
  }

  function NewBinding(i: Installation, key: InstallKey, runtime: RuntimeId, o: Overrides): Binding {
    Binding(key, if o.installation.Some? then o.installation.value else i.id, runtime,
            if o.status.Some? then o.status.value else Bound, if o.executable.Some? then o.executable.value
               else true, 1)
  }

  /** The checks of `transitionOrganizationModuleLifecycle`; the expected version is only compared by the update. */
  predicate MayMove(s: Store, key: InstallKey, to: Lifecycle) {
    && key in s.installations && Edge(s.installations[key].lifecycle, to)
    && (to == Active ==> HasExecutable(s.bindings, key))
  }

  /** `insertBinding`: an executable binding is refused if its slot has a bound executable one. */
  function Inserted(bindings: seq<Binding>, b: Binding): seq<Binding> {
    if b.executable && SlotTaken(bindings, b) then bindings else bindings + [b]
  }

  /** `updateOrganizationModuleLifecycle`: compare and set on the version the caller expected. */
  function Moved(installations: map<InstallKey, Installation>, key: InstallKey, expectedVersion: nat,
                 to: Lifecycle): map<InstallKey, Installation> {
    if key in installations && installations[key].version == expectedVersion
    then installations[key := installations[key].(lifecycle := to, version := expectedVersion + 1)]
    else installations
  }

  function Updated(bindings: seq<Binding>, organization: string, id: nat, expectedVersion: nat,
                   status: BindingStatus): seq<Binding> {
    if id < |bindings| && bindings[id].key.organization == organization && bindings[id].version == expectedVersion
    then bindings[id := bindings[id].(status := status, executable := false, version := expectedVersion + 1)]
    else bindings
  }

  function Provisioned(s: Store, key: InstallKey, moduleVersion: nat, lifecycle: Option<Lifecycle>): Store {
    if key in s.installations then s
    else
      var l := if lifecycle.Some? then lifecycle.value else Disabled;
      s.(installations := s.installations[key := Installation(s.next, moduleVersion, l, 1)], next := s.next + 1)
  }

  function Written(s: Store, t: Ticket): Store {
    match t
    case Insert(b) => s.(bindings := Inserted(s.bindings, b))
    case Move(key, expectedVersion, _, _, to) => s.(installations := Moved(s.installations, key, expectedVersion, to))
  }

  function Forget(s: Store, call: CallId): Store {
    s.(tickets := s.tickets - {call})
  }

  function Remember(s: Store, call: CallId, t: Ticket): Store {
    s.(tickets := s.tickets[call := t])
  }

  function After(s: Store, a: Action): Store {
    match a
    case ChangeCatalog(catalog) => s.(catalog := catalog)
    case Provision(key, moduleVersion, lifecycle) => Provisioned(s, key, moduleVersion, lifecycle)
    case StartBind(call, key, runtime, o) =>
      if MayBind(s, key, runtime) then Remember(s, call, Insert(NewBinding(s.installations[key], key, runtime, o)))
         else Forget(s, call)
    case StartTransition(call, key, to, expectedVersion) =>
      if MayMove(s, key, to)
      then Remember(s, call, Move(key, expectedVersion, s.installations[key].version, s.installations[key].lifecycle,
                                  to))
      else Forget(s, call)
    case Finish(call) => if call in s.tickets then Forget(Written(s, s.tickets[call]), call) else s
    case UpdateBinding(organization, id, expectedVersion, status) =>
      s.(bindings := Updated(s.bindings, organization, id, expectedVersion, status))
  }

  function Exec(s: Store, acts: seq<Action>): Store
    decreases |acts|
  {
    if acts == [] then s else Exec(After(s, acts[0]), acts[1..])
  }

  // ----- One executable binding -----

  predicate OneExecutable(bindings: seq<Binding>) {
    forall i, j | 0 <= i < j < |bindings| && Executable(bindings[i]) && Executable(bindings[j]) ::
             !SameSlot(bindings[i], bindings[j])
  }

  /** Every binding keeps its slot, and one that has been updated is never executable again. */
  predicate OnlyRetired(before: seq<Binding>, after: seq<Binding>) {
    && |before| <= |after|
    && forall i | 0 <= i < |before| ::
         after[i] == before[i] || (SameSlot(after[i], before[i]) && !after[i].executable &&
                                   after[i].version > before[i].version)
  }

  lemma AfterKeepsOneExecutable(s: Store, a: Action)
    requires OneExecutable(s.bindings)
    ensures OneExecutable(After(s, a).bindings) && OnlyRetired(s.bindings, After(s, a).bindings)
  {
    if a.Finish? && a.call in s.tickets && s.tickets[a.call].Insert? {
      InsertKeepsOneExecutable(s.bindings, s.tickets[a.call].binding);
    }
  }

  lemma InsertKeepsOneExecutable(bindings: seq<Binding>, b: Binding)
    requires OneExecutable(bindings)
    ensures OneExecutable(Inserted(bindings, b)) && OnlyRetired(bindings, Inserted(bindings, b))
  {
  }

  /** At most one bound executable binding per installation and module, in every state of every run. */
  lemma {:induction false} AtMostOneExecutableBinding(s: Store, acts: seq<Action>)
    requires OneExecutable(s.bindings)
    ensures OneExecutable(Exec(s, acts).bindings)
    ensures |s.bindings| <= |Exec(s, acts).bindings|
    ensures forall i | 0 <= i < |s.bindings| && !s.bindings[i].executable :: !Exec(s, acts).bindings[i].executable
    decreases |acts|
  {
    if acts != [] {
      AfterKeepsOneExecutable(s, acts[0]);
      AtMostOneExecutableBinding(After(s, acts[0]), acts[1..]);
    }
  }

  // ----- The lifecycle -----

  /** A move expects a version no newer than the one it read, and while that is current so is what it saw. */
  predicate SoundMove(installations: map<InstallKey, Installation>, t: Ticket)
    requires t.Move?
  {
    && t.expectedVersion <= t.seen && Edge(t.from, t.to)
    && t.key in installations && t.seen <= installations[t.key].version
    && (installations[t.key].version == t.seen ==> installations[t.key].lifecycle == t.from)
  }

  ghost predicate Inv(s: Store) {
    forall c | c in s.tickets && s.tickets[c].Move? :: SoundMove(s.installations, s.tickets[c])
  }

  /** The caller expects a version it may have read: none newer than the current one. */
  predicate Careful(s: Store, a: Action) {
    a.StartTransition? && a.key in s.installations ==> a.expectedVersion <= s.installations[a.key].version
  }

  predicate AllCareful(s: Store, acts: seq<Action>)
    decreases |acts|
  {
    acts == [] || (Careful(s, acts[0]) && AllCareful(After(s, acts[0]), acts[1..]))
  }

  predicate OneStep(before: Installation, after: Installation) {
    after == before ||
    (Edge(before.lifecycle, after.lifecycle) &&
     after == before.(lifecycle := after.lifecycle, version := before.version + 1))
  }

  predicate Stepped(before: map<InstallKey, Installation>, after: map<InstallKey, Installation>) {
    forall k | k in before :: k in after && OneStep(before[k], after[k])
  }

  lemma MoveFollowsTheTable(installations: map<InstallKey, Installation>, t: Ticket)
    requires t.Move? && SoundMove(installations, t)
    ensures Stepped(installations, Moved(installations, t.key, t.expectedVersion, t.to))
  {
  }

  lemma SoundMovesStaySound(before: map<InstallKey, Installation>, after: map<InstallKey, Installation>, t: Ticket)
    requires t.Move? && SoundMove(before, t) && Stepped(before, after)
    ensures SoundMove(after, t)
  {
    assert OneStep(before[t.key], after[t.key]);
  }

  lemma AfterSteps(s: Store, a: Action)
    requires Inv(s)
    ensures Stepped(s.installations, After(s, a).installations)
  {
    if a.Finish? && a.call in s.tickets && s.tickets[a.call].Move? {
      MoveFollowsTheTable(s.installations, s.tickets[a.call]);
    }
  }

  lemma StepKeepsMovesSound(s: Store, a: Action)
    requires Inv(s) && Careful(s, a)
    ensures Inv(After(s, a))
  {
    AfterSteps(s, a);
    var after := After(s, a);
    forall c | c in after.tickets && after.tickets[c].Move?
      ensures SoundMove(after.installations, after.tickets[c])
    {
      if c in s.tickets && after.tickets[c] == s.tickets[c] {
        SoundMovesStaySound(s.installations, after.installations, s.tickets[c]);
      }
    }
  }

  lemma {:induction false} RunsKeepMovesSound(s: Store, acts: seq<Action>)
    requires Inv(s) && AllCareful(s, acts)
    ensures Inv(Exec(s, acts))
    decreases |acts|
  {
    if acts != [] {
      StepKeepsMovesSound(s, acts[0]);
      RunsKeepMovesSound(After(s, acts[0]), acts[1..]);
    }
  }

  /** In every run of careful callers, each step leaves an installation as it is or moves it along one edge of the
      lifecycle table and one version. */
  lemma EveryTransitionFollowsTheTable(s: Store, acts: seq<Action>, a: Action)
    requires s.tickets == map[] && AllCareful(s, acts)
    ensures Stepped(Exec(s, acts).installations, After(Exec(s, acts), a).installations)
  {
    RunsKeepMovesSound(s, acts);
    AfterSteps(Exec(s, acts), a);
  }

  // ----- Callers who expect a version still to come -----

  /** The only step that can break the table: a remembered move finishes while the version it expected is current and
      the lifecycle at that version has no edge to its target. */
  lemma StepBreaksTheTableExactlyWhen(s: Store, a: Action)
    ensures !Stepped(s.installations, After(s, a).installations) <==>
            && a.Finish? && a.call in s.tickets && s.tickets[a.call].Move? && s.tickets[a.call].key in s.installations
            && s.installations[s.tickets[a.call].key].version == s.tickets[a.call].expectedVersion
            && !Edge(s.installations[s.tickets[a.call].key].lifecycle, s.tickets[a.call].to)
  {
    if a.Finish? && a.call in s.tickets && s.tickets[a.call].Move? && s.tickets[a.call].key in s.installations {
      var key := s.tickets[a.call].key;
      var row, moved := s.installations[key], After(s, a).installations[key];
      if row.version == s.tickets[a.call].expectedVersion {
        assert moved == row.(lifecycle := s.tickets[a.call].to, version := row.version + 1);
      }
    }
  }

  /** The first of `n` lifecycle steps that end in a state without an edge to `to`. */
  function Detour(from: Lifecycle, to: Lifecycle, n: nat): Lifecycle {
    match from
    case Disabled => Provisioning
    case Provisioning => if n >= 2 || to == Provisioning then Active else Disabled
    case Active => if n >= 2 then Degraded else Decommissioning
    case Degraded => if n >= 2 then Active else Decommissioning
    case Suspended => if n >= 2 then Provisioning else Decommissioning
    case Decommissioning => Decommissioning
  }

  predicate MayDetour(from: Lifecycle, to: Lifecycle) {
    !from.Decommissioning? && (from.Disabled? ==> to == Provisioning)
  }

  function Step(call: CallId, key: InstallKey, version: nat, to: Lifecycle): seq<Action> {
    [StartTransition(call, key, to, version), Finish(call)]
  }

  lemma StepMoves(s: Store, call: CallId, key: InstallKey, to: Lifecycle)
    requires MayMove(s, key, to)
    ensures var version, acts := s.installations[key].version, Step(call, key, s.installations[key].version, to);
            && AllCareful(s, acts)
            && Exec(s, acts) == Forget(s, call).(installations := Moved(s.installations, key, version, to))
  {
    var acts := Step(call, key, s.installations[key].version, to);
    var read := After(s, acts[0]);
    assert Exec(s, acts) == Exec(read, acts[1..]);
    assert acts[1..] == [Finish(call)];
    assert Exec(read, [Finish(call)]) == After(read, Finish(call));
    assert After(read, Finish(call)).tickets == s.tickets - {call};
  }

  lemma {:induction false} RunsJoin(s: Store, first: seq<Action>, rest: seq<Action>)
    ensures Exec(s, first + rest) == Exec(Exec(s, first), rest)
    ensures AllCareful(s, first + rest) <==> AllCareful(s, first) && AllCareful(Exec(s, first), rest)
    decreases |first|
  {
    if first == [] {
      assert first + rest == rest;
    } else {
      assert (first + rest)[1..] == first[1..] + rest;
      RunsJoin(After(s, first[0]), first[1..], rest);
    }
  }

  /** Careful callers take an installation with an executable binding through `n` versions and out of reach of `to`. */
  lemma {:induction false} CarefulWalk(s: Store, call: CallId, key: InstallKey, to: Lifecycle, n: nat)
    returns (acts: seq<Action>)
    requires key in s.installations && n >= 1 && MayDetour(s.installations[key].lifecycle, to) &&
             HasExecutable(s.bindings, key)
    ensures AllCareful(s, acts) && key in Exec(s, acts).installations
    ensures Exec(s, acts).installations[key].version == s.installations[key].version + n
    ensures !Edge(Exec(s, acts).installations[key].lifecycle, to)
    ensures Exec(s, acts).tickets == s.tickets - {call}
    decreases n
  {
    var next := Detour(s.installations[key].lifecycle, to, n);
    var step := Step(call, key, s.installations[key].version, next);
    StepMoves(s, call, key, next);
    acts := step;
    if n > 1 {
      var rest := CarefulWalk(Exec(s, step), call, key, to, n - 1);
      RunsJoin(s, step, rest);
      acts := step + rest;
    }
  }

  const ANY_RUNTIME: RuntimeId := "runtime"

  const NO_OVERRIDES: Overrides := Overrides(None, None, None)

  function WithRuntimeFor(s: Store, key: InstallKey): Catalog
    requires key in s.installations
  {
    Catalog(s.catalog.runtimes[ANY_RUNTIME := Runtime(key.moduleId, true)],
            s.catalog.compatible + {(s.installations[key].moduleVersion, ANY_RUNTIME)})
  }

  /** An installation can always be given an executable binding. */
  lemma BindingCanBeAdded(s: Store, call: CallId, key: InstallKey) returns (acts: seq<Action>)
    requires key in s.installations
    ensures AllCareful(s, acts) && HasExecutable(Exec(s, acts).bindings, key)
    ensures Exec(s, acts).installations == s.installations && Exec(s, acts).tickets - {call} == s.tickets - {call}
  {
    acts := [];
    if !HasExecutable(s.bindings, key) {
      var b := NewBinding(s.installations[key], key, ANY_RUNTIME, NO_OVERRIDES);
      var widened := After(s, ChangeCatalog(WithRuntimeFor(s, key)));
      var started := After(widened, StartBind(call, key, ANY_RUNTIME, NO_OVERRIDES));
      acts := [ChangeCatalog(WithRuntimeFor(s, key)), StartBind(call, key, ANY_RUNTIME, NO_OVERRIDES), Finish(call)];
      assert started.tickets[call] == Insert(b) && !SlotTaken(s.bindings, b);
      assert acts[1..][1..] == [Finish(call)];
      assert Exec(started, [Finish(call)]) == After(started, Finish(call)) && AllCareful(started, [Finish(call)]);
      assert AllCareful(widened, acts[1..]);
      assert Exec(s, acts) == Exec(widened, acts[1..]) == Exec(started, acts[1..][1..]);
      assert Exec(s, acts).bindings == s.bindings + [b] && (s.bindings + [b])[|s.bindings|] == b;
    }
  }

  lemma {:induction false} SomeIdIsLarger(tickets: map<CallId, Ticket>) returns (id: CallId)
    ensures forall c | c in tickets :: c < id
    decreases |tickets|
  {
    id := 0;
    if tickets != map[] {
      var c :| c in tickets;
      var rest := tickets - {c};
      assert rest.Keys == tickets.Keys - {c} && |rest| == |rest.Keys|;
      var larger := SomeIdIsLarger(rest);
      id := if c < larger then larger else c + 1;
      assert forall d | d in tickets && d != c :: d in rest;
    }
  }

  /** Whoever expects a version still to come, and passes the checks, can have the table broken by careful calls that
      come in between, leaving every call under way as it is. */
  lemma ExpectingTheFutureBreaksTheTable(s: Store, call: CallId, key: InstallKey, to: Lifecycle, expectedVersion: nat)
    returns (acts: seq<Action>)
    requires MayMove(s, key, to) && expectedVersion > s.installations[key].version
    ensures var read := After(s, StartTransition(call, key, to, expectedVersion));
            forall c | c in s.tickets && c != call ::
                     c in Exec(read, acts).tickets && Exec(read, acts).tickets[c] == s.tickets[c]
    ensures var read := After(s, StartTransition(call, key, to, expectedVersion));
            AllCareful(read, acts) && !Stepped(Exec(read, acts).installations,
                                               After(Exec(read, acts), Finish(call)).installations)
  {
    var read := After(s, StartTransition(call, key, to, expectedVersion));
    var other := SomeIdIsLarger(read.tickets);
    var bind := BindingCanBeAdded(read, other, key);
    var bound := Exec(read, bind);
    var walk := CarefulWalk(bound, other, key, to, expectedVersion - s.installations[key].version);
    RunsJoin(read, bind, walk);
    acts := bind + walk;
    var broken := Exec(bound, walk);
    assert broken.tickets == bound.tickets - {other} == read.tickets - {other} == read.tickets;
    StepBreaksTheTableExactlyWhen(broken, Finish(call));
  }

  /** A move that passes its checks follows the table in every continuation by careful callers if and only if the
      version it expects is not still to come. */
  lemma TableHoldsExactlyForCarefulStarts(s: Store, call: CallId, key: InstallKey, to: Lifecycle, expectedVersion: nat)
    requires Inv(s) && MayMove(s, key, to)
    ensures var read := After(s, StartTransition(call, key, to, expectedVersion));
            expectedVersion <= s.installations[key].version <==>
            forall acts | AllCareful(read, acts) ::
                     Stepped(Exec(read, acts).installations, After(Exec(read, acts), Finish(call)).installations)
  {
    var start := StartTransition(call, key, to, expectedVersion);
    var read := After(s, start);
    if expectedVersion <= s.installations[key].version {
      StepKeepsMovesSound(s, start);
      forall acts | AllCareful(read, acts)
        ensures Stepped(Exec(read, acts).installations, After(Exec(read, acts), Finish(call)).installations)
      {
        RunsKeepMovesSound(read, acts);
        AfterSteps(Exec(read, acts), Finish(call));
      }
    } else {
      var acts := ExpectingTheFutureBreaksTheTable(s, call, key, to, expectedVersion);
      assert AllCareful(read, acts);
    }
  }

  // ----- Active with an executable binding -----

  /** An update that goes through: the binding is not executable any more. */
  predicate Retires(s: Store, a: Action, id: nat) {
    a.UpdateBinding? && a.binding == id && id < |s.bindings| && s.bindings[id].key.organization == a.organization &&
    s.bindings[id].version == a.expectedVersion
  }

  predicate RetiredIn(s: Store, acts: seq<Action>, id: nat)
    decreases |acts|
  {
    acts != [] && (Retires(s, acts[0], id) || RetiredIn(After(s, acts[0]), acts[1..], id))
  }

  /** The insertion of an executable binding of the module that goes through. */
  predicate Gains(s: Store, a: Action, key: InstallKey) {
    a.Finish? && a.call in s.tickets && s.tickets[a.call].Insert? && s.tickets[a.call].binding.key == key &&
    Executable(s.tickets[a.call].binding) && !SlotTaken(s.bindings, s.tickets[a.call].binding)
  }

  /** An executable binding of the module is inserted and not retired again. */
  predicate GainedIn(s: Store, acts: seq<Action>, key: InstallKey)
    decreases |acts|
  {
    acts != [] &&
    ((Gains(s, acts[0], key) && !RetiredIn(After(s, acts[0]), acts[1..], |s.bindings|)) ||
     GainedIn(After(s, acts[0]), acts[1..], key))
  }

  predicate ExecutableOf(bindings: seq<Binding>, id: nat, key: InstallKey) {
    id < |bindings| && bindings[id].key == key && Executable(bindings[id])
  }

  /** Some binding of the module that is executable now is not retired during the run. */
  ghost predicate KeptIn(s: Store, acts: seq<Action>, key: InstallKey) {
    exists id: nat :: ExecutableOf(s.bindings, id, key) && !RetiredIn(s, acts, id)
  }

  lemma StepOnBindings(s: Store, a: Action, key: InstallKey, id: nat)
    ensures ExecutableOf(After(s, a).bindings, id, key) <==>
            (ExecutableOf(s.bindings, id, key) && !Retires(s, a, id)) || (Gains(s, a, key) && id == |s.bindings|)
  {
  }

  /** After any run, the module has an executable binding if and only if one it had was not retired, or one was
      inserted and not retired. */
  lemma {:induction false} ExecutableExactlyWhenKeptOrGained(s: Store, acts: seq<Action>, key: InstallKey)
    ensures HasExecutable(Exec(s, acts).bindings, key) <==> KeptIn(s, acts, key) || GainedIn(s, acts, key)
    decreases |acts|
  {
    if acts == [] {
      if HasExecutable(s.bindings, key) {
        var i: nat :| i < |s.bindings| && s.bindings[i].key == key && Executable(s.bindings[i]);
        assert ExecutableOf(s.bindings, i, key) && !RetiredIn(s, acts, i);
      }
    } else {
      var next, rest := After(s, acts[0]), acts[1..];
      ExecutableExactlyWhenKeptOrGained(next, rest, key);
      KeptOrGainedFromTheNext(s, acts, key);
    }
  }

  lemma KeptOrGainedFromTheNext(s: Store, acts: seq<Action>, key: InstallKey)
    requires acts != []
    ensures KeptIn(s, acts, key) || GainedIn(s, acts, key) <==>
            KeptIn(After(s, acts[0]), acts[1..], key) || GainedIn(After(s, acts[0]), acts[1..], key)
  {
    var next, rest := After(s, acts[0]), acts[1..];
    if KeptIn(s, acts, key) {
      var id: nat :| ExecutableOf(s.bindings, id, key) && !RetiredIn(s, acts, id);
      StepOnBindings(s, acts[0], key, id);
      assert ExecutableOf(next.bindings, id, key) && !RetiredIn(next, rest, id);
    }
    if Gains(s, acts[0], key) {
      StepOnBindings(s, acts[0], key, |s.bindings|);
    }
    if KeptIn(next, rest, key) {
      var id: nat :| ExecutableOf(next.bindings, id, key) && !RetiredIn(next, rest, id);
      StepOnBindings(s, acts[0], key, id);
    }
  }

  /** What others do: they do not use the id of the call. */
  predicate ByOthers(acts: seq<Action>, call: CallId) {
    forall a | a in acts :: (a.Finish? || a.StartBind? || a.StartTransition?) ==> a.call != call
  }

  lemma {:induction false} OthersKeepTheTicket(s: Store, acts: seq<Action>, call: CallId)
    requires ByOthers(acts, call) && call in s.tickets
    ensures call in Exec(s, acts).tickets && Exec(s, acts).tickets[call] == s.tickets[call]
    decreases |acts|
  {
    if acts != [] {
      assert acts[0] in acts;
      assert ByOthers(acts[1..], call);
      OthersKeepTheTicket(After(s, acts[0]), acts[1..], call);
    }
  }

  /** A move to active that goes through leaves the installation with an executable binding if and only if, while it
      was under way, one was kept or gained. */
  lemma ActiveWithBindingExactlyWhenKeptOrGained(s: Store, call: CallId, key: InstallKey, expectedVersion: nat,
                                                 acts: seq<Action>)
    requires MayMove(s, key, Active) && ByOthers(acts, call)
    requires var at := Exec(After(s, StartTransition(call, key, Active, expectedVersion)), acts);
             key in at.installations && at.installations[key].version == expectedVersion
    ensures var read := After(s, StartTransition(call, key, Active, expectedVersion));
            var active := After(Exec(read, acts), Finish(call));
            && key in active.installations && active.installations[key].lifecycle == Active
            && (HasExecutable(active.bindings, key) <==> KeptIn(read, acts, key) || GainedIn(read, acts, key))
  {
    var read := After(s, StartTransition(call, key, Active, expectedVersion));
    OthersKeepTheTicket(read, acts, call);
    ExecutableExactlyWhenKeptOrGained(read, acts, key);
  }

  /** Nobody updates a binding that the module has now. */
  predicate LeavesBindings(s: Store, acts: seq<Action>, key: InstallKey) {
    forall a | a in acts :: a.UpdateBinding? && a.binding < |s.bindings| ==> s.bindings[a.binding].key != key
  }

  lemma {:induction false} UntouchedIsNotRetired(s: Store, acts: seq<Action>, id: nat)
    requires forall a | a in acts :: a.UpdateBinding? ==> a.binding != id
    ensures !RetiredIn(s, acts, id)
    decreases |acts|
  {
    if acts != [] {
      assert acts[0] in acts;
      UntouchedIsNotRetired(After(s, acts[0]), acts[1..], id);
    }
  }

  /** What a caller can see to: if nobody updates the bindings of the module in between, it is active with one. */
  lemma ActiveWithBindingUnlessUpdated(s: Store, call: CallId, key: InstallKey, expectedVersion: nat, acts: seq<Action>)
    requires MayMove(s, key, Active) && ByOthers(acts, call) && LeavesBindings(s, acts, key)
    requires var at := Exec(After(s, StartTransition(call, key, Active, expectedVersion)), acts);
             key in at.installations && at.installations[key].version == expectedVersion
    ensures var active := After(Exec(After(s, StartTransition(call, key, Active, expectedVersion)), acts),
                                Finish(call));
            key in active.installations && active.installations[key].lifecycle == Active &&
                HasExecutable(active.bindings, key)
  {
    var read := After(s, StartTransition(call, key, Active, expectedVersion));
    var id: nat :| id < |s.bindings| && s.bindings[id].key == key && Executable(s.bindings[id]);
    UntouchedIsNotRetired(read, acts, id);
    assert ExecutableOf(read.bindings, id, key);
    ActiveWithBindingExactlyWhenKeptOrGained(s, call, key, expectedVersion, acts);
  }

  /** The binding that let an installation become active may be gone by the time it does. */
  lemma BindingMayGoBeforeActivation(s: Store, call: CallId, key: InstallKey, id: nat)
    requires MayMove(s, key, Active) && ExecutableOf(s.bindings, id, key)
    requires forall other: nat | other != id :: !ExecutableOf(s.bindings, other, key)
    ensures var read := After(s, StartTransition(call, key, Active, s.installations[key].version));
            var unbound := After(read, UpdateBinding(key.organization, id, s.bindings[id].version, Unbound));
            var active := After(unbound, Finish(call));
            && key in active.installations && active.installations[key].lifecycle == Active
            && !HasExecutable(active.bindings, key)
  {
    var read := After(s, StartTransition(call, key, Active, s.installations[key].version));
    var unbound := After(read, UpdateBinding(key.organization, id, s.bindings[id].version, Unbound));
    forall i: nat | i < |unbound.bindings|
      ensures !(unbound.bindings[i].key == key && Executable(unbound.bindings[i]))
    {
      StepOnBindings(read, UpdateBinding(key.organization, id, s.bindings[id].version, Unbound), key, i);
      assert i != id ==> !ExecutableOf(s.bindings, i, key);
    }
  }

  // ----- The service -----

  datatype Reply<T> = Done(value: T) | NotInstalled | RuntimeUnavailable | WrongModule | Incompatible | DuplicateBinding
                    | InvalidTransition | MissingBinding | VersionConflict

  /** A call that passed its checks, up to its write. */
  function Through(start: Action, between: seq<Action>, call: CallId): seq<Action> {
    [start] + between + [Finish(call)]
  }

  /** The store in which the call writes. */
  function AtWrite(s: Store, start: Action, between: seq<Action>): Store {
    Exec(After(s, start), between)
  }

  lemma WriteComesLast(s: Store, start: Action, between: seq<Action>, call: CallId)
    ensures Exec(s, Through(start, between, call)) == After(AtWrite(s, start, between), Finish(call))
  {
    var acts := Through(start, between, call);
    assert acts[1..] == between + [Finish(call)];
    RunsJoin(After(s, start), between, [Finish(call)]);
    assert Exec(AtWrite(s, start, between), [Finish(call)]) == After(AtWrite(s, start, between), Finish(call));
  }

  class ControlPlane {
    var catalog: Catalog
    var installations: map<InstallKey, Installation>
    var bindings: seq<Binding>
    var next: nat
    var tickets: map<CallId, Ticket>

    function Database(): Store
      reads this
    {
      Store(catalog, installations, bindings, next, tickets)
    }

    constructor (catalog: Catalog)
      ensures Database() == Store(catalog, map[], [], 0, map[])
    {
      this.catalog := catalog;
      installations, bindings, next, tickets := map[], [], 0, map[];
    }

    method Interleave(acts: seq<Action>)
      modifies this
      ensures Database() == Exec(old(Database()), acts)
    {
      var s := Exec(Database(), acts);
      catalog, installations, bindings, next, tickets := s.catalog, s.installations, s.bindings, s.next, s.tickets;
    }

    method ProvisionOrganizationModule(key: InstallKey, moduleVersion: nat, lifecycle: Option<Lifecycle>)
      returns (row: Installation)
      modifies this`installations, this`next
      ensures Database() == After(old(Database()), Provision(key, moduleVersion, lifecycle))
      ensures key in installations && row == installations[key]
    {
      if key in installations {
        return installations[key];
      }
      row := Installation(next, moduleVersion, if lifecycle.Some? then lifecycle.value else Disabled, 1);
      installations := installations[key := row];
      next := next + 1;
    }

    method FindExecutable(key: InstallKey) returns (found: Option<nat>)
      ensures found.Some? <==> HasExecutable(bindings, key)
      ensures found.Some? ==>
                found.value < |bindings| && bindings[found.value].key == key && Executable(bindings[found.value])
    {
      for i := 0 to |bindings|
        invariant !HasExecutable(bindings[..i], key)
      {
        if bindings[i].key == key && Executable(bindings[i]) {
          return Some(i);
        }
      }
      assert bindings[..|bindings|] == bindings;
      found := None;
    }

    method InsertBinding(b: Binding) returns (ok: bool)
      modifies this`bindings
      ensures bindings == Inserted(old(bindings), b)
      ensures ok == !(b.executable && SlotTaken(old(bindings), b))
    {
      if b.executable {
        for i := 0 to |bindings|
          invariant !SlotTaken(bindings[..i], b)
        {
          if SameSlot(bindings[i], b) && Executable(bindings[i]) {
            return false;
          }
        }
        assert bindings[..|bindings|] == bindings;
      }
      bindings := bindings + [b];
      ok := true;
    }

    method UpdateLifecycle(key: InstallKey, expectedVersion: nat, to: Lifecycle) returns (ok: bool)
      modifies this`installations
      ensures installations == Moved(old(installations), key, expectedVersion, to)
      ensures ok <==> key in old(installations) && old(installations)[key].version == expectedVersion
    {
      ok := key in installations && installations[key].version == expectedVersion;
      if ok {
        installations := installations[key :=
                                       installations[key].(lifecycle := to, version := installations[key].version + 1)];
      }
    }

    /** The checks pass on the store as it is; then the others do `between`; then the binding is inserted, unless by
        then its slot is taken. */
    method BindOrganizationModuleRuntime(call: CallId, key: InstallKey, runtime: RuntimeId, o: Overrides,
                                         between: seq<Action>)
      returns (reply: Reply<nat>)
      requires call !in tickets && ByOthers(between, call)
      modifies this
      ensures !MayBind(old(Database()), key, runtime) ==> Database() == old(Database())
      ensures !MayBind(old(Database()), key, runtime) ==>
                reply in {NotInstalled, RuntimeUnavailable, WrongModule, Incompatible}
      ensures MayBind(old(Database()), key, runtime) ==>
                Database() == Exec(old(Database()), Through(StartBind(call, key, runtime, o), between, call))
      ensures MayBind(old(Database()), key, runtime) ==>
                var b := NewBinding(old(installations)[key], key, runtime, o);
                var before := AtWrite(old(Database()), StartBind(call, key, runtime, o), between).bindings;
                if b.executable && SlotTaken(before, b) then reply == DuplicateBinding && bindings == before
                else reply == Done(|before|) && bindings == before + [b]
      ensures OneExecutable(old(bindings)) ==> OneExecutable(bindings)
    {
      if key !in installations {
        return NotInstalled;
      }
      if runtime !in catalog.runtimes {
        return RuntimeUnavailable;
      }
      if catalog.runtimes[runtime].moduleId != key.moduleId {
        return WrongModule;
      }
      if !catalog.runtimes[runtime].available {
        return RuntimeUnavailable;
      }
      if (installations[key].moduleVersion, runtime) !in catalog.compatible {
        return Incompatible;
      }
      ghost var start := StartBind(call, key, runtime, o);
      var b := NewBinding(installations[key], key, runtime, o);
      if OneExecutable(bindings) {
        AtMostOneExecutableBinding(Database(), Through(start, between, call));
      }
      tickets := tickets[call := Insert(b)];
      OthersKeepTheTicket(Database(), between, call);
      Interleave(between);
      WriteComesLast(old(Database()), start, between, call);
      var ok := InsertBinding(b);
      tickets := tickets - {call};
      reply := if ok then Done(|bindings| - 1) else DuplicateBinding;
    }

    method SuspendOrRemoveRuntimeBinding(organization: string, id: nat, expectedVersion: nat, status: BindingStatus)
      returns (reply: Reply<Binding>)
      modifies this`bindings
      ensures Database() == After(old(Database()), UpdateBinding(organization, id, expectedVersion, status))
      ensures reply.Done? ==> id < |bindings| && reply.value == bindings[id] && !Executable(bindings[id])
      ensures !reply.Done? ==> bindings == old(bindings)
    {
      if id >= |bindings| || bindings[id].key.organization != organization || bindings[id].version != expectedVersion {
        return VersionConflict;
      }
      bindings := bindings[id := bindings[id].(status := status, executable := false, version := expectedVersion + 1)];
      reply := Done(bindings[id]);
    }

    /** The checks pass on the store as it is; then the others do `between`; then the update goes through if and only
        if the version expected is current. Among careful callers that is a step along the table, and the installation
        is active with an executable binding exactly when one was kept or gained in between. */
    method TransitionOrganizationModuleLifecycle(call: CallId, key: InstallKey, to: Lifecycle, expectedVersion: nat,
                                                 between: seq<Action>)
      returns (reply: Reply<Installation>)
      requires call !in tickets && ByOthers(between, call)
      modifies this
      ensures !MayMove(old(Database()), key, to) ==> Database() == old(Database())
      ensures !MayMove(old(Database()), key, to) ==> reply in {NotInstalled, InvalidTransition, MissingBinding}
      ensures MayMove(old(Database()), key, to) ==>
                Database() == Exec(old(Database()),
                                   Through(StartTransition(call, key, to, expectedVersion), between, call))
      ensures MayMove(old(Database()), key, to) ==>
                var before := AtWrite(old(Database()), StartTransition(call, key, to, expectedVersion),
                                      between).installations;
                if key in before && before[key].version == expectedVersion
                then key in installations && reply == Done(installations[key]) &&
                     installations[key] == before[key].(lifecycle := to, version := expectedVersion + 1)
                else reply == VersionConflict && installations == before
      ensures MayMove(old(Database()), key, to) && Inv(old(Database())) &&
              expectedVersion <= old(installations)[key].version &&
              AllCareful(After(old(Database()), StartTransition(call, key, to, expectedVersion)), between) ==>
                Stepped(AtWrite(old(Database()), StartTransition(call, key, to, expectedVersion),
                                between).installations, installations)
      ensures reply.Done? && to == Active ==>
                var read := After(old(Database()), StartTransition(call, key, Active, expectedVersion));
                (HasExecutable(bindings, key) <==> KeptIn(read, between, key) || GainedIn(read, between, key))
    {
      if key !in installations {
        return NotInstalled;
      }
      var current := installations[key];
      if !Edge(current.lifecycle, to) {
        return InvalidTransition;
      }
      if to == Active {
        var binding := FindExecutable(key);
        if binding.None? {
          return MissingBinding;
        }
      }
      ghost var start := StartTransition(call, key, to, expectedVersion);
      tickets := tickets[call := Move(key, expectedVersion, current.version, current.lifecycle, to)];
      assert Database() == After(old(Database()), start);
      OthersKeepTheTicket(Database(), between, call);
      ExecutableExactlyWhenKeptOrGained(Database(), between, key);
      if Inv(old(Database())) && expectedVersion <= current.version && AllCareful(Database(), between) {
        StepKeepsMovesSound(old(Database()), start);
        RunsKeepMovesSound(Database(), between);
        AfterSteps(Exec(Database(), between), Finish(call));
      }
      Interleave(between);
      WriteComesLast(old(Database()), start, between, call);
      var ok := UpdateLifecycle(key, expectedVersion, to);
      tickets := tickets - {call};
      reply := if ok then Done(installations[key]) else VersionConflict;
    }
  }
}
