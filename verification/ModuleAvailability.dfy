/** backend/services/moduleAvailabilityResolver.js: may an operation of a module be executed now? The decision reads
    the control plane, the latest health snapshot and the circuit of the binding it would go through. */
module ModuleAvailability {
  import opened Wrappers
  import opened ModuleControlPlane

  datatype Kind = Read | Write | Asynchronous | Stream | Administrative

  datatype Operation = Operation(moduleId: string, capability: string, kind: Kind, needsBinding: bool,
                                 needsHealth: bool,
                                 needsCompatibility: bool, isProbe: bool)

  datatype Observed = Healthy | DegradedHealth | UnavailableHealth | UnknownHealth

  datatype Snapshot = Snapshot(organization: string, moduleId: string, capability: string, binding: nat,
                               observed: Observed,
                               observedAt: int, expiresAt: int, version: nat)

  datatype Mode = ModeUnavailable | ModeReadOnly | ModePermitted

  datatype Circuit = Closed | Open | HalfOpen

  /** The current version of each module in the authored catalog, if that version has been published. */
  datatype Manifest = Manifest(capabilities: set<string>, published: Option<nat>)

  /** Everything the resolver is given besides the control plane. */
  datatype World = World(operations: map<string, Operation>, manifests: map<string, Manifest>, snapshots: seq<Snapshot>,
                         circuits: map<(string, nat), Circuit>, policies: map<(string, Option<string>), Mode>)

  datatype Question = Question(key: InstallKey, capability: string, operation: string, kind: Kind, evaluatedAt: int)

  datatype Reason = Available | OperationUnknown | ContractMismatch | ModuleUnknown | CapabilityNotDeclared |
      ModuleNotInstalled
                  | ModuleDisabled | ModuleProvisioning | ModuleSuspended | ModuleDecommissioning |
                      RuntimeBindingMissing
                  | RuntimeIncompatible | SnapshotMissing | SnapshotStale | SnapshotUnknown | RuntimeUnavailable
                  | CircuitOpen | CircuitHalfOpen | PolicyMissing | DegradedReadOnly | DegradedDenied

  datatype Decision = Decision(reason: Reason, executable: bool, readOnly: bool, allowed: set<Kind>)

  function Denied(r: Reason): Decision {
    Decision(r, false, false, {})
  }

  // ----- What the resolver looks up -----

  /** `bindings.find(...)`: the first one. */
  function FirstExecutable(bindings: seq<Binding>, key: InstallKey): (r: Option<nat>)
    ensures r.Some? ==> r.value < |bindings| && bindings[r.value].key == key && Executable(bindings[r.value])
    ensures r.None? ==> !HasExecutable(bindings, key)
  {
    if bindings == [] then None
    else
      var n := |bindings| - 1;
      var earlier := FirstExecutable(bindings[..n], key);
      if earlier.Some? then earlier
      else if bindings[n].key == key && Executable(bindings[n]) then Some(n) else None
  }

  predicate Concerns(s: Snapshot, q: Question, binding: nat) {
    s.organization == q.key.organization && s.moduleId == q.key.moduleId && s.capability == q.capability &&
        s.binding == binding
  }

  predicate Newer(a: Snapshot, b: Snapshot) {
    a.observedAt > b.observedAt || (a.observedAt == b.observedAt && a.version > b.version)
  }

  /** `order by observed_at desc, version desc limit 1`. */
  function LatestSnapshot(snapshots: seq<Snapshot>, q: Question, binding: nat): (r: Option<Snapshot>)
    ensures r.Some? ==> r.value in snapshots && Concerns(r.value, q, binding)
    ensures forall i | 0 <= i < |snapshots| && Concerns(snapshots[i], q, binding) ::
              r.Some? && !Newer(snapshots[i], r.value)
  {
    if snapshots == [] then None
    else
      var n := |snapshots| - 1;
      var earlier := LatestSnapshot(snapshots[..n], q, binding);
      if Concerns(snapshots[n], q, binding) &&
         (earlier.None? || Newer(snapshots[n], earlier.value)) then Some(snapshots[n]) else earlier
  }

  function PolicyFor(w: World, q: Question): Option<Mode> {
    if (q.key.moduleId, Some(q.capability)) in w.policies then Some(w.policies[(q.key.moduleId, Some(q.capability))])
    else if (q.key.moduleId, None) in w.policies then Some(w.policies[(q.key.moduleId, None)])
    else None
  }

  function CircuitOf(w: World, q: Question, binding: nat): Circuit {
    if (q.key.organization, binding) in w.circuits then w.circuits[(q.key.organization, binding)] else Closed
  }

  // ----- The decision, branch by branch -----

  /** What a degraded module or snapshot permits; `None` when the policy lets the operation pass. */
  function PolicyDenial(w: World, q: Question): Option<Decision> {
    match PolicyFor(w, q)
    case None => Some(Denied(PolicyMissing))
    case Some(ModeUnavailable) => Some(Denied(DegradedDenied))
    case Some(ModeReadOnly) => if q.kind != Read then Some(Decision(DegradedReadOnly, false, true, {Read})) else None
    case Some(ModePermitted) => None
  }

  /** The health part; a degraded snapshot with a read-only policy settles the matter here and then. */
  function HealthDecision(w: World, q: Question, binding: nat): Option<Decision> {
    match LatestSnapshot(w.snapshots, q, binding)
    case None => Some(Denied(SnapshotMissing))
    case Some(s) =>
      if s.expiresAt <= q.evaluatedAt then Some(Denied(SnapshotStale))
      else match s.observed
        case UnavailableHealth => Some(Denied(Reason.RuntimeUnavailable))
        case UnknownHealth => Some(Denied(SnapshotUnknown))
        case Healthy => None
        case DegradedHealth =>
          if PolicyDenial(w, q).Some? then PolicyDenial(w, q)
          else if PolicyFor(w, q) == Some(ModeReadOnly) then Some(Decision(Available, true, true, {Read}))
          else None
  }

  function CircuitDecision(w: World, q: Question, op: Operation, binding: nat): Option<Decision> {
    match CircuitOf(w, q, binding)
    case Open => Some(Denied(CircuitOpen))
    case HalfOpen => if op.isProbe then None else Some(Denied(CircuitHalfOpen))
    case Closed => None
  }

  predicate Compatible(s: Store, w: World, q: Question, binding: nat)
    requires binding < |s.bindings| && q.key.moduleId in w.manifests
  {
    w.manifests[q.key.moduleId].published.Some? ==>
      (w.manifests[q.key.moduleId].published.value, s.bindings[binding].runtime) in s.catalog.compatible
  }

  function BindingDecision(s: Store, w: World, q: Question, op: Operation, binding: nat): Option<Decision>
    requires binding < |s.bindings| && q.key.moduleId in w.manifests
  {
    if op.needsCompatibility && !Compatible(s, w, q, binding) then Some(Denied(RuntimeIncompatible))
    else
      var health := if op.needsHealth then HealthDecision(w, q, binding) else None;
      if health.Some? then health else CircuitDecision(w, q, op, binding)
  }

  function LifecycleDecision(l: Lifecycle): Option<Decision> {
    match l
    case Disabled => Some(Denied(ModuleDisabled))
    case Provisioning => Some(Denied(ModuleProvisioning))
    case Suspended => Some(Denied(ModuleSuspended))
    case Decommissioning => Some(Denied(ModuleDecommissioning))
    case Active | Degraded => None
  }

  function FinalDecision(w: World, q: Question, l: Lifecycle): Decision {
    if l == Degraded then
      if PolicyDenial(w, q).Some? then PolicyDenial(w, q).value else Decision(Available, true, true, {Read})
    else Decision(Available, true, false, {q.kind})
  }

  predicate Declared(w: World, q: Question) {
    && q.operation in w.operations
    && w.operations[q.operation].moduleId == q.key.moduleId && w.operations[q.operation].capability == q.capability
    && w.operations[q.operation].kind == q.kind
    && q.key.moduleId in w.manifests && q.capability in w.manifests[q.key.moduleId].capabilities
  }

  function Undeclared(w: World, q: Question): Decision {
    if q.operation !in w.operations then Denied(OperationUnknown)
    else if w.operations[q.operation].moduleId != q.key.moduleId ||
            w.operations[q.operation].capability != q.capability ||
            w.operations[q.operation].kind != q.kind then Denied(ContractMismatch)
    else if q.key.moduleId !in w.manifests then Denied(ModuleUnknown)
    else Denied(CapabilityNotDeclared)
  }

  function Resolve(s: Store, w: World, q: Question): Decision {
    if !Declared(w, q) then Undeclared(w, q)
    else if q.key !in s.installations then Denied(ModuleNotInstalled)
    else
      var op := w.operations[q.operation];
      var l := s.installations[q.key].lifecycle;
      if LifecycleDecision(l).Some? then LifecycleDecision(l).value
      else
        var binding := if op.needsBinding then FirstExecutable(s.bindings, q.key) else None;
        if op.needsBinding && binding.None? then Denied(RuntimeBindingMissing)
        else
          var early := if binding.Some? then BindingDecision(s, w, q, op, binding.value) else None;
          if early.Some? then early.value else FinalDecision(w, q, l)
  }

  // ----- When a decision is executable -----

  /** The health of a binding, where the operation asks for it: an unexpired snapshot that is healthy, or degraded
      with a policy that lets this kind of operation pass. */
  predicate Fit(w: World, q: Question, op: Operation, binding: nat) {
    op.needsHealth ==>
      var s := LatestSnapshot(w.snapshots, q, binding);
      && s.Some? && s.value.expiresAt > q.evaluatedAt
      && (s.value.observed == Healthy || (s.value.observed == DegradedHealth && PolicyDenial(w, q).None?))
  }

  /** A degraded snapshot under a read-only policy is answered before the circuit or the lifecycle is looked at. */
  predicate SettledByHealth(w: World, q: Question, op: Operation, binding: nat) {
    && op.needsHealth
    && var s := LatestSnapshot(w.snapshots, q, binding);
    s.Some? && s.value.observed == DegradedHealth && PolicyFor(w, q) == Some(ModeReadOnly)
  }

  predicate Passable(w: World, q: Question, op: Operation, binding: nat) {
    var c := CircuitOf(w, q, binding);
    c == Closed || (c == HalfOpen && op.isProbe)
  }

  predicate Ready(s: Store, w: World, q: Question, op: Operation, l: Lifecycle, binding: Option<nat>)
    requires binding.Some? ==> binding.value < |s.bindings|
    requires q.key.moduleId in w.manifests
  {
    && (op.needsBinding ==> binding.Some?)
    && (binding.Some? ==>
          && (op.needsCompatibility ==> Compatible(s, w, q, binding.value))
          && Fit(w, q, op, binding.value)
          && (SettledByHealth(w, q, op, binding.value) || Passable(w, q, op, binding.value)))
    && (l == Degraded && !(binding.Some? && SettledByHealth(w, q, op, binding.value)) ==> PolicyDenial(w, q).None?)
  }

  lemma BindingPasses(s: Store, w: World, q: Question, op: Operation, binding: nat)
    requires binding < |s.bindings| && q.key.moduleId in w.manifests
    ensures (BindingDecision(s, w, q, op, binding).None? || BindingDecision(s, w, q, op, binding).value.executable) <==>
            ((op.needsCompatibility ==> Compatible(s, w, q, binding)) && Fit(w, q, op, binding) &&
             (SettledByHealth(w, q, op, binding) || Passable(w, q, op, binding)))
    ensures BindingDecision(s, w, q, op, binding).Some? && BindingDecision(s, w, q, op, binding).value.executable ==>
            SettledByHealth(w, q, op, binding)
    ensures BindingDecision(s, w, q, op, binding).None? ==> !SettledByHealth(w, q, op, binding)
  {
  }

  /** A decision is executable if and only if the operation is declared as asked, the installation is active or
      degraded, there is a bound executable binding where one is needed, and that binding is compatible, fit and
      passable, with the degraded policy agreeing where it is consulted. */
  lemma ExecutableExactlyWhenReady(s: Store, w: World, q: Question)
    ensures Resolve(s, w, q).executable <==>
            && Declared(w, q) && q.key in s.installations
            && s.installations[q.key].lifecycle in {Active, Degraded}
            && var op := w.operations[q.operation];
               Ready(s, w, q, op, s.installations[q.key].lifecycle, if op.needsBinding
                     then FirstExecutable(s.bindings, q.key) else None)
  {
    if Declared(w, q) && q.key in s.installations {
      var op := w.operations[q.operation];
      var binding := if op.needsBinding then FirstExecutable(s.bindings, q.key) else None;
      if binding.Some? {
        BindingPasses(s, w, q, op, binding.value);
      }
    }
  }

  /** In particular: where the operation needs them, a bound executable binding of this very module and an
      unexpired snapshot of that binding, which no other snapshot of it is newer than. */
  lemma ExecutableMeansBoundAndObserved(s: Store, w: World, q: Question)
    requires Resolve(s, w, q).executable && w.operations[q.operation].needsBinding
    ensures HasExecutable(s.bindings, q.key)
    ensures w.operations[q.operation].needsHealth ==>
              exists i, j | 0 <= i < |s.bindings| && 0 <= j < |w.snapshots| ::
                && s.bindings[i].key == q.key && Executable(s.bindings[i])
                && Concerns(w.snapshots[j], q, i) && w.snapshots[j].expiresAt > q.evaluatedAt
                && w.snapshots[j].observed in {Healthy, DegradedHealth}
                && forall k | 0 <= k < |w.snapshots| && Concerns(w.snapshots[k], q, i) ::
                     !Newer(w.snapshots[k], w.snapshots[j])
  {
    ExecutableExactlyWhenReady(s, w, q);
    var i := FirstExecutable(s.bindings, q.key).value;
    if w.operations[q.operation].needsHealth {
      var snapshot := LatestSnapshot(w.snapshots, q, i).value;
      var j :| 0 <= j < |w.snapshots| && w.snapshots[j] == snapshot;
      assert s.bindings[i].key == q.key && Executable(s.bindings[i]) && Concerns(w.snapshots[j], q, i);
    }
  }

  /** An open circuit does not stop a read through a binding whose snapshot is degraded under a read-only policy. */
  lemma OpenCircuitMayBePassed(s: Store, w: World, q: Question, i: nat)
    requires Resolve(s, w, q).executable && w.operations[q.operation].needsBinding
    requires FirstExecutable(s.bindings, q.key) == Some(i)
    ensures CircuitOf(w, q, i) == Open ==> SettledByHealth(w, q, w.operations[q.operation], i)
    ensures CircuitOf(w, q, i) == Open ==> q.kind == Read && Resolve(s, w, q) == Decision(Available, true, true, {Read})
  {
    ExecutableExactlyWhenReady(s, w, q);
    BindingPasses(s, w, q, w.operations[q.operation], i);
  }

  /** An executable decision allows the kind of operation asked about, except in the degraded lifecycle under a
      policy that permits more than reading: then it is executable and yet allows only reads. */
  lemma AllowedKindsMayContradict(s: Store, w: World, q: Question)
    requires Resolve(s, w, q).executable
    ensures q.kind !in Resolve(s, w, q).allowed <==> s.installations[q.key].lifecycle == Degraded && q.kind != Read
  {
    ExecutableExactlyWhenReady(s, w, q);
    var op := w.operations[q.operation];
    var binding := if op.needsBinding then FirstExecutable(s.bindings, q.key) else None;
    if binding.Some? {
      BindingPasses(s, w, q, op, binding.value);
    }
  }

  /** The state the resolver reads besides the control plane. */
  class AvailabilityState {
    var snapshots: seq<Snapshot>
    var circuits: map<(string, nat), Circuit>

    method RecordHealthSnapshot(s: Snapshot) returns (row: Snapshot)
      modifies this`snapshots
      ensures snapshots == old(snapshots) + [row]
      ensures row == if s.version != 0 then s else s.(version := |old(snapshots)| + 1)
    {
      row := if s.version != 0 then s else s.(version := |snapshots| + 1);
      snapshots := snapshots + [row];
    }

    method WriteCircuitState(organization: string, binding: nat, circuit: Circuit)
      modifies this`circuits
      ensures circuits == old(circuits)[(organization, binding) := circuit]
    {
      circuits := circuits[(organization, binding) := circuit];
    }

    method GetLatestHealthSnapshot(q: Question, binding: nat) returns (latest: Option<Snapshot>)
      ensures latest == LatestSnapshot(snapshots, q, binding)
    {
      latest := None;
      for i := 0 to |snapshots|
        invariant latest == LatestSnapshot(snapshots[..i], q, binding)
      {
        assert snapshots[..i + 1][..i] == snapshots[..i];
        if Concerns(snapshots[i], q, binding) && (latest.None? || Newer(snapshots[i], latest.value)) {
          latest := Some(snapshots[i]);
        }
      }
      assert snapshots[..|snapshots|] == snapshots;
    }
  }
}
