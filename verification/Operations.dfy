/** Long-running operations of backend/services/integrationEvents.js: `createOperation`,
    `markOperationQueued` and `transitionOperation`, whose read and compare-and-set are two statements
    that any other worker may come between. */
module Operations {
  import opened Wrappers

  type OperationId = nat
  type WorkerId = nat

  datatype State = Accepted | Queued | Running | Succeeded | PartiallySucceeded | Failed | Cancelled

  datatype Operation = Operation(
    organization: string,
    idempotencyKey: Option<string>,
    state: State,
    version: nat,
    queuedAt: Option<int>,
    startedAt: Option<int>,
    completedAt: Option<int>)

  /** What `transitionOperation` remembers between its select and its update. */
  datatype Ticket = Ticket(organization: string, operation: OperationId, expectedVersion: nat, from: State, to: State)

  datatype Store = Store(now: int, operations: map<OperationId, Operation>, tickets: map<WorkerId, Ticket>)

  datatype Action =
    | Tick(elapsed: nat)
    | Create(id: OperationId, organization: string, idempotencyKey: Option<string>)
    | MarkQueued(organization: string, id: OperationId)
    | Read(worker: WorkerId, organization: string, id: OperationId, expectedVersion: nat, to: State)
    | CompareAndSet(worker: WorkerId)

  predicate Edge(from: State, to: State) {
    match from
    case Accepted => to in {Queued, Cancelled, Failed}
    case Queued => to in {Running, Cancelled, Failed}
    case Running => to in {Succeeded, PartiallySucceeded, Failed, Cancelled}
    case _ => false
  }

  predicate Terminal(s: State) {
    s in {Succeeded, PartiallySucceeded, Failed, Cancelled}
  }

  /** `where logto_organization_id=$1 and id=$2 and version=$3`. */
  predicate AtVersion(s: Store, organization: string, id: OperationId, version: nat) {
    id in s.operations && s.operations[id].organization == organization && s.operations[id].version == version
  }

  predicate KeyTaken(s: Store, organization: string, key: Option<string>) {
    key.Some? && exists id | id in s.operations ::
      s.operations[id].organization == organization && s.operations[id].idempotencyKey == key
  }

  function Fresh(organization: string, key: Option<string>): Operation {
    Operation(organization, key, Accepted, 1, None, None, None)
  }

  function QueuedRow(op: Operation, now: int): Operation {
    op.(state := Queued, queuedAt := if op.queuedAt.Some? then op.queuedAt else Some(now), version := op.version + 1)
  }

  function Moved(op: Operation, to: State, now: int): Operation {
    op.(state := to,
    queuedAt := if to == Queued then Some(now) else op.queuedAt,
    startedAt := if to == Running then Some(now) else op.startedAt,
    completedAt := if Terminal(to) then Some(now) else op.completedAt,
    version := op.version + 1)
  }

  predicate Readable(s: Store, a: Action)
    requires a.Read?
  {
    AtVersion(s, a.organization, a.id, a.expectedVersion) && Edge(s.operations[a.id].state, a.to)
  }

  predicate Settable(s: Store, w: WorkerId) {
    w in s.tickets && AtVersion(s, s.tickets[w].organization, s.tickets[w].operation, s.tickets[w].expectedVersion)
  }

  function After(s: Store, a: Action): Store {
    match a
    case Tick(d) => s.(now := s.now + d)
    case Create(id, organization, key) =>
      if id in s.operations || KeyTaken(s, organization, key) then s
      else s.(operations := s.operations[id := Fresh(organization, key)])
    case MarkQueued(organization, id) =>
      if id in s.operations && s.operations[id].organization == organization && s.operations[id].state == Accepted
      then s.(operations := s.operations[id := QueuedRow(s.operations[id], s.now)])
      else s
    case Read(w, organization, id, version, to) =>
      if Readable(s, a) then s.(tickets :=
                                s.tickets[w := Ticket(organization, id, version, s.operations[id].state, to)])
      else s.(tickets := s.tickets - {w})
    case CompareAndSet(w) =>
      if Settable(s, w) then
        var t := s.tickets[w];
        s.(tickets := s.tickets - {w},
        operations := s.operations[t.operation := Moved(s.operations[t.operation], t.to, s.now)])
      else s.(tickets := s.tickets - {w})
  }

  function Exec(s: Store, acts: seq<Action>): Store
    decreases |acts|
  {
    if acts == [] then s else Exec(After(s, acts[0]), acts[1..])
  }

  // ----- Invariant -----

  /** The version counts the changes since acceptance, and the state bounds how many those can be. */
  predicate OperationInv(op: Operation) {
    && (op.state == Accepted ==> op.version == 1)
    && (op.state == Queued ==> op.version == 2 && op.queuedAt.Some?)
    && (op.state == Running ==> op.version == 3)
    && (op.state in {Succeeded, PartiallySucceeded} ==> op.version == 4)
    && (op.state in {Failed, Cancelled} ==> 2 <= op.version <= 4)
    && (op.version >= 3 && !Terminal(op.state) ==> op.startedAt.Some?)
    && (op.state in {Succeeded, PartiallySucceeded} ==> op.startedAt.Some?)
    && (op.completedAt.Some? <==> Terminal(op.state))
  }

  /** A ticket follows an edge, and as long as its version is current so is the state it saw. */
  predicate TicketInv(s: Store, t: Ticket) {
    && Edge(t.from, t.to)
    && t.operation in s.operations
    && t.expectedVersion <= s.operations[t.operation].version
    && (t.expectedVersion == s.operations[t.operation].version ==> t.from == s.operations[t.operation].state)
  }

  ghost predicate Inv(s: Store) {
    && (forall id | id in s.operations :: OperationInv(s.operations[id]))
    && (forall w | w in s.tickets :: TicketInv(s, s.tickets[w]))
    && (forall i, j | i in s.operations && j in s.operations && s.operations[i].idempotencyKey.Some? &&
                      s.operations[i].idempotencyKey == s.operations[j].idempotencyKey &&
                      s.operations[i].organization == s.operations[j].organization :: i == j)
  }

  function Empty(now: int): Store {
    Store(now, map[], map[])
  }

  /** One step leaves an operation exactly as it was or moves it along one edge and one version. */
  ghost predicate OneEdge(before: Operation, after: Operation) {
    after == before || (Edge(before.state, after.state) && after.version == before.version + 1)
  }

  lemma AfterFollowsEdges(s: Store, a: Action, id: OperationId)
    requires Inv(s) && id in s.operations
    ensures id in After(s, a).operations && OneEdge(s.operations[id], After(s, a).operations[id])
    ensures s.operations[id].organization == After(s, a).operations[id].organization
  {
    if a.CompareAndSet? && a.worker in s.tickets { assert TicketInv(s, s.tickets[a.worker]); }
  }

  lemma AfterKeepsOperations(s: Store, a: Action, id: OperationId)
    requires Inv(s) && id in After(s, a).operations
    ensures OperationInv(After(s, a).operations[id])
  {
    if a.CompareAndSet? && a.worker in s.tickets { assert TicketInv(s, s.tickets[a.worker]); }
    if id in s.operations { assert OperationInv(s.operations[id]); }
  }

  lemma AfterKeepsTickets(s: Store, a: Action, w: WorkerId)
    requires Inv(s) && w in After(s, a).tickets
    ensures TicketInv(After(s, a), After(s, a).tickets[w])
  {
    if w in s.tickets && After(s, a).tickets[w] == s.tickets[w] {
      assert TicketInv(s, s.tickets[w]);
      AfterFollowsEdges(s, a, s.tickets[w].operation);
    }
  }

  lemma StepKeepsOperationsSound(s: Store, a: Action)
    requires Inv(s)
    ensures Inv(After(s, a))
  {
    forall id | id in After(s, a).operations ensures OperationInv(After(s, a).operations[id]) {
      AfterKeepsOperations(s, a, id);
    }
    forall w | w in After(s, a).tickets ensures TicketInv(After(s, a), After(s, a).tickets[w]) {
      AfterKeepsTickets(s, a, w);
    }
  }

  lemma {:induction false} RunsKeepOperationsSound(s: Store, acts: seq<Action>)
    requires Inv(s)
    ensures Inv(Exec(s, acts))
    decreases |acts|
  {
    if acts != [] {
      StepKeepsOperationsSound(s, acts[0]);
      RunsKeepOperationsSound(After(s, acts[0]), acts[1..]);
    }
  }

  // ----- What every run of any number of workers guarantees -----

  /** A walk through the transition table. */
  ghost predicate Trail(states: seq<State>, from: State, to: State) {
    && |states| > 0 && states[0] == from && states[|states| - 1] == to
    && forall i | 0 <= i < |states| - 1 :: Edge(states[i], states[i + 1])
  }

  /** Whatever workers interleave, the state of an operation walks along table edges, one version per edge. */
  lemma {:induction false} EveryChangeFollowsTheTable(s: Store, acts: seq<Action>, id: OperationId)
    returns (states: seq<State>)
    requires Inv(s) && id in s.operations
    ensures id in Exec(s, acts).operations
    ensures Trail(states, s.operations[id].state, Exec(s, acts).operations[id].state)
    ensures Exec(s, acts).operations[id].version == s.operations[id].version + |states| - 1
    decreases |acts|
  {
    if acts == [] {
      states := [s.operations[id].state];
    } else {
      AfterFollowsEdges(s, acts[0], id);
      StepKeepsOperationsSound(s, acts[0]);
      var rest := EveryChangeFollowsTheTable(After(s, acts[0]), acts[1..], id);
      states := if After(s, acts[0]).operations[id] == s.operations[id] then rest else [s.operations[id].state] + rest;
    }
  }

  /** A version number determines the state: if the version is back to (still) what it was, so is the state. */
  lemma SameVersionSameState(s: Store, acts: seq<Action>, id: OperationId)
    requires Inv(s) && id in s.operations
    ensures id in Exec(s, acts).operations && s.operations[id].version <= Exec(s, acts).operations[id].version
    ensures s.operations[id].version == Exec(s, acts).operations[id].version ==>
              s.operations[id].state == Exec(s, acts).operations[id].state
  {
    var states := EveryChangeFollowsTheTable(s, acts, id);
  }

  /** From an empty table: at most three changes follow acceptance, `completed_at` is set exactly in the
      terminal states, and an operation that succeeded was queued and started before. */
  lemma {:induction false} AtMostThreeChanges(now: int, acts: seq<Action>, id: OperationId)
    requires id in Exec(Empty(now), acts).operations
    ensures var op := Exec(Empty(now), acts).operations[id];
            && 1 <= op.version <= 4
            && (op.completedAt.Some? <==> Terminal(op.state))
            && (op.state in {Succeeded, PartiallySucceeded} ==> op.version == 4 && op.startedAt.Some?)
  {
    RunsKeepOperationsSound(Empty(now), acts);
    assert OperationInv(Exec(Empty(now), acts).operations[id]);
  }

  /** Terminal states are absorbing: not one column changes again. */
  lemma {:induction false} TerminalOperationsNeverChange(s: Store, acts: seq<Action>, id: OperationId)
    requires Inv(s) && id in s.operations && Terminal(s.operations[id].state)
    ensures id in Exec(s, acts).operations && Exec(s, acts).operations[id] == s.operations[id]
    decreases |acts|
  {
    if acts != [] {
      AfterFollowsEdges(s, acts[0], id);
      StepKeepsOperationsSound(s, acts[0]);
      TerminalOperationsNeverChange(After(s, acts[0]), acts[1..], id);
    }
  }

  /** Of all the workers that read one version, at most one wins: once the version has moved on, a ticket
      for the old one changes nothing, no matter how much later it is presented. */
  lemma {:induction false} StaleTicketsNeverWin(s: Store, acts: seq<Action>, w: WorkerId, t: Ticket)
    requires Inv(s) && t.operation in s.operations && t.expectedVersion < s.operations[t.operation].version
    requires w in Exec(s, acts).tickets && Exec(s, acts).tickets[w] == t
    ensures After(Exec(s, acts), CompareAndSet(w)).operations == Exec(s, acts).operations
    decreases |acts|
  {
    if acts != [] {
      AfterFollowsEdges(s, acts[0], t.operation);
      StepKeepsOperationsSound(s, acts[0]);
      StaleTicketsNeverWin(After(s, acts[0]), acts[1..], w, t);
    }
  }

  // ----- The repository methods -----

  datatype TransitionError = VersionConflict | TransitionInvalid

  class OperationRepository {
    var now: int
    var operations: map<OperationId, Operation>
    var tickets: map<WorkerId, Ticket>

    function Database(): Store
      reads this
    {
      Store(now, operations, tickets)
    }

    constructor (start: int)
      ensures Database() == Empty(start)
    {
      now, operations, tickets := start, map[], map[];
    }

    method Interleave(acts: seq<Action>)
      modifies this
      ensures Database() == Exec(old(Database()), acts)
    {
      var s := Exec(Database(), acts);
      now, operations, tickets := s.now, s.operations, s.tickets;
    }

    /** `insert ... on conflict do nothing`, then the row that holds the key. `id` is a fresh UUID. */
    method CreateOperation(id: OperationId, organization: string, key: Option<string>) returns (found: OperationId)
      requires id !in operations
      modifies this
      ensures Database() == After(old(Database()), Create(id, organization, key))
      ensures found in operations && operations[found].organization == organization &&
              operations[found].idempotencyKey == key
      ensures found == id <==> !KeyTaken(old(Database()), organization, key)
    {
      if KeyTaken(Database(), organization, key) {
        found :| found in operations && operations[found].organization == organization &&
            operations[found].idempotencyKey == key;
      } else {
        operations := operations[id := Fresh(organization, key)];
        found := id;
      }
    }

    method MarkOperationQueued(organization: string, id: OperationId)
      modifies this
      ensures Database() == After(old(Database()), MarkQueued(organization, id))
    {
      if id in operations && operations[id].organization == organization && operations[id].state == Accepted {
        operations := operations[id := QueuedRow(operations[id], now)];
      }
    }

    /** `transitionOperation` by worker `w`, with everything the other workers do between its two statements.
        It succeeds exactly when it read a current version, the table has the edge, and the version is still
        current at the update; then the operation is one edge and one version further, and otherwise the
        call itself has changed no operation. */
    method TransitionOperation(w: WorkerId, organization: string, id: OperationId, expectedVersion: nat, to: State,
                               between: seq<Action>)
      returns (r: Result<Operation, TransitionError>)
      requires Inv(Database())
      requires forall a | a in between :: !(a.Read? && a.worker == w) && !(a.CompareAndSet? && a.worker == w)
      modifies this
      ensures Inv(Database())
      ensures Database() == Exec(old(Database()),
                                 [Read(w, organization, id, expectedVersion, to)] + between + [CompareAndSet(w)])
      ensures var start := old(Database()); var middle :=
              Exec(After(start, Read(w, organization, id, expectedVersion, to)), between);
              && (r.Ok? <==> Readable(start, Read(w, organization, id, expectedVersion, to)) &&
                             AtVersion(middle, organization, id, expectedVersion))
              && (r.Ok? ==> id in operations && operations[id] == r.value && r.value.state == to &&
                            r.value.version == expectedVersion + 1 &&
                                middle.operations[id].state == start.operations[id].state)
              && (r.Err? ==> operations == middle.operations)
    {
      ghost var start := Database();
      ghost var read := Read(w, organization, id, expectedVersion, to);
      var current := AtVersion(Database(), organization, id, expectedVersion);
      var allowed := current && Edge(operations[id].state, to);
      tickets := if allowed then tickets[w := Ticket(organization, id, expectedVersion, operations[id].state, to)]
          else tickets - {w};
      assert Database() == After(start, read);
      StepKeepsOperationsSound(start, read);
      Interleave(between);
      ghost var middle := Database();
      OwnTicketStays(After(start, read), between, w);
      RunsKeepOperationsSound(After(start, read), between);
      r := Err(if current then TransitionInvalid else VersionConflict);
      if allowed {
        r := Err(VersionConflict);
        assert TicketInv(middle, tickets[w]);
        if AtVersion(Database(), organization, id, expectedVersion) {
          operations := operations[id := Moved(operations[id], to, now)];
          r := Ok(operations[id]);
        }
      }
      tickets := tickets - {w};
      assert Database() == After(middle, CompareAndSet(w));
      StepKeepsOperationsSound(middle, CompareAndSet(w));
      SplitRun(start, read, between, CompareAndSet(w));
    }
  }

  lemma {:induction false} OwnTicketStays(s: Store, acts: seq<Action>, w: WorkerId)
    requires forall a | a in acts :: !(a.Read? && a.worker == w) && !(a.CompareAndSet? && a.worker == w)
    ensures (w in Exec(s, acts).tickets) == (w in s.tickets)
    ensures w in s.tickets ==> Exec(s, acts).tickets[w] == s.tickets[w]
    decreases |acts|
  {
    if acts != [] {
      assert acts[0] in acts;
      OwnTicketStays(After(s, acts[0]), acts[1..], w);
    }
  }

  lemma SplitRun(s: Store, first: Action, middle: seq<Action>, last: Action)
    ensures Exec(s, [first] + middle + [last]) == After(Exec(After(s, first), middle), last)
  {
    assert ([first] + middle + [last])[1..] == middle + [last];
    LastStepOnTop(After(s, first), middle, last);
  }

  lemma {:induction false} LastStepOnTop(s: Store, acts: seq<Action>, last: Action)
    ensures Exec(s, acts + [last]) == After(Exec(s, acts), last)
    decreases |acts|
  {
    if acts == [] {
      assert Exec(s, [last]) == Exec(After(s, last), [last][1..]);
    } else {
      assert (acts + [last])[1..] == acts[1..] + [last];
      LastStepOnTop(After(s, acts[0]), acts[1..], last);
    }
  }
}
