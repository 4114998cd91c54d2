/** backend/scim/scimOperationLedger.js: the producer and the consumer of SCIM operations, as clients of
    the operation table, the outbox and the inbox. */
module ScimLedger {
  import opened Wrappers
  import Inbox
  import Operations
  import Outbox
  import opened OutboxDispatcher

  // ----- enqueueScimOperation -----

  /** Where an `enqueueScimOperation` call is cut short: the three statements are not one transaction. */
  datatype Stop = Completes | AfterCreate | AfterAppend

  datatype EnqueueReply =
    | Enqueued(id: Operations.OperationId)
    | AlreadyKnown
    | EventRejected
    | Interrupted

  datatype Tables = Tables(operations: Operations.Store, outbox: Outbox.Store)

  /** `uuidFromHash(key)`: the event id is derived from the idempotency key alone. */
  function EventOf(key: string): Outbox.EventId {
    "scim-event:" + key
  }

  function Enqueue(t: Tables, organization: string, key: string, id: Operations.OperationId, stop: Stop): (Tables,
          EnqueueReply) {
    if Operations.KeyTaken(t.operations, organization, Some(key)) then (t, AlreadyKnown)
    else
      var created := t.(operations := Operations.After(t.operations, Operations.Create(id, organization, Some(key))));
      if stop == AfterCreate then (created, Interrupted)
      else if EventOf(key) in t.outbox.rows then (created, EventRejected)
      else
        var appended := created.(outbox := Outbox.After(t.outbox, Outbox.Append(EventOf(key))));
        if stop == AfterAppend then (appended, Interrupted)
        else (appended.(operations := Operations.After(created.operations, Operations.MarkQueued(organization, id))),
              Enqueued(id))
  }

  /** Who enqueues again under the same key. */
  datatype Retry = Retry(id: Operations.OperationId, stop: Stop)

  function EnqueueAgain(t: Tables, organization: string, key: string, retries: seq<Retry>): Tables
    decreases |retries|
  {
    if retries == [] then t
    else EnqueueAgain(Enqueue(t, organization, key, retries[0].id, retries[0].stop).0, organization, key, retries[1..])
  }

  lemma {:induction false} RetriesChangeNothing(t: Tables, organization: string, key: string, retries: seq<Retry>)
    requires Operations.KeyTaken(t.operations, organization, Some(key))
    ensures EnqueueAgain(t, organization, key, retries) == t
    decreases |retries|
  {
    if retries != [] { RetriesChangeNothing(t, organization, key, retries[1..]); }
  }

  /** When a first enqueue under a key, followed by any retries, gets its event into the outbox: exactly
      when the first call was not cut short right after creating the operation (or an event of that id was
      there before). A call cut short there is lost for good, since every retry finds the operation and
      reports it as already known. */
  lemma EventIsSentUnlessCutShort(t: Tables, organization: string, key: string, id: Operations.OperationId, stop: Stop,
                                  retries: seq<Retry>)
    requires !Operations.KeyTaken(t.operations, organization, Some(key)) && id !in t.operations.operations
    ensures var after := EnqueueAgain(Enqueue(t, organization, key, id, stop).0, organization, key, retries);
            && id in after.operations.operations
            && (EventOf(key) in after.outbox.rows <==> EventOf(key) in t.outbox.rows || stop != AfterCreate)
            && (after.operations.operations[id].state == Operations.Queued <==>
                stop == Completes && EventOf(key) !in t.outbox.rows)
  {
    var after := Enqueue(t, organization, key, id, stop).0;
    assert id in after.operations.operations && after.operations.operations[id].idempotencyKey == Some(key);
    RetriesChangeNothing(after, organization, key, retries);
  }

  /** Two organizations that choose the same key collide on the event id: the second one's operation is
      created, its event is refused, and it stays `accepted`. */
  lemma SameKeyInAnotherOrganization(t: Tables, first: string, second: string, key: string,
                                     i: Operations.OperationId, j: Operations.OperationId)
    requires first != second && i != j && i !in t.operations.operations && j !in t.operations.operations
    requires !Operations.KeyTaken(t.operations, first, Some(key)) &&
             !Operations.KeyTaken(t.operations, second, Some(key))
    requires EventOf(key) !in t.outbox.rows
    ensures var (middle, r1) := Enqueue(t, first, key, i, Completes);
            var (after, r2) := Enqueue(middle, second, key, j, Completes);
            r1 == Enqueued(i) && r2 == EventRejected && j in after.operations.operations &&
            after.operations.operations[j].state == Operations.Accepted && after.outbox == middle.outbox
  {
    var middle := Enqueue(t, first, key, i, Completes).0;
    assert middle.operations.operations[i].organization == first;
    assert forall id | id in middle.operations.operations && id != i ::
        middle.operations.operations[id] == t.operations.operations[id];
    assert !Operations.KeyTaken(middle.operations, second, Some(key));
  }

  method EnqueueScimOperation(operations: Operations.OperationRepository, outbox: OutboxRepository,
                              organization: string, key: string, id: Operations.OperationId, stop: Stop)
    returns (reply: EnqueueReply)
    requires id !in operations.operations
    modifies operations, outbox
    ensures (Tables(operations.Database(), outbox.Database()), reply) ==
            Enqueue(old(Tables(operations.Database(), outbox.Database())), organization, key, id, stop)
  {
    if Operations.KeyTaken(operations.Database(), organization, Some(key)) { return AlreadyKnown; }
    var found := operations.CreateOperation(id, organization, Some(key));
    if stop == AfterCreate { return Interrupted; }
    var ok := outbox.AppendEvent(EventOf(key));
    if !ok { return EventRejected; }
    if stop == AfterAppend { return Interrupted; }
    operations.MarkOperationQueued(organization, found);
    reply := Enqueued(found);
  }

  // ----- applyScimOperationEvent -----

  datatype ThrowReason = InboxDuplicate | InboxProcessing | AdapterFailed |
      OperationError(error: Operations.TransitionError)

  datatype ApplyReply = Applied | Threw(reason: ThrowReason)

  /** The external identity provider: every call it receives, successful or not. */
  class Adapter {
    var calls: seq<Inbox.Key>

    constructor ()
      ensures calls == []
    {
      calls := [];
    }

    method Call(k: Inbox.Key)
      modifies this
      ensures calls == old(calls) + [k]
    {
      calls := calls + [k];
    }
  }

  /** One delivery of an event, caused by an operation if any. `others` is what other deliveries do to the inbox while
      the adapter call is under way,
          `whileFailing` what they do before the catch block writes; `elsewhere` is what other
      workers do to the operations between reading the version and the transition, `between` within the transition. */
  datatype Delivery = Delivery(
    key: Inbox.Key, leaseMs: int, organization: string, cause: Option<Operations.OperationId>,
        worker: Operations.WorkerId,
    adapterSucceeds: bool, others: seq<Inbox.Action>, whileFailing: seq<Inbox.Action>,
    elsewhere: seq<Operations.Action>, between: seq<Operations.Action>)

  predicate LeavesTicket(d: Delivery) {
    forall a | a in d.between :: !(a.Read? && a.worker == d.worker) && !(a.CompareAndSet? && a.worker == d.worker)
  }

  predicate ProcessedIn(s: Inbox.Store, k: Inbox.Key) {
    k in s.receipts && s.receipts[k].state == Inbox.Processed
  }

  lemma ProcessedStays(s: Inbox.Store, acts: seq<Inbox.Action>, k: Inbox.Key)
    requires Inbox.Inv(s) && ProcessedIn(s, k)
    ensures Inbox.Inv(Inbox.Exec(s, acts)) && ProcessedIn(Inbox.Exec(s, acts), k)
  {
    Inbox.ClosedReceiptsNeverChange(s, acts, k, 0);
    Inbox.RunsKeepReceiptsWellFormed(s, acts);
  }

  lemma StepOnRun(s: Inbox.Store, acts: seq<Inbox.Action>, a: Inbox.Action)
    ensures Inbox.Exec(s, acts + [a]) == Inbox.After(Inbox.Exec(s, acts), a)
  {
    Inbox.RunOnRun(s, acts, [a]);
    assert [a][1..] == [];
  }

  /** The catch block: dead-letter the receipt, then rethrow, unless dead-lettering itself throws. */
  method Fail(inbox: Inbox.InboxRepository, k: Inbox.Key, owner: Option<Inbox.Token>, reason: ThrowReason,
              whileFailing: seq<Inbox.Action>)
    returns (reply: ApplyReply)
    modifies inbox
    ensures var found := Inbox.Exec(old(inbox.Database()), whileFailing);
            && inbox.Database() == Inbox.After(found, Inbox.MoveToDeadLetter(k, owner))
            && reply == Threw(if Inbox.OwnedProcessing(found, k, owner) then reason else InboxProcessing)
    ensures inbox.Database() == Inbox.Exec(old(inbox.Database()), whileFailing + [Inbox.MoveToDeadLetter(k, owner)])
  {
    StepOnRun(inbox.Database(), whileFailing, Inbox.MoveToDeadLetter(k, owner));
    inbox.Interleave(whileFailing);
    var ok := inbox.MoveInboxToDeadLetter(k, owner);
    reply := Threw(if ok then reason else InboxProcessing);
  }

  /** The transition of the operation, if there is one. */
  method FinishOperation(operations: Operations.OperationRepository, d: Delivery) returns (failed: Option<ThrowReason>)
    requires Operations.Inv(operations.Database()) && LeavesTicket(d)
    modifies operations
    ensures Operations.Inv(operations.Database())
    ensures failed.None? <==> Finishes(old(operations.Database()), d)
  {
    if d.cause.Some? && d.cause.value in operations.operations &&
       operations.operations[d.cause.value].organization == d.organization {
      var version := operations.operations[d.cause.value].version;
      Operations.RunsKeepOperationsSound(operations.Database(), d.elsewhere);
      Operations.SameVersionSameState(operations.Database(), d.elsewhere, d.cause.value);
      operations.Interleave(d.elsewhere);
      var moved := operations.TransitionOperation(d.worker, d.organization, d.cause.value, version,
                                                  Operations.Succeeded, d.between);
      if moved.Err? {
        return Some(OperationError(moved.error));
      }
    }
    failed := None;
  }

  /** What follows a successful effect: the receipt is processed if it is still the delivery's own. */
  method Complete(inbox: Inbox.InboxRepository, operations: Operations.OperationRepository, d: Delivery,
                  owner: Option<Inbox.Token>)
    returns (reply: ApplyReply, ghost run: seq<Inbox.Action>)
    requires Operations.Inv(operations.Database()) && Inbox.Inv(inbox.Database()) && LeavesTicket(d)
    modifies inbox, operations
    ensures Operations.Inv(operations.Database())
    ensures inbox.Database() == Inbox.Exec(old(inbox.Database()), run)
    ensures if Inbox.Completable(old(inbox.Database()), d.key, owner)
            then && ProcessedIn(inbox.Database(), d.key)
                 && reply == if Finishes(old(operations.Database()), d) then Applied else Threw(InboxProcessing)
            else && reply != Applied && operations.Database() == old(operations.Database())
                 && run == d.whileFailing + [Inbox.MoveToDeadLetter(d.key, owner)]
  {
    ghost var start, mark := inbox.Database(), Inbox.MarkProcessed(d.key, owner);
    var ok := inbox.MarkInboxProcessed(d.key, owner);
    if !ok {
      reply := Fail(inbox, d.key, owner, InboxProcessing, d.whileFailing);
      run := d.whileFailing + [Inbox.MoveToDeadLetter(d.key, owner)];
      return;
    }
    StepOnRun(start, [], mark);
    assert [] + [mark] == [mark];
    run := [mark];
    Inbox.StepKeepsReceiptsWellFormed(start, mark);
    var failed := FinishOperation(operations, d);
    if failed.Some? {
      ghost var give := d.whileFailing + [Inbox.MoveToDeadLetter(d.key, owner)];
      ProcessedStays(inbox.Database(), d.whileFailing, d.key);
      ProcessedStays(inbox.Database(), give, d.key);
      Inbox.RunOnRun(start, run, give);
      reply := Fail(inbox, d.key, owner, failed.value, d.whileFailing);
      run := run + give;
      return;
    }
    reply := Applied;
  }

  /** `applyScimOperationEvent` on one delivery.

      The adapter is called exactly when the claim is granted, so never for a processed event. The call
      returns normally exactly when the claim was granted, the adapter succeeded, the lease was still its own
      at completion, and the operation, if there is one, was running and untouched since its version was
      read. An operation that is only queued (as `enqueueScimOperation` leaves it) fails the transition
      after the receipt is processed, the catch block cannot dead-letter it any more, and the reported error
      is a lease conflict although the effect was applied and recorded. */
  method ApplyScimOperationEvent(inbox: Inbox.InboxRepository, operations: Operations.OperationRepository,
                                 adapter: Adapter, d: Delivery)
    returns (reply: ApplyReply, ghost run: seq<Inbox.Action>)
    requires Operations.Inv(operations.Database()) && Inbox.Inv(inbox.Database()) && LeavesTicket(d)
    modifies inbox, operations, adapter
    ensures Operations.Inv(operations.Database())
    ensures inbox.Database() == Inbox.Exec(old(inbox.Database()), run)
    ensures var answer := Inbox.Answer(old(inbox.Database()), d.key, d.leaseMs);
            var claimed := Inbox.After(old(inbox.Database()), Inbox.Claim(d.key, d.leaseMs));
            var later := Inbox.Exec(claimed, d.others);
            && (adapter.calls == old(adapter.calls) + if answer.Granted? then [d.key] else [])
            && (!answer.Granted? ==> reply == Threw(if answer.Duplicate? then InboxDuplicate else InboxProcessing) &&
                                     inbox.Database() == claimed)
            && (answer.Granted? && d.adapterSucceeds && Inbox.Completable(later, d.key, answer.receipt.owner) ==>
                  && ProcessedIn(inbox.Database(), d.key)
                  && reply == if Finishes(old(operations.Database()), d) then Applied else Threw(InboxProcessing))
            && (answer.Granted? && !(d.adapterSucceeds && Inbox.Completable(later, d.key, answer.receipt.owner)) ==>
                  && reply != Applied && operations.Database() == old(operations.Database())
                  && inbox.Database() == Inbox.After(Inbox.Exec(later, d.whileFailing),
                                                     Inbox.MoveToDeadLetter(d.key, answer.receipt.owner)))
  {
    ghost var start, claim := inbox.Database(), Inbox.Claim(d.key, d.leaseMs);
    var answer := inbox.ClaimInbox(d.key, d.leaseMs);
    run := [claim];
    assert Inbox.Exec(start, run) == inbox.Database() by {
      assert [claim][1..] == [];
    }
    Inbox.StepKeepsReceiptsWellFormed(start, claim);
    if answer.Duplicate? { return Threw(InboxDuplicate), run; }
    if answer.AlreadyProcessing? { return Threw(InboxProcessing), run; }
    var owner := answer.receipt.owner;
    adapter.Call(d.key);
    Inbox.RunsKeepReceiptsWellFormed(inbox.Database(), d.others);
    Inbox.RunOnRun(start, run, d.others);
    inbox.Interleave(d.others);
    run := run + d.others;
    ghost var give := d.whileFailing + [Inbox.MoveToDeadLetter(d.key, owner)];
    StepOnRun(inbox.Database(), d.whileFailing, Inbox.MoveToDeadLetter(d.key, owner));
    ghost var more := give;
    if d.adapterSucceeds {
      reply, more := Complete(inbox, operations, d, owner);
    } else {
      reply := Fail(inbox, d.key, owner, AdapterFailed, d.whileFailing);
    }
    Inbox.RunOnRun(start, run, more);
    run := run + more;
  }

  /** Whatever is processed stays so. */
  ghost predicate KeepsProcessed(s: Inbox.Store, t: Inbox.Store) {
    forall k | ProcessedIn(s, k) :: ProcessedIn(t, k)
  }

  /** One delivery among many, and whether it called the adapter. */
  method ApplyNext(inbox: Inbox.InboxRepository, operations: Operations.OperationRepository, adapter: Adapter,
                   d: Delivery)
    returns (reply: ApplyReply, called: bool)
    requires Operations.Inv(operations.Database()) && Inbox.Inv(inbox.Database()) && LeavesTicket(d)
    modifies inbox, operations, adapter
    ensures Operations.Inv(operations.Database()) && Inbox.Inv(inbox.Database())
    ensures KeepsProcessed(old(inbox.Database()), inbox.Database())
    ensures adapter.calls == old(adapter.calls) + if called then [d.key] else []
    ensures ProcessedIn(old(inbox.Database()), d.key) ==> !called && reply == Threw(InboxDuplicate)
    ensures reply == Applied ==> ProcessedIn(inbox.Database(), d.key)
  {
    var before := adapter.calls;
    ghost var start := inbox.Database();
    ghost var run;
    reply, run := ApplyScimOperationEvent(inbox, operations, adapter, d);
    called := |adapter.calls| > |before|;
    forall k | ProcessedIn(start, k)
      ensures ProcessedIn(inbox.Database(), k)
    {
      ProcessedStays(start, run, k);
    }
    Inbox.RunsKeepReceiptsWellFormed(start, run);
    if ProcessedIn(start, d.key) {
      Inbox.ClosedReceiptsNeverChange(start, [], d.key, d.leaseMs);
    }
  }

  /** Any number of deliveries, of any events, one after the other and among any others: `states` are the inbox before
      the first and after each. From the moment an event is processed, whoever completed it, every delivery of it is
      reported as a duplicate and does not call the adapter. */
  method ApplyAll(inbox: Inbox.InboxRepository, operations: Operations.OperationRepository, adapter: Adapter,
                  deliveries: seq<Delivery>)
    returns (replies: seq<ApplyReply>, called: seq<bool>, ghost states: seq<Inbox.Store>)
    requires Operations.Inv(operations.Database()) && Inbox.Inv(inbox.Database())
    requires forall d | d in deliveries :: LeavesTicket(d)
    modifies inbox, operations, adapter
    ensures |replies| == |called| == |deliveries| && |states| == |deliveries| + 1
    ensures states[0] == old(inbox.Database()) && states[|deliveries|] == inbox.Database()
    ensures adapter.calls == old(adapter.calls) + KeysOf(deliveries, called)
    ensures forall i, j | 0 <= i <= j < |deliveries| && ProcessedIn(states[i], deliveries[j].key) ::
              !called[j] && replies[j] == Threw(InboxDuplicate)
    ensures forall i | 0 <= i < |deliveries| && replies[i] == Applied :: ProcessedIn(states[i + 1], deliveries[i].key)
  {
    replies, called, states := [], [], [inbox.Database()];
    for n := 0 to |deliveries|
      invariant |replies| == |called| == n && |states| == n + 1 && states[n] == inbox.Database()
      invariant states[0] == old(inbox.Database())
      invariant Operations.Inv(operations.Database()) && Inbox.Inv(inbox.Database())
      invariant adapter.calls == old(adapter.calls) + KeysOf(deliveries[..n], called)
      invariant forall i | 0 <= i <= n :: KeepsProcessed(states[i], inbox.Database())
      invariant forall i, j | 0 <= i <= j < n && ProcessedIn(states[i], deliveries[j].key) ::
                  !called[j] && replies[j] == Threw(InboxDuplicate)
      invariant forall i | 0 <= i < n && replies[i] == Applied :: ProcessedIn(states[i + 1], deliveries[i].key)
    {
      var d := deliveries[n];
      var reply, ran := ApplyNext(inbox, operations, adapter, d);
      KeysOfOneMore(deliveries[..n], called, d, ran);
      assert deliveries[..n + 1] == deliveries[..n] + [d];
      replies, called, states := replies + [reply], called + [ran], states + [inbox.Database()];
    }
    assert deliveries[..|deliveries|] == deliveries;
  }

  /** The events of the deliveries that called the adapter. */
  function KeysOf(deliveries: seq<Delivery>, called: seq<bool>): seq<Inbox.Key>
    requires |deliveries| == |called|
  {
    if deliveries == [] then []
    else
      var n := |deliveries| - 1;
      KeysOf(deliveries[..n], called[..n]) + if called[n] then [deliveries[n].key] else []
  }

  lemma KeysOfOneMore(deliveries: seq<Delivery>, called: seq<bool>, d: Delivery, ran: bool)
    requires |deliveries| == |called|
    ensures KeysOf(deliveries + [d], called + [ran]) == KeysOf(deliveries, called) + if ran then [d.key] else []
  {
    assert (deliveries + [d])[..|deliveries|] == deliveries && (called + [ran])[..|called|] == called;
  }

  /** The transition to `succeeded` goes through, or there is no operation to move. */
  ghost predicate Finishes(s: Operations.Store, d: Delivery) {
    d.cause.Some? && d.cause.value in s.operations && s.operations[d.cause.value].organization == d.organization ==>
      var id := d.cause.value;
      var version := s.operations[id].version;
      var start := Operations.Exec(s, d.elsewhere);
      var read := Operations.Read(d.worker, d.organization, id, version, Operations.Succeeded);
      var middle := Operations.Exec(Operations.After(start, read), d.between);
      && s.operations[id].state == Operations.Running
      && Operations.AtVersion(start, d.organization, id, version)
      && Operations.AtVersion(middle, d.organization, id, version)
  }
}
