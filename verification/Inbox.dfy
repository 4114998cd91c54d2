/** The inbox half of backend/services/integrationEvents.js: one receipt per (consumer, event), leased to
    one delivery attempt at a time. Comparisons with a NULL lease are neither true nor false in SQL, so the
    `case` expressions of `claimInbox` hand such a row back unchanged. */
module Inbox {
  import opened Wrappers

  type Token = nat

  datatype Key = Key(consumer: string, event: string)

  datatype State = Received | Processing | Processed | RetryableFailed | TerminalFailed | DeadLettered

  datatype Receipt = Receipt(state: State, attempts: nat, owner: Option<Token>, expiresAt: Option<int>, version: nat)

  datatype Store = Store(now: int, nextToken: Token, receipts: map<Key, Receipt>, deadLetters: seq<Key>)

  datatype Action =
    | Tick(elapsed: nat)
    | Claim(key: Key, leaseMs: int)
    | MarkProcessed(key: Key, owner: Option<Token>)
    | MoveToDeadLetter(key: Key, owner: Option<Token>)

  datatype ClaimAnswer = Granted(receipt: Receipt) | Duplicate | AlreadyProcessing

  predicate LeaseLapsed(r: Receipt, now: int) {
    r.expiresAt.Some? && r.expiresAt.value <= now
  }

  predicate LeaseLive(r: Receipt, now: int) {
    r.expiresAt.Some? && r.expiresAt.value > now
  }

  /** The row that the upsert of `claimInbox` returns. */
  function Upserted(s: Store, k: Key, leaseMs: int): Receipt {
    if k !in s.receipts then Receipt(Processing, 1, Some(s.nextToken), Some(s.now + leaseMs), 1)
    else
      var r := s.receipts[k];
      if LeaseLapsed(r, s.now)
      then r.(state := if r.state == Processed then Processed else Processing, attempts := r.attempts + 1,
           owner := Some(s.nextToken), expiresAt := Some(s.now + leaseMs))
      else r
  }

  /** What `claimInbox` tells its caller. A row that is neither processed nor processing is simply returned. */
  function Answer(s: Store, k: Key, leaseMs: int): ClaimAnswer {
    var r := Upserted(s, k, leaseMs);
    if r.state == Processed then Duplicate
    else if r.state == Processing && r.owner != Some(s.nextToken) then AlreadyProcessing
    else Granted(r)
  }

  /** `state='processing' and ($owner is null or lease_owner=$owner)`. */
  predicate OwnedProcessing(s: Store, k: Key, owner: Option<Token>) {
    k in s.receipts && s.receipts[k].state == Processing && (owner.None? || s.receipts[k].owner == owner)
  }

  /** Completion also needs an unexpired lease; dead-lettering does not. */
  predicate Completable(s: Store, k: Key, owner: Option<Token>) {
    OwnedProcessing(s, k, owner) && LeaseLive(s.receipts[k], s.now)
  }

  function Closed(r: Receipt, state: State): Receipt {
    r.(state := state, owner := None, expiresAt := None, version := r.version + 1)
  }

  function After(s: Store, a: Action): Store {
    match a
    case Tick(d) => s.(now := s.now + d)
    case Claim(k, leaseMs) =>
      s.(nextToken := s.nextToken + 1, receipts := s.receipts[k := Upserted(s, k, leaseMs)])
    case MarkProcessed(k, owner) =>
      if Completable(s, k, owner) then s.(receipts := s.receipts[k := Closed(s.receipts[k], Processed)]) else s
    case MoveToDeadLetter(k, owner) =>
      if OwnedProcessing(s, k, owner)
      then s.(receipts := s.receipts[k := Closed(s.receipts[k], DeadLettered)], deadLetters := s.deadLetters + [k])
      else s
  }

  function Exec(s: Store, acts: seq<Action>): Store
    decreases |acts|
  {
    if acts == [] then s else Exec(After(s, acts[0]), acts[1..])
  }

  predicate ReceiptInv(r: Receipt, nextToken: Token) {
    && r.state in {Processing, Processed, DeadLettered}
    && (r.state == Processing ==> r.owner.Some? && r.owner.value < nextToken && r.expiresAt.Some?)
    && (r.state != Processing ==> r.owner.None? && r.expiresAt.None?)
  }

  ghost predicate Inv(s: Store) {
    forall k | k in s.receipts :: ReceiptInv(s.receipts[k], s.nextToken)
  }

  function Empty(now: int): Store {
    Store(now, 0, map[], [])
  }

  lemma StepKeepsReceiptsWellFormed(s: Store, a: Action)
    requires Inv(s)
    ensures Inv(After(s, a))
  {
    forall k | k in After(s, a).receipts ensures ReceiptInv(After(s, a).receipts[k], After(s, a).nextToken) {
      assert k in s.receipts ==> ReceiptInv(s.receipts[k], s.nextToken);
    }
  }

  lemma {:induction false} RunsKeepReceiptsWellFormed(s: Store, acts: seq<Action>)
    requires Inv(s)
    ensures Inv(Exec(s, acts))
    decreases |acts|
  {
    if acts != [] {
      StepKeepsReceiptsWellFormed(s, acts[0]);
      RunsKeepReceiptsWellFormed(After(s, acts[0]), acts[1..]);
    }
  }

  // ----- Who is let in -----

  /** The deliveries `claimInbox` lets through, in any reachable database: the first one, one whose
      predecessor's lease ran out, and every delivery of a dead-lettered event. The last kind gets the old
      row back, with no lease of its own. */
  lemma {:induction false} WhoIsLetIn(now: int, acts: seq<Action>, k: Key, leaseMs: int)
    ensures var s := Exec(Empty(now), acts); var answer := Answer(s, k, leaseMs);
            && (answer.Granted? <==> k !in s.receipts || s.receipts[k].state == DeadLettered ||
                                     (s.receipts[k].state == Processing && LeaseLapsed(s.receipts[k], s.now)))
            && (answer == Duplicate <==> k in s.receipts && s.receipts[k].state == Processed)
            && (answer.Granted? ==> (answer.receipt.owner.None? <==>
                                     k in s.receipts && s.receipts[k].state == DeadLettered))
            && (answer.Granted? && answer.receipt.owner.Some? ==> answer.receipt.owner == Some(s.nextToken))
  {
    var s := Exec(Empty(now), acts);
    RunsKeepReceiptsWellFormed(Empty(now), acts);
    assert k in s.receipts ==> ReceiptInv(s.receipts[k], s.nextToken);
  }

  predicate ClosedIn(s: Store, k: Key) {
    k in s.receipts && s.receipts[k].state in {Processed, DeadLettered}
  }

  /** Processed and dead-lettered receipts are absorbing, so a processed event is a duplicate for ever. */
  lemma {:induction false} ClosedReceiptsNeverChange(s: Store, acts: seq<Action>, k: Key, leaseMs: int)
    requires Inv(s) && ClosedIn(s, k)
    ensures k in Exec(s, acts).receipts && Exec(s, acts).receipts[k] == s.receipts[k]
    ensures s.receipts[k].state == Processed ==> Answer(Exec(s, acts), k, leaseMs) == Duplicate
    decreases |acts|
  {
    assert ReceiptInv(s.receipts[k], s.nextToken);
    if acts != [] {
      StepKeepsReceiptsWellFormed(s, acts[0]);
      ClosedReceiptsNeverChange(After(s, acts[0]), acts[1..], k, leaseMs);
    }
  }

  lemma {:induction false} RunOnRun(s: Store, first: seq<Action>, second: seq<Action>)
    ensures Exec(s, first + second) == Exec(Exec(s, first), second)
    decreases |first|
  {
    if first == [] {
      assert first + second == second;
    } else {
      assert (first + second)[1..] == first[1..] + second;
      RunOnRun(After(s, first[0]), first[1..], second);
    }
  }

  /** How many claims of a run are granted for one receipt: each runs the effect of the event once. */
  function Grants(s: Store, acts: seq<Action>, k: Key): nat
    decreases |acts|
  {
    if acts == [] then 0
    else
      (if acts[0].Claim? && acts[0].key == k && Answer(s, k, acts[0].leaseMs).Granted? then 1 else 0)
      + Grants(After(s, acts[0]), acts[1..], k)
  }

  lemma {:induction false} ProcessedIsNeverGranted(s: Store, acts: seq<Action>, k: Key)
    requires Inv(s) && k in s.receipts && s.receipts[k].state == Processed
    ensures Grants(s, acts, k) == 0
    decreases |acts|
  {
    assert ReceiptInv(s.receipts[k], s.nextToken);
    if acts != [] {
      StepKeepsReceiptsWellFormed(s, acts[0]);
      ProcessedIsNeverGranted(After(s, acts[0]), acts[1..], k);
    }
  }

  /** Once a completion has succeeded, no later run lets the event in again. */
  lemma NothingIsGrantedAfterACompletion(s: Store, first: seq<Action>, rest: seq<Action>, k: Key)
    requires Inv(s) && Completions(s, first, k) >= 1
    ensures Grants(Exec(s, first), rest, k) == 0
  {
    AtMostOneCompletion(s, first, k);
    RunsKeepReceiptsWellFormed(s, first);
    ProcessedIsNeverGranted(Exec(s, first), rest, k);
  }

  /** How many `markInboxProcessed` calls of a run succeed for one receipt. */
  function Completions(s: Store, acts: seq<Action>, k: Key): nat
    decreases |acts|
  {
    if acts == [] then 0
    else
      (if acts[0].MarkProcessed? && acts[0].key == k && Completable(s, k, acts[0].owner) then 1 else 0)
      + Completions(After(s, acts[0]), acts[1..], k)
  }

  /** At most one completion per (consumer, event) in any run, whoever calls and whatever owner they pass;
      and the receipt ends up processed exactly when it started so or one of the calls succeeded. */
  lemma {:induction false} AtMostOneCompletion(s: Store, acts: seq<Action>, k: Key)
    requires Inv(s)
    ensures Completions(s, acts, k) <= 1
    ensures (k in Exec(s, acts).receipts && Exec(s, acts).receipts[k].state == Processed) <==>
            (k in s.receipts && s.receipts[k].state == Processed) || Completions(s, acts, k) == 1
    ensures ClosedIn(s, k) ==> Completions(s, acts, k) == 0
    decreases |acts|
  {
    if acts != [] {
      StepKeepsReceiptsWellFormed(s, acts[0]);
      AtMostOneCompletion(After(s, acts[0]), acts[1..], k);
      if ClosedIn(s, k) {
        ClosedReceiptsNeverChange(s, [acts[0]], k, 0);
        assert [acts[0]][1..] == [];
        assert Exec(s, [acts[0]]) == After(s, acts[0]);
      }
    }
  }

  // ----- Fencing -----

  predicate CallOn(a: Action, k: Key, owner: Option<Token>) {
    match a
    case MarkProcessed(j, o) => j == k && o == owner
    case MoveToDeadLetter(j, o) => j == k && o == owner
    case _ => false
  }

  /** At most one live lease at a time: until the lease of `t` runs out, only `t` itself, or a caller that
      passes no owner, can change the receipt; every other claim is turned away. */
  lemma {:induction false} LeaseIsExclusive(s: Store, acts: seq<Action>, k: Key, t: Token, leaseMs: int)
    requires Inv(s) && Completable(s, k, Some(t))
    requires forall a | a in acts :: !CallOn(a, k, Some(t)) && !CallOn(a, k, None)
    requires Exec(s, acts).now < s.receipts[k].expiresAt.value
    ensures k in Exec(s, acts).receipts && Exec(s, acts).receipts[k] == s.receipts[k]
    ensures Answer(Exec(s, acts), k, leaseMs) == AlreadyProcessing
    decreases |acts|
  {
    assert ReceiptInv(s.receipts[k], s.nextToken);
    if acts != [] {
      ClockNeverGoesBack(After(s, acts[0]), acts[1..]);
      StepKeepsReceiptsWellFormed(s, acts[0]);
      assert acts[0] in acts;
      LeaseIsExclusive(After(s, acts[0]), acts[1..], k, t, leaseMs);
    }
  }

  lemma {:induction false} ClockNeverGoesBack(s: Store, acts: seq<Action>)
    ensures s.now <= Exec(s, acts).now
    decreases |acts|
  {
    if acts != [] { ClockNeverGoesBack(After(s, acts[0]), acts[1..]); }
  }

  /** A re-claimed or closed receipt is out of its former owner's reach for ever. */
  lemma {:induction false} LostReceiptNeverWritten(s: Store, acts: seq<Action>, k: Key, t: Token, call: Action)
    requires Inv(s) && t < s.nextToken && !OwnedProcessing(s, k, Some(t))
    requires CallOn(call, k, Some(t))
    ensures !OwnedProcessing(Exec(s, acts), k, Some(t))
    ensures After(Exec(s, acts), call) == Exec(s, acts)
    decreases |acts|
  {
    if acts != [] {
      StepKeepsReceiptsWellFormed(s, acts[0]);
      LostReceiptNeverWritten(After(s, acts[0]), acts[1..], k, t, call);
    }
  }

  /** Expiry alone fences completion but not dead-lettering: an owner whose lease ran out and whose receipt
      nobody re-claimed can no longer complete it, yet may still dead-letter it. */
  lemma ExpiredOwnerMayOnlyDeadLetter(s: Store, k: Key, t: Token)
    requires Inv(s) && OwnedProcessing(s, k, Some(t)) && LeaseLapsed(s.receipts[k], s.now)
    ensures After(s, MarkProcessed(k, Some(t))) == s
    ensures After(s, MoveToDeadLetter(k, Some(t))).receipts[k].state == DeadLettered
  {
  }

  /** A dead-lettered event is let in again and again, and always in vain: at any later time its delivery is
      granted, with no owner, and no completion by that delivery can succeed whatever happens meanwhile. */
  lemma {:induction false} DeadLetteredIsLetInInVain(s: Store, acts: seq<Action>, others: seq<Action>, k: Key,
                                                     leaseMs: int)
    requires Inv(s) && k in s.receipts && s.receipts[k].state == DeadLettered
    ensures var later := Exec(s, acts);
            && Answer(later, k, leaseMs) == Granted(s.receipts[k]) && s.receipts[k].owner.None?
            && !OwnedProcessing(Exec(After(later, Claim(k, leaseMs)), others), k, None)
  {
    ClosedReceiptsNeverChange(s, acts, k, leaseMs);
    RunsKeepReceiptsWellFormed(s, acts);
    assert ReceiptInv(s.receipts[k], s.nextToken);
    var later := Exec(s, acts);
    StepKeepsReceiptsWellFormed(later, Claim(k, leaseMs));
    ClosedReceiptsNeverChange(After(later, Claim(k, leaseMs)), others, k, leaseMs);
  }

  // ----- The repository methods -----

  class InboxRepository {
    var now: int
    var nextToken: Token
    var receipts: map<Key, Receipt>
    var deadLetters: seq<Key>

    function Database(): Store
      reads this
    {
      Store(now, nextToken, receipts, deadLetters)
    }

    constructor (start: int)
      ensures Database() == Empty(start)
    {
      now, nextToken, receipts, deadLetters := start, 0, map[], [];
    }

    method Interleave(acts: seq<Action>)
      modifies this
      ensures Database() == Exec(old(Database()), acts)
    {
      var s := Exec(Database(), acts);
      now, nextToken, receipts, deadLetters := s.now, s.nextToken, s.receipts, s.deadLetters;
    }

    method ClaimInbox(k: Key, leaseMs: int) returns (answer: ClaimAnswer)
      modifies this
      ensures answer == Answer(old(Database()), k, leaseMs)
      ensures Database() == After(old(Database()), Claim(k, leaseMs))
    {
      answer := Answer(Database(), k, leaseMs);
      receipts := receipts[k := Upserted(Database(), k, leaseMs)];
      nextToken := nextToken + 1;
    }

    method MarkInboxProcessed(k: Key, owner: Option<Token>) returns (ok: bool)
      modifies this
      ensures ok == Completable(old(Database()), k, owner)
      ensures Database() == After(old(Database()), MarkProcessed(k, owner))
    {
      ok := Completable(Database(), k, owner);
      if ok { receipts := receipts[k := Closed(receipts[k], Processed)]; }
    }

    method MoveInboxToDeadLetter(k: Key, owner: Option<Token>) returns (ok: bool)
      modifies this
      ensures ok == OwnedProcessing(old(Database()), k, owner)
      ensures Database() == After(old(Database()), MoveToDeadLetter(k, owner))
    {
      ok := OwnedProcessing(Database(), k, owner);
      if ok {
        receipts := receipts[k := Closed(receipts[k], DeadLettered)];
        deadLetters := deadLetters + [k];
      }
    }
  }
}
