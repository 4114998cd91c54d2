/** `transaction` of the in-memory repository in backend/organization-mapping/repository.js: the tables are copied when
    it begins and put back when anything raises an error. It holds no lock, so any number of transactions, and edits
    outside of them, overlap at every `await`.

    `Service` is what runs inside: the checks, the write that decides the numbering, and the writes that follow. */
module MemoryTransactions {
  type CallId = nat

  datatype Verdict<R> = Replay | Refuse | Proceed(row: R)

  /** `writes` is how many writes follow the one that decides the numbering, and `write` makes one of them. `T` are the
      tables, `E` edits outside any transaction, `Q` requests, `R` checked rows, `S` saved ones. */
  datatype Service<!T, !E, !Q, !R, !S> = Service(
    edit: (T, E) -> T,
    known: (T, Q) -> bool,
    check: (T, Q) -> Verdict<R>,
    save: (T, R) -> (T, S),
    writes: nat,
    write: (T, Q, S, nat) -> T)

  datatype Stage<R, S> = Begun | Passed(row: R) | Stored(saved: S, written: nat)

  /** A transaction in flight, with the copy it would put back. */
  datatype Call<T, Q, R, S> = Call(request: Q, copy: T, stage: Stage<R, S>)

  datatype Store<T, Q, R, S> = Store(tables: T, calls: map<CallId, Call<T, Q, R, S>>)

  datatype Action<E, Q> =
    | Edit(edit: E)
    | Begin(call: CallId, request: Q)
    | Check(call: CallId)
    | Save(call: CallId)
    | Write(call: CallId)
    | Fail(call: CallId)

  function Ended<T, Q, R, S>(s: Store<T, Q, R, S>, c: CallId, tables: T): Store<T, Q, R, S> {
    Store(tables, s.calls - {c})
  }

  function Staged<T, Q, R, S>(s: Store<T, Q, R, S>, c: CallId, tables: T, stage: Stage<R, S>): Store<T, Q, R, S>
    requires c in s.calls
  {
    Store(tables, s.calls[c := s.calls[c].(stage := stage)])
  }

  /** The locked replay, the checks, or the error that rolls back. */
  function Checked<T, E, Q, R, S>(v: Service<T, E, Q, R, S>, s: Store<T, Q, R, S>, c: CallId): Store<T, Q, R, S>
    requires c in s.calls
  {
    match v.check(s.tables, s.calls[c].request)
    case Replay => Ended(s, c, s.tables)
    case Refuse => Ended(s, c, s.calls[c].copy)
    case Proceed(row) => Staged(s, c, s.tables, Passed(row))
  }

  /** One more of the writes that follow; the last one ends the call. */
  function Followed<T, E, Q, R, S>(v: Service<T, E, Q, R, S>, s: Store<T, Q, R, S>, c: CallId): Store<T, Q, R, S>
    requires c in s.calls && s.calls[c].stage.Stored?
  {
    var stage := s.calls[c].stage;
    var tables := v.write(s.tables, s.calls[c].request, stage.saved, stage.written);
    if stage.written + 1 >= v.writes then Ended(s, c, tables)
       else Staged(s, c, tables, Stored(stage.saved, stage.written + 1))
  }

  function After<T, E, Q, R, S>(v: Service<T, E, Q, R, S>, s: Store<T, Q, R, S>, a: Action<E, Q>): Store<T, Q, R, S> {
    match a
    case Edit(e) => s.(tables := v.edit(s.tables, e))
    case Begin(c, q) =>
      if c in s.calls || v.known(s.tables, q) then s else s.(calls := s.calls[c := Call(q, s.tables, Begun)])
    case Check(c) => if c in s.calls && s.calls[c].stage.Begun? then Checked(v, s, c) else s
    case Save(c) =>
      if c in s.calls && s.calls[c].stage.Passed? then
        var (tables, saved) := v.save(s.tables, s.calls[c].stage.row);
        Staged(s, c, tables, Stored(saved, 0))
      else s
    case Write(c) => if c in s.calls && s.calls[c].stage.Stored? then Followed(v, s, c) else s
    case Fail(c) => if c in s.calls then Ended(s, c, s.calls[c].copy) else s
  }

  function Exec<T, E, Q, R, S>(v: Service<T, E, Q, R, S>, s: Store<T, Q, R, S>, acts: seq<Action<E, Q>>)
    : Store<T, Q, R, S>
    decreases |acts|
  {
    if acts == [] then s else Exec(v, After(v, s, acts[0]), acts[1..])
  }

  lemma {:induction false} ExecJoins<T, E, Q, R, S>(v: Service<T, E, Q, R, S>, s: Store<T, Q, R, S>,
                                                    first: seq<Action<E, Q>>, second: seq<Action<E, Q>>)
    ensures Exec(v, s, first + second) == Exec(v, Exec(v, s, first), second)
    decreases |first|
  {
    if first == [] {
      assert first + second == second;
    } else {
      assert (first + second)[1..] == first[1..] + second;
      ExecJoins(v, After(v, s, first[0]), first[1..], second);
    }
  }

  lemma ExecOne<T, E, Q, R, S>(v: Service<T, E, Q, R, S>, s: Store<T, Q, R, S>, acts: seq<Action<E, Q>>,
                               a: Action<E, Q>)
    ensures Exec(v, s, acts + [a]) == After(v, Exec(v, s, acts), a)
  {
    ExecJoins(v, s, acts, [a]);
    assert [a][1..] == [];
  }

  lemma ExecPrefixed<T, E, Q, R, S>(v: Service<T, E, Q, R, S>, s: Store<T, Q, R, S>, first: Action<E, Q>,
                                    acts: seq<Action<E, Q>>, last: Action<E, Q>)
    ensures Exec(v, s, [first] + acts + [last]) == After(v, Exec(v, After(v, s, first), acts), last)
  {
    ExecOne(v, s, [first] + acts, last);
    assert ([first] + acts)[1..] == acts;
  }

  /** Steps of everybody but call `c`. */
  predicate Apart<E, Q>(acts: seq<Action<E, Q>>, c: CallId) {
    forall i | 0 <= i < |acts| :: acts[i].Edit? || acts[i].call != c
  }

  lemma {:induction false} OwnCallStays<T, E, Q, R, S>(v: Service<T, E, Q, R, S>, s: Store<T, Q, R, S>,
                                                       acts: seq<Action<E, Q>>, c: CallId)
    requires Apart(acts, c)
    ensures (c in Exec(v, s, acts).calls) == (c in s.calls)
    ensures c in s.calls ==> Exec(v, s, acts).calls[c] == s.calls[c]
    decreases |acts|
  {
    if acts != [] {
      OwnCallStays(v, After(v, s, acts[0]), acts[1..], c);
    }
  }

  /** A failure puts back the tables of the moment the transaction began: whatever anybody has written since then,
      inside a transaction or outside, finished or not, is gone. */
  lemma FailureErasesEverythingSince<T, E, Q, R, S>(v: Service<T, E, Q, R, S>, s: Store<T, Q, R, S>,
                                                    acts: seq<Action<E, Q>>, c: CallId, q: Q)
    requires c !in s.calls && !v.known(s.tables, q) && Apart(acts, c)
    ensures Exec(v, s, [Begin(c, q)] + acts + [Fail(c)]).tables == s.tables
  {
    var begun := After(v, s, Begin(c, q));
    OwnCallStays(v, begun, acts, c);
    ExecOne(v, s, [Begin(c, q)] + acts, Fail(c));
    assert ([Begin(c, q)] + acts)[1..] == acts;
    assert Exec(v, s, [Begin(c, q)] + acts) == Exec(v, begun, acts);
  }

  /** No transaction puts its copy back during the run. */
  predicate RollsBack<T, E, Q, R, S>(v: Service<T, E, Q, R, S>, s: Store<T, Q, R, S>, a: Action<E, Q>) {
    || (a.Fail? && a.call in s.calls)
    || (a.Check? && a.call in s.calls && s.calls[a.call].stage.Begun? &&
        v.check(s.tables, s.calls[a.call].request).Refuse?)
  }

  predicate NoRollback<T, E, Q, R, S>(v: Service<T, E, Q, R, S>, s: Store<T, Q, R, S>, acts: seq<Action<E, Q>>)
    decreases |acts|
  {
    acts == [] || (!RollsBack(v, s, acts[0]) && NoRollback(v, After(v, s, acts[0]), acts[1..]))
  }

  /** Call `c` is about to save `row`. */
  predicate MaySave<T, Q, R, S>(s: Store<T, Q, R, S>, c: CallId) {
    c in s.calls && s.calls[c].stage.Passed?
  }
}
