/** The fixed-window rate limiter of backend/middleware/securityPolicies.js. The store counts per window; what the
    profiles promise is a rate, so the question is what a per-window counter says about an arbitrary interval. */
module RateLimiter {
  type Key = string

  datatype Profile = Profile(windowMs: nat, max: nat)

  /** A key digests the profile name together with the caller, so it determines the profile. */
  type Profiles = Key -> Profile

  datatype Bucket = Bucket(count: nat, resetAt: int)

  type Buckets = map<Key, Bucket>

  datatype Request = Request(key: Key, at: int)

  predicate InWindow(buckets: Buckets, key: Key, now: int) {
    key in buckets && buckets[key].resetAt > now
  }

  function Incremented(buckets: Buckets, key: Key, windowMs: nat, now: int): Buckets {
    buckets[key := if InWindow(buckets, key, now) then Bucket(buckets[key].count + 1, buckets[key].resetAt)
                   else Bucket(1, now + windowMs)]
  }

  /** The buckets after a trace of requests. */
  function Served(profiles: Profiles, trace: seq<Request>): Buckets {
    if trace == [] then map[]
    else
      var last := trace[|trace| - 1];
      Incremented(Served(profiles, trace[..|trace| - 1]), last.key, profiles(last.key).windowMs, last.at)
  }

  lemma LastIsCounted(profiles: Profiles, trace: seq<Request>)
    requires trace != []
    ensures trace[|trace| - 1].key in Served(profiles, trace)
  {
  }

  /** Whether the last request of the trace is let through: its count does not exceed the maximum. */
  predicate LastAdmitted(profiles: Profiles, trace: seq<Request>)
    requires trace != []
  {
    LastIsCounted(profiles, trace);
    Served(profiles, trace)[trace[|trace| - 1].key].count <= profiles(trace[|trace| - 1].key).max
  }

  /** How many requests of `key` in `from <= at < to` were let through. */
  function Admitted(profiles: Profiles, trace: seq<Request>, key: Key, from: int, to: int): nat {
    if trace == [] then 0
    else
      var last := trace[|trace| - 1];
      Admitted(profiles, trace[..|trace| - 1], key, from, to) +
      if last.key == key && from <= last.at < to && LastAdmitted(profiles, trace) then 1 else 0
  }

  /** The clock never runs backwards. */
  predicate Chronological(trace: seq<Request>) {
    forall i, j | 0 <= i < j < |trace| :: trace[i].at <= trace[j].at
  }

  predicate NoLaterThan(trace: seq<Request>, time: int) {
    forall i | 0 <= i < |trace| :: trace[i].at <= time
  }

  function Min(a: nat, b: nat): nat {
    if a < b then a else b
  }

  lemma {:induction false} LaterStartAdmitsFewer(profiles: Profiles, trace: seq<Request>, key: Key, from: int,
                                                 later: int, to: int)
    requires from <= later
    ensures Admitted(profiles, trace, key, later, to) <= Admitted(profiles, trace, key, from, to)
    decreases |trace|
  {
    if trace != [] {
      LaterStartAdmitsFewer(profiles, trace[..|trace| - 1], key, from, later, to);
    }
  }

  ghost predicate KeyOnlyBefore(trace: seq<Request>, key: Key, time: int) {
    forall i | 0 <= i < |trace| && trace[i].key == key :: trace[i].at < time
  }

  lemma {:induction false} NothingAdmittedAfterwards(profiles: Profiles, trace: seq<Request>, key: Key, from: int,
                                                     to: int)
    requires KeyOnlyBefore(trace, key, from)
    ensures Admitted(profiles, trace, key, from, to) == 0
    decreases |trace|
  {
    if trace != [] {
      NothingAdmittedAfterwards(profiles, trace[..|trace| - 1], key, from, to);
    }
  }

  function Start(profiles: Profiles, trace: seq<Request>, key: Key): int
    requires key in Served(profiles, trace)
  {
    Served(profiles, trace)[key].resetAt - profiles(key).windowMs
  }

  /** What the current window of a key says about the requests let through: from its start on, exactly as many as
      were counted, up to the maximum; the first of them came at the start itself; and less than a window length
      further back only the previous window can add to them. */
  ghost predicate WindowBounds(profiles: Profiles, trace: seq<Request>, key: Key, to: int)
    requires key in Served(profiles, trace)
  {
    var count := Served(profiles, trace)[key].count;
    var p := profiles(key);
    var start := Start(profiles, trace, key);
    && count >= 1
    && Admitted(profiles, trace, key, start, to) == Min(count, p.max)
    && (p.max >= 1 ==> Admitted(profiles, trace, key, start + 1, to) < Min(count, p.max))
    && (p.max >= 1 ==> Admitted(profiles, trace, key, start - p.windowMs + 1, to) < p.max + Min(count, p.max))
    && (p.max == 0 ==> Admitted(profiles, trace, key, start - p.windowMs + 1, to) == 0)
  }

  ghost predicate WindowInv(profiles: Profiles, trace: seq<Request>, key: Key, to: int) {
    if key in Served(profiles, trace) then
      && WindowBounds(profiles, trace, key, to)
      && KeyOnlyBefore(trace, key, Served(profiles, trace)[key].resetAt)
      && trace != [] && Start(profiles, trace, key) <= trace[|trace| - 1].at
    else forall i | 0 <= i < |trace| :: trace[i].key != key
  }

  lemma OtherKeysDoNotMatter(profiles: Profiles, trace: seq<Request>, key: Key, to: int)
    requires trace != [] && Chronological(trace) && trace[|trace| - 1].key != key
    requires WindowInv(profiles, trace[..|trace| - 1], key, to)
    ensures WindowInv(profiles, trace, key, to)
  {
    var before := trace[..|trace| - 1];
    assert key in Served(profiles, trace) <==> key in Served(profiles, before);
    if key in Served(profiles, before) {
      assert Start(profiles, trace, key) == Start(profiles, before, key);
      assert before[|before| - 1].at <= trace[|trace| - 1].at;
      assert WindowBounds(profiles, trace, key, to);
    }
  }

  lemma SameWindow(profiles: Profiles, trace: seq<Request>, key: Key, to: int)
    requires trace != [] && Chronological(trace) && trace[|trace| - 1].key == key && trace[|trace| - 1].at < to
    requires InWindow(Served(profiles, trace[..|trace| - 1]), key, trace[|trace| - 1].at)
    requires WindowInv(profiles, trace[..|trace| - 1], key, to)
    ensures WindowInv(profiles, trace, key, to)
  {
    var before := trace[..|trace| - 1];
    var b := Served(profiles, before)[key];
    assert Served(profiles, trace)[key] == Bucket(b.count + 1, b.resetAt);
    assert LastAdmitted(profiles, trace) <==> b.count + 1 <= profiles(key).max;
    assert before[|before| - 1].at <= trace[|trace| - 1].at;
  }

  /** A new window begins at its first request, no sooner than the previous one ended. */
  lemma NewWindow(profiles: Profiles, trace: seq<Request>, key: Key, to: int)
    requires trace != [] && Chronological(trace) && trace[|trace| - 1].key == key && trace[|trace| - 1].at < to
    requires !InWindow(Served(profiles, trace[..|trace| - 1]), key, trace[|trace| - 1].at)
    requires WindowInv(profiles, trace[..|trace| - 1], key, to) && profiles(key).windowMs > 0
    ensures WindowInv(profiles, trace, key, to)
  {
    var before := trace[..|trace| - 1];
    var now := trace[|trace| - 1].at;
    var p := profiles(key);
    assert Served(profiles, trace)[key] == Bucket(1, now + p.windowMs);
    NothingAdmittedAfterwards(profiles, before, key, now, to);
    LaterStartAdmitsFewer(profiles, before, key, now, now + 1, to);
    if key in Served(profiles, before) {
      LaterStartAdmitsFewer(profiles, before, key, Start(profiles, before, key) + 1, now - p.windowMs + 1, to);
      LaterStartAdmitsFewer(profiles, before, key, Start(profiles, before, key), Start(profiles, before, key) + 1, to);
    } else {
      NothingAdmittedAfterwards(profiles, before, key, now - p.windowMs + 1, to);
    }
  }

  lemma {:induction false} WindowsAreBounded(profiles: Profiles, trace: seq<Request>, key: Key, to: int)
    requires Chronological(trace) && NoLaterThan(trace, to - 1) && profiles(key).windowMs > 0
    ensures WindowInv(profiles, trace, key, to)
    decreases |trace|
  {
    if trace != [] {
      var before := trace[..|trace| - 1];
      WindowsAreBounded(profiles, before, key, to);
      if trace[|trace| - 1].key != key {
        OtherKeysDoNotMatter(profiles, trace, key, to);
      } else if InWindow(Served(profiles, before), key, trace[|trace| - 1].at) {
        SameWindow(profiles, trace, key, to);
      } else {
        NewWindow(profiles, trace, key, to);
      }
    }
  }

  lemma {:induction false} EmptyInterval(profiles: Profiles, trace: seq<Request>, key: Key, from: int)
    ensures Admitted(profiles, trace, key, from, from) == 0
    decreases |trace|
  {
    if trace != [] {
      EmptyInterval(profiles, trace[..|trace| - 1], key, from);
    }
  }

  lemma AllBeforeTheEnd(profiles: Profiles, trace: seq<Request>, key: Key, from: int)
    requires Chronological(trace) && NoLaterThan(trace, from + profiles(key).windowMs - 1) && profiles(key).windowMs > 0
    ensures Admitted(profiles, trace, key, from, from + profiles(key).windowMs) <= if profiles(key).max == 0 then 0
            else 2 * profiles(key).max - 1
  {
    var to := from + profiles(key).windowMs;
    WindowsAreBounded(profiles, trace, key, to);
    if key in Served(profiles, trace) {
      LaterStartAdmitsFewer(profiles, trace, key, Start(profiles, trace, key) - profiles(key).windowMs + 1, from, to);
    } else {
      NothingAdmittedAfterwards(profiles, trace, key, from, to);
    }
  }

  /** In any half-open interval as long as the window, wherever it begins, fewer than twice the maximum number of
      requests of a key are let through. */
  lemma {:induction false} FewerThanTwiceTheMaximum(profiles: Profiles, trace: seq<Request>, key: Key, from: int)
    requires Chronological(trace)
    ensures Admitted(profiles, trace, key, from, from + profiles(key).windowMs) <= if profiles(key).max == 0 then 0
            else 2 * profiles(key).max - 1
    decreases |trace|
  {
    var to := from + profiles(key).windowMs;
    if profiles(key).windowMs == 0 {
      EmptyInterval(profiles, trace, key, from);
    } else if trace != [] && trace[|trace| - 1].at >= to {
      FewerThanTwiceTheMaximum(profiles, trace[..|trace| - 1], key, from);
    } else {
      AllBeforeTheEnd(profiles, trace, key, from);
    }
  }

  lemma {:induction false} EndDoesNotMatter(profiles: Profiles, trace: seq<Request>, key: Key, from: int, to: int,
                                            end: int)
    requires KeyOnlyBefore(trace, key, to) && to <= end
    ensures Admitted(profiles, trace, key, from, to) == Admitted(profiles, trace, key, from, end)
    decreases |trace|
  {
    if trace != [] {
      EndDoesNotMatter(profiles, trace[..|trace| - 1], key, from, to, end);
    }
  }

  /** A window lets through exactly what it counts, up to the maximum. */
  lemma WindowAdmitsUpToTheMaximum(profiles: Profiles, trace: seq<Request>, key: Key)
    requires Chronological(trace) && profiles(key).windowMs > 0 && key in Served(profiles, trace)
    ensures Admitted(profiles, trace, key, Start(profiles, trace, key), Served(profiles, trace)[key].resetAt) ==
            Min(Served(profiles, trace)[key].count, profiles(key).max)
  {
    var resetAt := Served(profiles, trace)[key].resetAt;
    var last := trace[|trace| - 1].at;
    var end := if last < resetAt then resetAt else last + 1;
    WindowsAreBounded(profiles, trace, key, end);
    EndDoesNotMatter(profiles, trace, key, Start(profiles, trace, key), resetAt, end);
  }

  // ----- The bound is reached -----

  function Burst(trace: seq<Request>, key: Key, at: int, n: nat): seq<Request> {
    if n == 0 then trace else Burst(trace, key, at, n - 1) + [Request(key, at)]
  }

  lemma {:induction false} BurstInOrder(trace: seq<Request>, key: Key, at: int, n: nat)
    requires Chronological(trace) && NoLaterThan(trace, at)
    ensures Chronological(Burst(trace, key, at, n)) && NoLaterThan(Burst(trace, key, at, n), at)
    decreases n
  {
    if n > 0 {
      BurstInOrder(trace, key, at, n - 1);
    }
  }

  /** Where a key stands: its bucket, and how many of its requests in an interval were let through. */
  predicate Tally(profiles: Profiles, trace: seq<Request>, key: Key, from: int, to: int, bucket: Bucket,
                  admitted: nat) {
    && key in Served(profiles, trace) && Served(profiles, trace)[key] == bucket
    && Admitted(profiles, trace, key, from, to) == admitted
  }

  lemma OneMore(profiles: Profiles, trace: seq<Request>, r: Request)
    ensures Served(profiles, trace + [r]) == Incremented(Served(profiles, trace), r.key, profiles(r.key).windowMs, r.at)
    ensures LastAdmitted(profiles, trace + [r]) <==> Served(profiles, trace + [r])[r.key].count <= profiles(r.key).max
  {
    var all := trace + [r];
    assert all[..|all| - 1] == trace && all[|all| - 1] == r;
  }

  lemma OneMoreTally(profiles: Profiles, trace: seq<Request>, key: Key, at: int, from: int, to: int, bucket: Bucket,
                     n: nat)
    requires Tally(profiles, trace, key, from, to, bucket, n)
    requires from <= at < to && at < bucket.resetAt && bucket.count < profiles(key).max
    ensures Tally(profiles, trace + [Request(key, at)], key, from, to, Bucket(bucket.count + 1, bucket.resetAt), n + 1)
  {
    var all := trace + [Request(key, at)];
    OneMore(profiles, trace, Request(key, at));
    assert all[..|all| - 1] == trace && all[|all| - 1] == Request(key, at);
  }

  lemma {:induction false} BurstTally(profiles: Profiles, trace: seq<Request>, key: Key, at: int, n: nat, from: int,
                                      to: int, bucket: Bucket, m: nat)
    requires Tally(profiles, trace, key, from, to, bucket, m)
    requires from <= at < to && at < bucket.resetAt && bucket.count + n <= profiles(key).max
    ensures Tally(profiles, Burst(trace, key, at, n), key, from, to, Bucket(bucket.count + n, bucket.resetAt), m + n)
    decreases n
  {
    if n > 0 {
      BurstTally(profiles, trace, key, at, n - 1, from, to, bucket, m);
      OneMoreTally(profiles, Burst(trace, key, at, n - 1), key, at, from, to,
                   Bucket(bucket.count + (n - 1), bucket.resetAt), m + (n - 1));
    }
  }

  lemma FirstTally(profiles: Profiles, trace: seq<Request>, key: Key, at: int, from: int, to: int)
    requires !InWindow(Served(profiles, trace), key, at)
    requires profiles(key).max >= 1 && at < to
    ensures Tally(profiles, trace + [Request(key, at)], key, from, to, Bucket(1, at + profiles(key).windowMs),
                  Admitted(profiles, trace, key, from, to) + if from <= at then 1 else 0)
  {
    var all := trace + [Request(key, at)];
    OneMore(profiles, trace, Request(key, at));
    assert all[..|all| - 1] == trace && all[|all| - 1] == Request(key, at);
  }

  /** One request, then the rest of the maximum at the end of the window, then the maximum as the next one opens. */
  function FirstWindow(profile: Profile, key: Key): seq<Request>
    requires profile.max >= 1
  {
    Burst([Request(key, 0)], key, profile.windowMs - 1, profile.max - 1)
  }

  function WorstTrace(profile: Profile, key: Key): seq<Request>
    requires profile.max >= 1
  {
    Burst(FirstWindow(profile, key) + [Request(key, profile.windowMs)], key, profile.windowMs, profile.max - 1)
  }

  lemma FirstWindowTally(profiles: Profiles, key: Key)
    requires profiles(key).max >= 1 && profiles(key).windowMs >= 2
    ensures Tally(profiles, FirstWindow(profiles(key), key), key, profiles(key).windowMs - 1,
                  2 * profiles(key).windowMs - 1,
                  Bucket(profiles(key).max, profiles(key).windowMs), profiles(key).max - 1)
  {
    var w := profiles(key).windowMs;
    FirstTally(profiles, [], key, 0, w - 1, 2 * w - 1);
    assert [] + [Request(key, 0)] == [Request(key, 0)];
    BurstTally(profiles, [Request(key, 0)], key, w - 1, profiles(key).max - 1, w - 1, 2 * w - 1, Bucket(1, w), 0);
  }

  lemma WorstTraceInOrder(p: Profile, key: Key)
    requires p.max >= 1 && p.windowMs >= 2
    ensures Chronological(WorstTrace(p, key))
  {
    BurstInOrder([Request(key, 0)], key, p.windowMs - 1, p.max - 1);
    BurstInOrder(FirstWindow(p, key) + [Request(key, p.windowMs)], key, p.windowMs, p.max - 1);
  }

  lemma WorstTally(profiles: Profiles, key: Key)
    requires profiles(key).max >= 1 && profiles(key).windowMs >= 2
    ensures Tally(profiles, WorstTrace(profiles(key), key), key, profiles(key).windowMs - 1,
                  2 * profiles(key).windowMs - 1,
                  Bucket(profiles(key).max, 2 * profiles(key).windowMs), 2 * profiles(key).max - 1)
  {
    var w := profiles(key).windowMs;
    var max := profiles(key).max;
    var first := FirstWindow(profiles(key), key);
    FirstWindowTally(profiles, key);
    FirstTally(profiles, first, key, w, w - 1, 2 * w - 1);
    BurstTally(profiles, first + [Request(key, w)], key, w, max - 1, w - 1, 2 * w - 1, Bucket(1, 2 * w), max);
  }

  /** No smaller bound holds: for every profile there is a trace that reaches it, within one window length. */
  lemma BoundIsReached(profiles: Profiles, key: Key)
    requires profiles(key).max >= 1 && profiles(key).windowMs >= 2
    ensures Chronological(WorstTrace(profiles(key), key))
    ensures Admitted(profiles, WorstTrace(profiles(key), key), key, profiles(key).windowMs - 1,
                     2 * profiles(key).windowMs - 1) ==
            2 * profiles(key).max - 1
  {
    WorstTraceInOrder(profiles(key), key);
    WorstTally(profiles, key);
  }

  // ----- The store and the middleware -----

  function Without(trace: seq<Request>, key: Key): seq<Request> {
    if trace == [] then []
    else
      var rest := Without(trace[..|trace| - 1], key);
      if trace[|trace| - 1].key == key then rest else rest + [trace[|trace| - 1]]
  }

  lemma WithoutLast(before: seq<Request>, last: Request, key: Key)
    ensures Without(before + [last], key) == if last.key == key then Without(before, key)
            else Without(before, key) + [last]
  {
    assert (before + [last])[..|before|] == before;
  }

  lemma IncrementApart(buckets: Buckets, key: Key, other: Key, windowMs: nat, now: int)
    ensures Incremented(buckets, key, windowMs, now) - {key} == buckets - {key}
    ensures other != key ==>
              Incremented(buckets, other, windowMs, now) - {key} == Incremented(buckets - {key}, other, windowMs, now)
  {
  }

  lemma ResetStep(profiles: Profiles, before: seq<Request>, last: Request, key: Key)
    requires Served(profiles, Without(before, key)) == Served(profiles, before) - {key}
    ensures Served(profiles, Without(before + [last], key)) == Served(profiles, before + [last]) - {key}
  {
    WithoutLast(before, last, key);
    OneMore(profiles, before, last);
    IncrementApart(Served(profiles, before), key, last.key, profiles(last.key).windowMs, last.at);
    if last.key != key {
      OneMore(profiles, Without(before, key), last);
    }
  }

  lemma {:induction false} ResetForgets(profiles: Profiles, trace: seq<Request>, key: Key)
    ensures Served(profiles, Without(trace, key)) == Served(profiles, trace) - {key}
    decreases |trace|
  {
    if trace != [] {
      var n := |trace| - 1;
      ResetForgets(profiles, trace[..n], key);
      ResetStep(profiles, trace[..n], trace[n], key);
      assert trace[..n] + [trace[n]] == trace;
    }
  }

  lemma {:induction false} WithoutStaysInOrder(trace: seq<Request>, key: Key, time: int)
    requires Chronological(trace) && NoLaterThan(trace, time)
    ensures Chronological(Without(trace, key)) && NoLaterThan(Without(trace, key), time)
    decreases |trace|
  {
    if trace != [] {
      WithoutStaysInOrder(trace[..|trace| - 1], key, trace[|trace| - 1].at);
    }
  }

  class RateLimit {
    const profiles: Profiles
    var buckets: Buckets
    var clock: int
    ghost var trace: seq<Request>

    ghost predicate Valid()
      reads this
    {
      buckets == Served(profiles, trace) && Chronological(trace) && NoLaterThan(trace, clock)
    }

    constructor (profiles: Profiles, clock: int)
      ensures Valid() && trace == [] && this.profiles == profiles && this.clock == clock
    {
      this.profiles := profiles;
      this.clock := clock;
      buckets := map[];
      trace := [];
    }

    method Wait(elapsed: nat)
      requires Valid()
      modifies this`clock
      ensures Valid() && clock == old(clock) + elapsed
    {
      clock := clock + elapsed;
    }

    method Increment(key: Key, windowMs: nat) returns (count: nat, resetAt: int)
      modifies this`buckets
      ensures buckets == Incremented(old(buckets), key, windowMs, clock)
      ensures Bucket(count, resetAt) == buckets[key]
    {
      if key !in buckets || buckets[key].resetAt <= clock {
        count, resetAt := 1, clock + windowMs;
      } else {
        count, resetAt := buckets[key].count + 1, buckets[key].resetAt;
      }
      buckets := buckets[key := Bucket(count, resetAt)];
    }

    method Reset(key: Key)
      requires Valid()
      modifies this`buckets, this`trace
      ensures Valid() && trace == Without(old(trace), key) && buckets == old(buckets) - {key}
    {
      ResetForgets(profiles, trace, key);
      WithoutStaysInOrder(trace, key, clock);
      buckets := buckets - {key};
      trace := Without(trace, key);
    }

    /** The middleware: `next()` when the count is within the maximum, status 429 otherwise. Including this
        request, the caller's last window length has seen fewer than twice the maximum. */
    method Handle(key: Key) returns (admitted: bool, remaining: nat)
      requires Valid()
      modifies this`buckets, this`trace
      ensures Valid() && trace == old(trace) + [Request(key, clock)]
      ensures admitted == LastAdmitted(profiles, trace)
      ensures admitted ==>
                Admitted(profiles, trace, key, clock - profiles(key).windowMs + 1, clock + 1) + 1 <=
                2 * profiles(key).max
      ensures remaining > 0 ==> admitted
    {
      var p := profiles(key);
      var count, resetAt := Increment(key, p.windowMs);
      OneMore(profiles, trace, Request(key, clock));
      trace := trace + [Request(key, clock)];
      remaining := if p.max > count then p.max - count else 0;
      admitted := count <= p.max;
      FewerThanTwiceTheMaximum(profiles, trace, key, clock - p.windowMs + 1);
    }
  }
}
