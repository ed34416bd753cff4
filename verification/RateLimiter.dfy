/**
 The rate limiter of `src/middleware/ratelimit.cpp`: buckets with a count and the time they
 were opened, swept lazily when there are many. Times are ticks of the steady clock and a
 parameter of each call.
 */
module RateLimiter {

  datatype Bucket = Bucket(count: int, since: int)

  type Buckets = map<string, Bucket>

  /** The configuration. */
  datatype Limits = Limits(max: int, window: int)

  const SWEEP_ABOVE := 1024

  predicate Expired(b: Bucket, now: int, l: Limits) {
    now - b.since >= l.window
  }

  function Swept(buckets: Buckets, now: int, l: Limits): Buckets {
    map key | key in buckets && !Expired(buckets[key], now, l) :: buckets[key]
  }

  /** A call opens a new bucket. */
  predicate Opens(buckets: Buckets, key: string, now: int, l: Limits) {
    key !in buckets || Expired(buckets[key], now, l)
  }

  predicate Allowed(buckets: Buckets, key: string, now: int, l: Limits) {
    Opens(buckets, key, now, l) || buckets[key].count < l.max
  }

  /** The buckets after a call, without any sweep. */
  function Counted(buckets: Buckets, key: string, now: int, l: Limits): Buckets {
    if Opens(buckets, key, now, l) then buckets[key := Bucket(1, now)]
    else if buckets[key].count < l.max then buckets[key := buckets[key].(count := buckets[key].count + 1)]
    else buckets
  }

  predicate Sweeps(buckets: Buckets) {
    |buckets| > SWEEP_ABOVE && |buckets| % 64 == 0
  }

  /** The buckets after a call, with the lazy sweep after opening a bucket. */
  function After(buckets: Buckets, key: string, now: int, l: Limits): Buckets {
    var counted := Counted(buckets, key, now, l);
    if Opens(buckets, key, now, l) && Sweeps(counted) then Swept(counted, now, l) else counted
  }

  class Limiter {
    const limits: Limits
    var buckets: Buckets

    constructor (limits: Limits)
      ensures this.limits == limits && buckets == map[]
    {
      this.limits := limits;
      buckets := map[];
    }

    method Allow(key: string, now: int) returns (ok: bool)
      modifies this
      ensures ok == Allowed(old(buckets), key, now, limits)
      ensures buckets == After(old(buckets), key, now, limits)
    {
      if key !in buckets || now - buckets[key].since >= limits.window {
        buckets := buckets[key := Bucket(1, now)];
        if |buckets| > SWEEP_ABOVE && |buckets| % 64 == 0 {
          Sweep(now);
        }
        return true;
      }
      if buckets[key].count < limits.max {
        buckets := buckets[key := buckets[key].(count := buckets[key].count + 1)];
        return true;
      }
      return false;
    }

    /** Visits every bucket once and erases those whose window has passed. */
    method Sweep(now: int)
      modifies this
      ensures buckets == Swept(old(buckets), now, limits)
    {
      var todo := buckets.Keys;
      while todo != {}
        invariant todo <= old(buckets).Keys && buckets.Keys <= old(buckets).Keys
        invariant forall key :: key in buckets ==> buckets[key] == old(buckets)[key]
        invariant forall key :: key in todo ==> key in buckets
        invariant forall key :: key in old(buckets) && key !in todo ==>
                    (key in buckets <==> !Expired(old(buckets)[key], now, limits))
        decreases |todo|
      {
        var key :| key in todo;
        todo := todo - {key};
        if now - buckets[key].since >= limits.window {
          buckets := buckets - {key};
        }
      }
      assert buckets.Keys == Swept(old(buckets), now, limits).Keys;
    }

    method Reset()
      modifies this
      ensures buckets == map[]
    {
      buckets := map[];
    }
  }

  // ---- Call sequences ---------------------------------------------------------

  datatype Call = Call(key: string, now: int)

  /** The clock does not go back, and has not before `from`. */
  predicate InOrder(calls: seq<Call>, from: int) {
    calls == [] || (from <= calls[0].now && InOrder(calls[1..], calls[0].now))
  }

  /** What the limiter answers to a sequence of calls. */
  function Answers(buckets: Buckets, calls: seq<Call>, l: Limits): seq<bool>
    decreases |calls|
  {
    if calls == [] then []
    else [Allowed(buckets, calls[0].key, calls[0].now, l)]
         + Answers(After(buckets, calls[0].key, calls[0].now, l), calls[1..], l)
  }

  /** The same for a limiter that keeps every bucket for ever. */
  function AnswersKeepingAll(buckets: Buckets, calls: seq<Call>, l: Limits): seq<bool>
    decreases |calls|
  {
    if calls == [] then []
    else [Allowed(buckets, calls[0].key, calls[0].now, l)]
         + AnswersKeepingAll(Counted(buckets, calls[0].key, calls[0].now, l), calls[1..], l)
  }

  // ---- Sweeping is not observable ---------------------------------------------

  /** Equal up to buckets that have expired. */
  ghost predicate Agree(swept: Buckets, all: Buckets, now: int, l: Limits) {
    && (forall key :: key in swept ==> key in all && swept[key] == all[key])
    && (forall key :: key in all && key !in swept ==> Expired(all[key], now, l))
  }

  lemma CallAgrees(swept: Buckets, all: Buckets, key: string, now: int, l: Limits)
    requires Agree(swept, all, now, l)
    ensures Allowed(swept, key, now, l) == Allowed(all, key, now, l)
    ensures Agree(After(swept, key, now, l), Counted(all, key, now, l), now, l)
  {
    assert Opens(swept, key, now, l) == Opens(all, key, now, l);
    assert Agree(Counted(swept, key, now, l), Counted(all, key, now, l), now, l);
  }

  lemma {:induction false} AnswersAgree(swept: Buckets, all: Buckets, calls: seq<Call>, from: int, l: Limits)
    requires Agree(swept, all, from, l) && InOrder(calls, from)
    ensures Answers(swept, calls, l) == AnswersKeepingAll(all, calls, l)
    decreases |calls|
  {
    if calls != [] {
      var Call(key, now) := calls[0];
      assert Agree(swept, all, now, l);
      CallAgrees(swept, all, key, now, l);
      AnswersAgree(After(swept, key, now, l), Counted(all, key, now, l), calls[1..], now, l);
    }
  }

  /** From any state on, the lazy sweep changes no answer. */
  lemma SweepingIsInvisible(buckets: Buckets, calls: seq<Call>, from: int, l: Limits)
    requires InOrder(calls, from)
    ensures Answers(buckets, calls, l) == AnswersKeepingAll(buckets, calls, l)
  {
    AnswersAgree(buckets, buckets, calls, from, l);
  }

  // ---- The limit --------------------------------------------------------------

  /** Calls for the key that were allowed at a time in [lo, lo + window). */
  function Count(calls: seq<Call>, answers: seq<bool>, key: string, lo: int, window: int): nat
    requires |answers| == |calls|
  {
    if calls == [] then 0
    else (if answers[0] && calls[0].key == key && lo <= calls[0].now < lo + window then 1 else 0)
         + Count(calls[1..], answers[1..], key, lo, window)
  }

  lemma {:induction false} AnswersLength(buckets: Buckets, calls: seq<Call>, l: Limits)
    ensures |Answers(buckets, calls, l)| == |calls| && |AnswersKeepingAll(buckets, calls, l)| == |calls|
    decreases |calls|
  {
    if calls != [] {
      AnswersLength(After(buckets, calls[0].key, calls[0].now, l), calls[1..], l);
      AnswersLength(Counted(buckets, calls[0].key, calls[0].now, l), calls[1..], l);
    }
  }

  /** A first call is always allowed, even if the limit is not positive. */
  function PerBucket(l: Limits): nat {
    if l.max < 1 then 1 else l.max
  }

  /** How many more calls in [lo, lo + window) can still be allowed for the key. */
  function Left(buckets: Buckets, key: string, lo: int, l: Limits): int {
    var most := PerBucket(l);
    if key !in buckets then 2 * most - 1
    else
      var b := buckets[key];
      if b.since + l.window < lo then 2 * most - 1
      else if b.since < lo then 2 * most - b.count
      else if b.since < lo + l.window then most - b.count
      else 0
  }

  predicate BucketOk(buckets: Buckets, key: string, now: int, l: Limits) {
    key in buckets ==> 1 <= buckets[key].count <= PerBucket(l) && buckets[key].since <= now
  }

  lemma CallUsesUp(buckets: Buckets, call: Call, key: string, from: int, lo: int, l: Limits)
    requires l.window > 0 && BucketOk(buckets, key, from, l) && from <= call.now
    ensures var next := Counted(buckets, call.key, call.now, l);
            var used := if Allowed(buckets, call.key, call.now, l) && call.key == key && lo <= call.now < lo + l.window
                        then 1 else 0;
            BucketOk(next, key, call.now, l) && used + Left(next, key, lo, l) <= Left(buckets, key, lo, l)
  {
  }

  lemma {:induction false} CountIsLeft(buckets: Buckets, calls: seq<Call>, key: string, from: int, lo: int, l: Limits)
    requires l.window > 0 && BucketOk(buckets, key, from, l) && InOrder(calls, from)
    ensures |AnswersKeepingAll(buckets, calls, l)| == |calls|
    ensures Count(calls, AnswersKeepingAll(buckets, calls, l), key, lo, l.window) <= Left(buckets, key, lo, l)
    decreases |calls|
  {
    AnswersLength(buckets, calls, l);
    if calls != [] {
      var next := Counted(buckets, calls[0].key, calls[0].now, l);
      CallUsesUp(buckets, calls[0], key, from, lo, l);
      CountIsLeft(next, calls[1..], key, calls[0].now, lo, l);
      assert AnswersKeepingAll(buckets, calls, l)[1..] == AnswersKeepingAll(next, calls[1..], l);
    } else {
      assert Left(buckets, key, lo, l) >= 0;
    }
  }

  lemma {:induction false} EmptyInterval(calls: seq<Call>, answers: seq<bool>, key: string, lo: int, window: int)
    requires |answers| == |calls| && window <= 0
    ensures Count(calls, answers, key, lo, window) == 0
  {
    if calls != [] {
      EmptyInterval(calls[1..], answers[1..], key, lo, window);
    }
  }

  /** Starting empty, the limiter allows at most 2 * max - 1 calls of a key (one, if max is
      less than 1) in any interval as long as its window. */
  lemma LimitHolds(calls: seq<Call>, key: string, from: int, lo: int, l: Limits)
    requires InOrder(calls, from)
    ensures |Answers(map[], calls, l)| == |calls|
    ensures Count(calls, Answers(map[], calls, l), key, lo, l.window) <= 2 * PerBucket(l) - 1
  {
    AnswersLength(map[], calls, l);
    SweepingIsInvisible(map[], calls, from, l);
    if l.window > 0 {
      CountIsLeft(map[], calls, key, from, lo, l);
    } else {
      EmptyInterval(calls, Answers(map[], calls, l), key, lo, l.window);
    }
  }

  // ---- The limit is reached ---------------------------------------------------

  /** n calls for the key at the same time. */
  function Burst(key: string, now: int, n: nat): seq<Call> {
    if n == 0 then [] else [Call(key, now)] + Burst(key, now, n - 1)
  }

  function Yes(n: nat): seq<bool> {
    if n == 0 then [] else [true] + Yes(n - 1)
  }

  lemma {:induction false} YesBoth(a: nat, b: nat)
    ensures Yes(a) + Yes(b) == Yes(a + b) && |Yes(a)| == a
  {
    if a > 0 {
      YesBoth(a - 1, b);
      assert Yes(a) + Yes(b) == [true] + (Yes(a - 1) + Yes(b));
    } else {
      assert Yes(0) + Yes(b) == Yes(b);
    }
  }

  lemma BurstHead(key: string, now: int, n: nat, rest: seq<Call>)
    requires n > 0
    ensures var calls := Burst(key, now, n) + rest;
            calls[0] == Call(key, now) && calls[1..] == Burst(key, now, n - 1) + rest
  {
  }

  lemma {:induction false} BurstLength(key: string, now: int, n: nat)
    ensures |Burst(key, now, n)| == n
  {
    if n > 0 {
      BurstLength(key, now, n - 1);
    }
  }

  lemma {:induction false} BurstInOrder(key: string, now: int, n: nat, rest: seq<Call>, from: int)
    requires from <= now && InOrder(rest, now)
    ensures InOrder(Burst(key, now, n) + rest, from)
    decreases n
  {
    if n > 0 {
      BurstHead(key, now, n, rest);
      BurstInOrder(key, now, n - 1, rest, now);
    } else {
      assert Burst(key, now, 0) + rest == rest;
      assert rest == [] || InOrder(rest[1..], rest[0].now);
    }
  }

  lemma OneFits(key: string, b: Bucket, now: int, rest: seq<Call>, l: Limits)
    requires !Expired(b, now, l) && b.count < l.max
    ensures Answers(map[key := b], [Call(key, now)] + rest, l)
         == [true] + Answers(map[key := Bucket(b.count + 1, b.since)], rest, l)
  {
    assert ([Call(key, now)] + rest)[1..] == rest;
    assert map[key := b][key := Bucket(b.count + 1, b.since)] == map[key := Bucket(b.count + 1, b.since)];
  }

  /** A burst that an open bucket has room for is allowed. */
  lemma {:induction false} BurstFits(key: string, count: int, since: int, now: int, full: int, rest: seq<Call>, l: Limits)
    requires now - since < l.window && count <= full <= l.max
    ensures Answers(map[key := Bucket(count, since)], Burst(key, now, full - count) + rest, l)
         == Yes(full - count) + Answers(map[key := Bucket(full, since)], rest, l)
    decreases full - count
  {
    var last := Answers(map[key := Bucket(full, since)], rest, l);
    if count < full {
      var more := Burst(key, now, full - (count + 1)) + rest;
      BurstSplits(key, now, full - count, rest);
      OneFits(key, Bucket(count, since), now, more, l);
      BurstFits(key, count + 1, since, now, full, rest, l);
      YesHead(full - count, last);
    } else {
      assert Burst(key, now, 0) + rest == rest && Yes(0) + last == last;
    }
  }

  lemma BurstSplits(key: string, now: int, n: nat, rest: seq<Call>)
    requires n > 0
    ensures Burst(key, now, n) + rest == [Call(key, now)] + (Burst(key, now, n - 1) + rest)
  {
  }

  lemma YesHead(n: nat, rest: seq<bool>)
    requires n > 0
    ensures [true] + (Yes(n - 1) + rest) == Yes(n) + rest
  {
  }

  lemma OpensFirst(buckets: Buckets, key: string, now: int, rest: seq<Call>, l: Limits)
    requires Opens(buckets, key, now, l) && buckets.Keys <= {key}
    ensures Answers(buckets, [Call(key, now)] + rest, l) == [true] + Answers(map[key := Bucket(1, now)], rest, l)
  {
    var calls := [Call(key, now)] + rest;
    assert calls[1..] == rest;
    assert buckets[key := Bucket(1, now)] == map[key := Bucket(1, now)];
    assert |map[key := Bucket(1, now)]| == 1;
  }

  lemma {:induction false} BurstCounts(key: string, now: int, n: nat, rest: seq<Call>, m: nat, lo: int, window: int)
    requires lo <= now < lo + window && |rest| == m
    ensures |Burst(key, now, n) + rest| == n + m && |Yes(n + m)| == n + m && |Yes(m)| == m
    ensures Count(Burst(key, now, n) + rest, Yes(n + m), key, lo, window) == n + Count(rest, Yes(m), key, lo, window)
    decreases n
  {
    BurstLength(key, now, n);
    YesBoth(n, m);
    YesBoth(n + m, 0);
    YesBoth(m, 0);
    if n > 0 {
      BurstHead(key, now, n, rest);
      BurstCounts(key, now, n - 1, rest, m, lo, window);
      assert Yes(n + m)[1..] == Yes(n - 1 + m);
    } else {
      assert Burst(key, now, 0) + rest == rest;
    }
  }

  /** One call opens a bucket, the others it allows come in its last tick, and a full bucket
      follows in the next. */
  function Worst(key: string, l: Limits): seq<Call>
    requires l.max >= 1
  {
    [Call(key, 0)] + (Burst(key, l.window - 1, l.max - 1) + Second(key, l))
  }

  function Second(key: string, l: Limits): seq<Call>
    requires l.max >= 1
  {
    [Call(key, l.window)] + (Burst(key, l.window, l.max - 1) + [])
  }

  lemma SecondIsAllowed(key: string, l: Limits)
    requires l.max >= 1 && l.window >= 2
    ensures Answers(map[key := Bucket(l.max, 0)], Second(key, l), l) == Yes(l.max)
  {
    var n := l.max - 1;
    OpensFirst(map[key := Bucket(l.max, 0)], key, l.window, Burst(key, l.window, n) + [], l);
    BurstFits(key, 1, l.window, l.window, l.max, [], l);
    assert Yes(n) + [] == Yes(n);
  }

  lemma WorstIsAllowed(key: string, l: Limits)
    requires l.max >= 1 && l.window >= 2
    ensures Answers(map[], Worst(key, l), l) == Yes(2 * l.max)
  {
    var n := l.max - 1;
    OpensFirst(map[], key, 0, Burst(key, l.window - 1, n) + Second(key, l), l);
    BurstFits(key, 1, 0, l.window - 1, l.max, Second(key, l), l);
    SecondIsAllowed(key, l);
    YesHead(l.max, Yes(l.max));
    YesBoth(l.max, l.max);
  }

  lemma WorstInOrder(key: string, l: Limits)
    requires l.max >= 1 && l.window >= 2
    ensures InOrder(Worst(key, l), 0)
  {
    var n := l.max - 1;
    BurstInOrder(key, l.window, n, [], l.window);
    assert Second(key, l)[1..] == Burst(key, l.window, n) + [];
    BurstInOrder(key, l.window - 1, n, Second(key, l), 0);
    assert Worst(key, l)[1..] == Burst(key, l.window - 1, n) + Second(key, l);
  }

  lemma SecondIsBurst(key: string, l: Limits)
    requires l.max >= 1
    ensures Second(key, l) == Burst(key, l.window, l.max) + []
  {
    assert Burst(key, l.window, l.max) == [Call(key, l.window)] + Burst(key, l.window, l.max - 1);
  }

  lemma SecondCounts(key: string, l: Limits)
    requires l.max >= 1 && l.window >= 2
    ensures |Second(key, l)| == |Yes(l.max)| == l.max
    ensures Count(Second(key, l), Yes(l.max), key, l.window - 1, l.window) == l.max
  {
    SecondIsBurst(key, l);
    BurstCounts(key, l.window, l.max, [], 0, l.window - 1, l.window);
    YesBoth(l.max, 0);
  }

  lemma TailsCount(calls: seq<Call>, n: nat, key: string, lo: int, window: int)
    requires calls != [] && calls[0].now < lo && |calls| == n + 1
    ensures |Yes(n + 1)| == n + 1 && |calls[1..]| == |Yes(n)| == n
    ensures Count(calls, Yes(n + 1), key, lo, window) == Count(calls[1..], Yes(n), key, lo, window)
  {
    YesBoth(n, 0);
    YesBoth(n + 1, 0);
    assert Yes(n + 1)[1..] == Yes(n);
  }

  lemma WorstCounts(key: string, l: Limits)
    requires l.max >= 1 && l.window >= 2
    ensures |Worst(key, l)| == |Yes(2 * l.max)|
    ensures Count(Worst(key, l), Yes(2 * l.max), key, l.window - 1, l.window) == 2 * l.max - 1
  {
    var n, lo := l.max - 1, l.window - 1;
    SecondCounts(key, l);
    BurstCounts(key, lo, n, Second(key, l), l.max, lo, l.window);
    assert Worst(key, l)[1..] == Burst(key, lo, n) + Second(key, l);
    TailsCount(Worst(key, l), n + l.max, key, lo, l.window);
  }

  /** The bound is reached for every limit of at least one and every window of at least two
      ticks. */
  lemma LimitIsReached(key: string, l: Limits)
    requires l.max >= 1 && l.window >= 2
    ensures exists calls, lo :: InOrder(calls, 0) && |Answers(map[], calls, l)| == |calls|
              && Count(calls, Answers(map[], calls, l), key, lo, l.window) == 2 * PerBucket(l) - 1
  {
    WorstIsAllowed(key, l);
    WorstInOrder(key, l);
    WorstCounts(key, l);
  }
}
