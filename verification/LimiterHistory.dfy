/**
 What the rate limiter answers, told from the calls alone: no buckets, no sweeps.
 */
module LimiterHistory {
  import opened RateLimiter

  /** The last of the first n calls that opened a window for the key, or -1: a call does if no
      window is open, or the open one is as old as a window is long. */
  function Opening(calls: seq<Call>, key: string, n: nat, l: Limits): (o: int)
    requires n <= |calls|
    ensures -1 <= o < n && (o >= 0 ==> calls[o].key == key)
  {
    if n == 0 then -1
    else
      var o := Opening(calls, key, n - 1, l);
      if calls[n - 1].key == key && (o == -1 || calls[n - 1].now - calls[o].now >= l.window) then n - 1 else o
  }

  /** The calls of the key from position o on, before position n, that were allowed. */
  function AllowedSince(calls: seq<Call>, answers: seq<bool>, key: string, o: int, n: nat): set<int>
    requires |answers| == |calls| && n <= |calls|
  {
    set i | 0 <= i < n && o <= i && calls[i].key == key && answers[i]
  }

  /** The buckets after n calls, if none is ever swept. */
  function BucketsAt(buckets: Buckets, calls: seq<Call>, n: nat, l: Limits): Buckets
    requires n <= |calls|
  {
    if n == 0 then buckets
    else Counted(BucketsAt(buckets, calls, n - 1, l), calls[n - 1].key, calls[n - 1].now, l)
  }

  lemma {:induction false} BucketsFromSecond(buckets: Buckets, calls: seq<Call>, n: nat, l: Limits)
    requires 0 < n <= |calls|
    ensures BucketsAt(buckets, calls, n, l)
         == BucketsAt(Counted(buckets, calls[0].key, calls[0].now, l), calls[1..], n - 1, l)
  {
    if n > 1 {
      BucketsFromSecond(buckets, calls, n - 1, l);
      assert calls[1..][n - 2] == calls[n - 1];
    } else {
      assert BucketsAt(buckets, calls, 0, l) == buckets;
    }
  }

  lemma {:induction false} AnswerAt(buckets: Buckets, calls: seq<Call>, k: nat, l: Limits)
    requires k < |calls|
    ensures |AnswersKeepingAll(buckets, calls, l)| == |calls|
    ensures AnswersKeepingAll(buckets, calls, l)[k] == Allowed(BucketsAt(buckets, calls, k, l), calls[k].key, calls[k].now, l)
    decreases k
  {
    AnswersLength(buckets, calls, l);
    if k > 0 {
      AnswerAt(Counted(buckets, calls[0].key, calls[0].now, l), calls[1..], k - 1, l);
      BucketsFromSecond(buckets, calls, k, l);
    }
  }

  /** The bucket of a key, in terms of the calls. */
  predicate IsHistory(b: Buckets, calls: seq<Call>, answers: seq<bool>, key: string, n: nat, l: Limits)
    requires |answers| == |calls| && n <= |calls|
  {
    var o := Opening(calls, key, n, l);
    if o == -1 then key !in b
    else key in b && b[key] == Bucket(|AllowedSince(calls, answers, key, o, n)|, calls[o].now)
  }

  lemma SinceGrows(calls: seq<Call>, answers: seq<bool>, key: string, o: int, n: nat)
    requires |answers| == |calls| && n < |calls| && o <= n
    ensures |AllowedSince(calls, answers, key, o, n + 1)|
         == |AllowedSince(calls, answers, key, o, n)| + if calls[n].key == key && answers[n] then 1 else 0
  {
    var before := AllowedSince(calls, answers, key, o, n);
    assert AllowedSince(calls, answers, key, o, n + 1) == before + (if calls[n].key == key && answers[n] then {n} else {});
    assert n !in before;
  }

  lemma NothingSince(calls: seq<Call>, answers: seq<bool>, key: string, n: nat)
    requires |answers| == |calls| && n <= |calls|
    ensures AllowedSince(calls, answers, key, n, n) == {}
  {
  }

  /** What a call does to a bucket that is told by the calls before it. */
  lemma CallContinues(b: Buckets, calls: seq<Call>, answers: seq<bool>, key: string, n: nat, l: Limits)
    requires |answers| == |calls| && n < |calls| && IsHistory(b, calls, answers, key, n, l)
    requires answers[n] == Allowed(b, calls[n].key, calls[n].now, l)
    ensures IsHistory(Counted(b, calls[n].key, calls[n].now, l), calls, answers, key, n + 1, l)
  {
    var o := Opening(calls, key, n, l);
    SinceGrows(calls, answers, key, o, n);
    SinceGrows(calls, answers, key, n, n);
    NothingSince(calls, answers, key, n);
  }

  lemma {:induction false} BucketsAreHistory(calls: seq<Call>, answers: seq<bool>, key: string, n: nat, l: Limits)
    requires answers == AnswersKeepingAll(map[], calls, l) && |answers| == |calls| && n <= |calls|
    ensures IsHistory(BucketsAt(map[], calls, n, l), calls, answers, key, n, l)
  {
    if n > 0 {
      BucketsAreHistory(calls, answers, key, n - 1, l);
      AnswerAt(map[], calls, n - 1, l);
      CallContinues(BucketsAt(map[], calls, n - 1, l), calls, answers, key, n - 1, l);
    }
  }

  /** A call is allowed exactly when it opens a window for its key, or fewer than max calls of
      the key were allowed since the one that did. */
  lemma AllowedExactly(calls: seq<Call>, k: nat, from: int, l: Limits)
    requires InOrder(calls, from) && k < |calls|
    ensures |Answers(map[], calls, l)| == |calls|
    ensures var key, o := calls[k].key, Opening(calls, calls[k].key, k, l);
            Answers(map[], calls, l)[k]
            <==> Opening(calls, key, k + 1, l) == k
                 || |AllowedSince(calls, Answers(map[], calls, l), key, o, k)| < l.max
  {
    SweepingIsInvisible(map[], calls, from, l);
    AnswerAt(map[], calls, k, l);
    BucketsAreHistory(calls, Answers(map[], calls, l), calls[k].key, k, l);
  }
}
