/**
 What becomes of a job whose text is searched for quoted field names, round after round. The
 scalar fields move towards the end of the text only, so after five rounds the fields before
 the counter no longer change; from then on the counter counts, or it is the same for ever.
 */
module JobFate {
  import opened Text
  import opened JobText
  import opened JobCodec
  import opened JobScalars
  import opened JobMaps
  import opened JobRounds
  import opened JobRoundTrip
  import opened Rounds

  /** Jobs are read by searching, and keep their ids. */
  ghost predicate IsSearched(c: Context) {
    Keeps(c) && forall j :: Searches(c, j)
  }

  lemma JsonIsSearched(graded: Job -> bool)
    ensures IsSearched(Json(graded))
  {
    JsonKeeps(graded);
    forall j ensures Searches(Json(graded), j) { JsonSearches(graded, j); }
  }

  // ---- One round --------------------------------------------------------------

  /** Where a field is read depends on the fields before it only. */
  lemma {:induction false} TargetPrefix(fs: seq<Field>, gs: seq<Field>, m: nat, i: nat)
    requires i <= m < |fs| && |gs| == |fs| && fs[..m] == gs[..m] && fs[m].name == gs[m].name
    ensures Target(fs, m, i) == Target(gs, m, i)
    decreases m - i
  {
    if i < m {
      assert fs[i] == fs[..m][i] == gs[..m][i] == gs[i];
      TargetPrefix(fs, gs, m, i + 1);
    }
  }

  lemma MovedPrefix(fs: seq<Field>, gs: seq<Field>, m: nat)
    requires m < |fs| && |gs| == |fs| && fs[..m] == gs[..m]
    requires fs[m] == gs[m] || (Target(fs, m, 0) < m && fs[m].quoted && fs[m].(value := "") == gs[m].(value := ""))
    ensures Moved(fs, m) == Moved(gs, m)
  {
    assert fs[m].name == fs[m].(value := "").name == gs[m].(value := "").name == gs[m].name;
    assert fs[m].quoted == fs[m].(value := "").quoted == gs[m].(value := "").quoted == gs[m].quoted;
    TargetPrefix(fs, gs, m, 0);
    var t := Target(fs, m, 0);
    if t < m {
      assert fs[t] == fs[..m][t] == gs[..m][t] == gs[t];
    }
  }

  lemma CountedPrefix(d: Job)
    ensures Scalars(Counted(d))[..COUNTER] == Scalars(d)[..COUNTER]
    ensures Scalars(Counted(d))[COUNTER].name == Scalars(d)[COUNTER].name == "retries"
    ensures Scalars(Counted(d))[COUNTER].value == IntText(d.retries + 1)
  {
  }

  /** A field before the counter after one more round. */
  lemma AgainReads(c: Context, d: Job, m: nat)
    requires IsSearched(c) && Sendable(d) && d.retries < MAX_RETRIES && m < COUNTER
    ensures Scalars(Again(c, d))[m] == Moved(Scalars(d), m)
  {
    var fs, gs := Scalars(d), Scalars(Counted(d));
    assert Searches(c, Counted(d));
    CountedPrefix(d);
    assert fs[..m] == fs[..COUNTER][..m] && gs[..m] == gs[..COUNTER][..m];
    assert fs[m] == fs[..COUNTER][m] && gs[m] == gs[..COUNTER][m];
    MovedPrefix(fs, gs, m);
  }

  lemma NumberIsItself(n: int)
    requires INT_MIN <= n <= INT_MAX
    ensures IntOrZero(IntText(n)) == n
  {
    IntReads(n);
  }

  /** The counter is read from its own field. */
  predicate CountsRetries(j: Job) {
    Target(Scalars(j), COUNTER, 0) == COUNTER
  }

  /** Where the counter of the job that is sent again is read. */
  lemma CountedFound(d: Job)
    ensures CountsRetries(Counted(d)) <==> CountsRetries(d)
    ensures Found(Scalars(Counted(d)), COUNTER)
         == if CountsRetries(d) then IntText(d.retries + 1) else Found(Scalars(d), COUNTER)
  {
    var fs, gs, t := Scalars(d), Scalars(Counted(d)), Target(Scalars(d), COUNTER, 0);
    CountedPrefix(d);
    TargetPrefix(fs, gs, COUNTER, 0);
    if t < COUNTER {
      assert fs[t] == fs[..COUNTER][t] == gs[..COUNTER][t] == gs[t];
    }
  }

  /** The counter after one more round. */
  lemma AgainCounter(c: Context, d: Job)
    requires IsSearched(c) && Sendable(d) && d.retries < MAX_RETRIES
    ensures Again(c, d).retries == if CountsRetries(d) then d.retries + 1 else IntOrZero(Found(Scalars(d), COUNTER))
  {
    assert Searches(c, Counted(d));
    CountedFound(d);
    NumberIsItself(d.retries + 1);
  }

  // ---- After five rounds ------------------------------------------------------

  /** One more round leaves the first m scalar fields as they are. */
  predicate Stable(c: Context, d: Job, m: nat)
    requires m <= 9
  {
    Scalars(Again(c, d))[..m] == Scalars(d)[..m]
  }

  /** Fields of two jobs differ in their values at most. */
  lemma SameForm(d: Job, e: Job, m: nat)
    requires m < 9
    ensures Scalars(d)[m].(value := "") == Scalars(e)[m].(value := "")
    ensures Scalars(d)[m].name == Scalars(e)[m].name
  {
    FieldsAre(d);
    FieldsAre(e);
    if m == 0 {} else if m == 1 {} else if m == 2 {} else if m == 3 {} else if m == 4 {}
    else if m == 5 {} else if m == 6 {} else if m == 7 {} else {}
  }

  /** A field that is read from its own place stays. */
  lemma OwnPlaceStays(fs: seq<Field>, m: nat)
    requires m < |fs| && (Target(fs, m, 0) == m || !fs[m].quoted)
    ensures Moved(fs, m) == fs[m]
  {
  }

  lemma FirstTwoAreStable(c: Context, d: Job)
    requires IsSearched(c) && Sendable(d)
    ensures Stable(c, d, 2)
  {
    if d.retries < MAX_RETRIES {
      var fs := Scalars(d);
      assert Target(fs, 0, 0) == 0;
      NumberInPlace(fs);
      AgainReads(c, d, 0);
      AgainReads(c, d, 1);
      OwnPlaceStays(fs, 0);
      OwnPlaceStays(fs, 1);
      assert Scalars(Again(c, d))[..2] == fs[..2];
    }
  }

  lemma StableAt(c: Context, d: Job, m: nat, i: nat)
    requires IsSearched(c) && Sendable(d) && d.retries < MAX_RETRIES && Again(c, d).retries < MAX_RETRIES
    requires m < COUNTER && Stable(c, d, m) && i <= m
    ensures Scalars(Again(c, Again(c, d)))[i] == Scalars(Again(c, d))[i]
  {
    var e := Again(c, d);
    var fs, gs := Scalars(d), Scalars(e);
    AgainKeeps(c, d);
    AgainReads(c, d, i);
    AgainReads(c, e, i);
    SameForm(d, e, i);
    assert fs[..i] == fs[..m][..i] && gs[..i] == gs[..m][..i];
    TargetPrefix(fs, gs, i, 0);
    if Target(fs, i, 0) < i && fs[i].quoted {
      MovedPrefix(fs, gs, i);
    } else {
      OwnPlaceStays(gs, i);
    }
  }

  lemma StableGrows(c: Context, d: Job, m: nat)
    requires IsSearched(c) && Sendable(d) && m < COUNTER && Stable(c, d, m)
    ensures Stable(c, Again(c, d), m + 1)
  {
    var e := Again(c, d);
    if d.retries < MAX_RETRIES && e.retries < MAX_RETRIES {
      forall i | 0 <= i <= m ensures Scalars(Again(c, e))[i] == Scalars(e)[i] { StableAt(c, d, m, i); }
    }
  }

  lemma {:induction false} StableAfter(c: Context, d: Job, n: nat)
    requires IsSearched(c) && Sendable(d) && n <= 5
    ensures Stable(c, Nth(c, d, n), n + 2)
  {
    if n == 0 {
      FirstTwoAreStable(c, d);
    } else {
      StableAfter(c, d, n - 1);
      NthKeeps(c, d, n - 1);
      StableGrows(c, Nth(c, d, n - 1), n + 1);
    }
  }

  lemma StableStays(c: Context, d: Job)
    requires IsSearched(c) && Sendable(d) && Stable(c, d, COUNTER)
    ensures Stable(c, Again(c, d), COUNTER)
  {
    var fs, gs := Scalars(d), Scalars(Again(c, d));
    assert fs[..COUNTER - 1] == fs[..COUNTER][..COUNTER - 1] && gs[..COUNTER - 1] == gs[..COUNTER][..COUNTER - 1];
    StableGrows(c, d, COUNTER - 1);
  }

  lemma SameTarget(d: Job, e: Job)
    requires Scalars(d)[..COUNTER] == Scalars(e)[..COUNTER]
    ensures Target(Scalars(d), COUNTER, 0) == Target(Scalars(e), COUNTER, 0)
    ensures var t := Target(Scalars(d), COUNTER, 0);
            t < COUNTER ==> Scalars(d)[t] == Scalars(e)[t]
  {
    var t := Target(Scalars(d), COUNTER, 0);
    SameForm(d, e, COUNTER);
    TargetPrefix(Scalars(d), Scalars(e), COUNTER, 0);
    if t < COUNTER {
      assert Scalars(d)[t] == Scalars(d)[..COUNTER][t] == Scalars(e)[..COUNTER][t];
    }
  }

  lemma StableStep(c: Context, d: Job, e: Job)
    requires Stable(c, d, COUNTER) && e == Again(c, d)
    ensures Scalars(e)[..COUNTER] == Scalars(d)[..COUNTER]
  {
  }

  lemma {:induction false} StableForGood(c: Context, d: Job, n: nat)
    requires IsSearched(c) && Sendable(d) && Stable(c, d, COUNTER)
    ensures Stable(c, Nth(c, d, n), COUNTER) && Scalars(Nth(c, d, n))[..COUNTER] == Scalars(d)[..COUNTER]
  {
    if n > 0 {
      var e := Nth(c, d, n - 1);
      StableForGood(c, d, n - 1);
      NthKeeps(c, d, n - 1);
      StableStays(c, e);
      StableStep(c, e, Nth(c, d, n));
    }
  }

  lemma CountsForGood(c: Context, d: Job, n: nat)
    requires IsSearched(c) && Sendable(d) && Stable(c, d, COUNTER)
    ensures CountsRetries(Nth(c, d, n)) <==> CountsRetries(d)
  {
    StableForGood(c, d, n);
    SameTarget(d, Nth(c, d, n));
  }

  lemma CountsOnce(c: Context, d: Job, e: Job)
    requires IsSearched(c) && Sendable(d) && CountsRetries(d) && e == Again(c, d)
    ensures e.retries == if d.retries < MAX_RETRIES then d.retries + 1 else d.retries
  {
    if d.retries < MAX_RETRIES {
      AgainCounter(c, d);
    }
  }

  /** The n+1st failure adds one to the counter, below the limit. */
  predicate Grows(c: Context, d: Job, n: nat) {
    var before, after := Nth(c, d, n).retries, Nth(c, d, n + 1).retries;
    after == if before < MAX_RETRIES then before + 1 else before
  }

  lemma CountsFurther(c: Context, d: Job, n: nat)
    requires IsSearched(c) && Sendable(d) && Stable(c, d, COUNTER) && CountsRetries(d)
    ensures Grows(c, d, n)
  {
    NthKeeps(c, d, n);
    CountsForGood(c, d, n);
    CountsOnce(c, Nth(c, d, n), Nth(c, d, n + 1));
  }

  lemma {:induction false} GrowsUp(c: Context, d: Job, n: nat)
    requires forall k: nat :: Grows(c, d, k)
    ensures Nth(c, d, n).retries >= MAX_RETRIES || Nth(c, d, n).retries == d.retries + n
  {
    if n > 0 {
      GrowsUp(c, d, n - 1);
      assert Grows(c, d, n - 1);
    }
  }

  /** A counter that is read from its own field counts up to the limit. */
  lemma CountsUp(c: Context, d: Job, n: nat)
    requires IsSearched(c) && Sendable(d) && Stable(c, d, COUNTER) && CountsRetries(d)
    ensures Nth(c, d, n).retries >= MAX_RETRIES || Nth(c, d, n).retries == d.retries + n
  {
    forall k: nat ensures Grows(c, d, k) { CountsFurther(c, d, k); }
    GrowsUp(c, d, n);
  }

  /** A counter that is read from another field is the same in every round. */
  lemma {:induction false} StandsStill(c: Context, d: Job, n: nat)
    requires IsSearched(c) && Sendable(d) && Stable(c, d, COUNTER) && !CountsRetries(d)
    requires d.retries < MAX_RETRIES && Again(c, d).retries < MAX_RETRIES
    ensures Nth(c, d, n + 1).retries == Again(c, d).retries
  {
    if n > 0 {
      StandsStill(c, d, n - 1);
      var e := Nth(c, d, n);
      NthKeeps(c, d, n);
      StableForGood(c, d, n);
      SameTarget(d, e);
      AgainCounter(c, d);
      AgainCounter(c, e);
    } else {
      assert Nth(c, d, 1) == Again(c, Nth(c, d, 0));
    }
  }

  lemma CountingEnds(c: Context, e: Job)
    requires IsSearched(c) && Sendable(e) && Stable(c, e, COUNTER) && CountsRetries(e)
    ensures Ends(c, e)
  {
    var n := if e.retries < MAX_RETRIES then MAX_RETRIES - e.retries else 0;
    CountsUp(c, e, n);
    assert GivesUp(c, e, n);
  }

  lemma StandingNeverEnds(c: Context, e: Job)
    requires IsSearched(c) && Sendable(e) && Stable(c, e, COUNTER) && !CountsRetries(e)
    requires Again(c, e).retries < MAX_RETRIES
    ensures !Ends(c, e)
  {
    forall n: nat ensures !GivesUp(c, e, n) {
      if n > 0 {
        StandsStill(c, e, n - 1);
      }
    }
  }

  /** Once the fields before the counter no longer change, one more round decides. */
  lemma EndsOnceStable(c: Context, e: Job)
    requires IsSearched(c) && Sendable(e) && Stable(c, e, COUNTER)
    ensures Ends(c, e) <==> CountsRetries(e) || Again(c, e).retries >= MAX_RETRIES
  {
    if CountsRetries(e) {
      CountingEnds(c, e);
    } else if Again(c, e).retries < MAX_RETRIES {
      StandingNeverEnds(c, e);
    } else {
      GivesUpNext(c, e);
    }
  }

  lemma EndsAfter(c: Context, d: Job, m: nat)
    requires IsSearched(c) && Sendable(d) && Stable(c, Nth(c, d, m), COUNTER)
    ensures Ends(c, d) <==> CountsRetries(Nth(c, d, m)) || Nth(c, d, m + 1).retries >= MAX_RETRIES
  {
    NthKeeps(c, d, m);
    EndsOnceStable(c, Nth(c, d, m));
    EndsTogether(c, d, m);
  }

  /** A job comes to an end exactly when after five rounds its counter counts, or after six it
      has reached the limit. */
  lemma EndsExactly(c: Context, d: Job)
    requires IsSearched(c) && Sendable(d)
    ensures Ends(c, d) <==> CountsRetries(Nth(c, d, 5)) || Nth(c, d, 6).retries >= MAX_RETRIES
  {
    StableAfter(c, d, 5);
    EndsAfter(c, d, 5);
  }

  // ---- A counter that counts from the start -----------------------------------

  /** The counter is read from its own field exactly when no string before the start time is
      taken for its name; the start time itself stands right before it. */
  lemma CountsMeans(j: Job)
    ensures CountsRetries(j) <==> forall i :: 0 <= i < COUNTER - 1 ==> !Spoils("retries", Scalars(j)[i])
  {
    FieldsAre(j);
    TargetIs(Scalars(j), COUNTER, 0);
  }

  lemma NumberSpoilsNothing(k: string, s: string)
    requires PlainName(k) && IsNumberText(s)
    ensures !Poison(k, s)
  {
    EndsWithLast("\"" + s, "\"" + k);
    assert ("\"" + k)[|k|] == k[|k| - 1] && ("\"" + s)[|s|] == s[|s| - 1];
    assert IsNameChar(k[|k| - 1]) && (IsDigit(s[|s| - 1]) || s[|s| - 1] == '-');
  }

  /** A string that moves is a string that was there before, or a number. */
  lemma MovedSpoilsNothing(k: string, j: Job, m: nat)
    requires PlainName(k) && Sendable(j) && m < COUNTER
    requires forall i :: 0 <= i <= m ==> !Spoils(k, Scalars(j)[i])
    ensures !Spoils(k, Moved(Scalars(j), m))
  {
    var t := Target(Scalars(j), m, 0);
    if !Scalars(j)[t].quoted {
      ScalarsWellFormed(j);
      NumberSpoilsNothing(k, Scalars(j)[t].value);
    }
  }

  /** A counter that is read from its own field is so in every round. */
  lemma CountsStays(c: Context, d: Job)
    requires IsSearched(c) && Sendable(d) && CountsRetries(d)
    ensures CountsRetries(Again(c, d))
  {
    if d.retries < MAX_RETRIES {
      CountsMeans(d);
      CountsMeans(Again(c, d));
      NamesArePlain();
      forall m | 0 <= m < COUNTER - 1 ensures !Spoils("retries", Scalars(Again(c, d))[m]) {
        AgainReads(c, d, m);
        MovedSpoilsNothing("retries", d, m);
      }
    }
  }

  lemma FirstReads(c: Context, j: Job, m: nat)
    requires IsSearched(c) && Sendable(j) && m < COUNTER
    ensures Scalars(Reread(c, j))[m] == Moved(Scalars(j), m)
  {
    assert Searches(c, j);
  }

  lemma FirstCounts(c: Context, j: Job)
    requires IsSearched(c) && Sendable(j) && CountsRetries(j)
    ensures CountsRetries(Reread(c, j)) && Reread(c, j).retries == j.retries
  {
    CountsMeans(j);
    CountsMeans(Reread(c, j));
    NamesArePlain();
    forall m | 0 <= m < COUNTER - 1 ensures !Spoils("retries", Scalars(Reread(c, j))[m]) {
      FirstReads(c, j, m);
      MovedSpoilsNothing("retries", j, m);
    }
    assert Searches(c, j);
    FieldsAre(j);
    NumberIsItself(j.retries);
  }

  /** Then it holds the number of rounds, until that reaches the limit. */
  lemma {:induction false} CountsRounds(c: Context, j: Job, n: nat)
    requires IsSearched(c) && Sendable(j) && j.retries == 0 && CountsRetries(j)
    ensures var d := Nth(c, Reread(c, j), n);
            CountsRetries(d) && d.retries == if n < MAX_RETRIES then n else MAX_RETRIES
  {
    RereadKeeps(c, j);
    FirstCounts(c, j);
    if n > 0 {
      CountsRounds(c, j, n - 1);
      var d := Nth(c, Reread(c, j), n - 1);
      NthKeeps(c, Reread(c, j), n - 1);
      CountsStays(c, d);
      CountsOnce(c, d, Again(c, d));
    }
  }

  // ---- A student whose name is taken for the counter ---------------------------

  /** The student's name is, or ends in a quote and, "retries"; the id is taken for nothing. */
  predicate NamedLikeCounter(j: Job) {
    && Poison("retries", j.studentName)
    && !Poison("student_name", j.jobId) && !Poison("exam_number", j.jobId) && !Poison("retries", j.jobId)
  }

  lemma OneName(k: string, l: string, v: string)
    requires k != "" && l != "" && k[|k| - 1] != l[|l| - 1] && Poison(k, v)
    ensures !Poison(l, v)
  {
    EndsWithLast("\"" + v, "\"" + k);
    EndsWithLast("\"" + v, "\"" + l);
  }

  lemma NamedTargets(j: Job)
    requires NamedLikeCounter(j)
    ensures Target(Scalars(j), 0, 0) == 0 && Target(Scalars(j), 2, 0) == 2 && Target(Scalars(j), 3, 0) == 3
    ensures Target(Scalars(j), COUNTER, 0) == 3
  {
    var fs := Scalars(j);
    FieldsAre(j);
    OneName("retries", "exam_number", j.studentName);
    assert Target(fs, 2, 2) == 2;
    assert Target(fs, 2, 1) == 2;
    assert Target(fs, 3, 3) == 3;
    assert Target(fs, 3, 2) == 3;
    assert Target(fs, 3, 1) == 3;
    assert Target(fs, COUNTER, 2) == 3;
    assert Target(fs, COUNTER, 1) == 3;
  }

  lemma NamedStays(c: Context, d: Job)
    requires IsSearched(c) && Sendable(d) && NamedLikeCounter(d)
    ensures NamedLikeCounter(Again(c, d)) && Again(c, d).examNumber == d.examNumber
    ensures d.retries < MAX_RETRIES ==> Again(c, d).retries == IntOrZero(d.examNumber)
  {
    if d.retries < MAX_RETRIES {
      NamedTargets(d);
      FieldsAre(d);
      FieldsAre(Again(c, d));
      AgainReads(c, d, 0);
      AgainReads(c, d, 2);
      AgainReads(c, d, 3);
      AgainCounter(c, d);
    }
  }

  lemma NamedFirst(c: Context, j: Job)
    requires IsSearched(c) && Sendable(j) && NamedLikeCounter(j)
    ensures var d := Reread(c, j);
            NamedLikeCounter(d) && d.examNumber == j.examNumber && d.retries == IntOrZero(j.examNumber)
  {
    NamedTargets(j);
    FieldsAre(j);
    FieldsAre(Reread(c, j));
    FirstReads(c, j, 0);
    FirstReads(c, j, 2);
    FirstReads(c, j, 3);
    assert Searches(c, j);
  }

  /** The exam number is then read for the counter in every round. */
  lemma {:induction false} NamedRounds(c: Context, j: Job, n: nat)
    requires IsSearched(c) && Sendable(j) && NamedLikeCounter(j)
    ensures var d := Nth(c, Reread(c, j), n);
            NamedLikeCounter(d) && d.examNumber == j.examNumber && d.retries == IntOrZero(j.examNumber)
  {
    RereadKeeps(c, j);
    NamedFirst(c, j);
    if n > 0 {
      NamedRounds(c, j, n - 1);
      NthKeeps(c, Reread(c, j), n - 1);
      NamedStays(c, Nth(c, Reread(c, j), n - 1));
    }
  }
}
