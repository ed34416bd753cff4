/**
 The submission pipeline with its real texts: jobs are printed by `to_json` and read back by
 `from_json`. The bounds on retries hold for the jobs whose counter is read from its own
 field; the others may be tried for ever, or not again. A job for which the scorer does not
 return enters no batch, and keeps the pipeline from stopping.
 */
module JobPipeline {
  import opened JobText
  import opened JobCodec
  import opened JobScalars
  import opened JobRoundTrip
  import opened JobPrint
  import opened JobRounds
  import opened JobFate
  import opened JobGrading
  import opened Rounds
  import opened PipelineRounds
  import opened Scoring
  import opened Grading
  import P = Pipeline
  import S = PipelineShutdown
  import T = PipelineTheorems

  /** Jobs are printed and read as JSON; for which of them the scorer returns is left open. */
  ghost predicate IsJson(s: P.Pipe) {
    s.context == Json(s.context.graded)
  }

  /** What was accepted under the id of a job that is somewhere in the pipeline. */
  lemma Accepted(s: P.Pipe, job: P.Job)
    requires T.Reachable(s) && (T.IsIn(s, job) || T.IsGivenUp(s, job))
    ensures job.data.jobId in s.accepted && IsNew(s.accepted[job.data.jobId])
  {
    T.ReachableInv(s);
    if T.IsIn(s, job) { T.ContentIsReread(s, job); } else { T.GivenUpIsReread(s, job); }
  }

  lemma CounterIsRounds(c: Context, j: Job, rounds: nat)
    requires IsSearched(c) && IsNew(j) && CountsRetries(j) && Tried(c, Reread(c, j), rounds)
    ensures rounds <= MAX_RETRIES && Nth(c, Reread(c, j), rounds).retries == rounds
    ensures rounds > 0 ==> Nth(c, Reread(c, j), rounds - 1).retries == rounds - 1
  {
    CountsRounds(c, j, rounds);
    if rounds > 0 {
      CountsRounds(c, j, rounds - 1);
    }
  }

  lemma BoundedIfSearched(s: P.Pipe, job: P.Job)
    requires IsSearched(s.context) && T.Reachable(s) && (T.IsIn(s, job) || T.IsGivenUp(s, job))
    requires job.data.jobId in s.accepted ==> CountsRetries(s.accepted[job.data.jobId])
    ensures job.data.retries == job.rounds <= 3 && job.batches <= 4
  {
    Accepted(s, job);
    var j := s.accepted[job.data.jobId];
    if T.IsIn(s, job) {
      T.ContentIsReread(s, job);
      CounterIsRounds(s.context, j, job.rounds);
    } else {
      T.GivenUpIsReread(s, job);
      CounterIsRounds(s.context, j, job.rounds);
    }
  }

  /** A job whose counter is read from its own field is retried three times at most, enters
      four batches at most, and its counter says how often it was sent again. */
  lemma RetriesAndBatchesAreBounded(s: P.Pipe, job: P.Job)
    requires IsJson(s) && T.Reachable(s) && (T.IsIn(s, job) || T.IsGivenUp(s, job))
    requires job.data.jobId in s.accepted ==> CountsRetries(s.accepted[job.data.jobId])
    ensures job.data.retries == job.rounds <= 3 && job.batches <= 4
  {
    JsonIsSearched(s.context.graded);
    BoundedIfSearched(s, job);
  }

  lemma CountedTries(c: Context, j: Job, n: nat)
    requires IsSearched(c) && IsNew(j) && CountsRetries(j)
    ensures Tried(c, Reread(c, j), n) <==> n < 4
  {
    if n > 0 {
      CountsRounds(c, j, n - 1);
    }
  }

  /** How often a job enters a batch with the real scorer. */
  lemma BatchesOnServer(exams: Exams, j: Job, n: nat)
    requires IsNew(j)
    ensures var c := Server(exams);
            CanEnterBatch(c, j, n + 1) <==> Tried(c, Reread(c, j), n) && Passes(c, Reread(c, j), n + 1)
    ensures Braceless(j) ==> (Passes(Server(exams), Reread(Server(exams), j), n + 1) <==> Returns(exams)(j))
  {
    JsonKeeps(Returns(exams));
    BatchesExactly(Server(exams), j, n);
    if Braceless(j) {
      PassesOrHangs(exams, j, n);
    }
  }

  /** Such a job can enter four batches, and no more, if the scorer returns for it each time; for
      a job without braces that is decided by its answers as they were sent. */
  lemma FourBatches(exams: Exams, j: Job, n: nat)
    requires IsNew(j) && CountsRetries(j)
    ensures var c := Server(exams); CanEnterBatch(c, j, n + 1) <==> n < 4 && Passes(c, Reread(c, j), n + 1)
    ensures Braceless(j) ==> (CanEnterBatch(Server(exams), j, n + 1) <==> n < 4 && Returns(exams)(j))
  {
    JsonIsSearched(Returns(exams));
    BatchesOnServer(exams, j, n);
    CountedTries(Server(exams), j, n);
  }

  lemma NamedTries(c: Context, j: Job, n: nat)
    requires IsSearched(c) && IsNew(j) && NamedLikeCounter(j)
    ensures Tried(c, Reread(c, j), n) <==> n == 0 || IntOrZero(j.examNumber) < 3
  {
    if n > 0 {
      NamedRounds(c, j, n - 1);
    }
  }

  /** A student called "retries": the exam number decides. Below three the job is tried for
      ever; from three on it is given up at its first failure. The scorer must return for it. */
  lemma ExamNumberDecides(exams: Exams, j: Job, n: nat)
    requires IsNew(j) && NamedLikeCounter(j)
    ensures var c := Server(exams);
            CanEnterBatch(c, j, n + 1) <==> (n == 0 || IntOrZero(j.examNumber) < 3) && Passes(c, Reread(c, j), n + 1)
    ensures Braceless(j) ==>
              (CanEnterBatch(Server(exams), j, n + 1)
               <==> (n == 0 || IntOrZero(j.examNumber) < 3) && Returns(exams)(j))
  {
    JsonIsSearched(Returns(exams));
    BatchesOnServer(exams, j, n);
    NamedTries(Server(exams), j, n);
  }

  predicate IsHexDigit(c: char) {
    '0' <= c <= '9' || 'a' <= c <= 'f'
  }

  /** Job ids as they are generated. */
  predicate IsHexText(id: string) {
    forall i :: 0 <= i < |id| ==> IsHexDigit(id[i])
  }

  lemma PoisonAt(k: string, v: string, i: nat)
    requires Poison(k, v) && i < |k|
    ensures |k| <= |v| && v[|v| - |k| + i] == k[i]
  {
    var q, n := "\"" + k, "\"" + v;
    assert q[i + 1] == n[|n| - |q|..][i + 1];
  }

  /** A name with a character that is no hexadecimal digit. */
  lemma HexSpoilsNothing(k: string, id: string, i: nat)
    requires i < |k| && !IsHexDigit(k[i]) && IsHexText(id)
    ensures !Poison(k, id)
  {
    if Poison(k, id) {
      PoisonAt(k, id, i);
    }
  }

  lemma NamedRetries(j: Job)
    requires IsHexText(j.jobId) && j.studentName == "retries"
    ensures NamedLikeCounter(j)
  {
    PoisonMeans("retries", "retries");
    HexSpoilsNothing("retries", j.jobId, 0);
    HexSpoilsNothing("student_name", j.jobId, 0);
    HexSpoilsNothing("exam_number", j.jobId, 1);
  }

  /** The job of a student called "retries" with exam number -7 can enter any number of batches,
      or none if the scorer does not return for it. */
  lemma RetriedForEver(exams: Exams, j: Job, n: nat)
    requires IsNew(j) && IsHexText(j.jobId) && Braceless(j) && j.studentName == "retries" && j.examNumber == "-7"
    ensures CanEnterBatch(Server(exams), j, n + 1) <==> Returns(exams)(j)
  {
    NamedRetries(j);
    MinusSeven();
    ExamNumberDecides(exams, j, n);
  }

  lemma MinusSeven()
    ensures IntOrZero("-7") == -7
  {
    assert IntText(-7) == "-7" by { assert NatText(7) == "7"; }
    NumberIsItself(-7);
  }

  lemma Nine()
    ensures IntOrZero("9") == 9
  {
    assert IntText(9) == "9";
    NumberIsItself(9);
  }

  /** With exam number 9 the job is not tried a second time. */
  lemma NotRetried(exams: Exams, j: Job)
    requires IsNew(j) && IsHexText(j.jobId) && Braceless(j) && j.studentName == "retries" && j.examNumber == "9"
    ensures CanEnterBatch(Server(exams), j, 1) <==> Returns(exams)(j)
    ensures !CanEnterBatch(Server(exams), j, 2)
  {
    NamedRetries(j);
    Nine();
    ExamNumberDecides(exams, j, 0);
    ExamNumberDecides(exams, j, 1);
  }

  /** After five rounds the counter of the job counts, or after six it is at its limit: seven
      readings decide. */
  predicate ComesToAnEnd(c: Context, j: Job) {
    CountsRetries(Nth(c, Reread(c, j), 5)) || Nth(c, Reread(c, j), 6).retries >= 3
  }

  lemma EndsIfTested(c: Context, j: Job)
    requires IsSearched(c) && Sendable(j)
    ensures ComesToAnEnd(c, j) <==> Ends(c, Reread(c, j))
  {
    RereadKeeps(c, j);
    EndsExactly(c, Reread(c, j));
  }

  /** Once it has accepted a job, and no other, the pipeline comes to rest, whatever fails,
      exactly when the job passes that test or is held for ever some time; for a job without
      braces the scorer returns always or never. */
  lemma RestsWhenItEnds(exams: Exams, j: Job)
    requires IsNew(j)
    ensures var c := Server(exams);
            (exists bound :: RestsWithin(Started(c, j), bound))
            <==> ComesToAnEnd(c, j) || !AlwaysGraded(c, Reread(c, j))
    ensures Braceless(j) ==> (AlwaysGraded(Server(exams), Reread(Server(exams), j)) <==> Returns(exams)(j))
  {
    var c := Server(exams);
    JsonIsSearched(Returns(exams));
    RestsExactly(c, j);
    RestsMeans(c, Reread(c, j));
    EndsIfTested(c, j);
    if Braceless(j) {
      AlwaysOrNever(exams, j);
    }
  }

  /** The accepted job comes to rest: it passes the test, or is held for ever some time. */
  ghost predicate ComesToRest(c: Context, j: Job) {
    ComesToAnEnd(c, j) || !AlwaysGraded(c, Reread(c, j))
  }

  lemma BusyIfSearched(s: P.Pipe, run: seq<P.Action>)
    requires IsSearched(s.context) && T.Reachable(s) && T.CanRun(s, run) && T.NoEnqueue(run)
    requires forall id :: id in s.accepted && P.Live(s, id) > 0 ==> ComesToRest(s.context, s.accepted[id])
    ensures |run| <= T.Measure(s)
  {
    T.ReachableInv(s);
    forall id | id in s.accepted && P.Live(s, id) > 0 ensures Rests(s.context, Reread(s.context, s.accepted[id])) {
      EndsIfTested(s.context, s.accepted[id]);
      RestsMeans(s.context, Reread(s.context, s.accepted[id]));
    }
    LiveRestsWithin(s);
  }

  /** From any reachable state: if every job on its way comes to rest, a run without enqueues is
      no longer than the measure of the state. */
  lemma RunsEnd(s: P.Pipe, run: seq<P.Action>)
    requires IsJson(s) && T.Reachable(s) && T.CanRun(s, run) && T.NoEnqueue(run)
    requires forall id :: id in s.accepted && P.Live(s, id) > 0 ==> ComesToRest(s.context, s.accepted[id])
    ensures |run| <= T.Measure(s)
  {
    JsonIsSearched(s.context.graded);
    BusyIfSearched(s, run);
  }

  lemma BoundedIfTested(s: P.Pipe)
    requires IsSearched(s.context) && T.Reachable(s) && s.running && AcceptedGraded(s.context, s.accepted)
    ensures (exists bound :: RestsWithin(s, bound))
            <==> forall id :: id in s.accepted && P.Live(s, id) > 0 ==> ComesToAnEnd(s.context, s.accepted[id])
  {
    T.ReachableInv(s);
    RestsFrom(s);
    forall id ensures IsEndless(s, id) <==> id in s.accepted && P.Live(s, id) > 0 && !ComesToAnEnd(s.context, s.accepted[id]) {
      if id in s.accepted {
        EndsIfTested(s.context, s.accepted[id]);
      }
    }
  }

  /** While the pipeline is running and the scorer returns for all accepted jobs, this is exact:
      a single job on its way that does not pass the test keeps the pipeline busy for ever. */
  lemma RunsEndExactly(s: P.Pipe)
    requires IsJson(s) && T.Reachable(s) && s.running && AcceptedGraded(s.context, s.accepted)
    ensures (exists bound :: RestsWithin(s, bound))
            <==> forall id :: id in s.accepted && P.Live(s, id) > 0 ==> ComesToAnEnd(s.context, s.accepted[id])
  {
    JsonIsSearched(s.context.graded);
    BoundedIfTested(s);
  }

  // ---- A job that is never graded ---------------------------------------------

  lemma PopsFirst(c: Context, j: Job, w: nat)
    requires Keeps(c) && IsNew(j) && w < P.WORKERS
    ensures P.Enabled(Started(c, j), P.Pop(w))
    ensures P.Next(Started(c, j), P.Pop(w)).slots[w] == P.Holding(P.Job(Reread(c, j), 0, 0))
  {
    Starts(c, j);
  }

  lemma StuckFromTheStart(c: Context, j: Job, w: nat)
    requires Keeps(c) && IsNew(j) && w < P.WORKERS && !c.graded(Reread(c, j))
    ensures var s := P.Next(Started(c, j), P.Pop(w)); T.Reachable(s) && S.IsStuck(s, w)
  {
    StartedIsReachable(c, j);
    PopsFirst(c, j, w);
    T.ReachableThen(Started(c, j), P.Pop(w));
  }

  /** A student answers `A]` to question 1, a set question: once the job is popped, the pipeline
      can never be stopped, and the job never enters a batch. */
  lemma StrayBracketNeverStops(exams: Exams, j: Job, q: Question, w: nat)
    requires IsNew(j) && Braceless(j) && w < P.WORKERS && j.answers == map["1" := "A]"]
    requires j.examId in exams && q in exams[j.examId] && q.number == 1 && IsSetKind(q.kind)
    ensures P.Enabled(Started(Server(exams), j), P.Pop(w))
    ensures !S.CanStop(P.Next(Started(Server(exams), j), P.Pop(w)))
    ensures forall n: nat :: n > 0 ==> !CanEnterBatch(Server(exams), j, n)
  {
    var c := Server(exams);
    JsonKeeps(Returns(exams));
    StrayBracketNeverReturns(exams, j, q);
    GradedAlways(exams, j, 0);
    PopsFirst(c, j, w);
    StuckFromTheStart(c, j, w);
    S.NeverStops(P.Next(Started(c, j), P.Pop(w)), w);
    forall n: nat | n > 0 ensures !CanEnterBatch(c, j, n) { BatchesOnServer(exams, j, n - 1); }
  }

  // ---- Content ----------------------------------------------------------------

  /** No value of the job is taken for the name of a later field. */
  predicate IsClean(j: Job) {
    Clean(j, Listing(j.answers))
  }

  lemma CleanReads(graded: Job -> bool, j: Job)
    requires Sendable(j) && IsClean(j)
    ensures Reread(Json(graded), j) == j
  {
    ListingLists(j.answers);
    ListingLists(j.identity);
    RoundTrip(j, Listing(j.answers), Listing(j.identity));
  }

  lemma CleanWhateverCounted(j: Job, n: int)
    requires IsClean(j)
    ensures IsClean(j.(retries := n))
  {
    var k := j.(retries := n);
    FieldsAre(j);
    FieldsAre(k);
    assert forall i :: 0 <= i < 9 && i != COUNTER ==> Scalars(k)[i] == Scalars(j)[i];
    assert Scalars(k)[COUNTER].name == Scalars(j)[COUNTER].name && !Scalars(k)[COUNTER].quoted;
  }

  /** A clean job comes back as it was. */
  predicate KeepsClean(c: Context, j: Job) {
    Sendable(j) && IsClean(j) ==> Reread(c, j) == j
  }

  lemma JsonKeepsClean(graded: Job -> bool, j: Job)
    ensures KeepsClean(Json(graded), j)
  {
    if Sendable(j) && IsClean(j) {
      CleanReads(graded, j);
    }
  }

  lemma {:induction false} CleanRounds(c: Context, j: Job, n: nat)
    requires IsNew(j) && IsClean(j) && n <= MAX_RETRIES && forall k :: KeepsClean(c, k)
    ensures Nth(c, Reread(c, j), n) == j.(retries := n)
  {
    assert KeepsClean(c, j);
    if n > 0 {
      CleanRounds(c, j, n - 1);
      CleanWhateverCounted(j, n);
      assert KeepsClean(c, j.(retries := n));
      assert Counted(j.(retries := n - 1)) == j.(retries := n);
    } else {
      assert j.(retries := 0) == j;
    }
  }

  lemma CleanCounts(j: Job)
    requires IsClean(j)
    ensures CountsRetries(j)
  {
    CleanTarget(Scalars(j), COUNTER, 0);
  }

  lemma CleanIfSearched(s: P.Pipe, job: P.Job)
    requires IsSearched(s.context) && (forall k :: KeepsClean(s.context, k))
    requires T.Reachable(s) && (T.IsIn(s, job) || T.IsGivenUp(s, job))
    requires job.data.jobId in s.accepted ==> IsClean(s.accepted[job.data.jobId])
    ensures job.data.jobId in s.accepted && job.data == s.accepted[job.data.jobId].(retries := job.rounds)
  {
    Accepted(s, job);
    var j := s.accepted[job.data.jobId];
    CleanCounts(j);
    if T.IsIn(s, job) { T.ContentIsReread(s, job); } else { T.GivenUpIsReread(s, job); }
    CounterIsRounds(s.context, j, job.rounds);
    CleanRounds(s.context, j, job.rounds);
    if job.rounds > 0 {
      CleanRounds(s.context, j, job.rounds - 1);
    }
  }

  /** A clean job stays as it was accepted, but for its counter, wherever it is: in particular
      in the database. */
  lemma CleanContentStays(s: P.Pipe, job: P.Job)
    requires IsJson(s) && T.Reachable(s) && (T.IsIn(s, job) || T.IsGivenUp(s, job))
    requires job.data.jobId in s.accepted ==> IsClean(s.accepted[job.data.jobId])
    ensures job.data.jobId in s.accepted && job.data == s.accepted[job.data.jobId].(retries := job.rounds)
  {
    JsonIsSearched(s.context.graded);
    forall k ensures KeepsClean(s.context, k) { JsonKeepsClean(s.context.graded, k); }
    CleanIfSearched(s, job);
  }
}
