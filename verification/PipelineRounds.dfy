/**
 How often a job is tried. While the database is down and Redis is up, a failed job comes
 back as long as its counter, as it is read, allows it and the scorer returns for it: the
 bounds of `PipelineTheorems` are reached, and a job that never uses up its retries keeps the
 pipeline busy for ever.
 */
module PipelineRounds {
  import opened Rounds
  import opened Pipeline
  import opened PipelineTrace
  import opened PipelineTheorems
  import J = JobText

  /** Nothing is going on, and the job is the only one that is pending. */
  predicate Idle(s: Pipe, job: Job) {
    && s.running && s.stage.Waiting? && s.queue == [] && s.owed == []
    && |s.slots| > 0 && s.slots[0].Polling?
    && |s.pending| == 1 && Opened(s.context, s.pending[0]) == [job]
  }

  const UP := Pushes(true, true, true)

  /** The job goes into a batch. */
  const OUT := [Pop(0), Action.Push(0), Grab]

  /** The batch fails as a whole, and the job is sent again. */
  const BACK := [Commit(NoTransaction), Settle(UP), EndBatch]

  function Entered(job: Job): Job {
    job.(batches := job.batches + 1)
  }

  function Popped(s: Pipe, job: Job): Pipe
    requires Idle(s, job)
  {
    s.(pending := [], slots := s.slots[0 := Holding(job)])
  }

  function Batched(s: Pipe, job: Job): Pipe {
    s.(pending := [], stage := Batch([Entered(job)]))
  }

  lemma GoesOut(s: Pipe, job: Job)
    requires Idle(s, job) && s.context.graded(job.data)
    ensures CanRun(s, OUT) && Run(s, OUT) == Batched(s, job)
  {
    var popped := Popped(s, job);
    assert Next(s, Pop(0)) == popped;
    var pushed := s.(pending := [], queue := [job]);
    assert popped.slots[0 := Polling] == s.slots && [] + [job] == [job];
    assert Next(popped, Action.Push(0)) == pushed;
    assert Entering([job]) == [Entered(job)] by { assert [job][1..] == []; }
    assert Next(pushed, Grab) == Batched(s, job);
    ThreeSteps(s, OUT);
  }

  lemma ThreeSteps(s: Pipe, run: seq<Action>)
    requires |run| == 3 && Enabled(s, run[0]) && Enabled(Next(s, run[0]), run[1])
    requires Enabled(Next(Next(s, run[0]), run[1]), run[2])
    ensures CanRun(s, run) && Run(s, run) == Next(Next(Next(s, run[0]), run[1]), run[2])
  {
    var s1 := Next(s, run[0]);
    var s2 := Next(s1, run[1]);
    var r1, r2 := run[1..], run[1..][1..];
    assert r1[0] == run[1] && r2[0] == run[2] && r2[1..] == [];
    assert CanRun(Next(s2, run[2]), []) && Run(Next(s2, run[2]), []) == Next(s2, run[2]);
    assert CanRun(s2, r2) && Run(s2, r2) == Next(s2, run[2]);
    assert CanRun(s1, r1) && Run(s1, r1) == Next(s2, run[2]);
  }

  /** The state after one whole round. */
  function Round(s: Pipe, job: Job): Pipe {
    s.(pending := [Post(s.context, Recounted(Entered(job)))])
  }

  lemma ComesBack(s: Pipe, job: Job)
    requires Idle(s, job) && job.data.retries < MAX_RETRIES
    ensures CanRun(Batched(s, job), BACK) && Run(Batched(s, job), BACK) == Round(s, job)
  {
    var batched := Batched(s, job);
    var settling := batched.(stage := Settling([Entered(job)], []));
    assert Next(batched, Commit(NoTransaction)) == settling;
    var settled := settling.(stage := Settling([], []), pending := [Post(s.context, Recounted(Entered(job)))]);
    assert [Entered(job)][1..] == [] && [Post(s.context, Recounted(Entered(job)))] + [] == settled.pending;
    assert Next(settling, Settle(UP)) == settled;
    assert Next(settled, EndBatch) == Round(s, job);
    ThreeSteps(batched, BACK);
  }

  lemma OneRound(s: Pipe, job: Job) returns (run: seq<Action>)
    requires Keeps(s.context) && Sendable(job.data) && Idle(s, job) && job.data.retries < MAX_RETRIES
    requires s.context.graded(job.data)
    ensures |run| == 6 && NoEnqueue(run) && CanRun(s, run) && Run(s, run) == Round(s, job)
    ensures Idle(Round(s, job), Returned(s.context, Entered(job))) && Sendable(Again(s.context, job.data))
  {
    run := OUT + BACK;
    GoesOut(s, job);
    ComesBack(s, job);
    RunThenRun(s, OUT, BACK);
    PostedReturns(s.context, Entered(job));
    AgainKeeps(s.context, job.data);
  }

  /** The run goes through n rounds of the job, which has then become `job'`. */
  ghost predicate Goes(s: Pipe, job: Job, n: nat, run: seq<Action>, job': Job) {
    && |run| == 6 * n && NoEnqueue(run) && CanRun(s, run)
    && Idle(Run(s, run), job') && Run(s, run).context == s.context && Run(s, run).accepted == s.accepted
    && job' == Job(Nth(s.context, job.data, n), job.rounds + n, job.batches + n)
  }

  lemma {:induction false} ManyRounds(s: Pipe, job: Job, n: nat) returns (run: seq<Action>, job': Job)
    requires Keeps(s.context) && Sendable(job.data) && Idle(s, job)
    requires Tried(s.context, job.data, n) && Passes(s.context, job.data, n)
    ensures Goes(s, job, n, run, job')
    decreases n
  {
    if n == 0 {
      NoRounds(s, job);
      return [], job;
    }
    TriedBefore(s.context, job.data, n - 1, n);
    var before, last := ManyRounds(s, job, n - 1);
    run, job' := OneMore(s, job, n, before, last);
  }

  lemma NoRounds(s: Pipe, job: Job)
    requires Idle(s, job)
    ensures Goes(s, job, 0, [], job)
  {
  }

  lemma OneMore(s: Pipe, job: Job, n: nat, run: seq<Action>, last: Job) returns (run': seq<Action>, job': Job)
    requires Keeps(s.context) && Sendable(job.data) && 0 < n && Goes(s, job, n - 1, run, last)
    requires Tried(s.context, job.data, n) && Passes(s.context, job.data, n)
    ensures Goes(s, job, n, run', job')
  {
    NthKeeps(s.context, job.data, n - 1);
    var s1 := Run(s, run);
    var round := OneRound(s1, last);
    job' := Returned(s.context, Entered(last));
    run' := run + round;
    ThenRun(s, run, s1, round);
  }

  lemma ThenRun(s: Pipe, run: seq<Action>, s1: Pipe, more: seq<Action>)
    requires CanRun(s, run) && Run(s, run) == s1 && CanRun(s1, more)
    ensures CanRun(s, run + more) && Run(s, run + more) == Run(s1, more)
  {
    RunThenRun(s, run, more);
  }

  // ---- From the start ---------------------------------------------------------

  function Started(c: Context, j: J.Job): Pipe {
    var s := Initial(c);
    s.(pending := [Post(c, Job(j, 0, 0))], accepted := map[j.jobId := j])
  }

  predicate IsNew(j: J.Job) {
    Sendable(j) && j.retries == 0
  }

  lemma Starts(c: Context, j: J.Job)
    requires Keeps(c) && IsNew(j)
    ensures Enabled(Initial(c), Enqueue(j, true)) && Next(Initial(c), Enqueue(j, true)) == Started(c, j)
    ensures Idle(Started(c, j), Job(Reread(c, j), 0, 0)) && Sendable(Reread(c, j))
  {
    RereadKeeps(c, j);
    TimesPosted(c, Job(j, 0, 0), j.jobId);
    assert [Post(c, Job(j, 0, 0))] + [] == [Post(c, Job(j, 0, 0))];
    assert map[][j.jobId := j] == map[j.jobId := j];
  }

  lemma RunFrom(s: Pipe, a: Action, run: seq<Action>)
    requires Enabled(s, a)
    ensures CanRun(s, [a] + run) <==> CanRun(Next(s, a), run)
    ensures CanRun(s, [a] + run) ==> Run(s, [a] + run) == Run(Next(s, a), run)
  {
    assert ([a] + run)[0] == a && ([a] + run)[1..] == run;
  }

  /** The accepted job is in its batch number n. */
  ghost predicate InBatchNumber(s: Pipe, j: J.Job, n: nat) {
    && j.jobId in s.accepted && s.accepted[j.jobId] == j
    && s.stage.Batch? && exists job :: job in s.stage.jobs && job.data.jobId == j.jobId && job.batches == n
  }

  ghost predicate CanEnterBatch(c: Context, j: J.Job, n: nat) {
    exists run :: CanRun(Initial(c), run) && InBatchNumber(Run(Initial(c), run), j, n)
  }

  lemma EntersBatch(c: Context, j: J.Job, n: nat)
    requires Keeps(c) && IsNew(j) && Tried(c, Reread(c, j), n) && Passes(c, Reread(c, j), n + 1)
    ensures CanEnterBatch(c, j, n + 1)
  {
    Starts(c, j);
    var run, job := ManyRounds(Started(c, j), Job(Reread(c, j), 0, 0), n);
    var s := Run(Started(c, j), run);
    GoesOut(s, job);
    RunThenRun(Started(c, j), run, OUT);
    RunFrom(Initial(c), Enqueue(j, true), run + OUT);
    NthKeeps(c, Reread(c, j), n);
    RereadKeeps(c, j);
    assert Entered(job) in Batched(s, job).stage.jobs;
    assert InBatchNumber(Run(Initial(c), [Enqueue(j, true)] + (run + OUT)), j, n + 1);
  }

  lemma EnteredIsTried(s: Pipe, j: J.Job, n: nat)
    requires Reachable(s) && InBatchNumber(s, j, n + 1)
    ensures Tried(s.context, Reread(s.context, j), n) && Passes(s.context, Reread(s.context, j), n + 1)
  {
    var job :| job in s.stage.jobs && job.data.jobId == j.jobId && job.batches == n + 1;
    BatchesAreTried(s, job);
  }

  /** A new job can enter a batch for the n+1st time exactly when the counter, as it is read
      after n failures, was still below the limit, and the scorer returns for the job as it is
      read in each of these rounds. */
  lemma BatchesExactly(c: Context, j: J.Job, n: nat)
    requires Keeps(c) && IsNew(j)
    ensures CanEnterBatch(c, j, n + 1) <==> Tried(c, Reread(c, j), n) && Passes(c, Reread(c, j), n + 1)
  {
    if Tried(c, Reread(c, j), n) && Passes(c, Reread(c, j), n + 1) {
      EntersBatch(c, j, n);
    }
    if run :| CanRun(Initial(c), run) && InBatchNumber(Run(Initial(c), run), j, n + 1) {
      RunKeepsContext(Initial(c), run);
      EnteredIsTried(Run(Initial(c), run), j, n);
    }
  }

  // ---- From any state ---------------------------------------------------------

  /** The same for every accepted job. */
  ghost predicate AcceptedGraded(c: Context, accepted: map<Id, J.Job>) {
    forall id :: id in accepted ==> AlwaysGraded(c, First(c, accepted, id))
  }

  ghost predicate IsEndless(s: Pipe, id: Id) {
    id in s.accepted && Live(s, id) > 0 && !Ends(s.context, First(s.context, s.accepted, id))
  }

  ghost predicate Busy(s: Pipe, id: Id) {
    && Inv(s) && s.running && |s.slots| > 0
    && AcceptedGraded(s.context, s.accepted) && IsEndless(s, id)
  }

  lemma HeldIsGraded(s: Pipe, w: nat)
    requires TraceOk(s) && AcceptedGraded(s.context, s.accepted) && w < |s.slots| && s.slots[w].Holding?
    ensures Enabled(s, Action.Push(w))
  {
    SlotTraced(s.context, s.accepted, s.slots, w, Left);
    var job := s.slots[w].job;
    assert GradedAt(s.context, First(s.context, s.accepted, job.data.jobId), job.rounds);
  }

  /** Something can be done: with the queue empty, a worker pushes or pops. */
  lemma WorkersGoOn(s: Pipe, id: Id) returns (a: Action)
    requires Busy(s, id) && s.stage.Waiting? && s.queue == []
    ensures Enabled(s, a) && (a.Push? || a.Pop?)
  {
    if w: nat :| w < |s.slots| && s.slots[w].Holding? {
      HeldIsGraded(s, w);
      a := Action.Push(w);
    } else {
      NobodyHolds(s.slots);
      a := Pop(0);
    }
  }

  /** A step with which no job comes to an end, unless it has used up its retries. */
  predicate IsKind(a: Action) {
    || a.Push? || a.Pop? || a.Grab? || a.StoreOwed? || a.StorePersisted? || a.EndBatch?
    || a == Commit(NoTransaction) || a == Settle(UP)
  }

  lemma GoesOn(s: Pipe, id: Id) returns (a: Action)
    requires Busy(s, id)
    ensures Enabled(s, a) && IsKind(a)
  {
    if s.owed != [] {
      a := StoreOwed;
    } else {
      match s.stage
      case Waiting =>
        if s.queue != [] { a := Grab; } else { a := WorkersGoOn(s, id); }
      case Batch(_) => a := Commit(NoTransaction);
      case Settling(failed, persisted) =>
        a := if failed != [] then Settle(UP) else if persisted != [] then StorePersisted else EndBatch;
    }
  }

  function Ended(s: Pipe, id: Id): nat {
    Times(s.db, id) + Failed(s, id) + Times(s.vanished, id)
  }

  lemma UsedUp(s: Pipe, job: Job)
    requires Traced(InBatch, s.context, s.accepted, job) && job.data.retries >= MAX_RETRIES
    ensures Ends(s.context, First(s.context, s.accepted, job.data.jobId))
  {
    assert GivesUp(s.context, First(s.context, s.accepted, job.data.jobId), job.rounds);
  }

  lemma NoneSettled(s: Pipe, id: Id)
    requires Busy(s, id) && Enabled(s, Settle(UP))
    ensures Ended(Next(s, Settle(UP)), id) == Ended(s, id)
  {
    var job := s.stage.failed[0];
    if job.data.retries >= MAX_RETRIES {
      UsedUp(s, job);
      TimesOne(job, id);
      DeadLetterMoves(s.(stage := s.stage.(failed := s.stage.failed[1..])), job, UP, id);
    }
  }

  lemma NoneEnds(s: Pipe, a: Action, id: Id)
    requires Busy(s, id) && Enabled(s, a) && IsKind(a)
    ensures Ended(Next(s, a), id) == Ended(s, id)
  {
    if a.Settle? { NoneSettled(s, id); } else { EndsStay(s, a); }
  }

  lemma EndsStay(s: Pipe, a: Action)
    requires Enabled(s, a) && IsKind(a) && !a.Settle?
    ensures var s' := Next(s, a);
            && s'.db == s.db && s'.dead == s.dead && s'.spool == s.spool
            && s'.dropped == s.dropped && s'.vanished == s.vanished
  {
  }

  lemma StaysBusy(s: Pipe, a: Action, id: Id)
    requires Busy(s, id) && Enabled(s, a) && IsKind(a)
    ensures Busy(Next(s, a), id)
  {
    SettledIsSendable(s, a);
    StepKeepsInv(s, a);
    StepMoves(s, a, id);
    NoneEnds(s, a, id);
    StepAccepts(s, a);
    StaysUp(s, a);
  }

  lemma StaysUp(s: Pipe, a: Action)
    requires Enabled(s, a) && IsKind(a)
    ensures Next(s, a).running == s.running && |Next(s, a).slots| == |s.slots|
  {
  }

  /** A job that never uses up its counter keeps the pipeline busy. */
  lemma {:induction false} LongRun(s: Pipe, id: Id, n: nat) returns (run: seq<Action>)
    requires Busy(s, id)
    ensures |run| == n && CanRun(s, run) && NoEnqueue(run)
    decreases n
  {
    if n == 0 {
      return [];
    }
    var a := GoesOn(s, id);
    StaysBusy(s, a, id);
    var rest := LongRun(Next(s, a), id, n - 1);
    run := [a] + rest;
    RunFrom(s, a, rest);
    NotFirst(a, rest);
  }

  lemma NotFirst(a: Action, run: seq<Action>)
    requires !a.Enqueue? && NoEnqueue(run)
    ensures NoEnqueue([a] + run)
  {
  }

  ghost predicate RestsWithin(s: Pipe, bound: nat) {
    forall run :: CanRun(s, run) && NoEnqueue(run) ==> |run| <= bound
  }

  lemma BusyNeverRests(s: Pipe, id: Id, bound: nat)
    requires Busy(s, id)
    ensures !RestsWithin(s, bound)
  {
    var run := LongRun(s, id, bound + 1);
  }

  lemma LiveRestsWithin(s: Pipe)
    requires TraceOk(s) && LiveRest(s)
    ensures RestsWithin(s, Measure(s))
  {
    LiveJobsRest(s);
    forall run | CanRun(s, run) && NoEnqueue(run) ensures |run| <= Measure(s) { RunsEnd(s, run); }
  }

  lemma {:induction false} RunKeepsWorkers(s: Pipe, run: seq<Action>)
    requires CanRun(s, run)
    ensures |Run(s, run).slots| == |s.slots|
    decreases |run|
  {
    if run != [] {
      RunKeepsWorkers(Next(s, run[0]), run[1..]);
    }
  }

  lemma ThereAreWorkers(s: Pipe)
    requires Reachable(s)
    ensures |s.slots| == WORKERS
  {
    var run :| CanRun(Initial(s.context), run) && Run(Initial(s.context), run) == s;
    RunKeepsWorkers(Initial(s.context), run);
  }

  /** From any reachable state of a running pipeline, in which the scorer returns for all
      accepted jobs: the runs without new jobs are bounded, whatever fails, exactly when every
      job on its way uses up its counter. One that does not is enough to keep it busy. */
  lemma RestsFrom(s: Pipe)
    requires Reachable(s) && s.running && AcceptedGraded(s.context, s.accepted)
    ensures (exists bound :: RestsWithin(s, bound)) <==> forall id :: !IsEndless(s, id)
  {
    ReachableInv(s);
    ThereAreWorkers(s);
    if id :| IsEndless(s, id) {
      forall bound: nat ensures !RestsWithin(s, bound) { BusyNeverRests(s, id, bound); }
    } else {
      forall id | id in s.accepted && Live(s, id) > 0 ensures Rests(s.context, First(s.context, s.accepted, id)) {
        assert !IsEndless(s, id);
        RestsMeans(s.context, First(s.context, s.accepted, id));
      }
      LiveRestsWithin(s);
    }
  }

  // ---- One accepted job -------------------------------------------------------

  lemma StartedIsReachable(c: Context, j: J.Job)
    requires Keeps(c) && IsNew(j)
    ensures Reachable(Started(c, j)) && Live(Started(c, j), j.jobId) == 1
    ensures forall id :: id in Started(c, j).accepted ==> id == j.jobId
  {
    Starts(c, j);
    var s, run := Started(c, j), [Enqueue(j, true)];
    RunFrom(Initial(c), Enqueue(j, true), []);
    assert run == run + [];
    assert CanRun(s, []) && Run(s, []) == s;
    RereadKeeps(c, j);
    OnlyPending(s, Job(Reread(c, j), 0, 0), j.jobId);
  }

  lemma OnlyPending(s: Pipe, job: Job, id: Id)
    requires Idle(s, job) && job.data.jobId == id && forall w :: 0 <= w < |s.slots| ==> !s.slots[w].Holding?
    ensures Live(s, id) == 1
  {
    NobodyHolds(s.slots);
    OpenOne(s.context, s.pending[0]);
    assert s.pending == [s.pending[0]];
    TimesOne(job, id);
  }

  /** With one accepted job the runs without new jobs are bounded, whatever fails, exactly when
      the job uses up its counter or is held for ever. */
  lemma RestsExactly(c: Context, j: J.Job)
    requires Keeps(c) && IsNew(j)
    ensures (exists bound :: RestsWithin(Started(c, j), bound)) <==> Rests(c, Reread(c, j))
  {
    var s := Started(c, j);
    StartedIsReachable(c, j);
    ReachableInv(s);
    ThereAreWorkers(s);
    if Rests(c, Reread(c, j)) {
      LiveRestsWithin(s);
    } else {
      RestsMeans(c, Reread(c, j));
      assert Busy(s, j.jobId);
      forall bound: nat ensures !RestsWithin(s, bound) { BusyNeverRests(s, j.jobId, bound); }
    }
  }
}
