/**
 The code of `Worker` and `SubmissionQueue` (`src/queue/submission_queue.cpp`) on mutable
 state. Each locked region and each Redis command does one step of the machine in `Pipeline`;
 the bodies of the threads' loops do a run of it.

 The fields are what threads share: the flag, the batch queue, the Redis lists, the stored
 results, the database rows and the spool file. What a thread holds in local variables, and
 what has been lost, appears in ghost fields only.
 */
module SubmissionWorker {
  import opened Wrappers
  import opened Rounds
  import opened Pipeline
  import opened PipelineRecords
  import opened PipelineShutdown
  import opened PipelineTheorems
  import J = JobText
  import G = Grading
  import JobRounds
  import JobScanners

  // ---- Runs, without naming their steps ---------------------------------------

  ghost predicate Reaches(s: Pipe, s': Pipe) {
    exists run :: CanRun(s, run) && Run(s, run) == s'
  }

  lemma Stays(s: Pipe)
    ensures Reaches(s, s)
  {
    assert CanRun(s, []) && Run(s, []) == s;
  }

  lemma ReachesThen(s: Pipe, s': Pipe, a: Action)
    requires Reaches(s, s') && Enabled(s', a)
    ensures Reaches(s, Next(s', a))
  {
    RunOne(s', a);
    assert CanRun(s', [a]) && Run(s', [a]) == Next(s', a);
    ReachesTrans(s, s', Next(s', a));
  }

  lemma ReachesTrans(s: Pipe, s': Pipe, s'': Pipe)
    requires Reaches(s, s') && Reaches(s', s'')
    ensures Reaches(s, s'')
  {
    var run :| CanRun(s, run) && Run(s, run) == s';
    var more :| CanRun(s', more) && Run(s', more) == s'';
    RunThenRun(s, run, more);
  }

  lemma CommitLength(s: Pipe, outcome: Outcome)
    requires Enabled(s, Commit(outcome)) && !outcome.NoCallback?
    ensures AfterCommit(s, outcome).stage.Settling?
    ensures |AfterCommit(s, outcome).stage.failed| <= |s.stage.jobs|
  {
    if outcome.Rows? {
      ChosenLength(s.stage.jobs, outcome.ok);
    }
  }

  /** The failed result, if one is due, stored. */
  function Flushed(s: Pipe): Pipe {
    if s.owed == [] then s else Next(s, StoreOwed)
  }

  lemma ReachesFlushed(s: Pipe, s': Pipe, a: Action)
    requires Reaches(s, s') && Enabled(s', a)
    ensures Reaches(s, Flushed(Next(s', a)))
  {
    ReachesThen(s, s', a);
    if Next(s', a).owed != [] {
      ReachesThen(s, Next(s', a), StoreOwed);
    }
  }

  /** The rows a transaction leaves in the database. */
  function Saved(batch: seq<Job>, outcome: Outcome): seq<Job>
    requires outcome.Rows? ==> |outcome.ok| == |batch|
  {
    if outcome.Rows? && outcome.commit then Chosen(batch, outcome.ok, true) else []
  }

  /** A committed transaction persists exactly the rows whose flag is set and sets the others
      aside; without a commit no row is persisted. */
  ghost predicate RowsAreRight(batch: seq<Job>, outcome: Outcome, persisted: seq<Job>, failed: seq<Job>)
    requires outcome.Rows? ==> |outcome.ok| == |batch|
  {
    if outcome.Rows? && outcome.commit then AreSaved(persisted, batch, outcome.ok) && AreFailed(failed, batch, outcome.ok)
    else persisted == []
  }

  lemma SplitIsRight(batch: seq<Job>, ok: seq<bool>, commit: bool)
    requires |ok| == |batch|
    ensures var saved, failed := Chosen(batch, ok, true), Chosen(batch, ok, false);
            if commit then RowsAreRight(batch, Rows(ok, commit), saved, failed)
            else RowsAreRight(batch, Rows(ok, commit), [], failed + saved)
  {
    ChosenSaved(batch, ok);
    ChosenFailed(batch, ok);
  }

  /** Settling a job touches neither the thread's other jobs, nor the batch queue, nor rows. */
  lemma KeepsStage(s: Pipe, job: Job, pushes: Pushes)
    requires s.owed == []
    ensures var s' := Flushed(Retry(s, job, pushes));
            s'.stage == s.stage && s'.owed == [] && s'.queue == s.queue && s'.db == s.db && s'.vanished == s.vanished
  {
    RetryOwesOne(s, job, pushes);
  }

  class Worker {
    const exams: G.Exams
    var running: bool
    var queue: seq<Job>
    var pending: seq<Letter>
    var dead: seq<Job>
    var spool: seq<Job>
    var results: seq<Result>
    var db: seq<Job>
    ghost var slots: seq<Slot>
    ghost var stage: Stage
    ghost var owed: seq<Result>
    ghost var dropped: seq<Job>
    ghost var vanished: seq<Job>
    ghost var accepted: map<Id, J.Job>

    ghost function Context(): Context {
      JobRounds.Json(G.Returns(exams))
    }

    ghost function State(): Pipe
      reads this
    {
      Pipe(Context(), running, pending, slots, queue, stage, owed, results, db, dead, spool, dropped, vanished, accepted)
    }

    constructor (exams: G.Exams)
      ensures State() == Initial(Context()) && this.exams == exams
    {
      this.exams := exams;
      running, queue, pending, dead, spool, results, db := true, [], [], [], [], [], [];
      slots, stage, owed, dropped, vanished, accepted := seq(WORKERS, i => Polling), Waiting, [], [], [], map[];
    }

    // ---- The queue ------------------------------------------------------------

    /** An empty reply tells the client that the job was not taken. */
    method Enqueue(data: J.Job, up: bool) returns (reply: string)
      requires data.jobId !in accepted && Sendable(data) && data.retries == 0
      modifies this
      ensures State() == Next(old(State()), Action.Enqueue(data, up))
      ensures reply == if up then data.jobId else ""
    {
      var ok := Requeue(Job(data, 0, 0), up);
      if !ok {
        return "";
      }
      accepted := accepted[data.jobId := data];
      return data.jobId;
    }

    /** Pops the oldest text and reads it; a text that is no job is gone. */
    method Dequeue(ghost w: nat) returns (job: Option<Job>)
      requires w < |slots| && slots[w].Polling?
      modifies this
      ensures old(pending) == [] ==> job.None? && State() == old(State())
      ensures old(pending) != [] ==> State() == Next(old(State()), Pop(w))
      ensures job.Some? ==> old(pending) != [] && slots[w] == Holding(job.value)
      ensures job.None? ==> slots == old(slots)
    {
      if pending == [] {
        return None;
      }
      var last := pending[|pending| - 1];
      pending := pending[..|pending| - 1];
      var data := JobScanners.ReadJob(last.text);
      if data.None? {
        return None;
      }
      var read := Job(data.value, last.rounds, last.batches);
      slots := slots[w := Holding(read)];
      return Some(read);
    }

    /** Prints the job and pushes the text, if Redis takes it. */
    method Requeue(job: Job, up: bool) returns (ok: bool)
      modifies this`pending
      ensures ok == up
      ensures pending == if up then [Post(Context(), job)] + old(pending) else old(pending)
    {
      if up {
        var text := JobScanners.WriteJob(job.data);
        pending := [Letter(text, job.rounds, job.batches)] + pending;
      }
      ok := up;
    }

    method PushFailed(job: Job, pushes: Pushes)
      modifies this`dead, this`spool, this`dropped
      ensures State() == DeadLetter(old(State()), job, pushes).(owed := owed)
      ensures dead == if pushes.dead then [job] + old(dead) else old(dead)
      ensures spool == if !pushes.dead && pushes.spool then old(spool) + [job] else old(spool)
    {
      if pushes.dead {
        dead := [job] + dead;
      } else if pushes.spool {
        spool := spool + [job];
      } else {
        dropped := dropped + [job];
      }
    }

    method StoreResult(r: Result)
      modifies this`results
      ensures results == old(results) + [r]
    {
      results := results + [r];
    }

    // ---- The threads ----------------------------------------------------------

    /** What a worker does with a job that was graded. */
    method PushToBatch(ghost w: nat, job: Job)
      requires w < |slots| && slots[w] == Holding(job) && G.Returns(exams)(job.data)
      modifies this
      ensures State() == Next(old(State()), Action.Push(w))
    {
      queue := queue + [job];
      slots := slots[w := Polling];
    }

    /** One turn of a worker's loop: it pops a job, has it graded and pushes it. If the scorer
        does not return, the turn is never finished: what is left then is the state in which
        the worker stays for ever, still holding the job. */
    method WorkOnce(ghost w: nat)
      requires w < |slots| && slots[w].Polling?
      modifies this
      ensures old(pending) == [] ==> State() == old(State())
      ensures old(pending) != [] ==>
                var popped := Next(old(State()), Pop(w));
                State() == if IsGraded(Context(), popped.slots[w]) then Next(popped, Action.Push(w)) else popped
      ensures old(pending) != [] && slots[w].Holding? ==> IsStuck(State(), w)
      ensures Reaches(old(State()), State())
    {
      ghost var s := State();
      Stays(s);
      var job := Dequeue(w);
      if s.pending != [] {
        ReachesThen(s, s, Pop(w));
      }
      if job.Some? && G.Grade(exams, job.value.data) != G.Never {
        var score := G.CallScorer(exams, job.value.data);
        ReachesThen(s, Next(s, Pop(w)), Action.Push(w));
        PushToBatch(w, job.value);
      }
    }

    /** Empties the batch queue, front to back, under the lock. */
    method PopAll() returns (jobs: seq<Job>)
      modifies this`queue
      ensures jobs == old(queue) && queue == []
    {
      jobs := [];
      while queue != []
        invariant jobs + queue == old(queue)
        decreases |queue|
      {
        jobs := jobs + [queue[0]];
        queue := queue[1..];
      }
      assert jobs == jobs + queue;
    }

    /** Takes the whole queue as the next batch. */
    method TakeBatch() returns (batch: seq<Job>)
      requires stage.Waiting?
      modifies this
      ensures old(queue) == [] ==> batch == [] && State() == old(State())
      ensures old(queue) != [] ==> State() == Next(old(State()), Grab) && stage == Stage.Batch(batch) && batch != []
      ensures |batch| == |old(queue)| && forall i :: 0 <= i < |batch| ==> batch[i].data == old(queue)[i].data
    {
      var jobs := PopAll();
      batch := Entering(jobs);
      EnteringLength(jobs);
      forall i | 0 <= i < |batch| ensures batch[i].data == jobs[i].data { EnteringAt(jobs, i); }
      if batch != [] {
        stage := Stage.Batch(batch);
      }
    }

    /** The transaction: a row that fails is set aside, and a commit that fails makes every
        row fail. */
    method RunTransaction(batch: seq<Job>, outcome: Outcome) returns (persisted: seq<Job>, failed: seq<Job>)
      requires stage == Stage.Batch(batch)
      requires outcome.Rows? ==> |outcome.ok| == |batch|
      modifies this
      ensures State() == Next(old(State()), Commit(outcome))
      ensures outcome.NoCallback? ==> persisted == [] && failed == []
      ensures !outcome.NoCallback? ==> stage == Settling(failed, persisted)
      ensures db == old(db) + persisted && RowsAreRight(batch, outcome, persisted, failed)
    {
      persisted, failed := [], [];
      match outcome
      case NoCallback =>
        vanished := vanished + batch;
        stage := Waiting;
      case NoTransaction =>
        failed := batch;
        stage := Settling(failed, persisted);
      case Rows(ok, commit) =>
        persisted, failed := SplitRows(batch, ok);
        if commit {
          db := db + persisted;
        } else {
          failed, persisted := failed + persisted, [];
        }
        stage := Settling(failed, persisted);
        SplitIsRight(batch, ok, commit);
    }

    static method SplitRows(batch: seq<Job>, ok: seq<bool>) returns (persisted: seq<Job>, failed: seq<Job>)
      requires |ok| == |batch|
      ensures persisted == Chosen(batch, ok, true)
      ensures failed == Chosen(batch, ok, false)
    {
      persisted, failed := [], [];
      for i := 0 to |batch|
        invariant persisted + Chosen(batch[i..], ok[i..], true) == Chosen(batch, ok, true)
        invariant failed + Chosen(batch[i..], ok[i..], false) == Chosen(batch, ok, false)
      {
        assert batch[i..][1..] == batch[i + 1..] && ok[i..][1..] == ok[i + 1..];
        if ok[i] {
          persisted := persisted + [batch[i]];
        } else {
          failed := failed + [batch[i]];
        }
      }
    }

    /** The dead letter and the failed result of a job. */
    method GiveUp(job: Job, pushes: Pushes)
      requires owed == []
      modifies this
      ensures State() == Flushed(DeadLetter(old(State()), job, pushes))
    {
      PushFailed(job, pushes);
      StoreResult(Result(job.data.jobId, false));
    }

    /** A requeue whose outcome is looked at: if Redis does not take the job, it goes to the
        dead-letter list and gets its failed result. */
    method CheckedRequeue(job: Job, pushes: Pushes) returns (ok: bool)
      requires owed == []
      modifies this
      ensures ok == pushes.requeue
      ensures State() == if ok then old(State()).(pending := [Post(Context(), job)] + old(pending))
                         else Flushed(DeadLetter(old(State()), job, pushes))
    {
      ok := Requeue(job, pushes.requeue);
      if !ok {
        GiveUp(job, pushes);
      }
    }

    /** What happens to a job that could not be saved, while running and in the final drain. */
    method SettleJob(job: Job, pushes: Pushes)
      requires owed == []
      modifies this
      ensures State() == Flushed(Retry(old(State()), job, pushes))
    {
      if job.data.retries < MAX_RETRIES {
        var ok := CheckedRequeue(Recounted(job), pushes);
      } else {
        GiveUp(job, pushes);
      }
    }

    /** Settles the failed jobs of a batch, one after the other. */
    method SettleFailed(failed: seq<Job>, ghost persisted: seq<Job>, pushes: seq<Pushes>)
      requires stage == Settling(failed, persisted) && owed == [] && |pushes| == |failed|
      modifies this
      ensures Reaches(old(State()), State())
      ensures stage == Settling([], persisted) && owed == []
      ensures queue == old(queue) && db == old(db) && vanished == old(vanished)
    {
      ghost var s := State();
      Stays(s);
      for i := 0 to |failed|
        invariant Reaches(s, State())
        invariant stage == Settling(failed[i..], persisted) && owed == []
        invariant queue == old(queue) && db == old(db) && vanished == old(vanished)
      {
        ghost var now := State();
        assert now.stage.failed[0] == failed[i] && now.stage.failed[1..] == failed[i + 1..];
        ReachesFlushed(s, now, Settle(pushes[i]));
        SettleNext(failed[i], failed[i + 1..], persisted, pushes[i]);
      }
      assert failed[|failed|..] == [];
    }

    method SettleNext(job: Job, ghost rest: seq<Job>, ghost persisted: seq<Job>, pushes: Pushes)
      requires stage.Settling? && stage.failed != [] && stage.failed[0] == job && stage.failed[1..] == rest
      requires stage.persisted == persisted && owed == []
      modifies this
      ensures State() == Flushed(Next(old(State()), Settle(pushes)))
      ensures stage == Settling(rest, persisted) && owed == []
      ensures queue == old(queue) && db == old(db) && vanished == old(vanished)
    {
      ghost var now := State();
      stage := Settling(rest, persisted);
      ghost var taken := State();
      assert taken == now.(stage := now.stage.(failed := now.stage.failed[1..]));
      SettleJob(job, pushes);
      KeepsStage(taken, job, pushes);
    }

    /** Stores the results of the jobs that were saved. */
    method StorePersistedResults(persisted: seq<Job>)
      requires stage == Settling([], persisted) && owed == []
      modifies this
      ensures Reaches(old(State()), State())
      ensures stage == Settling([], []) && owed == []
      ensures queue == old(queue) && db == old(db) && vanished == old(vanished)
    {
      ghost var s := State();
      Stays(s);
      for i := 0 to |persisted|
        invariant Reaches(s, State())
        invariant stage == Settling([], persisted[i..]) && owed == []
        invariant queue == old(queue) && db == old(db) && vanished == old(vanished)
      {
        ghost var now := State();
        assert now.stage.persisted[0] == persisted[i] && now.stage.persisted[1..] == persisted[i + 1..];
        ReachesThen(s, now, StorePersisted);
        StoreResult(Result(persisted[i].data.jobId, true));
        stage := Settling([], persisted[i + 1..]);
        assert State() == Next(now, StorePersisted);
      }
      assert persisted[|persisted|..] == [];
    }

    /** One turn of the batch thread's loop. */
    method RunBatch(outcome: Outcome, pushes: seq<Pushes>)
      requires stage.Waiting? && owed == []
      requires outcome.Rows? ==> |outcome.ok| == |Entering(queue)|
      requires |pushes| == |queue|
      modifies this
      ensures Reaches(old(State()), State())
      ensures stage.Waiting? && owed == [] && queue == []
      ensures db == old(db) + Saved(Entering(old(queue)), outcome)
      ensures outcome.Rows? && outcome.commit ==> AreSaved(Saved(Entering(old(queue)), outcome), Entering(old(queue)), outcome.ok)
      ensures vanished == old(vanished) + if outcome.NoCallback? then Entering(old(queue)) else []
    {
      ghost var s := State();
      Stays(s);
      EnteringLength(queue);
      var batch := TakeBatch();
      if batch == [] {
        return;
      }
      ReachesThen(s, s, Grab);
      ghost var grabbed := State();
      ReachesThen(s, grabbed, Commit(outcome));
      var persisted, failed := RunTransaction(batch, outcome);
      if outcome.NoCallback? {
        return;
      }
      CommitLength(grabbed, outcome);
      if outcome.Rows? {
        ChosenSaved(batch, outcome.ok);
      }
      ghost var committed := State();
      FinishBatch(persisted, failed, pushes[..|failed|]);
      ReachesTrans(s, committed, State());
    }

    /** What follows the transaction: failed jobs are settled, saved ones get their results. */
    method FinishBatch(persisted: seq<Job>, failed: seq<Job>, pushes: seq<Pushes>)
      requires stage == Settling(failed, persisted) && owed == [] && |pushes| == |failed|
      modifies this
      ensures Reaches(old(State()), State())
      ensures stage.Waiting? && owed == []
      ensures queue == old(queue) && db == old(db) && vanished == old(vanished)
    {
      ghost var s := State();
      SettleFailed(failed, persisted, pushes);
      ghost var settled := State();
      StorePersistedResults(persisted);
      ReachesTrans(s, settled, State());
      ReachesThen(s, State(), EndBatch);
      stage := Waiting;
    }

    // ---- Shutdown -------------------------------------------------------------

    /** Clears the flag; the threads notice it by themselves. */
    method RequestStop()
      requires running
      modifies this`running
      ensures State() == Next(old(State()), Action.Stop)
    {
      running := false;
    }

    /** After all threads are joined, settles what is left in the batch queue. */
    method FinalDrain(pushes: seq<Pushes>)
      requires stage.Joined? && owed == [] && |pushes| == |queue|
      requires forall w :: 0 <= w < |slots| ==> slots[w].Left?
      modifies this
      ensures Reaches(old(State()), State())
      ensures stage.Stopped? && queue == [] && db == old(db) && vanished == old(vanished)
    {
      ghost var s := State();
      Stays(s);
      ReachesThen(s, s, BeginDrain);
      var rest := PopAll();
      stage := Stage.Draining(rest);
      assert State() == Next(s, BeginDrain);
      DrainRest(s, rest, pushes);
      ReachesThen(s, State(), EndDrain);
      stage := Stopped;
    }

    method DrainRest(ghost s: Pipe, rest: seq<Job>, pushes: seq<Pushes>)
      requires Reaches(s, State()) && stage == Stage.Draining(rest) && owed == [] && |pushes| == |rest|
      modifies this
      ensures Reaches(s, State())
      ensures stage == Stage.Draining([]) && owed == []
      ensures queue == old(queue) && db == old(db) && vanished == old(vanished)
    {
      for i := 0 to |rest|
        invariant Reaches(s, State())
        invariant stage == Stage.Draining(rest[i..]) && owed == []
        invariant queue == old(queue) && db == old(db) && vanished == old(vanished)
      {
        ghost var now := State();
        assert now.stage.rest[0] == rest[i] && now.stage.rest[1..] == rest[i + 1..];
        ReachesFlushed(s, now, Drain(pushes[i]));
        DrainNext(rest[i], rest[i + 1..], pushes[i]);
      }
      assert rest[|rest|..] == [];
    }

    method DrainNext(job: Job, ghost rest: seq<Job>, pushes: Pushes)
      requires stage.Draining? && stage.rest != [] && stage.rest[0] == job && stage.rest[1..] == rest
      requires owed == []
      modifies this
      ensures State() == Flushed(Next(old(State()), Drain(pushes)))
      ensures stage == Stage.Draining(rest) && owed == []
      ensures queue == old(queue) && db == old(db) && vanished == old(vanished)
    {
      stage := Stage.Draining(rest);
      ghost var taken := State();
      SettleJob(job, pushes);
      KeepsStage(taken, job, pushes);
    }
  }
}
