/**
 The submission pipeline of `src/queue/submission_queue.cpp` as a state machine: the Redis
 pending list, the workers, the in-memory batch queue, the transaction, the settling of a
 failed batch, the dead-letter list with its spool file, and the shutdown drain.

 Every Redis command and every region under the mutex is one step. What Redis, the
 database and the file system do is chosen by the environment and carried by the action.

 The pending list holds texts: a job is printed when it is pushed and read when it is popped,
 and is then what the reader makes of the text. A worker grades a job between popping it and
 pushing it to the batch queue; if the scorer does not return for the job, the push never
 comes. Writer, reader and the jobs that are graded are a component of the state that no step
 changes. Two numbers are only for the record: how often a job was sent again, and how many
 batches it has entered.
 */
module Pipeline {
  import opened Wrappers
  import opened Rounds
  import J = JobText

  type Id = string

  datatype Job = Job(data: J.Job, rounds: nat, batches: nat)

  /** A text in the pending list. */
  datatype Letter = Letter(text: string, rounds: nat, batches: nat)

  datatype Slot = Polling | Holding(job: Job) | Left

  /** Where the batch thread, and after it the stopping thread, stands. */
  datatype Stage =
    | Waiting
    | Batch(jobs: seq<Job>)
    | Settling(failed: seq<Job>, persisted: seq<Job>)
    | Joined
    | Draining(rest: seq<Job>)
    | Stopped

  datatype Result = Result(id: Id, success: bool)

  /** Lists grow at the left and are popped at the right, as LPUSH and BRPOP do. `owed` is
      the result the settling thread stores next. Four fields hold the jobs that
      have come to an end without being in the database: in the dead-letter list, in the
      spool file, dropped because even the spool could not be written, and vanished with a
      batch whose database callback was never called. */
  datatype Pipe = Pipe(context: Context, running: bool, pending: seq<Letter>, slots: seq<Slot>, queue: seq<Job>, stage: Stage,
                       owed: seq<Result>, results: seq<Result>, db: seq<Job>,
                       dead: seq<Job>, spool: seq<Job>, dropped: seq<Job>, vanished: seq<Job>,
                       accepted: map<Id, J.Job>)

  const WORKERS := 8

  function Initial(context: Context): Pipe {
    Pipe(context, true, [], seq(WORKERS, i => Polling), [], Waiting, [], [], [], [], [], [], [], map[])
  }

  // ---- What the environment decides -------------------------------------------

  /** Outcomes of the list pushes for one failed job: the requeue, the dead-letter push and
      the spool write, each used only when the one before it fails. */
  datatype Pushes = Pushes(requeue: bool, dead: bool, spool: bool)

  /** `with_global_pg` may not call its callback; the transaction may not begin; each row
      may fail; the commit may fail. */
  datatype Outcome = NoCallback | NoTransaction | Rows(ok: seq<bool>, commit: bool)

  datatype Action =
    | Enqueue(data: J.Job, ok: bool)
    | Pop(w: nat)
    | Push(w: nat)
    | Leave(w: nat)
    | Grab
    | Commit(outcome: Outcome)
    | Settle(pushes: Pushes)
    | StoreOwed
    | StorePersisted
    | EndBatch
    | Stop
    | JoinBatch
    | BeginDrain
    | Drain(drained: Pushes)
    | EndDrain

  // ---- Texts ------------------------------------------------------------------

  function Post(c: Context, job: Job): Letter {
    Letter(c.write(job.data), job.rounds, job.batches)
  }

  /** The job that is read from a text, if it is one. */
  function Opened(c: Context, l: Letter): seq<Job> {
    match c.read(l.text)
    case Some(data) => [Job(data, l.rounds, l.batches)]
    case None => []
  }

  function OpenAll(c: Context, letters: seq<Letter>): seq<Job> {
    if letters == [] then [] else Opened(c, letters[0]) + OpenAll(c, letters[1..])
  }

  /** The job as it is sent again. */
  function Recounted(job: Job): Job {
    job.(data := Counted(job.data), rounds := job.rounds + 1)
  }

  // ---- Steps ------------------------------------------------------------------

  /** A worker whose scorer returns; it calls the scorer after the pop and before the push. */
  predicate IsGraded(c: Context, slot: Slot) {
    slot.Holding? && c.graded(slot.job.data)
  }

  predicate Enabled(s: Pipe, a: Action) {
    match a
    case Enqueue(data, _) => data.jobId !in s.accepted && Sendable(data) && data.retries == 0
    case Pop(w) => w < |s.slots| && s.slots[w].Polling? && s.pending != []
    case Push(w) => w < |s.slots| && IsGraded(s.context, s.slots[w])
    case Leave(w) => w < |s.slots| && s.slots[w].Polling? && !s.running
    case Grab => s.stage.Waiting? && s.queue != []
    case Commit(outcome) => s.stage.Batch? && (outcome.Rows? ==> |outcome.ok| == |s.stage.jobs|)
    case Settle(_) => s.stage.Settling? && s.stage.failed != [] && s.owed == []
    case StoreOwed => s.owed != []
    case StorePersisted => s.stage.Settling? && s.stage.failed == [] && s.stage.persisted != [] && s.owed == []
    case EndBatch => s.stage == Settling([], []) && s.owed == []
    case Stop => s.running
    case JoinBatch => s.stage.Waiting? && s.queue == [] && !s.running
    case BeginDrain => s.stage.Joined? && forall w :: 0 <= w < |s.slots| ==> s.slots[w].Left?
    case Drain(_) => s.stage.Draining? && s.stage.rest != [] && s.owed == []
    case EndDrain => s.stage == Draining([]) && s.owed == []
  }

  /** Jobs entering a batch. */
  function Entering(jobs: seq<Job>): seq<Job> {
    if jobs == [] then [] else [jobs[0].(batches := jobs[0].batches + 1)] + Entering(jobs[1..])
  }

  /** The rows of a transaction with the given flag, in order. */
  function Chosen(jobs: seq<Job>, ok: seq<bool>, flag: bool): seq<Job>
    requires |ok| == |jobs|
  {
    if jobs == [] then []
    else (if ok[0] == flag then [jobs[0]] else []) + Chosen(jobs[1..], ok[1..], flag)
  }

  function AfterCommit(s: Pipe, outcome: Outcome): (s': Pipe)
    requires Enabled(s, Commit(outcome))
    ensures s'.context == s.context && s'.accepted == s.accepted
  {
    var jobs := s.stage.jobs;
    match outcome
    case NoCallback => s.(stage := Waiting, vanished := s.vanished + jobs)
    case NoTransaction => s.(stage := Settling(jobs, []))
    case Rows(ok, commit) =>
      var persisted, failed := Chosen(jobs, ok, true), Chosen(jobs, ok, false);
      if commit then s.(stage := Settling(failed, persisted), db := s.db + persisted)
      else s.(stage := Settling(failed + persisted, []))
  }

  /** `push_failed`, and the failed result that always follows it. */
  function DeadLetter(s: Pipe, job: Job, pushes: Pushes): (r: Pipe)
    ensures r.context == s.context && r.accepted == s.accepted
  {
    var s' := s.(owed := s.owed + [Result(job.data.jobId, false)]);
    if pushes.dead then s'.(dead := [job] + s.dead)
    else if pushes.spool then s'.(spool := s.spool + [job])
    else s'.(dropped := s.dropped + [job])
  }

  /** A job that failed: one more try if it has any left and Redis takes it. */
  function Retry(s: Pipe, job: Job, pushes: Pushes): (s': Pipe)
    ensures s'.context == s.context && s'.accepted == s.accepted
  {
    if job.data.retries < MAX_RETRIES then
      var again := Recounted(job);
      if pushes.requeue then s.(pending := [Post(s.context, again)] + s.pending) else DeadLetter(s, again, pushes)
    else DeadLetter(s, job, pushes)
  }

  function Next(s: Pipe, a: Action): Pipe
    requires Enabled(s, a)
  {
    match a
    case Enqueue(data, ok) =>
      if ok then s.(pending := [Post(s.context, Job(data, 0, 0))] + s.pending, accepted := s.accepted[data.jobId := data])
      else s
    case Pop(w) =>
      var n := |s.pending| - 1;
      var s' := s.(pending := s.pending[..n]);
      var read := Opened(s.context, s.pending[n]);
      if read == [] then s' else s'.(slots := s.slots[w := Holding(read[0])])
    case Push(w) => s.(queue := s.queue + [s.slots[w].job], slots := s.slots[w := Polling])
    case Leave(w) => s.(slots := s.slots[w := Left])
    case Grab => s.(queue := [], stage := Batch(Entering(s.queue)))
    case Commit(outcome) => AfterCommit(s, outcome)
    case Settle(pushes) =>
      Retry(s.(stage := s.stage.(failed := s.stage.failed[1..])), s.stage.failed[0], pushes)
    case StoreOwed => s.(owed := s.owed[1..], results := s.results + [s.owed[0]])
    case StorePersisted =>
      s.(stage := s.stage.(persisted := s.stage.persisted[1..]),
         results := s.results + [Result(s.stage.persisted[0].data.jobId, true)])
    case EndBatch => s.(stage := Waiting)
    case Stop => s.(running := false)
    case JoinBatch => s.(stage := Joined)
    case BeginDrain => s.(stage := Draining(s.queue), queue := [])
    case Drain(pushes) => Retry(s.(stage := Draining(s.stage.rest[1..])), s.stage.rest[0], pushes)
    case EndDrain => s.(stage := Stopped)
  }

  // ---- Where jobs are ---------------------------------------------------------

  /** How many jobs of a list have the id. */
  function Times(jobs: seq<Job>, id: Id): nat {
    if jobs == [] then 0 else (if jobs[0].data.jobId == id then 1 else 0) + Times(jobs[1..], id)
  }

  function SlotJobs(slots: seq<Slot>): seq<Job> {
    if slots == [] then []
    else (if slots[0].Holding? then [slots[0].job] else []) + SlotJobs(slots[1..])
  }

  /** Jobs the batch thread or the drain is working on. */
  function StageJobs(stage: Stage): seq<Job> {
    match stage
    case Batch(jobs) => jobs
    case Settling(failed, _) => failed
    case Draining(rest) => rest
    case _ => []
  }

  /** Places where a job is still on its way. */
  function Live(s: Pipe, id: Id): nat {
    Times(OpenAll(s.context, s.pending), id) + Times(SlotJobs(s.slots), id) + Times(s.queue, id) + Times(StageJobs(s.stage), id)
  }

  /** Places where a job has ended with a failed result. */
  function Failed(s: Pipe, id: Id): nat {
    Times(s.dead, id) + Times(s.spool, id) + Times(s.dropped, id)
  }

  function Everywhere(s: Pipe, id: Id): nat {
    Live(s, id) + Times(s.db, id) + Failed(s, id) + Times(s.vanished, id)
  }

  lemma {:induction false} TimesConcat(a: seq<Job>, b: seq<Job>, id: Id)
    ensures Times(a + b, id) == Times(a, id) + Times(b, id)
  {
    if a == [] {
      assert a + b == b;
    } else {
      assert (a + b)[1..] == a[1..] + b;
      TimesConcat(a[1..], b, id);
    }
  }

  lemma TimesOne(job: Job, id: Id)
    ensures Times([job], id) == if job.data.jobId == id then 1 else 0
  {
    assert [job][1..] == [];
  }

  lemma {:induction false} OpenConcat(c: Context, a: seq<Letter>, b: seq<Letter>)
    ensures OpenAll(c, a + b) == OpenAll(c, a) + OpenAll(c, b)
  {
    if a == [] {
      assert a + b == b;
    } else {
      assert (a + b)[1..] == a[1..] + b;
      OpenConcat(c, a[1..], b);
    }
  }

  lemma OpenOne(c: Context, l: Letter)
    ensures OpenAll(c, [l]) == Opened(c, l)
  {
    assert [l][1..] == [];
  }

  lemma TimesPushed(c: Context, l: Letter, letters: seq<Letter>, id: Id)
    ensures Times(OpenAll(c, [l] + letters), id) == Times(Opened(c, l), id) + Times(OpenAll(c, letters), id)
  {
    OpenConcat(c, [l], letters);
    OpenOne(c, l);
    TimesConcat(Opened(c, l), OpenAll(c, letters), id);
  }

  /** The last text of a list, and the list without it. */
  lemma OpenLast(c: Context, letters: seq<Letter>)
    requires letters != []
    ensures var n := |letters| - 1;
            OpenAll(c, letters) == OpenAll(c, letters[..n]) + Opened(c, letters[n])
  {
    var n := |letters| - 1;
    assert letters == letters[..n] + [letters[n]];
    OpenConcat(c, letters[..n], [letters[n]]);
    OpenOne(c, letters[n]);
  }

  /** A job that is pushed is there under its id. */
  lemma TimesPosted(c: Context, job: Job, id: Id)
    requires Keeps(c) && Sendable(job.data)
    ensures Opened(c, Post(c, job)) == [Job(Reread(c, job.data), job.rounds, job.batches)]
    ensures Times(Opened(c, Post(c, job)), id) == if job.data.jobId == id then 1 else 0
  {
    RereadKeeps(c, job.data);
    TimesOne(Job(Reread(c, job.data), job.rounds, job.batches), id);
  }

  lemma {:induction false} EnteringLength(jobs: seq<Job>)
    ensures |Entering(jobs)| == |jobs|
  {
    if jobs != [] {
      EnteringLength(jobs[1..]);
    }
  }

  lemma {:induction false} ChosenLength(jobs: seq<Job>, ok: seq<bool>)
    requires |ok| == |jobs|
    ensures |Chosen(jobs, ok, true)| + |Chosen(jobs, ok, false)| == |jobs|
  {
    if jobs != [] {
      ChosenLength(jobs[1..], ok[1..]);
    }
  }

  lemma {:induction false} TimesEntering(jobs: seq<Job>, id: Id)
    ensures Times(Entering(jobs), id) == Times(jobs, id)
  {
    if jobs != [] {
      TimesEntering(jobs[1..], id);
      assert Entering(jobs)[1..] == Entering(jobs[1..]);
    }
  }

  lemma {:induction false} TimesChosen(jobs: seq<Job>, ok: seq<bool>, id: Id)
    requires |ok| == |jobs|
    ensures Times(Chosen(jobs, ok, true), id) + Times(Chosen(jobs, ok, false), id) == Times(jobs, id)
  {
    if jobs != [] {
      TimesChosen(jobs[1..], ok[1..], id);
      TimesOne(jobs[0], id);
      TimesConcat(if ok[0] == true then [jobs[0]] else [], Chosen(jobs[1..], ok[1..], true), id);
      TimesConcat(if ok[0] == false then [jobs[0]] else [], Chosen(jobs[1..], ok[1..], false), id);
    }
  }

  function InSlot(slot: Slot, id: Id): nat {
    if slot.Holding? && slot.job.data.jobId == id then 1 else 0
  }

  lemma SlotJobsHead(slots: seq<Slot>, id: Id)
    requires slots != []
    ensures Times(SlotJobs(slots), id) == InSlot(slots[0], id) + Times(SlotJobs(slots[1..]), id)
  {
    if slots[0].Holding? {
      TimesOne(slots[0].job, id);
      TimesConcat([slots[0].job], SlotJobs(slots[1..]), id);
    } else {
      assert [] + SlotJobs(slots[1..]) == SlotJobs(slots[1..]);
    }
  }

  lemma {:induction false} SlotUpdate(slots: seq<Slot>, w: nat, slot: Slot, id: Id)
    requires w < |slots|
    ensures Times(SlotJobs(slots[w := slot]), id) + InSlot(slots[w], id) == Times(SlotJobs(slots), id) + InSlot(slot, id)
  {
    var changed := slots[w := slot];
    SlotJobsHead(slots, id);
    SlotJobsHead(changed, id);
    if w > 0 {
      SlotUpdate(slots[1..], w - 1, slot, id);
      assert changed[1..] == slots[1..][w - 1 := slot];
    } else {
      assert changed[1..] == slots[1..];
    }
  }

  // ---- Conservation -----------------------------------------------------------

  /** Every accepted job is in exactly one place, once; nothing else is anywhere. */
  ghost predicate Conserved(s: Pipe) {
    forall id :: Everywhere(s, id) == if id in s.accepted then 1 else 0
  }

  /** The step settles a job with an id, if it settles one. */
  predicate SettlesSendable(s: Pipe, a: Action)
    requires Enabled(s, a)
  {
    match a
    case Settle(_) => Sendable(s.stage.failed[0].data)
    case Drain(_) => Sendable(s.stage.rest[0].data)
    case _ => true
  }

  lemma EnqueueConserves(s: Pipe, a: Action, id: Id)
    requires Keeps(s.context) && Enabled(s, a) && a.Enqueue?
    ensures Everywhere(Next(s, a), id) == Everywhere(s, id) + if a.ok && a.data.jobId == id then 1 else 0
  {
    var job := Job(a.data, 0, 0);
    TimesPosted(s.context, job, id);
    TimesPushed(s.context, Post(s.context, job), s.pending, id);
  }

  lemma PopConserves(s: Pipe, w: nat, id: Id)
    requires Enabled(s, Pop(w))
    ensures Everywhere(Next(s, Pop(w)), id) == Everywhere(s, id)
  {
    var n := |s.pending| - 1;
    var read := Opened(s.context, s.pending[n]);
    OpenLast(s.context, s.pending);
    TimesConcat(OpenAll(s.context, s.pending[..n]), read, id);
    if read != [] {
      TimesOne(read[0], id);
      SlotUpdate(s.slots, w, Holding(read[0]), id);
    }
  }

  lemma WorkerConserves(s: Pipe, a: Action, id: Id)
    requires Enabled(s, a) && (a.Push? || a.Leave?)
    ensures Everywhere(Next(s, a), id) == Everywhere(s, id)
  {
    match a
    case Push(w) =>
      TimesConcat(s.queue, [s.slots[w].job], id);
      TimesOne(s.slots[w].job, id);
      SlotUpdate(s.slots, w, Polling, id);
    case Leave(w) => SlotUpdate(s.slots, w, Left, id);
  }

  lemma CommitConserves(s: Pipe, outcome: Outcome, id: Id)
    requires Enabled(s, Commit(outcome))
    ensures Everywhere(Next(s, Commit(outcome)), id) == Everywhere(s, id)
  {
    var jobs := s.stage.jobs;
    match outcome
    case NoCallback => TimesConcat(s.vanished, jobs, id);
    case NoTransaction =>
    case Rows(ok, commit) =>
      TimesChosen(jobs, ok, id);
      TimesConcat(s.db, Chosen(jobs, ok, true), id);
      TimesConcat(Chosen(jobs, ok, false), Chosen(jobs, ok, true), id);
  }

  lemma DeadLetterMoves(s: Pipe, job: Job, pushes: Pushes, id: Id)
    ensures var s' := DeadLetter(s, job, pushes);
            Live(s', id) == Live(s, id) && s'.db == s.db && s'.vanished == s.vanished
            && Failed(s', id) == Failed(s, id) + Times([job], id)
  {
    TimesConcat([job], s.dead, id);
    TimesConcat(s.spool, [job], id);
    TimesConcat(s.dropped, [job], id);
  }

  lemma RetryMoves(s: Pipe, job: Job, pushes: Pushes, id: Id)
    requires Keeps(s.context) && Sendable(job.data)
    ensures Everywhere(Retry(s, job, pushes), id) == Everywhere(s, id) + if job.data.jobId == id then 1 else 0
  {
    var again := Recounted(job);
    TimesOne(job, id);
    TimesOne(again, id);
    if job.data.retries < MAX_RETRIES {
      TimesPosted(s.context, again, id);
      TimesPushed(s.context, Post(s.context, again), s.pending, id);
      DeadLetterMoves(s, again, pushes, id);
    } else {
      DeadLetterMoves(s, job, pushes, id);
    }
  }

  lemma SettleConserves(s: Pipe, a: Action, id: Id)
    requires Keeps(s.context) && Enabled(s, a) && (a.Settle? || a.Drain?) && SettlesSendable(s, a)
    ensures Everywhere(Next(s, a), id) == Everywhere(s, id)
  {
    match a
    case Settle(pushes) =>
      RetryMoves(s.(stage := s.stage.(failed := s.stage.failed[1..])), s.stage.failed[0], pushes, id);
    case Drain(pushes) =>
      RetryMoves(s.(stage := Draining(s.stage.rest[1..])), s.stage.rest[0], pushes, id);
  }

  lemma QuietConserves(s: Pipe, a: Action, id: Id)
    requires Enabled(s, a)
    requires a.StoreOwed? || a.StorePersisted? || a.EndBatch? || a.Stop? || a.JoinBatch? || a.BeginDrain? || a.EndDrain?
    ensures Everywhere(Next(s, a), id) == Everywhere(s, id)
  {
  }

  lemma StepMoves(s: Pipe, a: Action, id: Id)
    requires Keeps(s.context) && Enabled(s, a) && SettlesSendable(s, a)
    ensures Everywhere(Next(s, a), id) == Everywhere(s, id) + if a.Enqueue? && a.ok && a.data.jobId == id then 1 else 0
  {
    if a.Enqueue? { EnqueueConserves(s, a, id); }
    else if a.Pop? { PopConserves(s, a.w, id); }
    else if a.Push? || a.Leave? { WorkerConserves(s, a, id); }
    else if a.Grab? { GrabConserves(s, id); }
    else if a.Commit? { CommitConserves(s, a.outcome, id); }
    else if a.Settle? || a.Drain? { SettleConserves(s, a, id); }
    else { QuietConserves(s, a, id); }
  }

  lemma GrabConserves(s: Pipe, id: Id)
    requires Enabled(s, Grab)
    ensures Everywhere(Next(s, Grab), id) == Everywhere(s, id)
  {
    TimesEntering(s.queue, id);
  }

  lemma StepAccepts(s: Pipe, a: Action)
    requires Enabled(s, a)
    ensures Next(s, a).context == s.context
    ensures Next(s, a).accepted == if a.Enqueue? && a.ok then s.accepted[a.data.jobId := a.data] else s.accepted
  {
  }

  lemma StepConserves(s: Pipe, a: Action)
    requires Keeps(s.context) && Conserved(s) && Enabled(s, a) && SettlesSendable(s, a)
    ensures Conserved(Next(s, a))
  {
    StepAccepts(s, a);
    forall id ensures Everywhere(Next(s, a), id) == if id in Next(s, a).accepted then 1 else 0 {
      StepMoves(s, a, id);
    }
  }
}
