/**
 What has become of each job: wherever it is, it is the accepted job printed, read and
 counted as often as it was sent again, and graded each time before that.
 */
module PipelineTrace {
  import opened Rounds
  import opened Pipeline
  import J = JobText

  // ---- Rounds, batches and content --------------------------------------------

  /** What a worker holds when it first reads an accepted job. */
  function First(c: Context, accepted: map<Id, J.Job>, id: Id): J.Job
    requires id in accepted
  {
    Reread(c, accepted[id])
  }

  /** Pending or in a worker's hands; graded and on its way from there; in a batch or saved;
      given up. */
  datatype Kind = InHand | Queued | InBatch | GivenUp

  /** The job is what has become of the accepted one after so many rounds, in each of which it
      was graded. A job given up because Redis did not take it back is counted, but not read
      again. */
  ghost predicate Traced(kind: Kind, c: Context, accepted: map<Id, J.Job>, job: Job) {
    && job.data.jobId in accepted
    && var first, n := First(c, accepted, job.data.jobId), job.rounds;
       && Tried(c, first, n) && Passes(c, first, n)
       && job.batches <= n + (if kind.InHand? || kind.Queued? then 0 else 1)
       && (|| (job.data == Nth(c, first, n) && (kind.InHand? || Passes(c, first, n + 1)))
           || (kind.GivenUp? && 0 < n && job.batches <= n
               && job.data == Counted(Nth(c, first, n - 1))))
  }

  ghost predicate AllTraced(kind: Kind, c: Context, accepted: map<Id, J.Job>, jobs: seq<Job>) {
    jobs == [] || (Traced(kind, c, accepted, jobs[0]) && AllTraced(kind, c, accepted, jobs[1..]))
  }

  lemma {:induction false} TracedConcat(kind: Kind, c: Context, accepted: map<Id, J.Job>, a: seq<Job>, b: seq<Job>)
    ensures AllTraced(kind, c, accepted, a + b) <==> AllTraced(kind, c, accepted, a) && AllTraced(kind, c, accepted, b)
  {
    if a == [] {
      assert a + b == b;
    } else {
      assert (a + b)[1..] == a[1..] + b;
      TracedConcat(kind, c, accepted, a[1..], b);
    }
  }

  lemma TracedOne(kind: Kind, c: Context, accepted: map<Id, J.Job>, job: Job)
    ensures AllTraced(kind, c, accepted, [job]) <==> Traced(kind, c, accepted, job)
  {
    assert [job][1..] == [];
  }

  lemma {:induction false} TracedIn(kind: Kind, c: Context, accepted: map<Id, J.Job>, jobs: seq<Job>, job: Job)
    requires AllTraced(kind, c, accepted, jobs) && job in jobs
    ensures Traced(kind, c, accepted, job)
  {
    if job != jobs[0] {
      assert job in jobs[1..];
      TracedIn(kind, c, accepted, jobs[1..], job);
    }
  }

  ghost predicate AcceptedOk(accepted: map<Id, J.Job>) {
    forall id :: id in accepted ==> accepted[id].jobId == id && Sendable(accepted[id]) && accepted[id].retries == 0
  }

  function StageKind(stage: Stage): Kind {
    if stage.Draining? then Queued else InBatch
  }

  ghost predicate HandsOk(s: Pipe) {
    && AllTraced(InHand, s.context, s.accepted, OpenAll(s.context, s.pending))
    && AllTraced(InHand, s.context, s.accepted, SlotJobs(s.slots))
    && AllTraced(Queued, s.context, s.accepted, s.queue)
    && AllTraced(StageKind(s.stage), s.context, s.accepted, StageJobs(s.stage))
    && (s.stage.Batch? ==> s.stage.jobs != [])
  }

  ghost predicate EndsOk(s: Pipe) {
    && AllTraced(InBatch, s.context, s.accepted, s.db) && AllTraced(InBatch, s.context, s.accepted, s.vanished)
    && AllTraced(GivenUp, s.context, s.accepted, s.dead) && AllTraced(GivenUp, s.context, s.accepted, s.spool)
    && AllTraced(GivenUp, s.context, s.accepted, s.dropped)
  }

  ghost predicate TraceOk(s: Pipe) {
    Keeps(s.context) && AcceptedOk(s.accepted) && HandsOk(s) && EndsOk(s)
  }

  lemma TracedSendable(kind: Kind, c: Context, accepted: map<Id, J.Job>, job: Job)
    requires Keeps(c) && AcceptedOk(accepted) && Traced(kind, c, accepted, job) && !kind.GivenUp?
    ensures Sendable(job.data) && (kind.InHand? || c.graded(job.data))
  {
    RereadKeeps(c, accepted[job.data.jobId]);
    NthKeeps(c, First(c, accepted, job.data.jobId), job.rounds);
  }

  /** The step settles a job that was graded, if it settles one. */
  predicate SettlesGraded(s: Pipe, a: Action)
    requires Enabled(s, a)
  {
    match a
    case Settle(_) => s.context.graded(s.stage.failed[0].data)
    case Drain(_) => s.context.graded(s.stage.rest[0].data)
    case _ => true
  }

  lemma SettledIsSendable(s: Pipe, a: Action)
    requires TraceOk(s) && Enabled(s, a)
    ensures SettlesSendable(s, a) && SettlesGraded(s, a)
  {
    match a
    case Settle(_) => TracedSendable(InBatch, s.context, s.accepted, s.stage.failed[0]);
    case Drain(_) => TracedSendable(Queued, s.context, s.accepted, s.stage.rest[0]);
    case _ =>
  }

  /** The job as it is read after it was sent again. */
  function Returned(c: Context, job: Job): Job {
    Job(Again(c, job.data), job.rounds + 1, job.batches)
  }

  lemma PostedReturns(c: Context, job: Job)
    requires Keeps(c) && Sendable(job.data) && job.data.retries < MAX_RETRIES
    ensures Opened(c, Post(c, Recounted(job))) == [Returned(c, job)]
  {
    TimesPosted(c, Recounted(job), job.data.jobId);
  }

  /** A job that is sent again is the same job one round later. */
  lemma ReturnedTraced(kind: Kind, c: Context, accepted: map<Id, J.Job>, job: Job)
    requires Keeps(c) && AcceptedOk(accepted) && Traced(kind, c, accepted, job) && (kind.Queued? || kind.InBatch?)
    requires job.data.retries < MAX_RETRIES
    ensures Traced(InHand, c, accepted, Returned(c, job)) && Traced(GivenUp, c, accepted, Recounted(job))
  {
    TracedSendable(kind, c, accepted, job);
    AgainKeeps(c, job.data);
    RoundTraced(c, accepted, job);
  }

  lemma RoundTraced(c: Context, accepted: map<Id, J.Job>, job: Job)
    requires Traced(InBatch, c, accepted, job) && job.data.retries < MAX_RETRIES
    requires Again(c, job.data).jobId == job.data.jobId
    ensures Traced(InHand, c, accepted, Returned(c, job)) && Traced(GivenUp, c, accepted, Recounted(job))
  {
    var first, n := First(c, accepted, job.data.jobId), job.rounds;
    assert Nth(c, first, n + 1) == Again(c, Nth(c, first, n)) && Tried(c, first, n + 1);
  }

  lemma PushTraced(c: Context, accepted: map<Id, J.Job>, l: Letter, job: Job, letters: seq<Letter>)
    requires Opened(c, l) == [job] && Traced(InHand, c, accepted, job)
    requires AllTraced(InHand, c, accepted, OpenAll(c, letters))
    ensures AllTraced(InHand, c, accepted, OpenAll(c, [l] + letters))
  {
    OpenConcat(c, [l], letters);
    OpenOne(c, l);
    TracedOne(InHand, c, accepted, job);
    TracedConcat(InHand, c, accepted, [job], OpenAll(c, letters));
  }

  lemma SlotsHead(c: Context, accepted: map<Id, J.Job>, slots: seq<Slot>)
    requires slots != []
    ensures AllTraced(InHand, c, accepted, SlotJobs(slots))
            <==> (slots[0].Holding? ==> Traced(InHand, c, accepted, slots[0].job))
                 && AllTraced(InHand, c, accepted, SlotJobs(slots[1..]))
  {
    var head := if slots[0].Holding? then [slots[0].job] else [];
    TracedConcat(InHand, c, accepted, head, SlotJobs(slots[1..]));
    if slots[0].Holding? {
      TracedOne(InHand, c, accepted, slots[0].job);
    }
  }

  lemma {:induction false} SlotTraced(c: Context, accepted: map<Id, J.Job>, slots: seq<Slot>, w: nat, slot: Slot)
    requires w < |slots| && AllTraced(InHand, c, accepted, SlotJobs(slots))
    requires slot.Holding? ==> Traced(InHand, c, accepted, slot.job)
    ensures AllTraced(InHand, c, accepted, SlotJobs(slots[w := slot]))
    ensures slots[w].Holding? ==> Traced(InHand, c, accepted, slots[w].job)
  {
    var changed := slots[w := slot];
    SlotsHead(c, accepted, slots);
    SlotsHead(c, accepted, changed);
    if w == 0 {
      assert changed[1..] == slots[1..];
    } else {
      SlotTraced(c, accepted, slots[1..], w - 1, slot);
      assert changed[1..] == slots[1..][w - 1 := slot];
    }
  }

  lemma {:induction false} ChosenTraced(c: Context, accepted: map<Id, J.Job>, jobs: seq<Job>, ok: seq<bool>, flag: bool)
    requires |ok| == |jobs| && AllTraced(InBatch, c, accepted, jobs)
    ensures AllTraced(InBatch, c, accepted, Chosen(jobs, ok, flag))
  {
    if jobs != [] {
      ChosenTraced(c, accepted, jobs[1..], ok[1..], flag);
      var head := if ok[0] == flag then [jobs[0]] else [];
      TracedConcat(InBatch, c, accepted, head, Chosen(jobs[1..], ok[1..], flag));
      TracedOne(InBatch, c, accepted, jobs[0]);
    }
  }

  lemma {:induction false} EnteringTraced(c: Context, accepted: map<Id, J.Job>, jobs: seq<Job>)
    requires AllTraced(Queued, c, accepted, jobs)
    ensures AllTraced(InBatch, c, accepted, Entering(jobs)) && (jobs != [] ==> Entering(jobs) != [])
  {
    if jobs != [] {
      EnteringTraced(c, accepted, jobs[1..]);
      assert Entering(jobs)[1..] == Entering(jobs[1..]);
    }
  }

  lemma DeadLetterTraced(s: Pipe, job: Job, pushes: Pushes)
    requires EndsOk(s) && Traced(GivenUp, s.context, s.accepted, job)
    ensures EndsOk(DeadLetter(s, job, pushes))
  {
    TracedOne(GivenUp, s.context, s.accepted, job);
    TracedConcat(GivenUp, s.context, s.accepted, [job], s.dead);
    TracedConcat(GivenUp, s.context, s.accepted, s.spool, [job]);
    TracedConcat(GivenUp, s.context, s.accepted, s.dropped, [job]);
  }

  lemma DeadLetterKeepsTrace(s: Pipe, job: Job, pushes: Pushes)
    requires TraceOk(s) && Traced(GivenUp, s.context, s.accepted, job)
    ensures TraceOk(DeadLetter(s, job, pushes))
  {
    DeadLetterTraced(s, job, pushes);
    var s' := DeadLetter(s, job, pushes);
    assert s'.pending == s.pending && s'.slots == s.slots && s'.queue == s.queue && s'.stage == s.stage;
  }

  lemma RetryTraced(s: Pipe, job: Job, pushes: Pushes, kind: Kind)
    requires TraceOk(s) && Traced(kind, s.context, s.accepted, job) && (kind.Queued? || kind.InBatch?)
    ensures TraceOk(Retry(s, job, pushes))
  {
    if job.data.retries < MAX_RETRIES {
      ReturnedTraced(kind, s.context, s.accepted, job);
      if pushes.requeue {
        TracedSendable(kind, s.context, s.accepted, job);
        PostedReturns(s.context, job);
        PushTraced(s.context, s.accepted, Post(s.context, Recounted(job)), Returned(s.context, job), s.pending);
      } else {
        DeadLetterKeepsTrace(s, Recounted(job), pushes);
      }
    } else {
      DeadLetterKeepsTrace(s, job, pushes);
    }
  }

  lemma SettleKeepsTrace(s: Pipe, pushes: Pushes)
    requires TraceOk(s) && Enabled(s, Settle(pushes))
    ensures TraceOk(Next(s, Settle(pushes)))
  {
    var taken := s.(stage := s.stage.(failed := s.stage.failed[1..]));
    assert HandsOk(taken) && EndsOk(taken);
    RetryTraced(taken, s.stage.failed[0], pushes, InBatch);
  }

  lemma DrainKeepsTrace(s: Pipe, pushes: Pushes)
    requires TraceOk(s) && Enabled(s, Drain(pushes))
    ensures TraceOk(Next(s, Drain(pushes)))
  {
    var taken := s.(stage := Draining(s.stage.rest[1..]));
    assert HandsOk(taken) && EndsOk(taken);
    RetryTraced(taken, s.stage.rest[0], pushes, Queued);
  }

  lemma GrabKeepsTrace(s: Pipe)
    requires TraceOk(s) && Enabled(s, Grab)
    ensures TraceOk(Next(s, Grab))
  {
    EnteringTraced(s.context, s.accepted, s.queue);
  }

  lemma CommitKeepsTrace(s: Pipe, outcome: Outcome)
    requires TraceOk(s) && Enabled(s, Commit(outcome))
    ensures TraceOk(AfterCommit(s, outcome))
  {
    var jobs := s.stage.jobs;
    match outcome
    case NoCallback => TracedConcat(InBatch, s.context, s.accepted, s.vanished, jobs);
    case NoTransaction =>
    case Rows(ok, commit) =>
      RowsTraced(s.context, s.accepted, jobs, ok, s.db);
  }

  lemma RowsTraced(c: Context, accepted: map<Id, J.Job>, jobs: seq<Job>, ok: seq<bool>, db: seq<Job>)
    requires |ok| == |jobs| && AllTraced(InBatch, c, accepted, jobs) && AllTraced(InBatch, c, accepted, db)
    ensures AllTraced(InBatch, c, accepted, Chosen(jobs, ok, false))
    ensures AllTraced(InBatch, c, accepted, db + Chosen(jobs, ok, true))
    ensures AllTraced(InBatch, c, accepted, Chosen(jobs, ok, false) + Chosen(jobs, ok, true))
  {
    ChosenTraced(c, accepted, jobs, ok, true);
    ChosenTraced(c, accepted, jobs, ok, false);
    TracedConcat(InBatch, c, accepted, db, Chosen(jobs, ok, true));
    TracedConcat(InBatch, c, accepted, Chosen(jobs, ok, false), Chosen(jobs, ok, true));
  }

  lemma PopKeepsTrace(s: Pipe, w: nat)
    requires TraceOk(s) && Enabled(s, Pop(w))
    ensures TraceOk(Next(s, Pop(w)))
  {
    var n := |s.pending| - 1;
    var read := Opened(s.context, s.pending[n]);
    OpenLast(s.context, s.pending);
    TracedConcat(InHand, s.context, s.accepted, OpenAll(s.context, s.pending[..n]), read);
    if read != [] {
      SlotTraced(s.context, s.accepted, s.slots, w, Holding(read[0]));
    }
  }

  lemma GradedIsQueued(c: Context, accepted: map<Id, J.Job>, job: Job)
    requires Traced(InHand, c, accepted, job) && c.graded(job.data)
    ensures Traced(Queued, c, accepted, job)
  {
  }

  lemma WorkerKeepsTrace(s: Pipe, a: Action)
    requires TraceOk(s) && Enabled(s, a) && (a.Push? || a.Leave?)
    ensures TraceOk(Next(s, a))
  {
    SlotTraced(s.context, s.accepted, s.slots, a.w, if a.Push? then Polling else Left);
    if a.Push? {
      GradedIsQueued(s.context, s.accepted, s.slots[a.w].job);
      TracedOne(Queued, s.context, s.accepted, s.slots[a.w].job);
      TracedConcat(Queued, s.context, s.accepted, s.queue, [s.slots[a.w].job]);
    }
  }

  /** Accepting one more job leaves what is known of the others as it is. */
  lemma {:induction false} AcceptingKeepsTrace(kind: Kind, c: Context, accepted: map<Id, J.Job>, data: J.Job, jobs: seq<Job>)
    requires data.jobId !in accepted && AllTraced(kind, c, accepted, jobs)
    ensures AllTraced(kind, c, accepted[data.jobId := data], jobs)
  {
    if jobs != [] {
      AcceptingKeepsTrace(kind, c, accepted, data, jobs[1..]);
    }
  }

  lemma FirstTraced(c: Context, accepted: map<Id, J.Job>, data: J.Job)
    requires Keeps(c) && Sendable(data) && data.jobId in accepted && accepted[data.jobId] == data
    ensures Traced(InHand, c, accepted, Job(Reread(c, data), 0, 0))
    ensures Opened(c, Post(c, Job(data, 0, 0))) == [Job(Reread(c, data), 0, 0)]
  {
    RereadKeeps(c, data);
    TimesPosted(c, Job(data, 0, 0), data.jobId);
  }

  lemma EnqueueKeepsHands(s: Pipe, data: J.Job)
    requires TraceOk(s) && Enabled(s, Enqueue(data, true))
    ensures HandsOk(Next(s, Enqueue(data, true)))
  {
    var c, accepted := s.context, s.accepted[data.jobId := data];
    AcceptingKeepsTrace(InHand, c, s.accepted, data, OpenAll(c, s.pending));
    AcceptingKeepsTrace(InHand, c, s.accepted, data, SlotJobs(s.slots));
    AcceptingKeepsTrace(Queued, c, s.accepted, data, s.queue);
    AcceptingKeepsTrace(StageKind(s.stage), c, s.accepted, data, StageJobs(s.stage));
    FirstTraced(c, accepted, data);
    PushTraced(c, accepted, Post(c, Job(data, 0, 0)), Job(Reread(c, data), 0, 0), s.pending);
  }

  lemma EnqueueKeepsEnds(s: Pipe, data: J.Job)
    requires EndsOk(s) && Enabled(s, Enqueue(data, true))
    ensures EndsOk(Next(s, Enqueue(data, true)))
  {
    AcceptingKeepsTrace(InBatch, s.context, s.accepted, data, s.db);
    AcceptingKeepsTrace(InBatch, s.context, s.accepted, data, s.vanished);
    AcceptingKeepsTrace(GivenUp, s.context, s.accepted, data, s.dead);
    AcceptingKeepsTrace(GivenUp, s.context, s.accepted, data, s.spool);
    AcceptingKeepsTrace(GivenUp, s.context, s.accepted, data, s.dropped);
  }

  lemma EnqueueKeepsTrace(s: Pipe, a: Action)
    requires TraceOk(s) && Enabled(s, a) && a.Enqueue?
    ensures TraceOk(Next(s, a))
  {
    if a.ok {
      EnqueueKeepsHands(s, a.data);
      EnqueueKeepsEnds(s, a.data);
    }
  }

  predicate IsBookkeeping(a: Action) {
    a.StoreOwed? || a.StorePersisted? || a.EndBatch? || a.Stop? || a.JoinBatch? || a.BeginDrain? || a.EndDrain?
  }

  lemma QuietLeavesLists(s: Pipe, a: Action)
    requires Enabled(s, a) && IsBookkeeping(a)
    ensures var s' := Next(s, a);
            && s'.context == s.context && s'.accepted == s.accepted && s'.pending == s.pending && s'.slots == s.slots
            && s'.db == s.db && s'.vanished == s.vanished && s'.dead == s.dead && s'.spool == s.spool
            && s'.dropped == s.dropped
  {
  }

  lemma QuietStages(s: Pipe, a: Action)
    requires Enabled(s, a) && IsBookkeeping(a)
    ensures var s' := Next(s, a);
            && !(s'.stage.Batch? && !s.stage.Batch?)
            && if a.BeginDrain? then s'.queue == [] && s'.stage == Draining(s.queue)
               else s'.queue == s.queue && (s'.stage == s.stage || StageJobs(s'.stage) == [])
  {
  }

  lemma QuietKeepsTrace(s: Pipe, a: Action)
    requires TraceOk(s) && Enabled(s, a) && IsBookkeeping(a)
    ensures TraceOk(Next(s, a))
  {
    QuietLeavesLists(s, a);
    QuietStages(s, a);
  }

  lemma StepKeepsTrace(s: Pipe, a: Action)
    requires TraceOk(s) && Enabled(s, a)
    ensures TraceOk(Next(s, a))
  {
    if a.Settle? { SettleKeepsTrace(s, a.pushes); }
    else if a.Drain? { DrainKeepsTrace(s, a.drained); }
    else if a.Grab? { GrabKeepsTrace(s); }
    else if a.Commit? { CommitKeepsTrace(s, a.outcome); }
    else if a.Pop? { PopKeepsTrace(s, a.w); }
    else if a.Push? || a.Leave? { WorkerKeepsTrace(s, a); }
    else if a.Enqueue? { EnqueueKeepsTrace(s, a); }
    else { QuietKeepsTrace(s, a); }
  }
}
