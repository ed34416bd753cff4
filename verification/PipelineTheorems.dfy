/**
 What every run of the submission pipeline keeps: jobs are conserved, each ends with exactly
 one result, its content is what printing, reading and counting made of it, and without new
 jobs the pipeline comes to rest if its jobs use up their retries or are held for ever.
 */
module PipelineTheorems {
  import opened Rounds
  import opened Pipeline
  import opened PipelineTrace
  import J = JobText

  // ---- Results ----------------------------------------------------------------

  function Told(results: seq<Result>, r: Result): nat {
    if results == [] then 0 else (if results[0] == r then 1 else 0) + Told(results[1..], r)
  }

  /** Persisted jobs whose result is not stored yet. */
  function Untold(stage: Stage): seq<Job> {
    if stage.Settling? then stage.persisted else []
  }

  /** Successful results match rows in the database, failed ones the other ends, counting
      the results that are about to be stored. */
  ghost predicate ResultsOk(s: Pipe) {
    && OneOwed(s.owed)
    && forall id :: ResultsMatch(s, id)
  }

  predicate OneOwed(owed: seq<Result>) {
    |owed| <= 1 && (owed != [] ==> !owed[0].success)
  }

  predicate ResultsMatch(s: Pipe, id: Id) {
    && Told(s.results, Result(id, true)) + Times(Untold(s.stage), id) == Times(s.db, id)
    && Told(s.results, Result(id, false)) + Told(s.owed, Result(id, false)) == Failed(s, id)
  }

  lemma {:induction false} ToldConcat(a: seq<Result>, b: seq<Result>, r: Result)
    ensures Told(a + b, r) == Told(a, r) + Told(b, r)
  {
    if a == [] {
      assert a + b == b;
    } else {
      assert (a + b)[1..] == a[1..] + b;
      ToldConcat(a[1..], b, r);
    }
  }

  lemma ToldOne(x: Result, r: Result)
    ensures Told([x], r) == if x == r then 1 else 0
  {
    assert [x][1..] == [];
  }

  lemma DeadLetterOwes(s: Pipe, job: Job, pushes: Pushes, id: Id)
    requires s.owed == [] && ResultsMatch(s, id)
    ensures ResultsMatch(DeadLetter(s, job, pushes), id)
  {
    DeadLetterMoves(s, job, pushes, id);
    TimesOne(job, id);
    assert DeadLetter(s, job, pushes).owed == [Result(job.data.jobId, false)];
    ToldOne(Result(job.data.jobId, false), Result(id, false));
  }

  lemma RetryOwes(s: Pipe, job: Job, pushes: Pushes, id: Id)
    requires s.owed == [] && ResultsMatch(s, id)
    ensures ResultsMatch(Retry(s, job, pushes), id)
  {
    if job.data.retries < MAX_RETRIES {
      if !pushes.requeue {
        DeadLetterOwes(s, Recounted(job), pushes, id);
      }
    } else {
      DeadLetterOwes(s, job, pushes, id);
    }
  }

  lemma StoreKeepsResults(s: Pipe, a: Action, id: Id)
    requires ResultsOk(s) && Enabled(s, a) && (a.StoreOwed? || a.StorePersisted?)
    ensures ResultsMatch(Next(s, a), id)
  {
    assert ResultsMatch(s, id);
    match a
    case StoreOwed =>
      ToldOne(s.owed[0], Result(id, true));
      ToldOne(s.owed[0], Result(id, false));
      ToldConcat(s.results, [s.owed[0]], Result(id, true));
      ToldConcat(s.results, [s.owed[0]], Result(id, false));
    case StorePersisted =>
      var r := Result(s.stage.persisted[0].data.jobId, true);
      ToldOne(r, Result(id, true));
      ToldOne(r, Result(id, false));
      ToldConcat(s.results, [r], Result(id, true));
      ToldConcat(s.results, [r], Result(id, false));
  }

  lemma CommitKeepsResults(s: Pipe, outcome: Outcome, id: Id)
    requires ResultsMatch(s, id) && Enabled(s, Commit(outcome))
    ensures ResultsMatch(Next(s, Commit(outcome)), id)
  {
    var s' := AfterCommit(s, outcome);
    assert s'.results == s.results && s'.owed == s.owed && Failed(s', id) == Failed(s, id);
    if outcome.Rows? && outcome.commit {
      TimesConcat(s.db, Chosen(s.stage.jobs, outcome.ok, true), id);
    } else {
      assert Untold(s.stage) == [] && Untold(s'.stage) == [] && s'.db == s.db;
    }
  }

  lemma SettleKeepsResults(s: Pipe, a: Action, id: Id)
    requires ResultsOk(s) && Enabled(s, a) && (a.Settle? || a.Drain?)
    ensures ResultsMatch(Next(s, a), id)
  {
    assert ResultsMatch(s, id);
    match a
    case Settle(pushes) =>
      RetryOwes(s.(stage := s.stage.(failed := s.stage.failed[1..])), s.stage.failed[0], pushes, id);
    case Drain(pushes) =>
      RetryOwes(s.(stage := Draining(s.stage.rest[1..])), s.stage.rest[0], pushes, id);
  }

  predicate IsQuiet(a: Action) {
    !a.StoreOwed? && !a.StorePersisted? && !a.Commit? && !a.Settle? && !a.Drain?
  }

  lemma QuietStepsLeaveRecords(s: Pipe, a: Action)
    requires Enabled(s, a) && IsQuiet(a)
    ensures var s' := Next(s, a);
            && s'.results == s.results && s'.owed == s.owed && s'.db == s.db && s'.dead == s.dead
            && s'.spool == s.spool && s'.dropped == s.dropped && Untold(s'.stage) == Untold(s.stage)
  {
  }

  lemma QuietStepsKeepResults(s: Pipe, a: Action, id: Id)
    requires ResultsMatch(s, id) && Enabled(s, a) && IsQuiet(a)
    ensures ResultsMatch(Next(s, a), id)
  {
    QuietStepsLeaveRecords(s, a);
  }

  lemma RetryOwesOne(s: Pipe, job: Job, pushes: Pushes)
    requires s.owed == []
    ensures OneOwed(Retry(s, job, pushes).owed)
  {
    assert [] + [Result(job.data.jobId, false)] == [Result(job.data.jobId, false)];
  }

  lemma OwedAfter(s: Pipe, a: Action)
    requires OneOwed(s.owed) && Enabled(s, a)
    ensures OneOwed(Next(s, a).owed)
  {
    match a
    case Settle(pushes) =>
      RetryOwesOne(s.(stage := s.stage.(failed := s.stage.failed[1..])), s.stage.failed[0], pushes);
    case Drain(pushes) => RetryOwesOne(s.(stage := Draining(s.stage.rest[1..])), s.stage.rest[0], pushes);
    case StoreOwed => assert Next(s, a).owed == [];
    case _ => assert Next(s, a).owed == s.owed;
  }

  lemma StepKeepsResults(s: Pipe, a: Action)
    requires ResultsOk(s) && Enabled(s, a)
    ensures ResultsOk(Next(s, a))
  {
    OwedAfter(s, a);
    forall id ensures ResultsMatch(Next(s, a), id) {
      assert ResultsMatch(s, id);
      if a.StoreOwed? || a.StorePersisted? { StoreKeepsResults(s, a, id); }
      else if a.Commit? { CommitKeepsResults(s, a.outcome, id); }
      else if a.Settle? || a.Drain? { SettleKeepsResults(s, a, id); }
      else { QuietStepsKeepResults(s, a, id); }
    }
  }

  // ---- Shutdown ---------------------------------------------------------------

  /** Workers leave only when the flag is cleared, and the stopping thread moves on only after
      the threads it joins are gone. */
  ghost predicate StopOk(s: Pipe) {
    && (s.stage.Joined? || s.stage.Draining? || s.stage.Stopped? ==> !s.running)
    && (s.running ==> forall w :: 0 <= w < |s.slots| ==> !s.slots[w].Left?)
    && (s.stage.Draining? || s.stage.Stopped? ==> s.queue == [] && forall w :: 0 <= w < |s.slots| ==> s.slots[w].Left?)
  }

  lemma StepKeepsStop(s: Pipe, a: Action)
    requires StopOk(s) && Enabled(s, a)
    ensures StopOk(Next(s, a))
  {
  }

  lemma {:induction false} NobodyHolds(slots: seq<Slot>)
    requires forall w :: 0 <= w < |slots| ==> !slots[w].Holding?
    ensures SlotJobs(slots) == []
  {
    if slots != [] {
      NobodyHolds(slots[1..]);
    }
  }

  // ---- Jobs that rest ----------------------------------------------------------

  ghost predicate JobsRest(c: Context, jobs: seq<Job>) {
    jobs == [] || (Rests(c, jobs[0].data) && JobsRest(c, jobs[1..]))
  }

  /** Every job that is still on its way is given up, or held for ever, after finitely many
      failures. */
  ghost predicate AllRest(s: Pipe) {
    && JobsRest(s.context, OpenAll(s.context, s.pending)) && JobsRest(s.context, SlotJobs(s.slots))
    && JobsRest(s.context, s.queue) && JobsRest(s.context, StageJobs(s.stage))
  }

  lemma {:induction false} RestConcat(c: Context, a: seq<Job>, b: seq<Job>)
    ensures JobsRest(c, a + b) <==> JobsRest(c, a) && JobsRest(c, b)
  {
    if a == [] {
      assert a + b == b;
    } else {
      assert (a + b)[1..] == a[1..] + b;
      RestConcat(c, a[1..], b);
    }
  }

  lemma RestOne(c: Context, job: Job)
    ensures JobsRest(c, [job]) <==> Rests(c, job.data)
  {
    assert [job][1..] == [];
  }

  lemma {:induction false} EnteringRest(c: Context, jobs: seq<Job>)
    requires JobsRest(c, jobs)
    ensures JobsRest(c, Entering(jobs))
  {
    if jobs != [] {
      EnteringRest(c, jobs[1..]);
      assert Entering(jobs)[1..] == Entering(jobs[1..]);
    }
  }

  lemma {:induction false} ChosenRest(c: Context, jobs: seq<Job>, ok: seq<bool>, flag: bool)
    requires |ok| == |jobs| && JobsRest(c, jobs)
    ensures JobsRest(c, Chosen(jobs, ok, flag))
  {
    if jobs != [] {
      ChosenRest(c, jobs[1..], ok[1..], flag);
      RestConcat(c, if ok[0] == flag then [jobs[0]] else [], Chosen(jobs[1..], ok[1..], flag));
      RestOne(c, jobs[0]);
    }
  }

  lemma SlotsHeadRest(c: Context, slots: seq<Slot>)
    requires slots != []
    ensures JobsRest(c, SlotJobs(slots))
            <==> (slots[0].Holding? ==> Rests(c, slots[0].job.data)) && JobsRest(c, SlotJobs(slots[1..]))
  {
    RestConcat(c, if slots[0].Holding? then [slots[0].job] else [], SlotJobs(slots[1..]));
    if slots[0].Holding? {
      RestOne(c, slots[0].job);
    }
  }

  lemma {:induction false} SlotRest(c: Context, slots: seq<Slot>, w: nat, slot: Slot)
    requires w < |slots| && JobsRest(c, SlotJobs(slots)) && (slot.Holding? ==> Rests(c, slot.job.data))
    ensures JobsRest(c, SlotJobs(slots[w := slot])) && (slots[w].Holding? ==> Rests(c, slots[w].job.data))
  {
    var changed := slots[w := slot];
    SlotsHeadRest(c, slots);
    SlotsHeadRest(c, changed);
    if w == 0 {
      assert changed[1..] == slots[1..];
    } else {
      SlotRest(c, slots[1..], w - 1, slot);
      assert changed[1..] == slots[1..][w - 1 := slot];
    }
  }

  lemma PopKeepsRest(s: Pipe, w: nat)
    requires AllRest(s) && Enabled(s, Pop(w))
    ensures AllRest(Next(s, Pop(w)))
  {
    var n := |s.pending| - 1;
    var read := Opened(s.context, s.pending[n]);
    OpenLast(s.context, s.pending);
    RestConcat(s.context, OpenAll(s.context, s.pending[..n]), read);
    if read != [] {
      SlotRest(s.context, s.slots, w, Holding(read[0]));
    }
  }

  lemma WorkerKeepsRest(s: Pipe, a: Action)
    requires AllRest(s) && Enabled(s, a) && (a.Push? || a.Leave?)
    ensures AllRest(Next(s, a))
  {
    SlotRest(s.context, s.slots, a.w, if a.Push? then Polling else Left);
    if a.Push? {
      RestOne(s.context, s.slots[a.w].job);
      RestConcat(s.context, s.queue, [s.slots[a.w].job]);
    }
  }

  lemma RetryKeepsRest(s: Pipe, job: Job, pushes: Pushes)
    requires Keeps(s.context) && Sendable(job.data) && s.context.graded(job.data) && Rests(s.context, job.data)
    requires AllRest(s)
    ensures AllRest(Retry(s, job, pushes))
  {
    if job.data.retries < MAX_RETRIES && pushes.requeue {
      var l := Post(s.context, Recounted(job));
      PostedReturns(s.context, job);
      RoundUsed(s.context, job.data);
      OpenConcat(s.context, [l], s.pending);
      OpenOne(s.context, l);
      RestOne(s.context, Returned(s.context, job));
      RestConcat(s.context, [Returned(s.context, job)], OpenAll(s.context, s.pending));
    }
  }

  lemma SettleKeepsRest(s: Pipe, pushes: Pushes)
    requires Keeps(s.context) && AllRest(s) && Enabled(s, Settle(pushes))
    requires SettlesSendable(s, Settle(pushes)) && SettlesGraded(s, Settle(pushes))
    ensures AllRest(Next(s, Settle(pushes)))
  {
    var taken := s.(stage := s.stage.(failed := s.stage.failed[1..]));
    assert AllRest(taken);
    RetryKeepsRest(taken, s.stage.failed[0], pushes);
  }

  lemma DrainKeepsRest(s: Pipe, pushes: Pushes)
    requires Keeps(s.context) && AllRest(s) && Enabled(s, Drain(pushes))
    requires SettlesSendable(s, Drain(pushes)) && SettlesGraded(s, Drain(pushes))
    ensures AllRest(Next(s, Drain(pushes)))
  {
    var taken := s.(stage := Draining(s.stage.rest[1..]));
    assert AllRest(taken);
    RetryKeepsRest(taken, s.stage.rest[0], pushes);
  }

  lemma RowsKeepRest(c: Context, jobs: seq<Job>, ok: seq<bool>)
    requires |ok| == |jobs| && JobsRest(c, jobs)
    ensures JobsRest(c, Chosen(jobs, ok, false)) && JobsRest(c, Chosen(jobs, ok, false) + Chosen(jobs, ok, true))
  {
    ChosenRest(c, jobs, ok, true);
    ChosenRest(c, jobs, ok, false);
    RestConcat(c, Chosen(jobs, ok, false), Chosen(jobs, ok, true));
  }

  lemma CommitLeavesOthers(s: Pipe, outcome: Outcome)
    requires Enabled(s, Commit(outcome))
    ensures var s' := AfterCommit(s, outcome); s'.pending == s.pending && s'.slots == s.slots && s'.queue == s.queue
  {
  }

  lemma CommitStageRests(s: Pipe, outcome: Outcome)
    requires Enabled(s, Commit(outcome)) && JobsRest(s.context, s.stage.jobs)
    ensures JobsRest(s.context, StageJobs(AfterCommit(s, outcome).stage))
  {
    if outcome.Rows? {
      RowsKeepRest(s.context, s.stage.jobs, outcome.ok);
    }
  }

  lemma CommitKeepsRest(s: Pipe, outcome: Outcome)
    requires AllRest(s) && Enabled(s, Commit(outcome))
    ensures AllRest(AfterCommit(s, outcome))
  {
    CommitStageRests(s, outcome);
    CommitLeavesOthers(s, outcome);
  }

  lemma GrabKeepsRest(s: Pipe)
    requires AllRest(s) && Enabled(s, Grab)
    ensures AllRest(Next(s, Grab))
  {
    EnteringRest(s.context, s.queue);
  }

  lemma QuietKeepsRest(s: Pipe, a: Action)
    requires AllRest(s) && Enabled(s, a)
    requires a.StoreOwed? || a.StorePersisted? || a.EndBatch? || a.Stop? || a.JoinBatch? || a.BeginDrain? || a.EndDrain?
    ensures AllRest(Next(s, a))
  {
  }

  lemma StepKeepsRest(s: Pipe, a: Action)
    requires TraceOk(s) && AllRest(s) && Enabled(s, a) && !a.Enqueue?
    ensures AllRest(Next(s, a))
  {
    SettledIsSendable(s, a);
    if a.Pop? { PopKeepsRest(s, a.w); }
    else if a.Push? || a.Leave? { WorkerKeepsRest(s, a); }
    else if a.Settle? { SettleKeepsRest(s, a.pushes); }
    else if a.Drain? { DrainKeepsRest(s, a.drained); }
    else if a.Grab? { GrabKeepsRest(s); }
    else if a.Commit? { CommitKeepsRest(s, a.outcome); }
    else { QuietKeepsRest(s, a); }
  }

  // ---- The measure ------------------------------------------------------------

  ghost function Weigh(c: Context, job: Job): nat {
    20 * RoundsLeft(c, job.data)
  }

  /** The rounds a job has left, and how far it is on its way in this one. */
  ghost function Weight(c: Context, jobs: seq<Job>, base: nat): nat {
    if jobs == [] then 0 else Weigh(c, jobs[0]) + base + Weight(c, jobs[1..], base)
  }

  ghost function SlotWeight(c: Context, slots: seq<Slot>): nat {
    if slots == [] then 0 else OneSlot(c, slots[0]) + SlotWeight(c, slots[1..])
  }

  ghost function OneSlot(c: Context, slot: Slot): nat {
    match slot
    case Polling => 1
    case Holding(job) => Weigh(c, job) + 17
    case Left => 0
  }

  ghost function StageWeight(c: Context, stage: Stage): nat {
    match stage
    case Waiting => 3
    case Batch(jobs) => 5 + Weight(c, jobs, 9)
    case Settling(failed, persisted) => 4 + Weight(c, failed, 5) + |persisted|
    case Joined => 2
    case Draining(rest) => 1 + Weight(c, rest, 5)
    case Stopped => 0
  }

  ghost function Measure(s: Pipe): nat {
    |s.pending| + Weight(s.context, OpenAll(s.context, s.pending), 17) + SlotWeight(s.context, s.slots)
    + Weight(s.context, s.queue, 14) + StageWeight(s.context, s.stage) + |s.owed| + (if s.running then 1 else 0)
  }

  lemma {:induction false} WeightConcat(c: Context, a: seq<Job>, b: seq<Job>, base: nat)
    ensures Weight(c, a + b, base) == Weight(c, a, base) + Weight(c, b, base)
  {
    if a == [] {
      assert a + b == b;
    } else {
      assert (a + b)[1..] == a[1..] + b;
      WeightConcat(c, a[1..], b, base);
    }
  }

  lemma WeightOne(c: Context, job: Job, base: nat)
    ensures Weight(c, [job], base) == Weigh(c, job) + base
  {
    assert [job][1..] == [];
  }

  lemma {:induction false} WeightEntering(c: Context, jobs: seq<Job>)
    ensures Weight(c, Entering(jobs), 9) + 5 * |jobs| == Weight(c, jobs, 14)
  {
    if jobs != [] {
      WeightEntering(c, jobs[1..]);
      assert Entering(jobs)[1..] == Entering(jobs[1..]);
    }
  }

  lemma {:induction false} WeightLower(c: Context, jobs: seq<Job>, base: nat, less: nat)
    requires less <= base
    ensures Weight(c, jobs, base - less) + less * |jobs| == Weight(c, jobs, base)
  {
    if jobs != [] {
      WeightLower(c, jobs[1..], base, less);
      assert less * |jobs| == less + less * |jobs[1..]|;
    }
  }

  lemma {:induction false} WeightChosen(c: Context, jobs: seq<Job>, ok: seq<bool>)
    requires |ok| == |jobs|
    ensures Weight(c, Chosen(jobs, ok, false), 5) + |Chosen(jobs, ok, true)| <= Weight(c, jobs, 5)
    ensures Weight(c, Chosen(jobs, ok, false), 5) + Weight(c, Chosen(jobs, ok, true), 5) == Weight(c, jobs, 5)
  {
    if jobs != [] {
      WeightChosen(c, jobs[1..], ok[1..]);
      WeightOne(c, jobs[0], 5);
      WeightConcat(c, if ok[0] == true then [jobs[0]] else [], Chosen(jobs[1..], ok[1..], true), 5);
      WeightConcat(c, if ok[0] == false then [jobs[0]] else [], Chosen(jobs[1..], ok[1..], false), 5);
    }
  }

  lemma {:induction false} SlotWeightUpdate(c: Context, slots: seq<Slot>, w: nat, slot: Slot)
    requires w < |slots|
    ensures SlotWeight(c, slots[w := slot]) + OneSlot(c, slots[w]) == SlotWeight(c, slots) + OneSlot(c, slot)
  {
    var changed := slots[w := slot];
    if w > 0 {
      SlotWeightUpdate(c, slots[1..], w - 1, slot);
      assert changed[1..] == slots[1..][w - 1 := slot];
    } else {
      assert changed[1..] == slots[1..];
    }
  }

  lemma PopDecreases(s: Pipe, w: nat)
    requires Enabled(s, Pop(w))
    ensures Measure(Next(s, Pop(w))) < Measure(s)
  {
    var n := |s.pending| - 1;
    var read := Opened(s.context, s.pending[n]);
    OpenLast(s.context, s.pending);
    WeightConcat(s.context, OpenAll(s.context, s.pending[..n]), read, 17);
    if read != [] {
      SlotWeightUpdate(s.context, s.slots, w, Holding(read[0]));
      WeightOne(s.context, read[0], 17);
    }
  }

  lemma WorkerDecreases(s: Pipe, a: Action)
    requires Enabled(s, a) && (a.Push? || a.Leave?)
    ensures Measure(Next(s, a)) < Measure(s)
  {
    SlotWeightUpdate(s.context, s.slots, a.w, if a.Push? then Polling else Left);
    if a.Push? {
      WeightConcat(s.context, s.queue, [s.slots[a.w].job], 14);
      WeightOne(s.context, s.slots[a.w].job, 14);
    }
  }

  lemma RetryWeight(s: Pipe, job: Job, pushes: Pushes)
    requires Keeps(s.context) && Sendable(job.data) && s.context.graded(job.data) && Rests(s.context, job.data)
    ensures Measure(Retry(s, job, pushes)) < Measure(s) + Weigh(s.context, job) + 5
  {
    if job.data.retries < MAX_RETRIES && pushes.requeue {
      var l := Post(s.context, Recounted(job));
      PostedReturns(s.context, job);
      RoundUsed(s.context, job.data);
      OpenConcat(s.context, [l], s.pending);
      OpenOne(s.context, l);
      WeightOne(s.context, Returned(s.context, job), 17);
      WeightConcat(s.context, [Returned(s.context, job)], OpenAll(s.context, s.pending), 17);
    }
  }

  lemma SettleDecreases(s: Pipe, pushes: Pushes)
    requires Keeps(s.context) && AllRest(s) && Enabled(s, Settle(pushes))
    requires SettlesSendable(s, Settle(pushes)) && SettlesGraded(s, Settle(pushes))
    ensures Measure(Next(s, Settle(pushes))) < Measure(s)
  {
    RetryWeight(s.(stage := s.stage.(failed := s.stage.failed[1..])), s.stage.failed[0], pushes);
  }

  lemma DrainDecreases(s: Pipe, pushes: Pushes)
    requires Keeps(s.context) && AllRest(s) && Enabled(s, Drain(pushes))
    requires SettlesSendable(s, Drain(pushes)) && SettlesGraded(s, Drain(pushes))
    ensures Measure(Next(s, Drain(pushes))) < Measure(s)
  {
    RetryWeight(s.(stage := Draining(s.stage.rest[1..])), s.stage.rest[0], pushes);
  }

  lemma GrabDecreases(s: Pipe, a: Action)
    requires Enabled(s, a) && (a.Grab? || a.BeginDrain?)
    ensures Measure(Next(s, a)) < Measure(s)
  {
    if a.Grab? { WeightEntering(s.context, s.queue); } else { WeightLower(s.context, s.queue, 14, 9); }
  }

  /** What a transaction leaves to settle weighs no more than its jobs. */
  lemma CommitWeight(s: Pipe, outcome: Outcome)
    requires Enabled(s, Commit(outcome)) && s.stage.jobs != []
    ensures StageWeight(s.context, AfterCommit(s, outcome).stage) < StageWeight(s.context, s.stage)
  {
    var jobs := s.stage.jobs;
    WeightLower(s.context, jobs, 9, 4);
    if outcome.Rows? {
      WeightChosen(s.context, jobs, outcome.ok);
      WeightConcat(s.context, Chosen(jobs, outcome.ok, false), Chosen(jobs, outcome.ok, true), 5);
    }
  }

  lemma CommitDecreases(s: Pipe, outcome: Outcome)
    requires Enabled(s, Commit(outcome)) && s.stage.jobs != []
    ensures Measure(Next(s, Commit(outcome))) < Measure(s)
  {
    CommitWeight(s, outcome);
    LighterStage(s, AfterCommit(s, outcome));
  }

  lemma LighterStage(s: Pipe, s': Pipe)
    requires s'.context == s.context && s'.pending == s.pending && s'.slots == s.slots && s'.queue == s.queue
    requires s'.owed == s.owed && s'.running == s.running
    requires StageWeight(s.context, s'.stage) < StageWeight(s.context, s.stage)
    ensures Measure(s') < Measure(s)
  {
  }

  lemma QuietDecreases(s: Pipe, a: Action)
    requires Enabled(s, a) && (a.StoreOwed? || a.StorePersisted? || a.EndBatch? || a.Stop? || a.JoinBatch? || a.EndDrain?)
    ensures Measure(Next(s, a)) < Measure(s)
  {
  }

  /** Every step but an enqueue brings the pipeline nearer to rest, if every job in it rests. */
  lemma StepDecreases(s: Pipe, a: Action)
    requires TraceOk(s) && AllRest(s) && Enabled(s, a) && !a.Enqueue?
    ensures Measure(Next(s, a)) < Measure(s)
  {
    SettledIsSendable(s, a);
    if a.Pop? { PopDecreases(s, a.w); }
    else if a.Push? || a.Leave? { WorkerDecreases(s, a); }
    else if a.Settle? { SettleDecreases(s, a.pushes); }
    else if a.Drain? { DrainDecreases(s, a.drained); }
    else if a.Grab? || a.BeginDrain? { GrabDecreases(s, a); }
    else if a.Commit? { CommitDecreases(s, a.outcome); }
    else { QuietDecreases(s, a); }
  }

  // ---- Whole runs -------------------------------------------------------------

  ghost predicate CanRun(s: Pipe, run: seq<Action>)
    decreases |run|
  {
    run == [] || (Enabled(s, run[0]) && CanRun(Next(s, run[0]), run[1..]))
  }

  ghost function Run(s: Pipe, run: seq<Action>): Pipe
    requires CanRun(s, run)
    decreases |run|
  {
    if run == [] then s else Run(Next(s, run[0]), run[1..])
  }

  lemma {:induction false} RunThenRun(s: Pipe, run: seq<Action>, more: seq<Action>)
    requires CanRun(s, run) && CanRun(Run(s, run), more)
    ensures CanRun(s, run + more) && Run(s, run + more) == Run(Run(s, run), more)
    decreases |run|
  {
    if run == [] {
      assert run + more == more;
    } else {
      assert (run + more)[0] == run[0] && (run + more)[1..] == run[1..] + more;
      RunThenRun(Next(s, run[0]), run[1..], more);
    }
  }

  lemma RunOne(s: Pipe, a: Action)
    requires Enabled(s, a)
    ensures CanRun(s, [a]) && Run(s, [a]) == Next(s, a)
  {
    var next := Next(s, a);
    assert CanRun(next, []) && Run(next, []) == next;
    assert [a][0] == a && [a][1..] == [];
  }

  ghost predicate Inv(s: Pipe) {
    Conserved(s) && ResultsOk(s) && TraceOk(s) && StopOk(s)
  }

  lemma InitialInv(c: Context)
    requires Keeps(c)
    ensures Inv(Initial(c))
  {
    NobodyHolds(Initial(c).slots);
  }

  lemma StepKeepsInv(s: Pipe, a: Action)
    requires Inv(s) && Enabled(s, a)
    ensures Inv(Next(s, a))
  {
    SettledIsSendable(s, a);
    StepConserves(s, a);
    StepKeepsResults(s, a);
    StepKeepsTrace(s, a);
    StepKeepsStop(s, a);
  }

  lemma {:induction false} RunKeepsInv(s: Pipe, run: seq<Action>)
    requires Inv(s) && CanRun(s, run)
    ensures Inv(Run(s, run))
    decreases |run|
  {
    if run != [] {
      StepKeepsInv(s, run[0]);
      RunKeepsInv(Next(s, run[0]), run[1..]);
    }
  }

  lemma {:induction false} RunKeepsContext(s: Pipe, run: seq<Action>)
    requires CanRun(s, run)
    ensures Run(s, run).context == s.context
    decreases |run|
  {
    if run != [] {
      StepAccepts(s, run[0]);
      RunKeepsContext(Next(s, run[0]), run[1..]);
    }
  }

  ghost predicate Reachable(s: Pipe) {
    Keeps(s.context) && exists run :: CanRun(Initial(s.context), run) && Run(Initial(s.context), run) == s
  }

  lemma ReachableThen(s: Pipe, a: Action)
    requires Reachable(s) && Enabled(s, a)
    ensures Reachable(Next(s, a))
  {
    var run :| CanRun(Initial(s.context), run) && Run(Initial(s.context), run) == s;
    RunOne(s, a);
    RunThenRun(Initial(s.context), run, [a]);
    StepAccepts(s, a);
  }

  lemma ReachableInv(s: Pipe)
    requires Reachable(s)
    ensures Inv(s)
  {
    var run :| CanRun(Initial(s.context), run) && Run(Initial(s.context), run) == s;
    InitialInv(s.context);
    RunKeepsInv(Initial(s.context), run);
  }

  /** At every step of every run, with any pattern of failures and through shutdown, each
      accepted job is in exactly one place. */
  lemma EveryJobIsSomewhere(s: Pipe, id: Id)
    requires Reachable(s)
    ensures Live(s, id) + Times(s.db, id) + Times(s.dead, id) + Times(s.spool, id) + Times(s.dropped, id)
            + Times(s.vanished, id) == if id in s.accepted then 1 else 0
  {
    ReachableInv(s);
    assert Everywhere(s, id) == if id in s.accepted then 1 else 0;
  }

  /** A job has at most one result. Once nothing is about to be stored it has one exactly
      when it has ended, and the result says success exactly when the job has its row. */
  lemma OneResultPerJob(s: Pipe, id: Id)
    requires Reachable(s)
    ensures Told(s.results, Result(id, true)) + Told(s.results, Result(id, false)) <= 1
    ensures Told(s.results, Result(id, true)) > 0 ==> Times(s.db, id) == 1
    ensures Told(s.results, Result(id, false)) > 0 ==> Failed(s, id) == 1
    ensures s.owed == [] && Untold(s.stage) == [] ==>
              && Told(s.results, Result(id, true)) == Times(s.db, id)
              && Told(s.results, Result(id, false)) == Failed(s, id)
  {
    ReachableInv(s);
    assert ResultsMatch(s, id);
    EveryJobIsSomewhere(s, id);
  }

  /** The job is on its way, or has ended with its row or without a result. */
  predicate IsIn(s: Pipe, job: Job) {
    || job in OpenAll(s.context, s.pending) || job in SlotJobs(s.slots) || job in s.queue
    || job in StageJobs(s.stage) || job in s.db || job in s.vanished
  }

  predicate IsGivenUp(s: Pipe, job: Job) {
    job in s.dead || job in s.spool || job in s.dropped
  }

  /** What is known of any job on its way. */
  ghost predicate Known(s: Pipe, job: Job) {
    && job.data.jobId in s.accepted
    && var first, n := First(s.context, s.accepted, job.data.jobId), job.rounds;
       && job.data == Nth(s.context, first, n) && Tried(s.context, first, n) && Passes(s.context, first, n)
       && job.batches <= n + 1 && (job.batches > n ==> Passes(s.context, first, n + 1))
  }

  lemma TracedIsKnown(s: Pipe, kind: Kind, jobs: seq<Job>, job: Job)
    requires AllTraced(kind, s.context, s.accepted, jobs) && job in jobs && !kind.GivenUp?
    ensures Known(s, job)
  {
    TracedIn(kind, s.context, s.accepted, jobs, job);
  }

  lemma InHandIsKnown(s: Pipe, job: Job)
    requires TraceOk(s) && IsIn(s, job)
    ensures Known(s, job)
  {
    if job in OpenAll(s.context, s.pending) { TracedIsKnown(s, InHand, OpenAll(s.context, s.pending), job); }
    else if job in SlotJobs(s.slots) { TracedIsKnown(s, InHand, SlotJobs(s.slots), job); }
    else if job in s.queue { TracedIsKnown(s, Queued, s.queue, job); }
    else if job in StageJobs(s.stage) { TracedIsKnown(s, StageKind(s.stage), StageJobs(s.stage), job); }
    else if job in s.db { TracedIsKnown(s, InBatch, s.db, job); }
    else { TracedIsKnown(s, InBatch, s.vanished, job); }
  }

  lemma GivenUpIsTraced(s: Pipe, job: Job)
    requires TraceOk(s) && IsGivenUp(s, job)
    ensures Traced(GivenUp, s.context, s.accepted, job)
  {
    if job in s.dead { TracedIn(GivenUp, s.context, s.accepted, s.dead, job); }
    else if job in s.spool { TracedIn(GivenUp, s.context, s.accepted, s.spool, job); }
    else { TracedIn(GivenUp, s.context, s.accepted, s.dropped, job); }
  }

  /** What is held, and what is written in the end, is exactly the accepted job printed,
      read and counted once for every time it was sent again; and it was sent again only
      while its counter, as it was read, allowed it, and after it was graded. */
  lemma ContentIsReread(s: Pipe, job: Job)
    requires Reachable(s) && IsIn(s, job)
    ensures job.data.jobId in s.accepted
    ensures var first := Reread(s.context, s.accepted[job.data.jobId]);
            && job.data == Nth(s.context, first, job.rounds)
            && Tried(s.context, first, job.rounds) && Passes(s.context, first, job.rounds)
    ensures job.batches <= job.rounds + 1
  {
    ReachableInv(s);
    InHandIsKnown(s, job);
  }

  /** The same for jobs given up; if Redis did not take a job back, it was counted once more. */
  lemma GivenUpIsReread(s: Pipe, job: Job)
    requires Reachable(s) && IsGivenUp(s, job)
    ensures job.data.jobId in s.accepted
    ensures var first := Reread(s.context, s.accepted[job.data.jobId]);
            && Tried(s.context, first, job.rounds) && Passes(s.context, first, job.rounds)
            && job.batches <= job.rounds + 1
            && (|| job.data == Nth(s.context, first, job.rounds)
                || (job.rounds > 0 && job.batches <= job.rounds
                    && job.data == Counted(Nth(s.context, first, job.rounds - 1))))
  {
    ReachableInv(s);
    GivenUpIsTraced(s, job);
  }

  /** Nothing is saved, or lost with a batch, that was not graded as it is. */
  lemma SavedIsGraded(s: Pipe, job: Job)
    requires Reachable(s) && (job in s.db || job in s.vanished)
    ensures s.context.graded(job.data)
  {
    ReachableInv(s);
    TracedIn(InBatch, s.context, s.accepted, if job in s.db then s.db else s.vanished, job);
    TracedSendable(InBatch, s.context, s.accepted, job);
  }

  /** A job enters at most one batch more than its counter allows, and was graded before each. */
  lemma BatchesAreTried(s: Pipe, job: Job)
    requires Reachable(s) && (IsIn(s, job) || IsGivenUp(s, job)) && job.batches > 0
    ensures job.data.jobId in s.accepted
    ensures var first := Reread(s.context, s.accepted[job.data.jobId]);
            Tried(s.context, first, job.batches - 1) && Passes(s.context, first, job.batches)
  {
    ReachableInv(s);
    if IsIn(s, job) {
      InHandIsKnown(s, job);
      KnownIsTried(s, job);
    } else {
      GivenUpIsTraced(s, job);
      GivenUpIsTried(s.context, s.accepted, job);
    }
  }

  lemma KnownIsTried(s: Pipe, job: Job)
    requires Known(s, job) && job.batches > 0
    ensures var first := First(s.context, s.accepted, job.data.jobId);
            Tried(s.context, first, job.batches - 1) && Passes(s.context, first, job.batches)
  {
    BatchIsTried(s.context, First(s.context, s.accepted, job.data.jobId), job.rounds, job.batches);
  }

  lemma GivenUpIsTried(c: Context, accepted: map<Id, J.Job>, job: Job)
    requires Traced(GivenUp, c, accepted, job) && job.batches > 0
    ensures var first := First(c, accepted, job.data.jobId);
            Tried(c, first, job.batches - 1) && Passes(c, first, job.batches)
  {
    BatchIsTried(c, First(c, accepted, job.data.jobId), job.rounds, job.batches);
  }

  lemma BatchIsTried(c: Context, first: J.Job, rounds: nat, batches: nat)
    requires Tried(c, first, rounds) && Passes(c, first, rounds) && 0 < batches <= rounds + 1
    requires batches > rounds ==> Passes(c, first, rounds + 1)
    ensures Tried(c, first, batches - 1) && Passes(c, first, batches)
  {
    TriedBefore(c, first, batches - 1, rounds);
    if batches <= rounds {
      PassesBefore(c, first, batches, rounds);
    }
  }

  lemma TriedBefore(c: Context, d: J.Job, n: nat, m: nat)
    requires n <= m && Tried(c, d, m)
    ensures Tried(c, d, n)
  {
    if !Tried(c, d, n) {
      GivenUpStays(c, d, n - 1, m - 1);
    }
  }

  predicate NoEnqueue(run: seq<Action>) {
    forall i :: 0 <= i < |run| ==> !run[i].Enqueue?
  }

  /** Without new jobs a run is no longer than the measure of its first state, if every job
      in it rests. */
  lemma {:induction false} RunsEnd(s: Pipe, run: seq<Action>)
    requires TraceOk(s) && AllRest(s) && CanRun(s, run) && NoEnqueue(run)
    ensures |run| <= Measure(s)
    decreases |run|
  {
    if run != [] {
      assert |run[1..]| < |run|;
      var next := Advance(s, run);
      RunsEnd(next, run[1..]);
    }
  }

  /** The first step of a run without enqueues. */
  lemma Advance(s: Pipe, run: seq<Action>) returns (next: Pipe)
    requires TraceOk(s) && AllRest(s) && CanRun(s, run) && NoEnqueue(run) && run != []
    ensures TraceOk(next) && AllRest(next) && Measure(next) < Measure(s)
    ensures CanRun(next, run[1..]) && NoEnqueue(run[1..])
  {
    next := Next(s, run[0]);
    StepDecreases(s, run[0]);
    StepKeepsTrace(s, run[0]);
    StepKeepsRest(s, run[0]);
  }

  /** Every job that is still on its way rests, judged by what was accepted. */
  ghost predicate LiveRest(s: Pipe) {
    forall id :: id in s.accepted && Live(s, id) > 0 ==> Rests(s.context, First(s.context, s.accepted, id))
  }

  /** The job goes by an id that is looked for. */
  lemma TimesIn(jobs: seq<Job>, job: Job)
    requires job in jobs
    ensures Times(jobs, job.data.jobId) > 0
  {
    if job != jobs[0] {
      TimesIn(jobs[1..], job);
    }
  }

  lemma {:induction false} TracedRest(kind: Kind, c: Context, accepted: map<Id, J.Job>, jobs: seq<Job>)
    requires AllTraced(kind, c, accepted, jobs) && !kind.GivenUp?
    requires forall job :: job in jobs && job.data.jobId in accepted ==> Rests(c, First(c, accepted, job.data.jobId))
    ensures JobsRest(c, jobs)
  {
    if jobs != [] {
      assert jobs[0] in jobs;
      RestsLater(c, First(c, accepted, jobs[0].data.jobId), jobs[0].rounds);
      TracedRest(kind, c, accepted, jobs[1..]);
    }
  }

  lemma LiveListRests(s: Pipe, kind: Kind, jobs: seq<Job>)
    requires AllTraced(kind, s.context, s.accepted, jobs) && !kind.GivenUp? && LiveRest(s)
    requires forall id :: Times(jobs, id) <= Live(s, id)
    ensures JobsRest(s.context, jobs)
  {
    forall job | job in jobs && job.data.jobId in s.accepted
      ensures Rests(s.context, First(s.context, s.accepted, job.data.jobId))
    {
      TimesIn(jobs, job);
    }
    TracedRest(kind, s.context, s.accepted, jobs);
  }

  /** If the jobs on their way rest, as they were first read, then they rest as they are. */
  lemma LiveJobsRest(s: Pipe)
    requires TraceOk(s) && LiveRest(s)
    ensures AllRest(s)
  {
    LiveListRests(s, InHand, OpenAll(s.context, s.pending));
    LiveListRests(s, InHand, SlotJobs(s.slots));
    LiveListRests(s, Queued, s.queue);
    LiveListRests(s, StageKind(s.stage), StageJobs(s.stage));
  }

  // ---- When jobs are lost -----------------------------------------------------

  predicate CallbackMissed(a: Action) {
    a == Commit(NoCallback)
  }

  lemma {:induction false} VanishedOnlyGrows(s: Pipe, run: seq<Action>)
    requires CanRun(s, run)
    ensures s.vanished <= Run(s, run).vanished
    decreases |run|
  {
    if run != [] {
      VanishedOnlyGrows(Next(s, run[0]), run[1..]);
    }
  }

  /** Jobs vanish in a run exactly when for some batch the database callback is never
      called: the batch is then neither persisted nor failed, and nothing records it. */
  lemma {:induction false} JobsVanishWithTheCallback(s: Pipe, run: seq<Action>)
    requires BatchesOk(s) && CanRun(s, run) && s.vanished == []
    ensures Run(s, run).vanished == [] <==> forall i :: 0 <= i < |run| ==> !CallbackMissed(run[i])
    decreases |run|
  {
    if run != [] {
      var next := Next(s, run[0]);
      StepMayLoseBatch(s, run[0]);
      if CallbackMissed(run[0]) {
        VanishedOnlyGrows(next, run[1..]);
      } else {
        JobsVanishWithTheCallback(next, run[1..]);
        assert forall i :: 0 < i < |run| ==> run[i] == run[1..][i - 1];
      }
    }
  }

  /** No batch is empty. */
  predicate BatchesOk(s: Pipe) {
    s.stage.Batch? ==> s.stage.jobs != []
  }

  lemma StepMayLoseBatch(s: Pipe, a: Action)
    requires BatchesOk(s) && Enabled(s, a) && s.vanished == []
    ensures BatchesOk(Next(s, a)) && (Next(s, a).vanished == [] <==> !CallbackMissed(a))
  {
    if a.Grab? {
      assert Entering(s.queue) != [];
    }
  }

  /** With the callback called and the spool file writable, every accepted job is live,
      persisted, in the dead-letter list or in the spool. */
  predicate SpoolWorks(a: Action) {
    match a
    case Settle(p) => p.spool
    case Drain(p) => p.spool
    case _ => true
  }

  lemma {:induction false} NothingDropped(s: Pipe, run: seq<Action>)
    requires CanRun(s, run) && s.dropped == [] && forall i :: 0 <= i < |run| ==> SpoolWorks(run[i])
    ensures Run(s, run).dropped == []
    decreases |run|
  {
    if run != [] {
      NothingDropped(Next(s, run[0]), run[1..]);
    }
  }

  lemma NothingIsLost(c: Context, run: seq<Action>, id: Id)
    requires Keeps(c) && CanRun(Initial(c), run)
    requires forall i :: 0 <= i < |run| ==> !CallbackMissed(run[i]) && SpoolWorks(run[i])
    ensures var s := Run(Initial(c), run);
            id in s.accepted ==> Live(s, id) + Times(s.db, id) + Times(s.dead, id) + Times(s.spool, id) == 1
  {
    InitialInv(c);
    JobsVanishWithTheCallback(Initial(c), run);
    NothingDropped(Initial(c), run);
    RunKeepsContext(Initial(c), run);
    EveryJobIsSomewhere(Run(Initial(c), run), id);
  }
}
