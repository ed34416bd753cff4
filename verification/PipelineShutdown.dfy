/**
 How a shutdown ends. Once the flag is cleared the batch thread empties the queue, the workers
 leave, and what is left is drained; but `stop` joins every worker, and a worker whose scorer
 does not return never leaves. The pipeline can stop exactly when no worker holds such a job.
 */
module PipelineShutdown {
  import opened Rounds
  import opened Pipeline
  import opened PipelineTrace
  import opened PipelineTheorems

  // ---- After the shutdown -----------------------------------------------------

  lemma MemoryIsEmpty(s: Pipe, id: Id)
    requires StopOk(s) && s.stage.Stopped?
    ensures Live(s, id) == Times(OpenAll(s.context, s.pending), id)
  {
    NobodyHolds(s.slots);
  }

  /** After shutdown no job is in memory: each accepted one is still pending in Redis, or
      has ended. */
  lemma NothingInMemoryAfterStop(s: Pipe, id: Id)
    requires Reachable(s) && s.stage.Stopped? && id in s.accepted
    ensures Times(OpenAll(s.context, s.pending), id) + Times(s.db, id) + Failed(s, id) + Times(s.vanished, id) == 1
  {
    ReachableInv(s);
    MemoryIsEmpty(s, id);
    EveryJobIsSomewhere(s, id);
  }

  // ---- A job that is held for ever --------------------------------------------

  /** The worker is in a call of the scorer that does not return. */
  predicate IsStuck(s: Pipe, w: nat) {
    w < |s.slots| && s.slots[w].Holding? && !s.context.graded(s.slots[w].job.data)
  }

  lemma StepKeepsStuck(s: Pipe, a: Action, w: nat)
    requires IsStuck(s, w) && Enabled(s, a)
    ensures IsStuck(Next(s, a), w) && Next(s, a).slots[w] == s.slots[w]
  {
  }

  /** Whatever happens, the worker holds this job. */
  lemma {:induction false} HeldForEver(s: Pipe, w: nat, run: seq<Action>)
    requires IsStuck(s, w) && CanRun(s, run)
    ensures IsStuck(Run(s, run), w) && Run(s, run).slots[w] == s.slots[w]
    decreases |run|
  {
    if run != [] {
      StepKeepsStuck(s, run[0], w);
      HeldForEver(Next(s, run[0]), w, run[1..]);
    }
  }

  lemma StepKeepsWorkers(s: Pipe, a: Action)
    requires Enabled(s, a)
    ensures |Next(s, a).slots| == |s.slots|
  {
  }

  /** When every worker is stuck, no job is taken from Redis any more. */
  lemma {:induction false} NothingIsPopped(s: Pipe, run: seq<Action>)
    requires CanRun(s, run) && forall w: nat :: w < |s.slots| ==> IsStuck(s, w)
    ensures forall i :: 0 <= i < |run| ==> !run[i].Pop?
    decreases |run|
  {
    if run != [] {
      assert run[0].Pop? ==> IsStuck(s, run[0].w);
      forall w: nat | w < |s.slots| ensures IsStuck(Next(s, run[0]), w) { StepKeepsStuck(s, run[0], w); }
      StepKeepsWorkers(s, run[0]);
      NothingIsPopped(Next(s, run[0]), run[1..]);
      assert forall i :: 0 < i < |run| ==> run[i] == run[1..][i - 1];
    }
  }

  ghost predicate StopsBy(s: Pipe, run: seq<Action>)
    requires CanRun(s, run)
  {
    Run(s, run).stage.Stopped?
  }

  ghost predicate CanStop(s: Pipe) {
    exists run :: CanRun(s, run) && StopsBy(s, run)
  }

  /** From the moment a worker is stuck the pipeline never stops. */
  lemma NeverStops(s: Pipe, w: nat)
    requires Reachable(s) && IsStuck(s, w)
    ensures !CanStop(s)
  {
    forall run | CanRun(s, run) ensures !StopsBy(s, run) {
      HeldForEver(s, w, run);
      ReachableInv(s);
      RunKeepsInv(s, run);
    }
  }

  // ---- Steps of a shutdown ----------------------------------------------------

  function SlotSteps(slots: seq<Slot>): nat {
    if slots == [] then 0 else OneSlotSteps(slots[0]) + SlotSteps(slots[1..])
  }

  function OneSlotSteps(slot: Slot): nat {
    match slot
    case Polling => 1
    case Holding(_) => 16
    case Left => 0
  }

  function StageSteps(stage: Stage): nat {
    match stage
    case Waiting => 3
    case Batch(jobs) => 5 + 9 * |jobs|
    case Settling(failed, persisted) => 4 + 5 * |failed| + |persisted|
    case Joined => 2
    case Draining(rest) => 1 + 5 * |rest|
    case Stopped => 0
  }

  /** A bound on the steps that are left when the workers take no more jobs. */
  function StepsLeft(s: Pipe): nat {
    SlotSteps(s.slots) + 14 * |s.queue| + StageSteps(s.stage) + |s.owed| + (if s.running then 1 else 0)
  }

  lemma {:induction false} SlotStepsUpdate(slots: seq<Slot>, w: nat, slot: Slot)
    requires w < |slots|
    ensures SlotSteps(slots[w := slot]) + OneSlotSteps(slots[w]) == SlotSteps(slots) + OneSlotSteps(slot)
  {
    var changed := slots[w := slot];
    if w > 0 {
      SlotStepsUpdate(slots[1..], w - 1, slot);
      assert changed[1..] == slots[1..][w - 1 := slot];
    } else {
      assert changed[1..] == slots[1..];
    }
  }

  predicate TakesNoJob(a: Action) {
    !a.Enqueue? && !a.Pop?
  }

  predicate NoMoreJobs(run: seq<Action>) {
    forall i :: 0 <= i < |run| ==> TakesNoJob(run[i])
  }

  lemma RetrySteps(s: Pipe, job: Job, pushes: Pushes)
    ensures StepsLeft(Retry(s, job, pushes)) <= StepsLeft(s) + 1
  {
  }

  lemma SettleSteps(s: Pipe, a: Action)
    requires Enabled(s, a) && (a.Settle? || a.Drain?)
    ensures StepsLeft(Next(s, a)) < StepsLeft(s)
  {
    match a
    case Settle(pushes) => RetrySteps(s.(stage := s.stage.(failed := s.stage.failed[1..])), s.stage.failed[0], pushes);
    case Drain(pushes) => RetrySteps(s.(stage := Draining(s.stage.rest[1..])), s.stage.rest[0], pushes);
  }

  lemma CommitSteps(s: Pipe, outcome: Outcome)
    requires Enabled(s, Commit(outcome))
    ensures StepsLeft(AfterCommit(s, outcome)) < StepsLeft(s)
  {
    if outcome.Rows? {
      ChosenLength(s.stage.jobs, outcome.ok);
    }
  }

  lemma QuietSteps(s: Pipe, a: Action)
    requires Enabled(s, a) && (a.StoreOwed? || a.StorePersisted? || a.EndBatch? || a.Stop? || a.JoinBatch? || a.EndDrain?)
    ensures StepsLeft(Next(s, a)) < StepsLeft(s)
  {
  }

  /** Every step but an enqueue or a pop brings the pipeline nearer to its end. */
  lemma StepsDecrease(s: Pipe, a: Action)
    requires Enabled(s, a) && TakesNoJob(a)
    ensures StepsLeft(Next(s, a)) < StepsLeft(s)
  {
    if a.Push? { SlotStepsUpdate(s.slots, a.w, Polling); }
    else if a.Leave? { SlotStepsUpdate(s.slots, a.w, Left); }
    else if a.Settle? || a.Drain? { SettleSteps(s, a); }
    else if a.Grab? { EnteringLength(s.queue); }
    else if a.Commit? { CommitSteps(s, a.outcome); }
    else if a.BeginDrain? {}
    else { QuietSteps(s, a); }
  }

  /** No worker is stuck. */
  ghost predicate HeldAreGraded(s: Pipe) {
    forall w: nat :: !IsStuck(s, w)
  }

  lemma StepKeepsGraded(s: Pipe, a: Action)
    requires Enabled(s, a) && TakesNoJob(a)
    ensures HeldAreGraded(Next(s, a)) <==> HeldAreGraded(s)
  {
    StepKeepsWorkers(s, a);
    if w: nat :| IsStuck(s, w) {
      StepKeepsStuck(s, a, w);
    }
    if w: nat :| IsStuck(Next(s, a), w) {
      OnlyPopsStick(s, a, w);
    }
  }

  lemma OnlyPopsStick(s: Pipe, a: Action, w: nat)
    requires Enabled(s, a) && TakesNoJob(a) && IsStuck(Next(s, a), w)
    ensures IsStuck(s, w)
  {
    StepAccepts(s, a);
    SlotsAfter(s, a);
  }

  lemma SlotsAfter(s: Pipe, a: Action)
    requires Enabled(s, a) && TakesNoJob(a)
    ensures Next(s, a).slots == match a
                                case Push(w) => s.slots[w := Polling]
                                case Leave(w) => s.slots[w := Left]
                                case _ => s.slots
  {
  }

  /** Some step can be taken that takes no job. */
  ghost predicate CanStep(s: Pipe) {
    exists a :: Enabled(s, a) && TakesNoJob(a)
  }

  lemma WorkerCanStep(s: Pipe)
    requires !s.running && s.stage.Joined? && HeldAreGraded(s)
    ensures CanStep(s)
  {
    if w: nat :| w < |s.slots| && !s.slots[w].Left? {
      assert !IsStuck(s, w);
      if s.slots[w].Holding? { assert Enabled(s, Push(w)); } else { assert Enabled(s, Leave(w)); }
    } else {
      assert Enabled(s, BeginDrain);
    }
  }

  /** Until the pipeline has stopped there is a step to take, unless a worker is stuck. */
  lemma ShutdownCanStep(s: Pipe)
    requires !s.running && HeldAreGraded(s)
    ensures CanStep(s) || s.stage.Stopped?
  {
    if s.owed != [] {
      assert Enabled(s, StoreOwed);
    } else {
      var go := Pushes(true, true, true);
      match s.stage
      case Waiting => assert Enabled(s, if s.queue == [] then JoinBatch else Grab);
      case Batch(_) => assert Enabled(s, Commit(NoTransaction));
      case Settling(failed, persisted) =>
        assert Enabled(s, if failed != [] then Settle(go) else if persisted != [] then StorePersisted else EndBatch);
      case Joined => WorkerCanStep(s);
      case Draining(rest) => assert Enabled(s, if rest != [] then Drain(go) else EndDrain);
      case Stopped =>
    }
  }

  // ---- Whole shutdowns --------------------------------------------------------

  lemma StepStaysDown(s: Pipe, a: Action)
    requires Enabled(s, a)
    ensures !s.running ==> !Next(s, a).running
  {
  }

  lemma {:induction false} ReachesStop(s: Pipe) returns (run: seq<Action>)
    requires !s.running && HeldAreGraded(s)
    ensures CanRun(s, run) && StopsBy(s, run) && NoMoreJobs(run)
    decreases StepsLeft(s)
  {
    ShutdownCanStep(s);
    if s.stage.Stopped? {
      return [];
    }
    var a :| Enabled(s, a) && TakesNoJob(a);
    StepsDecrease(s, a);
    StepKeepsGraded(s, a);
    StepStaysDown(s, a);
    var rest := ReachesStop(Next(s, a));
    run := [a] + rest;
    assert run[0] == a && run[1..] == rest;
  }

  /** After the flag is cleared the pipeline can come to its end if and only if the scorer
      returns for every job that a worker holds. */
  lemma ShutdownCompletes(s: Pipe)
    requires Reachable(s) && !s.running
    ensures CanStop(s) <==> HeldAreGraded(s)
  {
    if w: nat :| IsStuck(s, w) {
      NeverStops(s, w);
    } else {
      var run := ReachesStop(s);
    }
  }

  /** How many jobs a run brings in: enqueues, and pops of the workers. */
  function Taken(run: seq<Action>): nat {
    if run == [] then 0 else (if TakesNoJob(run[0]) then 0 else 1) + Taken(run[1..])
  }

  lemma TakingSteps(s: Pipe, a: Action)
    requires Enabled(s, a) && !TakesNoJob(a)
    ensures StepsLeft(Next(s, a)) <= StepsLeft(s) + 15
  {
    if a.Pop? {
      var read := Opened(s.context, s.pending[|s.pending| - 1]);
      if read != [] {
        SlotStepsUpdate(s.slots, a.w, Holding(read[0]));
      }
    }
  }

  lemma {:induction false} ShutdownIsBounded(s: Pipe, run: seq<Action>)
    requires !s.running && CanRun(s, run)
    ensures |run| + StepsLeft(Run(s, run)) <= StepsLeft(s) + 16 * Taken(run) && !Run(s, run).running
    decreases |run|
  {
    if run != [] {
      if TakesNoJob(run[0]) {
        StepsDecrease(s, run[0]);
      } else {
        TakingSteps(s, run[0]);
      }
      StepStaysDown(s, run[0]);
      ShutdownIsBounded(Next(s, run[0]), run[1..]);
    }
  }

  lemma StoppedHoldsNothing(s: Pipe)
    requires StopOk(s) && s.stage.Stopped?
    ensures HeldAreGraded(s)
  {
  }

  /** However the shutdown goes on, it takes a bounded number of steps, some more for each job
      that is still accepted or popped; and where it cannot go on it has stopped if and only
      if no worker is stuck. */
  lemma EveryShutdownEnds(s: Pipe, run: seq<Action>)
    requires Reachable(s) && !s.running && CanRun(s, run)
    ensures |run| <= StepsLeft(s) + 16 * Taken(run)
    ensures !CanStep(Run(s, run)) ==> (Run(s, run).stage.Stopped? <==> HeldAreGraded(Run(s, run)))
  {
    ShutdownIsBounded(s, run);
    ReachableInv(s);
    RunKeepsInv(s, run);
    if HeldAreGraded(Run(s, run)) {
      ShutdownCanStep(Run(s, run));
    } else if Run(s, run).stage.Stopped? {
      StoppedHoldsNothing(Run(s, run));
    }
  }
}
