/**
 What the records of the submission pipeline mean: which rows a transaction saves, when a job
 is in the database at all, who is served first, and where jobs that are given up end.
 */
module PipelineRecords {
  import opened Rounds
  import opened Pipeline
  import opened PipelineTrace
  import opened PipelineTheorems
  import J = JobText

  // ---- Rows of a transaction --------------------------------------------------

  function Trues(ok: seq<bool>): (n: nat)
    ensures n <= |ok|
  {
    if ok == [] then 0 else Trues(ok[..|ok| - 1]) + if ok[|ok| - 1] then 1 else 0
  }

  /** Exactly the rows whose flag is set, in order: each stands behind those before it. */
  ghost predicate AreSaved(saved: seq<Job>, jobs: seq<Job>, ok: seq<bool>)
    requires |ok| == |jobs|
  {
    && |saved| == Trues(ok)
    && forall i :: 0 <= i < |jobs| && ok[i] ==> Trues(ok[..i]) < |saved| && saved[Trues(ok[..i])] == jobs[i]
  }

  /** Exactly the rows whose flag is not set, in order. */
  ghost predicate AreFailed(failed: seq<Job>, jobs: seq<Job>, ok: seq<bool>)
    requires |ok| == |jobs|
  {
    && |failed| == |ok| - Trues(ok)
    && forall i :: 0 <= i < |jobs| && !ok[i] ==> i - Trues(ok[..i]) < |failed| && failed[i - Trues(ok[..i])] == jobs[i]
  }

  lemma {:induction false} ChosenConcat(a: seq<Job>, b: seq<Job>, x: seq<bool>, y: seq<bool>, flag: bool)
    requires |x| == |a| && |y| == |b|
    ensures Chosen(a + b, x + y, flag) == Chosen(a, x, flag) + Chosen(b, y, flag)
  {
    if a == [] {
      assert a + b == b && x + y == y;
    } else {
      assert (a + b)[0] == a[0] && (a + b)[1..] == a[1..] + b && (x + y)[0] == x[0] && (x + y)[1..] == x[1..] + y;
      ChosenConcat(a[1..], b, x[1..], y, flag);
    }
  }

  lemma {:induction false} ChosenCount(jobs: seq<Job>, ok: seq<bool>)
    requires |ok| == |jobs|
    ensures |Chosen(jobs, ok, true)| == Trues(ok) && |Chosen(jobs, ok, false)| == |ok| - Trues(ok)
  {
    if jobs != [] {
      var n := |jobs| - 1;
      ChosenCount(jobs[..n], ok[..n]);
      CutLast(jobs);
      CutLast(ok);
      ChosenConcat(jobs[..n], [jobs[n]], ok[..n], [ok[n]], true);
      ChosenConcat(jobs[..n], [jobs[n]], ok[..n], [ok[n]], false);
      assert [jobs[n]][1..] == [] && [ok[n]][1..] == [];
    }
  }

  lemma CutLast<T>(s: seq<T>)
    requires s != []
    ensures s == s[..|s| - 1] + [s[|s| - 1]]
  {
  }

  /** A chosen row stands behind the chosen ones before it. */
  lemma ChosenAt(jobs: seq<Job>, ok: seq<bool>, i: nat)
    requires i < |ok| == |jobs|
    ensures var before := |Chosen(jobs[..i], ok[..i], ok[i])|;
            before < |Chosen(jobs, ok, ok[i])| && Chosen(jobs, ok, ok[i])[before] == jobs[i]
  {
    assert jobs == jobs[..i] + jobs[i..] && ok == ok[..i] + ok[i..];
    ChosenConcat(jobs[..i], jobs[i..], ok[..i], ok[i..], ok[i]);
    assert Chosen(jobs[i..], ok[i..], ok[i])[0] == jobs[i];
  }

  lemma ChosenSaved(jobs: seq<Job>, ok: seq<bool>)
    requires |ok| == |jobs|
    ensures AreSaved(Chosen(jobs, ok, true), jobs, ok)
  {
    ChosenCount(jobs, ok);
    forall i | 0 <= i < |jobs| && ok[i]
      ensures Trues(ok[..i]) < |Chosen(jobs, ok, true)| && Chosen(jobs, ok, true)[Trues(ok[..i])] == jobs[i]
    {
      ChosenCount(jobs[..i], ok[..i]);
      ChosenAt(jobs, ok, i);
    }
  }

  lemma ChosenFailed(jobs: seq<Job>, ok: seq<bool>)
    requires |ok| == |jobs|
    ensures AreFailed(Chosen(jobs, ok, false), jobs, ok)
  {
    ChosenCount(jobs, ok);
    forall i | 0 <= i < |jobs| && !ok[i]
      ensures i - Trues(ok[..i]) < |Chosen(jobs, ok, false)| && Chosen(jobs, ok, false)[i - Trues(ok[..i])] == jobs[i]
    {
      ChosenCount(jobs[..i], ok[..i]);
      ChosenAt(jobs, ok, i);
    }
  }

  /** A transaction that commits adds exactly the rows whose flag is set to the database, and
      these get their results; exactly the others are settled as failed. One that does not
      commit adds none, and all rows are settled as failed, the flagged ones last. */
  lemma CommitSaves(s: Pipe, ok: seq<bool>, commit: bool)
    requires Enabled(s, Commit(Rows(ok, commit)))
    ensures var s', jobs := Next(s, Commit(Rows(ok, commit))), s.stage.jobs;
            && s'.stage.Settling? && s.db <= s'.db
            && (commit ==> AreSaved(s'.db[|s.db|..], jobs, ok) && AreSaved(s'.stage.persisted, jobs, ok)
                           && AreFailed(s'.stage.failed, jobs, ok))
            && (!commit ==> s'.db == s.db && s'.stage.persisted == [] && |s'.stage.failed| == |jobs|
                            && AreFailed(s'.stage.failed[..|ok| - Trues(ok)], jobs, ok)
                            && AreSaved(s'.stage.failed[|ok| - Trues(ok)..], jobs, ok))
  {
    var jobs := s.stage.jobs;
    var saved, failed := Chosen(jobs, ok, true), Chosen(jobs, ok, false);
    ChosenSaved(jobs, ok);
    ChosenFailed(jobs, ok);
    if commit {
      assert (s.db + saved)[|s.db|..] == saved;
    } else {
      InTwo(failed, saved, |ok| - Trues(ok));
    }
  }

  lemma InTwo(a: seq<Job>, b: seq<Job>, n: nat)
    requires n == |a|
    ensures (a + b)[..n] == a && (a + b)[n..] == b
  {
  }

  // ---- When a job is in the database ------------------------------------------

  /** The step commits a transaction in which the row of the job was written. */
  ghost predicate Commits(s: Pipe, a: Action, id: Id)
    requires Enabled(s, a)
  {
    && a.Commit? && a.outcome.Rows? && a.outcome.commit
    && exists i :: 0 <= i < |s.stage.jobs| && s.stage.jobs[i].data.jobId == id && a.outcome.ok[i]
  }

  ghost predicate EverCommitted(s: Pipe, run: seq<Action>, id: Id)
    requires CanRun(s, run)
    decreases |run|
  {
    run != [] && (Commits(s, run[0], id) || EverCommitted(Next(s, run[0]), run[1..], id))
  }

  lemma {:induction false} ChosenHas(jobs: seq<Job>, ok: seq<bool>, id: Id)
    requires |ok| == |jobs|
    ensures Times(Chosen(jobs, ok, true), id) > 0 <==> exists i :: 0 <= i < |jobs| && jobs[i].data.jobId == id && ok[i]
  {
    if jobs != [] {
      ChosenHas(jobs[1..], ok[1..], id);
      TimesOne(jobs[0], id);
      TimesConcat(if ok[0] == true then [jobs[0]] else [], Chosen(jobs[1..], ok[1..], true), id);
      if i :| 0 <= i < |jobs| && jobs[i].data.jobId == id && ok[i] {
        assert i > 0 ==> jobs[1..][i - 1] == jobs[i] && ok[1..][i - 1] == ok[i];
      }
      if i :| 0 <= i < |jobs[1..]| && jobs[1..][i].data.jobId == id && ok[1..][i] {
        assert jobs[i + 1].data.jobId == id && ok[i + 1];
      }
    }
  }

  lemma OnlyCommitsSave(s: Pipe, a: Action)
    requires Enabled(s, a) && !(a.Commit? && a.outcome.Rows? && a.outcome.commit)
    ensures Next(s, a).db == s.db
  {
  }

  lemma StepSaves(s: Pipe, a: Action, id: Id)
    requires Enabled(s, a)
    ensures Times(Next(s, a).db, id) > 0 <==> Times(s.db, id) > 0 || Commits(s, a, id)
  {
    if a.Commit? && a.outcome.Rows? && a.outcome.commit {
      ChosenHas(s.stage.jobs, a.outcome.ok, id);
      TimesConcat(s.db, Chosen(s.stage.jobs, a.outcome.ok, true), id);
    } else {
      OnlyCommitsSave(s, a);
    }
  }

  lemma {:induction false} RunSaves(s: Pipe, run: seq<Action>, id: Id)
    requires CanRun(s, run)
    ensures Times(Run(s, run).db, id) > 0 <==> Times(s.db, id) > 0 || EverCommitted(s, run, id)
    decreases |run|
  {
    if run != [] {
      StepSaves(s, run[0], id);
      RunSaves(Next(s, run[0]), run[1..], id);
    }
  }

  /** A job is in the database exactly if some transaction of the run wrote its row and
      committed, and only then can it get a successful result. */
  lemma SavedByTransaction(c: Context, run: seq<Action>, id: Id)
    requires Keeps(c) && CanRun(Initial(c), run)
    ensures var s := Run(Initial(c), run);
            && (Times(s.db, id) > 0 <==> EverCommitted(Initial(c), run, id))
            && (Told(s.results, Result(id, true)) > 0 ==> EverCommitted(Initial(c), run, id))
  {
    RunSaves(Initial(c), run, id);
    RunKeepsContext(Initial(c), run);
    OneResultPerJob(Run(Initial(c), run), id);
  }

  // ---- First come, first served -----------------------------------------------

  /** The text that k others are popped before. */
  function Place(letters: seq<Letter>, k: nat): Letter
    requires k < |letters|
  {
    letters[|letters| - 1 - k]
  }

  function Pops(run: seq<Action>): nat {
    if run == [] then 0 else (if run[0].Pop? then 1 else 0) + Pops(run[1..])
  }

  /** A step moves every text on by one if it is a pop, and otherwise leaves its place; at most
      one text comes in, behind all others. */
  lemma StepKeepsPlaces(s: Pipe, a: Action, k: nat)
    requires Enabled(s, a) && k < |s.pending| && (a.Pop? ==> k > 0)
    ensures var k' := if a.Pop? then k - 1 else k;
            k' < |Next(s, a).pending| && Place(Next(s, a).pending, k') == Place(s.pending, k)
  {
  }

  lemma {:induction false} RunKeepsPlaces(s: Pipe, run: seq<Action>, k: nat)
    requires CanRun(s, run) && k < |s.pending| && Pops(run) <= k
    ensures k - Pops(run) < |Run(s, run).pending|
    ensures Place(Run(s, run).pending, k - Pops(run)) == Place(s.pending, k)
    decreases |run|
  {
    if run != [] {
      StepKeepsPlaces(s, run[0], k);
      RunKeepsPlaces(Next(s, run[0]), run[1..], if run[0].Pop? then k - 1 else k);
    }
  }

  /** Jobs are served in the order in which they came: a new one waits behind all that are
      pending, and whatever else happens, it is read as soon as so many have been popped. */
  lemma ServedInOrder(s: Pipe, data: J.Job, run: seq<Action>, w: nat)
    requires Reachable(s) && Enabled(s, Enqueue(data, true)) && CanRun(Next(s, Enqueue(data, true)), run)
    requires Pops(run) == |s.pending| && Enabled(Run(Next(s, Enqueue(data, true)), run), Pop(w))
    ensures var last := Run(Next(s, Enqueue(data, true)), run);
            Next(last, Pop(w)).slots[w] == Holding(Job(Reread(s.context, data), 0, 0))
  {
    var s' := Next(s, Enqueue(data, true));
    assert Place(s'.pending, |s.pending|) == Post(s.context, Job(data, 0, 0));
    RunKeepsPlaces(s', run, |s.pending|);
    RunKeepsContext(s', run);
    TimesPosted(s.context, Job(data, 0, 0), data.jobId);
  }

  lemma {:induction false} EnteringAt(jobs: seq<Job>, i: nat)
    requires i < |jobs|
    ensures |Entering(jobs)| == |jobs| && Entering(jobs)[i] == jobs[i].(batches := jobs[i].batches + 1)
  {
    EnteringLength(jobs);
    if i > 0 {
      EnteringAt(jobs[1..], i - 1);
    }
  }

  // ---- Where jobs end that are given up ---------------------------------------

  /** How the pushes of a step come out, if it settles a job. */
  predicate DeadWorks(a: Action) {
    match a
    case Settle(p) => p.dead
    case Drain(p) => p.dead
    case _ => true
  }

  predicate DeadFails(a: Action) {
    match a
    case Settle(p) => !p.dead
    case Drain(p) => !p.dead
    case _ => true
  }

  predicate SpoolFails(a: Action) {
    match a
    case Settle(p) => !p.spool
    case Drain(p) => !p.spool
    case _ => true
  }

  /** While the dead-letter list can be reached nothing is spooled or dropped; while it cannot,
      nothing is put there; and without a spool file nothing is spooled. */
  lemma {:induction false} GivenUpPlaces(s: Pipe, run: seq<Action>)
    requires CanRun(s, run)
    ensures (forall i :: 0 <= i < |run| ==> DeadWorks(run[i])) ==>
              Run(s, run).spool == s.spool && Run(s, run).dropped == s.dropped
    ensures (forall i :: 0 <= i < |run| ==> DeadFails(run[i])) ==> Run(s, run).dead == s.dead
    ensures (forall i :: 0 <= i < |run| ==> SpoolWorks(run[i])) ==> Run(s, run).dropped == s.dropped
    ensures (forall i :: 0 <= i < |run| ==> SpoolFails(run[i])) ==> Run(s, run).spool == s.spool
    decreases |run|
  {
    if run != [] {
      StepPlaces(s, run[0]);
      GivenUpPlaces(Next(s, run[0]), run[1..]);
      assert forall i :: 0 <= i < |run[1..]| ==> run[1..][i] == run[i + 1];
    }
  }

  lemma StepPlaces(s: Pipe, a: Action)
    requires Enabled(s, a)
    ensures DeadWorks(a) ==> Next(s, a).spool == s.spool && Next(s, a).dropped == s.dropped
    ensures DeadFails(a) ==> Next(s, a).dead == s.dead
    ensures SpoolWorks(a) ==> Next(s, a).dropped == s.dropped
    ensures SpoolFails(a) ==> Next(s, a).spool == s.spool
  {
  }
}
