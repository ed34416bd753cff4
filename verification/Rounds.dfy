/**
 A job that goes round and round: each retry prints it with a higher counter, and each pop
 reads the text back (`requeue` and `dequeue` in `src/queue/submission_queue.cpp`).

 How jobs are printed and read, and for which of them grading comes to an end, is a
 parameter. All that is asked of it here is that a job with an id is read back as a job with
 that id; the counter itself may come back changed.
 */
module Rounds {
  import opened Wrappers
  import opened JobText

  const MAX_RETRIES := 3

  /** What the pipeline is connected to: the text of a job, the job in a text, and the jobs for
      which the scorer that the workers call returns. */
  datatype Context = Context(write: Job -> string, read: string -> Option<Job>, graded: Job -> bool)

  predicate FitsInts(j: Job) {
    INT_MIN <= j.examId <= INT_MAX && INT_MIN <= j.retries <= INT_MAX
  }

  /** A job with an id, whose numbers are 32-bit integers. */
  predicate Sendable(j: Job) {
    j.jobId != "" && FitsInts(j)
  }

  /** The text of a job with an id is read as a job with the same id. */
  predicate KeepsId(c: Context, j: Job) {
    var r := c.read(c.write(j));
    Sendable(j) ==> r.Some? && r.value.jobId == j.jobId
  }

  predicate ReadsSendable(c: Context, text: string) {
    var r := c.read(text);
    r.Some? ==> Sendable(r.value)
  }

  ghost predicate Keeps(c: Context) {
    (forall j :: KeepsId(c, j)) && (forall text :: ReadsSendable(c, text))
  }

  /** What comes out of Redis when the job was put in. */
  function Reread(c: Context, j: Job): Job {
    match c.read(c.write(j))
    case Some(r) => r
    case None => j
  }

  lemma RereadKeeps(c: Context, j: Job)
    requires Keeps(c) && Sendable(j)
    ensures Sendable(Reread(c, j)) && Reread(c, j).jobId == j.jobId
    ensures c.read(c.write(j)) == Some(Reread(c, j))
  {
    assert KeepsId(c, j) && ReadsSendable(c, c.write(j));
  }

  /** The job as it is sent again. */
  function Counted(d: Job): Job {
    d.(retries := d.retries + 1)
  }

  /** The next thing a worker holds after this job has failed; a job that has used up its
      retries stays as it is. */
  function Again(c: Context, d: Job): Job {
    if d.retries < MAX_RETRIES then Reread(c, Counted(d)) else d
  }

  lemma AgainKeeps(c: Context, d: Job)
    requires Keeps(c) && Sendable(d)
    ensures Sendable(Again(c, d)) && Again(c, d).jobId == d.jobId
  {
    if d.retries < MAX_RETRIES {
      RereadKeeps(c, Counted(d));
    }
  }

  /** The same after n failures. */
  function Nth(c: Context, d: Job, n: nat): Job {
    if n == 0 then d else Again(c, Nth(c, d, n - 1))
  }

  lemma {:induction false} NthKeeps(c: Context, d: Job, n: nat)
    requires Keeps(c) && Sendable(d)
    ensures Sendable(Nth(c, d, n)) && Nth(c, d, n).jobId == d.jobId
  {
    if n > 0 {
      NthKeeps(c, d, n - 1);
      AgainKeeps(c, Nth(c, d, n - 1));
    }
  }

  /** The job has failed n times and goes round once more. */
  predicate Tried(c: Context, d: Job, n: nat) {
    n == 0 || Nth(c, d, n - 1).retries < MAX_RETRIES
  }

  /** The job is given up after n failures at the latest. */
  predicate GivesUp(c: Context, d: Job, n: nat) {
    Nth(c, d, n).retries >= MAX_RETRIES
  }

  /** After finitely many failures the job is given up. */
  ghost predicate Ends(c: Context, d: Job) {
    exists n :: GivesUp(c, d, n)
  }

  lemma {:induction false} GivenUpStays(c: Context, d: Job, n: nat, m: nat)
    requires n <= m && GivesUp(c, d, n)
    ensures Nth(c, d, m) == Nth(c, d, n)
    decreases m
  {
    if n < m {
      GivenUpStays(c, d, n, m - 1);
    }
  }

  lemma {:induction false} NthOfAgain(c: Context, d: Job, n: nat)
    ensures Nth(c, Again(c, d), n) == Nth(c, d, n + 1)
  {
    if n > 0 {
      NthOfAgain(c, d, n - 1);
    } else {
      assert Nth(c, d, 1) == Again(c, Nth(c, d, 0));
    }
  }

  lemma {:induction false} NthOfNth(c: Context, d: Job, n: nat, m: nat)
    ensures Nth(c, Nth(c, d, n), m) == Nth(c, d, n + m)
    decreases m
  {
    if m > 0 {
      NthOfNth(c, d, n, m - 1);
    }
  }

  lemma GivesUpNext(c: Context, d: Job)
    requires Again(c, d).retries >= MAX_RETRIES
    ensures Ends(c, d)
  {
    NthOfAgain(c, d, 0);
    assert GivesUp(c, d, 1);
  }

  lemma SameLater(c: Context, d: Job, m: nat, n: nat)
    ensures GivesUp(c, Nth(c, d, m), n) <==> GivesUp(c, d, m + n)
  {
    NthOfNth(c, d, m, n);
  }

  /** A job ends exactly when what becomes of it ends. */
  lemma EndsTogether(c: Context, d: Job, m: nat)
    ensures Ends(c, d) <==> Ends(c, Nth(c, d, m))
  {
    if n: nat :| GivesUp(c, d, n) {
      GivenUpStays(c, d, n, m + n);
      SameLater(c, d, m, n);
    }
    if n: nat :| GivesUp(c, Nth(c, d, m), n) {
      SameLater(c, d, m, n);
    }
  }

  // ---- Grading ----------------------------------------------------------------

  /** The scorer returns for the job in each of its first n rounds. */
  predicate Passes(c: Context, d: Job, n: nat) {
    n == 0 || (Passes(c, d, n - 1) && c.graded(Nth(c, d, n - 1)))
  }

  lemma {:induction false} PassesBefore(c: Context, d: Job, n: nat, m: nat)
    requires n <= m && Passes(c, d, m)
    ensures Passes(c, d, n)
    ensures n < m ==> c.graded(Nth(c, d, n))
    decreases m
  {
    if n < m {
      if n < m - 1 {
        PassesBefore(c, d, n, m - 1);
      }
    }
  }

  /** The job goes round no more after n failures: it is given up, or a worker holds it for
      ever, because the scorer does not return. */
  predicate IsOver(c: Context, d: Job, n: nat) {
    GivesUp(c, d, n) || !c.graded(Nth(c, d, n))
  }

  ghost predicate Rests(c: Context, d: Job) {
    exists n :: IsOver(c, d, n)
  }

  lemma SameOver(c: Context, d: Job, m: nat, n: nat)
    ensures IsOver(c, Nth(c, d, m), n) <==> IsOver(c, d, m + n)
  {
    NthOfNth(c, d, m, n);
  }

  /** A job that went m rounds and rests, rests from then on. */
  lemma RestsLater(c: Context, d: Job, m: nat)
    requires Rests(c, d) && Passes(c, d, m)
    ensures Rests(c, Nth(c, d, m))
  {
    var n: nat :| IsOver(c, d, n);
    if n < m {
      PassesBefore(c, d, n, m);
      GivenUpStays(c, d, n, m);
      SameOver(c, d, m, 0);
    } else {
      SameOver(c, d, m, n - m);
    }
  }

  /** The scorer returns for the job, however often it comes round. */
  ghost predicate AlwaysGraded(c: Context, d: Job) {
    forall n :: GradedAt(c, d, n)
  }

  predicate GradedAt(c: Context, d: Job, n: nat) {
    c.graded(Nth(c, d, n))
  }

  /** A job rests exactly when it is given up, or its grading does not return some time. */
  lemma RestsMeans(c: Context, d: Job)
    ensures Rests(c, d) <==> Ends(c, d) || !AlwaysGraded(c, d)
  {
    if n: nat :| IsOver(c, d, n) {
      assert GivesUp(c, d, n) || !GradedAt(c, d, n);
    }
    if n: nat :| GivesUp(c, d, n) {
      assert IsOver(c, d, n);
    }
    if n: nat :| !GradedAt(c, d, n) {
      assert IsOver(c, d, n);
    }
  }

  // ---- How many rounds are left -----------------------------------------------

  ghost function LeftWithin(c: Context, d: Job, n: nat): nat
    requires IsOver(c, d, n)
    decreases n
  {
    if d.retries >= MAX_RETRIES || !c.graded(d) then 0 else
    assert n > 0;
    NthOfAgain(c, d, n - 1);
    1 + LeftWithin(c, Again(c, d), n - 1)
  }

  /** How often a job that rests still goes round. */
  ghost function RoundsLeft(c: Context, d: Job): nat {
    if Rests(c, d) then
      var n :| IsOver(c, d, n);
      LeftWithin(c, d, n)
    else 0
  }

  lemma {:induction false} LeftIsOne(c: Context, d: Job, n: nat, m: nat)
    requires IsOver(c, d, n) && IsOver(c, d, m)
    ensures LeftWithin(c, d, n) == LeftWithin(c, d, m)
    decreases n
  {
    if d.retries < MAX_RETRIES && c.graded(d) {
      NthOfAgain(c, d, n - 1);
      NthOfAgain(c, d, m - 1);
      LeftIsOne(c, Again(c, d), n - 1, m - 1);
    }
  }

  lemma LeftIs(c: Context, d: Job, n: nat)
    requires IsOver(c, d, n)
    ensures Rests(c, d) && RoundsLeft(c, d) == LeftWithin(c, d, n)
  {
    forall m | IsOver(c, d, m) ensures LeftWithin(c, d, m) == LeftWithin(c, d, n) {
      LeftIsOne(c, d, m, n);
    }
  }

  /** A failure uses up one round. */
  lemma RoundUsed(c: Context, d: Job)
    requires Rests(c, d) && d.retries < MAX_RETRIES && c.graded(d)
    ensures Rests(c, Again(c, d)) && RoundsLeft(c, d) == RoundsLeft(c, Again(c, d)) + 1
  {
    var n: nat :| IsOver(c, d, n);
    assert n > 0;
    NthOfAgain(c, d, n - 1);
    LeftIs(c, d, n);
    LeftIs(c, Again(c, d), n - 1);
  }
}
