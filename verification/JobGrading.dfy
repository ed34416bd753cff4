/**
 Whether the scorer returns for a job, round after round. It looks at the exam id and the
 answers only, and for a job without opening braces outside the identity data both are the
 same in every round.
 */
module JobGrading {
  import opened Text
  import opened JobText
  import opened JobScalars
  import opened JobRoundTrip
  import opened JobIdentity
  import opened JobPrint
  import opened JobRounds
  import opened Rounds
  import opened Grading

  /** The pipeline with its real texts and its real scorer. */
  function Server(exams: Exams): Context {
    Json(Returns(exams))
  }

  /** No field of the job but the identity data holds an opening brace. */
  predicate Braceless(j: Job) {
    HoldsNoBrace(j, Listing(j.answers))
  }

  lemma {:induction false} NatNoBrace(n: nat)
    ensures NoBrace(NatText(n))
  {
    if n >= 10 {
      NatNoBrace(n / 10);
    }
  }

  lemma NumberNoBrace(n: int)
    ensures NoBrace(IntText(n))
  {
    NatNoBrace(if n < 0 then -n else n);
  }

  lemma BracelessField(j: Job, m: nat)
    requires Braceless(j) && m < 9
    ensures NoBrace(Scalars(j)[m].value) && NoBrace(Found(Scalars(j), m))
  {
  }

  lemma BracelessCounted(d: Job)
    requires Braceless(d)
    ensures Braceless(Counted(d))
  {
    var e := Counted(d);
    FieldsAre(d);
    FieldsAre(e);
    NumberNoBrace(e.retries);
    forall i | 0 <= i < |Scalars(e)| ensures NoBrace(Scalars(e)[i].value) { BracelessField(d, i); }
  }

  lemma AnswersReadBack(graded: Job -> bool, j: Job)
    requires Sendable(j) && Braceless(j)
    ensures Reread(Json(graded), j).answers == j.answers
  {
    PrintReads(graded, j);
    ListingLists(j.answers);
    AnswersExactly(j, Listing(j.answers), Listing(j.identity));
  }

  lemma EnqueuedReadBack(graded: Job -> bool, j: Job)
    requires Sendable(j)
    ensures Reread(Json(graded), j).enqueuedAt == Found(Scalars(j), 8)
  {
    PrintReads(graded, j);
    FieldsAre(j);
    ReadText(j, 8, Field("enqueued_at", j.enqueuedAt, true));
  }

  lemma BracelessReread(graded: Job -> bool, j: Job, m: nat)
    requires Sendable(j) && Braceless(j) && m < 9
    ensures NoBrace(Scalars(Reread(Json(graded), j))[m].value)
  {
    var r := Reread(Json(graded), j);
    FieldsAre(r);
    BracelessField(j, m);
    if m < COUNTER {
      JsonSearches(graded, j);
      assert Scalars(r)[m] == Moved(Scalars(j), m);
    } else if m == COUNTER {
      NumberNoBrace(r.retries);
    } else {
      EnqueuedReadBack(graded, j);
    }
  }

  lemma ExamReadBack(graded: Job -> bool, j: Job)
    requires Sendable(j)
    ensures Reread(Json(graded), j).examId == j.examId
  {
    PrintReads(graded, j);
    ReadNumbers(j, Reread(Json(graded), j));
  }

  /** What the scorer looks at is the same, and the job stays without braces. */
  predicate GradesAlike(c: Context, j: Job) {
    var r := Reread(c, j);
    Sendable(j) && Braceless(j) ==> Braceless(r) && r.answers == j.answers && r.examId == j.examId
  }

  lemma JsonGradesAlike(graded: Job -> bool, j: Job)
    ensures GradesAlike(Json(graded), j)
  {
    if Sendable(j) && Braceless(j) {
      var r := Reread(Json(graded), j);
      AnswersReadBack(graded, j);
      ExamReadBack(graded, j);
      forall m | 0 <= m < |Scalars(r)| ensures NoBrace(Scalars(r)[m].value) { BracelessReread(graded, j, m); }
    }
  }

  lemma {:induction false} NthGradesAlike(c: Context, d: Job, n: nat)
    requires Keeps(c) && Sendable(d) && Braceless(d) && forall k :: GradesAlike(c, k)
    ensures var e := Nth(c, d, n); Braceless(e) && e.answers == d.answers && e.examId == d.examId
  {
    if n > 0 {
      NthGradesAlike(c, d, n - 1);
      NthKeeps(c, d, n - 1);
      var e := Nth(c, d, n - 1);
      if e.retries < MAX_RETRIES {
        BracelessCounted(e);
        assert GradesAlike(c, Counted(e));
      }
    }
  }

  /** The scorer returns in every round, or in none. */
  lemma GradedAlways(exams: Exams, j: Job, n: nat)
    requires Sendable(j) && Braceless(j)
    ensures GradedAt(Server(exams), Reread(Server(exams), j), n) <==> Returns(exams)(j)
  {
    var c := Server(exams);
    JsonKeeps(Returns(exams));
    forall k ensures GradesAlike(c, k) { JsonGradesAlike(Returns(exams), k); }
    assert GradesAlike(c, j);
    RereadKeeps(c, j);
    NthGradesAlike(c, Reread(c, j), n);
  }

  lemma AlwaysOrNever(exams: Exams, j: Job)
    requires Sendable(j) && Braceless(j)
    ensures AlwaysGraded(Server(exams), Reread(Server(exams), j)) <==> Returns(exams)(j)
  {
    var c := Server(exams);
    forall n: nat ensures GradedAt(c, Reread(c, j), n) <==> Returns(exams)(j) { GradedAlways(exams, j, n); }
    assert GradedAt(c, Reread(c, j), 0) <==> Returns(exams)(j);
  }

  lemma {:induction false} PassesOrHangs(exams: Exams, j: Job, n: nat)
    requires Sendable(j) && Braceless(j)
    ensures Passes(Server(exams), Reread(Server(exams), j), n + 1) <==> Returns(exams)(j)
  {
    GradedAlways(exams, j, n);
    if n > 0 {
      PassesOrHangs(exams, j, n - 1);
    }
  }
}
