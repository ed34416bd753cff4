/**
 The scorer that the submission workers call (`src/main.cpp`): it looks the job's exam up in
 the store and scores the job's answers, but the token scans of the scoring code need not come
 to an end. What the store holds for each exam, with its questions parsed, is a parameter.
 */
module Grading {
  import opened Wrappers
  import opened Scoring
  import opened ScanTheorems
  import J = JobText

  /** The questions of the exams in the store, by exam id. */
  type Exams = map<int, seq<Question>>

  datatype Reply = NoScore | Scored(score: real) | Never

  /** What a call of the scorer comes to. There is no score without an exam or without
      questions. */
  function Grade(exams: Exams, j: J.Job): Reply {
    if j.examId !in exams || exams[j.examId] == [] then NoScore
    else
      match Score(exams[j.examId], j.answers)
      case Some(score) => Scored(score)
      case None => Never
  }

  /** The jobs for which the scorer returns. */
  function Returns(exams: Exams): J.Job -> bool {
    (j: J.Job) => !Grade(exams, j).Never?
  }

  method CallScorer(exams: Exams, j: J.Job) returns (score: Option<real>)
    requires Returns(exams)(j)
    ensures Grade(exams, j) == match score case None => NoScore case Some(x) => Scored(x)
  {
    if j.examId !in exams || exams[j.examId] == [] {
      return None;
    }
    var x := ScoreSubmission(exams[j.examId], j.answers);
    return Some(x);
  }

  /** The answer to the question keeps the scorer in one of its scans. */
  predicate HangsOn(q: Question, answers: Answers) {
    NumberText(q) in answers
    && var answer := answers[NumberText(q)];
       && !IsBlankAnswer(answer) && q.kind != "matching"
       && (Hangs(q.keyRaw) || (IsSetKind(q.kind) && Hangs(Trimmed(answer))))
  }

  lemma HangsIfNotScannable(q: Question, answers: Answers)
    ensures !Scannable(q, answers) <==> HangsOn(q, answers)
  {
    if NumberText(q) in answers {
      GradingHangs(q, answers[NumberText(q)]);
    }
  }

  /** The scorer does not return for a job exactly when its exam has a question that is answered
      and for which a list that is scanned, of the key or of the answer, holds a closing bracket
      outside a quoted token. */
  lemma NeverReturns(exams: Exams, j: J.Job)
    ensures !Returns(exams)(j) <==> j.examId in exams && exists q :: q in exams[j.examId] && HangsOn(q, j.answers)
  {
    if j.examId in exams {
      var qs := exams[j.examId];
      forall q ensures !Scannable(q, j.answers) <==> HangsOn(q, j.answers) { HangsIfNotScannable(q, j.answers); }
      if q :| q in qs && HangsOn(q, j.answers) {
        var i :| 0 <= i < |qs| && qs[i] == q;
        assert !Scannable(qs[i], j.answers);
      }
    }
  }

  /** A student who answers `A]` to question 1, a set question, and nothing else. */
  lemma StrayBracketNeverReturns(exams: Exams, j: J.Job, q: Question)
    requires j.examId in exams && q in exams[j.examId] && q.number == 1 && IsSetKind(q.kind)
    requires j.answers == map["1" := "A]"]
    ensures !Returns(exams)(j)
  {
    OneIsOne(q);
    StrayBracketHangs(q);
    HangsIfNotScannable(q, j.answers);
    NeverReturns(exams, j);
  }
}
