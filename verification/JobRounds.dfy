/**
 What one round through Redis makes of a job that is written and read as JSON
 (`src/queue/submission_queue.cpp`): it keeps its id, and each scalar field is the one the
 reader finds for its name.
 */
module JobRounds {
  import opened Wrappers
  import opened Text
  import opened JsonText
  import opened JobText
  import opened JobCodec
  import opened JobScalars
  import opened JobMaps
  import opened JobRoundTrip
  import opened JobPrint
  import opened Rounds

  /** The pipeline with its real texts; for which jobs the scorer returns stays open. */
  function Json(graded: Job -> bool): Context {
    Context(Print, FromJson, graded)
  }

  /** Position of the counter among the scalar fields. */
  const COUNTER := 7

  // ---- Printing and reading once ----------------------------------------------

  lemma {:induction false} StoiFits(s: string)
    ensures INT_MIN <= IntOrZero(s) <= INT_MAX
  {
    if s != "" && IsSpace(s[0]) {
      StoiFits(s[1..]);
    }
  }

  lemma ReadFits(graded: Job -> bool, text: string)
    ensures ReadsSendable(Json(graded), text)
  {
    StoiFits(Extract(text, "exam_id"));
    StoiFits(Extract(text, "retries"));
  }

  lemma PrintReads(graded: Job -> bool, j: Job)
    ensures KeepsId(Json(graded), j)
  {
    if Sendable(j) {
      StringsKept(j, Listing(j.answers), Listing(j.identity));
      FirstIsKept(j);
    }
  }

  /** Whatever else is mixed up, the id of a job is always read back. */
  lemma JsonKeeps(graded: Job -> bool)
    ensures Keeps(Json(graded))
  {
    forall j ensures KeepsId(Json(graded), j) { PrintReads(graded, j); }
    forall text ensures ReadsSendable(Json(graded), text) { ReadFits(graded, text); }
  }

  /** The text that is read for field m. */
  function Found(fs: seq<Field>, m: nat): string
    requires m < |fs|
  {
    fs[Target(fs, m, 0)].value
  }

  /** A string field as it is read; a number before the counter is always its own. */
  function Moved(fs: seq<Field>, m: nat): Field
    requires m < |fs|
  {
    if fs[m].quoted then fs[m].(value := Found(fs, m)) else fs[m]
  }

  /** The scalar fields are read by searching for their names. */
  predicate Searches(c: Context, j: Job) {
    var fs, r := Scalars(j), c.read(c.write(j));
    Sendable(j) ==>
      && r.Some? && r.value.retries == IntOrZero(Found(fs, COUNTER))
      && forall m :: 0 <= m < COUNTER ==> Scalars(r.value)[m] == Moved(fs, m)
  }

  lemma ReadText(j: Job, m: nat, f: Field)
    requires Sendable(j) && m < 9 && f == Scalars(j)[m]
    ensures Extract(Print(j), f.name) == Found(Scalars(j), m)
  {
    ScalarText(j, Listing(j.answers), Listing(j.identity), m);
  }

  /** The fields of a job as they are taken from its text. */
  lemma Parts(text: string, r: Job)
    requires FromJson(text) == Some(r)
    ensures r.jobId == Extract(text, "job_id") && r.studentName == Extract(text, "student_name")
    ensures r.examNumber == Extract(text, "exam_number") && r.studentClass == Extract(text, "student_class")
    ensures r.macAddress == Extract(text, "mac_address") && r.startTime == Extract(text, "start_time")
    ensures r.examId == IntOrZero(Extract(text, "exam_id")) && r.retries == IntOrZero(Extract(text, "retries"))
  {
  }

  lemma ReadStrings(j: Job, r: Job)
    requires Sendable(j) && FromJson(Print(j)) == Some(r)
    ensures var fs := Scalars(j);
            && r.jobId == Found(fs, 0) && r.studentName == Found(fs, 2) && r.examNumber == Found(fs, 3)
            && r.studentClass == Found(fs, 4) && r.macAddress == Found(fs, 5) && r.startTime == Found(fs, 6)
  {
    FieldsAre(j);
    Parts(Print(j), r);
    ReadText(j, 0, Field("job_id", j.jobId, true));
    ReadText(j, 2, Field("student_name", j.studentName, true));
    ReadText(j, 3, Field("exam_number", j.examNumber, true));
    ReadText(j, 4, Field("student_class", j.studentClass, true));
    ReadText(j, 5, Field("mac_address", j.macAddress, true));
    ReadText(j, 6, Field("start_time", j.startTime, true));
  }

  lemma NumberInPlace(fs: seq<Field>)
    requires |fs| > 1
    ensures Target(fs, 1, 0) == 1
  {
    assert Target(fs, 1, 1) == 1;
  }

  lemma ReadNumbers(j: Job, r: Job)
    requires Sendable(j) && FromJson(Print(j)) == Some(r)
    ensures r.examId == j.examId && r.retries == IntOrZero(Found(Scalars(j), COUNTER))
  {
    FieldsAre(j);
    Parts(Print(j), r);
    NumberInPlace(Scalars(j));
    IntReads(j.examId);
    ReadText(j, 1, Field("exam_id", IntText(j.examId), false));
    ReadText(j, 7, Field("retries", IntText(j.retries), false));
  }

  lemma MovedAre(j: Job, r: Job, m: nat)
    requires m < COUNTER && r.examId == j.examId
    requires var fs := Scalars(j);
             && r.jobId == Found(fs, 0) && r.studentName == Found(fs, 2) && r.examNumber == Found(fs, 3)
             && r.studentClass == Found(fs, 4) && r.macAddress == Found(fs, 5) && r.startTime == Found(fs, 6)
    ensures Scalars(r)[m] == Moved(Scalars(j), m)
  {
    FieldsAre(j);
    FieldsAre(r);
    if m == 0 {} else if m == 1 {} else if m == 2 {} else if m == 3 {} else if m == 4 {} else if m == 5 {} else {}
  }

  lemma JsonSearches(graded: Job -> bool, j: Job)
    ensures Searches(Json(graded), j)
  {
    if Sendable(j) {
      PrintReads(graded, j);
      var r := FromJson(Print(j)).value;
      ReadNumbers(j, r);
      ReadStrings(j, r);
      forall m | 0 <= m < COUNTER ensures Scalars(r)[m] == Moved(Scalars(j), m) { MovedAre(j, r, m); }
    }
  }
}
