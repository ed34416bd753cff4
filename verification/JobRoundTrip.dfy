/**
 Which jobs come back from their JSON text, field by field.
 */
module JobRoundTrip {
  import opened Wrappers
  import opened Text
  import opened JsonText
  import opened JobText
  import opened JobCodec
  import opened JobScalars
  import opened JobMaps
  import opened Rounds

  /** A list of the entries of a map, in any order. */
  predicate Lists(pairs: Pairs, m: map<string, string>) {
    AddAll(map[], pairs) == m
  }

  lemma NamesArePlain()
    ensures PlainName("job_id") && PlainName("exam_id") && PlainName("student_name") && PlainName("exam_number")
    ensures PlainName("student_class") && PlainName("mac_address") && PlainName("start_time") && PlainName("retries")
    ensures PlainName("enqueued_at") && PlainName("answers") && PlainName("identity_data")
  {
  }

  lemma NamesDiffer()
    ensures var names := ["job_id", "exam_id", "student_name", "exam_number", "student_class", "mac_address",
                          "start_time", "retries", "enqueued_at", "answers", "identity_data"];
            forall i, j :: 0 <= i < j < |names| ==> names[i] != names[j]
  {
    assert "exam_id"[0] != "retries"[0] && "retries"[0] != "answers"[0] && "exam_id"[0] != "answers"[0];
    assert "exam_number"[0] != "mac_address"[0] && "exam_number"[1] != "enqueued_at"[1] && "mac_address"[0] != "enqueued_at"[0];
    assert "student_class"[0] != "identity_data"[0];
  }

  lemma ScalarsWellFormed(j: Job)
    requires FitsInts(j)
    ensures WellFormed(Scalars(j))
  {
    NamesArePlain();
    NamesDiffer();
    IntReads(j.examId);
    IntReads(j.retries);
  }

  // ---- Scalars ----------------------------------------------------------------

  /** The field is read back right: it is found, or what is found instead is the same. */
  predicate Kept(fs: seq<Field>, m: nat)
    requires m < |fs|
  {
    var found := fs[Target(fs, m, 0)];
    if fs[m].quoted then found.value == fs[m].value else IntOrZero(found.value) == IntOrZero(fs[m].value)
  }

  predicate AllKept(fs: seq<Field>)
    requires |fs| == 9
  {
    Kept(fs, 0) && Kept(fs, 1) && Kept(fs, 2) && Kept(fs, 3) && Kept(fs, 4) && Kept(fs, 5) && Kept(fs, 6)
    && Kept(fs, 7) && Kept(fs, 8)
  }

  /** Equal in all fields but the maps. */
  predicate SameScalars(a: Job, b: Job) {
    a.(answers := map[], identity := map[]) == b.(answers := map[], identity := map[])
  }

  lemma ScalarText(j: Job, answers: Pairs, identity: Pairs, m: nat)
    requires FitsInts(j) && m < |Scalars(j)|
    ensures Extract(ToJson(j, answers, identity), Scalars(j)[m].name) == Scalars(j)[Target(Scalars(j), m, 0)].value
  {
    ScalarsWellFormed(j);
    assert MapsText(answers, identity)[0] == ',';
    ScalarIsTarget(Scalars(j), m, MapsText(answers, identity));
  }

  /** One field: it comes back as it was exactly when it is kept. */
  lemma ScalarKept(j: Job, answers: Pairs, identity: Pairs, m: nat, f: Field)
    requires FitsInts(j) && m < |Scalars(j)| && Scalars(j)[m] == f
    ensures var read := Extract(ToJson(j, answers, identity), f.name);
            Kept(Scalars(j), m) <==> if f.quoted then read == f.value else IntOrZero(read) == IntOrZero(f.value)
  {
    ScalarText(j, answers, identity, m);
  }

  lemma FieldsAre(j: Job)
    ensures var fs := Scalars(j);
            && fs[0] == Field("job_id", j.jobId, true) && fs[1] == Field("exam_id", IntText(j.examId), false)
            && fs[2] == Field("student_name", j.studentName, true) && fs[3] == Field("exam_number", j.examNumber, true)
            && fs[4] == Field("student_class", j.studentClass, true) && fs[5] == Field("mac_address", j.macAddress, true)
            && fs[6] == Field("start_time", j.startTime, true) && fs[7] == Field("retries", IntText(j.retries), false)
            && fs[8] == Field("enqueued_at", j.enqueuedAt, true)
  {
  }

  lemma StringsKept(j: Job, answers: Pairs, identity: Pairs)
    requires FitsInts(j)
    ensures var s, fs := ToJson(j, answers, identity), Scalars(j);
            && (Kept(fs, 0) <==> Extract(s, "job_id") == j.jobId)
            && (Kept(fs, 2) <==> Extract(s, "student_name") == j.studentName)
            && (Kept(fs, 3) <==> Extract(s, "exam_number") == j.examNumber)
  {
    FieldsAre(j);
    ScalarKept(j, answers, identity, 0, Field("job_id", j.jobId, true));
    ScalarKept(j, answers, identity, 2, Field("student_name", j.studentName, true));
    ScalarKept(j, answers, identity, 3, Field("exam_number", j.examNumber, true));
  }

  lemma MoreStringsKept(j: Job, answers: Pairs, identity: Pairs)
    requires FitsInts(j)
    ensures var s, fs := ToJson(j, answers, identity), Scalars(j);
            && (Kept(fs, 4) <==> Extract(s, "student_class") == j.studentClass)
            && (Kept(fs, 5) <==> Extract(s, "mac_address") == j.macAddress)
            && (Kept(fs, 6) <==> Extract(s, "start_time") == j.startTime)
            && (Kept(fs, 8) <==> Extract(s, "enqueued_at") == j.enqueuedAt)
  {
    FieldsAre(j);
    ScalarKept(j, answers, identity, 4, Field("student_class", j.studentClass, true));
    ScalarKept(j, answers, identity, 5, Field("mac_address", j.macAddress, true));
    ScalarKept(j, answers, identity, 6, Field("start_time", j.startTime, true));
    ScalarKept(j, answers, identity, 8, Field("enqueued_at", j.enqueuedAt, true));
  }

  lemma IntsKept(j: Job, answers: Pairs, identity: Pairs)
    requires FitsInts(j)
    ensures var s, fs := ToJson(j, answers, identity), Scalars(j);
            && (Kept(fs, 1) <==> IntOrZero(Extract(s, "exam_id")) == j.examId)
            && (Kept(fs, 7) <==> IntOrZero(Extract(s, "retries")) == j.retries)
  {
    IntReads(j.examId);
    IntReads(j.retries);
    ScalarKept(j, answers, identity, 1, Field("exam_id", IntText(j.examId), false));
    ScalarKept(j, answers, identity, 7, Field("retries", IntText(j.retries), false));
  }

  lemma FirstIsKept(j: Job)
    ensures Kept(Scalars(j), 0)
  {
    assert Target(Scalars(j), 0, 0) == 0;
  }

  /** All fields but the maps come back right exactly when each of them is kept. */
  lemma ScalarsSurvive(j: Job, answers: Pairs, identity: Pairs)
    requires FitsInts(j) && j.jobId != ""
    ensures var r := FromJson(ToJson(j, answers, identity));
            r.Some? && (SameScalars(r.value, j) <==> AllKept(Scalars(j)))
  {
    StringsKept(j, answers, identity);
    MoreStringsKept(j, answers, identity);
    IntsKept(j, answers, identity);
    FirstIsKept(j);
  }

  /** A job without an id is not read back. */
  lemma NoIdNoJob(j: Job, answers: Pairs, identity: Pairs)
    requires FitsInts(j)
    ensures FromJson(ToJson(j, answers, identity)).Some? <==> j.jobId != ""
  {
    StringsKept(j, answers, identity);
    FirstIsKept(j);
  }

  // ---- Maps -------------------------------------------------------------------

  /** The scalar fields, and the first map as one more. */
  function WithAnswers(j: Job, answers: Pairs): seq<Field> {
    Scalars(j) + [Field("answers", MapText(answers), false)]
  }

  function WithIdentity(j: Job, answers: Pairs, identity: Pairs): seq<Field> {
    WithAnswers(j, answers) + [Field("identity_data", MapText(identity), false)]
  }

  lemma {:induction false} FieldsAppend(fs: seq<Field>, f: Field)
    requires fs != []
    ensures FieldsText(fs + [f]) == FieldsText(fs) + "," + FieldText(f)
  {
    var gs := fs + [f];
    if |fs| == 1 {
      assert gs[1..] == [f] && FieldsText([f]) == FieldText(f);
    } else {
      assert gs[1..] == fs[1..] + [f];
      FieldsAppend(fs[1..], f);
      assert FieldText(fs[0]) + "," + (FieldsText(fs[1..]) + "," + FieldText(f))
          == FieldText(fs[0]) + "," + FieldsText(fs[1..]) + "," + FieldText(f);
    }
  }

  lemma {:induction false} LeadingAppend(fs: seq<Field>, f: Field)
    ensures Leading(fs + [f]) == Leading(fs) + (FieldText(f) + ",")
  {
    var gs := fs + [f];
    if fs == [] {
      assert gs[1..] == [];
      assert Leading([]) == "";
    } else {
      assert gs[1..] == fs[1..] + [f];
      LeadingAppend(fs[1..], f);
    }
  }

  /** No scalar field spoils the name. */
  predicate ScalarsSpare(j: Job, k: string) {
    forall i :: 0 <= i < |Scalars(j)| ==> !Spoils(k, Scalars(j)[i])
  }

  lemma AnswersRead(j: Job, answers: Pairs, identity: Pairs)
    requires FitsInts(j) && ScalarsSpare(j, "answers")
    ensures ParseMap(ToJson(j, answers, identity), "answers") == AddAll(map[], answers)
  {
    var fs := WithAnswers(j, answers);
    var rest := "," + Quote("identity_data") + ":" + MapText(identity) + "}";
    ScalarsMiss(j, "answers");
    NamesArePlain();
    assert fs[..9] == Scalars(j);
    OwnNameAt(fs, 9, rest);
    FieldsAppend(Scalars(j), fs[9]);
    JsonWithAnswers(FieldsText(Scalars(j)), answers, identity);
    MapReads(ToJson(j, answers, identity), "answers", answers, rest);
  }

  lemma JsonWithAnswers(scalars: string, answers: Pairs, identity: Pairs)
    ensures "{" + scalars + MapsText(answers, identity)
      == "{" + (scalars + "," + FieldText(Field("answers", MapText(answers), false)))
         + ("," + Quote("identity_data") + ":" + MapText(identity) + "}")
  {
    var a, b := MapText(answers), MapText(identity);
    assert FieldText(Field("answers", a, false)) == Quote("answers") + ":" + a;
    GlueMaps(scalars, Quote("answers"), a, Quote("identity_data"), b);
  }

  lemma GlueMaps(scalars: string, n: string, a: string, m: string, b: string)
    ensures "{" + scalars + ("," + n + ":" + a + "," + m + ":" + b + "}")
         == "{" + (scalars + "," + (n + ":" + a)) + ("," + m + ":" + b + "}")
  {
  }

  lemma NoScalarIsNamed(j: Job, k: string)
    requires k == "answers" || k == "identity_data"
    ensures forall i :: 0 <= i < |Scalars(j)| ==> Scalars(j)[i].name != k
  {
    NamesDiffer();
  }

  lemma AnswersFieldMisses(answers: Pairs)
    requires forall i :: 0 <= i < |answers| ==> !PairSpoils("identity_data", answers[i])
    ensures Misses("identity_data", FieldText(Field("answers", MapText(answers), false)) + ",")
  {
    var k, a := "identity_data", MapText(answers);
    NamesArePlain();
    NamesDiffer();
    OtherName(k, "answers");
    NameText("answers");
    QuoteMisses(k, "answers", ':');
    MapMisses(k, answers);
    MissesConcat(k, Quote("answers") + [':'], a + ",");
    assert Quote("answers") + ":" + a + "," == (Quote("answers") + [':']) + (a + ",");
  }

  lemma GlueOpening(a: string, b: string)
    ensures "{" + a + b == "{" + (a + b)
  {
  }

  lemma ScalarsMiss(j: Job, k: string)
    requires FitsInts(j) && ScalarsSpare(j, k) && (k == "answers" || k == "identity_data")
    ensures Misses(k, "{" + Leading(Scalars(j)))
  {
    ScalarsWellFormed(j);
    NamesArePlain();
    NoScalarIsNamed(j, k);
    assert Scalars(j)[..9] == Scalars(j);
    OpeningMisses(k, Scalars(j), 9);
  }

  lemma IdentityOpeningMisses(j: Job, answers: Pairs)
    requires FitsInts(j) && ScalarsSpare(j, "identity_data")
    requires forall i :: 0 <= i < |answers| ==> !PairSpoils("identity_data", answers[i])
    ensures Misses("identity_data", "{" + Leading(WithAnswers(j, answers)))
  {
    var k, scalars, f := "identity_data", Scalars(j), Field("answers", MapText(answers), false);
    ScalarsMiss(j, k);
    AnswersFieldMisses(answers);
    MissesConcat(k, "{" + Leading(scalars), FieldText(f) + ",");
    LeadingAppend(scalars, f);
    GlueOpening(Leading(scalars), FieldText(f) + ",");
  }

  lemma IdentityRead(j: Job, answers: Pairs, identity: Pairs)
    requires FitsInts(j) && ScalarsSpare(j, "identity_data")
    requires forall i :: 0 <= i < |answers| ==> !PairSpoils("identity_data", answers[i])
    ensures ParseMap(ToJson(j, answers, identity), "identity_data") == AddAll(map[], identity)
  {
    var fs := WithIdentity(j, answers, identity);
    IdentityOpeningMisses(j, answers);
    NamesArePlain();
    assert fs[..10] == WithAnswers(j, answers);
    OwnNameAt(fs, 10, "}");
    FieldsAppend(Scalars(j), Field("answers", MapText(answers), false));
    FieldsAppend(WithAnswers(j, answers), fs[10]);
    JsonWithAnswers(FieldsText(Scalars(j)), answers, identity);
    JsonWithIdentity(FieldsText(WithAnswers(j, answers)), identity);
    MapReads(ToJson(j, answers, identity), "identity_data", identity, "}");
  }

  lemma JsonWithIdentity(fields: string, identity: Pairs)
    ensures "{" + fields + ("," + Quote("identity_data") + ":" + MapText(identity) + "}")
      == "{" + (fields + "," + FieldText(Field("identity_data", MapText(identity), false))) + "}"
  {
    GlueLast(fields, Quote("identity_data"), MapText(identity));
  }

  lemma GlueLast(fields: string, n: string, b: string)
    ensures "{" + fields + ("," + n + ":" + b + "}") == "{" + (fields + "," + (n + ":" + b)) + "}"
  {
  }

  // ---- The whole job ----------------------------------------------------------

  /** No value or answer is taken for a later field's name. */
  predicate Clean(j: Job, answers: Pairs) {
    && (forall m, i :: 0 <= i < m < 9 ==> !Spoils(Scalars(j)[m].name, Scalars(j)[i]))
    && ScalarsSpare(j, "answers") && ScalarsSpare(j, "identity_data")
    && (forall i :: 0 <= i < |answers| ==> !PairSpoils("identity_data", answers[i]))
  }

  lemma {:induction false} CleanTarget(fs: seq<Field>, m: nat, i: nat)
    requires i <= m < |fs| && forall n :: i <= n < m ==> !Spoils(fs[m].name, fs[n])
    ensures Target(fs, m, i) == m
    decreases m - i
  {
    if i < m {
      CleanTarget(fs, m, i + 1);
    }
  }

  /** Reading a printed job gives the job, for every clean job with an id. */
  lemma RoundTrip(j: Job, answers: Pairs, identity: Pairs)
    requires FitsInts(j) && j.jobId != "" && Lists(answers, j.answers) && Lists(identity, j.identity)
    requires Clean(j, answers)
    ensures FromJson(ToJson(j, answers, identity)) == Some(j)
  {
    forall m | 0 <= m < 9 ensures Kept(Scalars(j), m) {
      CleanTarget(Scalars(j), m, 0);
    }
    ScalarsSurvive(j, answers, identity);
    AnswersRead(j, answers, identity);
    IdentityRead(j, answers, identity);
  }

  // ---- Jobs that do not survive -----------------------------------------------

  /** A student called like a later field: the number of the next field is taken for it. */
  lemma RetriesTakenFromExamNumber(j: Job, answers: Pairs, identity: Pairs)
    requires FitsInts(j) && j.jobId == "a1" && j.studentName == "retries" && j.examNumber == "9"
    ensures Extract(ToJson(j, answers, identity), "retries") == "9"
  {
    var fs := Scalars(j);
    NamesArePlain();
    PoisonMeans("retries", "a1");
    PoisonMeans("retries", "retries");
    assert !Spoils("retries", fs[0]) && !Spoils("retries", fs[1]) && Spoils("retries", fs[2]);
    assert Target(fs, 7, 2) == 3;
    assert Target(fs, 7, 1) == 3;
    assert Target(fs, 7, 0) == 3;
    ScalarText(j, answers, identity, 7);
  }
}
