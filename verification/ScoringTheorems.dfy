/**
 What the scores mean: the comparison of answer sets, how partial credit relates to the
 all-or-nothing rule, and the range of the total.
 */
module ScoringTheorems {
  import opened Wrappers
  import opened Scoring
  import opened ScanTheorems

  // ---- Sorting ----------------------------------------------------------------

  lemma {:induction false} LeqTotal(a: string, b: string)
    ensures Leq(a, b) || Leq(b, a)
  {
    if a != "" && b != "" && a[0] == b[0] {
      LeqTotal(a[1..], b[1..]);
    }
  }

  lemma {:induction false} LeqAntisymmetric(a: string, b: string)
    requires Leq(a, b) && Leq(b, a)
    ensures a == b
  {
    if a != "" && b != "" {
      LeqAntisymmetric(a[1..], b[1..]);
      assert a == [a[0]] + a[1..] && b == [b[0]] + b[1..];
    }
  }

  lemma {:induction false} LeqTransitive(a: string, b: string, c: string)
    requires Leq(a, b) && Leq(b, c)
    ensures Leq(a, c)
  {
    if a != "" && a[0] == b[0] && b[0] == c[0] {
      LeqTransitive(a[1..], b[1..], c[1..]);
    }
  }

  predicate LowerBound(x: string, s: seq<string>) {
    forall i :: 0 <= i < |s| ==> Leq(x, s[i])
  }

  predicate InOrder(s: seq<string>) {
    s == [] || (LowerBound(s[0], s[1..]) && InOrder(s[1..]))
  }

  lemma LowerBoundFurther(x: string, y: string, s: seq<string>)
    requires Leq(x, y) && LowerBound(y, s)
    ensures LowerBound(x, s)
  {
    forall i | 0 <= i < |s| ensures Leq(x, s[i]) {
      LeqTransitive(x, y, s[i]);
    }
  }

  lemma {:induction false} InsertBound(y: string, x: string, s: seq<string>)
    requires Leq(y, x) && LowerBound(y, s)
    ensures LowerBound(y, InsertSorted(x, s))
  {
    if s != [] && !Leq(x, s[0]) {
      assert forall i :: 0 <= i < |s[1..]| ==> s[1..][i] == s[i + 1];
      InsertBound(y, x, s[1..]);
    }
  }

  lemma {:induction false} InsertInOrder(x: string, s: seq<string>)
    requires InOrder(s)
    ensures InOrder(InsertSorted(x, s))
  {
    if s == [] {
    } else if Leq(x, s[0]) {
      LowerBoundFurther(x, s[0], s[1..]);
      assert ([x] + s)[1..] == s;
    } else {
      LeqTotal(x, s[0]);
      InsertInOrder(x, s[1..]);
      InsertBound(s[0], x, s[1..]);
      assert ([s[0]] + InsertSorted(x, s[1..]))[1..] == InsertSorted(x, s[1..]);
    }
  }

  lemma {:induction false} InsertKeeps(x: string, s: seq<string>)
    ensures multiset(InsertSorted(x, s)) == multiset(s) + multiset{x}
  {
    if s != [] && !Leq(x, s[0]) {
      InsertKeeps(x, s[1..]);
      assert s == [s[0]] + s[1..];
    }
  }

  lemma {:induction false} SortedKeeps(s: seq<string>)
    ensures InOrder(Sorted(s)) && multiset(Sorted(s)) == multiset(s)
  {
    if s != [] {
      SortedKeeps(s[1..]);
      InsertKeeps(s[0], Sorted(s[1..]));
      InsertInOrder(s[0], Sorted(s[1..]));
      assert s == [s[0]] + s[1..];
    }
  }

  lemma HeadIsLeast(s: seq<string>, x: string)
    requires InOrder(s) && x in s
    ensures Leq(s[0], x)
  {
    LeqTotal(x, x);
    assert s == [s[0]] + s[1..];
  }

  lemma SameElementsIn(a: seq<string>, b: seq<string>, x: string)
    requires multiset(a) == multiset(b)
    ensures x in a <==> x in b
  {
    assert x in a <==> x in multiset(a);
    assert x in b <==> x in multiset(b);
  }

  lemma DropHead(a: seq<string>)
    requires a != []
    ensures multiset(a[1..]) == multiset(a) - multiset{a[0]}
  {
    assert a == [a[0]] + a[1..];
  }

  lemma SameHead(a: seq<string>, b: seq<string>)
    requires a != [] && b != [] && InOrder(a) && InOrder(b) && multiset(a) == multiset(b)
    ensures a[0] == b[0] && multiset(a[1..]) == multiset(b[1..])
  {
    SameElementsIn(a, b, a[0]);
    SameElementsIn(a, b, b[0]);
    HeadIsLeast(b, a[0]);
    HeadIsLeast(a, b[0]);
    LeqAntisymmetric(a[0], b[0]);
    DropHead(a);
    DropHead(b);
  }

  /** Two sorted lists with the same elements are the same. */
  lemma {:induction false} SortedUnique(a: seq<string>, b: seq<string>)
    requires InOrder(a) && InOrder(b) && multiset(a) == multiset(b)
    ensures a == b
  {
    assert |a| == |multiset(a)| == |multiset(b)| == |b|;
    if a != [] {
      SameHead(a, b);
      SortedUnique(a[1..], b[1..]);
      assert a == [a[0]] + a[1..] && b == [b[0]] + b[1..];
    }
  }

  /** The all-or-nothing comparison of answer sets is equality of multisets. */
  lemma SetsEqualIsMultiset(a: seq<string>, b: seq<string>)
    ensures SetsEqual(a, b) <==> multiset(a) == multiset(b)
  {
    SortedKeeps(a);
    SortedKeeps(b);
    if multiset(a) == multiset(b) {
      SortedUnique(Sorted(a), Sorted(b));
      assert |a| == |multiset(a)| == |b|;
    }
  }

  // ---- Partial credit for sets ------------------------------------------------

  predicate Distinct(s: seq<string>) {
    s == [] || (s[0] !in s[1..] && Distinct(s[1..]))
  }

  lemma {:induction false} CountBound(student: seq<string>, key: seq<string>)
    ensures CountIn(student, key) <= |student|
    ensures CountIn(student, key) == |student| <==> forall i :: 0 <= i < |student| ==> student[i] in key
  {
    if student != [] {
      CountBound(student[1..], key);
      assert forall i :: 0 <= i < |student[1..]| ==> student[1..][i] == student[i + 1];
      if forall i :: 0 <= i < |student[1..]| ==> student[1..][i] in key {
        assert forall i :: 1 <= i < |student| ==> student[i] == student[1..][i - 1];
      }
    }
  }

  function Elements(s: seq<string>): set<string> {
    set x | x in s
  }

  lemma ElementsHead(s: seq<string>)
    requires s != []
    ensures Elements(s) == {s[0]} + Elements(s[1..]) && (s[0] in Elements(s[1..]) <==> s[0] in s[1..])
  {
    assert s == [s[0]] + s[1..];
  }

  lemma {:induction false} DistinctSize(s: seq<string>)
    ensures |Elements(s)| <= |s|
    ensures Distinct(s) <==> |Elements(s)| == |s|
  {
    if s != [] {
      ElementsHead(s);
      DistinctSize(s[1..]);
      if s[0] in s[1..] {
        assert Elements(s) == Elements(s[1..]);
      }
    }
  }

  /** Right answers among distinct ones are no more than the key has. */
  lemma {:induction false} DistinctCount(student: seq<string>, key: seq<string>)
    requires Distinct(student)
    ensures CountIn(student, key) == |Elements(student) * Elements(key)|
  {
    if student != [] {
      ElementsHead(student);
      DistinctCount(student[1..], key);
      var common := Elements(student[1..]) * Elements(key);
      assert Elements(student) * Elements(key) == if student[0] in key then common + {student[0]} else common;
    } else {
      assert Elements(student) * Elements(key) == {};
    }
  }

  lemma SubsetSize(a: set<string>, b: set<string>)
    requires a <= b
    ensures |a| <= |b| && (|a| == |b| ==> a == b)
  {
    assert b == a + (b - a);
    if |a| == |b| {
      assert |b - a| == 0;
    }
  }

  lemma NetBound(student: seq<string>, key: seq<string>)
    requires Distinct(student)
    ensures Net(student, key) <= |key|
    ensures Net(student, key) == |key| <==> Distinct(key) && Elements(student) == Elements(key)
  {
    var common := Elements(student) * Elements(key);
    DistinctCount(student, key);
    DistinctSize(student);
    DistinctSize(key);
    CountBound(student, key);
    SubsetSize(common, Elements(key));
    SubsetSize(common, Elements(student));
    if Net(student, key) == |key| {
      assert |common| == |Elements(key)| == |key|;
    }
    if Distinct(key) && Elements(student) == Elements(key) {
      assert common == Elements(key);
    }
  }

  lemma {:induction false} DistinctMultiset(a: seq<string>, x: string)
    requires Distinct(a)
    ensures multiset(a)[x] == if x in a then 1 else 0
  {
    if a != [] {
      assert a == [a[0]] + a[1..];
      DistinctMultiset(a[1..], x);
    }
  }

  lemma SameElements(a: seq<string>, b: seq<string>)
    requires Distinct(a)
    ensures multiset(a) == multiset(b) <==> Distinct(b) && Elements(a) == Elements(b)
  {
    DistinctSize(a);
    DistinctSize(b);
    if multiset(a) == multiset(b) {
      assert forall x :: x in a <==> x in multiset(b);
      assert Elements(a) == Elements(b);
      assert |multiset(a)| == |a| && |multiset(b)| == |b|;
    }
    if Distinct(b) && Elements(a) == Elements(b) {
      forall x ensures multiset(a)[x] == multiset(b)[x] {
        DistinctMultiset(a, x);
        DistinctMultiset(b, x);
        assert x in a <==> x in Elements(a);
        assert x in b <==> x in Elements(b);
      }
    }
  }

  // ---- The tolerance ----------------------------------------------------------

  /** A fraction is compared by multiplying out. */
  lemma Cross(n: int, d: int, x: real)
    requires d > 0
    ensures n as real / d as real < x <==> n as real < x * d as real
    ensures n as real / d as real > x <==> n as real > x * d as real
  {
    var r := n as real / d as real;
    assert r * d as real == n as real;
    if r < x { assert (x - r) * d as real > 0.0; }
    if r > x { assert (r - x) * d as real > 0.0; }
    assert x * d as real - r * d as real == (x - r) * d as real;
  }

  lemma RatioBounds(n: int, d: int)
    requires d > 0
    ensures n as real / d as real <= 1.0 <==> n <= d
    ensures n as real / d as real >= 1.0 <==> n >= d
  {
    Cross(n, d, 1.0);
  }

  lemma RatioGap(n: int, d: int)
    requires 0 < d < 1_000_000_000
    ensures n < d ==> n as real / d as real < 1.0 - EPSILON
    ensures n > 0 ==> n as real / d as real > EPSILON
  {
    Cross(n, d, 1.0 - EPSILON);
    Cross(n, d, EPSILON);
    assert d as real <= 999_999_999.0 && EPSILON * d as real < 1.0;
    assert (1.0 - EPSILON) * d as real == d as real - EPSILON * d as real;
    assert n > 0 ==> n as real >= 1.0;
    assert n < d ==> n as real <= d as real - 1.0;
  }

  lemma ProductIsNotNegative(a: real, b: real)
    requires a >= 0.0 && b >= 0.0
    ensures a * b >= 0.0
  {
  }

  /** With fewer than a thousand million key tokens the tolerance makes no difference. */
  lemma ToleranceIsExact(net: int, total: nat, weight: real)
    requires 0 < total < 1_000_000_000
    ensures Graded(Portion(net, total), weight).status ==
            if net >= total then Correct else if net > 0 then Partial else Incorrect
  {
    RatioBounds(net, total);
    RatioGap(net, total);
    assert 0.0 / total as real == 0.0;
  }

  /** For answers without repetitions, partial scoring says "correct" exactly when the
      all-or-nothing rule does, unless the key is empty: then it never does. */
  lemma PartialAgrees(q: Question, key: seq<string>, student: seq<string>)
    requires q.partially && Distinct(student) && |key| < 1_000_000_000
    ensures GradeSet(q, key, student).status == Correct
            <==> GradeSet(q.(partially := false), key, student).status == Correct && key != []
  {
    if key != [] {
      ToleranceIsExact(Net(student, key), |key|, q.weight);
      NetBound(student, key);
      SetsEqualIsMultiset(student, key);
      SameElements(student, key);
    }
  }

  // ---- Repeated answers -------------------------------------------------------

  function Repeat(x: string, n: nat): seq<string> {
    if n == 0 then [] else [x] + Repeat(x, n - 1)
  }

  lemma {:induction false} RepeatCounts(x: string, n: nat, key: seq<string>)
    requires x in key
    ensures |Repeat(x, n)| == n && Net(Repeat(x, n), key) == n && CountIn(Repeat(x, n), key) == n
  {
    if n > 0 {
      RepeatCounts(x, n - 1, key);
      assert ([x] + Repeat(x, n - 1))[1..] == Repeat(x, n - 1);
    }
  }

  /** Repetitions are counted again and again: one right token given n times earns n parts
      of the key, without limit. */
  lemma {:induction false} RepeatedAnswerEarns(q: Question, key: seq<string>, x: string, n: nat)
    requires q.partially && x in key
    ensures GradeSet(q, key, Repeat(x, n)).earned == n as real / |key| as real * q.weight
  {
    RepeatCounts(x, n, key);
  }

  // ---- Matching ---------------------------------------------------------------

  lemma {:induction false} HitsBound(key: seq<Pair>, student: seq<Pair>)
    ensures Hits(key, student) <= |key|
    ensures Hits(key, student) == |key| <==> forall i :: 0 <= i < |key| ==> key[i] in student
  {
    if key != [] {
      HitsBound(key[1..], student);
      assert forall i :: 0 <= i < |key[1..]| ==> key[1..][i] == key[i + 1];
      if forall i :: 0 <= i < |key[1..]| ==> key[1..][i] in student {
        assert forall i :: 1 <= i < |key| ==> key[i] == key[1..][i - 1];
      }
    }
  }

  /** For matching, the all-or-nothing rule asks in addition that there be no other pairs. */
  lemma MatchingPartialAgrees(q: Question, key: seq<Pair>, student: seq<Pair>)
    requires q.partially && |key| < 1_000_000_000
    ensures GradeMatching(q.(partially := false), key, student).status == Correct && key != []
            <==> GradeMatching(q, key, student).status == Correct && |student| == |key|
  {
    if key != [] {
      ToleranceIsExact(Hits(key, student), |key|, q.weight);
      HitsBound(key, student);
    }
  }

  // ---- The range of the score -------------------------------------------------

  /** The right answers less the wrong ones are no more than the key has, or it does not
      matter: no partial credit for sets is given, the weight is zero, or the key is empty. */
  predicate FairAnswer(q: Question, answer: string) {
    IsSetKind(q.kind) && q.partially && q.weight != 0.0 ==>
      match (SetTokens(q.keyRaw), SetTokens(Trimmed(answer)))
      case (Some(key), Some(student)) => key == [] || Net(student, key) <= |key|
      case _ => true
  }

  predicate FairQuestion(q: Question, answers: Answers) {
    q.weight >= 0.0 && (NumberText(q) in answers && !IsBlankAnswer(answers[NumberText(q)]) ==> FairAnswer(q, answers[NumberText(q)]))
  }

  lemma PortionBounds(net: int, total: nat)
    requires total > 0
    ensures Portion(net, total) >= 0.0
    ensures Portion(net, total) <= 1.0 <==> net <= total
  {
    RatioBounds(net, total);
    assert 0.0 / total as real == 0.0;
    if net > 0 {
      var r := net as real / total as real;
      assert r * total as real == net as real;
    }
  }

  lemma GradedBounds(portion: real, weight: real)
    requires 0.0 <= portion && weight >= 0.0
    ensures 0.0 <= Graded(portion, weight).earned
    ensures Graded(portion, weight).earned <= weight <==> weight == 0.0 || portion <= 1.0
  {
    assert Graded(portion, weight).earned == portion * weight;
    ProductIsNotNegative(portion, weight);
    assert (1.0 - portion) * weight == weight - portion * weight;
    if portion <= 1.0 {
      ProductIsNotNegative(1.0 - portion, weight);
    } else if weight > 0.0 {
      assert (portion - 1.0) * weight > 0.0;
    }
  }

  /** Partial credit for a set is at most the weight exactly when the answer is fair. */
  lemma PartialSetBounds(q: Question, key: seq<string>, student: seq<string>)
    requires q.partially && q.weight >= 0.0
    ensures 0.0 <= GradeSet(q, key, student).earned
    ensures GradeSet(q, key, student).earned <= q.weight
            <==> q.weight == 0.0 || key == [] || Net(student, key) <= |key|
  {
    if key != [] {
      PortionBounds(Net(student, key), |key|);
      GradedBounds(Portion(Net(student, key), |key|), q.weight);
    }
  }

  lemma MatchingBounds(q: Question, key: seq<Pair>, student: seq<Pair>)
    requires q.weight >= 0.0
    ensures 0.0 <= GradeMatching(q, key, student).earned <= q.weight
  {
    if q.partially && key != [] {
      HitsBound(key, student);
      PortionBounds(Hits(key, student), |key|);
      GradedBounds(Portion(Hits(key, student), |key|), q.weight);
    }
  }

  /** A question whose weight is not negative earns between nothing and its weight exactly when
      the answer to it is fair, or blank, or missing. */
  lemma EarnedBounds(q: Question, answers: Answers)
    requires q.weight >= 0.0 && Scannable(q, answers)
    ensures 0.0 <= Earned(q, answers)
    ensures Earned(q, answers) <= q.weight <==> FairQuestion(q, answers)
  {
    if NumberText(q) in answers && !IsBlankAnswer(answers[NumberText(q)]) {
      var ans := Trimmed(answers[NumberText(q)]);
      if IsSetKind(q.kind) && q.partially {
        PartialSetBounds(q, SetTokens(q.keyRaw).value, SetTokens(ans).value);
      } else if q.kind == "matching" {
        MatchingBounds(q, ObjectPairs(q.keyRaw), ObjectPairs(ans));
      }
    }
  }

  /** Answers without repetitions are fair. */
  lemma DistinctIsFair(q: Question, answer: string)
    requires SetTokens(Trimmed(answer)).Some? ==> Distinct(SetTokens(Trimmed(answer)).value)
    ensures FairAnswer(q, answer)
  {
    if SetTokens(q.keyRaw).Some? && SetTokens(Trimmed(answer)).Some? {
      NetBound(SetTokens(Trimmed(answer)).value, SetTokens(q.keyRaw).value);
    }
  }

  lemma {:induction false} TotalBounds(qs: seq<Question>, answers: Answers)
    requires forall i :: 0 <= i < |qs| ==> FairQuestion(qs[i], answers) && Scannable(qs[i], answers)
    ensures 0.0 <= TotalEarned(qs, answers) <= TotalWeight(qs)
  {
    if qs != [] {
      assert FairQuestion(qs[0], answers);
      EarnedBounds(qs[0], answers);
      TotalBounds(qs[1..], answers);
    }
  }

  lemma QuotientBounds(a: real, b: real)
    requires 0.0 <= a <= b && b != 0.0
    ensures 0.0 <= a / b <= 1.0
  {
    var r := a / b;
    assert r * b == a;
  }

  /** With weights that are not negative and fair answers, a score that is computed lies
      between 0 and 100. */
  lemma ScoreInRange(qs: seq<Question>, answers: Answers)
    requires forall i :: 0 <= i < |qs| ==> FairQuestion(qs[i], answers)
    ensures Score(qs, answers).Some? ==> 0.0 <= Score(qs, answers).value <= 100.0
  {
    if Score(qs, answers).Some? {
      TotalBounds(qs, answers);
      var earned, total := TotalEarned(qs, answers), TotalWeight(qs);
      if total != 0.0 {
        QuotientBounds(earned, total);
      }
    }
  }

  /** For one question, and so for what each question adds, the condition is exact. */
  lemma OneQuestionInRange(q: Question, answers: Answers)
    requires q.weight >= 0.0 && Scannable(q, answers)
    ensures Score([q], answers).Some? && 0.0 <= Score([q], answers).value
    ensures Score([q], answers).value <= 100.0 <==> FairQuestion(q, answers)
  {
    assert [q][1..] == [];
    EarnedBounds(q, answers);
    var earned := Earned(q, answers);
    assert TotalEarned([q], answers) == earned && TotalWeight([q]) == q.weight;
    if q.weight > 0.0 {
      QuotientCompares(earned, q.weight);
    }
  }

  lemma QuotientCompares(a: real, b: real)
    requires 0.0 <= a && 0.0 < b
    ensures 0.0 <= a / b
    ensures a / b <= 1.0 <==> a <= b
  {
    var r := a / b;
    assert r * b == a;
    if r <= 1.0 {
      ProductIsNotNegative(1.0 - r, b);
    } else {
      assert (r - 1.0) * b > 0.0;
    }
    assert (1.0 - r) * b == b - a;
  }

  /** A student who gives the one right answer twice scores 200. */
  lemma ScoreAboveHundred()
    ensures var q := Question(1, "multiple_answer", 1.0, "", true, "A");
            Score([q], map["1" := "A,A"]) == Some(200.0)
  {
    var q := Question(1, "multiple_answer", 1.0, "", true, "A");
    var answers := map["1" := "A,A"];
    OneIsOne(q);
    TokensOfLetters();
    var key, student := ["A"], ["A", "A"];
    assert CountIn(student, key) == 2 by { assert student[1..] == ["A"] && student[1..][1..] == []; }
    assert Evaluate(q, "A,A") == Some(GradeSet(q, key, student));
    assert Portion(2, 1) == 2.0;
    assert GradeSet(q, key, student).earned == 2.0;
    assert [q][1..] == [];
    assert TotalEarned([q], answers) == 2.0 && TotalWeight([q]) == 1.0;
    assert Scannable(q, answers);
  }

  lemma OneLetter(rest: string)
    requires rest == "" || rest[0] in TOKEN_STOPS
    ensures Tokens("A" + rest) == Prepend(["A"], Tokens(rest))
  {
    var s := "A" + rest;
    assert s[0] == 'A' && s[1..] == rest;
    assert BareToken(rest, TOKEN_STOPS) == "" && BareToken(s, TOKEN_STOPS) == "A";
    assert "A"[1..] == "" && NormAnswer("A") == "A";
  }

  lemma TokensOfLetters()
    ensures SetTokens("A") == Some(["A"]) && SetTokens("A,A") == Some(["A", "A"])
    ensures Trimmed("A,A") == "A,A"
  {
    NoOpening("A");
    NoOpening("A,A");
    OneLetter("");
    OneLetter(",A");
    assert "A" + "" == "A" && "A" + ",A" == "A,A" && ",A"[1..] == "A";
    assert ["A"] + [] == ["A"] && ["A"] + ["A"] == ["A", "A"];
    assert Tokens(",A") == Tokens("A");
  }

  // ---- The order of questions -------------------------------------------------

  lemma {:induction false} TotalConcat(a: seq<Question>, b: seq<Question>, answers: Answers)
    ensures TotalWeight(a + b) == TotalWeight(a) + TotalWeight(b)
    ensures TotalEarned(a + b, answers) == TotalEarned(a, answers) + TotalEarned(b, answers)
  {
    if a == [] {
      assert a + b == b;
    } else {
      assert (a + b)[1..] == a[1..] + b;
      TotalConcat(a[1..], b, answers);
    }
  }

  lemma TotalWithout(qs: seq<Question>, i: nat, answers: Answers)
    requires i < |qs|
    ensures TotalWeight(qs) == qs[i].weight + TotalWeight(qs[..i] + qs[i + 1..])
    ensures TotalEarned(qs, answers) == Earned(qs[i], answers) + TotalEarned(qs[..i] + qs[i + 1..], answers)
  {
    assert qs == qs[..i] + ([qs[i]] + qs[i + 1..]);
    assert ([qs[i]] + qs[i + 1..])[1..] == qs[i + 1..];
    TotalConcat(qs[..i], [qs[i]] + qs[i + 1..], answers);
    TotalConcat(qs[..i], qs[i + 1..], answers);
  }

  lemma Matched(a: seq<Question>, b: seq<Question>) returns (i: nat)
    requires a != [] && multiset(a) == multiset(b)
    ensures i < |b| && b[i] == a[0] && multiset(a[1..]) == multiset(b[..i] + b[i + 1..])
  {
    assert a[0] in multiset(a);
    assert a[0] in multiset(b);
    i :| 0 <= i < |b| && b[i] == a[0];
    assert a == [a[0]] + a[1..];
    assert b == b[..i] + ([b[i]] + b[i + 1..]);
    assert multiset(a[1..]) == multiset(a) - multiset{a[0]};
    assert multiset(b[..i] + b[i + 1..]) == multiset(b) - multiset{b[i]};
  }

  lemma {:induction false} TotalsIgnoreOrder(a: seq<Question>, b: seq<Question>, answers: Answers)
    requires multiset(a) == multiset(b)
    ensures TotalWeight(a) == TotalWeight(b) && TotalEarned(a, answers) == TotalEarned(b, answers)
    decreases |a|
  {
    assert |a| == |multiset(a)| == |multiset(b)| == |b|;
    if a != [] {
      var i := Matched(a, b);
      TotalWithout(b, i, answers);
      TotalsIgnoreOrder(a[1..], b[..i] + b[i + 1..], answers);
    }
  }

  /** The score does not depend on the order of the questions. */
  lemma ScoreIgnoresOrder(a: seq<Question>, b: seq<Question>, answers: Answers)
    requires multiset(a) == multiset(b)
    ensures Score(a, answers) == Score(b, answers)
  {
    TotalsIgnoreOrder(a, b, answers);
    ScansIgnoreOrder(a, b, answers);
    ScansIgnoreOrder(b, a, answers);
  }

  lemma ScansIgnoreOrder(a: seq<Question>, b: seq<Question>, answers: Answers)
    requires multiset(a) == multiset(b)
    ensures Score(a, answers) == None ==> Score(b, answers) == None
  {
    if i :| 0 <= i < |a| && !Scannable(a[i], answers) {
      assert a[i] in multiset(a);
      assert a[i] in multiset(b);
      var k :| 0 <= k < |b| && b[k] == a[i];
    }
  }
}
