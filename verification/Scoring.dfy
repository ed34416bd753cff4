/**
 Scoring of a submission (`src/middleware/scoring.cpp`): the scanners for answers, the rules
 for each type of question, and the weighted score. Real numbers stand for doubles.
 */
module Scoring {
  import opened Text
  import opened Wrappers
  import J = JobText

  datatype Question = Question(number: int, kind: string, weight: real, key: string, partially: bool, keyRaw: string)

  datatype Status = Correct | Partial | Incorrect | Unanswered

  datatype Detail = Detail(earned: real, status: Status)

  type Pair = (string, string)

  const EPSILON: real := 0.000000001

  // ---- Scanners ---------------------------------------------------------------

  function Upper(c: char): char {
    if 'a' <= c <= 'z' then (c as int - 32) as char else c
  }

  /** Words in upper case, joined by single spaces. `gap` says that blanks came before. */
  function Norm(s: string, gap: bool, first: bool): string {
    if s == "" then ""
    else if IsSpace(s[0]) then Norm(s[1..], true, first)
    else (if gap && !first then " " else "") + [Upper(s[0])] + Norm(s[1..], false, false)
  }

  function NormAnswer(s: string): string {
    Norm(s, false, true)
  }

  method NormAns(s: string) returns (out: string)
    ensures out == NormAnswer(s)
  {
    out := "";
    var space := false;
    assert s[0..] == s;
    for i := 0 to |s|
      invariant out + Norm(s[i..], space, out == "") == NormAnswer(s)
    {
      ghost var rest := s[i..];
      assert rest[0] == s[i] && rest[1..] == s[i + 1..];
      if IsSpace(s[i]) {
        space := true;
      } else {
        var piece := (if space && out != "" then " " else "") + [Upper(s[i])];
        Associate(out, piece, Norm(rest[1..], false, false));
        out := out + piece;
        space := false;
      }
    }
  }

  /** Text between the first opening and the last closing bracket, if there are both. */
  function Inner(raw: string, open: char, close: char): string {
    var a, b := Find(raw, [open], 0), FindLast(raw, close);
    if a >= 0 && b > a then raw[a + 1..b] else raw
  }

  /** A quoted token: escapes are dropped together with the character they escape. */
  function QuotedToken(s: string): (r: (string, nat))
    ensures r.1 <= |s|
  {
    if s == "" then ("", 0)
    else if s[0] == '\\' then (if |s| < 2 then ("", |s|) else var r := QuotedToken(s[2..]); (r.0, r.1 + 2))
    else if s[0] == '\"' then ("", 1)
    else var r := QuotedToken(s[1..]); ([s[0]] + r.0, r.1 + 1)
  }

  /** A bare token, up to one of the stop characters. */
  function BareToken(s: string, stops: string): (r: string)
    ensures r <= s
  {
    if s == "" || s[0] in stops then "" else [s[0]] + BareToken(s[1..], stops)
  }

  const TOKEN_STOPS := ",;]\t\n\r"
  const SET_BLANKS := " \t,;\n\r"

  /** The characters a turn of the token scanner skips first. */
  function SkipSet(s: string): (n: nat)
    ensures n <= |s|
  {
    if s != "" && s[0] in SET_BLANKS then 1 + SkipSet(s[1..]) else 0
  }

  function Kept(tok: string): seq<string> {
    if tok == "" then [] else [NormAnswer(tok)]
  }

  /** Position and tokens of the scanner. */
  datatype Scanner = Scanner(at: nat, out: seq<string>)

  /** One token, quoted or bare. */
  function ReadToken(s: string, i: nat, out: seq<string>): (r: Scanner)
    requires i < |s|
    ensures i <= r.at <= |s|
  {
    if s[i] == '\"' then
      var (tok, used) := QuotedToken(s[i + 1..]);
      Scanner(i + 1 + used, out + Kept(tok))
    else
      var tok := BareToken(s[i..], TOKEN_STOPS);
      Scanner(i + |tok|, out + Kept(tok))
  }

  /** One turn of the loop of `parse_set_tokens`: skip, then one token. */
  function Turn(s: string, sc: Scanner): (r: Scanner)
    requires sc.at < |s|
    ensures sc.at <= r.at <= |s|
  {
    var i := sc.at + SkipSet(s[sc.at..]);
    if i >= |s| then Scanner(i, sc.out) else ReadToken(s, i, sc.out)
  }

  /** The scanner after n turns; it stops at the end of the text. */
  function Turns(s: string, sc: Scanner, n: nat): (r: Scanner)
    requires sc.at <= |s|
    ensures sc.at <= r.at <= |s|
    decreases n
  {
    if n == 0 || sc.at == |s| then sc else Turns(s, Turn(s, sc), n - 1)
  }

  /** The loop comes to its end. */
  ghost predicate Halts(s: string, sc: Scanner)
    requires sc.at <= |s|
  {
    exists n :: ReachesEnd(s, sc, n)
  }

  predicate ReachesEnd(s: string, sc: Scanner, n: nat)
    requires sc.at <= |s|
  {
    Turns(s, sc, n).at == |s|
  }

  const START := Scanner(0, [])

  /** Tokens of a list; empty ones are left out. None stands for a scan that never ends:
      `ScanTheorems` shows that it is None exactly when no number of turns reaches the end. */
  function Tokens(s: string): Option<seq<string>>
    decreases |s|
  {
    if s == "" then Some([])
    else if s[0] in SET_BLANKS then Tokens(s[1..])
    else if s[0] == '\"' then
      var (tok, used) := QuotedToken(s[1..]);
      Prepend(Kept(tok), Tokens(s[1 + used..]))
    else
      var tok := BareToken(s, TOKEN_STOPS);
      if tok == "" then None else Prepend(Kept(tok), Tokens(s[|tok|..]))
  }

  function Prepend(out: seq<string>, rest: Option<seq<string>>): Option<seq<string>> {
    match rest
    case None => None
    case Some(tokens) => Some(out + tokens)
  }

  function SetTokens(raw: string): Option<seq<string>> {
    Tokens(Inner(raw, '[', ']'))
  }

  const PAIR_BLANKS := " \t,\n\r"

  /** After the key of a pair: the colon, blanks, and where the value starts. */
  function AfterColon(s: string): (r: string)
    ensures |r| <= |s| && (s != "" ==> |r| < |s|)
  {
    if s == "" then "" else if s[0] == ':' then s[1..][SkipBlanks(s[1..])..] else AfterColon(s[1..])
  }

  /** Key and value pairs of an object; pairs with an empty key are left out. */
  function Pairs(s: string): seq<Pair>
    decreases |s|
  {
    if s == "" then []
    else if s[0] in PAIR_BLANKS then Pairs(s[1..])
    else
      var (k, used) := if s[0] == '\"' then var r := QuotedToken(s[1..]); (r.0, r.1 + 1)
                       else var b := BareToken(s, ":,"); (b, |b|);
      var rest := AfterColon(s[used..]);
      var (v, read) := if rest != "" && rest[0] == '\"' then var r := QuotedToken(rest[1..]); (r.0, r.1 + 1)
                       else var b := BareToken(rest, ",}"); (b, |b|);
      var tail := rest[read..];
      (if k == "" then [] else [(NormAnswer(k), NormAnswer(v))]) + Pairs(tail)
  }

  function ObjectPairs(raw: string): seq<Pair> {
    Pairs(Inner(raw, '{', '}'))
  }

  // ---- Comparing --------------------------------------------------------------

  /** Byte order of strings. */
  predicate Leq(a: string, b: string) {
    a == "" || (b != "" && (a[0] < b[0] || (a[0] == b[0] && Leq(a[1..], b[1..]))))
  }

  function InsertSorted(x: string, s: seq<string>): seq<string> {
    if s == [] || Leq(x, s[0]) then [x] + s else [s[0]] + InsertSorted(x, s[1..])
  }

  /** What `std::sort` leaves. */
  function Sorted(s: seq<string>): seq<string> {
    if s == [] then [] else InsertSorted(s[0], Sorted(s[1..]))
  }

  predicate SetsEqual(a: seq<string>, b: seq<string>) {
    |a| == |b| && Sorted(a) == Sorted(b)
  }

  /** As many pairs, and each of the first list somewhere in the second. */
  predicate ObjectsEqual(a: seq<Pair>, b: seq<Pair>) {
    |a| == |b| && forall i :: 0 <= i < |a| ==> a[i] in b
  }

  method SetsEqualObj(a: seq<Pair>, b: seq<Pair>) returns (ok: bool)
    ensures ok == ObjectsEqual(a, b)
  {
    if |a| != |b| {
      return false;
    }
    for i := 0 to |a|
      invariant forall j :: 0 <= j < i ==> a[j] in b
    {
      var found := false;
      for k := 0 to |b|
        invariant found ==> a[i] in b
        invariant !found ==> forall j :: 0 <= j < k ==> b[j] != a[i]
      {
        if b[k] == a[i] {
          found := true;
        }
      }
      if !found {
        return false;
      }
    }
    return true;
  }

  // ---- Counting ---------------------------------------------------------------

  function CountIn(items: seq<string>, key: seq<string>): nat {
    if items == [] then 0 else (if items[0] in key then 1 else 0) + CountIn(items[1..], key)
  }

  /** Right answers less wrong ones. */
  function Net(student: seq<string>, key: seq<string>): int {
    CountIn(student, key) - (|student| - CountIn(student, key))
  }

  function Hits(key: seq<Pair>, student: seq<Pair>): nat {
    if key == [] then 0 else (if key[0] in student then 1 else 0) + Hits(key[1..], student)
  }

  function Portion(net: int, total: nat): real
    requires total > 0
  {
    (if net < 0 then 0.0 else net as real) / total as real
  }

  method CountNet(student: seq<string>, key: seq<string>) returns (net: int)
    ensures net == Net(student, key)
  {
    var corr, wrong := 0, 0;
    assert student[0..] == student;
    for i := 0 to |student|
      invariant corr + wrong == i
      invariant corr + CountIn(student[i..], key) == CountIn(student, key)
    {
      assert student[i..][1..] == student[i + 1..];
      if student[i] in key {
        corr := corr + 1;
      } else {
        wrong := wrong + 1;
      }
    }
    net := corr - wrong;
  }

  method CountHits(key: seq<Pair>, student: seq<Pair>) returns (hit: nat)
    ensures hit == Hits(key, student)
  {
    hit := 0;
    assert key[0..] == key;
    for i := 0 to |key|
      invariant hit + Hits(key[i..], student) == Hits(key, student)
    {
      assert key[i..][1..] == key[i + 1..];
      if key[i] in student {
        hit := hit + 1;
      }
    }
  }

  // ---- One question -----------------------------------------------------------

  function Graded(portion: real, weight: real): Detail {
    Detail(portion * weight,
           if portion >= 1.0 - EPSILON then Correct else if portion > EPSILON then Partial else Incorrect)
  }

  function AllOrNothing(ok: bool, weight: real): Detail {
    if ok then Detail(weight, Correct) else Detail(0.0, Incorrect)
  }

  function GradeSet(q: Question, key: seq<string>, student: seq<string>): Detail {
    if q.partially then
      (if key == [] then Detail(0.0, Incorrect) else Graded(Portion(Net(student, key), |key|), q.weight))
    else AllOrNothing(SetsEqual(student, key), q.weight)
  }

  function GradeMatching(q: Question, key: seq<Pair>, student: seq<Pair>): Detail {
    if q.partially then
      (if key == [] then Detail(0.0, Incorrect) else Graded(Portion(Hits(key, student), |key|), q.weight))
    else AllOrNothing(ObjectsEqual(key, student), q.weight)
  }

  predicate IsSetKind(kind: string) {
    kind == "multiple_choice" || kind == "multiple_answer" || kind == "partial"
  }

  /** The answer without the blanks before it. */
  function Trimmed(answer: string): string {
    answer[SkipBlanks(answer)..]
  }

  /** None if one of the token scans never ends. */
  function Evaluate(q: Question, answer: string): Option<Detail> {
    var ans := Trimmed(answer);
    if ans == "" || ans == "[]" || ans == "{}" then Some(Detail(0.0, Unanswered))
    else if IsSetKind(q.kind) then
      match (SetTokens(q.keyRaw), SetTokens(ans))
      case (Some(key), Some(student)) => Some(GradeSet(q, key, student))
      case _ => None
    else if q.kind == "matching" then Some(GradeMatching(q, ObjectPairs(q.keyRaw), ObjectPairs(ans)))
    else
      match SetTokens(q.keyRaw)
      case None => None
      case Some(key) =>
        Some(AllOrNothing(NormAnswer(ans) == if key == [] then NormAnswer(q.key) else key[0], q.weight))
  }

  // ---- The score --------------------------------------------------------------

  /** Answers by question number, printed in decimal. */
  type Answers = map<string, string>

  function NumberText(q: Question): string {
    J.IntText(q.number)
  }

  /** What the answer adds to the sum; only asked for when its scans end. */
  function Earned(q: Question, answers: Answers): real {
    if NumberText(q) !in answers then 0.0
    else match Evaluate(q, answers[NumberText(q)])
         case Some(d) => d.earned
         case None => 0.0
  }

  /** Every scan that scoring the submission needs ends. */
  predicate Scannable(q: Question, answers: Answers) {
    NumberText(q) in answers ==> Evaluate(q, answers[NumberText(q)]).Some?
  }

  function TotalWeight(qs: seq<Question>): real {
    if qs == [] then 0.0 else qs[0].weight + TotalWeight(qs[1..])
  }

  function TotalEarned(qs: seq<Question>, answers: Answers): real {
    if qs == [] then 0.0 else Earned(qs[0], answers) + TotalEarned(qs[1..], answers)
  }

  /** None if one of the scans never ends. */
  function Score(qs: seq<Question>, answers: Answers): Option<real> {
    if exists i :: 0 <= i < |qs| && !Scannable(qs[i], answers) then None
    else if TotalWeight(qs) == 0.0 then Some(0.0)
    else Some(TotalEarned(qs, answers) / TotalWeight(qs) * 100.0)
  }

  /** The two sums. */
  method SumUp(qs: seq<Question>, answers: Answers) returns (got: real, total: real)
    requires forall i :: 0 <= i < |qs| ==> Scannable(qs[i], answers)
    ensures total == TotalWeight(qs) && got == TotalEarned(qs, answers)
  {
    got, total := 0.0, 0.0;
    assert qs[0..] == qs;
    for i := 0 to |qs|
      invariant total + TotalWeight(qs[i..]) == TotalWeight(qs)
      invariant got + TotalEarned(qs[i..], answers) == TotalEarned(qs, answers)
    {
      assert qs[i..][1..] == qs[i + 1..] && Scannable(qs[i], answers);
      total := total + qs[i].weight;
      if NumberText(qs[i]) in answers {
        var d := Evaluate(qs[i], answers[NumberText(qs[i])]);
        got := got + d.value.earned;
      }
    }
  }

  method ScoreSubmission(qs: seq<Question>, answers: Answers) returns (score: real)
    requires forall i :: 0 <= i < |qs| ==> Scannable(qs[i], answers)
    ensures Score(qs, answers) == Some(score)
  {
    var got, total := SumUp(qs, answers);
    score := if total == 0.0 then 0.0 else got / total * 100.0;
  }
}
