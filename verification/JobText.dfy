/**
 How a submission job is written as JSON text and read back by searching the text for quoted
 field names (`src/queue/submission_queue.cpp`): the specification of `to_json`, `from_json`
 and their helpers, and the scanners themselves with their loops.

 A `std::map` is enumerated in some order when it is printed; that order is a parameter here,
 so what is proved holds for every order.
 */
module JobText {
  import opened Wrappers
  import opened Text
  import opened JsonText

  type Pairs = seq<(string, string)>

  datatype Job = Job(jobId: string, examId: int, studentName: string, examNumber: string, studentClass: string,
                     macAddress: string, startTime: string, retries: int, enqueuedAt: string,
                     answers: map<string, string>, identity: map<string, string>)

  // ---- Integers ---------------------------------------------------------------

  const INT_MIN := -0x8000_0000
  const INT_MAX := 0x7FFF_FFFF

  function NatText(n: nat): string {
    (if n < 10 then "" else NatText(n / 10)) + [('0' as int + n % 10) as char]
  }

  function IntText(n: int): string {
    if n < 0 then "-" + NatText(-n) else NatText(n)
  }

  function Digits(s: string): (n: nat)
    ensures n <= |s|
    ensures forall i :: 0 <= i < n ==> IsDigit(s[i])
  {
    if s != "" && IsDigit(s[0]) then 1 + Digits(s[1..]) else 0
  }

  function NatValue(s: string): nat
    requires forall i :: 0 <= i < |s| ==> IsDigit(s[i])
  {
    if s == "" then 0
    else
      assert IsDigit(s[|s| - 1]);
      10 * NatValue(s[..|s| - 1]) + (s[|s| - 1] as int - '0' as int)
  }

  /** The leading digits, at least one, as a 32-bit integer. */
  function StoiDigits(t: string, negative: bool): Option<int> {
    var n := Digits(t);
    if n == 0 then None else
    var size: int := NatValue(t[..n]);
    var v := if negative then -size else size;
    if INT_MIN <= v <= INT_MAX then Some(v) else None
  }

  /** `std::stoi`: leading white space, a sign, at least one digit, a 32-bit result; anything
      else throws, and what follows the digits is ignored. */
  function Stoi(s: string): Option<int> {
    if s == "" then None
    else if IsSpace(s[0]) then Stoi(s[1..])
    else if s[0] == '-' || s[0] == '+' then StoiDigits(s[1..], s[0] == '-')
    else StoiDigits(s, false)
  }

  // ---- Printing ---------------------------------------------------------------

  function PairText(p: (string, string)): string {
    Quote(Escape(p.0)) + ":" + Quote(Escape(p.1))
  }

  function PairsText(pairs: Pairs): string {
    if pairs == [] then ""
    else if |pairs| == 1 then PairText(pairs[0])
    else PairText(pairs[0]) + "," + PairsText(pairs[1..])
  }

  function MapText(pairs: Pairs): string {
    "{" + PairsText(pairs) + "}"
  }

  /** A field that is not a map: its name, its value as text, and whether that is quoted. */
  datatype Field = Field(name: string, value: string, quoted: bool)

  function ValueText(f: Field): string {
    if f.quoted then Quote(Escape(f.value)) else f.value
  }

  function FieldText(f: Field): string {
    Quote(f.name) + ":" + ValueText(f)
  }

  function FieldsText(fs: seq<Field>): string {
    if fs == [] then ""
    else if |fs| == 1 then FieldText(fs[0])
    else FieldText(fs[0]) + "," + FieldsText(fs[1..])
  }

  /** The scalar fields in the order in which they are printed. */
  function Scalars(j: Job): seq<Field> {
    [Field("job_id", j.jobId, true), Field("exam_id", IntText(j.examId), false),
     Field("student_name", j.studentName, true), Field("exam_number", j.examNumber, true),
     Field("student_class", j.studentClass, true), Field("mac_address", j.macAddress, true),
     Field("start_time", j.startTime, true), Field("retries", IntText(j.retries), false),
     Field("enqueued_at", j.enqueuedAt, true)]
  }

  function MapsText(answers: Pairs, identity: Pairs): string {
    "," + Quote("answers") + ":" + MapText(answers) + "," + Quote("identity_data") + ":" + MapText(identity) + "}"
  }

  function ToJson(j: Job, answers: Pairs, identity: Pairs): string {
    "{" + FieldsText(Scalars(j)) + MapsText(answers, identity)
  }

  // ---- Reading a scalar -------------------------------------------------------

  function SkipSpaces(s: string): (n: nat)
    ensures n <= |s|
  {
    if s != "" && (s[0] == ' ' || s[0] == '\t') then 1 + SkipSpaces(s[1..]) else 0
  }

  /** The first comma or closing brace, or |s|. */
  function ScalarEnd(s: string): (n: nat)
    ensures n <= |s|
  {
    if s == "" || s[0] == ',' || s[0] == '}' then 0 else 1 + ScalarEnd(s[1..])
  }

  function WithoutSpaces(s: string): string {
    if s == "" then "" else (if s[0] == ' ' then "" else [s[0]]) + WithoutSpaces(s[1..])
  }

  /** The value after a colon. */
  function ValueAfter(t: string): string {
    var v := t[SkipSpaces(t)..];
    if v == "" then ""
    else if v[0] == '\"' then
      var q := ClosingQuote(v[1..]);
      if q >= |v| - 1 then "" else Unescape(v[1..1 + q])
    else
      var e := ScalarEnd(v);
      if e == |v| then "" else WithoutSpaces(v[..e])
  }

  /** Everything after the first colon behind the first occurrence of the quoted name. */
  function AfterName(s: string, name: string): Option<string> {
    var p := Find(s, Quote(name), 0);
    if p < 0 then None else
    var c := Find(s, ":", p);
    if c < 0 then None else Some(s[c + 1..])
  }

  function Extract(s: string, name: string): string {
    match AfterName(s, name)
    case None => ""
    case Some(t) => ValueAfter(t)
  }

  // ---- Reading a map ----------------------------------------------------------

  /** Offset of the brace that brings the depth back to zero, or -1. */
  function ObjectEnd(s: string, depth: int, inStr: bool, esc: bool): int {
    if s == "" then -1
    else if esc then Later(ObjectEnd(s[1..], depth, inStr, false))
    else if s[0] == '\\' && inStr then Later(ObjectEnd(s[1..], depth, inStr, true))
    else if s[0] == '\"' then Later(ObjectEnd(s[1..], depth, !inStr, false))
    else if inStr then Later(ObjectEnd(s[1..], depth, inStr, false))
    else if s[0] == '{' then Later(ObjectEnd(s[1..], depth + 1, inStr, false))
    else if s[0] == '}' then (if depth == 1 then 0 else Later(ObjectEnd(s[1..], depth - 1, inStr, false)))
    else Later(ObjectEnd(s[1..], depth, inStr, false))
  }

  function Later(n: int): int {
    if n < 0 then -1 else n + 1
  }

  /** Blanks and one separator character. */
  function SkipSeparators(s: string, sep: char): (n: nat)
    ensures n <= |s|
    ensures n < |s| ==> !IsBlank(s[n]) && s[n] != sep
  {
    if s != "" && (IsBlank(s[0]) || s[0] == sep) then 1 + SkipSeparators(s[1..], sep) else 0
  }

  /** An index found behind n characters. */
  function Ahead(n: nat, end: int): int {
    if end < 0 then -1 else n + end
  }

  /** The entries of an object whose opening brace has been read. */
  function Entries(t: string, out: map<string, string>): map<string, string>
    decreases |t|, 1
  {
    NameHere(t[SkipSeparators(t, ',')..], out)
  }

  /** At the name of an entry, the closing brace, or something to skip. */
  function NameHere(t: string, out: map<string, string>): map<string, string>
    decreases |t|, 0
  {
    if t == "" || t[0] == '}' then out
    else if t[0] != '\"' then Entries(t[1..], out)
    else
      var k := ClosingQuote(t[1..]);
      if k >= |t| - 1 then out
      else EntryValue(t[k + 2..], Unescape(t[1..1 + k]), out)
  }

  /** After the name of an entry. */
  function EntryValue(t: string, name: string, out: map<string, string>): map<string, string>
    decreases |t|, 1
  {
    ValueHere(t[SkipSeparators(t, ':')..], name, out)
  }

  /** At the value of an entry, if it is a string. */
  function ValueHere(t: string, name: string, out: map<string, string>): map<string, string>
    decreases |t|, 0
  {
    if t == "" then out
    else if t[0] != '\"' then Entries(t[1..], out)
    else
      var v := ClosingQuote(t[1..]);
      if v >= |t| - 1 then out
      else Entries(t[v + 2..], out[name := Unescape(t[1..1 + v])])
  }

  function ParseMap(s: string, name: string): map<string, string> {
    match AfterName(s, name)
    case None => map[]
    case Some(t) =>
      var q := Find(t, "{", 0);
      if q < 0 then map[] else
      var e := ObjectEnd(t[q..], 0, false, false);
      if e < 0 || q + e >= |t| then map[] else Entries(t[q..q + e + 1][1..], map[])
  }

  // ---- Reading a job ----------------------------------------------------------

  /** A conversion that throws leaves the field at zero. */
  function IntOrZero(s: string): int {
    match Stoi(s)
    case Some(v) => v
    case None => 0
  }

  function FromJson(s: string): Option<Job> {
    var id := Extract(s, "job_id");
    if id == "" then None
    else Some(Job(id, IntOrZero(Extract(s, "exam_id")), Extract(s, "student_name"), Extract(s, "exam_number"),
                  Extract(s, "student_class"), Extract(s, "mac_address"), Extract(s, "start_time"),
                  IntOrZero(Extract(s, "retries")), Extract(s, "enqueued_at"),
                  ParseMap(s, "answers"), ParseMap(s, "identity_data")))
  }
}
