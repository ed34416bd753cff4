/**
 The texts of jobs and of Socket.IO messages as JSON: each is the compact print of a tree, with
 the member names that the other side reads.
 */
module JobJson {
  import opened Text
  import opened JsonText
  import opened JsonTree
  import opened JobText
  import S = SocketIo

  // ---- Objects of strings -----------------------------------------------------

  function StringTree(s: string): Json {
    Str(Escape(s))
  }

  /** Members without blanks, in the given order. */
  function Chain(names: seq<string>, values: seq<Json>): Members
    requires |names| == |values|
  {
    if names == [] then NoMembers
    else Member("", names[0], "", "", values[0], "", Chain(names[1..], values[1..]))
  }

  function PairNames(pairs: Pairs): (r: seq<string>)
    ensures |r| == |pairs|
  {
    if pairs == [] then [] else [Escape(pairs[0].0)] + PairNames(pairs[1..])
  }

  function PairValues(pairs: Pairs): (r: seq<Json>)
    ensures |r| == |pairs|
  {
    if pairs == [] then [] else [StringTree(pairs[0].1)] + PairValues(pairs[1..])
  }

  function MapTree(pairs: Pairs): Json {
    Object("", Chain(PairNames(pairs), PairValues(pairs)))
  }

  /** What stands behind a first member. */
  function Behind(text: string): string {
    if text == "" then "" else "," + text
  }

  lemma {:induction false} PairsPrint(pairs: Pairs, first: bool)
    ensures PrintMembers(Chain(PairNames(pairs), PairValues(pairs)), first)
         == if first then PairsText(pairs) else Behind(PairsText(pairs))
  {
    if pairs != [] {
      PairsPrint(pairs[1..], false);
      MemberPrint(Escape(pairs[0].0), StringTree(pairs[0].1), Chain(PairNames(pairs[1..]), PairValues(pairs[1..])), first);
      PairsBehind(pairs);
      PairGlue(PairText(pairs[0]), Behind(PairsText(pairs[1..])));
    }
  }

  lemma PairGlue(pair: string, rest: string)
    ensures Comma(true) + pair + rest == pair + rest && Comma(false) + pair + rest == "," + (pair + rest)
  {
  }

  lemma MemberPrint(name: string, value: Json, rest: Members, first: bool)
    ensures PrintMembers(Member("", name, "", "", value, "", rest), first)
         == Comma(first) + (Quote(name) + ":" + Print(value)) + PrintMembers(rest, false)
  {
    NoBlanks(Quote(name), ":", Print(value));
    NothingBefore(Comma(first), PrintMember(name, "", "", Print(value), ""), PrintMembers(rest, false));
  }

  lemma NoBlanks(a: string, b: string, c: string)
    ensures a + "" + b + "" + c + "" == a + b + c
  {
  }

  lemma NothingBefore(a: string, b: string, c: string)
    ensures a + "" + b + c == a + b + c
  {
  }

  lemma PairsBehind(pairs: Pairs)
    requires pairs != []
    ensures PairsText(pairs) == PairText(pairs[0]) + Behind(PairsText(pairs[1..]))
  {
  }

  lemma MapPrints(pairs: Pairs)
    ensures Print(MapTree(pairs)) == MapText(pairs)
  {
    PairsPrint(pairs, true);
  }

  lemma {:induction false} PairsWellFormed(pairs: Pairs)
    ensures WellFormedMembers(Chain(PairNames(pairs), PairValues(pairs)))
  {
    if pairs != [] {
      EscapeWellEscaped(pairs[0].0);
      EscapeWellEscaped(pairs[0].1);
      PairsWellFormed(pairs[1..]);
    }
  }

  // ---- Jobs -------------------------------------------------------------------

  function JobNames(): seq<string> {
    ["job_id", "exam_id", "student_name", "exam_number", "student_class", "mac_address", "start_time", "retries",
     "enqueued_at"]
  }

  function JobValues(j: Job): seq<Json> {
    [StringTree(j.jobId), Scalar(IntText(j.examId)), StringTree(j.studentName), StringTree(j.examNumber),
     StringTree(j.studentClass), StringTree(j.macAddress), StringTree(j.startTime), Scalar(IntText(j.retries)),
     StringTree(j.enqueuedAt)]
  }

  function JobTree(j: Job, answers: Pairs, identity: Pairs): Json {
    Object("", Chain(JobNames() + ["answers", "identity_data"], JobValues(j) + [MapTree(answers), MapTree(identity)]))
  }

  /** The fields of the code are the members of the tree. */
  predicate SameFields(fs: seq<Field>, names: seq<string>, values: seq<Json>)
    requires |fs| == |names| == |values|
  {
    forall i :: 0 <= i < |fs| ==> fs[i].name == names[i] && ValueText(fs[i]) == Print(values[i])
  }

  lemma {:induction false} FieldsPrint(fs: seq<Field>, names: seq<string>, values: seq<Json>,
                                       more: seq<string>, others: seq<Json>, first: bool)
    requires |fs| == |names| == |values| && fs != [] && |more| == |others| && SameFields(fs, names, values)
    ensures PrintMembers(Chain(names + more, values + others), first)
         == Comma(first) + FieldsText(fs) + PrintMembers(Chain(more, others), false)
    decreases |fs|
  {
    var all, each := names + more, values + others;
    assert all[1..] == names[1..] + more && each[1..] == values[1..] + others;
    assert fs[0].name == names[0] && ValueText(fs[0]) == Print(values[0]);
    MemberPrint(names[0], values[0], Chain(all[1..], each[1..]), first);
    if |fs| == 1 {
      assert all[1..] == more && each[1..] == others;
    } else {
      assert SameFields(fs[1..], names[1..], values[1..]);
      FieldsPrint(fs[1..], names[1..], values[1..], more, others, false);
      FieldsGlue(Comma(first), FieldText(fs[0]), FieldsText(fs[1..]), PrintMembers(Chain(more, others), false));
    }
  }

  lemma FieldsGlue(comma: string, field: string, fields: string, more: string)
    ensures comma + field + ("," + fields + more) == comma + (field + "," + fields) + more
  {
  }

  lemma ScalarsAreMembers(j: Job)
    ensures |Scalars(j)| == |JobNames()| == |JobValues(j)| && SameFields(Scalars(j), JobNames(), JobValues(j))
  {
  }

  lemma TwoPrint(names: seq<string>, values: seq<Json>)
    requires |names| == |values| == 2
    ensures PrintMembers(Chain(names, values), false)
         == "," + Quote(names[0]) + ":" + Print(values[0]) + "," + Quote(names[1]) + ":" + Print(values[1])
  {
    var last := Member("", names[1], "", "", values[1], "", NoMembers);
    assert Chain(names[1..][1..], values[1..][1..]) == NoMembers;
    assert Chain(names[1..], values[1..]) == last;
    MemberPrint(names[1], values[1], NoMembers, false);
    MemberPrint(names[0], values[0], last, false);
    TwoGlue(Quote(names[0]), Print(values[0]), Quote(names[1]), Print(values[1]));
  }

  lemma TwoGlue(a: string, x: string, b: string, y: string)
    ensures "," + (a + ":" + x) + ("," + (b + ":" + y) + "") == "," + a + ":" + x + "," + b + ":" + y
  {
  }

  /** The text of a job is the compact print of its tree. */
  lemma JobPrints(j: Job, answers: Pairs, identity: Pairs)
    ensures ToJson(j, answers, identity) == Print(JobTree(j, answers, identity))
  {
    var more, others := ["answers", "identity_data"], [MapTree(answers), MapTree(identity)];
    ScalarsAreMembers(j);
    FieldsPrint(Scalars(j), JobNames(), JobValues(j), more, others, true);
    TwoPrint(more, others);
    MapPrints(answers);
    MapPrints(identity);
    JobGlue(FieldsText(Scalars(j)), PrintMembers(Chain(more, others), false), answers, identity);
  }

  lemma JobGlue(fields: string, maps: string, answers: Pairs, identity: Pairs)
    requires maps + "}" == MapsText(answers, identity)
    ensures "{" + fields + MapsText(answers, identity) == "{" + "" + ("" + fields + maps) + "}"
  {
  }

  lemma {:induction false} NatTextDigits(n: nat)
    ensures NatText(n) != "" && forall i :: 0 <= i < |NatText(n)| ==> IsDigit(NatText(n)[i])
  {
    if n >= 10 {
      NatTextDigits(n / 10);
    }
  }

  lemma IntTextPlain(n: int)
    ensures PlainWord(IntText(n))
  {
    NatTextDigits(if n < 0 then -n else n);
  }

  lemma {:induction false} ChainWellFormed(names: seq<string>, values: seq<Json>)
    requires |names| == |values| && forall i :: 0 <= i < |names| ==> WellEscaped(names[i]) && WellFormed(values[i])
    ensures WellFormedMembers(Chain(names, values))
  {
    if names != [] {
      ChainWellFormed(names[1..], values[1..]);
    }
  }

  lemma NamesPlain()
    ensures forall i :: 0 <= i < |JobNames()| ==> WellEscaped(JobNames()[i])
    ensures WellEscaped("answers") && WellEscaped("identity_data")
  {
    forall i | 0 <= i < |JobNames()| ensures WellEscaped(JobNames()[i]) {
      PlainWellEscaped(JobNames()[i]);
    }
    PlainWellEscaped("answers");
    PlainWellEscaped("identity_data");
  }

  lemma ValuesWellFormed(j: Job)
    ensures |JobValues(j)| == |JobNames()| && forall i :: 0 <= i < |JobValues(j)| ==> WellFormed(JobValues(j)[i])
  {
    IntTextPlain(j.examId);
    IntTextPlain(j.retries);
    EscapeWellEscaped(j.jobId);
    EscapeWellEscaped(j.studentName);
    EscapeWellEscaped(j.examNumber);
    EscapeWellEscaped(j.studentClass);
    EscapeWellEscaped(j.macAddress);
    EscapeWellEscaped(j.startTime);
    EscapeWellEscaped(j.enqueuedAt);
  }

  /** Whatever its fields hold, the text of a job is one well-formed JSON object. */
  lemma JobIsJson(j: Job, answers: Pairs, identity: Pairs)
    ensures ToJson(j, answers, identity) == Print(JobTree(j, answers, identity)) && WellFormed(JobTree(j, answers, identity))
  {
    JobPrints(j, answers, identity);
    NamesPlain();
    ValuesWellFormed(j);
    PairsWellFormed(answers);
    PairsWellFormed(identity);
    ChainWellFormed(JobNames() + ["answers", "identity_data"], JobValues(j) + [MapTree(answers), MapTree(identity)]);
  }

  // ---- Messages ---------------------------------------------------------------

  lemma ItemPrint(value: Json, rest: Items, first: bool)
    ensures PrintItems(Item("", value, "", rest), first) == Comma(first) + Print(value) + PrintItems(rest, false)
  {
    NothingAround(Comma(first), Print(value), PrintItems(rest, false));
  }

  lemma NothingAround(a: string, b: string, c: string)
    ensures a + "" + b + "" + c == a + b + c
  {
  }

  function MessageTree(event: string, payload: Json): Json {
    Array("", Item("", StringTree(event), "", Item("", payload, "", NoItems)))
  }

  /** A message is an array of the event's name and the payload. */
  lemma MarshalledIsJson(event: string, payload: Json)
    requires WellFormed(payload)
    ensures S.Marshal(event, Print(payload)) == Print(MessageTree(event, payload)) && WellFormed(MessageTree(event, payload))
  {
    EscapeWellEscaped(event);
    var second := Item("", payload, "", NoItems);
    assert WellFormedItems(second) && WellFormedItems(Item("", StringTree(event), "", second));
    ItemPrint(payload, NoItems, false);
    ItemPrint(StringTree(event), Item("", payload, "", NoItems), true);
    MessageGlue(Quote(Escape(event)), Print(payload));
  }

  lemma MessageGlue(event: string, payload: string)
    ensures "[" + "" + ("" + event + ("," + payload + "")) + "]" == "[" + event + "," + payload + "]"
  {
  }
}
