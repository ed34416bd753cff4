/**
 The two maps of a job, when its other fields and its answers hold no opening brace. Wherever
 the reader starts for the name of a map, the next brace is then that of a map: the answers
 are always read right, and the identity data exactly when no scalar is taken for their name,
 or both maps are the same.
 */
module JobIdentity {
  import opened Wrappers
  import opened Text
  import opened JsonText
  import opened JobText
  import opened JobCodec
  import opened JobScalars
  import opened JobMaps
  import opened JobRoundTrip
  import opened Rounds

  predicate NoBrace(s: string) {
    '{' !in s
  }

  predicate PairsNoBrace(pairs: Pairs) {
    forall i :: 0 <= i < |pairs| ==> NoBrace(pairs[i].0) && NoBrace(pairs[i].1)
  }

  /** No field of the job but the identity data holds an opening brace. */
  predicate HoldsNoBrace(j: Job, answers: Pairs) {
    (forall i :: 0 <= i < |Scalars(j)| ==> NoBrace(Scalars(j)[i].value)) && PairsNoBrace(answers)
  }

  // ---- Text without braces ----------------------------------------------------

  lemma {:induction false} EscapeNoBrace(s: string)
    requires NoBrace(s)
    ensures NoBrace(Escape(s))
  {
    if s != "" {
      assert forall i :: 0 <= i < |s[1..]| ==> s[1..][i] in s;
      EscapeNoBrace(s[1..]);
    }
  }

  lemma NameNoBrace(name: string)
    requires PlainName(name)
    ensures NoBrace(name)
  {
  }

  lemma FieldNoBrace(f: Field)
    requires PlainName(f.name) && NoBrace(f.value)
    ensures NoBrace(FieldText(f))
  {
    NameNoBrace(f.name);
    EscapeNoBrace(f.value);
  }

  lemma {:induction false} FieldsNoBrace(fs: seq<Field>)
    requires forall i :: 0 <= i < |fs| ==> PlainName(fs[i].name) && NoBrace(fs[i].value)
    ensures NoBrace(FieldsText(fs))
  {
    if fs != [] {
      FieldNoBrace(fs[0]);
      FieldsNoBrace(fs[1..]);
    }
  }

  lemma {:induction false} PairsTextNoBrace(pairs: Pairs)
    requires PairsNoBrace(pairs)
    ensures NoBrace(PairsText(pairs))
    decreases |pairs|
  {
    if pairs != [] {
      EscapeNoBrace(pairs[0].0);
      EscapeNoBrace(pairs[0].1);
      PairsTextNoBrace(pairs[1..]);
    }
  }

  // ---- Where the reader starts ------------------------------------------------

  lemma {:induction false} BraceAfter(gap: string, u: string, i: nat)
    requires NoBrace(gap) && u != "" && u[0] == '{' && i <= |gap|
    ensures Find(gap + u, "{", i) == |gap|
    decreases |gap| - i
  {
    var t := gap + u;
    if i < |gap| {
      assert t[i] == gap[i] && t[i..i + 1][0] == t[i];
      BraceAfter(gap, u, i + 1);
    } else {
      assert t[i..i + 1] == "{";
    }
  }

  /** What is read behind a gap without braces is what is read from the brace on. */
  lemma ReadsBehindGap(s: string, k: string, gap: string, pairs: Pairs, tail: string)
    requires AfterName(s, k) == Some(gap + (MapText(pairs) + tail)) && NoBrace(gap)
    ensures ParseMap(s, k) == AddAll(map[], pairs)
  {
    var u, e := MapText(pairs) + tail, |PairsText(pairs)| + 1;
    BraceAfter(gap, u, 0);
    Behind(gap, u, e + 1);
    MapScanned(pairs, tail);
    BraceSlice(PairsText(pairs), tail);
    EntriesRead(pairs, map[]);
    ParsesObject(s, k, gap, u, e);
  }

  lemma Behind(gap: string, u: string, n: nat)
    requires n <= |u|
    ensures (gap + u)[|gap|..] == u && (gap + u)[|gap|..|gap| + n] == u[0..n]
  {
  }

  lemma ParsesObject(s: string, k: string, gap: string, u: string, e: nat)
    requires AfterName(s, k) == Some(gap + u) && Find(gap + u, "{", 0) == |gap| && e < |u|
    requires (gap + u)[|gap|..] == u && (gap + u)[|gap|..|gap| + e + 1] == u[0..e + 1]
    requires ObjectEnd(u, 0, false, false) == e
    ensures ParseMap(s, k) == Entries(u[0..e + 1][1..], map[])
  {
  }

  lemma FirstAtMost(s: string, needle: string, from: nat, at: nat)
    requires from <= at && OccursAt(s, needle, at)
    ensures from <= Find(s, needle, from) <= at && OccursAt(s, needle, Find(s, needle, from))
  {
    FindIsFirst(s, needle, from);
  }

  lemma ColonOccurs(s: string, colon: nat)
    requires colon < |s| && s[colon] == ':'
    ensures OccursAt(s, ":", colon)
  {
    assert s[colon..colon + 1] == [s[colon]];
  }

  /** The name is first found at or before a place where it stands, and then the next colon at
      or before a colon behind it. */
  lemma StartsWithin(s: string, k: string, at: nat, colon: nat) returns (c: nat)
    requires OccursAt(s, Quote(k), at) && at <= colon < |s| && s[colon] == ':'
    ensures Find(s, Quote(k), 0) <= c <= colon && AfterName(s, k) == Some(s[c + 1..])
  {
    FirstAtMost(s, Quote(k), 0, at);
    ColonOccurs(s, colon);
    FirstAtMost(s, ":", Find(s, Quote(k), 0), colon);
    c := Find(s, ":", Find(s, Quote(k), 0));
  }

  lemma SplitAt(lead: string, rest: string, u: string, q: nat)
    requires |lead| <= q <= |lead + rest|
    ensures (lead + rest + u)[q..] == rest[q - |lead|..] + u
  {
  }

  /** The map is read if the name stands before its brace, and the reader starts where no
      other brace is in between. */
  lemma ReadsNextMap(s: string, k: string, lead: string, rest: string, pairs: Pairs, tail: string, at: nat)
    requires s == lead + rest + (MapText(pairs) + tail) && rest != "" && rest[|rest| - 1] == ':'
    requires OccursAt(s, Quote(k), at) && at < |lead + rest|
    requires NoBrace(rest) && Find(s, Quote(k), 0) >= |lead|
    ensures ParseMap(s, k) == AddAll(map[], pairs)
  {
    var last := |lead + rest| - 1;
    assert s[last] == rest[|rest| - 1];
    var c := StartsWithin(s, k, at, last);
    SplitAt(lead, rest, MapText(pairs) + tail, c + 1);
    ReadsBehindGap(s, k, rest[c + 1 - |lead|..], pairs, tail);
  }

  // ---- The text of a job ------------------------------------------------------

  /** Everything between the opening brace and that of the answers. */
  function BeforeAnswers(j: Job): string {
    FieldsText(Scalars(j)) + "," + Quote("answers") + ":"
  }

  /** Everything between the braces of the two maps. */
  function BeforeIdentity(answers: Pairs): string {
    PairsText(answers) + "}," + Quote("identity_data") + ":"
  }

  lemma AnswersLayout(j: Job, answers: Pairs, identity: Pairs)
    ensures ToJson(j, answers, identity)
            == "{" + BeforeAnswers(j) + (MapText(answers) + ("," + Quote("identity_data") + ":" + MapText(identity) + "}"))
  {
    GlueAnswers(FieldsText(Scalars(j)), Quote("answers"), MapText(answers), Quote("identity_data"), MapText(identity));
  }

  lemma GlueAnswers(scalars: string, n: string, a: string, m: string, b: string)
    ensures "{" + scalars + ("," + n + ":" + a + "," + m + ":" + b + "}")
         == "{" + (scalars + "," + n + ":") + (a + ("," + m + ":" + b + "}"))
  {
  }

  lemma IdentityLayout(j: Job, answers: Pairs, identity: Pairs)
    ensures ToJson(j, answers, identity)
            == ("{" + BeforeAnswers(j) + "{") + BeforeIdentity(answers) + (MapText(identity) + "}")
  {
    GlueIdentity(FieldsText(Scalars(j)), Quote("answers"), PairsText(answers), Quote("identity_data"), MapText(identity));
  }

  lemma GlueIdentity(scalars: string, n: string, a: string, m: string, b: string)
    ensures "{" + scalars + ("," + n + ":" + ("{" + a + "}") + "," + m + ":" + b + "}")
         == ("{" + (scalars + "," + n + ":") + "{") + (a + "}," + m + ":") + (b + "}")
  {
  }

  lemma OpeningsHoldNoBrace(j: Job, answers: Pairs)
    requires FitsInts(j) && HoldsNoBrace(j, answers)
    ensures NoBrace(BeforeAnswers(j)) && NoBrace(BeforeIdentity(answers))
  {
    ScalarsWellFormed(j);
    FieldsNoBrace(Scalars(j));
    PairsTextNoBrace(answers);
    NamesArePlain();
    NameNoBrace("answers");
    NameNoBrace("identity_data");
  }

  /** Where a quoted name stands. */
  lemma NameBehind(pre: string, k: string, u: string)
    ensures OccursAt(pre + Quote(k) + u, Quote(k), |pre|)
  {
    var s := pre + Quote(k) + u;
    assert s[|pre|..|pre| + |Quote(k)|] == Quote(k);
  }

  lemma NotAtBrace(s: string, k: string, at: nat)
    requires s != "" && s[0] == '{' && OccursAt(s, Quote(k), at)
    ensures Find(s, Quote(k), 0) >= 1
  {
    FindIsFirst(s, Quote(k), 0);
    if Find(s, Quote(k), 0) == 0 { NeedleShape(s, k, 0); }
  }

  lemma LastIsColon(a: string, b: string)
    ensures var t := a + b + ":"; t != "" && t[|t| - 1] == ':'
  {
  }

  /** If the name of a map stands anywhere before the answers, the answers are read for it. */
  lemma ReadsAnswers(j: Job, answers: Pairs, identity: Pairs, k: string, at: nat)
    requires FitsInts(j) && HoldsNoBrace(j, answers)
    requires OccursAt(ToJson(j, answers, identity), Quote(k), at) && at < |BeforeAnswers(j)|
    ensures ParseMap(ToJson(j, answers, identity), k) == AddAll(map[], answers)
  {
    var tail := "," + Quote("identity_data") + ":" + MapText(identity) + "}";
    AnswersLayout(j, answers, identity);
    OpeningsHoldNoBrace(j, answers);
    LastIsColon(FieldsText(Scalars(j)) + ",", Quote("answers"));
    NotAtBrace(ToJson(j, answers, identity), k, at);
    ReadsNextMap(ToJson(j, answers, identity), k, "{", BeforeAnswers(j), answers, tail, at);
  }

  lemma NameInFront(pre: string, k: string, u: string, s: string)
    requires s == pre + (Quote(k) + ":") + u
    ensures OccursAt(s, Quote(k), |pre|)
  {
    assert s == pre + Quote(k) + (":" + u);
    NameBehind(pre, k, ":" + u);
  }

  lemma RegroupName(a: string, b: string, n: string, u: string)
    ensures a + (b + n + ":") + u == (a + b) + (n + ":") + u
  {
  }

  lemma AnswersNameAt(j: Job, answers: Pairs, identity: Pairs)
    ensures OccursAt(ToJson(j, answers, identity), Quote("answers"), |"{" + (FieldsText(Scalars(j)) + ",")|)
  {
    var fields := FieldsText(Scalars(j)) + ",";
    var u := MapText(answers) + ("," + Quote("identity_data") + ":" + MapText(identity) + "}");
    AnswersLayout(j, answers, identity);
    RegroupName("{", fields, Quote("answers"), u);
    NameInFront("{" + fields, "answers", u, ToJson(j, answers, identity));
  }

  lemma IdentityNameAt(j: Job, answers: Pairs, identity: Pairs)
    ensures OccursAt(ToJson(j, answers, identity), Quote("identity_data"),
                     |("{" + BeforeAnswers(j) + "{") + (PairsText(answers) + "},")|)
  {
    var lead, body, u := "{" + BeforeAnswers(j) + "{", PairsText(answers) + "},", MapText(identity) + "}";
    IdentityLayout(j, answers, identity);
    RegroupName(lead, body, Quote("identity_data"), u);
    NameInFront(lead + body, "identity_data", u, ToJson(j, answers, identity));
  }

  // ---- Which map is read ------------------------------------------------------

  lemma TokenHoldsName(s: string, k: string, pre: string, c: string, suf: string)
    requires s == pre + (Quote(c) + suf) && EndsWith("\"" + c, "\"" + k)
    ensures |k| <= |c| && OccursAt(s, Quote(k), |pre| + |c| - |k|)
  {
    NameInToken(k, c, suf);
    OccursBehind(pre, Quote(c) + suf, Quote(k), |c| - |k|);
  }

  lemma OccursBehind(pre: string, body: string, needle: string, at: nat)
    requires OccursAt(body, needle, at)
    ensures OccursAt(pre + body, needle, |pre| + at)
  {
    OccursShift(pre, body, needle, |pre| + at);
  }

  /** Where the value of field i stands in the text. */
  lemma ValueAt(fs: seq<Field>, i: nat, rest: string) returns (pre: string, suf: string)
    requires i < |fs| && fs[i].quoted
    ensures "{" + FieldsText(fs) + rest == pre + (Quote(Escape(fs[i].value)) + suf)
    ensures |pre| + |Quote(Escape(fs[i].value))| <= |FieldsText(fs)| + 1
  {
    pre, suf := ("{" + Leading(fs[..i])) + Quote(fs[i].name) + "" + ":", Tail(fs, i, rest);
    LayoutAt(fs, i, rest);
    FieldsSplit(fs, i);
    FieldsFrom(fs, i, "");
  }

  lemma SpoilerAt(j: Job, answers: Pairs, identity: Pairs, k: string, i: nat) returns (at: nat)
    requires FitsInts(j) && i < 9 && PlainName(k) && Spoils(k, Scalars(j)[i])
    ensures OccursAt(ToJson(j, answers, identity), Quote(k), at) && at < |BeforeAnswers(j)|
  {
    var c := Escape(Scalars(j)[i].value);
    var pre, suf := ValueAt(Scalars(j), i, MapsText(answers, identity));
    EscapePoison(k, Scalars(j)[i].value);
    TokenHoldsName(ToJson(j, answers, identity), k, pre, c, suf);
    at := |pre| + |c| - |k|;
  }

  lemma NoEarlierFind(s: string, k: string, lead: string, rest: string, at: nat)
    requires s == lead + rest && Misses(k, lead) && OccursAt(s, Quote(k), at)
    ensures Find(s, Quote(k), 0) >= |lead|
  {
    FindIsFirst(s, Quote(k), 0);
  }

  lemma AnswersOpeningMisses(j: Job, k: string)
    requires FitsInts(j) && k == "identity_data" && ScalarsSpare(j, k)
    ensures Misses(k, "{" + BeforeAnswers(j) + "{")
  {
    var lead, name := "{" + Leading(Scalars(j)), Quote("answers") + [':'];
    NamesArePlain();
    ScalarsMiss(j, k);
    AnswersNameMisses(k);
    MissesConcat(k, lead, name);
    NoQuoteMisses(k, "{");
    MissesConcat(k, lead + name, "{");
    LeadingIsFields(Scalars(j));
    GlueOpening(FieldsText(Scalars(j)), name);
    assert BeforeAnswers(j) == FieldsText(Scalars(j)) + "," + name;
  }

  lemma AnswersNameMisses(k: string)
    requires k == "identity_data"
    ensures Misses(k, Quote("answers") + [':'])
  {
    NamesArePlain();
    NamesDiffer();
    OtherName(k, "answers");
    NameText("answers");
    QuoteMisses(k, "answers", ':');
  }

  lemma GlueOpening(scalars: string, name: string)
    ensures "{" + (scalars + ",") + name + "{" == "{" + (scalars + "," + name) + "{"
  {
  }

  lemma {:induction false} LeadingIsFields(fs: seq<Field>)
    requires fs != []
    ensures Leading(fs) == FieldsText(fs) + ","
  {
    if |fs| == 1 {
      assert fs[1..] == [] && Leading([]) == "";
    } else {
      LeadingIsFields(fs[1..]);
    }
  }

  lemma ReadsIdentity(j: Job, answers: Pairs, identity: Pairs)
    requires FitsInts(j) && HoldsNoBrace(j, answers) && ScalarsSpare(j, "identity_data")
    ensures ParseMap(ToJson(j, answers, identity), "identity_data") == AddAll(map[], identity)
  {
    var k, lead, rest, u := "identity_data", "{" + BeforeAnswers(j) + "{", BeforeIdentity(answers), MapText(identity) + "}";
    var s, at := ToJson(j, answers, identity), |lead + (PairsText(answers) + "},")|;
    IdentityLayout(j, answers, identity);
    IdentityNameAt(j, answers, identity);
    OpeningsHoldNoBrace(j, answers);
    AnswersOpeningMisses(j, k);
    LastIsColon(PairsText(answers) + "},", Quote(k));
    Associate(lead, rest, u);
    NoEarlierFind(s, k, lead, rest + u, at);
    ReadsNextMap(s, k, lead, rest, identity, "}", at);
  }

  /** The identity data are those of the job, unless a scalar is taken for their name: then
      the answers are read instead. */
  lemma IdentityExactly(j: Job, answers: Pairs, identity: Pairs)
    requires FitsInts(j) && HoldsNoBrace(j, answers)
    ensures ParseMap(ToJson(j, answers, identity), "identity_data")
            == AddAll(map[], if ScalarsSpare(j, "identity_data") then identity else answers)
  {
    if ScalarsSpare(j, "identity_data") {
      ReadsIdentity(j, answers, identity);
    } else {
      var i: nat :| i < |Scalars(j)| && Spoils("identity_data", Scalars(j)[i]);
      NamesArePlain();
      var at := SpoilerAt(j, answers, identity, "identity_data", i);
      ReadsAnswers(j, answers, identity, "identity_data", at);
    }
  }

  lemma AnswersExactly(j: Job, answers: Pairs, identity: Pairs)
    requires FitsInts(j) && HoldsNoBrace(j, answers)
    ensures ParseMap(ToJson(j, answers, identity), "answers") == AddAll(map[], answers)
  {
    AnswersNameAt(j, answers, identity);
    ReadsAnswers(j, answers, identity, "answers", |"{" + (FieldsText(Scalars(j)) + ",")|);
  }

  /** A job without opening braces comes back as it was exactly when every scalar is kept, and
      no scalar is taken for the name of the identity data or the two maps are equal. */
  lemma RoundTripExactly(j: Job, answers: Pairs, identity: Pairs)
    requires FitsInts(j) && j.jobId != "" && Lists(answers, j.answers) && Lists(identity, j.identity)
    requires HoldsNoBrace(j, answers)
    ensures FromJson(ToJson(j, answers, identity)) == Some(j)
            <==> AllKept(Scalars(j)) && (ScalarsSpare(j, "identity_data") || j.identity == j.answers)
  {
    ScalarsSurvive(j, answers, identity);
    AnswersExactly(j, answers, identity);
    IdentityExactly(j, answers, identity);
  }

  /** A student called like the map: the answers are stored as the identity data. */
  lemma IdentityTakenFromAnswers(j: Job, answers: Pairs, identity: Pairs)
    requires FitsInts(j) && j.jobId != "" && Lists(answers, j.answers) && HoldsNoBrace(j, answers)
    requires j.studentName == "identity_data"
    ensures var r := FromJson(ToJson(j, answers, identity)); r.Some? && r.value.identity == j.answers
  {
    FieldsAre(j);
    PoisonMeans("identity_data", j.studentName);
    assert Spoils("identity_data", Scalars(j)[2]);
    NoIdNoJob(j, answers, identity);
    IdentityExactly(j, answers, identity);
  }
}
