/**
 Layouts and spellings that `strip_sensitive_keys` does not expect, and what exactly it does
 with them.
 */
module SanitizeDefects {
  import opened JsonText
  import opened Text
  import opened JsonTree
  import opened Sanitize
  import opened SanitizeText
  import opened SanitizeTheorems

  // ---- Which members stay -----------------------------------------------------

  /** What stays of a later member: all of it, with its comma, if there are blanks before its
      colon; otherwise, of the blanks after the comma and the member, all but as many characters
      as the member has. */
  function LeftOfLater(k: string, pre: string, mid: string, text: string): string {
    if mid != "" then "," + pre + text else Shifted(pre, text)
  }

  predicate StaysWhole(left: string, text: string) {
    |text| <= |left| && left[|left| - |text|..] == text
  }

  /** A later member named `k`, whose value holds no such member, stays whole exactly when there
      are blanks before its colon, or at least as many blanks after the comma as the member has
      characters. */
  lemma LaterMemberStays(k: string, done: string, pre: string, mid: string, gap: string, v: Json, post: string,
                         text: string, tail: string)
    requires PlainName(k) && AllBlank(pre) && AllBlank(mid) && AllBlank(gap) && WellFormed(v) && AllBlank(post)
    requires EndsMember(tail) && Closed(done) && !HasMember(k, v) && text == PrintMember(k, mid, gap, Print(v), post)
    ensures Strip(k, done, "," + pre + text + tail) == Strip(k, done + LeftOfLater(k, pre, mid, text), tail)
    ensures StaysWhole(LeftOfLater(k, pre, mid, text), text) <==> mid != "" || |pre| >= |text|
  {
    if mid != "" {
      HiddenLaterMember(k, done, pre, mid, gap, v, post, text, tail);
      WholeAtEnd("," + pre, text);
    } else {
      var left := PassBlanksAndMember(k, done, pre, gap, v, post, tail);
      StaysWhenLong(pre, text);
    }
  }

  lemma StaysWhenLong(pre: string, text: string)
    ensures StaysWhole(Shifted(pre, text), text) <==> |pre| >= |text|
  {
    if |pre| >= |text| {
      ShiftedLong(pre, text);
      WholeAtEnd(pre[|text|..], text);
    }
  }

  lemma HiddenLaterMember(k: string, done: string, pre: string, mid: string, gap: string, v: Json, post: string,
                          text: string, tail: string)
    requires PlainName(k) && AllBlank(pre) && AllBlank(mid) && mid != "" && AllBlank(gap) && WellFormed(v)
    requires AllBlank(post) && EndsMember(tail) && !HasMember(k, v) && text == PrintMember(k, mid, gap, Print(v), post)
    ensures Passes(k, done, "," + pre + text, "," + pre + text, tail)
  {
    RemoveKeeps(k, v);
    NoMemberIsTidy(k, v);
    BlankBeforeColonHides(k, done, false, pre, mid, gap, v, post, tail);
    HiddenText(",", pre, Quote(k) + mid + ":", BodyText(gap, Print(v), post));
    MemberIsHeadAndBody(k, mid, gap, Print(v), post);
  }

  lemma WholeAtEnd(a: string, text: string)
    ensures StaysWhole(a + text, text)
  {
  }

  lemma HiddenText(comma: string, pre: string, head: string, body: string)
    ensures comma + pre + head + body == comma + pre + (head + body)
  {
  }

  /** Blanks before the colon hide any member from the search; only its value is stripped. */
  lemma BlankBeforeColonHides(k: string, done: string, first: bool, pre: string, mid: string, gap: string, v: Json,
                              post: string, tail: string)
    requires PlainName(k) && AllBlank(pre) && AllBlank(mid) && mid != "" && AllBlank(gap) && WellFormed(v)
    requires AllBlank(post) && EndsMember(tail) && Tidy(k, v)
    ensures var head := Comma(first) + pre + (Quote(k) + mid + ":");
            Passes(k, done, head + BodyText(gap, Print(v), post), head + BodyText(gap, Print(Remove(k, v)), post), tail)
  {
    var lead, name := Comma(first) + pre, Quote(k) + mid + ":";
    var body := BodyText(gap, Print(v), post);
    PlainWellEscaped(k);
    PassPlain(k, done, lead, name + (body + tail));
    PassName(k, done + lead, k, mid, body + tail);
    PassBoth(k, done, lead, lead, name, name, body + tail);
    var left := PassBody(k, done + (lead + name), gap, v, post, tail);
    PassBoth(k, done, lead + name, lead + name, body, left, tail);
  }

  /** An object whose last member is named `k`, after members that hold no such name. */
  function WithLast(blank: string, ms: Members, last: string): string {
    "{" + blank + PrintMembers(ms, true) + last + "}"
  }

  /** With blanks after its comma, that member stays in part, or whole. */
  lemma LastMemberStays(k: string, blank: string, ms: Members, pre: string, gap: string, v: Json, post: string, text: string)
    requires PlainName(k) && AllBlank(blank) && WellFormedMembers(ms) && ms.Member? && !MembersHave(k, ms)
    requires AllBlank(pre) && AllBlank(gap) && WellFormed(v) && AllBlank(post) && !HasMember(k, v)
    requires text == PrintMember(k, "", gap, Print(v), post)
    ensures Strip(k, "", WithLast(blank, ms, "," + pre + text)) == WithLast(blank, ms, Shifted(pre, text))
    ensures StaysWhole(Shifted(pre, text), text) <==> |pre| >= |text|
  {
    var open, body, last := "{" + blank, PrintMembers(ms, true), "," + pre + text;
    PassPlain(k, "", open, body + (last + "}"));
    var r := PassKeptMember(k, open, ms, true, last + "}");
    RemoveMembersKeeps(k, ms);
    NoMemberMembersTidy(k, ms, true);
    LaterMemberStays(k, open + body, pre, "", gap, v, post, text, "}");
    StripLastBrace(k, open + body + Shifted(pre, text));
    Unroll(k, open, body, last, Shifted(pre, text), "}");
  }

  lemma StripLastBrace(k: string, done: string)
    ensures Strip(k, done, "}") == done + "}"
  {
    PassPlain(k, done, "}", "");
    assert "}" + "" == "}";
  }

  lemma Unroll(k: string, open: string, body: string, last: string, left: string, close: string)
    requires Passes(k, "", open, open, body + (last + close)) && Passes(k, open, body, body, last + close)
    requires Strip(k, open + body, last + close) == Strip(k, open + body + left, close) == open + body + left + close
    ensures Strip(k, "", open + body + last + close) == open + body + left + close
  {
    assert "" + open == open;
    AssociateAll(open, body, last, close);
  }

  /** A question printed with a line break and eight blanks before its key is served with it:
      two of the blanks and the whole member stay. */
  lemma KeyIsServed()
    ensures Strip("key", "", "{" + "\"a\":1" + ",\n        \"key\":1" + "}") == "{" + "\"a\":1" + "  \"key\":1" + "}"
  {
    QuestionText();
    ServedText();
    LastMemberStays("key", "", FirstMember(), "\n        ", "", Scalar("1"), "", "\"key\":1");
  }

  function FirstMember(): Members {
    Member("", "a", "", "", Scalar("1"), "", NoMembers)
  }

  lemma ServedText()
    ensures Shifted("\n        ", "\"key\":1") == "  \"key\":1" && "{" + "" == "{"
    ensures "," + "\n        " + "\"key\":1" == ",\n        \"key\":1"
  {
  }

  lemma QuestionText()
    ensures PrintMember("key", "", "", "1", "") == "\"key\":1"
    ensures PrintMembers(FirstMember(), true) == "\"a\":1" && WellFormedMembers(FirstMember())
    ensures !MembersHave("key", FirstMember())
    ensures !HasMember("key", Scalar("1"))
  {
    PlainWellEscaped("a");
    assert "" + "" + PrintMember("a", "", "", "1", "") + "" == "\"a\":1";
  }

  /** With one blank after the comma the last character of a number that should go stays, right
      behind the value before it: `{"a":1, "key":23}` becomes `{"a":13}`. */
  lemma ValuesRunTogether(k: string, done: string, word: string)
    requires PlainName(k) && PlainWord(word) && Closed(done)
    ensures Strip(k, done, "," + " " + PrintMember(k, "", "", word, "") + "}") == done + ([word[|word| - 1]] + "}")
  {
    var text := PrintMember(k, "", "", word, "");
    var end := [word[|word| - 1]];
    LastCharacter(k, word);
    LaterMemberStays(k, done, " ", "", "", Scalar(word), "", text, "}");
    PassPlain(k, done + end, "}", "");
    assert "}" + "" == "}" && done + end + "}" == done + (end + "}");
  }

  lemma LastCharacter(k: string, word: string)
    requires word != ""
    ensures var text := PrintMember(k, "", "", word, ""); Shifted(" ", text) == [word[|word| - 1]]
  {
  }

  // ---- Other spellings --------------------------------------------------------

  const SPELLING := "k\\u0065y"

  lemma SpellingMeansKey()
    ensures Unescape(SPELLING) == "key"
  {
    var rest := SPELLING[1..];
    assert rest[2..6] == "0065" && rest[6..] == "y";
    assert UnicodeEscapeAt(rest);
    assert Hex4("0065") == 0x65 && Utf8(0x65) == "e";
    assert Unescape("y") == "y";
    assert Unescape(rest) == "ey";
  }

  lemma SpellingWellEscaped()
    ensures WellEscaped(SPELLING)
  {
    var rest := SPELLING[1..];
    PlainWellEscaped("0065y");
    assert rest[0] == '\\' && rest[2..] == "0065y";
    assert WellEscaped(rest);
  }

  function OneMember(name: string, c: string): Json {
    Object("", Member("", name, "", "", Str(c), "", NoMembers))
  }

  lemma OnlyMember(n: string, name: string, c: string)
    ensures HasMember(n, OneMember(name, c)) <==> name == n
    ensures WellEscaped(name) && WellEscaped(c) ==> WellFormed(OneMember(name, c))
  {
    var t := OneMember(name, c);
    assert !HasMember(n, Str(c)) && !MembersHave(n, NoMembers);
    assert HasMember(n, t) == MembersHave(n, t.members);
    assert WellFormedMembers(NoMembers) && WellFormed(t) == WellFormedMembers(t.members);
  }

  lemma OtherNameStays(name: string, c: string)
    requires WellEscaped(name) && WellEscaped(c) && name != "key" && name != "answer"
    ensures StripSensitive(Print(OneMember(name, c))) == Print(OneMember(name, c))
  {
    OnlyMember("key", name, c);
    OnlyMember("answer", name, c);
    StripSensitiveKeepsTheRest(OneMember(name, c));
  }

  lemma SpellingDiffers()
    ensures SPELLING != "key" && SPELLING != "answer"
  {
    assert |SPELLING| == 8;
  }

  /** Another spelling of the name hides it as well: the member is called `key` and stays. */
  lemma EscapedSpellingStays(c: string)
    requires WellEscaped(c)
    ensures Unescape(SPELLING) == "key"
    ensures StripSensitive(Print(OneMember(SPELLING, c))) == Print(OneMember(SPELLING, c))
  {
    SpellingMeansKey();
    SpellingWellEscaped();
    SpellingDiffers();
    OtherNameStays(SPELLING, c);
  }

  // ---- Both passes ------------------------------------------------------------

  /** An answer that holds a key with blanks before its colon. */
  function HiddenInside(mid: string, word: string): string {
    "{" + (Quote("answer") + ":") + "{" + (Quote("key") + mid + ":" + word) + "}}"
  }

  function Single(name: string, mid: string, v: Json): Json {
    Object("", Member("", name, mid, "", v, "", NoMembers))
  }

  function HiddenTree(mid: string, word: string): Json {
    Single("answer", "", Single("key", mid, Scalar(word)))
  }

  lemma SingleText(name: string, mid: string, v: Json, text: string)
    requires text == Print(v)
    ensures Print(Single(name, mid, v)) == "{" + (Quote(name) + mid + ":" + text) + "}"
  {
    var ms := Member("", name, mid, "", v, "", NoMembers);
    EmptyPieces(Quote(name), mid, text);
    assert PrintMembers(NoMembers, false) == "";
    assert PrintMembers(ms, true) == "" + "" + (Quote(name) + mid + ":" + "" + text + "") + "";
  }

  lemma EmptyPieces(name: string, mid: string, text: string)
    ensures "" + "" + (name + mid + ":" + "" + text + "") + "" == name + mid + ":" + text
    ensures "{" + "" + (name + mid + ":" + text) + "}" == "{" + (name + mid + ":" + text) + "}"
  {
  }

  lemma SingleForms(name: string, mid: string, v: Json)
    requires PlainName(name) && AllBlank(mid) && WellFormed(v)
    ensures WellFormed(Single(name, mid, v)) && (mid == "" ==> Tidy(name, Single(name, mid, v)))
  {
    PlainWellEscaped(name);
    assert WellFormedMembers(NoMembers) && TidyMembers(name, NoMembers, true);
  }

  lemma SingleRemoved(k: string, name: string, mid: string, v: Json)
    ensures Remove(k, Single(name, mid, v)) == if k == name then Object("", NoMembers) else Single(name, mid, Remove(k, v))
    ensures k == name ==> Print(Remove(k, Single(name, mid, v))) == "{}"
  {
    var ms := Member("", name, mid, "", v, "", NoMembers);
    assert RemoveMembers(k, NoMembers) == NoMembers && LeadingBlanks(k, NoMembers) == "";
    assert RemoveMembers(k, ms) == if k == name then NoMembers else Member("", name, mid, "", Remove(k, v), "", NoMembers);
    assert LeadingBlanks(k, ms) == "";
    assert PrintMembers(NoMembers, true) == "";
  }

  lemma HiddenTreeText(mid: string, word: string)
    requires AllBlank(mid) && PlainWord(word)
    ensures Print(HiddenTree(mid, word)) == HiddenInside(mid, word) && WellFormed(HiddenTree(mid, word))
    ensures Tidy("answer", HiddenTree(mid, word)) && Print(Remove("answer", HiddenTree(mid, word))) == "{}"
  {
    var inner := Single("key", mid, Scalar(word));
    var key := Quote("key") + mid + ":" + word;
    SingleText("key", mid, Scalar(word), word);
    SingleText("answer", "", inner, "{" + key + "}");
    SingleForms("key", mid, Scalar(word));
    SingleForms("answer", "", inner);
    SingleRemoved("answer", "answer", "", inner);
    HiddenPieces(Quote("answer"), key);
  }

  lemma HiddenPieces(name: string, key: string)
    ensures "{" + (name + "" + ":" + ("{" + key + "}")) + "}" == "{" + (name + ":") + "{" + key + "}}"
  {
  }

  lemma HiddenStays(mid: string, word: string)
    requires AllBlank(mid) && mid != "" && PlainWord(word)
    ensures Strip("key", "", HiddenInside(mid, word)) == HiddenInside(mid, word)
  {
    var k, name, key := "key", Quote("answer") + ":", Quote("key") + mid + ":" + word;
    PlainWellEscaped("answer");
    PassPlain(k, "", "{", name + ("{" + (key + "}}")));
    NameAndColon(Quote("answer"));
    PassName(k, "" + "{", "answer", "", "{" + (key + "}}"));
    PassPlain(k, "" + "{" + name, "{", key + "}}");
    BlankBeforeColonHides(k, "" + "{" + name + "{", true, "", mid, "", Scalar(word), "", "}}");
    KeyText(mid, word);
    StripBraces(k, "" + "{" + name + "{" + key);
    Chain(k, "{", name, "{", key, "}}");
  }

  lemma NameAndColon(name: string)
    ensures name + "" + ":" == name + ":"
  {
  }

  /** Four pieces, passed one after the other. */
  lemma Chain(k: string, a: string, b: string, c: string, d: string, e: string)
    requires Passes(k, "", a, a, b + (c + (d + e))) && Passes(k, "" + a, b, b, c + (d + e))
    requires Passes(k, "" + a + b, c, c, d + e) && Passes(k, "" + a + b + c, d, d, e)
    requires Strip(k, "" + a + b + c + d, e) == "" + a + b + c + d + e
    ensures Strip(k, "", a + b + c + d + e) == a + b + c + d + e
  {
    Regroup(a, b, c, d, e);
  }

  lemma Regroup(a: string, b: string, c: string, d: string, e: string)
    ensures a + b + c + d + e == a + (b + (c + (d + e)))
    ensures "" + a + b + c + d + e == a + b + c + d + e
  {
  }

  lemma KeyText(mid: string, word: string)
    ensures Comma(true) + "" + (Quote("key") + mid + ":") + BodyText("", word, "") == Quote("key") + mid + ":" + word
  {
  }

  lemma StripBraces(k: string, done: string)
    ensures Strip(k, done, "}}") == done + "}}"
  {
    PassPlain(k, done, "}}", "");
    assert "}}" + "" == "}}";
  }

  /** A key that the first pass misses can still go with the answer around it: the first layout
      need not be tidy for both passes together to be exact. */
  lemma HiddenKeyGoesWithAnswer(mid: string, word: string)
    requires AllBlank(mid) && mid != "" && PlainWord(word)
    ensures Strip("key", "", HiddenInside(mid, word)) == HiddenInside(mid, word)
    ensures StripSensitive(HiddenInside(mid, word)) == "{}" == Print(WithoutAnswers(HiddenTree(mid, word)))
  {
    var t := HiddenTree(mid, word);
    HiddenStays(mid, word);
    HiddenTreeText(mid, word);
    StripExactly("answer", "", t, "");
    assert "" + Print(t) + "" == Print(t) && "" + "{}" + "" == "{}";
    SingleRemoved("key", "answer", "", Single("key", mid, Scalar(word)));
    SingleRemoved("answer", "answer", "", Remove("key", Single("key", mid, Scalar(word))));
  }
}
