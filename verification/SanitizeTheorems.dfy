/**
 What `strip_sensitive_keys` does to JSON: on the text of a tree it yields the text of the
 tree with the members removed, exactly when no member it must find or erase has blanks
 where the code does not expect them. Otherwise something is left that should be gone.
 */
module SanitizeTheorems {
  import opened JsonText
  import opened Text
  import opened JsonTree
  import opened Sanitize
  import opened SanitizeText

  // ---- Where blanks matter ----------------------------------------------------

  /** Nothing the pass for `k` has to find or erase has blanks in the wrong place: a member
      spelled `k` has none before its colon, and none after its comma when an earlier
      member of its object stays. */
  predicate Tidy(k: string, t: Json) {
    match t
    case Str(_) => true
    case Scalar(_) => true
    case Array(_, items) => TidyItems(k, items)
    case Object(_, members) => TidyMembers(k, members, true)
  }

  predicate TidyItems(k: string, items: Items) {
    match items
    case NoItems => true
    case Item(_, v, _, rest) => Tidy(k, v) && TidyItems(k, rest)
  }

  predicate TidyMembers(k: string, ms: Members, first: bool) {
    match ms
    case NoMembers => true
    case Member(pre, name, mid, _, v, _, rest) =>
      if name == k then mid == "" && (first || pre == "") && TidyMembers(k, rest, first)
      else Tidy(k, v) && TidyMembers(k, rest, false)
  }

  lemma {:induction false} CompactIsTidy(k: string, t: Json)
    requires Compact(t)
    ensures Tidy(k, t)
  {
    match t
    case Str(_) =>
    case Scalar(_) =>
    case Array(_, items) => CompactItemsAreTidy(k, items);
    case Object(_, members) => CompactMembersAreTidy(k, members, true);
  }

  lemma {:induction false} CompactItemsAreTidy(k: string, items: Items)
    requires CompactItems(items)
    ensures TidyItems(k, items)
  {
    if items.Item? {
      CompactIsTidy(k, items.value);
      CompactItemsAreTidy(k, items.rest);
    }
  }

  lemma {:induction false} CompactMembersAreTidy(k: string, ms: Members, first: bool)
    requires CompactMembers(ms)
    ensures TidyMembers(k, ms, first)
  {
    if ms.Member? {
      CompactIsTidy(k, ms.value);
      CompactMembersAreTidy(k, ms.rest, first);
      CompactMembersAreTidy(k, ms.rest, false);
    }
  }

  // ---- Comparing what is left with what should be ------------------------------

  /** How many characters are not blank. */
  function Inked(s: string): nat {
    if s == "" then 0 else (if IsBlank(s[0]) then 0 else 1) + Inked(s[1..])
  }

  lemma {:induction false} InkedBoth(a: string, b: string)
    ensures Inked(a + b) == Inked(a) + Inked(b)
  {
    if a == "" {
      assert a + b == b;
    } else {
      assert (a + b)[1..] == a[1..] + b;
      InkedBoth(a[1..], b);
    }
  }

  lemma {:induction false} InkedBlank(blanks: string)
    requires AllBlank(blanks)
    ensures Inked(blanks) == 0
  {
    if blanks != "" {
      InkedBlank(blanks[1..]);
    }
  }

  /** More characters that are not blank, or as many and more blanks. */
  predicate Beyond(r: string, e: string) {
    Inked(r) > Inked(e) || (Inked(r) == Inked(e) && |r| > |e|)
  }

  /** What is left is what should be when the layout is tidy, and more when it is not. */
  predicate Outcome(r: string, e: string, tidy: bool) {
    if tidy then r == e else Beyond(r, e)
  }

  lemma OutcomeBoth(a: string, ea: string, ta: bool, b: string, eb: string, tb: bool)
    requires Outcome(a, ea, ta) && Outcome(b, eb, tb)
    ensures Outcome(a + b, ea + eb, ta && tb)
  {
    InkedBoth(a, b);
    InkedBoth(ea, eb);
  }

  /** The same with fixed text around it. */
  lemma OutcomeInside(a: string, r: string, e: string, tidy: bool, b: string)
    requires Outcome(r, e, tidy)
    ensures Outcome(a + r + b, a + e + b, tidy)
  {
    OutcomeBoth(a, a, true, r, e, tidy);
    OutcomeBoth(a + r, a + e, tidy, b, b, true);
  }

  // ---- Pieces -----------------------------------------------------------------

  /** Ends in a character a value can end in. */
  predicate EndsValue(r: string) {
    r != "" && !IsBlank(r[|r| - 1]) && r[|r| - 1] != ',' && r[|r| - 1] != '{'
  }

  lemma ClosedAfterValue(done: string, r: string)
    requires EndsValue(r)
    ensures Closed(done + r)
  {
    assert (done + r)[|done + r| - 1] == r[|r| - 1];
    BeforeOfNonBlank(done + r);
  }

  lemma ClosedAfterBlanks(done: string, blanks: string)
    requires Closed(done) && AllBlank(blanks)
    ensures Closed(done + blanks)
  {
    BeforeSkipsBlanks(done, blanks);
    BeforeIsPrefix(done);
    BeforeIsPrefix(done + blanks);
  }

  lemma BeforeIsPrefix(done: string)
    ensures Before(done) <= |done|
  {
  }

  /** What can follow a member. */
  predicate EndsMember(suf: string) {
    suf != "" && (suf[0] == ',' || suf[0] == '}')
  }

  /** A bracketed text, given how its inside passes. */
  lemma PassContainer(k: string, done: string, open: string, blank: string, body: string, body': string,
                      close: string, suf: string)
    requires open in {"[", "{"} && close in {"]", "}"} && AllBlank(blank)
    requires Passes(k, done + (open + blank), body, body', close + suf)
    ensures Passes(k, done, open + blank + body + close, open + blank + body' + close, suf)
  {
    PassPlain(k, done, open + blank, body + (close + suf));
    PassBoth(k, done, open + blank, open + blank, body, body', close + suf);
    PassPlain(k, done + (open + blank + body'), close, suf);
    PassBoth(k, done, open + blank + body, open + blank + body', close, close, suf);
  }

  /** What a pass leaves of a text. */
  ghost predicate Leaves(k: string, done: string, text: string, r: string, suf: string) {
    Passes(k, done, text, r, suf) && Closed(done + r)
  }

  lemma LeaveBoth(k: string, done: string, a: string, ra: string, b: string, rb: string, suf: string)
    requires Passes(k, done, a, ra, b + suf) && Leaves(k, done + ra, b, rb, suf)
    ensures Leaves(k, done, a + b, ra + rb, suf)
  {
    PassBoth(k, done, a, ra, b, rb, suf);
    Associate(done, ra, rb);
  }

  lemma LeaveBlanks(k: string, done: string, blanks: string, suf: string)
    requires AllBlank(blanks) && Closed(done)
    ensures Leaves(k, done, blanks, blanks, suf)
  {
    PassPlain(k, done, blanks, suf);
    ClosedAfterBlanks(done, blanks);
  }

  lemma LeaveNothing(k: string, done: string, suf: string)
    requires Closed(done)
    ensures Leaves(k, done, "", "", suf)
  {
    LeaveBlanks(k, done, "", suf);
  }

  /** What is left of an object's members, with the blanks that stay in front of them. */
  function KeptText(k: string, ms: Members): string {
    LeadingBlanks(k, ms) + PrintMembers(RemoveMembers(k, ms), true)
  }

  lemma KeptTextUnfolds(k: string, ms: Members)
    ensures ms.NoMembers? ==> KeptText(k, ms) == ""
    ensures ms.Member? && ms.name == k ==> KeptText(k, ms) == ms.pre + KeptText(k, ms.rest)
    ensures ms.Member? && ms.name != k ==> KeptText(k, ms) == PrintMembers(RemoveMembers(k, ms), true)
  {
    if ms.Member? && ms.name == k {
      assert ms.pre + LeadingBlanks(k, ms.rest) + PrintMembers(RemoveMembers(k, ms.rest), true)
          == ms.pre + KeptText(k, ms.rest);
    }
  }

  lemma KeptTextOfObject(k: string, blank: string, members: Members)
    ensures Print(Remove(k, Object(blank, members))) == "{" + blank + KeptText(k, members) + "}"
  {
    var body' := PrintMembers(RemoveMembers(k, members), true);
    assert "{" + (blank + LeadingBlanks(k, members)) + body' + "}"
        == "{" + blank + (LeadingBlanks(k, members) + body') + "}";
  }

  lemma InkedOfKept(k: string, ms: Members)
    requires WellFormedMembers(ms)
    ensures Inked(KeptText(k, ms)) <= Inked(PrintMembers(RemoveMembers(k, ms), false))
  {
    RemoveMembersWellFormed(k, ms);
    InkedBoth(LeadingBlanks(k, ms), PrintMembers(RemoveMembers(k, ms), true));
    InkedBlank(LeadingBlanks(k, ms));
    if RemoveMembers(k, ms).Member? {
      CommaFirst(RemoveMembers(k, ms));
      InkedBoth(",", PrintMembers(RemoveMembers(k, ms), true));
    }
  }

  lemma FirstMemberText(ms: Members, suf: string)
    requires ms.Member? && ms.mid == ""
    ensures PrintMembers(ms, true) + suf
         == ms.pre + (PrintMember(ms.name, "", ms.gap, Print(ms.value), ms.post) + (PrintMembers(ms.rest, false) + suf))
  {
    var text := PrintMember(ms.name, "", ms.gap, Print(ms.value), ms.post);
    assert PrintMembers(ms, true) == ms.pre + text + PrintMembers(ms.rest, false);
    Associate(ms.pre + text, PrintMembers(ms.rest, false), suf);
    Associate(ms.pre, text, PrintMembers(ms.rest, false) + suf);
  }

  lemma PassErasedFirst(k: string, done: string, ms: Members, suf: string)
    requires PlainName(k) && WellFormedMembers(ms) && suf != "" && suf[0] == '}' && EndsOpen(done)
    requires ms.Member? && ms.name == k && ms.mid == ""
    ensures EndsOpen(done + ms.pre)
    ensures Strip(k, done, PrintMembers(ms, true) + suf) == Strip(k, done + ms.pre, PrintMembers(ms.rest, true) + suf)
  {
    var text := PrintMember(k, "", ms.gap, Print(ms.value), ms.post);
    var tail := PrintMembers(ms.rest, false) + suf;
    FirstMemberText(ms, suf);
    PassPlain(k, done, ms.pre, text + tail);
    BeforeSkipsBlanks(done, ms.pre);
    FirstOfRest(ms.rest, suf);
    EraseFirst(k, done + ms.pre, ms.gap, ms.value, ms.post, tail);
  }

  // ---- The pass over a tree ---------------------------------------------------

  lemma {:induction false} PassValue(k: string, done: string, t: Json, suf: string) returns (r: string)
    requires PlainName(k) && WellFormed(t) && Delimited(suf)
    ensures Leaves(k, done, Print(t), r, suf) && EndsValue(r) && Outcome(r, Print(Remove(k, t)), Tidy(k, t))
    decreases t, 1
  {
    match t
    case Str(c) =>
      PassToken(k, done, c, suf);
      r := Quote(c);
    case Scalar(w) =>
      PassPlain(k, done, w, suf);
      r := w;
    case Array(blank, items) => r := PassArray(k, done, blank, items, suf);
    case Object(blank, members) => r := PassObject(k, done, blank, members, suf);
    ClosedAfterValue(done, r);
  }

  lemma {:induction false} PassArray(k: string, done: string, blank: string, items: Items, suf: string) returns (r: string)
    requires PlainName(k) && AllBlank(blank) && WellFormedItems(items)
    ensures Passes(k, done, Print(Array(blank, items)), r, suf) && EndsValue(r)
    ensures Outcome(r, Print(Remove(k, Array(blank, items))), TidyItems(k, items))
    decreases items, 1
  {
    var body := PassItems(k, done + ("[" + blank), items, true, "]" + suf);
    PassContainer(k, done, "[", blank, PrintItems(items, true), body, "]", suf);
    OutcomeInside("[" + blank, body, PrintItems(RemoveItems(k, items), true), TidyItems(k, items), "]");
    r := "[" + blank + body + "]";
  }

  lemma {:induction false} PassObject(k: string, done: string, blank: string, ms: Members, suf: string) returns (r: string)
    requires PlainName(k) && AllBlank(blank) && WellFormedMembers(ms)
    ensures Passes(k, done, Print(Object(blank, ms)), r, suf) && EndsValue(r)
    ensures Outcome(r, Print(Remove(k, Object(blank, ms))), TidyMembers(k, ms, true))
    decreases ms, 2
  {
    OpensObject(done, blank);
    var body := PassFirstMembers(k, done + ("{" + blank), ms, "}" + suf);
    PassContainer(k, done, "{", blank, PrintMembers(ms, true), body, "}", suf);
    OutcomeInside("{" + blank, body, KeptText(k, ms), TidyMembers(k, ms, true), "}");
    KeptTextOfObject(k, blank, ms);
    r := "{" + blank + body + "}";
  }

  lemma OpensObject(done: string, blank: string)
    requires AllBlank(blank)
    ensures EndsOpen(done + ("{" + blank))
  {
    assert done + ("{" + blank) == (done + "{") + blank;
    BeforeOfNonBlank(done + "{");
    BeforeSkipsBlanks(done + "{", blank);
  }

  lemma {:induction false} PassItems(k: string, done: string, items: Items, first: bool, suf: string) returns (r: string)
    requires PlainName(k) && WellFormedItems(items) && suf != "" && suf[0] == ']'
    ensures Passes(k, done, PrintItems(items, first), r, suf)
    ensures Outcome(r, PrintItems(RemoveItems(k, items), first), TidyItems(k, items))
    decreases items, 0
  {
    match items
    case NoItems =>
      PassPlain(k, done, "", suf);
      r := "";
    case Item(pre, v, post, rest) =>
      var a, b, c, d := Comma(first) + pre, Print(v), post, PrintItems(rest, false);
      PassPlain(k, done, a, b + (c + (d + suf)));
      var b' := PassValue(k, done + a, v, c + (d + suf));
      PassBoth(k, done, a, a, b, b', c + (d + suf));
      PassPlain(k, done + (a + b'), c, d + suf);
      PassBoth(k, done, a + b, a + b', c, c, d + suf);
      var d' := PassItems(k, done + (a + b' + c), rest, false, suf);
      PassBoth(k, done, a + b + c, a + b' + c, d, d', suf);
      OutcomeInside(a, b', Print(Remove(k, v)), Tidy(k, v), c);
      OutcomeBoth(a + b' + c, a + Print(Remove(k, v)) + c, Tidy(k, v),
                  d', PrintItems(RemoveItems(k, rest), false), TidyItems(k, rest));
      r := a + b' + c + d';
  }

  /** From a member's colon on. */
  function BodyText(gap: string, value: string, post: string): string {
    gap + value + post
  }

  lemma {:induction false} PassBody(k: string, done: string, gap: string, v: Json, post: string, suf: string)
      returns (r: string)
    requires PlainName(k) && AllBlank(gap) && WellFormed(v) && AllBlank(post) && EndsMember(suf)
    ensures Leaves(k, done, BodyText(gap, Print(v), post), r, suf) && r != ""
    ensures Outcome(r, BodyText(gap, Print(Remove(k, v)), post), Tidy(k, v))
    decreases v, 2
  {
    PassPlain(k, done, gap, Print(v) + (post + suf));
    var v' := PassValue(k, done + gap, v, post + suf);
    LeaveBoth(k, done, gap, gap, Print(v), v', post + suf);
    LeaveBlanks(k, done + (gap + v'), post, suf);
    LeaveBoth(k, done, gap + Print(v), gap + v', post, post, suf);
    OutcomeInside(gap, v', Print(Remove(k, v)), Tidy(k, v), post);
    r := gap + v' + post;
  }

  /** The members of an object while none of the earlier ones stays. */
  lemma {:induction false} PassFirstMembers(k: string, done: string, ms: Members, suf: string) returns (r: string)
    requires PlainName(k) && WellFormedMembers(ms) && suf != "" && suf[0] == '}' && EndsOpen(done)
    ensures Passes(k, done, PrintMembers(ms, true), r, suf)
    ensures Outcome(r, KeptText(k, ms), TidyMembers(k, ms, true))
    decreases ms, 1
  {
    KeptTextUnfolds(k, ms);
    if ms.NoMembers? {
      PassPlain(k, done, "", suf);
      r := "";
    } else if ms.name == k && ms.mid == "" {
      PassErasedFirst(k, done, ms, suf);
      var rest := PassFirstMembers(k, done + ms.pre, ms.rest, suf);
      Associate(done, ms.pre, rest);
      OutcomeBoth(ms.pre, ms.pre, true, rest, KeptText(k, ms.rest), TidyMembers(k, ms.rest, true));
      r := ms.pre + rest;
    } else {
      r := PassKeptMember(k, done, ms, true, suf);
      if ms.name == k { HiddenIsBeyond(k, ms, true, r); }
    }
  }

  /** The members of an object once one of the earlier ones stays. */
  lemma {:induction false} PassLaterMembers(k: string, done: string, ms: Members, suf: string) returns (r: string)
    requires PlainName(k) && WellFormedMembers(ms) && EndsMember(suf) && Closed(done)
    ensures Leaves(k, done, PrintMembers(ms, false), r, suf)
    ensures Outcome(r, PrintMembers(RemoveMembers(k, ms), false), TidyMembers(k, ms, false))
    decreases ms, 1
  {
    if ms.NoMembers? {
      LeaveNothing(k, done, suf);
      r := "";
    } else if ms.name == k && ms.mid == "" {
      var tail := PrintMembers(ms.rest, false) + suf;
      EndOfRest(ms.rest, suf);
      var left := PassBlanksAndMember(k, done, ms.pre, ms.gap, ms.value, ms.post, tail);
      var rest := PassLaterMembers(k, done + left, ms.rest, suf);
      LaterMemberText(k, ms, suf);
      LeaveBoth(k, done, "," + ms.pre + MemberText(k, ms), left, PrintMembers(ms.rest, false), rest, suf);
      var e := PrintMembers(RemoveMembers(k, ms.rest), false);
      OutcomeBoth(left, "", ms.pre == "", rest, e, TidyMembers(k, ms.rest, false));
      assert "" + e == e;
      r := left + rest;
    } else {
      r := PassKeptMember(k, done, ms, false, suf);
      if ms.name == k { HiddenIsBeyond(k, ms, false, r); }
    }
  }

  function MemberText(k: string, ms: Members): string
    requires ms.Member?
  {
    PrintMember(k, "", ms.gap, Print(ms.value), ms.post)
  }

  lemma LaterMemberText(k: string, ms: Members, suf: string)
    requires ms.Member? && ms.name == k && ms.mid == ""
    ensures PrintMembers(ms, false) == "," + ms.pre + MemberText(k, ms) + PrintMembers(ms.rest, false)
  {
  }

  lemma EndOfRest(rest: Members, suf: string)
    requires EndsMember(suf)
    ensures EndsMember(PrintMembers(rest, false) + suf)
  {
    if rest.Member? {
      CommaFirst(rest);
    }
  }

  /** A member that is not found is more than nothing. */
  lemma HiddenIsBeyond(k: string, ms: Members, first: bool, r: string)
    requires WellFormedMembers(ms) && ms.Member? && ms.name == k
    requires Inked(r) > Inked(PrintMembers(RemoveMembers(k, ms.rest), false))
    ensures first ==> Beyond(r, KeptText(k, ms))
    ensures !first ==> Beyond(r, PrintMembers(RemoveMembers(k, ms), false))
  {
    KeptTextUnfolds(k, ms);
    InkedOfKept(k, ms.rest);
    InkedBoth(ms.pre, KeptText(k, ms.rest));
    InkedBlank(ms.pre);
  }

  /** A member that stays, and the members after it. */
  lemma {:induction false} PassKeptMember(k: string, done: string, ms: Members, first: bool, suf: string)
      returns (r: string)
    requires PlainName(k) && WellFormedMembers(ms) && EndsMember(suf)
    requires ms.Member? && (ms.name != k || ms.mid != "")
    ensures Leaves(k, done, PrintMembers(ms, first), r, suf)
    ensures ms.name != k ==> Outcome(r, PrintMembers(RemoveMembers(k, ms), first), TidyMembers(k, ms, first))
    ensures ms.name == k ==> Inked(r) > Inked(PrintMembers(RemoveMembers(k, ms.rest), false))
    decreases ms, 0
  {
    var a, b := Comma(first) + ms.pre, Quote(ms.name) + ms.mid + ":";
    var c, f := BodyText(ms.gap, Print(ms.value), ms.post), PrintMembers(ms.rest, false);
    PassPlain(k, done, a, b + (c + (f + suf)));
    PassName(k, done + a, ms.name, ms.mid, c + (f + suf));
    PassBoth(k, done, a, a, b, b, c + (f + suf));
    EndOfRest(ms.rest, suf);
    var c' := PassBody(k, done + (a + b), ms.gap, ms.value, ms.post, f + suf);
    LeaveBoth(k, done, a + b, a + b, c, c', f + suf);
    var f' := PassLaterMembers(k, done + (a + b + c'), ms.rest, suf);
    LeaveBoth(k, done, a + b + c, a + b + c', f, f', suf);
    MemberIs(ms, first);
    r := a + b + c' + f';
    KeptOutcome(k, ms, first, a + b, c', f', r);
  }

  lemma MemberIs(ms: Members, first: bool)
    requires ms.Member?
    ensures PrintMembers(ms, first)
         == (Comma(first) + ms.pre + (Quote(ms.name) + ms.mid + ":")) + BodyText(ms.gap, Print(ms.value), ms.post)
            + PrintMembers(ms.rest, false)
  {
    var lead := Comma(first) + ms.pre + (Quote(ms.name) + ms.mid + ":");
    MembersText(ms, first);
    assert lead + ms.gap + Print(ms.value) + ms.post == lead + BodyText(ms.gap, Print(ms.value), ms.post);
  }

  lemma KeptOutcome(k: string, ms: Members, first: bool, lead: string, body: string, rest: string, r: string)
    requires ms.Member? && lead == Comma(first) + ms.pre + (Quote(ms.name) + ms.mid + ":") && r == lead + body + rest
    requires Outcome(body, BodyText(ms.gap, Print(Remove(k, ms.value)), ms.post), Tidy(k, ms.value))
    requires Outcome(rest, PrintMembers(RemoveMembers(k, ms.rest), false), TidyMembers(k, ms.rest, false))
    ensures ms.name != k ==> Outcome(r, PrintMembers(RemoveMembers(k, ms), first), TidyMembers(k, ms, first))
    ensures ms.name == k ==> Inked(r) > Inked(PrintMembers(RemoveMembers(k, ms.rest), false))
  {
    var e, f := BodyText(ms.gap, Print(Remove(k, ms.value)), ms.post), PrintMembers(RemoveMembers(k, ms.rest), false);
    if ms.name != k {
      OutcomeBoth(lead, lead, true, body, e, Tidy(k, ms.value));
      OutcomeBoth(lead + body, lead + e, Tidy(k, ms.value), rest, f, TidyMembers(k, ms.rest, false));
      MemberIs(RemoveMembers(k, ms), first);
    } else {
      InkedBoth(lead + body, rest);
      InkedBoth(lead, body);
      InkedColon(Comma(first) + ms.pre + (Quote(ms.name) + ms.mid));
      assert lead == Comma(first) + ms.pre + (Quote(ms.name) + ms.mid) + ":";
    }
  }

  lemma InkedColon(a: string)
    ensures Inked(a + ":") > 0
  {
    InkedBoth(a, ":");
    assert ":"[1..] == "";
  }

  // ---- What is left of a member cut too short ----------------------------------

  /** A later member with blanks after its comma: the comma goes, and as many characters as
      the member has, counted from the blanks on. What stays of blanks and member is passed. */
  lemma {:induction false} PassBlanksAndMember(k: string, done: string, pre: string, gap: string, v: Json, post: string,
                                               tail: string) returns (r: string)
    requires PlainName(k) && AllBlank(pre) && AllBlank(gap) && WellFormed(v) && AllBlank(post)
    requires EndsMember(tail) && Closed(done)
    ensures Leaves(k, done, "," + pre + PrintMember(k, "", gap, Print(v), post), r, tail)
    ensures Outcome(r, "", pre == "")
    ensures !HasMember(k, v) ==> r == Shifted(pre, PrintMember(k, "", gap, Print(v), post))
    decreases v, 7
  {
    var text := PrintMember(k, "", gap, Print(v), post);
    ShiftedCut(k, done, pre, gap, v, post, text, tail);
    r := RestOfShifted(k, done, pre, gap, v, post, text, tail);
    CutThen(k, done, "," + pre + text, Shifted(pre, text), r, tail);
    SomethingIsBeyondNothing(r);
  }

  lemma CutThen(k: string, done: string, all: string, left: string, r: string, tail: string)
    requires Strip(k, done, all + tail) == Strip(k, done, left + tail) && Leaves(k, done, left, r, tail)
    ensures Leaves(k, done, all, r, tail)
  {
  }

  lemma SomethingIsBeyondNothing(r: string)
    ensures Outcome(r, "", r == "")
  {
  }

  lemma {:induction false} RestOfShifted(k: string, done: string, pre: string, gap: string, v: Json, post: string,
                                         text: string, tail: string) returns (r: string)
    requires PlainName(k) && AllBlank(pre) && AllBlank(gap) && WellFormed(v) && AllBlank(post)
    requires EndsMember(tail) && Closed(done) && text == PrintMember(k, "", gap, Print(v), post) && text != ""
    ensures Leaves(k, done, Shifted(pre, text), r, tail) && (r == "" <==> pre == "")
    ensures !HasMember(k, v) ==> r == Shifted(pre, text)
    decreases v, 6
  {
    PlainWellEscaped(k);
    if |pre| < |text| {
      ShiftedShort(pre, text);
      r := RestOfMember(k, done, k, "", gap, v, post, |text| - |pre|, tail);
    } else {
      ShiftedLong(pre, text);
      ClosedAfterBlanks(done, pre[|text|..]);
      var whole := RestOfMember(k, done + pre[|text|..], k, "", gap, v, post, 0, tail);
      assert text[0..] == text;
      r := pre[|text|..] + whole;
      BlanksThen(k, done, pre[|text|..], text, whole, tail);
    }
  }

  lemma ShiftedShort(pre: string, text: string)
    requires |pre| < |text|
    ensures Shifted(pre, text) == text[|text| - |pre|..]
  {
  }

  lemma ShiftedLong(pre: string, text: string)
    requires |pre| >= |text|
    ensures Shifted(pre, text) == pre[|text|..] + text
  {
  }

  lemma BlanksThen(k: string, done: string, blanks: string, text: string, r: string, suf: string)
    requires AllBlank(blanks) && Leaves(k, done + blanks, text[0..], r, suf)
    ensures Leaves(k, done, blanks + text, blanks + r, suf)
  {
    assert text[0..] == text;
    PassPlain(k, done, blanks, text + suf);
    LeaveBoth(k, done, blanks, blanks, text, r, suf);
  }

  /** The blanks and the member without their first |text| characters. */
  function Shifted(pre: string, text: string): (r: string)
    ensures |r| == |pre|
  {
    (pre + text)[|text|..]
  }

  /** The rest of a member, from any place in it. */
  lemma {:induction false} RestOfMember(k: string, done: string, name: string, mid: string, gap: string, v: Json,
                                        post: string, o: nat, suf: string) returns (r: string)
    requires PlainName(k) && WellEscaped(name) && AllBlank(mid) && AllBlank(gap) && WellFormed(v) && AllBlank(post)
    requires EndsMember(suf) && Closed(done) && o <= |PrintMember(name, mid, gap, Print(v), post)|
    ensures Leaves(k, done, PrintMember(name, mid, gap, Print(v), post)[o..], r, suf)
    ensures r == "" <==> o == |PrintMember(name, mid, gap, Print(v), post)|
    ensures !HasMember(k, v) ==> r == PrintMember(name, mid, gap, Print(v), post)[o..]
    decreases v, 5
  {
    var head, body := Quote(name) + mid + ":", BodyText(gap, Print(v), post);
    MemberIsHeadAndBody(name, mid, gap, Print(v), post);
    if o < |head| {
      SplitBefore(head, body, o);
      RestOfName(k, done, name, mid, o, body + suf);
      var body' := PassBody(k, done + head[o..], gap, v, post, suf);
      LeaveBoth(k, done, head[o..], head[o..], body, body', suf);
      if !HasMember(k, v) { UntouchedBody(k, gap, v, post, body'); }
      r := head[o..] + body';
    } else {
      SplitAfter(head, body, o);
      r := RestOfBody(k, done, gap, v, post, o - |head|, suf);
    }
  }

  lemma MemberIsHeadAndBody(name: string, mid: string, gap: string, value: string, post: string)
    ensures PrintMember(name, mid, gap, value, post) == (Quote(name) + mid + ":") + BodyText(gap, value, post)
  {
    Associate(Quote(name) + mid + ":", gap, value);
    Associate(Quote(name) + mid + ":", gap + value, post);
  }

  lemma SplitBefore(a: string, b: string, o: nat)
    requires o <= |a|
    ensures (a + b)[o..] == a[o..] + b
  {
  }

  lemma SplitAfter(a: string, b: string, o: nat)
    requires |a| <= o <= |a + b|
    ensures (a + b)[o..] == b[o - |a|..]
  {
  }

  /** Where the rest of three texts begins. */
  lemma InFirst(a: string, b: string, c: string, o: nat)
    requires o <= |a|
    ensures (a + b + c)[o..] == a[o..] + b + c
  {
  }

  lemma InSecond(a: string, b: string, c: string, o: nat)
    requires |a| <= o <= |a + b|
    ensures (a + b + c)[o..] == b[o - |a|..] + c
  {
  }

  lemma InThird(a: string, b: string, c: string, o: nat)
    requires |a + b| <= o <= |a + b + c|
    ensures (a + b + c)[o..] == c[o - |a + b|..]
  {
  }

  lemma UntouchedBody(k: string, gap: string, v: Json, post: string, r: string)
    requires !HasMember(k, v) && Outcome(r, BodyText(gap, Print(Remove(k, v)), post), Tidy(k, v))
    ensures r == BodyText(gap, Print(v), post)
  {
    RemoveKeeps(k, v);
    NoMemberIsTidy(k, v);
  }

  lemma RestOfName(k: string, done: string, name: string, mid: string, o: nat, suf: string)
    requires PlainName(k) && WellEscaped(name) && AllBlank(mid) && Closed(done) && o < |Quote(name) + mid + ":"|
    ensures var head := Quote(name) + mid + ":"; Passes(k, done, head[o..], head[o..], suf)
  {
    var head, token, colon := Quote(name) + mid + ":", Quote(name), mid + ":";
    assert head == token + colon;
    if o == 0 {
      PassName(k, done, name, mid, suf);
      assert head[0..] == head;
    } else if o < |token| {
      SplitBefore(token, colon, o);
      assert token[o..] == name[o - 1..] + "\"";
      assert colon + suf != "" && (colon + suf)[0] == if mid == "" then ':' else mid[0];
      PassTail(k, done, name, o - 1, colon + suf);
      PassPlain(k, done + token[o..], colon, suf);
      PassBoth(k, done, token[o..], token[o..], colon, colon, suf);
    } else {
      SplitAfter(token, colon, o);
      PassPlain(k, done, head[o..], suf);
    }
  }

  lemma {:induction false} RestOfBody(k: string, done: string, gap: string, v: Json, post: string, o: nat, suf: string)
      returns (r: string)
    requires PlainName(k) && AllBlank(gap) && WellFormed(v) && AllBlank(post) && EndsMember(suf)
    requires Closed(done) && o <= |BodyText(gap, Print(v), post)|
    ensures Leaves(k, done, BodyText(gap, Print(v), post)[o..], r, suf)
    ensures r == "" <==> o == |BodyText(gap, Print(v), post)|
    ensures !HasMember(k, v) ==> r == BodyText(gap, Print(v), post)[o..]
    decreases v, 4
  {
    var text := Print(v);
    Associate(gap, text, post);
    if o <= |gap| {
      SplitBefore(gap, text + post, o);
      LeaveBlanks(k, done, gap[o..], text + post + suf);
      r := RestOfValueAndBlanks(k, done + gap[o..], v, post, 0, suf);
      assert (text + post)[0..] == text + post;
      LeaveBoth(k, done, gap[o..], gap[o..], text + post, r, suf);
      r := gap[o..] + r;
    } else {
      SplitAfter(gap, text + post, o);
      r := RestOfValueAndBlanks(k, done, v, post, o - |gap|, suf);
    }
  }

  lemma {:induction false} RestOfValueAndBlanks(k: string, done: string, v: Json, post: string, o: nat, suf: string)
      returns (r: string)
    requires PlainName(k) && WellFormed(v) && AllBlank(post) && suf != "" && Delimited(suf)
    requires Closed(done) && o <= |Print(v) + post|
    ensures Leaves(k, done, (Print(v) + post)[o..], r, suf)
    ensures r == "" <==> o == |Print(v) + post|
    ensures !HasMember(k, v) ==> r == (Print(v) + post)[o..]
    decreases v, 3
  {
    var text := Print(v);
    if o <= |text| {
      SplitBefore(text, post, o);
      var v' := RestOfValue(k, done, v, o, post + suf);
      LeaveBlanks(k, done + v', post, suf);
      LeaveBoth(k, done, text[o..], v', post, post, suf);
      r := v' + post;
    } else {
      SplitAfter(text, post, o);
      LeaveBlanks(k, done, post[o - |text|..], suf);
      r := post[o - |text|..];
    }
  }

  /** The rest of a value, from any place in it. */
  lemma {:induction false} RestOfValue(k: string, done: string, t: Json, o: nat, suf: string) returns (r: string)
    requires PlainName(k) && WellFormed(t) && Delimited(suf) && Closed(done) && o <= |Print(t)|
    ensures Leaves(k, done, Print(t)[o..], r, suf)
    ensures r == "" <==> o == |Print(t)|
    ensures !HasMember(k, t) ==> r == Print(t)[o..]
    decreases t, 2
  {
    if o == 0 {
      r := PassValue(k, done, t, suf);
      assert Print(t)[0..] == Print(t);
      if !HasMember(k, t) {
        RemoveKeeps(k, t);
        NoMemberIsTidy(k, t);
      }
    } else if o == |Print(t)| {
      LeaveNothing(k, done, suf);
      r := "";
    } else {
      match t
      case Str(c) => r := RestOfString(k, done, c, o, suf);
      case Scalar(w) => r := RestOfWord(k, done, w, o, suf);
      case Array(blank, items) => r := RestOfArray(k, done, blank, items, o, suf);
      case Object(blank, members) => r := RestOfObject(k, done, blank, members, o, suf);
    }
  }

  lemma RestOfString(k: string, done: string, c: string, o: nat, suf: string) returns (r: string)
    requires PlainName(k) && WellEscaped(c) && Delimited(suf) && Closed(done) && 0 < o < |Quote(c)|
    ensures Leaves(k, done, Quote(c)[o..], r, suf) && r == Quote(c)[o..] != ""
  {
    r := c[o - 1..] + "\"";
    assert Quote(c)[o..] == r;
    PassTail(k, done, c, o - 1, suf);
    ClosedAfterValue(done, r);
  }

  lemma RestOfWord(k: string, done: string, w: string, o: nat, suf: string) returns (r: string)
    requires PlainWord(w) && 0 < o < |w|
    ensures Leaves(k, done, w[o..], r, suf) && r == w[o..] != ""
  {
    r := w[o..];
    PassPlain(k, done, r, suf);
    assert r[|r| - 1] == w[|w| - 1];
    ClosedAfterValue(done, r);
  }

  lemma CloseContainer(k: string, done: string, body: string, r: string, close: string, suf: string)
    requires close in {"]", "}"} && Passes(k, done, body, r, close + suf)
    ensures Leaves(k, done, body + close, r + close, suf)
  {
    PassPlain(k, done + r, close, suf);
    PassBoth(k, done, body, r, close, close, suf);
    ClosedAfterValue(done + r, close);
    Associate(done, r, close);
  }

  lemma ContainerText(open: string, blank: string, body: string, close: string, o: nat)
    requires |open| == 1 && 0 < o < |open + blank + body + close| && |close| == 1
    ensures var text := open + blank + body + close;
            && (o <= |blank| + 1 ==> text[o..] == blank[o - 1..] + body + close)
            && (o > |blank| + 1 ==> text[o..] == body[o - |blank| - 1..] + close)
  {
  }

  lemma {:induction false} RestOfArray(k: string, done: string, blank: string, items: Items, o: nat, suf: string)
      returns (r: string)
    requires PlainName(k) && AllBlank(blank) && WellFormedItems(items) && Closed(done)
    requires 0 < o < |Print(Array(blank, items))|
    ensures Leaves(k, done, Print(Array(blank, items))[o..], r, suf) && r != ""
    ensures !ItemsHaveMember(k, items) ==> r == Print(Array(blank, items))[o..]
    decreases items, 3
  {
    var body, close := PrintItems(items, true), "]" + suf;
    ContainerText("[", blank, body, "]", o);
    var r';
    if o <= |blank| + 1 {
      LeaveBlanks(k, done, blank[o - 1..], body + close);
      r' := RestOfItems(k, done + blank[o - 1..], items, true, 0, close);
      assert body[0..] == body;
      PassBoth(k, done, blank[o - 1..], blank[o - 1..], body, r', close);
      r' := blank[o - 1..] + r';
      CloseContainer(k, done, blank[o - 1..] + body, r', "]", suf);
    } else {
      r' := RestOfItems(k, done, items, true, o - |blank| - 1, close);
      CloseContainer(k, done, body[o - |blank| - 1..], r', "]", suf);
    }
    r := r' + "]";
  }

  lemma {:induction false} RestOfItems(k: string, done: string, items: Items, first: bool, o: nat, suf: string)
      returns (r: string)
    requires PlainName(k) && WellFormedItems(items) && Closed(done) && suf != "" && suf[0] == ']'
    requires o <= |PrintItems(items, first)|
    ensures Passes(k, done, PrintItems(items, first)[o..], r, suf)
    ensures !ItemsHaveMember(k, items) ==> r == PrintItems(items, first)[o..]
    decreases items, 2
  {
    if items.NoItems? {
      LeaveNothing(k, done, suf);
      r := "";
    } else {
      r := RestOfItemsFrom(k, done, items, Comma(first) + items.pre, o, suf);
      assert PrintItems(items, first) == ItemsText(items, Comma(first) + items.pre);
    }
  }

  predicate IsGap(s: string) {
    forall i :: 0 <= i < |s| ==> s[i] == ',' || IsBlank(s[i])
  }

  /** Items, with the given text in front of the first. */
  function ItemsText(items: Items, before: string): string
    requires items.Item?
  {
    before + (Print(items.value) + items.post) + PrintItems(items.rest, false)
  }

  lemma {:induction false} RestOfItemsFrom(k: string, done: string, items: Items, before: string, o: nat, suf: string)
      returns (r: string)
    requires PlainName(k) && items.Item? && WellFormedItems(items) && Closed(done) && suf != "" && suf[0] == ']'
    requires o <= |ItemsText(items, before)| && IsGap(before)
    ensures Passes(k, done, ItemsText(items, before)[o..], r, suf)
    ensures !ItemsHaveMember(k, items) ==> r == ItemsText(items, before)[o..]
    decreases items, 1
  {
    var b, d := Print(items.value) + items.post, PrintItems(items.rest, false);
    if o <= |before| {
      InFirst(before, b, d, o);
      r := FromGap(k, done, before[o..], items, suf);
    } else if o <= |before + b| {
      InSecond(before, b, d, o);
      r := FromItem(k, done, items, o - |before|, suf);
    } else {
      InThird(before, b, d, o);
      r := RestOfItems(k, done, items.rest, false, o - |before + b|, suf);
    }
  }

  /** The blanks before an item, maybe with its comma, and all that follows. */
  lemma {:induction false} FromGap(k: string, done: string, gap: string, items: Items, suf: string) returns (r: string)
    requires PlainName(k) && items.Item? && WellFormedItems(items) && suf != "" && suf[0] == ']'
    requires IsGap(gap)
    ensures Passes(k, done, gap + (Print(items.value) + items.post) + PrintItems(items.rest, false), r, suf)
    ensures !ItemsHaveMember(k, items) ==> r == gap + (Print(items.value) + items.post) + PrintItems(items.rest, false)
    decreases items, 0
  {
    var b, d := Print(items.value) + items.post, PrintItems(items.rest, false);
    EndOfItems(items.rest, suf);
    PassPlain(k, done, gap, b + (d + suf));
    var b' := WholeItem(k, done + gap, items.value, items.post, d + suf);
    PassBoth(k, done, gap, gap, b, b', d + suf);
    r := ThenItems(k, done, gap + b, gap + b', items.rest, suf);
  }

  lemma {:induction false} FromItem(k: string, done: string, items: Items, o: nat, suf: string) returns (r: string)
    requires PlainName(k) && items.Item? && WellFormedItems(items) && suf != "" && suf[0] == ']' && Closed(done)
    requires o <= |Print(items.value) + items.post|
    ensures Passes(k, done, (Print(items.value) + items.post)[o..] + PrintItems(items.rest, false), r, suf)
    ensures !ItemsHaveMember(k, items) ==>
              r == (Print(items.value) + items.post)[o..] + PrintItems(items.rest, false)
    decreases items, 0
  {
    EndOfItems(items.rest, suf);
    var b' := RestOfValueAndBlanks(k, done, items.value, items.post, o, PrintItems(items.rest, false) + suf);
    r := ThenItems(k, done, (Print(items.value) + items.post)[o..], b', items.rest, suf);
  }

  lemma EndOfItems(rest: Items, suf: string)
    requires suf != "" && suf[0] == ']'
    ensures var tail := PrintItems(rest, false) + suf; tail != "" && Delimited(tail)
  {
  }

  /** An item from its value on, after a comma or not. */
  lemma {:induction false} WholeItem(k: string, done: string, v: Json, post: string, suf: string) returns (r: string)
    requires PlainName(k) && WellFormed(v) && AllBlank(post) && suf != "" && Delimited(suf)
    ensures Leaves(k, done, Print(v) + post, r, suf)
    ensures !HasMember(k, v) ==> r == Print(v) + post
    decreases v, 2
  {
    var v' := PassValue(k, done, v, post + suf);
    LeaveBlanks(k, done + v', post, suf);
    LeaveBoth(k, done, Print(v), v', post, post, suf);
    if !HasMember(k, v) {
      RemoveKeeps(k, v);
      NoMemberIsTidy(k, v);
    }
    r := v' + post;
  }

  /** The items after what has been passed. */
  lemma {:induction false} ThenItems(k: string, done: string, text: string, r: string, rest: Items, suf: string)
      returns (r': string)
    requires PlainName(k) && WellFormedItems(rest) && suf != "" && suf[0] == ']'
    requires Passes(k, done, text, r, PrintItems(rest, false) + suf)
    ensures Passes(k, done, text + PrintItems(rest, false), r', suf)
    ensures !ItemsHaveMember(k, rest) ==> r' == r + PrintItems(rest, false)
    decreases rest, 1
  {
    var d' := PassItems(k, done + r, rest, false, suf);
    PassBoth(k, done, text, r, PrintItems(rest, false), d', suf);
    if !ItemsHaveMember(k, rest) {
      RemoveItemsKeeps(k, rest);
      NoMemberItemsTidy(k, rest);
    }
    r' := r + d';
  }

  lemma {:induction false} RestOfObject(k: string, done: string, blank: string, ms: Members, o: nat, suf: string)
      returns (r: string)
    requires PlainName(k) && AllBlank(blank) && WellFormedMembers(ms) && Closed(done)
    requires 0 < o < |Print(Object(blank, ms))|
    ensures Leaves(k, done, Print(Object(blank, ms))[o..], r, suf) && r != ""
    ensures !MembersHave(k, ms) ==> r == Print(Object(blank, ms))[o..]
    decreases ms, 4
  {
    var body, close := PrintMembers(ms, true), "}" + suf;
    ContainerText("{", blank, body, "}", o);
    var r';
    if o <= |blank| + 1 {
      LeaveBlanks(k, done, blank[o - 1..], body + close);
      r' := RestOfMembers(k, done + blank[o - 1..], ms, true, 0, close);
      assert body[0..] == body;
      PassBoth(k, done, blank[o - 1..], blank[o - 1..], body, r', close);
      r' := blank[o - 1..] + r';
      CloseContainer(k, done, blank[o - 1..] + body, r', "}", suf);
    } else {
      r' := RestOfMembers(k, done, ms, true, o - |blank| - 1, close);
      CloseContainer(k, done, body[o - |blank| - 1..], r', "}", suf);
    }
    r := r' + "}";
  }

  lemma {:induction false} RestOfMembers(k: string, done: string, ms: Members, first: bool, o: nat, suf: string)
      returns (r: string)
    requires PlainName(k) && WellFormedMembers(ms) && Closed(done) && EndsMember(suf)
    requires o <= |PrintMembers(ms, first)|
    ensures Passes(k, done, PrintMembers(ms, first)[o..], r, suf)
    ensures !MembersHave(k, ms) ==> r == PrintMembers(ms, first)[o..]
    decreases ms, 3
  {
    if ms.NoMembers? {
      LeaveNothing(k, done, suf);
      r := "";
    } else if !first && o == 0 {
      r := FromComma(k, done, ms, suf);
      assert PrintMembers(ms, first)[0..] == PrintMembers(ms, first);
    } else {
      r := RestFrom(k, done, ms, Comma(first) + ms.pre, o, suf);
      assert PrintMembers(ms, first) == TextBehind(ms, Comma(first) + ms.pre);
    }
  }

  lemma {:induction false} FromComma(k: string, done: string, ms: Members, suf: string) returns (r: string)
    requires PlainName(k) && WellFormedMembers(ms) && Closed(done) && EndsMember(suf)
    ensures Passes(k, done, PrintMembers(ms, false), r, suf)
    ensures !MembersHave(k, ms) ==> r == PrintMembers(ms, false)
    decreases ms, 2
  {
    r := PassLaterMembers(k, done, ms, suf);
    if !MembersHave(k, ms) {
      RemoveMembersKeeps(k, ms);
      NoMemberMembersTidy(k, ms, false);
    }
  }

  /** Members, with the given text in front of the first. */
  function TextBehind(ms: Members, before: string): string
    requires ms.Member?
  {
    before + FirstText(ms) + PrintMembers(ms.rest, false)
  }

  lemma {:induction false} RestFrom(k: string, done: string, ms: Members, before: string, o: nat, suf: string)
      returns (r: string)
    requires PlainName(k) && ms.Member? && WellFormedMembers(ms) && Closed(done) && EndsMember(suf)
    requires o <= |TextBehind(ms, before)| && (o <= |before| ==> AllBlank(before[o..]))
    ensures Passes(k, done, TextBehind(ms, before)[o..], r, suf)
    ensures !MembersHave(k, ms) ==> r == TextBehind(ms, before)[o..]
    decreases ms, 2
  {
    var b, d := FirstText(ms), PrintMembers(ms.rest, false);
    if o <= |before| {
      InFirst(before, b, d, o);
      r := FromBlanks(k, done, before[o..], ms, suf);
    } else if o <= |before + b| {
      InSecond(before, b, d, o);
      r := FromMember(k, done, ms, o - |before|, suf);
    } else {
      InThird(before, b, d, o);
      r := RestOfMembers(k, done, ms.rest, false, o - |before + b|, suf);
    }
  }

  /** The first member without the comma and the blanks before it. */
  function FirstText(ms: Members): string
    requires ms.Member?
  {
    PrintMember(ms.name, ms.mid, ms.gap, Print(ms.value), ms.post)
  }

  lemma {:induction false} FromBlanks(k: string, done: string, blanks: string, ms: Members, suf: string) returns (r: string)
    requires PlainName(k) && ms.Member? && WellFormedMembers(ms) && Closed(done) && EndsMember(suf) && AllBlank(blanks)
    ensures Passes(k, done, blanks + FirstText(ms) + PrintMembers(ms.rest, false), r, suf)
    ensures !MembersHave(k, ms) ==> r == blanks + FirstText(ms) + PrintMembers(ms.rest, false)
    decreases ms, 1
  {
    var b, d := FirstText(ms), PrintMembers(ms.rest, false);
    EndOfRest(ms.rest, suf);
    LeaveBlanks(k, done, blanks, b + (d + suf));
    var b' := RestOfMember(k, done + blanks, ms.name, ms.mid, ms.gap, ms.value, ms.post, 0, d + suf);
    assert b[0..] == b;
    LeaveBoth(k, done, blanks, blanks, b, b', d + suf);
    r := ThenMembers(k, done, blanks + b, blanks + b', ms.rest, suf);
  }

  lemma {:induction false} FromMember(k: string, done: string, ms: Members, o: nat, suf: string) returns (r: string)
    requires PlainName(k) && ms.Member? && WellFormedMembers(ms) && Closed(done) && EndsMember(suf) && o <= |FirstText(ms)|
    ensures Passes(k, done, FirstText(ms)[o..] + PrintMembers(ms.rest, false), r, suf)
    ensures !MembersHave(k, ms) ==> r == FirstText(ms)[o..] + PrintMembers(ms.rest, false)
    decreases ms, 1
  {
    EndOfRest(ms.rest, suf);
    var b' := RestOfMember(k, done, ms.name, ms.mid, ms.gap, ms.value, ms.post, o, PrintMembers(ms.rest, false) + suf);
    r := ThenMembers(k, done, FirstText(ms)[o..], b', ms.rest, suf);
  }

  lemma {:induction false} ThenMembers(k: string, done: string, text: string, r: string, rest: Members, suf: string)
      returns (r': string)
    requires PlainName(k) && WellFormedMembers(rest) && EndsMember(suf)
    requires Leaves(k, done, text, r, PrintMembers(rest, false) + suf)
    ensures Passes(k, done, text + PrintMembers(rest, false), r', suf)
    ensures !MembersHave(k, rest) ==> r' == r + PrintMembers(rest, false)
    decreases rest, 2
  {
    var d' := PassLaterMembers(k, done + r, rest, suf);
    PassBoth(k, done, text, r, PrintMembers(rest, false), d', suf);
    if !MembersHave(k, rest) {
      RemoveMembersKeeps(k, rest);
      NoMemberMembersTidy(k, rest, false);
    }
    r' := r + d';
  }

  /** The round at a later member cuts out its comma and as many characters as it has. */
  lemma ShiftedCut(k: string, done: string, pre: string, gap: string, v: Json, post: string, text: string, tail: string)
    requires PlainName(k) && AllBlank(pre) && AllBlank(gap) && WellFormed(v) && AllBlank(post) && EndsMember(tail)
    requires text == PrintMember(k, "", gap, Print(v), post)
    ensures Strip(k, done, "," + pre + text + tail) == Strip(k, done, Shifted(pre, text) + tail)
  {
    var d := done + ("," + pre);
    AtComma(done, pre);
    MemberLength(k, gap, Print(v), post);
    RoundCutsMember(k, d, gap, v, post, tail);
    Associate("," + pre, text, tail);
    PassPlain(k, done, "," + pre, text + tail);
    CutAtComma(done, pre, text, tail);
  }

  lemma AtComma(done: string, pre: string)
    requires AllBlank(pre)
    ensures Before(done + ("," + pre)) == |done| + 1 && AtMember(done + ("," + pre))
  {
    assert done + ("," + pre) == done + "," + pre;
    BeforeOfNonBlank(done + ",");
    BeforeSkipsBlanks(done + ",", pre);
  }

  lemma CutAtComma(done: string, pre: string, text: string, tail: string)
    requires text != ""
    ensures Cut(done + ("," + pre), text + tail, |done| + 1, |text|) == Continue(done, Shifted(pre, text) + tail)
  {
    var d := done + ("," + pre);
    assert d[|done|] == ',' && d[..|done|] == done && d[|done| + 1..] == pre;
    assert (pre + (text + tail))[|text|..] == Shifted(pre, text) + tail;
  }

  lemma {:induction false} NoMemberIsTidy(k: string, t: Json)
    requires !HasMember(k, t)
    ensures Tidy(k, t)
  {
    match t
    case Str(_) =>
    case Scalar(_) =>
    case Array(_, items) => NoMemberItemsTidy(k, items);
    case Object(_, members) => NoMemberMembersTidy(k, members, true);
  }

  lemma {:induction false} NoMemberItemsTidy(k: string, items: Items)
    requires !ItemsHaveMember(k, items)
    ensures TidyItems(k, items)
  {
    if items.Item? {
      NoMemberIsTidy(k, items.value);
      NoMemberItemsTidy(k, items.rest);
    }
  }

  lemma {:induction false} NoMemberMembersTidy(k: string, ms: Members, first: bool)
    requires !MembersHave(k, ms)
    ensures TidyMembers(k, ms, first)
  {
    if ms.Member? {
      NoMemberIsTidy(k, ms.value);
      NoMemberMembersTidy(k, ms.rest, false);
    }
  }

  // ---- Whole documents --------------------------------------------------------

  /** One pass over the text of a document with blanks around it. */
  lemma StripKeyOnText(k: string, lead: string, t: Json, trail: string) returns (r: string)
    requires PlainName(k) && WellFormed(t) && AllBlank(lead) && AllBlank(trail)
    ensures Strip(k, "", lead + Print(t) + trail) == lead + r + trail && Outcome(r, Print(Remove(k, t)), Tidy(k, t))
  {
    assert lead + Print(t) + trail == lead + (Print(t) + trail);
    PassPlain(k, "", lead, Print(t) + trail);
    assert "" + lead == lead;
    r := PassValue(k, lead, t, trail);
    PassPlain(k, lead + r, trail, "");
    assert trail + "" == trail;
  }

  /** The pass for a name gives the text of the tree without the members of that name exactly
      when the layout is tidy; otherwise something is left that should be gone. */
  lemma StripExactly(k: string, lead: string, t: Json, trail: string)
    requires PlainName(k) && WellFormed(t) && AllBlank(lead) && AllBlank(trail)
    ensures var text := Strip(k, "", lead + Print(t) + trail);
            var expected := lead + Print(Remove(k, t)) + trail;
            && (text == expected <==> Tidy(k, t))
            && (!Tidy(k, t) ==> Beyond(text, expected))
  {
    var r := StripKeyOnText(k, lead, t, trail);
    OutcomeInside(lead, r, Print(Remove(k, t)), Tidy(k, t), trail);
  }

  function WithoutAnswers(t: Json): Json {
    Remove("answer", Remove("key", t))
  }

  /** The main result. If the layout is tidy for the first pass, stripping the text gives the
      text of the tree without the members named `key` or `answer` exactly when it is tidy for
      the second, and no such member is left at any depth. If it is not tidy for the first,
      the first pass has already left something behind. */
  lemma StripSensitiveOnText(lead: string, t: Json, trail: string)
    requires WellFormed(t) && AllBlank(lead) && AllBlank(trail)
    ensures Strip("key", "", lead + Print(t) + trail) == lead + Print(Remove("key", t)) + trail <==> Tidy("key", t)
    ensures Tidy("key", t) ==>
              (StripSensitive(lead + Print(t) + trail) == lead + Print(WithoutAnswers(t)) + trail
               <==> Tidy("answer", Remove("key", t)))
    ensures !HasMember("key", WithoutAnswers(t)) && !HasMember("answer", WithoutAnswers(t))
  {
    StripExactly("key", lead, t, trail);
    RemoveWellFormed("key", t);
    StripExactly("answer", lead, Remove("key", t), trail);
    RemoveRemoves("key", t);
    RemoveRemoves("answer", Remove("key", t));
  }

  /** In particular for everything a compact printer writes; and stripping twice is
      stripping once. */
  lemma StripSensitiveOnCompactText(t: Json)
    requires WellFormed(t) && Compact(t)
    ensures StripSensitive(Print(t)) == Print(WithoutAnswers(t))
    ensures StripSensitive(StripSensitive(Print(t))) == StripSensitive(Print(t))
  {
    CompactIsTidy("key", t);
    RemoveWellFormed("key", t);
    CompactIsTidy("answer", Remove("key", t));
    assert "" + Print(t) + "" == Print(t);
    StripSensitiveOnText("", t, "");
    var u := WithoutAnswers(t);
    assert "" + Print(u) + "" == Print(u);
    RemoveWellFormed("answer", Remove("key", t));
    CompactIsTidy("key", u);
    RemoveKeeps("key", u);
    CompactIsTidy("answer", u);
    RemoveKeeps("answer", u);
    StripSensitiveOnText("", u, "");
  }

  /** Text in which neither name occurs as a member comes back unchanged. */
  lemma StripSensitiveKeepsTheRest(t: Json)
    requires WellFormed(t) && !HasMember("key", t) && !HasMember("answer", t)
    ensures StripSensitive(Print(t)) == Print(t)
  {
    RemoveKeeps("key", t);
    RemoveKeeps("answer", t);
    NoMemberIsTidy("key", t);
    NoMemberIsTidy("answer", t);
    assert "" + Print(t) + "" == Print(t);
    StripSensitiveOnText("", t, "");
  }
}
