/**
 How the search of `strip_sensitive_keys` passes over pieces of JSON text, and what it cuts
 out when it finds a member.
 */
module SanitizeText {
  import opened JsonText
  import opened Text
  import opened JsonTree
  import opened Sanitize

  /** Names the search is used with: non-empty words of small letters. */
  predicate PlainName(k: string) {
    k != "" && forall i :: 0 <= i < |k| ==> 'a' <= k[i] <= 'z'
  }

  /** What can follow a value in JSON text. */
  predicate Delimited(suf: string) {
    suf == "" || IsBlank(suf[0]) || suf[0] == ',' || suf[0] == ']' || suf[0] == '}'
  }

  // ---- Passing over text without a match --------------------------------------

  /** The search, with `done` behind it, passes `text` and leaves `result` of it. */
  predicate Passes(k: string, done: string, text: string, result: string, suf: string) {
    Strip(k, done, text + suf) == Strip(k, done + result, suf)
  }

  lemma PassBoth(k: string, done: string, a: string, ra: string, b: string, rb: string, suf: string)
    requires Passes(k, done, a, ra, b + suf) && Passes(k, done + ra, b, rb, suf)
    ensures Passes(k, done, a + b, ra + rb, suf)
  {
    assert a + b + suf == a + (b + suf);
    assert done + ra + rb == done + (ra + rb);
  }

  lemma {:induction false} PassPlain(k: string, done: string, a: string, suf: string)
    requires forall i :: 0 <= i < |a| ==> a[i] != '\"'
    ensures Passes(k, done, a, a, suf)
    decreases |a|
  {
    if a == "" {
      assert a + suf == suf && done + a == done;
    } else {
      assert !(Needle(k) <= a + suf) by { assert (a + suf)[0] != Needle(k)[0]; }
      assert (a + suf)[1..] == a[1..] + suf;
      PassPlain(k, done + [a[0]], a[1..], suf);
      assert done + [a[0]] + a[1..] == done + a;
    }
  }

  /** A needle at the opening quote of a token means the token is the name itself. */
  lemma NeedleIsToken(k: string, c: string, suf: string)
    requires PlainName(k) && WellEscaped(c)
    ensures Needle(k) <= Quote(c) + suf <==> c == k && suf != "" && suf[0] == ':'
  {
    var text := Quote(c) + suf;
    if Needle(k) <= text {
      PlainWellEscaped(k);
      ClosingQuoteOfEscaped(c, suf);
      var rest := text[|Needle(k)|..];
      ClosingQuoteOfEscaped(k, ":" + rest);
      assert text == Needle(k) + rest;
      assert text[1..] == c + "\"" + suf;
      assert text[1..] == k + "\"" + (":" + rest);
      assert c == text[1..][..|c|] == k;
      assert suf == ":" + rest by {
        assert suf == text[1..][|c| + 1..];
        assert ":" + rest == text[1..][|k| + 1..];
      }
    }
  }

  /** A needle inside a token `t"` whose quotes are all escaped, at its start: it ends at
      the token's own closing quote. */
  lemma NeedleInTail(k: string, t: string, suf: string)
    requires PlainName(k) && t != ""
    requires forall j :: 0 < j < |t| && t[j] == '\"' ==> t[j - 1] == '\\'
    requires Needle(k) <= t + "\"" + suf
    ensures t == "\"" + k && suf != "" && suf[0] == ':'
  {
    var text := t + "\"" + suf;
    var n := Needle(k);
    assert forall j :: 0 <= j < |n| ==> text[j] == n[j];
    assert forall j :: 0 < j <= |k| ==> n[j] == k[j - 1];
    assert n[0] == n[|k| + 1] == '\"' && n[|k| + 2] == ':';
    assert text[|t|] == '\"';
    assert |t| > |k|;
    assert forall j :: 0 <= j < |t| ==> t[j] == text[j];
    assert forall j :: 0 < j < |t| && text[j] == '\"' ==> text[j - 1] == '\\';
    var q := |k| + 1;
    assert text[q] == '\"' && text[q - 1] == k[|k| - 1] != '\\';
    assert |t| <= q;
    assert t == text[..|k| + 1] == n[..|k| + 1] == "\"" + k;
    assert suf != "" && suf[0] == text[|t| + 1];
  }

  /** A needle strictly inside a token starts at an escaped quote, and the token is a
      member name that ends in a quoted copy of `k`. */
  lemma NeedleInside(k: string, c: string, i: nat, suf: string)
    requires PlainName(k) && WellEscaped(c) && i < |c|
    requires Needle(k) <= c[i..] + "\"" + suf
    ensures i > 0 && c[i - 1] == '\\' && c[i..] == "\"" + k && suf != "" && suf[0] == ':'
  {
    var t := c[i..];
    assert Needle(k)[0] == (t + "\"" + suf)[0] == c[i];
    QuoteFollowsBackslash(c, i);
    forall j | 0 < j < |t| && t[j] == '\"' ensures t[j - 1] == '\\' {
      QuoteFollowsBackslash(c, i + j);
    }
    NeedleInTail(k, t, suf);
  }

  lemma NoNeedleAtClosingQuote(k: string, suf: string)
    requires PlainName(k) && (suf == "" || !('a' <= suf[0] <= 'z'))
    ensures !(Needle(k) <= "\"" + suf)
  {
    assert Needle(k)[1] == k[0];
    assert suf != "" ==> ("\"" + suf)[1] == suf[0];
  }

  /** What is behind the search does not end in a brace or comma and blanks, so that nothing
      found here is taken for a member. */
  predicate Closed(done: string) {
    !AtMember(done)
  }

  lemma BeforeOfNonBlank(d: string)
    requires d != "" && !IsBlank(d[|d| - 1])
    ensures Before(d) == |d|
  {
  }

  lemma StripStep(k: string, done: string, rest: string)
    requires rest != "" && !(Needle(k) <= rest)
    ensures Strip(k, done, rest) == Strip(k, done + [rest[0]], rest[1..])
  {
  }

  /** A needle where no member can start is passed. */
  lemma SkipNeedle(k: string, done: string, suf: string)
    requires Closed(done)
    ensures Strip(k, done, Needle(k) + suf) == Strip(k, done + Needle(k), suf)
  {
    var rest := Needle(k) + suf;
    assert rest[..|Needle(k)|] == Needle(k) && rest[|Needle(k)|..] == suf;
  }

  lemma PassQuote(k: string, done: string, suf: string)
    requires PlainName(k) && (suf == "" || !('a' <= suf[0] <= 'z'))
    ensures Passes(k, done, "\"", "\"", suf)
  {
    NoNeedleAtClosingQuote(k, suf);
    StripStep(k, done, "\"" + suf);
    assert ("\"" + suf)[1..] == suf && [("\"" + suf)[0]] == "\"";
  }

  /** The rest of a token, from anywhere inside it. A name that ends in a quoted copy of `k`
      does match the needle, but what stands before that match is a backslash, or it has been
      cut off and what stands there is closed. */
  lemma {:induction false} PassTail(k: string, done: string, c: string, i: nat, suf: string)
    requires PlainName(k) && WellEscaped(c) && i <= |c| && (suf == "" || !('a' <= suf[0] <= 'z'))
    requires Closed(done) || (i > 0 && done != "" && done[|done| - 1] == c[i - 1])
    ensures Passes(k, done, c[i..] + "\"", c[i..] + "\"", suf)
    decreases |c| - i
  {
    var rest := c[i..] + "\"" + suf;
    if i == |c| {
      assert c[i..] + "\"" == "\"";
      PassQuote(k, done, suf);
    } else if Needle(k) <= rest {
      NeedleInside(k, c, i, suf);
      if !Closed(done) { BeforeOfNonBlank(done); }
      PassEchoedNeedle(k, done, c[i..], suf);
    } else {
      StripStep(k, done, rest);
      assert rest[0] == c[i] && rest[1..] == c[i + 1..] + "\"" + suf;
      PassTail(k, done + [c[i]], c, i + 1, suf);
      assert done + [c[i]] + (c[i + 1..] + "\"") == done + (c[i..] + "\"");
    }
  }

  lemma PassEchoedNeedle(k: string, done: string, t: string, suf: string)
    requires PlainName(k) && Closed(done) && t == "\"" + k && suf != "" && suf[0] == ':'
    ensures Passes(k, done, t + "\"", t + "\"", suf)
  {
    var after := suf[1..];
    assert t + "\"" + suf == Needle(k) + after && suf == ":" + after;
    SkipNeedle(k, done, after);
    PassPlain(k, done + (t + "\""), ":", after);
    assert done + (t + "\"") + ":" == done + Needle(k);
  }

  /** A whole token. */
  lemma PassToken(k: string, done: string, c: string, suf: string)
    requires PlainName(k) && WellEscaped(c) && (suf == "" || !('a' <= suf[0] <= 'z'))
    requires c != k || suf == "" || suf[0] != ':' || Closed(done)
    ensures Passes(k, done, Quote(c), Quote(c), suf)
  {
    NeedleIsToken(k, c, suf);
    if c == k && suf != "" && suf[0] == ':' {
      PassEchoedNeedle(k, done, "\"" + k, suf);
    } else {
      StripStep(k, done, Quote(c) + suf);
      BeforeOfNonBlank(done + "\"");
      PassTail(k, done + "\"", c, 0, suf);
      assert (Quote(c) + suf)[1..] == c[0..] + "\"" + suf && [(Quote(c) + suf)[0]] == "\"";
      assert done + "\"" + (c[0..] + "\"") == done + Quote(c);
    }
  }

  /** The name of a member and its colon. */
  lemma PassName(k: string, done: string, name: string, mid: string, suf: string)
    requires PlainName(k) && WellEscaped(name) && AllBlank(mid)
    requires name != k || mid != "" || Closed(done)
    ensures Passes(k, done, Quote(name) + mid + ":", Quote(name) + mid + ":", suf)
  {
    assert mid + (":" + suf) != "" && (mid + (":" + suf))[0] == if mid == "" then ':' else mid[0];
    PassToken(k, done, name, mid + (":" + suf));
    PassPlain(k, done + Quote(name), mid, ":" + suf);
    PassBoth(k, done, Quote(name), Quote(name), mid, mid, ":" + suf);
    PassPlain(k, done + (Quote(name) + mid), ":", suf);
    PassBoth(k, done, Quote(name) + mid, Quote(name) + mid, ":", ":", suf);
  }

  // ---- The value scanner ------------------------------------------------------

  /** Outside strings and at `depth`, the scanner passes `text` and comes out as it went in. */
  predicate Scanned(text: string, depth: nat, suf: string) {
    ScanValue(text + suf, Scan(false, false, depth)) == |text| + ScanValue(suf, Scan(false, false, depth))
  }

  lemma ScanBoth(a: string, b: string, depth: nat, suf: string)
    requires Scanned(a, depth, b + suf) && Scanned(b, depth, suf)
    ensures Scanned(a + b, depth, suf)
  {
    Associate(a, b, suf);
  }

  lemma {:induction false} ScanPlain(a: string, depth: nat, suf: string)
    requires forall i :: 0 <= i < |a| ==> !IsStructural(a[i]) || a[i] == ':' || (a[i] == ',' && depth > 0)
    ensures Scanned(a, depth, suf)
  {
    if a == "" {
      assert a + suf == suf;
    } else {
      assert (a + suf)[1..] == a[1..] + suf;
      ScanPlain(a[1..], depth, suf);
    }
  }

  lemma {:induction false} ScanInside(c: string, depth: nat, suf: string)
    requires WellEscaped(c)
    ensures ScanValue(c + "\"" + suf, Scan(true, false, depth)) == |c| + 1 + ScanValue(suf, Scan(false, false, depth))
  {
    var text := c + "\"" + suf;
    if c == "" {
      assert text[1..] == suf;
    } else if c[0] == '\\' {
      assert text[1..][1..] == c[2..] + "\"" + suf;
      assert ScanValue(text[1..], Scan(true, true, depth)) == 1 + ScanValue(text[1..][1..], Scan(true, false, depth));
      ScanInside(c[2..], depth, suf);
    } else {
      assert text[1..] == c[1..] + "\"" + suf;
      ScanInside(c[1..], depth, suf);
    }
  }

  lemma ScanString(c: string, depth: nat, suf: string)
    requires WellEscaped(c)
    ensures Scanned(Quote(c), depth, suf)
  {
    assert (Quote(c) + suf)[1..] == c + "\"" + suf;
    ScanInside(c, depth, suf);
  }

  /** The scanner passes over the text of any value. */
  lemma {:induction false} ScanPassesValue(t: Json, depth: nat, suf: string)
    requires WellFormed(t)
    ensures Scanned(Print(t), depth, suf)
    decreases t, 1
  {
    match t
    case Str(c) => ScanString(c, depth, suf);
    case Scalar(w) => ScanPlain(w, depth, suf);
    case Array(blank, items) =>
      ScanPassesItems(items, true, depth + 1, "]" + suf);
      ScanContainer("[", blank, PrintItems(items, true), "]", depth, suf);
    case Object(blank, members) =>
      ScanPassesMembers(members, true, depth + 1, "}" + suf);
      ScanContainer("{", blank, PrintMembers(members, true), "}", depth, suf);
  }

  lemma ScanContainer(open: string, blank: string, body: string, close: string, depth: nat, suf: string)
    requires (open == "[" && close == "]") || (open == "{" && close == "}")
    requires AllBlank(blank) && Scanned(body, depth + 1, close + suf)
    ensures Scanned(open + blank + body + close, depth, suf)
  {
    ScanPlain(blank, depth + 1, body + (close + suf));
    ScanBoth(blank, body, depth + 1, close + suf);
    ScanBrackets(open, blank + body, close, depth, suf);
    Associate(open, blank, body);
  }

  lemma ScanBrackets(open: string, body: string, close: string, depth: nat, suf: string)
    requires (open == "[" && close == "]") || (open == "{" && close == "}")
    requires Scanned(body, depth + 1, close + suf)
    ensures Scanned(open + body + close, depth, suf)
  {
    FirstChar(open, body + (close + suf));
    FirstChar(close, suf);
    Associate(open + body, close, suf);
    Associate(open, body, close + suf);
    ScanOpen(open, body + (close + suf), depth);
    ScanClose(close, suf, depth);
  }

  lemma ScanOpen(open: string, rest: string, depth: nat)
    requires open == "[" || open == "{"
    ensures ScanValue(open + rest, Scan(false, false, depth)) == 1 + ScanValue(rest, Scan(false, false, depth + 1))
  {
    FirstChar(open, rest);
  }

  lemma ScanClose(close: string, rest: string, depth: nat)
    requires close == "]" || close == "}"
    ensures ScanValue(close + rest, Scan(false, false, depth + 1)) == 1 + ScanValue(rest, Scan(false, false, depth))
  {
    FirstChar(close, rest);
  }

  lemma FirstChar(c: string, rest: string)
    requires |c| == 1
    ensures c + rest != "" && (c + rest)[0] == c[0] && (c + rest)[1..] == rest
  {
  }

  lemma {:induction false} ScanPassesItems(items: Items, first: bool, depth: nat, suf: string)
    requires WellFormedItems(items) && depth > 0
    ensures Scanned(PrintItems(items, first), depth, suf)
    decreases items, 0
  {
    if items.Item? {
      var a, b, c := Comma(first) + items.pre, Print(items.value), items.post;
      var d := PrintItems(items.rest, false);
      ScanPlain(a, depth, b + (c + (d + suf)));
      ScanPassesValue(items.value, depth, c + (d + suf));
      ScanBoth(a, b, depth, c + (d + suf));
      ScanPlain(c, depth, d + suf);
      ScanBoth(a + b, c, depth, d + suf);
      ScanPassesItems(items.rest, false, depth, suf);
      ScanBoth(a + b + c, d, depth, suf);
    } else {
      ScanPlain("", depth, suf);
    }
  }

  lemma {:induction false} ScanPassesMembers(ms: Members, first: bool, depth: nat, suf: string)
    requires WellFormedMembers(ms) && depth > 0
    ensures Scanned(PrintMembers(ms, first), depth, suf)
    decreases ms, 0
  {
    if ms.Member? {
      var a, b, c, d := Comma(first) + ms.pre, Quote(ms.name), ms.mid + ":", ms.gap;
      var e, f, g := Print(ms.value), ms.post, PrintMembers(ms.rest, false);
      ScanPlain(a, depth, b + (c + (d + (e + (f + (g + suf))))));
      ScanString(ms.name, depth, c + (d + (e + (f + (g + suf)))));
      ScanPlain(c, depth, d + (e + (f + (g + suf))));
      ScanBoth(b, c, depth, d + (e + (f + (g + suf))));
      Associate(b, c, d + (e + (f + (g + suf))));
      ScanBoth(a, b + c, depth, d + (e + (f + (g + suf))));
      ScanPlain(d, depth, e + (f + (g + suf)));
      ScanBoth(a + (b + c), d, depth, e + (f + (g + suf)));
      ScanPassesValue(ms.value, depth, f + (g + suf));
      ScanBoth(a + (b + c) + d, e, depth, f + (g + suf));
      ScanPlain(f, depth, g + suf);
      ScanBoth(a + (b + c) + d + e, f, depth, g + suf);
      ScanPassesMembers(ms.rest, false, depth, suf);
      ScanBoth(a + (b + c) + d + e + f, g, depth, suf);
      MembersText(ms, first);
      Associate(Quote(ms.name), ms.mid, ":");
    } else {
      ScanPlain("", depth, suf);
    }
  }

  lemma MembersText(ms: Members, first: bool)
    requires ms.Member?
    ensures PrintMembers(ms, first)
         == Comma(first) + ms.pre + (Quote(ms.name) + ms.mid + ":") + ms.gap + Print(ms.value) + ms.post
            + PrintMembers(ms.rest, false)
  {
    var lead := Comma(first) + ms.pre;
    assert lead + PrintMember(ms.name, ms.mid, ms.gap, Print(ms.value), ms.post)
        == lead + (Quote(ms.name) + ms.mid + ":") + ms.gap + Print(ms.value) + ms.post;
  }

  lemma PrintStarts(t: Json)
    requires WellFormed(t)
    ensures Print(t) != "" && !IsBlank(Print(t)[0])
  {
  }

  /** From the end of the needle: blanks, the value, blanks. */
  lemma ExtentOfValue(gap: string, v: Json, post: string, suf: string)
    requires AllBlank(gap) && WellFormed(v) && AllBlank(post)
    requires suf != "" && (suf[0] == ',' || suf[0] == '}')
    ensures ValueExtent(gap + (Print(v) + (post + suf))) == Extent(|gap|, |Print(v)| + |post|)
    ensures Print(v) != ""
  {
    var tail := Print(v) + (post + suf);
    assert (gap + tail)[|gap|..] == tail;
    PrintStarts(v);
    SkipBlanksOf(gap, tail);
    ScanPassesValue(v, 0, post + suf);
    ScanPlain(post, 0, suf);
  }

  lemma MemberSplits(k: string, gap: string, value: string, post: string, tail: string)
    ensures PrintMember(k, "", gap, value, post) + tail == Needle(k) + (gap + (value + (post + tail)))
  {
    assert Quote(k) + "" == Quote(k);
    Associate(Needle(k) + gap + value, post, tail);
    Associate(Needle(k) + gap, value, post + tail);
    Associate(Needle(k), gap, value + (post + tail));
  }

  lemma RoundCuts(size: nat, done: string, rest: string, e: Extent)
    requires 0 < size <= |rest| && AtMember(done) && ValueExtent(rest[size..]) == e && e.value > 0
    ensures Round(size, done, rest) == Cut(done, rest, Before(done), size + e.blanks + e.value)
  {
  }

  /** A round at a member erases the member's text. */
  lemma RoundCutsMember(k: string, done: string, gap: string, v: Json, post: string, tail: string)
    requires AllBlank(gap) && WellFormed(v) && AllBlank(post) && AtMember(done)
    requires tail != "" && (tail[0] == ',' || tail[0] == '}')
    ensures var text := PrintMember(k, "", gap, Print(v), post);
            Strip(k, done, text + tail)
            == match Cut(done, text + tail, Before(done), |text|) case Continue(d, r) => Strip(k, d, r)
  {
    var after := gap + (Print(v) + (post + tail));
    MemberSplits(k, gap, Print(v), post, tail);
    ExtentOfValue(gap, v, post, tail);
    MemberLength(k, gap, Print(v), post);
    RoundCutsText(k, done, PrintMember(k, "", gap, Print(v), post), tail, after, |gap|, |Print(v)| + |post|);
  }

  lemma RoundCutsText(k: string, done: string, text: string, tail: string, after: string, blanks: nat, value: nat)
    requires AtMember(done) && text + tail == Needle(k) + after
    requires ValueExtent(after) == Extent(blanks, value) && value > 0 && |text| == |Needle(k)| + blanks + value
    ensures Strip(k, done, text + tail)
            == match Cut(done, text + tail, Before(done), |text|) case Continue(d, r) => Strip(k, d, r)
  {
    AfterNeedle(k, after);
    RoundCuts(|Needle(k)|, done, text + tail, Extent(blanks, value));
    StripAtNeedle(k, done, text + tail);
  }

  lemma StripAtNeedle(k: string, done: string, rest: string)
    requires Needle(k) <= rest
    ensures Strip(k, done, rest)
         == match Round(|Needle(k)|, done, rest) case Finished(text) => text case Continue(d, r) => Strip(k, d, r)
  {
  }

  lemma MemberLength(k: string, gap: string, value: string, post: string)
    ensures |PrintMember(k, "", gap, value, post)| == |Needle(k)| + |gap| + (|value| + |post|)
  {
  }

  lemma AfterNeedle(k: string, after: string)
    ensures Needle(k) <= Needle(k) + after && (Needle(k) + after)[|Needle(k)|..] == after
  {
  }

  // ---- Erasing a member -------------------------------------------------------

  /** The search comes to the end of an opening brace and blanks. */
  predicate EndsOpen(done: string) {
    var b := Before(done);
    b > 0 && done[b - 1] == '{'
  }

  lemma {:induction false} BeforeSkipsBlanks(done: string, blanks: string)
    requires AllBlank(blanks)
    ensures Before(done + blanks) == Before(done)
  {
    if blanks == "" {
      assert done + blanks == done;
    } else {
      var text := done + blanks;
      assert text[..|text| - 1] == done + blanks[..|blanks| - 1];
      assert text[|text| - 1] == blanks[|blanks| - 1];
      BeforeSkipsBlanks(done, blanks[..|blanks| - 1]);
    }
  }

  /** A member found right after an opening brace is erased with the comma after it. */
  lemma EraseFirst(k: string, done: string, gap: string, v: Json, post: string, tail: string)
    requires PlainName(k) && AllBlank(gap) && WellFormed(v) && AllBlank(post)
    requires EndsOpen(done) && tail != "" && (tail[0] == ',' || tail[0] == '}')
    ensures Strip(k, done, PrintMember(k, "", gap, Print(v), post) + tail)
         == Strip(k, done, if tail[0] == ',' then tail[1..] else tail)
  {
    var text := PrintMember(k, "", gap, Print(v), post);
    RoundCutsMember(k, done, gap, v, post, tail);
    CutFirst(done, text, tail);
  }

  lemma FirstOfRest(rest: Members, suf: string)
    requires suf != "" && suf[0] == '}'
    ensures var tail := PrintMembers(rest, false) + suf;
            tail != "" && (tail[0] == ',' || tail[0] == '}')
            && PrintMembers(rest, true) + suf == if tail[0] == ',' then tail[1..] else tail
  {
    if rest.Member? {
      CommaFirst(rest);
      assert ("," + PrintMembers(rest, true) + suf)[1..] == PrintMembers(rest, true) + suf;
    }
  }

  lemma CommaFirst(ms: Members)
    requires ms.Member?
    ensures PrintMembers(ms, false) == "," + PrintMembers(ms, true)
  {
    var text := PrintMember(ms.name, ms.mid, ms.gap, Print(ms.value), ms.post);
    assert PrintMembers(ms, false) == "," + ms.pre + text + PrintMembers(ms.rest, false);
    assert PrintMembers(ms, true) == "" + ms.pre + text + PrintMembers(ms.rest, false);
  }

  lemma CutFirst(done: string, text: string, tail: string)
    requires EndsOpen(done) && text != "" && tail != ""
    ensures Cut(done, text + tail, Before(done), |text|)
         == Continue(done, if tail[0] == ',' then tail[1..] else tail)
  {
    assert (text + tail)[|text|..] == tail;
    assert (text + tail)[|text| + 1..] == tail[1..];
  }
}
