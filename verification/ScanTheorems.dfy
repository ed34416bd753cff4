/**
 When the token scanner of the scoring code comes to an end. A closing bracket outside a
 quoted token leaves it where it is, turn after turn; nothing else does.
 */
module ScanTheorems {
  import opened Wrappers
  import opened Text
  import opened Scoring

  // ---- Turns ------------------------------------------------------------------

  lemma {:induction false} SkipsToTokens(s: string)
    ensures Tokens(s) == Tokens(s[SkipSet(s)..])
    ensures SkipSet(s) < |s| ==> s[SkipSet(s)] !in SET_BLANKS
  {
    if s != "" && s[0] in SET_BLANKS {
      SkipsToTokens(s[1..]);
      assert s[1..][SkipSet(s[1..])..] == s[SkipSet(s)..];
    } else {
      assert s[0..] == s;
    }
  }

  lemma PrependTwice(a: seq<string>, b: seq<string>, rest: Option<seq<string>>)
    ensures Prepend(a, Prepend(b, rest)) == Prepend(a + b, rest)
  {
    if rest.Some? {
      assert a + (b + rest.value) == a + b + rest.value;
    }
  }

  lemma SkippingKeepsTokens(s: string, at: nat)
    requires at <= |s|
    ensures var i := at + SkipSet(s[at..]);
            i <= |s| && Tokens(s[at..]) == Tokens(s[i..]) && (i < |s| ==> s[i] !in SET_BLANKS)
  {
    var skipped := SkipSet(s[at..]);
    SkipsToTokens(s[at..]);
    Suffix(s, at, skipped);
    if at + skipped < |s| {
      assert s[at + skipped] == s[at..][skipped];
    }
  }

  lemma QuotedRead(s: string, i: nat, out: seq<string>)
    requires i < |s| && s[i] == '\"'
    ensures var r := ReadToken(s, i, out); r.at > i && Prepend(r.out, Tokens(s[r.at..])) == Prepend(out, Tokens(s[i..]))
  {
    var (tok, used) := QuotedToken(s[i + 1..]);
    var t := s[i..];
    assert t[0] == s[i] && t[1..] == s[i + 1..];
    Suffix(s, i, 1 + used);
    PrependTwice(out, Kept(tok), Tokens(s[i + 1 + used..]));
  }

  lemma BareRead(s: string, i: nat, out: seq<string>)
    requires i < |s| && s[i] != '\"' && s[i] !in SET_BLANKS
    ensures var r := ReadToken(s, i, out);
            && (r.at > i ==> Prepend(r.out, Tokens(s[r.at..])) == Prepend(out, Tokens(s[i..])))
            && (r.at == i ==> r.out == out && Tokens(s[i..]) == None)
  {
    var tok := BareToken(s[i..], TOKEN_STOPS);
    assert s[i..][0] == s[i];
    Suffix(s, i, |tok|);
    PrependTwice(out, Kept(tok), Tokens(s[i + |tok|..]));
    if tok == "" {
      assert out + [] == out;
    }
  }

  /** What the scanner has, with what is still to come. */
  function Whole(s: string, sc: Scanner): Option<seq<string>>
    requires sc.at <= |s|
  {
    Prepend(sc.out, Tokens(s[sc.at..]))
  }

  /** A turn loses nothing; one that does not move the scanner leaves it there for good. */
  predicate TurnIsRight(s: string, sc: Scanner)
    requires sc.at < |s|
  {
    var r := Turn(s, sc);
    Whole(s, r) == Whole(s, sc) && (r.at == sc.at ==> r == sc && Whole(s, sc) == None)
  }

  lemma SkippedIsWhole(s: string, sc: Scanner)
    requires sc.at < |s|
    ensures var i := sc.at + SkipSet(s[sc.at..]);
            i <= |s| && Whole(s, Scanner(i, sc.out)) == Whole(s, sc) && (i < |s| ==> s[i] !in SET_BLANKS)
  {
    SkippingKeepsTokens(s, sc.at);
  }

  lemma ReadIsRight(s: string, i: nat, out: seq<string>)
    requires i < |s| && s[i] !in SET_BLANKS
    ensures var r := ReadToken(s, i, out);
            Whole(s, r) == Whole(s, Scanner(i, out)) && (r.at == i ==> r == Scanner(i, out) && Whole(s, r) == None)
  {
    if s[i] == '\"' { QuotedRead(s, i, out); } else { BareRead(s, i, out); }
  }

  lemma TurnsAreRight(s: string, sc: Scanner)
    requires sc.at < |s|
    ensures TurnIsRight(s, sc)
  {
    var i := sc.at + SkipSet(s[sc.at..]);
    var r := Turn(s, sc);
    assert i < |s| ==> r == ReadToken(s, i, sc.out);
    assert i == |s| ==> r == Scanner(i, sc.out);
    assert r.at == sc.at ==> i < |s| && Scanner(i, sc.out) == sc;
    SkippedIsWhole(s, sc);
    if i < |s| {
      ReadIsRight(s, i, sc.out);
    }
  }

  /** Where a turn does not move the scanner, no turn ever does. */
  lemma {:induction false} FixedForEver(s: string, sc: Scanner, n: nat)
    requires sc.at < |s| && Turn(s, sc) == sc
    ensures Turns(s, sc, n) == sc
  {
    if n > 0 {
      FixedForEver(s, sc, n - 1);
    }
  }

  /** The same for any account of what is still to come that the turns keep. */
  lemma {:induction false} EndsWithWhole(s: string, sc: Scanner, n: nat, whole: Scanner -> Option<seq<string>>)
    requires sc.at <= |s| && ReachesEnd(s, sc, n)
    requires forall x: Scanner :: x.at == |s| ==> whole(x) == Some(x.out)
    requires forall x: Scanner :: x.at < |s| ==> Turn(s, x) == x || whole(Turn(s, x)) == whole(x)
    ensures whole(sc) == Some(Turns(s, sc, n).out)
    decreases n
  {
    if sc.at < |s| {
      if Turn(s, sc) == sc {
        FixedForEver(s, sc, n);
      } else {
        EndsWithWhole(s, Turn(s, sc), n - 1, whole);
      }
    }
  }

  lemma NothingLeft(s: string, sc: Scanner)
    requires sc.at == |s|
    ensures Whole(s, sc) == Some(sc.out)
  {
    assert s[sc.at..] == "" && sc.out + [] == sc.out;
  }

  lemma EndsWithTokens(s: string, sc: Scanner, n: nat)
    requires sc.at <= |s| && ReachesEnd(s, sc, n)
    ensures Whole(s, sc) == Some(Turns(s, sc, n).out)
  {
    var whole := (x: Scanner) => if x.at <= |s| then Whole(s, x) else None;
    forall x: Scanner | x.at == |s| ensures whole(x) == Some(x.out) { NothingLeft(s, x); }
    forall x: Scanner | x.at < |s| ensures Turn(s, x) == x || whole(Turn(s, x)) == whole(x) { TurnsAreRight(s, x); }
    EndsWithWhole(s, sc, n, whole);
  }

  lemma {:induction false} TokensEnd(s: string, sc: Scanner) returns (n: nat)
    requires sc.at <= |s| && Whole(s, sc).Some?
    ensures ReachesEnd(s, sc, n)
    decreases |s| - sc.at
  {
    if sc.at == |s| {
      n := 0;
    } else {
      TurnsAreRight(s, sc);
      var rest := TokensEnd(s, Turn(s, sc));
      n := rest + 1;
    }
  }

  /** The loop comes to its end exactly when the specification yields tokens, and then with
      these tokens. */
  lemma HaltsWithTokens(s: string)
    ensures Halts(s, START) <==> Tokens(s).Some?
    ensures forall n :: ReachesEnd(s, START, n) ==> Tokens(s) == Some(Turns(s, START, n).out)
  {
    assert s[0..] == s;
    forall n | ReachesEnd(s, START, n) ensures Tokens(s) == Some(Turns(s, START, n).out) {
      EndsWithTokens(s, START, n);
      assert Tokens(s).Some? ==> [] + Tokens(s).value == Tokens(s).value;
    }
    if Tokens(s).Some? {
      var n := TokensEnd(s, START);
    }
  }

  // ---- The loop ---------------------------------------------------------------

  method SkipSeparators(s: string, from: nat) returns (i: nat)
    requires from <= |s|
    ensures i == from + SkipSet(s[from..])
  {
    i := from;
    while i < |s| && s[i] in SET_BLANKS
      invariant from <= i <= |s| && i + SkipSet(s[i..]) == from + SkipSet(s[from..])
    {
      assert s[i..][1..] == s[i + 1..];
      i := i + 1;
    }
  }

  /** One turn: the loop over separators, then the loop over a quoted or a bare token. */
  method ScanToken(s: string, from: nat, before: seq<string>) returns (i: nat, out: seq<string>)
    requires from < |s|
    ensures Scanner(i, out) == Turn(s, Scanner(from, before))
  {
    i := SkipSeparators(s, from);
    out := before;
    if i >= |s| {
      return;
    }
    var tok;
    if s[i] == '\"' {
      i, tok := ScanQuoted(s, i + 1);
    } else {
      i, tok := ScanBare(s, i);
    }
    var word := NormAns(tok);
    out := out + if tok == "" then [] else [word];
  }

  lemma EscapeRead(s: string, i: nat)
    requires i < |s| && s[i] == '\\'
    ensures var next := if i + 2 <= |s| then i + 2 else |s|;
            var rest := QuotedToken(s[next..]);
            QuotedToken(s[i..]) == (rest.0, next - i + rest.1)
  {
    if i + 2 <= |s| {
      Suffix(s, i, 2);
    }
  }

  lemma CharacterRead(s: string, i: nat)
    requires i < |s| && s[i] != '\\' && s[i] != '\"'
    ensures var rest := QuotedToken(s[i + 1..]); QuotedToken(s[i..]) == ([s[i]] + rest.0, 1 + rest.1)
  {
    Suffix(s, i, 1);
  }

  method ScanQuoted(s: string, from: nat) returns (i: nat, tok: string)
    requires from <= |s|
    ensures (tok, i - from) == QuotedToken(s[from..])
  {
    i, tok := from, "";
    EmptyFirst(QuotedToken(s[from..]).0);
    while i < |s|
      invariant from <= i <= |s|
      invariant QuotedToken(s[from..]).0 == tok + QuotedToken(s[i..]).0
      invariant QuotedToken(s[from..]).1 == i - from + QuotedToken(s[i..]).1
    {
      if s[i] == '\\' {
        EscapeRead(s, i);
        i := if i + 2 <= |s| then i + 2 else |s|;
      } else if s[i] == '\"' {
        EmptyLast(tok);
        return i + 1, tok;
      } else {
        CharacterRead(s, i);
        Associate(tok, [s[i]], QuotedToken(s[i + 1..]).0);
        tok := tok + [s[i]];
        i := i + 1;
      }
    }
    EmptyLast(tok);
  }

  lemma EmptyFirst(t: string)
    ensures "" + t == t
  {
  }

  lemma EmptyLast(t: string)
    ensures t + "" == t
  {
  }

  method ScanBare(s: string, from: nat) returns (i: nat, tok: string)
    requires from <= |s|
    ensures tok == BareToken(s[from..], TOKEN_STOPS) && i == from + |tok|
  {
    i, tok := from, "";
    while i < |s| && s[i] !in TOKEN_STOPS
      invariant from <= i <= |s| && i == from + |tok|
      invariant BareToken(s[from..], TOKEN_STOPS) == tok + BareToken(s[i..], TOKEN_STOPS)
    {
      Suffix(s, i, 1);
      assert tok + ([s[i]] + BareToken(s[i + 1..], TOKEN_STOPS)) == (tok + [s[i]]) + BareToken(s[i + 1..], TOKEN_STOPS);
      tok := tok + [s[i]];
      i := i + 1;
    }
  }

  /** The whole loop, on a list on which it ends. */
  method ParseSetTokens(raw: string) returns (out: seq<string>)
    requires SetTokens(raw).Some?
    ensures SetTokens(raw) == Some(out)
  {
    var s := Inner(raw, '[', ']');
    var i: nat := 0;
    out := [];
    assert s[0..] == s && [] + Tokens(s).value == Tokens(s).value;
    while i < |s|
      invariant i <= |s| && Whole(s, Scanner(i, out)) == Tokens(s)
      decreases |s| - i
    {
      TurnsAreRight(s, Scanner(i, out));
      i, out := ScanToken(s, i, out);
    }
    NothingLeft(s, Scanner(i, out));
  }

  // ---- Brackets outside quoted tokens ------------------------------------------

  datatype Where = Between | InWord | InQuotes | Escaped

  function Move(w: Where, c: char): Where {
    match w
    case Between => if c in SET_BLANKS then Between else if c == '\"' then InQuotes else InWord
    case InWord => if c in SET_BLANKS && c != ' ' then Between else InWord
    case InQuotes => if c == '\\' then Escaped else if c == '\"' then Between else InQuotes
    case Escaped => InQuotes
  }

  /** Reading the text character by character, a closing bracket comes outside a quoted token. */
  predicate BareBracket(s: string, w: Where) {
    s != "" && ((s[0] == ']' && (w.Between? || w.InWord?)) || BareBracket(s[1..], Move(w, s[0])))
  }

  lemma {:induction false} WordMeetsBracket(s: string)
    ensures BareBracket(s, InWord) <==> BareBracket(s[|BareToken(s, TOKEN_STOPS)|..], Between)
  {
    if s == "" || s[0] in TOKEN_STOPS {
      assert s[0..] == s;
    } else {
      WordMeetsBracket(s[1..]);
      Suffix(s, 1, |BareToken(s[1..], TOKEN_STOPS)|);
    }
  }

  lemma {:induction false} QuotesHideBrackets(s: string)
    ensures BareBracket(s, InQuotes) <==> BareBracket(s[QuotedToken(s).1..], Between)
    decreases |s|
  {
    if s == "" {
    } else if s[0] == '\\' {
      if |s| >= 2 {
        QuotesHideBrackets(s[2..]);
        Suffix(s, 2, QuotedToken(s[2..]).1);
        Suffix(s, 1, 1);
      } else {
        assert s[1..] == "" && s[|s|..] == "";
      }
    } else if s[0] != '\"' {
      QuotesHideBrackets(s[1..]);
      Suffix(s, 1, QuotedToken(s[1..]).1);
    }
  }

  lemma {:induction false} StuckAtBracket(s: string)
    ensures Tokens(s) == None <==> BareBracket(s, Between)
    decreases |s|
  {
    if s == "" {
    } else if s[0] in SET_BLANKS {
      StuckAtBracket(s[1..]);
    } else if s[0] == '\"' {
      var used := QuotedToken(s[1..]).1;
      QuotesHideBrackets(s[1..]);
      Suffix(s, 1, used);
      StuckAtBracket(s[1 + used..]);
    } else if s[0] != ']' {
      var tok := BareToken(s, TOKEN_STOPS);
      assert tok == [s[0]] + BareToken(s[1..], TOKEN_STOPS);
      WordMeetsBracket(s[1..]);
      Suffix(s, 1, |tok| - 1);
      StuckAtBracket(s[|tok|..]);
    }
  }

  /** The loop never ends exactly when a closing bracket stands outside a quoted token. */
  lemma HangsAtBareBracket(s: string)
    ensures Halts(s, START) <==> !BareBracket(s, Between)
  {
    HaltsWithTokens(s);
    StuckAtBracket(s);
  }

  // ---- Grading ----------------------------------------------------------------

  /** The list in a raw answer holds such a bracket. */
  predicate Hangs(raw: string) {
    BareBracket(Inner(raw, '[', ']'), Between)
  }

  lemma SetTokensHang(raw: string)
    ensures SetTokens(raw) == None <==> Hangs(raw)
    ensures SetTokens(raw).Some? <==> Halts(Inner(raw, '[', ']'), START)
  {
    StuckAtBracket(Inner(raw, '[', ']'));
    HaltsWithTokens(Inner(raw, '[', ']'));
  }

  /** No answer: nothing is scanned. */
  predicate IsBlankAnswer(answer: string) {
    var ans := Trimmed(answer);
    ans == "" || ans == "[]" || ans == "{}"
  }

  /** Grading an answer never ends exactly when one of the lists it scans holds a bare bracket:
      the student's and the key's for set questions, the key's for questions with one answer. */
  lemma GradingHangs(q: Question, answer: string)
    ensures Evaluate(q, answer) == None
            <==> !IsBlankAnswer(answer) && q.kind != "matching"
                 && (Hangs(q.keyRaw) || (IsSetKind(q.kind) && Hangs(Trimmed(answer))))
  {
    SetTokensHang(q.keyRaw);
    SetTokensHang(Trimmed(answer));
  }

  /** Without an opening bracket the whole answer is the list. */
  lemma NoOpening(raw: string)
    requires '[' !in raw
    ensures Inner(raw, '[', ']') == raw
  {
    forall i: nat | i < |raw| ensures !OccursAt(raw, ['['], i) {
      assert raw[i] in raw && raw[i..i + 1][0] == raw[i];
    }
    FindIsFirst(raw, ['['], 0);
  }

  /** A student who answers `A]` to a set question makes its grading hang. */
  lemma StrayBracketHangs(q: Question)
    requires IsSetKind(q.kind)
    ensures Evaluate(q, "A]") == None
  {
    var ans := "A]";
    NoOpening(ans);
    TrimmedIsWhole(ans);
    BracketBehindWord();
    GradingHangs(q, ans);
  }

  lemma TrimmedIsWhole(ans: string)
    requires ans != "" && !IsBlank(ans[0])
    ensures Trimmed(ans) == ans
  {
  }

  lemma BracketBehindWord()
    ensures BareBracket("A]", Between)
  {
    assert "A]"[1..] == "]" && BareBracket("]", InWord);
  }

  lemma OneIsOne(q: Question)
    requires q.number == 1
    ensures NumberText(q) == "1"
  {
  }

  /** A bracket inside a quoted token is harmless. */
  lemma QuotedBracketEnds()
    ensures Halts("\"a]\"", START)
  {
    var s := "\"a]\"";
    assert s[1..] == "a]\"" && s[1..][1..] == "]\"" && s[1..][1..][1..] == "\"" && "\""[1..] == "";
    assert !BareBracket("\"", InQuotes);
    assert !BareBracket("]\"", InQuotes);
    assert !BareBracket("a]\"", InQuotes);
    HangsAtBareBracket(s);
  }
}
