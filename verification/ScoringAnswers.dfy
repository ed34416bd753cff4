/**
 Which answer earns what: the meaning of the normal form of an answer, how lists and pairs as
 the exam forms write them are read, and the score of a question and of an exam in these terms.
 */
module ScoringAnswers {
  import opened Text
  import opened Wrappers
  import opened Scoring
  import opened ScanTheorems
  import T = ScoringTheorems

  // ---- Words up to case -------------------------------------------------------

  predicate IsWhite(c: char) {
    c as int == 32 || 9 <= c as int <= 13
  }

  function WordLength(s: string): (n: nat)
    ensures n <= |s| && (s != "" && !IsWhite(s[0]) ==> n > 0)
  {
    if s == "" || IsWhite(s[0]) then 0 else 1 + WordLength(s[1..])
  }

  /** The words of a text, separated by white space. */
  function Words(s: string): seq<string>
    decreases |s|
  {
    if s == "" then []
    else if IsWhite(s[0]) then Words(s[1..])
    else [s[..WordLength(s)]] + Words(s[WordLength(s)..])
  }

  predicate SameLetter(a: char, b: char) {
    || a == b
    || ('a' <= a <= 'z' && b as int == a as int - 32)
    || ('a' <= b <= 'z' && a as int == b as int - 32)
  }

  predicate SameWord(a: string, b: string) {
    |a| == |b| && forall i :: 0 <= i < |a| ==> SameLetter(a[i], b[i])
  }

  predicate AllSame(a: seq<string>, b: seq<string>) {
    |a| == |b| && forall i :: 0 <= i < |a| ==> SameWord(a[i], b[i])
  }

  /** The same words in the same order, up to the case of letters. */
  predicate SameWords(a: string, b: string) {
    AllSame(Words(a), Words(b))
  }

  // ---- The normal form --------------------------------------------------------

  function InCapitals(s: string): (r: string)
    ensures |r| == |s| && forall i :: 0 <= i < |s| ==> r[i] == Upper(s[i])
  {
    if s == "" then "" else [Upper(s[0])] + InCapitals(s[1..])
  }

  function AllCapitals(words: seq<string>): (r: seq<string>)
    ensures |r| == |words| && forall i :: 0 <= i < |words| ==> r[i] == InCapitals(words[i])
  {
    if words == [] then [] else [InCapitals(words[0])] + AllCapitals(words[1..])
  }

  function Joined(words: seq<string>): string {
    if words == [] then "" else if |words| == 1 then words[0] else words[0] + " " + Joined(words[1..])
  }

  /** What follows the first word of a normal form. */
  function Further(words: seq<string>): string {
    if words == [] then "" else " " + Joined(words)
  }

  lemma {:induction false} InsideWord(s: string)
    ensures Norm(s, false, false) == InCapitals(s[..WordLength(s)]) + Norm(s[WordLength(s)..], true, false)
  {
    if s == "" || IsWhite(s[0]) {
      assert s[..0] == "" && s[0..] == s;
    } else {
      InsideWord(s[1..]);
      NormLetter(s);
      FirstCapital(s, WordLength(s));
      Associate([Upper(s[0])], InCapitals(s[1..][..WordLength(s[1..])]), Norm(s[WordLength(s)..], true, false));
    }
  }

  lemma NormLetter(s: string)
    requires s != "" && !IsWhite(s[0])
    ensures Norm(s, false, false) == [Upper(s[0])] + Norm(s[1..], false, false)
  {
    WhiteIsSpace(s[0]);
  }

  lemma WhiteIsSpace(c: char)
    ensures IsWhite(c) <==> IsSpace(c)
  {
  }

  lemma FirstCapital(s: string, n: nat)
    requires 0 < n <= |s|
    ensures InCapitals(s[..n]) == [Upper(s[0])] + InCapitals(s[1..][..n - 1]) && s[1..][n - 1..] == s[n..]
  {
    assert s[..n][1..] == s[1..][..n - 1];
  }

  /** The normal form is the words in capitals with one space between them. */
  lemma {:induction false} NormJoins(s: string, gap: bool)
    ensures Norm(s, gap, true) == Joined(AllCapitals(Words(s)))
    ensures Norm(s, true, false) == Further(AllCapitals(Words(s)))
    decreases |s|
  {
    if s == "" {
    } else if IsWhite(s[0]) {
      NormJoins(s[1..], true);
    } else {
      NormJoins(s[WordLength(s)..], true);
      JoinWord(s, gap, s[WordLength(s)..]);
    }
  }

  lemma JoinWord(s: string, gap: bool, rest: string)
    requires s != "" && !IsWhite(s[0]) && rest == s[WordLength(s)..]
    requires Norm(rest, true, false) == Further(AllCapitals(Words(rest)))
    ensures Norm(s, gap, true) == Joined(AllCapitals(Words(s)))
    ensures Norm(s, true, false) == Further(AllCapitals(Words(s)))
  {
    NormWord(s, gap);
    WordParts(s, rest);
    JoinFirst(Upper(s[0]), InCapitals(s[1..WordLength(s)]), AllCapitals(Words(rest)), AllCapitals(Words(s)));
  }

  lemma NormWord(s: string, gap: bool)
    requires s != "" && !IsWhite(s[0])
    ensures var more := Norm(s[1..], false, false);
            Norm(s, gap, true) == [Upper(s[0])] + more && Norm(s, true, false) == " " + [Upper(s[0])] + more
  {
    WhiteIsSpace(s[0]);
  }

  lemma WordParts(s: string, rest: string)
    requires s != "" && !IsWhite(s[0]) && rest == s[WordLength(s)..]
    ensures Norm(s[1..], false, false) == InCapitals(s[1..WordLength(s)]) + Norm(rest, true, false)
    ensures AllCapitals(Words(s)) == [[Upper(s[0])] + InCapitals(s[1..WordLength(s)])] + AllCapitals(Words(rest))
  {
    var n := WordLength(s);
    InsideWord(s[1..]);
    FirstCapital(s, n);
    assert s[1..][..n - 1] == s[1..n];
    assert Words(s) == [s[..n]] + Words(rest) && Words(s)[1..] == Words(rest);
  }

  lemma JoinFirst(c: char, more: string, others: seq<string>, all: seq<string>)
    requires all == [[c] + more] + others
    ensures [c] + (more + Further(others)) == Joined(all) && " " + [c] + (more + Further(others)) == Further(all)
  {
    assert all[1..] == others;
  }

  predicate IsWord(s: string) {
    s != "" && forall i :: 0 <= i < |s| ==> !IsWhite(s[i])
  }

  predicate AreWords(words: seq<string>) {
    forall i :: 0 <= i < |words| ==> IsWord(words[i])
  }

  lemma {:induction false} WordIsWord(s: string, n: nat)
    requires n == WordLength(s)
    ensures forall i :: 0 <= i < n ==> !IsWhite(s[i])
    ensures n < |s| ==> IsWhite(s[n])
  {
    if n > 0 {
      WordIsWord(s[1..], n - 1);
      assert forall i :: 1 <= i < n ==> s[i] == s[1..][i - 1];
    }
  }

  lemma {:induction false} WordsAreWords(s: string)
    ensures AreWords(Words(s)) && AreWords(AllCapitals(Words(s)))
    decreases |s|
  {
    if s == "" {
    } else if IsWhite(s[0]) {
      WordsAreWords(s[1..]);
    } else {
      WordIsWord(s, WordLength(s));
      WordsAreWords(s[WordLength(s)..]);
      CapitalsAreWord(s[..WordLength(s)]);
    }
  }

  lemma CapitalsAreWord(w: string)
    requires IsWord(w)
    ensures IsWord(InCapitals(w))
  {
  }

  lemma {:induction false} LengthOfWord(w: string, rest: string)
    requires (forall i :: 0 <= i < |w| ==> !IsWhite(w[i])) && (rest == "" || IsWhite(rest[0]))
    ensures WordLength(w + rest) == |w|
  {
    if w == "" {
      assert w + rest == rest;
    } else {
      assert (w + rest)[0] == w[0] && (w + rest)[1..] == w[1..] + rest;
      LengthOfWord(w[1..], rest);
    }
  }

  lemma FirstWord(w: string, rest: string)
    requires IsWord(w) && (rest == "" || IsWhite(rest[0]))
    ensures Words(w + rest) == [w] + Words(rest)
  {
    LengthOfWord(w, rest);
    assert (w + rest)[0] == w[0] && (w + rest)[..|w|] == w && (w + rest)[|w|..] == rest;
  }

  /** Joined words fall apart into the same words. */
  lemma {:induction false} WordsOfJoined(words: seq<string>)
    requires AreWords(words)
    ensures Words(Joined(words)) == words
  {
    if words == [] {
    } else if |words| == 1 {
      FirstWord(words[0], "");
      assert words[0] + "" == words[0];
    } else {
      var rest := " " + Joined(words[1..]);
      WordsOfJoined(words[1..]);
      FirstWord(words[0], rest);
      assert rest[1..] == Joined(words[1..]) && words[0] + rest == Joined(words);
    }
  }

  lemma CapitalsAgree(a: char, b: char)
    ensures Upper(a) == Upper(b) <==> SameLetter(a, b)
  {
  }

  lemma SameCapitals(a: string, b: string)
    ensures InCapitals(a) == InCapitals(b) <==> SameWord(a, b)
  {
    if |a| == |b| {
      forall i | 0 <= i < |a| ensures InCapitals(a)[i] == InCapitals(b)[i] <==> SameLetter(a[i], b[i]) {
        CapitalsAgree(a[i], b[i]);
      }
      if SameWord(a, b) {
        assert InCapitals(a) == InCapitals(b);
      }
    }
  }

  lemma {:induction false} AllSameCapitals(a: seq<string>, b: seq<string>)
    ensures AllCapitals(a) == AllCapitals(b) <==> AllSame(a, b)
  {
    if |a| == |b| && a != [] {
      SameCapitals(a[0], b[0]);
      AllSameCapitals(a[1..], b[1..]);
      AllSameFirst(a, b);
      SameFirst(InCapitals(a[0]), AllCapitals(a[1..]), InCapitals(b[0]), AllCapitals(b[1..]));
    }
  }

  lemma AllSameFirst(a: seq<string>, b: seq<string>)
    requires a != [] && b != []
    ensures AllSame(a, b) <==> SameWord(a[0], b[0]) && AllSame(a[1..], b[1..])
  {
    if SameWord(a[0], b[0]) && AllSame(a[1..], b[1..]) {
      forall i | 0 <= i < |a| ensures SameWord(a[i], b[i]) {
        if i > 0 { assert SameWord(a[1..][i - 1], b[1..][i - 1]); }
      }
    }
    if AllSame(a, b) {
      forall i | 0 <= i < |a[1..]| ensures SameWord(a[1..][i], b[1..][i]) { assert SameWord(a[i + 1], b[i + 1]); }
    }
  }

  lemma SameFirst<T>(x: T, a: seq<T>, y: T, b: seq<T>)
    ensures [x] + a == [y] + b <==> x == y && a == b
  {
    if [x] + a == [y] + b {
      assert ([x] + a)[0] == x && ([x] + a)[1..] == a && ([y] + b)[0] == y && ([y] + b)[1..] == b;
    }
  }

  /** Two answers have the same normal form exactly when their words are the same up to case. */
  lemma NormDecides(a: string, b: string)
    ensures NormAnswer(a) == NormAnswer(b) <==> SameWords(a, b)
  {
    NormJoins(a, false);
    NormJoins(b, false);
    WordsAreWords(a);
    WordsAreWords(b);
    WordsOfJoined(AllCapitals(Words(a)));
    WordsOfJoined(AllCapitals(Words(b)));
    AllSameCapitals(Words(a), Words(b));
  }

  /** Blanks before an answer do not matter. */
  lemma {:induction false} TrimmedWords(a: string)
    ensures Words(Trimmed(a)) == Words(a)
  {
    if a != "" && IsBlank(a[0]) {
      TrimmedWords(a[1..]);
      Suffix(a, 1, SkipBlanks(a[1..]));
    } else {
      assert a[0..] == a;
    }
  }

  // ---- Reading lists ----------------------------------------------------------

  /** Stands for itself between quotes. */
  predicate Plain(w: string) {
    w != "" && '\"' !in w && '\\' !in w
  }

  /** Stands for itself without quotes. */
  predicate Bare(w: string) {
    w != "" && w[0] != ' ' && w[0] != '\"' && forall i :: 0 <= i < |w| ==> w[i] !in ",;]\t\n\r"
  }

  /** One text of a list, as it is written. */
  datatype Item = InQuotes(text: string) | AsIs(text: string)

  predicate IsItem(x: Item) {
    if x.InQuotes? then Plain(x.text) else Bare(x.text)
  }

  function Quoted(w: string): string {
    "\"" + w + "\""
  }

  function ItemText(x: Item): string {
    if x.InQuotes? then Quoted(x.text) else x.text
  }

  /** The texts with a separator between them. */
  function Row(items: seq<Item>, sep: char): string {
    if items == [] then "" else if |items| == 1 then ItemText(items[0]) else ItemText(items[0]) + [sep] + Row(items[1..], sep)
  }

  predicate WrittenWith(raw: string, items: seq<Item>, sep: char) {
    raw == "[" + Row(items, sep) + "]" || (raw == Row(items, sep) && '[' !in raw)
  }

  predicate AreItems(items: seq<Item>) {
    forall i :: 0 <= i < |items| ==> IsItem(items[i])
  }

  /** A list as keys and answers are written: in brackets or without, with commas or semicolons. */
  predicate IsWritten(raw: string, items: seq<Item>) {
    AreItems(items) && (WrittenWith(raw, items, ',') || WrittenWith(raw, items, ';'))
  }

  function Norms(items: seq<Item>): (r: seq<string>)
    ensures |r| == |items| && forall i :: 0 <= i < |items| ==> r[i] == NormAnswer(items[i].text)
  {
    if items == [] then [] else [NormAnswer(items[0].text)] + Norms(items[1..])
  }

  lemma {:induction false} QuotedTokenRead(w: string, rest: string)
    requires '\"' !in w && '\\' !in w
    ensures QuotedToken(w + "\"" + rest) == (w, |w| + 1)
  {
    if w == "" {
      assert w + "\"" + rest == "\"" + rest;
    } else {
      var s := w + "\"" + rest;
      assert s[0] == w[0] && w[0] in w && s[1..] == w[1..] + "\"" + rest;
      QuotedTokenRead(w[1..], rest);
      assert w == [w[0]] + w[1..];
    }
  }

  lemma {:induction false} BareTokenRead(w: string, rest: string)
    requires forall i :: 0 <= i < |w| ==> w[i] !in TOKEN_STOPS
    requires rest == "" || rest[0] in TOKEN_STOPS
    ensures BareToken(w + rest, TOKEN_STOPS) == w
  {
    if w == "" {
      assert w + rest == rest;
    } else {
      assert (w + rest)[0] == w[0] && (w + rest)[1..] == w[1..] + rest;
      BareTokenRead(w[1..], rest);
    }
  }

  lemma QuotedFirst(w: string, rest: string)
    requires Plain(w)
    ensures Tokens(Quoted(w) + rest) == Prepend([NormAnswer(w)], Tokens(rest))
  {
    var s := Quoted(w) + rest;
    QuotedTokenRead(w, rest);
    assert s[0] == '\"' && s[1..] == w + "\"" + rest && s[1 + (|w| + 1)..] == rest;
  }

  lemma BareFirst(w: string, rest: string)
    requires Bare(w) && (rest == "" || rest[0] == ',' || rest[0] == ';')
    ensures Tokens(w + rest) == Prepend([NormAnswer(w)], Tokens(rest))
  {
    var s := w + rest;
    StopsStop(w);
    BareTokenRead(w, rest);
    assert s[0] == w[0] && s[|w|..] == rest;
  }

  lemma StopsStop(w: string)
    requires Bare(w)
    ensures w[0] !in SET_BLANKS && forall i :: 0 <= i < |w| ==> w[i] !in TOKEN_STOPS
  {
    assert w[0] !in ",;]\t\n\r";
  }

  lemma FirstToken(x: Item, rest: string)
    requires IsItem(x) && (rest == "" || rest[0] == ',' || rest[0] == ';')
    ensures Tokens(ItemText(x) + rest) == Prepend([NormAnswer(x.text)], Tokens(rest))
  {
    if x.InQuotes? {
      QuotedFirst(x.text, rest);
    } else {
      BareFirst(x.text, rest);
    }
  }

  lemma LastToken(x: Item)
    requires IsItem(x)
    ensures Tokens(ItemText(x)) == Some([NormAnswer(x.text)])
  {
    FirstToken(x, "");
    assert ItemText(x) + "" == ItemText(x) && [NormAnswer(x.text)] + [] == [NormAnswer(x.text)];
  }

  lemma TokenAndMore(x: Item, sep: char, more: string)
    requires IsItem(x) && (sep == ',' || sep == ';')
    ensures Tokens(ItemText(x) + [sep] + more) == Prepend([NormAnswer(x.text)], Tokens(more))
  {
    FirstToken(x, [sep] + more);
    SepSkipped(sep, more);
    Associate(ItemText(x), [sep], more);
  }

  lemma SepSkipped(sep: char, more: string)
    requires sep == ',' || sep == ';'
    ensures Tokens([sep] + more) == Tokens(more)
  {
    assert ([sep] + more)[0] == sep && ([sep] + more)[1..] == more;
  }

  lemma {:induction false} RowRead(items: seq<Item>, sep: char)
    requires AreItems(items) && (sep == ',' || sep == ';')
    ensures Tokens(Row(items, sep)) == Some(Norms(items))
  {
    if items == [] {
    } else if |items| == 1 {
      LastToken(items[0]);
      assert Norms(items) == [NormAnswer(items[0].text)];
    } else {
      RowRead(items[1..], sep);
      TokenAndMore(items[0], sep, Row(items[1..], sep));
    }
  }

  /** What stands between an outermost pair of brackets, whatever it is. */
  lemma InnerOf(open: char, x: string, close: char)
    ensures Inner([open] + x + [close], open, close) == x
  {
    var s := [open] + x + [close];
    assert OccursAt(s, [open], 0);
    assert s[|s| - 1] == close && s[1..|s| - 1] == x;
  }

  lemma WrittenIsRead(raw: string, items: seq<Item>, sep: char)
    requires AreItems(items) && (sep == ',' || sep == ';') && WrittenWith(raw, items, sep)
    ensures SetTokens(raw) == Some(Norms(items))
  {
    RowRead(items, sep);
    if raw == "[" + Row(items, sep) + "]" {
      InnerOf('[', Row(items, sep), ']');
    } else {
      NoOpening(raw);
    }
  }

  /** A list is read as its texts in normal form. */
  lemma ListIsRead(raw: string, items: seq<Item>)
    requires IsWritten(raw, items)
    ensures SetTokens(raw) == Some(Norms(items))
  {
    WrittenIsRead(raw, items, if WrittenWith(raw, items, ',') then ',' else ';');
  }

  lemma ListStarts(raw: string, items: seq<Item>, sep: char)
    requires AreItems(items) && WrittenWith(raw, items, sep)
    ensures Trimmed(raw) == raw
  {
    if items != [] {
      ItemStarts(items[0]);
      assert Row(items, sep)[0] == ItemText(items[0])[0];
      TrimmedIsWhole(raw);
    } else if raw != "" {
      TrimmedIsWhole(raw);
    }
  }

  lemma ItemStarts(x: Item)
    requires IsItem(x)
    ensures ItemText(x) != "" && !IsBlank(ItemText(x)[0])
  {
    if x.AsIs? {
      assert x.text[0] !in ",;]\t\n\r";
    }
  }

  // ---- One question -----------------------------------------------------------

  predicate IsSingleKind(kind: string) {
    kind != "multiple_choice" && kind != "multiple_answer" && kind != "partial" && kind != "matching"
  }

  function Only(q: Question, answer: string): Answers {
    map[NumberText(q) := answer]
  }

  lemma TotalOfOne(q: Question, answers: Answers)
    ensures TotalWeight([q]) == q.weight && TotalEarned([q], answers) == Earned(q, answers)
  {
    assert [q][0] == q && [q][1..] == [];
  }

  function Percentage(part: real, whole: real): real {
    if whole == 0.0 then 0.0 else part / whole * 100.0
  }

  lemma ScoreOfOne(q: Question, answers: Answers)
    ensures Score([q], answers) == if !Scannable(q, answers) then None
                                   else Some(Percentage(Earned(q, answers), q.weight))
  {
    TotalOfOne(q, answers);
    assert [q][0] == q;
  }

  lemma OneScore(q: Question, answer: string, d: Detail)
    requires q.weight != 0.0 && Evaluate(q, answer) == Some(d)
    ensures Score([q], Only(q, answer)) == Some(d.earned / q.weight * 100.0)
  {
    ScoreOfOne(q, Only(q, answer));
  }

  lemma AllScore(q: Question, answer: string, ok: bool, d: Detail)
    requires q.weight != 0.0 && Evaluate(q, answer) == Some(d) && d.earned == if ok then q.weight else 0.0
    ensures Score([q], Only(q, answer)) == Some(if ok then 100.0 else 0.0)
  {
    OneScore(q, answer, d);
    Quotients(q.weight);
  }

  lemma Quotients(b: real)
    requires b != 0.0
    ensures b / b * 100.0 == 100.0 && 0.0 / b * 100.0 == 0.0
  {
    assert b / b == 1.0 && 0.0 / b == 0.0;
  }

  /** The text that a question with one answer asks for: the first of its key, or the plain key. */
  function Wanted(q: Question, key: seq<Item>): string {
    if key == [] then q.key else key[0].text
  }

  /** A question with one answer earns its weight for the words of the key up to case and
      white space, and nothing for any other answer. */
  lemma SingleChoice(q: Question, key: seq<Item>, answer: string)
    requires IsSingleKind(q.kind) && IsWritten(q.keyRaw, key) && q.weight != 0.0
    ensures Score([q], Only(q, answer))
            == Some(if !IsBlankAnswer(answer) && SameWords(answer, Wanted(q, key)) then 100.0 else 0.0)
  {
    if IsBlankAnswer(answer) {
      AllScore(q, answer, false, Evaluate(q, answer).value);
    } else {
      ListIsRead(q.keyRaw, key);
      NormDecides(Trimmed(answer), Wanted(q, key));
      TrimmedWords(answer);
      AllScore(q, answer, SameWords(answer, Wanted(q, key)), Evaluate(q, answer).value);
    }
  }

  lemma ListsAreGraded(q: Question, key: seq<Item>, raw: string, answer: seq<Item>)
    requires IsSetKind(q.kind) && IsWritten(q.keyRaw, key) && IsWritten(raw, answer) && !IsBlankAnswer(raw)
    ensures Evaluate(q, raw) == Some(GradeSet(q, Norms(key), Norms(answer)))
  {
    ListIsRead(q.keyRaw, key);
    ListIsRead(raw, answer);
    ListStarts(raw, answer, if WrittenWith(raw, answer, ',') then ',' else ';');
  }

  /** A set question without partial credit earns its weight for the texts of the key in any
      order, each as often as there, and nothing for any other list. */
  lemma WholeSet(q: Question, key: seq<Item>, raw: string, answer: seq<Item>)
    requires IsSetKind(q.kind) && !q.partially && q.weight != 0.0
    requires IsWritten(q.keyRaw, key) && IsWritten(raw, answer)
    ensures Score([q], Only(q, raw))
            == Some(if !IsBlankAnswer(raw) && multiset(Norms(answer)) == multiset(Norms(key)) then 100.0 else 0.0)
  {
    if IsBlankAnswer(raw) {
      AllScore(q, raw, false, Evaluate(q, raw).value);
    } else {
      ListsAreGraded(q, key, raw, answer);
      T.SetsEqualIsMultiset(Norms(answer), Norms(key));
      AllScore(q, raw, SetsEqual(Norms(answer), Norms(key)), GradeSet(q, Norms(key), Norms(answer)));
    }
  }

  predicate IsAmong(text: string, key: seq<Item>) {
    exists j :: 0 <= j < |key| && SameWords(text, key[j].text)
  }

  /** The positions of an answer that hold a text of the key. */
  function Right(answer: seq<Item>, key: seq<Item>): set<int> {
    set i | 0 <= i < |answer| && IsAmong(answer[i].text, key)
  }

  lemma AmongNorms(text: string, key: seq<Item>)
    ensures NormAnswer(text) in Norms(key) <==> IsAmong(text, key)
  {
    if NormAnswer(text) in Norms(key) {
      var j :| 0 <= j < |key| && Norms(key)[j] == NormAnswer(text);
      NormDecides(text, key[j].text);
    }
    if j :| 0 <= j < |key| && SameWords(text, key[j].text) {
      NormDecides(text, key[j].text);
      assert Norms(key)[j] == NormAnswer(text);
    }
  }

  lemma {:induction false} CountConcat(a: seq<string>, b: seq<string>, key: seq<string>)
    ensures CountIn(a + b, key) == CountIn(a, key) + CountIn(b, key)
  {
    if a == [] {
      assert a + b == b;
    } else {
      assert (a + b)[0] == a[0] && (a + b)[1..] == a[1..] + b;
      CountConcat(a[1..], b, key);
    }
  }

  lemma LastCounted(x: string, key: seq<string>)
    ensures CountIn([x], key) == if x in key then 1 else 0
  {
    assert [x][1..] == [];
  }

  lemma {:induction false} LastNorm(ws: seq<Item>, x: Item)
    ensures Norms(ws + [x]) == Norms(ws) + [NormAnswer(x.text)]
  {
    if ws == [] {
      assert ws + [x] == [x] && [x][1..] == [];
    } else {
      assert (ws + [x])[0] == ws[0] && (ws + [x])[1..] == ws[1..] + [x];
      LastNorm(ws[1..], x);
    }
  }

  lemma RightLast(ws: seq<Item>, x: Item, key: seq<Item>)
    ensures |Right(ws + [x], key)| == |Right(ws, key)| + if IsAmong(x.text, key) then 1 else 0
  {
    assert Right(ws + [x], key) == Right(ws, key) + (if IsAmong(x.text, key) then {|ws|} else {});
    assert |ws| !in Right(ws, key);
  }

  lemma {:induction false} CountIsRight(answer: seq<Item>, key: seq<Item>)
    ensures CountIn(Norms(answer), Norms(key)) == |Right(answer, key)|
    decreases |answer|
  {
    if answer != [] {
      var most, x := answer[..|answer| - 1], answer[|answer| - 1];
      assert answer == most + [x];
      CountIsRight(most, key);
      LastNorm(most, x);
      CountConcat(Norms(most), [NormAnswer(x.text)], Norms(key));
      LastCounted(NormAnswer(x.text), Norms(key));
      AmongNorms(x.text, key);
      RightLast(most, x, key);
    }
  }

  /** The part of a hundred that right less wrong makes of a total. */
  function Percent(net: int, total: nat): real
    requires total > 0
  {
    if net <= 0 then 0.0 else net as real / total as real * 100.0
  }

  lemma PortionScore(q: Question, answer: string, net: int, total: nat)
    requires q.weight != 0.0 && total > 0 && Evaluate(q, answer) == Some(Graded(Portion(net, total), q.weight))
    ensures Score([q], Only(q, answer)) == Some(Percent(net, total))
  {
    OneScore(q, answer, Graded(Portion(net, total), q.weight));
    GradedShare(Portion(net, total), q.weight);
    PortionPercent(net, total);
  }

  lemma GradedShare(portion: real, weight: real)
    requires weight != 0.0
    ensures Graded(portion, weight).earned / weight * 100.0 == portion * 100.0
  {
    Cancel(portion, weight);
  }

  lemma PortionPercent(net: int, total: nat)
    requires total > 0
    ensures Portion(net, total) * 100.0 == Percent(net, total)
  {
    assert 0.0 / total as real == 0.0;
  }

  lemma Cancel(a: real, b: real)
    requires b != 0.0
    ensures a * b / b == a
  {
  }

  /** With partial credit, a set question earns the share of the key that right less wrong
      positions make. */
  lemma PartOfSet(q: Question, key: seq<Item>, raw: string, answer: seq<Item>)
    requires IsSetKind(q.kind) && q.partially && q.weight != 0.0 && key != []
    requires IsWritten(q.keyRaw, key) && IsWritten(raw, answer) && !IsBlankAnswer(raw)
    ensures Score([q], Only(q, raw)) == Some(Percent(2 * |Right(answer, key)| - |answer|, |key|))
  {
    ListsAreGraded(q, key, raw, answer);
    CountIsRight(answer, key);
    PortionScore(q, raw, Net(Norms(answer), Norms(key)), |key|);
  }

  // ---- Matching ---------------------------------------------------------------

  function PairText(p: Pair): string {
    Quoted(p.0) + ":" + Quoted(p.1)
  }

  function PairCommas(ps: seq<Pair>): string {
    if ps == [] then "" else if |ps| == 1 then PairText(ps[0]) else PairText(ps[0]) + "," + PairCommas(ps[1..])
  }

  /** An object as the exam forms send it. */
  function ObjectText(ps: seq<Pair>): string {
    "{" + PairCommas(ps) + "}"
  }

  predicate PlainPair(p: Pair) {
    Plain(p.0) && '\"' !in p.1 && '\\' !in p.1
  }

  predicate PlainPairs(ps: seq<Pair>) {
    forall i :: 0 <= i < |ps| ==> PlainPair(ps[i])
  }

  function NormPair(p: Pair): Pair {
    (NormAnswer(p.0), NormAnswer(p.1))
  }

  function NormPairs(ps: seq<Pair>): (r: seq<Pair>)
    ensures |r| == |ps| && forall i :: 0 <= i < |ps| ==> r[i] == NormPair(ps[i])
  {
    if ps == [] then [] else [NormPair(ps[0])] + NormPairs(ps[1..])
  }

  lemma FirstPair(p: Pair, rest: string)
    requires PlainPair(p)
    ensures Pairs(PairText(p) + rest) == [NormPair(p)] + Pairs(rest)
  {
    PairParts(p, rest);
    QuotedTokenRead(p.0, ":" + Quoted(p.1) + rest);
    ColonRead(p.1, rest);
    ValueRead(p.1, rest);
  }

  lemma ColonRead(v: string, rest: string)
    ensures AfterColon(":" + Quoted(v) + rest) == Quoted(v) + rest
  {
    var colon, value := ":" + Quoted(v) + rest, Quoted(v) + rest;
    assert colon[0] == ':' && colon[1..] == value && value[0] == '\"' && value[0..] == value;
  }

  lemma ValueRead(v: string, rest: string)
    requires '\"' !in v && '\\' !in v
    ensures var value := Quoted(v) + rest;
            value != "" && value[0] == '\"' && QuotedToken(value[1..]) == (v, |v| + 1) && value[|v| + 2..] == rest
  {
    QuotedTokenRead(v, rest);
    assert (Quoted(v) + rest)[1..] == v + "\"" + rest;
  }

  lemma PairParts(p: Pair, rest: string)
    ensures var s, colon := PairText(p) + rest, ":" + Quoted(p.1) + rest;
            s != "" && s[0] == '\"' && s[1..] == p.0 + "\"" + colon && |p.0| + 2 <= |s| && s[|p.0| + 2..] == colon
  {
    var s, colon := PairText(p) + rest, ":" + Quoted(p.1) + rest;
    assert s == "\"" + (p.0 + "\"" + colon);
    assert s == ("\"" + p.0 + "\"") + colon;
  }

  lemma {:induction false} PairsRead(ps: seq<Pair>)
    requires PlainPairs(ps)
    ensures Pairs(PairCommas(ps)) == NormPairs(ps)
  {
    if ps == [] {
    } else if |ps| == 1 {
      FirstPair(ps[0], "");
      assert PairText(ps[0]) + "" == PairText(ps[0]) && NormPairs(ps[1..]) == [];
    } else {
      var rest := "," + PairCommas(ps[1..]);
      PairsRead(ps[1..]);
      FirstPair(ps[0], rest);
      assert rest[1..] == PairCommas(ps[1..]) && PairText(ps[0]) + rest == PairCommas(ps);
    }
  }

  lemma ObjectIsRead(ps: seq<Pair>)
    requires PlainPairs(ps)
    ensures ObjectPairs(ObjectText(ps)) == NormPairs(ps)
  {
    PairsRead(ps);
    InnerOf('{', PairCommas(ps), '}');
  }

  predicate SamePair(a: Pair, b: Pair) {
    SameWords(a.0, b.0) && SameWords(a.1, b.1)
  }

  predicate IsPaired(p: Pair, ps: seq<Pair>) {
    exists j :: 0 <= j < |ps| && SamePair(p, ps[j])
  }

  /** The positions of the key whose pair the student has. */
  function Paired(key: seq<Pair>, answer: seq<Pair>): set<int> {
    set i | 0 <= i < |key| && IsPaired(key[i], answer)
  }

  lemma PairedNorms(p: Pair, ps: seq<Pair>)
    ensures NormPair(p) in NormPairs(ps) <==> IsPaired(p, ps)
  {
    if NormPair(p) in NormPairs(ps) {
      var j :| 0 <= j < |ps| && NormPairs(ps)[j] == NormPair(p);
      NormDecides(p.0, ps[j].0);
      NormDecides(p.1, ps[j].1);
    }
    if j :| 0 <= j < |ps| && SamePair(p, ps[j]) {
      NormDecides(p.0, ps[j].0);
      NormDecides(p.1, ps[j].1);
      assert NormPairs(ps)[j] == NormPair(p);
    }
  }

  lemma {:induction false} HitsConcat(a: seq<Pair>, b: seq<Pair>, student: seq<Pair>)
    ensures Hits(a + b, student) == Hits(a, student) + Hits(b, student)
  {
    if a == [] {
      assert a + b == b;
    } else {
      assert (a + b)[0] == a[0] && (a + b)[1..] == a[1..] + b;
      HitsConcat(a[1..], b, student);
    }
  }

  lemma LastHit(p: Pair, student: seq<Pair>)
    ensures Hits([p], student) == if p in student then 1 else 0
  {
    assert [p][1..] == [];
  }

  lemma {:induction false} LastNormPair(ps: seq<Pair>, p: Pair)
    ensures NormPairs(ps + [p]) == NormPairs(ps) + [NormPair(p)]
  {
    if ps == [] {
      assert ps + [p] == [p] && [p][1..] == [];
    } else {
      assert (ps + [p])[0] == ps[0] && (ps + [p])[1..] == ps[1..] + [p];
      LastNormPair(ps[1..], p);
    }
  }

  lemma PairedLast(ps: seq<Pair>, p: Pair, answer: seq<Pair>)
    ensures |Paired(ps + [p], answer)| == |Paired(ps, answer)| + if IsPaired(p, answer) then 1 else 0
  {
    assert Paired(ps + [p], answer) == Paired(ps, answer) + (if IsPaired(p, answer) then {|ps|} else {});
    assert |ps| !in Paired(ps, answer);
  }

  lemma {:induction false} HitsArePaired(key: seq<Pair>, answer: seq<Pair>)
    ensures Hits(NormPairs(key), NormPairs(answer)) == |Paired(key, answer)|
    decreases |key|
  {
    if key != [] {
      var most, p := key[..|key| - 1], key[|key| - 1];
      assert key == most + [p];
      HitsArePaired(most, answer);
      LastNormPair(most, p);
      HitsConcat(NormPairs(most), [NormPair(p)], NormPairs(answer));
      LastHit(NormPair(p), NormPairs(answer));
      PairedNorms(p, answer);
      PairedLast(most, p, answer);
    }
  }

  lemma ObjectIsNoBlank(ps: seq<Pair>)
    ensures IsBlankAnswer(ObjectText(ps)) <==> ps == []
    ensures Trimmed(ObjectText(ps)) == ObjectText(ps)
  {
    var s := ObjectText(ps);
    TrimmedIsWhole(s);
    if ps != [] {
      assert PairCommas(ps)[0] == '\"' && s[1] == '\"';
    }
  }

  lemma ObjectsAreGraded(q: Question, key: seq<Pair>, answer: seq<Pair>)
    requires q.kind == "matching" && q.keyRaw == ObjectText(key) && PlainPairs(key) && PlainPairs(answer) && answer != []
    ensures Evaluate(q, ObjectText(answer)) == Some(GradeMatching(q, NormPairs(key), NormPairs(answer)))
  {
    ObjectIsRead(key);
    ObjectIsRead(answer);
    ObjectIsNoBlank(answer);
  }

  /** Without partial credit, matching earns its weight for as many pairs as the key has, with
      every pair of the key among them. */
  lemma WholeMatching(q: Question, key: seq<Pair>, answer: seq<Pair>)
    requires q.kind == "matching" && !q.partially && q.weight != 0.0
    requires q.keyRaw == ObjectText(key) && PlainPairs(key) && PlainPairs(answer)
    ensures Score([q], Only(q, ObjectText(answer)))
            == Some(if answer != [] && |answer| == |key| == |Paired(key, answer)| then 100.0 else 0.0)
  {
    ObjectIsNoBlank(answer);
    if answer == [] {
      AllScore(q, ObjectText(answer), false, Evaluate(q, ObjectText(answer)).value);
    } else {
      ObjectsAreGraded(q, key, answer);
      HitsArePaired(key, answer);
      T.HitsBound(NormPairs(key), NormPairs(answer));
      AllScore(q, ObjectText(answer), ObjectsEqual(NormPairs(key), NormPairs(answer)),
               GradeMatching(q, NormPairs(key), NormPairs(answer)));
    }
  }

  /** With partial credit, matching earns the share of the pairs of the key that the student has. */
  lemma PartOfMatching(q: Question, key: seq<Pair>, answer: seq<Pair>)
    requires q.kind == "matching" && q.partially && q.weight != 0.0 && key != [] && answer != []
    requires q.keyRaw == ObjectText(key) && PlainPairs(key) && PlainPairs(answer)
    ensures Score([q], Only(q, ObjectText(answer))) == Some(Percent(|Paired(key, answer)|, |key|))
  {
    ObjectsAreGraded(q, key, answer);
    HitsArePaired(key, answer);
    PortionScore(q, ObjectText(answer), Hits(NormPairs(key), NormPairs(answer)), |key|);
  }

  // ---- The exam ---------------------------------------------------------------

  function Weights(qs: seq<Question>, n: nat): real
    requires n <= |qs|
  {
    if n == 0 then 0.0 else Weights(qs, n - 1) + qs[n - 1].weight
  }

  function Times(a: real, b: real): real {
    a * b
  }

  /** The score of a question alone times its weight. */
  function Contribution(q: Question, answers: Answers): real
    requires Score([q], answers).Some?
  {
    Times(q.weight, Score([q], answers).value)
  }

  /** The sum of the first n contributions. */
  function Weighted(qs: seq<Question>, answers: Answers, n: nat): real
    requires n <= |qs| && forall i :: 0 <= i < n ==> Score([qs[i]], answers).Some?
  {
    if n == 0 then 0.0 else Weighted(qs, answers, n - 1) + Contribution(qs[n - 1], answers)
  }

  lemma Alone(q: Question, answers: Answers)
    ensures Score([q], answers).Some? <==> Scannable(q, answers)
    ensures Scannable(q, answers) ==> Earned(q, answers) * 100.0 == Contribution(q, answers)
  {
    ScoreOfOne(q, answers);
    if Scannable(q, answers) {
      NothingForNothing(q, answers);
      Share(Earned(q, answers), q.weight);
    }
  }

  lemma NothingForNothing(q: Question, answers: Answers)
    ensures q.weight == 0.0 ==> Earned(q, answers) == 0.0
  {
  }

  lemma Share(a: real, b: real)
    requires b == 0.0 ==> a == 0.0
    ensures Times(b, Percentage(a, b)) == a * 100.0
  {
    if b != 0.0 {
      assert b * (a / b) == a;
    }
  }

  lemma {:induction false} SumsAgree(qs: seq<Question>, answers: Answers, n: nat)
    requires n <= |qs| && forall i :: 0 <= i < n ==> Scannable(qs[i], answers)
    ensures forall i :: 0 <= i < n ==> Score([qs[i]], answers).Some?
    ensures TotalWeight(qs[..n]) == Weights(qs, n) && TotalEarned(qs[..n], answers) * 100.0 == Weighted(qs, answers, n)
  {
    if n > 0 {
      var q := qs[n - 1];
      SumsAgree(qs, answers, n - 1);
      Alone(q, answers);
      assert qs[..n] == qs[..n - 1] + [q];
      T.TotalConcat(qs[..n - 1], [q], answers);
      TotalOfOne(q, answers);
    }
  }

  /** The score of an exam is the mean of the scores of its questions by their weights. */
  lemma ScoreIsWeightedMean(qs: seq<Question>, answers: Answers)
    ensures Score(qs, answers).Some? <==> forall i :: 0 <= i < |qs| ==> Score([qs[i]], answers).Some?
    ensures Score(qs, answers).Some? ==>
              Score(qs, answers).value == if Weights(qs, |qs|) == 0.0 then 0.0 else Weighted(qs, answers, |qs|) / Weights(qs, |qs|)
  {
    forall i | 0 <= i < |qs| ensures Score([qs[i]], answers).Some? <==> Scannable(qs[i], answers) {
      Alone(qs[i], answers);
    }
    if Score(qs, answers).Some? {
      SumsAgree(qs, answers, |qs|);
      assert qs[..|qs|] == qs;
      if Weights(qs, |qs|) != 0.0 {
        Rescaled(TotalEarned(qs, answers), Weights(qs, |qs|));
      }
    }
  }

  lemma Rescaled(a: real, b: real)
    requires b != 0.0
    ensures a / b * 100.0 == a * 100.0 / b
  {
    assert a / b * b == a;
    assert (a / b * 100.0) * b == a * 100.0;
  }
}
