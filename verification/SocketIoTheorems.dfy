/**
 What the Socket.IO codec gives back of what it was given.
 */
module SocketIoTheorems {
  import opened Wrappers
  import opened Text
  import opened JsonText
  import opened JobText
  import opened SocketIo

  // ---- Messages ---------------------------------------------------------------

  lemma {:induction false} FindLastAtEnd(s: string, c: char)
    requires s != "" && s[|s| - 1] == c
    ensures FindLast(s, c) == |s| - 1
  {
  }

  lemma {:induction false} FindsAt(s: string, c: char, from: nat, p: nat)
    requires from <= p < |s| && s[p] == c && forall i :: from <= i < p ==> s[i] != c
    ensures Find(s, [c], from) == p
    decreases p - from
  {
    assert OccursAt(s, [c], p) by { assert s[p..p + 1] == [c]; }
    if from < p {
      assert s[from..from + 1][0] != c;
      FindsAt(s, c, from + 1, p);
    }
  }

  /** The positions in a marshalled message. */
  lemma MarshalChars(event: string, payload: string)
    ensures var data, e := Marshal(event, payload), Escape(event);
            && |data| == |e| + |payload| + 5 && data[0] == '[' && data[1] == '\"' && data[|e| + 2] == '\"'
            && data[|e| + 3] == ',' && data[|data| - 1] == ']'
  {
  }

  lemma MarshalSlices(event: string, payload: string)
    ensures var data, e := Marshal(event, payload), Escape(event);
            data[2..] == e + "\"" + ("," + payload + "]") && data[|e| + 4..] == payload + "]"
  {
    Cut("[\"", Escape(event) + "\"" + ("," + payload + "]"));
    Cut("[\"" + Escape(event) + "\",", payload + "]");
    var data, e := Marshal(event, payload), Escape(event);
    assert data == "[\"" + (e + "\"" + ("," + payload + "]"));
    assert data == "[\"" + e + "\"," + (payload + "]");
  }

  lemma Cut(a: string, b: string)
    ensures (a + b)[|a|..] == b
  {
  }

  lemma {:induction false} SpacesStop(s: string)
    ensures SkipSpaces(s + "]") == SkipSpaces(s)
  {
    if s == "" {
      assert "" + "]" == "]";
    } else {
      assert (s + "]")[1..] == s[1..] + "]";
      SpacesStop(s[1..]);
    }
  }

  lemma QuotesFound(event: string, payload: string)
    ensures var data, e := Marshal(event, payload), Escape(event);
            |data| > 1 && FindClosing(data, 1) == |e| + 2 && |e| + 2 <= |data| && data[2..|e| + 2] == e
  {
    var data, e := Marshal(event, payload), Escape(event);
    MarshalChars(event, payload);
    MarshalSlices(event, payload);
    EscapeWellEscaped(event);
    ClosingQuoteOfEscaped(e, "," + payload + "]");
    assert data[2..][..|e|] == e;
  }

  lemma EventFound(event: string, payload: string)
    ensures var data, e := Marshal(event, payload), Escape(event);
            && Find(data, "\"", 0) == 1 && FindClosing(data, 1) == |e| + 2 && data[2..|e| + 2] == e
            && Find(data, ",", |e| + 2) == |e| + 3 && FindLast(data, ']') == |data| - 1
  {
    var data, e := Marshal(event, payload), Escape(event);
    MarshalChars(event, payload);
    QuotesFound(event, payload);
    FindsAt(data, '\"', 0, 1);
    FindsAt(data, ',', |e| + 2, |e| + 3);
    FindLastAtEnd(data, ']');
  }

  lemma PayloadFound(event: string, payload: string)
    ensures var data, e, n := Marshal(event, payload), Escape(event), SkipSpaces(payload);
            && SkipSpaces(data[|e| + 4..]) == n && |data| == |e| + |payload| + 5
            && data[|e| + 4 + n..|data| - 1] == payload[n..]
  {
    var data, e, n := Marshal(event, payload), Escape(event), SkipSpaces(payload);
    MarshalChars(event, payload);
    MarshalSlices(event, payload);
    SpacesStop(payload);
    Inner(data, |e| + 4, payload, n);
  }

  lemma Inner(data: string, at: nat, payload: string, n: nat)
    requires at <= |data| && data[at..] == payload + "]" && n <= |payload|
    ensures |data| == at + |payload| + 1 && data[at + n..|data| - 1] == payload[n..]
  {
    assert data[at + n..|data| - 1] == data[at..][n..|payload|];
  }

  /** Parsing a marshalled message, for every event and payload: the event comes back as it
      was escaped, the payload without its leading blanks; a payload of blanks only makes the
      message unreadable. */
  lemma ParseMarshalled(event: string, payload: string)
    ensures ParseMessage(Marshal(event, payload))
            == var n := SkipSpaces(payload);
               if n == |payload| then None else Some(Message(Escape(event), payload[n..]))
  {
    var data, e, n := Marshal(event, payload), Escape(event), SkipSpaces(payload);
    MarshalChars(event, payload);
    EventFound(event, payload);
    PayloadFound(event, payload);
    ParseFrom(data, |e| + 2, |e| + 3, n, e, payload[n..]);
  }

  /** A message, given the positions the parser finds. */
  lemma ParseFrom(data: string, p2: nat, comma: nat, n: nat, event: string, payload: string)
    requires |data| >= 4 && data[0] == '[' && Find(data, "\"", 0) == 1 && FindClosing(data, 1) == p2 && 2 <= p2
    requires Find(data, ",", p2) == comma < |data| && SkipSpaces(data[comma + 1..]) == n
    requires comma + 1 + n < |data| && FindLast(data, ']') == |data| - 1
    requires data[2..p2] == event && data[comma + 1 + n..|data| - 1] == payload
    ensures ParseMessage(data) == if payload == "" then None else Some(Message(event, payload))
  {
  }

  /** Event and payload come back as they were exactly when the event needs no escape and
      the payload is not empty and has no leading blank. */
  lemma MarshalRoundTrip(event: string, payload: string)
    ensures ParseMessage(Marshal(event, payload)) == Some(Message(event, payload))
            <==> Escape(event) == event && payload != "" && payload[0] != ' ' && payload[0] != '\t'
  {
    ParseMarshalled(event, payload);
    var n := SkipSpaces(payload);
    assert n == 0 <==> payload == "" || (payload[0] != ' ' && payload[0] != '\t');
    assert n == 0 ==> payload[n..] == payload;
    assert n > 0 ==> |payload[n..]| < |payload|;
  }

  // ---- Payloads ---------------------------------------------------------------

  /** The escaped value of the first entry with the name; nothing if there is none. */
  function Lookup(pairs: Pairs, name: string): string {
    if pairs == [] then "" else if pairs[0].0 == name then Escape(pairs[0].1) else Lookup(pairs[1..], name)
  }

  lemma {:induction false} PlainChars(s: string)
    requires Escape(s) == s
    ensures forall i :: 0 <= i < |s| ==> s[i] != '\"' && s[i] != '\\'
  {
    if s != "" {
      EscapeGrows(s[1..]);
      assert |EscapeChar(s[0])| == 1;
      assert Escape(s)[1..] == Escape(s[1..]);
      PlainChars(s[1..]);
    }
  }

  lemma {:induction false} EscapeGrows(s: string)
    ensures |Escape(s)| >= |s|
  {
    if s != "" {
      EscapeGrows(s[1..]);
    }
  }

  lemma EscapeInjective(a: string, b: string)
    requires Escape(a) == Escape(b)
    ensures a == b
  {
    UnescapeEscape(a);
    UnescapeEscape(b);
  }

  lemma TokenShape(name: string, c: string, t: string)
    requires WellEscaped(c) && forall i :: 0 <= i < |name| ==> name[i] != '\"' && name[i] != '\\'
    requires Quote(c) <= t && Quote(name) <= t
    ensures c == name
  {
    var n := |name|;
    assert forall j :: 0 <= j < |c| ==> c[j] == Quote(c)[j + 1] == t[j + 1];
    assert forall j :: 0 <= j < n ==> name[j] == Quote(name)[j + 1] == t[j + 1];
    assert t[|c| + 1] == Quote(c)[|c| + 1] == '\"';
    assert t[n + 1] == Quote(name)[n + 1] == '\"';
    forall j | 0 <= j < |c| && c[j] == '\"' ensures j > 0 && c[j - 1] == '\\' {
      QuoteFollowsBackslash(c, j);
    }
    assert n <= |c|;
    assert forall j :: 0 <= j < n ==> c[j] == name[j];
    assert n > 0 ==> c[n - 1] != '\\';
  }

  /** A quoted name at the start of a token is the whole token. */
  lemma NeedleIsToken(name: string, v: string, suf: string)
    requires Escape(name) == name
    ensures Quote(name) <= Quote(Escape(v)) + suf <==> v == name
  {
    PlainChars(name);
    EscapeWellEscaped(v);
    if Quote(name) <= Quote(Escape(v)) + suf {
      TokenShape(name, Escape(v), Quote(Escape(v)) + suf);
      EscapeInjective(v, name);
    }
  }

  lemma {:induction false} StringPassed(c: string, suf: string, needle: string)
    requires WellEscaped(c)
    ensures Scan(c + "\"" + suf, needle, true, false) == Scan(suf, needle, false, false)
  {
    var t := c + "\"" + suf;
    if c == "" {
      assert t[0] == '\"' && t[1..] == suf;
    } else if c[0] == '\\' {
      assert t[1..] != "" && t[1..][1..] == c[2..] + "\"" + suf;
      StringPassed(c[2..], suf, needle);
    } else {
      assert t[1..] == c[1..] + "\"" + suf;
      StringPassed(c[1..], suf, needle);
    }
  }

  /** A token that is not a hit is passed. */
  lemma TokenPassed(v: string, suf: string, needle: string)
    requires Hit(Quote(Escape(v)) + suf, needle).None?
    ensures Scan(Quote(Escape(v)) + suf, needle, false, false) == Scan(suf, needle, false, false)
  {
    var t := Quote(Escape(v)) + suf;
    EscapeWellEscaped(v);
    assert t[0] == '\"' && t[1..] == Escape(v) + "\"" + suf;
    StringPassed(Escape(v), suf, needle);
  }

  /** Outside strings only a quote can start a name. */
  lemma CharPassed(c: char, suf: string, name: string)
    requires c != '\"' && c != '\\'
    ensures Scan([c] + suf, Quote(name), false, false) == Scan(suf, Quote(name), false, false)
  {
    var t := [c] + suf;
    assert t[0] == c && t[1..] == suf;
    assert Quote(name)[0] == '\"';
  }

  lemma ValueFound(v: string, suf: string)
    ensures MemberString(":" + (Quote(Escape(v)) + suf)) == Some(Escape(v))
  {
    var c, value := Escape(v), Quote(Escape(v)) + suf;
    var t := ":" + value;
    assert t[0] == ':' && SkipBlanks(t) == 0 && t[0..] == t && t[1..] == value;
    assert value[0] == '\"' && SkipBlanks(value) == 0 && value[0..] == value;
    EscapeWellEscaped(v);
    QuotedValue(c, suf);
  }

  lemma QuotedValue(c: string, suf: string)
    requires WellEscaped(c)
    ensures var value := Quote(c) + suf; ClosingQuote(value[1..]) == |c| && value[1..1 + |c|] == c
  {
    InsideQuotes(c, suf);
    ClosingQuoteOfEscaped(c, suf);
  }

  lemma InsideQuotes(c: string, suf: string)
    ensures var value := Quote(c) + suf; value[1..] == c + "\"" + suf && value[1..1 + |c|] == c
  {
  }

  lemma NoMember(t: string)
    requires t != "" && (t[0] == ',' || t[0] == '}')
    ensures MemberString(t) == None
  {
    assert SkipBlanks(t) == 0 && t[0..] == t;
  }

  lemma AfterNeedle(name: string, suf: string)
    ensures (Quote(name) + suf)[|Quote(name)|..] == suf
  {
  }

  /** A value is never taken for a name. */
  lemma ValuePassed(v: string, suf: string, name: string)
    requires Escape(name) == name && suf != "" && (suf[0] == ',' || suf[0] == '}')
    ensures Scan(Quote(Escape(v)) + suf, Quote(name), false, false) == Scan(suf, Quote(name), false, false)
  {
    NeedleIsToken(name, v, suf);
    if v == name {
      AfterNeedle(name, suf);
      NoMember(suf);
    }
    TokenPassed(v, suf, Quote(name));
  }

  lemma PairScanned(p: (string, string), suf: string, name: string)
    requires Escape(name) == name && suf != "" && (suf[0] == ',' || suf[0] == '}')
    ensures Scan(PairText(p) + suf, Quote(name), false, false)
            == if p.0 == name then Escape(p.1) else Scan(suf, Quote(name), false, false)
  {
    var value := Quote(Escape(p.1)) + suf;
    var rest := ":" + value;
    GluePair(p, suf);
    NeedleIsToken(name, p.0, rest);
    ValueFound(p.1, suf);
    if p.0 == name {
      AfterNeedle(name, rest);
    } else {
      TokenPassed(p.0, rest, Quote(name));
      CharPassed(':', value, name);
      assert rest == [':'] + value;
      ValuePassed(p.1, suf, name);
    }
  }

  lemma GluePair(p: (string, string), suf: string)
    ensures PairText(p) + suf == Quote(Escape(p.0)) + (":" + (Quote(Escape(p.1)) + suf))
  {
    AssociateAll(Quote(Escape(p.0)), ":", Quote(Escape(p.1)), suf);
  }

  lemma ClosePassed(name: string)
    ensures Scan("}", Quote(name), false, false) == ""
  {
    CharPassed('}', "", name);
    assert ['}'] + "" == "}";
  }

  lemma {:induction false} PairsScanned(pairs: Pairs, name: string)
    requires Escape(name) == name
    ensures Scan(PairsText(pairs) + "}", Quote(name), false, false) == Lookup(pairs, name)
    decreases |pairs|
  {
    ClosePassed(name);
    if pairs == [] {
      assert "" + "}" == "}";
    } else if |pairs| == 1 {
      PairScanned(pairs[0], "}", name);
      assert pairs[1..] == [];
    } else {
      var rest := PairsText(pairs[1..]) + "}";
      assert PairsText(pairs) + "}" == PairText(pairs[0]) + ([','] + rest);
      PairScanned(pairs[0], [','] + rest, name);
      CharPassed(',', rest, name);
      PairsScanned(pairs[1..], name);
    }
  }

  /** What is taken out of a printed payload, for every payload and every name that needs no
      escape: the escaped value of that name, nothing if the name is absent, whatever the
      other names and the values contain. */
  lemma ExtractedIsLookedUp(pairs: Pairs, name: string)
    requires Escape(name) == name
    ensures ExtractString(MapText(pairs), name) == Lookup(pairs, name)
  {
    var t := MapText(pairs);
    assert t == ['{'] + (PairsText(pairs) + "}");
    CharPassed('{', PairsText(pairs) + "}", name);
    PairsScanned(pairs, name);
  }

  lemma {:induction false} LookupFinds(pairs: Pairs, i: nat)
    requires i < |pairs| && forall j :: 0 <= j < i ==> pairs[j].0 != pairs[i].0
    ensures Lookup(pairs, pairs[i].0) == Escape(pairs[i].1)
  {
    if i > 0 {
      LookupFinds(pairs[1..], i - 1);
    }
  }

  lemma {:induction false} LookupMisses(pairs: Pairs, name: string)
    requires forall i :: 0 <= i < |pairs| ==> pairs[i].0 != name
    ensures Lookup(pairs, name) == ""
  {
    if pairs != [] {
      LookupMisses(pairs[1..], name);
    }
  }

  /** Unescaped, it is the value that was put in. */
  lemma PayloadRoundTrip(pairs: Pairs, i: nat)
    requires i < |pairs| && forall j :: 0 <= j < i ==> pairs[j].0 != pairs[i].0
    requires Escape(pairs[i].0) == pairs[i].0
    ensures Unescape(ExtractString(MapText(pairs), pairs[i].0)) == pairs[i].1
  {
    ExtractedIsLookedUp(pairs, pairs[i].0);
    LookupFinds(pairs, i);
    UnescapeEscape(pairs[i].1);
  }

  lemma AbsentIsEmpty(pairs: Pairs, name: string)
    requires Escape(name) == name && forall i :: 0 <= i < |pairs| ==> pairs[i].0 != name
    ensures ExtractString(MapText(pairs), name) == ""
  {
    ExtractedIsLookedUp(pairs, name);
    LookupMisses(pairs, name);
  }
}
