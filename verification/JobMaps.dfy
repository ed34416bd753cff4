/**
 Reading back the numbers and the maps of a printed job.
 */
module JobMaps {
  import opened Wrappers
  import opened Text
  import opened JsonText
  import opened JobText
  import opened JobCodec
  import opened JobScalars

  // ---- Numbers ----------------------------------------------------------------

  lemma {:induction false} DigitsOfAll(s: string)
    requires forall i :: 0 <= i < |s| ==> IsDigit(s[i])
    ensures Digits(s) == |s|
  {
    if s != "" {
      DigitsOfAll(s[1..]);
    }
  }

  lemma {:induction false} NatReads(n: nat)
    ensures var s := NatText(n);
            s != "" && (forall i :: 0 <= i < |s| ==> IsDigit(s[i])) && NatValue(s) == n
  {
    var lead := if n < 10 then "" else NatText(n / 10);
    var last := ('0' as int + n % 10) as char;
    if n >= 10 {
      NatReads(n / 10);
    }
    assert IsDigit(last) && NatText(n) == lead + [last];
    assert (lead + [last])[..|lead|] == lead;
    assert forall i :: 0 <= i < |lead + [last]| ==> IsDigit((lead + [last])[i]);
  }

  lemma DigitsRead(s: string, negative: bool)
    requires s != "" && forall i :: 0 <= i < |s| ==> IsDigit(s[i])
    requires NatValue(s) <= if negative then 0 - INT_MIN else INT_MAX
    ensures StoiDigits(s, negative) == Some(if negative then 0 - NatValue(s) else NatValue(s))
  {
    DigitsOfAll(s);
    assert s[..|s|] == s;
  }

  lemma StoiUnsigned(s: string)
    requires s != "" && IsDigit(s[0])
    ensures Stoi(s) == StoiDigits(s, false)
  {
  }

  lemma StoiMinus(s: string)
    ensures Stoi("-" + s) == StoiDigits(s, true)
  {
    var t := "-" + s;
    assert t[0] == '-' && t[1..] == s;
  }

  lemma NegativeReads(n: nat)
    requires n <= 0 - INT_MIN
    ensures IsNumberText("-" + NatText(n)) && Stoi("-" + NatText(n)) == Some(0 - n)
  {
    NatReads(n);
    DigitsRead(NatText(n), true);
    StoiMinus(NatText(n));
  }

  lemma NaturalReads(n: nat)
    requires n <= INT_MAX
    ensures IsNumberText(NatText(n)) && Stoi(NatText(n)) == Some(n)
  {
    NatReads(n);
    DigitsRead(NatText(n), false);
    StoiUnsigned(NatText(n));
  }

  /** Every 32-bit integer survives being printed and parsed. */
  lemma IntReads(n: int)
    requires INT_MIN <= n <= INT_MAX
    ensures IsNumberText(IntText(n)) && Stoi(IntText(n)) == Some(n)
  {
    if n < 0 {
      NegativeReads(-n);
    } else {
      NaturalReads(n);
    }
  }

  /** Decimal digits, the most significant first, without leading zeros. */
  lemma NatTextDecimal(n: nat, d: nat)
    requires d < 10
    ensures NatText(10 * n + d) == (if n == 0 then "" else NatText(n)) + ["0123456789"[d]]
  {
    assert (10 * n + d) / 10 == n && (10 * n + d) % 10 == d;
    assert "0123456789"[d] as int == '0' as int + d;
  }

  lemma {:induction false} SpacesSkipped(blanks: string, t: string)
    requires forall i :: 0 <= i < |blanks| ==> IsSpace(blanks[i])
    ensures Stoi(blanks + t) == Stoi(t)
  {
    if blanks == "" {
      assert blanks + t == t;
    } else {
      assert (blanks + t)[0] == blanks[0] && (blanks + t)[1..] == blanks[1..] + t;
      SpacesSkipped(blanks[1..], t);
    }
  }

  lemma {:induction false} DigitsBefore(digits: string, rest: string)
    requires (forall i :: 0 <= i < |digits| ==> IsDigit(digits[i])) && (rest == "" || !IsDigit(rest[0]))
    ensures Digits(digits + rest) == |digits|
  {
    if digits == "" {
      assert digits + rest == rest;
    } else {
      assert (digits + rest)[0] == digits[0] && (digits + rest)[1..] == digits[1..] + rest;
      DigitsBefore(digits[1..], rest);
    }
  }

  /** `std::stoi` on every text that begins with white space, a sign or none, and digits: their
      number if it fits 32 bits, whatever follows; without digits there is none. */
  lemma StoiExactly(blanks: string, sign: string, digits: string, rest: string)
    requires forall i :: 0 <= i < |blanks| ==> IsSpace(blanks[i])
    requires sign == "" || sign == "+" || sign == "-"
    requires forall i :: 0 <= i < |digits| ==> IsDigit(digits[i])
    requires rest == "" || !IsDigit(rest[0])
    requires sign == "" && digits == "" ==> rest == "" || (!IsSpace(rest[0]) && rest[0] != '+' && rest[0] != '-')
    ensures var size: int := NatValue(digits);
            var n := if sign == "-" then -size else size;
            Stoi(blanks + (sign + (digits + rest))) == if digits != "" && INT_MIN <= n <= INT_MAX then Some(n) else None
  {
    var t := digits + rest;
    SpacesSkipped(blanks, sign + t);
    DigitsBefore(digits, rest);
    assert t[..|digits|] == digits;
    if sign == "" {
      assert sign + t == t;
    } else {
      assert (sign + t)[0] == sign[0] && (sign + t)[1..] == t;
    }
  }

  // ---- Maps -------------------------------------------------------------------

  /** The map built by adding the entries from left to right. */
  function AddAll(out: map<string, string>, pairs: Pairs): map<string, string>
    decreases |pairs|
  {
    if pairs == [] then out else AddAll(out[pairs[0].0 := pairs[0].1], pairs[1..])
  }

  lemma TokenReads(v: string, rest: string)
    ensures var t, c := Quote(Escape(v)) + rest, Escape(v);
            && t != "" && t[0] == '\"' && ClosingQuote(t[1..]) == |c| && |c| < |t| - 1
            && Unescape(t[1..1 + |c|]) == v && t[|c| + 2..] == rest
  {
    var t, c := Quote(Escape(v)) + rest, Escape(v);
    EscapeWellEscaped(v);
    assert t[1..] == c + "\"" + rest;
    ClosingQuoteOfEscaped(c, rest);
    assert t[1..1 + |c|] == c;
    UnescapeEscape(v);
  }

  lemma NameStep(t: string, k: nat, out: map<string, string>)
    requires t != "" && t[0] == '\"' && ClosingQuote(t[1..]) == k < |t| - 1
    ensures Entries(t, out) == EntryValue(t[k + 2..], Unescape(t[1..1 + k]), out)
  {
    assert SkipSeparators(t, ',') == 0 && t[0..] == t;
  }

  lemma ColonSkipped(t: string)
    requires t != "" && t[0] == '\"'
    ensures (":" + t)[SkipSeparators(":" + t, ':')..] == t
  {
    var u := ":" + t;
    assert u[0] == ':' && u[1..] == t;
    assert SkipSeparators(t, ':') == 0;
    assert SkipSeparators(u, ':') == 1;
  }

  lemma ValueStep(t: string, k: nat, name: string, out: map<string, string>)
    requires t != "" && t[0] == '\"' && ClosingQuote(t[1..]) == k < |t| - 1
    ensures EntryValue(":" + t, name, out) == Entries(t[k + 2..], out[name := Unescape(t[1..1 + k])])
  {
    ColonSkipped(t);
  }

  lemma PairTextIs(p: (string, string), rest: string)
    ensures PairText(p) + rest == Quote(Escape(p.0)) + (":" + (Quote(Escape(p.1)) + rest))
  {
    AssociateAll(Quote(Escape(p.0)), ":", Quote(Escape(p.1)), rest);
  }

  lemma EntryReads(p: (string, string), rest: string, out: map<string, string>)
    ensures Entries(PairText(p) + rest, out) == Entries(rest, out[p.0 := p.1])
  {
    var value := Quote(Escape(p.1)) + rest;
    PairTextIs(p, rest);
    EntryName(p.0, ":" + value, out);
    EntryRest(p.1, rest, p.0, out);
  }

  lemma EntryName(name: string, rest: string, out: map<string, string>)
    ensures Entries(Quote(Escape(name)) + rest, out) == EntryValue(rest, name, out)
  {
    TokenReads(name, rest);
    NameStep(Quote(Escape(name)) + rest, |Escape(name)|, out);
  }

  lemma EntryRest(v: string, rest: string, name: string, out: map<string, string>)
    ensures EntryValue(":" + (Quote(Escape(v)) + rest), name, out) == Entries(rest, out[name := v])
  {
    TokenReads(v, rest);
    EntryRestAt(Quote(Escape(v)) + rest, |Escape(v)|, v, rest, name, out);
  }

  lemma EntryRestAt(t: string, k: nat, v: string, rest: string, name: string, out: map<string, string>)
    requires t != "" && t[0] == '\"' && ClosingQuote(t[1..]) == k < |t| - 1
    requires Unescape(t[1..1 + k]) == v && t[k + 2..] == rest
    ensures EntryValue(":" + t, name, out) == Entries(rest, out[name := v])
  {
    ValueStep(t, k, name, out);
  }

  lemma CommaSkipped(t: string, out: map<string, string>)
    ensures Entries("," + t, out) == Entries(t, out)
  {
    var s := "," + t;
    assert s[1..] == t;
    assert SkipSeparators(s, ',') == 1 + SkipSeparators(t, ',');
    assert s[SkipSeparators(s, ',')..] == t[SkipSeparators(t, ',')..];
  }

  /** What follows the first pair. */
  function AfterPair(pairs: Pairs): string
    requires pairs != []
  {
    if |pairs| == 1 then "" else "," + PairsText(pairs[1..])
  }

  lemma PairsHead(pairs: Pairs, suf: string)
    requires pairs != []
    ensures PairsText(pairs) + suf == PairText(pairs[0]) + (AfterPair(pairs) + suf)
  {
  }

  lemma {:induction false} EntriesRead(pairs: Pairs, out: map<string, string>)
    ensures Entries(PairsText(pairs) + "}", out) == AddAll(out, pairs)
    decreases |pairs|
  {
    if pairs == [] {
      NoEntries(out);
    } else {
      var out' := out[pairs[0].0 := pairs[0].1];
      PairsHead(pairs, "}");
      EntryReads(pairs[0], AfterPair(pairs) + "}", out);
      EntriesRead(pairs[1..], out');
      if |pairs| > 1 {
        CommaSkipped(PairsText(pairs[1..]) + "}", out');
        assert AfterPair(pairs) + "}" == "," + (PairsText(pairs[1..]) + "}");
      }
    }
  }

  lemma NoEntries(out: map<string, string>)
    ensures Entries("" + "}", out) == out
  {
    var s := "" + "}";
    assert s[0] == '}' && !IsBlank(s[0]) && s[0] != ',';
    assert SkipSeparators(s, ',') == 0 && s[0..] == s;
  }

  // ---- The end of the object --------------------------------------------------

  lemma {:induction false} StringScanned(c: string, suf: string, depth: int)
    requires WellEscaped(c)
    ensures ObjectEnd(c + "\"" + suf, depth, true, false) == Ahead(|c| + 1, ObjectEnd(suf, depth, false, false))
  {
    var t := c + "\"" + suf;
    if c == "" {
      assert t[1..] == suf;
    } else if c[0] == '\\' {
      assert t[1..][1..] == c[2..] + "\"" + suf;
      StringScanned(c[2..], suf, depth);
      assert t[1..] != "";
    } else {
      assert t[1..] == c[1..] + "\"" + suf;
      StringScanned(c[1..], suf, depth);
    }
  }

  lemma TokenScanned(v: string, suf: string, depth: int)
    ensures ObjectEnd(Quote(Escape(v)) + suf, depth, false, false)
            == Ahead(|Quote(Escape(v))|, ObjectEnd(suf, depth, false, false))
  {
    var t := Quote(Escape(v)) + suf;
    EscapeWellEscaped(v);
    assert t[1..] == Escape(v) + "\"" + suf;
    StringScanned(Escape(v), suf, depth);
  }

  lemma CharScanned(c: char, suf: string, depth: int)
    requires c == ':' || c == ','
    ensures ObjectEnd([c] + suf, depth, false, false) == Ahead(1, ObjectEnd(suf, depth, false, false))
  {
    assert ([c] + suf)[1..] == suf;
  }

  lemma PairScanned(p: (string, string), suf: string, depth: int)
    ensures ObjectEnd(PairText(p) + suf, depth, false, false)
            == Ahead(|PairText(p)|, ObjectEnd(suf, depth, false, false))
  {
    var value := Quote(Escape(p.1)) + suf;
    assert PairText(p) + suf == Quote(Escape(p.0)) + ([':'] + value);
    TokenScanned(p.0, [':'] + value, depth);
    CharScanned(':', value, depth);
    TokenScanned(p.1, suf, depth);
  }

  lemma AfterPairScanned(pairs: Pairs, close: string)
    requires pairs != []
    ensures ObjectEnd(AfterPair(pairs) + close, 1, false, false)
            == Ahead(|AfterPair(pairs)| - |PairsText(pairs[1..])|, ObjectEnd(PairsText(pairs[1..]) + close, 1, false, false))
  {
    if |pairs| == 1 {
      assert pairs[1..] == [];
    } else {
      var rest := PairsText(pairs[1..]);
      CharScanned(',', rest + close, 1);
      assert "," + rest + close == [','] + (rest + close);
    }
  }

  lemma {:induction false} PairsScanned(pairs: Pairs, tail: string)
    ensures ObjectEnd(PairsText(pairs) + ("}" + tail), 1, false, false) == |PairsText(pairs)|
    decreases |pairs|
  {
    var close := "}" + tail;
    assert close[0] == '}';
    if pairs == [] {
      assert "" + close == close;
    } else {
      PairsHead(pairs, close);
      PairScanned(pairs[0], AfterPair(pairs) + close, 1);
      PairsScanned(pairs[1..], tail);
      AfterPairScanned(pairs, close);
    }
  }

  lemma GlueBraces(body: string, tail: string)
    ensures var t := "{" + body + "}" + tail; t != "" && t[0] == '{' && t[1..] == body + ("}" + tail)
  {
  }

  lemma MapScanned(pairs: Pairs, tail: string)
    ensures ObjectEnd(MapText(pairs) + tail, 0, false, false) == |PairsText(pairs)| + 1
  {
    GlueBraces(PairsText(pairs), tail);
    PairsScanned(pairs, tail);
  }

  /** A printed map is read back whole, whatever follows it. */
  lemma MapReads(s: string, name: string, pairs: Pairs, tail: string)
    requires AfterName(s, name) == Some(MapText(pairs) + tail)
    ensures ParseMap(s, name) == AddAll(map[], pairs)
  {
    MapScanned(pairs, tail);
    BraceSlice(PairsText(pairs), tail);
    EntriesRead(pairs, map[]);
  }

  lemma BraceSlice(body: string, tail: string)
    ensures var t := "{" + body + "}" + tail;
            Find(t, "{", 0) == 0 && t[0..] == t && t[0..|body| + 2][1..] == body + "}"
  {
    var t := "{" + body + "}" + tail;
    assert t[0..1] == "{" && OccursAt(t, "{", 0);
  }

  // ---- Maps do not hide names -------------------------------------------------

  predicate PairSpoils(k: string, p: (string, string)) {
    Poison(k, p.0) || Poison(k, p.1)
  }

  lemma TokenMisses(k: string, v: string, d: char)
    requires PlainName(k) && !Poison(k, v) && d in ":,}"
    ensures Misses(k, Quote(Escape(v)) + [d])
  {
    EscapePoison(k, v);
    EscapeWellEscaped(v);
    QuoteMisses(k, Escape(v), d);
  }

  lemma PairMisses(k: string, p: (string, string), d: char)
    requires PlainName(k) && !PairSpoils(k, p) && d in ":,}"
    ensures Misses(k, PairText(p) + [d])
  {
    TokenMisses(k, p.0, ':');
    TokenMisses(k, p.1, d);
    MissesConcat(k, Quote(Escape(p.0)) + [':'], Quote(Escape(p.1)) + [d]);
    assert PairText(p) + [d] == (Quote(Escape(p.0)) + [':']) + (Quote(Escape(p.1)) + [d]);
  }

  lemma {:induction false} PairsMiss(k: string, pairs: Pairs)
    requires PlainName(k) && forall i :: 0 <= i < |pairs| ==> !PairSpoils(k, pairs[i])
    ensures Misses(k, PairsText(pairs) + "}")
    decreases |pairs|
  {
    if pairs == [] {
      assert "" + "}" == "}";
      NoQuoteMisses(k, "}");
    } else if |pairs| == 1 {
      PairMisses(k, pairs[0], '}');
      assert [ '}' ] == "}";
    } else {
      var rest := PairsText(pairs[1..]) + "}";
      PairMisses(k, pairs[0], ',');
      PairsMiss(k, pairs[1..]);
      MissesConcat(k, PairText(pairs[0]) + [','], rest);
      assert PairsText(pairs) + "}" == (PairText(pairs[0]) + [',']) + rest;
    }
  }

  lemma MapMisses(k: string, pairs: Pairs)
    requires PlainName(k) && forall i :: 0 <= i < |pairs| ==> !PairSpoils(k, pairs[i])
    ensures Misses(k, MapText(pairs) + ",")
  {
    PairsMiss(k, pairs);
    NoQuoteMisses(k, "{");
    NoQuoteMisses(k, ",");
    MissesConcat(k, "{", PairsText(pairs) + "}");
    MissesConcat(k, "{" + (PairsText(pairs) + "}"), ",");
    assert MapText(pairs) + "," == "{" + (PairsText(pairs) + "}") + ",";
  }
}
