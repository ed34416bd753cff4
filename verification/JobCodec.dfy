/**
 Which jobs survive being written as JSON and read back. The reader takes the first place in
 the text where a quoted field name stands, so a value that equals a field name, or ends in a
 quote followed by one, can be taken for the name.
 */
module JobCodec {
  import opened Wrappers
  import opened Text
  import opened JsonText
  import opened JobText

  // ---- Searching --------------------------------------------------------------

  predicate IsNameChar(c: char) {
    'a' <= c <= 'z' || c == '_'
  }

  predicate PlainName(k: string) {
    k != "" && forall i :: 0 <= i < |k| ==> IsNameChar(k[i])
  }

  lemma {:induction false} FindFrom(s: string, needle: string, from: nat, p: nat)
    requires from <= p && OccursAt(s, needle, p)
    requires forall i :: from <= i < p ==> !OccursAt(s, needle, i)
    ensures Find(s, needle, from) == p
    decreases p - from
  {
    if from < p {
      FindFrom(s, needle, from + 1, p);
    }
  }

  /** The quoted name does not begin in `t`, whatever follows. */
  ghost predicate Misses(k: string, t: string) {
    forall suf, i :: 0 <= i < |t| ==> !OccursAt(t + suf, Quote(k), i)
  }

  lemma OccursShift(a: string, b: string, needle: string, i: nat)
    requires |a| <= i
    ensures OccursAt(a + b, needle, i) == OccursAt(b, needle, i - |a|)
  {
    if i + |needle| <= |a + b| {
      assert (a + b)[i..i + |needle|] == b[i - |a|..i - |a| + |needle|];
    }
  }

  lemma MissesConcat(k: string, a: string, b: string)
    requires Misses(k, a) && Misses(k, b)
    ensures Misses(k, a + b)
  {
    forall suf, i | 0 <= i < |a + b| ensures !OccursAt(a + b + suf, Quote(k), i) {
      assert a + b + suf == a + (b + suf);
      if i >= |a| {
        OccursShift(a, b + suf, Quote(k), i);
      }
    }
  }

  lemma NeedleShape(s: string, k: string, i: nat)
    requires OccursAt(s, Quote(k), i)
    ensures s[i] == '\"' && s[i + |k| + 1] == '\"'
    ensures forall j :: 0 <= j < |k| ==> s[i + 1 + j] == k[j]
  {
    var at := s[i..i + |k| + 2];
    assert at == Quote(k);
    assert s[i] == at[0] && s[i + |k| + 1] == at[|k| + 1];
    assert forall j :: 0 <= j < |k| ==> s[i + 1 + j] == at[1 + j] == k[j];
  }

  lemma NoQuoteMisses(k: string, t: string)
    requires forall i :: 0 <= i < |t| ==> t[i] != '\"'
    ensures Misses(k, t)
  {
    forall suf, i | 0 <= i < |t| ensures !OccursAt(t + suf, Quote(k), i) {
      assert (t + suf)[i] == t[i];
      if OccursAt(t + suf, Quote(k), i) { NeedleShape(t + suf, k, i); }
    }
  }

  predicate EndsWith(s: string, w: string) {
    |w| <= |s| && s[|s| - |w|..] == w
  }

  /** If the quoted name stands in text around a token, then at the end of the token. */
  lemma OnlyAtTheEnd(k: string, c: string, suf: string, i: nat)
    requires PlainName(k) && WellEscaped(c) && i <= |c|
    requires OccursAt(Quote(c) + suf, Quote(k), i)
    ensures i == |c| - |k| && EndsWith("\"" + c, "\"" + k)
  {
    var t, e := Quote(c) + suf, i + |k| + 1;
    NeedleShape(t, k, i);
    assert t[|c| + 1] == '\"';
    assert forall j :: 0 < j <= |c| ==> t[j] == c[j - 1];
    forall j | 0 <= j < |c| && c[j] == '\"' ensures t[j] == '\\' {
      QuoteFollowsBackslash(c, j);
      assert t[j] == c[j - 1];
    }
    assert forall j :: i < j < e ==> t[j] == k[j - i - 1];
    assert forall j :: i < j < e ==> IsNameChar(t[j]);
    assert e == |c| + 1;
    assert ("\"" + c)[i..] == "\"" + k;
  }

  lemma QuoteMisses(k: string, c: string, d: char)
    requires PlainName(k) && WellEscaped(c) && !EndsWith("\"" + c, "\"" + k) && !IsNameChar(d) && d != '\"'
    ensures Misses(k, Quote(c) + [d])
  {
    var t := Quote(c) + [d];
    forall suf, i | 0 <= i < |t| ensures !OccursAt(t + suf, Quote(k), i) {
      assert t + suf == Quote(c) + ([d] + suf);
      assert (t + suf)[|c| + 2] == d && IsNameChar(k[0]);
      if OccursAt(t + suf, Quote(k), i) {
        NeedleShape(t + suf, k, i);
        if i <= |c| {
          OnlyAtTheEnd(k, c, [d] + suf, i);
        }
      }
    }
  }

  lemma NoEarlier(k: string, pre: string, c: string, suf: string, i: nat)
    requires PlainName(k) && Misses(k, pre) && WellEscaped(c) && |k| <= |c|
    requires i < |pre| + |c| - |k|
    ensures !OccursAt(pre + (Quote(c) + suf), Quote(k), i)
  {
    if i >= |pre| {
      OccursShift(pre, Quote(c) + suf, Quote(k), i);
      if OccursAt(Quote(c) + suf, Quote(k), i - |pre|) { OnlyAtTheEnd(k, c, suf, i - |pre|); }
    }
  }

  lemma FirstNeedle(k: string, pre: string, c: string, suf: string)
    requires PlainName(k) && Misses(k, pre) && WellEscaped(c) && EndsWith("\"" + c, "\"" + k)
    ensures |k| <= |c| && Find(pre + (Quote(c) + suf), Quote(k), 0) == |pre| + |c| - |k|
  {
    NameInToken(k, c, suf);
    var s, p := pre + (Quote(c) + suf), |pre| + |c| - |k|;
    OccursShift(pre, Quote(c) + suf, Quote(k), p);
    forall i | 0 <= i < p ensures !OccursAt(s, Quote(k), i) {
      NoEarlier(k, pre, c, suf, i);
    }
    FindFrom(s, Quote(k), 0, p);
  }

  lemma Regroup(a: string, b: string, c: string, d: string, e: string)
    ensures a + b + c + d + e == a + (b + (c + d + e))
  {
  }

  /** The first quoted name is found at the end of the first token that ends with it; the
      reader goes on after the next colon. */
  lemma FoundAt(k: string, pre: string, c: string, gap: string, t: string)
    requires PlainName(k) && Misses(k, pre) && WellEscaped(c) && EndsWith("\"" + c, "\"" + k)
    requires forall i :: 0 <= i < |gap| ==> gap[i] != ':'
    ensures AfterName(pre + Quote(c) + gap + ":" + t, k) == Some(t)
  {
    var suf := gap + ":" + t;
    FirstNeedle(k, pre, c, suf);
    ColonAfter(k, pre, c, gap, t);
    Regroup(pre, Quote(c), gap, ":", t);
  }

  lemma ColonAfter(k: string, pre: string, c: string, gap: string, t: string)
    requires PlainName(k) && EndsWith("\"" + c, "\"" + k)
    requires forall i :: 0 <= i < |gap| ==> gap[i] != ':'
    ensures |k| <= |c|
    ensures var s, p := pre + (Quote(c) + (gap + ":" + t)), |pre| + |c| - |k|;
            p <= |s| && var colon := Find(s, ":", p); p <= colon < |s| && s[colon + 1..] == t
  {
    var suf := gap + ":" + t;
    NameInToken(k, c, suf);
    ColonInside(pre, Quote(c) + suf, |c| - |k|, Quote(k), gap, t);
  }

  lemma ColonInside(pre: string, body: string, n: nat, name: string, gap: string, t: string)
    requires n <= |body| && body[n..] == name + (gap + ":" + t)
    requires forall i :: 0 <= i < |name| ==> name[i] != ':'
    requires forall i :: 0 <= i < |gap| ==> gap[i] != ':'
    ensures var s, p := pre + body, |pre| + n;
            p <= |s| && var colon := Find(s, ":", p); p <= colon < |s| && s[colon + 1..] == t
  {
    FromHere(pre, body, n);
    Regroup3(name, gap, ":", t);
    NextColon(pre + body, |pre| + n, name + gap, t);
  }

  lemma Regroup3(a: string, b: string, c: string, d: string)
    ensures a + (b + c + d) == (a + b) + c + d
  {
  }

  lemma FromHere(a: string, b: string, n: nat)
    requires n <= |b|
    ensures (a + b)[|a| + n..] == b[n..]
  {
  }

  lemma NameInToken(k: string, c: string, suf: string)
    requires EndsWith("\"" + c, "\"" + k)
    ensures |k| <= |c| && OccursAt(Quote(c) + suf, Quote(k), |c| - |k|)
    ensures (Quote(c) + suf)[|c| - |k|..] == Quote(k) + suf
  {
    var t, at := Quote(c) + suf, |c| - |k|;
    assert ("\"" + c)[at..] == "\"" + k;
    assert t == ("\"" + c)[..at] + (("\"" + c)[at..] + ("\"" + suf));
    assert t[at..] == "\"" + k + ("\"" + suf) == Quote(k) + suf;
    assert t[at..at + |Quote(k)|] == Quote(k);
  }

  lemma NextColon(s: string, p: nat, gap: string, t: string)
    requires p <= |s| && s[p..] == gap + ":" + t
    requires forall i :: 0 <= i < |gap| ==> gap[i] != ':'
    ensures Find(s, ":", p) == p + |gap| && s[p + |gap| + 1..] == t
  {
    var c := p + |gap|;
    assert s[p..][|gap|] == ':' && s[c..c + 1] == ":";
    forall i | p <= i < c ensures !OccursAt(s, ":", i) {
      assert s[i] == s[p..][i - p] == gap[i - p];
      assert s[i..i + 1][0] == s[i];
    }
    FindFrom(s, ":", p, c);
    assert s[c + 1..] == s[p..][|gap| + 1..];
  }

  // ---- Poison -----------------------------------------------------------------

  /** The value is the name, or ends in a quote followed by it. */
  predicate Poison(k: string, v: string) {
    EndsWith("\"" + v, "\"" + k)
  }

  lemma PoisonMeans(k: string, v: string)
    ensures Poison(k, v) <==> v == k || EndsWith(v, "\"" + k)
  {
    var q := "\"" + v;
    if |k| < |v| {
      assert q[|q| - |k| - 1..] == v[|v| - |k| - 1..];
    } else if |k| == |v| {
      assert q[0..] == q && q[1..] == v && ("\"" + k)[1..] == k;
    }
  }

  lemma {:induction false} EscapeLast(v: string)
    requires v != ""
    ensures Escape(v) == Escape(v[..|v| - 1]) + EscapeChar(v[|v| - 1])
  {
    if |v| == 1 {
      assert v[1..] == "" && v[..0] == "";
      assert Escape("") == "";
    } else {
      EscapeLast(v[1..]);
      assert v[1..][..|v| - 2] == v[..|v| - 1][1..];
      assert v[1..][|v| - 2] == v[|v| - 1];
    }
  }

  lemma EndsWithLast(s: string, w: string)
    requires s != "" && w != ""
    ensures EndsWith(s, w) <==> s[|s| - 1] == w[|w| - 1] && EndsWith(s[..|s| - 1], w[..|w| - 1])
  {
    if |w| <= |s| {
      var at := |s| - |w|;
      assert s[at..] == s[..|s| - 1][at..] + [s[|s| - 1]];
      assert w == w[..|w| - 1] + [w[|w| - 1]];
      assert EndsWith(s, w) ==> s[at..][|w| - 1] == w[|w| - 1] && s[at..][..|w| - 1] == w[..|w| - 1];
    }
  }

  /** Escaping neither makes nor hides an ending that looks like a quoted name. */
  lemma {:induction false} EscapePoison(k: string, v: string)
    requires forall i :: 0 <= i < |k| ==> IsNameChar(k[i])
    ensures EndsWith("\"" + Escape(v), "\"" + k) <==> Poison(k, v)
    decreases |k|
  {
    if v == "" {
      assert Escape(v) == v;
    } else {
      var n := |v| - 1;
      var u, c := v[..n], v[n];
      EscapeLast(v);
      var e := "\"" + Escape(u);
      assert "\"" + Escape(v) == e + EscapeChar(c);
      assert "\"" + v == "\"" + u + [c];
      if k == "" {
        EscapeLastQuote(u, c);
      } else {
        var m := |k| - 1;
        assert "\"" + k == "\"" + k[..m] + [k[m]] && IsNameChar(k[m]);
        EndsWithSnoc("\"" + u, c, "\"" + k[..m], k[m]);
        EscapePoison(k[..m], u);
        EscapedEnd(e, c, k[..m], k[m]);
      }
    }
  }

  lemma EscapeLastQuote(u: string, c: char)
    ensures EndsWith("\"" + Escape(u) + EscapeChar(c), "\"" + "") <==> EndsWith("\"" + u + [c], "\"" + "")
  {
    LastChar("\"" + Escape(u), c);
    LastIs("\"" + Escape(u) + EscapeChar(c));
    LastIs("\"" + u + [c]);
  }

  lemma LastIs(s: string)
    requires s != ""
    ensures EndsWith(s, "\"" + "") <==> s[|s| - 1] == '\"'
  {
    assert s[|s| - 1..] == [s[|s| - 1]];
  }

  lemma LastChar(e: string, c: char)
    ensures var t := e + EscapeChar(c); t != "" && (t[|t| - 1] == '\"' <==> c == '\"')
  {
  }

  lemma EndsWithSnoc(s: string, c: char, w: string, x: char)
    ensures EndsWith(s + [c], w + [x]) <==> c == x && EndsWith(s, w)
  {
    EndsWithLast(s + [c], w + [x]);
    assert (s + [c])[..|s|] == s && (w + [x])[..|w|] == w;
  }

  /** A name character at the end of an escape sequence is not preceded by one, or by a quote. */
  lemma EscapedEnd(e: string, c: char, w: string, x: char)
    requires IsNameChar(x) && forall i :: 0 <= i < |w| ==> IsNameChar(w[i])
    ensures EndsWith(e + EscapeChar(c), "\"" + w + [x]) <==> c == x && EndsWith(e, "\"" + w)
  {
    var esc := EscapeChar(c);
    var n := |esc| - 1;
    assert e + esc == (e + esc[..n]) + [esc[n]];
    EndsWithSnoc(e + esc[..n], esc[n], "\"" + w, x);
    if n == 0 {
      assert e + esc[..n] == e;
    } else {
      var s, q := e + esc[..n], "\"" + w;
      EndsWithLast(s, q);
      assert s[|s| - 1] == esc[n - 1];
      assert !IsNameChar(esc[n - 1]) && esc[n - 1] != '\"';
      assert !IsNameChar(c);
    }
  }
}
