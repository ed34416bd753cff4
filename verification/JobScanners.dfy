/**
 The printing and scanning loops of `src/queue/submission_queue.cpp`, each proved to compute
 what `JobText` specifies.
 */
module JobScanners {
  import opened Wrappers
  import opened Text
  import opened JsonText
  import opened JobText
  import opened JobPrint

  /** The pairs from i on, with the comma the loop writes before each but the first. */
  function PairsFrom(pairs: Pairs, i: nat): string
    requires i <= |pairs|
  {
    if i == |pairs| then "" else (if i == 0 then "" else ",") + PairsText(pairs[i..])
  }

  lemma PairsFromStep(pairs: Pairs, i: nat)
    requires i < |pairs|
    ensures PairsFrom(pairs, i) == (if i == 0 then "" else ",") + PairText(pairs[i]) + PairsFrom(pairs, i + 1)
  {
    var rest := pairs[i..];
    assert rest[1..] == pairs[i + 1..];
    if |rest| > 1 {
      assert PairsText(rest) == PairText(rest[0]) + ("," + PairsText(rest[1..]));
    }
  }

  method MapToJson(pairs: Pairs) returns (out: string)
    ensures out == MapText(pairs)
  {
    out := "{";
    assert pairs[0..] == pairs;
    for i := 0 to |pairs|
      invariant out + PairsFrom(pairs, i) == "{" + PairsText(pairs)
    {
      PairsFromStep(pairs, i);
      var next := WritePair(pairs[i], i == 0);
      Associate(out, next, PairsFrom(pairs, i + 1));
      out := out + next;
    }
    out := out + "}";
  }

  method WritePair(pair: (string, string), first: bool) returns (out: string)
    ensures out == (if first then "" else ",") + PairText(pair)
  {
    var k := JsonEscape(pair.0);
    var v := JsonEscape(pair.1);
    out := (if first then "" else ",") + (Quote(k) + ":" + Quote(v));
  }

  /** `to_json`: the scalar fields, then the two maps. */
  method WriteJob(j: Job) returns (text: string)
    ensures text == Print(j)
  {
    var answers := MapToJson(Listing(j.answers));
    var identity := MapToJson(Listing(j.identity));
    text := "{" + FieldsText(Scalars(j))
            + ("," + Quote("answers") + ":" + answers + "," + Quote("identity_data") + ":" + identity + "}");
  }

  /** From just after an opening quote to the closing one; a backslash skips two bytes. */
  method FindClosingQuote(s: string, from: nat) returns (q: nat)
    requires from <= |s|
    ensures q == from + ClosingQuote(s[from..])
  {
    q := from;
    while q < |s|
      invariant from <= q
      invariant q <= |s| ==> from + ClosingQuote(s[from..]) == q + ClosingQuote(s[q..])
      invariant q > |s| ==> from + ClosingQuote(s[from..]) == q
      decreases |s| - q
    {
      ghost var rest := s[q..];
      if s[q] == '\\' {
        if q + 2 <= |s| { assert rest[2..] == s[q + 2..]; }
        q := q + 2;
      } else if s[q] == '\"' {
        break;
      } else {
        assert rest[1..] == s[q + 1..];
        q := q + 1;
      }
    }
  }

  /** The value of the first field found under the name. */
  method ExtractField(s: string, name: string) returns (v: string)
    ensures v == Extract(s, name)
  {
    var p := Find(s, Quote(name), 0);
    if p < 0 {
      return "";
    }
    var c := Find(s, ":", p);
    if c < 0 {
      return "";
    }
    v := ReadValue(s[c + 1..]);
  }

  method ReadValue(t: string) returns (v: string)
    ensures v == ValueAfter(t)
  {
    var value := t[SkipSpaces(t)..];
    if value == "" {
      return "";
    }
    if value[0] == '\"' {
      var q := FindClosingQuote(value, 1);
      if q >= |value| {
        return "";
      }
      v := JsonUnescape(value[1..q]);
    } else {
      var e := ScalarEnd(value);
      v := if e == |value| then "" else WithoutSpaces(value[..e]);
    }
  }

  /** The scan for the brace that closes the object, with its three state variables. */
  method FindObjectEnd(s: string) returns (e: int)
    ensures e == ObjectEnd(s, 0, false, false)
  {
    var i: nat := 0;
    var depth, inStr, esc := 0, false, false;
    assert s[0..] == s;
    while i < |s|
      invariant i <= |s|
      invariant ObjectEnd(s, 0, false, false) == Ahead(i, ObjectEnd(s[i..], depth, inStr, esc))
    {
      ghost var rest := s[i..];
      assert rest[0] == s[i] && rest[1..] == s[i + 1..];
      var ch := s[i];
      if esc {
        esc := false;
      } else if ch == '\\' && inStr {
        esc := true;
      } else if ch == '\"' {
        inStr := !inStr;
      } else if !inStr {
        if ch == '{' {
          depth := depth + 1;
        } else if ch == '}' {
          depth := depth - 1;
          if depth == 0 {
            return i;
          }
        }
      }
      i := i + 1;
    }
    return -1;
  }

  method SkipSeparatorsFrom(s: string, from: nat, sep: char) returns (i: nat)
    requires from <= |s|
    ensures i == from + SkipSeparators(s[from..], sep)
  {
    i := from;
    while i < |s| && (IsBlank(s[i]) || s[i] == sep)
      invariant from <= i <= |s|
      invariant from + SkipSeparators(s[from..], sep) == i + SkipSeparators(s[i..], sep)
    {
      assert s[i..][1..] == s[i + 1..];
      i := i + 1;
    }
  }

  /** The loop over the entries of an object; `obj` starts with its opening brace. */
  method ParseEntries(obj: string) returns (out: map<string, string>)
    requires obj != ""
    ensures out == Entries(obj[1..], map[])
  {
    out := map[];
    var i: nat := 1;
    var go := true;
    while go
      invariant i <= |obj|
      invariant go ==> Entries(obj[1..], map[]) == Entries(obj[i..], out)
      invariant !go ==> Entries(obj[1..], map[]) == out
      decreases |obj| - i, go
    {
      go, i, out := ParseEntry(obj, i, out);
    }
  }

  lemma Slice(s: string, i: nat, q: nat)
    requires i < q <= |s|
    ensures s[i..][1..q - i] == s[i + 1..q]
  {
  }

  /** A token at i with its closing quote at q. */
  lemma TokenAt(obj: string, i: nat, q: nat)
    requires i < |obj| && obj[i] == '\"' && q == i + 1 + ClosingQuote(obj[i + 1..])
    ensures var t := obj[i..];
            && t[0] == '\"' && ClosingQuote(t[1..]) == q - i - 1 && (q >= |obj| <==> q - i - 1 >= |t| - 1)
            && (q < |obj| ==> t[q - i + 1..] == obj[q + 1..] && t[1..q - i] == obj[i + 1..q])
  {
    Suffix(obj, i, 1);
    if q < |obj| {
      Suffix(obj, i, q - i + 1);
      Slice(obj, i, q);
    }
  }

  lemma NameQuoted(t: string, k: nat, rest: string, token: string, out: map<string, string>)
    requires t != "" && t[0] == '\"' && ClosingQuote(t[1..]) == k
    requires k < |t| - 1 ==> rest == t[k + 2..] && token == t[1..1 + k]
    ensures NameHere(t, out) == if k >= |t| - 1 then out else EntryValue(rest, Unescape(token), out)
  {
  }

  lemma ValueQuoted(t: string, k: nat, rest: string, token: string, name: string, out: map<string, string>)
    requires t != "" && t[0] == '\"' && ClosingQuote(t[1..]) == k
    requires k < |t| - 1 ==> rest == t[k + 2..] && token == t[1..1 + k]
    ensures ValueHere(t, name, out) == if k >= |t| - 1 then out else Entries(rest, out[name := Unescape(token)])
  {
  }

  lemma NameHereAt(obj: string, i: nat, q: nat, out: map<string, string>)
    requires i < |obj| && obj[i] == '\"' && q == i + 1 + ClosingQuote(obj[i + 1..])
    ensures NameHere(obj[i..], out) == if q >= |obj| then out else EntryValue(obj[q + 1..], Unescape(obj[i + 1..q]), out)
  {
    TokenAt(obj, i, q);
    if q < |obj| {
      NameQuoted(obj[i..], q - i - 1, obj[q + 1..], obj[i + 1..q], out);
    } else {
      NameQuoted(obj[i..], q - i - 1, "", "", out);
    }
  }

  lemma ValueHereAt(obj: string, i: nat, q: nat, name: string, out: map<string, string>)
    requires i < |obj| && obj[i] == '\"' && q == i + 1 + ClosingQuote(obj[i + 1..])
    ensures ValueHere(obj[i..], name, out)
            == if q >= |obj| then out else Entries(obj[q + 1..], out[name := Unescape(obj[i + 1..q])])
  {
    TokenAt(obj, i, q);
    if q < |obj| {
      ValueQuoted(obj[i..], q - i - 1, obj[q + 1..], obj[i + 1..q], name, out);
    } else {
      ValueQuoted(obj[i..], q - i - 1, "", "", name, out);
    }
  }

  /** One turn of that loop. */
  method ParseEntry(obj: string, from: nat, before: map<string, string>)
    returns (go: bool, i: nat, out: map<string, string>)
    requires from <= |obj|
    ensures from <= i <= |obj|
    ensures go ==> from < i && Entries(obj[from..], before) == Entries(obj[i..], out)
    ensures !go ==> Entries(obj[from..], before) == out
  {
    var at := SkipSeparatorsFrom(obj, from, ',');
    EntriesAt(obj, from, at, before);
    go, i, out := ParseName(obj, at, before);
  }

  lemma EntriesAt(obj: string, from: nat, at: nat, out: map<string, string>)
    requires from <= at <= |obj| && at == from + SkipSeparators(obj[from..], ',')
    ensures Entries(obj[from..], out) == NameHere(obj[at..], out)
  {
    Suffix(obj, from, at - from);
  }

  method ParseName(obj: string, at: nat, before: map<string, string>)
    returns (go: bool, i: nat, out: map<string, string>)
    requires at <= |obj|
    ensures at <= i <= |obj|
    ensures go ==> at < i && NameHere(obj[at..], before) == Entries(obj[i..], out)
    ensures !go ==> NameHere(obj[at..], before) == out
  {
    go, i, out := false, at, before;
    if at >= |obj| || obj[at] == '}' {
      return;
    }
    if obj[at] != '\"' {
      Suffix(obj, at, 1);
      return true, at + 1, out;
    }
    var k2, name := ReadToken(obj, at);
    NameHereAt(obj, at, k2, out);
    if k2 < |obj| {
      go, i, out := ParseColon(obj, k2 + 1, name, before);
    }
  }

  /** The token at a quote: its closing quote, or the end, and its text. */
  method ReadToken(obj: string, at: nat) returns (end: nat, token: string)
    requires at < |obj|
    ensures end == at + 1 + ClosingQuote(obj[at + 1..])
    ensures end < |obj| ==> token == Unescape(obj[at + 1..end])
  {
    end := FindClosingQuote(obj, at + 1);
    token := "";
    if end < |obj| {
      token := JsonUnescape(obj[at + 1..end]);
    }
  }

  method ParseColon(obj: string, from: nat, name: string, before: map<string, string>)
    returns (go: bool, i: nat, out: map<string, string>)
    requires from <= |obj|
    ensures from <= i <= |obj|
    ensures go ==> EntryValue(obj[from..], name, before) == Entries(obj[i..], out)
    ensures !go ==> EntryValue(obj[from..], name, before) == out
  {
    var at := SkipSeparatorsFrom(obj, from, ':');
    Suffix(obj, from, at - from);
    go, i, out := ParseValue(obj, at, name, before);
  }

  method ParseValue(obj: string, at: nat, name: string, before: map<string, string>)
    returns (go: bool, i: nat, out: map<string, string>)
    requires at <= |obj|
    ensures at <= i <= |obj|
    ensures go ==> ValueHere(obj[at..], name, before) == Entries(obj[i..], out)
    ensures !go ==> ValueHere(obj[at..], name, before) == out
  {
    if at >= |obj| {
      return false, at, before;
    }
    if obj[at] == '\"' {
      go, i, out := ParseQuoted(obj, at, name, before);
    } else {
      NoValueHere(obj, at, name, before);
      go, i, out := true, at + 1, before;
    }
  }

  lemma NoValueHere(obj: string, at: nat, name: string, out: map<string, string>)
    requires at < |obj| && obj[at] != '\"'
    ensures ValueHere(obj[at..], name, out) == Entries(obj[at + 1..], out)
  {
    Suffix(obj, at, 1);
  }

  method ParseQuoted(obj: string, at: nat, name: string, before: map<string, string>)
    returns (go: bool, i: nat, out: map<string, string>)
    requires at < |obj| && obj[at] == '\"'
    ensures at <= i <= |obj|
    ensures go ==> ValueHere(obj[at..], name, before) == Entries(obj[i..], out)
    ensures !go ==> ValueHere(obj[at..], name, before) == out
  {
    var v2, value := ReadToken(obj, at);
    ValueHereAt(obj, at, v2, name, before);
    if v2 < |obj| {
      return true, v2 + 1, before[name := value];
    }
    return false, at, before;
  }

  method ParseMapFromJson(s: string, name: string) returns (out: map<string, string>)
    ensures out == ParseMap(s, name)
  {
    var p := Find(s, Quote(name), 0);
    if p < 0 {
      return map[];
    }
    var c := Find(s, ":", p);
    if c < 0 {
      return map[];
    }
    var t := s[c + 1..];
    var q := Find(t, "{", 0);
    if q < 0 {
      return map[];
    }
    var e := FindObjectEnd(t[q..]);
    if e < 0 || q + e >= |t| {
      return map[];
    }
    out := ParseEntries(t[q..q + e + 1]);
  }

  method ReadJob(s: string) returns (r: Option<Job>)
    ensures r == FromJson(s)
  {
    var id := ExtractField(s, "job_id");
    if id == "" {
      return None;
    }
    var examId := ExtractField(s, "exam_id");
    var studentName := ExtractField(s, "student_name");
    var examNumber := ExtractField(s, "exam_number");
    var studentClass := ExtractField(s, "student_class");
    var startTime := ExtractField(s, "start_time");
    var macAddress := ExtractField(s, "mac_address");
    var enqueuedAt := ExtractField(s, "enqueued_at");
    var retries := ExtractField(s, "retries");
    var answers := ParseMapFromJson(s, "answers");
    var identity := ParseMapFromJson(s, "identity_data");
    r := Some(Job(id, IntOrZero(examId), studentName, examNumber, studentClass, macAddress, startTime,
                  IntOrZero(retries), enqueuedAt, answers, identity));
  }
}
