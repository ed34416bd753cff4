/**
 The removal of answer keys from question JSON: `strip_sensitive_keys` of
 `src/utils/sanitize.cpp`.

 The code knows nothing of JSON trees. It looks for the text `"key":` (then
 `"answer":`), looks back over blanks for `{` or `,`, scans forward over one value with
 a string flag and a bracket depth, erases that stretch in place and goes on from there.
 The model keeps the code's two-part view of its buffer: `done`, which the search has
 passed, and `rest`, which it has not.
 */
module Sanitize {
  import opened JsonText
  import opened Text

  function Needle(k: string): string {
    Quote(k) + ":"
  }

  // ---- The algorithm ----------------------------------------------------------

  /** Length of `done` without its trailing blanks: the variable `before`. */
  function Before(done: string): (b: nat)
    ensures b <= |done|
  {
    if done != "" && IsBlank(done[|done| - 1]) then Before(done[..|done| - 1]) else |done|
  }

  predicate AtMember(done: string) {
    var b := Before(done);
    b > 0 && (done[b - 1] == '{' || done[b - 1] == ',')
  }

  datatype ScanState = Scan(inStr: bool, esc: bool, depth: nat)

  const START := Scan(false, false, 0)

  /** Where the value scanner stops. */
  predicate Stops(st: ScanState, c: char) {
    !st.esc && !st.inStr && st.depth == 0 && (c == ']' || c == '}' || c == ',')
  }

  function ScanNext(st: ScanState, c: char): ScanState
    requires !Stops(st, c)
  {
    if st.esc then st.(esc := false)
    else if c == '\\' && st.inStr then st.(esc := true)
    else if c == '\"' then st.(inStr := !st.inStr)
    else if st.inStr then st
    else if c == '[' || c == '{' then st.(depth := st.depth + 1)
    else if c == ']' || c == '}' then st.(depth := st.depth - 1)
    else st
  }

  /** How many characters of `s` the value scanner passes. */
  function ScanValue(s: string, st: ScanState): (n: nat)
    ensures n <= |s|
  {
    if s == "" || Stops(st, s[0]) then 0 else 1 + ScanValue(s[1..], ScanNext(st, s[0]))
  }

  /** The value after a needle: the blanks before it and its length. */
  datatype Extent = Extent(blanks: nat, value: nat)

  function ValueExtent(after: string): (e: Extent)
    ensures e.blanks + e.value <= |after|
  {
    var blanks := SkipBlanks(after);
    Extent(blanks, ScanValue(after[blanks..], START))
  }

  datatype Step = Finished(text: string) | Continue(done: string, rest: string)

  /** The erasure of the member of length `len` at the start of `rest`, where `b` is the
      length of `done` without its trailing blanks. */
  function Cut(done: string, rest: string, b: nat, len: nat): (r: Step)
    requires 0 < b <= |done| && 0 < len <= |rest|
    ensures r.Continue? && |r.done| + |r.rest| < |done| + |rest|
  {
    if done[b - 1] == ',' then
      // The erased stretch starts at the comma but is one longer than the member, so
      // blanks after the comma push the same number of characters out of it.
      Continue(done[..b - 1], (done[b..] + rest)[len..])
    else if len < |rest| && rest[len] == ',' then Continue(done, rest[len + 1..])
    else Continue(done, rest[len..])
  }

  /** One round of the search-and-erase loop, with the needle of size `size` found at the
      start of `rest`. */
  function Round(size: nat, done: string, rest: string): (r: Step)
    requires 0 < size <= |rest|
    ensures r.Continue? ==> |r.done| + |r.rest| <= |done| + |rest|
    ensures r.Continue? && |r.done| + |r.rest| == |done| + |rest| ==> |r.rest| < |rest|
  {
    if !AtMember(done) then Continue(done + rest[..size], rest[size..])
    else
      var e := ValueExtent(rest[size..]);
      if e.value == 0 then Finished(done + rest) else Cut(done, rest, Before(done), size + e.blanks + e.value)
  }

  /** The search-and-erase loop for one key, started with `done` behind it. */
  function Strip(k: string, done: string, rest: string): string
    decreases |done| + |rest|, |rest|
  {
    if rest == "" then done
    else if !(Needle(k) <= rest) then Strip(k, done + [rest[0]], rest[1..])
    else
      match Round(|Needle(k)|, done, rest)
      case Finished(text) => text
      case Continue(done', rest') => Strip(k, done', rest')
  }

  function StripSensitive(json: string): string {
    Strip("answer", "", Strip("key", "", json))
  }

  lemma OccursIsPrefix(s: string, needle: string, at: nat)
    requires at <= |s|
    ensures OccursAt(s, needle, at) <==> needle <= s[at..]
  {
    if at + |needle| <= |s| {
      assert s[at..at + |needle|] == s[at..][..|needle|];
    }
  }

  lemma {:induction false} StripSkipsTo(k: string, s: string, search: nat, p: nat)
    requires search <= p <= |s|
    requires forall i :: search <= i < p ==> !OccursAt(s, Needle(k), i)
    ensures Strip(k, s[..search], s[search..]) == Strip(k, s[..p], s[p..])
    decreases p - search
  {
    if search < p {
      assert !OccursAt(s, Needle(k), search);
      OccursIsPrefix(s, Needle(k), search);
      assert s[..search] + [s[search..][0]] == s[..search + 1];
      assert s[search..][1..] == s[search + 1..];
      StripSkipsTo(k, s, search + 1, p);
    }
  }

  /** The back-up loop over blanks. */
  method FindBefore(out: string, p: nat) returns (before: nat)
    requires p <= |out|
    ensures before == Before(out[..p])
  {
    before := p;
    while before > 0 && IsBlank(out[before - 1])
      invariant before <= p
      invariant Before(out[..before]) == Before(out[..p])
    {
      assert out[..before][..before - 1] == out[..before - 1];
      before := before - 1;
    }
  }

  /** The blank-skipping loop after the needle. */
  method FindValue(out: string, from: nat) returns (v: nat)
    requires from <= |out|
    ensures from <= v <= |out| && v - from == SkipBlanks(out[from..])
  {
    v := from;
    while v < |out| && IsBlank(out[v])
      invariant from <= v <= |out|
      invariant SkipBlanks(out[from..]) == v - from + SkipBlanks(out[v..])
    {
      assert out[v..][1..] == out[v + 1..];
      v := v + 1;
    }
  }

  lemma ScanHere(out: string, end: nat, st: ScanState)
    requires end < |out|
    ensures ScanValue(out[end..], st)
            == if Stops(st, out[end]) then 0 else 1 + ScanValue(out[end + 1..], ScanNext(st, out[end]))
  {
    assert out[end..][1..] == out[end + 1..];
  }

  /** The body of that loop. */
  method ScanChar(c: char, inStr: bool, esc: bool, depth: nat) returns (stop: bool, inStr': bool, esc': bool, depth': nat)
    ensures stop == Stops(Scan(inStr, esc, depth), c)
    ensures !stop ==> Scan(inStr', esc', depth') == ScanNext(Scan(inStr, esc, depth), c)
  {
    stop, inStr', esc', depth' := false, inStr, esc, depth;
    if esc { esc' := false; }
    else if c == '\\' && inStr { esc' := true; }
    else if c == '\"' { inStr' := !inStr; }
    else if inStr { }
    else if c == '[' || c == '{' { depth' := depth + 1; }
    else if c == ']' || c == '}' { if depth == 0 { stop := true; } else { depth' := depth - 1; } }
    else if depth == 0 && c == ',' { stop := true; }
  }

  /** The forward loop over one value. */
  method FindValueEnd(out: string, v: nat) returns (end: nat)
    requires v <= |out|
    ensures v <= end <= |out| && end - v == ScanValue(out[v..], START)
  {
    end := v;
    var stop, inStr, esc, depth: nat := false, false, false, 0;
    while end < |out|
      invariant v <= end <= |out|
      invariant ScanValue(out[v..], START) == end - v + ScanValue(out[end..], Scan(inStr, esc, depth))
    {
      ScanHere(out, end, Scan(inStr, esc, depth));
      stop, inStr, esc, depth := ScanChar(out[end], inStr, esc, depth);
      if stop {
        return;
      }
      end := end + 1;
    }
  }

  /** `std::string::erase`. */
  function Erase(out: string, start: nat, len: nat): string
    requires start + len <= |out|
  {
    out[..start] + out[start + len..]
  }

  lemma EraseSplits(out: string, start: nat, len: nat)
    requires start + len <= |out|
    ensures Erase(out, start, len)[..start] == out[..start]
    ensures Erase(out, start, len)[start..] == out[start + len..]
  {
  }

  lemma TailAt(out: string, p: nat, q: nat)
    requires p <= q <= |out|
    ensures out[p..][q - p..] == out[q..]
  {
  }

  /** The two forward loops together: where the member with its needle at `p` ends. */
  method FindMember(out: string, p: nat, size: nat) returns (v: nat, end: nat)
    requires p + size <= |out|
    ensures p + size <= v <= end <= |out|
    ensures ValueExtent(out[p..][size..]) == Extent(v - p - size, end - v)
  {
    TailAt(out, p, p + size);
    v := FindValue(out, p + size);
    TailAt(out, p + size, v);
    end := FindValueEnd(out, v);
  }

  /** The stretch to erase for the member at `p` that ends at `end`. */
  method EraseMember(buffer: string, p: nat, before: nat, end: nat) returns (start: nat, len: nat)
    requires 0 < before <= p < end <= |buffer|
    ensures start + len <= |buffer|
    ensures buffer[before - 1] == ',' ==> start == before - 1 && len == end - p + 1
    ensures buffer[before - 1] != ',' && end < |buffer| && buffer[end] == ',' ==> start == p && len == end - p + 1
    ensures buffer[before - 1] != ',' && !(end < |buffer| && buffer[end] == ',') ==> start == p && len == end - p
  {
    start, len := p, end - p;
    if buffer[before - 1] == ',' {
      start := before - 1;
      len := len + 1;
    } else if end < |buffer| && buffer[end] == ',' {
      len := len + 1;
    }
  }

  /** The in-place erasure is the cut of the two-part view. */
  lemma EraseIsCut(buffer: string, p: nat, before: nat, end: nat, start: nat, len: nat)
    requires 0 < before <= p < end <= |buffer| && start + len <= |buffer|
    requires buffer[before - 1] == ',' ==> start == before - 1 && len == end - p + 1
    requires buffer[before - 1] != ',' && end < |buffer| && buffer[end] == ',' ==> start == p && len == end - p + 1
    requires buffer[before - 1] != ',' && !(end < |buffer| && buffer[end] == ',') ==> start == p && len == end - p
    ensures var out := Erase(buffer, start, len);
            Cut(buffer[..p], buffer[p..], before, end - p) == Continue(out[..start], out[start..])
  {
    EraseSplits(buffer, start, len);
    assert buffer[..p][before..] + buffer[p..] == buffer[before..];
    assert buffer[..p][..before - 1] == buffer[..before - 1];
    TailAt(buffer, before, before + end - p);
    TailAt(buffer, p, end);
    if end < |buffer| {
      TailAt(buffer, p, end + 1);
    }
  }

  lemma RoundSkips(size: nat, buffer: string, p: nat)
    requires 0 < size && p + size <= |buffer| && !AtMember(buffer[..p])
    ensures Round(size, buffer[..p], buffer[p..]) == Continue(buffer[..p + size], buffer[p + size..])
  {
    TailAt(buffer, p, p + size);
    assert buffer[..p + size] == buffer[..p] + buffer[p..][..size];
  }

  lemma RoundStops(size: nat, buffer: string, p: nat)
    requires 0 < size && p + size <= |buffer| && AtMember(buffer[..p])
    requires ValueExtent(buffer[p..][size..]).value == 0
    ensures Round(size, buffer[..p], buffer[p..]) == Finished(buffer)
  {
    assert buffer[..p] + buffer[p..] == buffer;
  }

  lemma RoundCuts(size: nat, done: string, rest: string, e: Extent)
    requires 0 < size <= |rest| && AtMember(done) && e == ValueExtent(rest[size..]) && e.value > 0
    ensures Round(size, done, rest) == Cut(done, rest, Before(done), size + e.blanks + e.value)
  {
  }

  /** The body of the loop once the needle is found at `p`. */
  method StripRound(size: nat, buffer: string, p: nat) returns (out: string, search: nat, stop: bool)
    requires 0 < size && p + size <= |buffer|
    ensures search <= |out|
    ensures Round(size, buffer[..p], buffer[p..])
         == if stop then Finished(out) else Continue(out[..search], out[search..])
  {
    var before := FindBefore(buffer, p);
    if before == 0 || (buffer[before - 1] != '{' && buffer[before - 1] != ',') {
      RoundSkips(size, buffer, p);
      return buffer, p + size, false;
    }
    var v, end := FindMember(buffer, p, size);
    if end <= v {
      RoundStops(size, buffer, p);
      return buffer, p, true;
    }
    var start, len := EraseMember(buffer, p, before, end);
    EraseIsCut(buffer, p, before, end, start, len);
    RoundCuts(size, buffer[..p], buffer[p..], Extent(v - p - size, end - v));
    return Erase(buffer, start, len), start, false;
  }

  /** One key's pass over the buffer. The loop ends because every round shortens the
      buffer or moves the search forward in it. */
  method StripKey(k: string, json: string) returns (out: string)
    ensures out == Strip(k, "", json)
  {
    out := json;
    var search: nat := 0;
    assert out[..0] == "" && out[0..] == json;
    while true
      invariant search <= |out|
      invariant Strip(k, out[..search], out[search..]) == Strip(k, "", json)
      decreases |out|, |out| - search
    {
      var p := Find(out, Needle(k), search);
      FindIsFirst(out, Needle(k), search);
      if p == -1 {
        StripSkipsTo(k, out, search, |out|);
        assert out[..|out|] == out && out[|out|..] == "";
        break;
      }
      StripSkipsTo(k, out, search, p);
      OccursIsPrefix(out, Needle(k), p);
      var stop;
      out, search, stop := StripRound(|Needle(k)|, out, p);
      if stop { break; }
    }
  }

  method StripSensitiveKeys(json: string) returns (out: string)
    ensures out == StripSensitive(json)
  {
    out := StripKey("key", json);
    out := StripKey("answer", out);
  }
}
