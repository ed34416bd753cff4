/**
 The Socket.IO text codec (`src/websocket/socketio.cpp`) and the scanner with which the hub
 takes one string out of a payload (`src/websocket/hub.cpp`).

 `json_string` and `make_payload` write exactly what the escaper and the map printer of the
 submission queue write, so they are not defined a second time: `Quote(Escape(s))` and
 `MapText(pairs)`.
 */
module SocketIo {
  import opened Wrappers
  import opened Text
  import opened JsonText
  import opened JobText

  datatype Message = Message(event: string, payload: string)

  function Marshal(event: string, payload: string): string {
    "[" + Quote(Escape(event)) + "," + payload + "]"
  }

  // ---- Parsing a message ------------------------------------------------------

  function FindClosing(s: string, start: nat): (q: int)
    requires start < |s|
    ensures q == -1 || start < q < |s|
  {
    var q := start + 1 + ClosingQuote(s[start + 1..]);
    if q < |s| then q else -1
  }

  method FindClosingLoop(s: string, start: nat) returns (q: int)
    requires start < |s|
    ensures q == FindClosing(s, start)
  {
    var i := start + 1;
    while i < |s|
      invariant start < i
      invariant i <= |s| ==> start + 1 + ClosingQuote(s[start + 1..]) == i + ClosingQuote(s[i..])
      invariant i > |s| ==> start + 1 + ClosingQuote(s[start + 1..]) == i
      decreases |s| - i
    {
      ghost var rest := s[i..];
      if s[i] == '\\' {
        if i + 2 <= |s| { assert rest[2..] == s[i + 2..]; }
        i := i + 2;
      } else if s[i] == '\"' {
        return i;
      } else {
        assert rest[1..] == s[i + 1..];
        i := i + 1;
      }
    }
    return -1;
  }

  function ParseMessage(data: string): Option<Message> {
    if |data| < 4 || data[0] != '[' then None else
    var p1 := Find(data, "\"", 0);
    if p1 < 0 then None else
    var p2 := FindClosing(data, p1);
    if p2 < 0 then None else
    var comma := Find(data, ",", p2);
    if comma < 0 then None else
    var start := comma + 1 + SkipSpaces(data[comma + 1..]);
    if start == |data| then None else
    var end := FindLast(data, ']');
    if end <= start then None else Some(Message(data[p1 + 1..p2], data[start..end]))
  }

  // ---- One string of a payload ------------------------------------------------

  function StringHere(v: string): Option<string> {
    if v == "" || v[0] != '\"' then None else
    var q := ClosingQuote(v[1..]);
    if q >= |v| - 1 then None else Some(v[1..1 + q])
  }

  function AfterColon(t: string): Option<string> {
    StringHere(t[SkipBlanks(t)..])
  }

  function ColonHere(u: string): Option<string> {
    if u == "" || u[0] != ':' then None else AfterColon(u[1..])
  }

  /** After a name: a colon and a string, with blanks around the colon. */
  function MemberString(t: string): Option<string> {
    ColonHere(t[SkipBlanks(t)..])
  }

  /** The value of the name that stands here, if it has a string value. */
  function Hit(s: string, needle: string): Option<string> {
    if needle <= s then MemberString(s[|needle|..]) else None
  }

  /** The scan: names are looked for outside strings only. */
  function Scan(s: string, needle: string, inStr: bool, esc: bool): string {
    if s == "" then ""
    else if !inStr && !esc && Hit(s, needle).Some? then Hit(s, needle).value
    else if esc then Scan(s[1..], needle, inStr, false)
    else if s[0] == '\\' && inStr then Scan(s[1..], needle, inStr, true)
    else if s[0] == '\"' then Scan(s[1..], needle, !inStr, false)
    else Scan(s[1..], needle, inStr, false)
  }

  function ExtractString(json: string, name: string): string {
    Scan(json, Quote(name), false, false)
  }

  method MemberStringAt(json: string, from: nat) returns (r: Option<string>)
    requires from <= |json|
    ensures r == MemberString(json[from..])
  {
    var colon := SkipBlanksFrom(json, from);
    Suffix(json, from, colon - from);
    r := ColonAt(json, colon);
  }

  method ColonAt(json: string, colon: nat) returns (r: Option<string>)
    requires colon <= |json|
    ensures r == ColonHere(json[colon..])
  {
    if colon == |json| || json[colon] != ':' {
      return None;
    }
    Suffix(json, colon, 1);
    r := AfterColonAt(json, colon + 1);
  }

  method AfterColonAt(json: string, from: nat) returns (r: Option<string>)
    requires from <= |json|
    ensures r == AfterColon(json[from..])
  {
    var v := SkipBlanksFrom(json, from);
    Suffix(json, from, v - from);
    r := StringAt(json, v);
  }

  method StringAt(json: string, v: nat) returns (r: Option<string>)
    requires v <= |json|
    ensures r == StringHere(json[v..])
  {
    if v == |json| || json[v] != '\"' {
      return None;
    }
    Suffix(json, v, 1);
    var end := FindClosingLoop(json, v);
    if end < 0 {
      return None;
    }
    assert json[v..][1..end - v] == json[v + 1..end];
    return Some(json[v + 1..end]);
  }

  method SkipBlanksFrom(s: string, from: nat) returns (i: nat)
    requires from <= |s|
    ensures i == from + SkipBlanks(s[from..])
  {
    i := from;
    while i < |s| && IsBlank(s[i])
      invariant from <= i <= |s|
      invariant from + SkipBlanks(s[from..]) == i + SkipBlanks(s[i..])
    {
      assert s[i..][1..] == s[i + 1..];
      i := i + 1;
    }
  }

  method StandsAt(json: string, i: nat, needle: string) returns (ok: bool)
    requires i <= |json|
    ensures ok <==> needle <= json[i..]
    ensures ok ==> i + |needle| <= |json|
  {
    ok := false;
    if i + |needle| <= |json| {
      assert json[i..i + |needle|] == json[i..][..|needle|];
      ok := json[i..i + |needle|] == needle;
    }
  }

  lemma HitIs(json: string, i: nat, needle: string, stands: bool, r: Option<string>)
    requires i <= |json| && stands == (needle <= json[i..])
    requires stands ==> i + |needle| <= |json| && r == MemberString(json[i + |needle|..])
    requires !stands ==> r == None
    ensures r == Hit(json[i..], needle)
  {
    if stands {
      Suffix(json, i, |needle|);
    }
  }

  method HitAt(json: string, i: nat, needle: string) returns (r: Option<string>)
    requires i <= |json|
    ensures r == Hit(json[i..], needle)
  {
    r := None;
    var stands := StandsAt(json, i, needle);
    if stands {
      r := MemberStringAt(json, i + |needle|);
    }
    HitIs(json, i, needle, stands, r);
  }

  /** One character of the scan, when no name stands here. */
  lemma ScanStep(json: string, i: nat, needle: string, inStr: bool, esc: bool)
    requires i < |json| && (!inStr && !esc ==> Hit(json[i..], needle).None?)
    ensures var c := json[i];
            var esc' := !esc && c == '\\' && inStr;
            var inStr' := if !esc && !esc' && c == '\"' then !inStr else inStr;
            Scan(json[i..], needle, inStr, esc) == Scan(json[i + 1..], needle, inStr', esc')
  {
    Suffix(json, i, 1);
  }

  method ExtractJsonString(json: string, name: string) returns (v: string)
    ensures v == ExtractString(json, name)
  {
    var needle := Quote(name);
    var i := 0;
    var inStr, esc := false, false;
    assert json[0..] == json;
    while i < |json|
      invariant i <= |json|
      invariant Scan(json[i..], needle, inStr, esc) == ExtractString(json, name)
    {
      var hit := None;
      if !inStr && !esc {
        hit := HitAt(json, i, needle);
        if hit.Some? {
          return hit.value;
        }
      }
      ScanStep(json, i, needle, inStr, esc);
      if esc {
        esc := false;
      } else if json[i] == '\\' && inStr {
        esc := true;
      } else if json[i] == '\"' {
        inStr := !inStr;
      }
      i := i + 1;
    }
    return "";
  }
}
