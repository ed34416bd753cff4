/**
 The JSON string layer shared by the submission queue and the Socket.IO codec:
 the escaper and unescaper of `src/queue/submission_queue.cpp`, and the facts about
 escaped text that every hand-written scanner of the repository relies on.

 A byte of a C++ string is modelled as the character with the same code. The
 scanners only compare bytes with ASCII constants, so every result below holds in
 particular for strings whose characters are all below U+0100.
 */
module JsonText {

  const BACKSPACE: char := '\U{0008}'
  const FORMFEED: char := '\U{000C}'

  // ---- Escaping ---------------------------------------------------------------

  function HexDigit(n: int): char
    requires 0 <= n < 16
  {
    if n < 10 then '0' + (n as char) else 'a' + ((n - 10) as char)
  }

  function EscapeChar(c: char): string {
    if c == '\"' then "\\\""
    else if c == '\\' then "\\\\"
    else if c == BACKSPACE then "\\b"
    else if c == FORMFEED then "\\f"
    else if c == '\n' then "\\n"
    else if c == '\r' then "\\r"
    else if c == '\t' then "\\t"
    else if c < ' ' then "\\u00" + [HexDigit(c as int / 16), HexDigit(c as int % 16)]
    else [c]
  }

  function Escape(s: string): string {
    if s == "" then "" else EscapeChar(s[0]) + Escape(s[1..])
  }

  method JsonEscape(s: string) returns (o: string)
    ensures o == Escape(s)
  {
    o := "";
    for i := 0 to |s|
      invariant o + Escape(s[i..]) == Escape(s)
    {
      var rest := s[i..];
      assert rest[1..] == s[i + 1..];
      assert o + (EscapeChar(s[i]) + Escape(s[i + 1..])) == (o + EscapeChar(s[i])) + Escape(s[i + 1..]);
      o := o + EscapeChar(s[i]);
    }
    assert s[|s|..] == "";
  }

  // ---- Unescaping -------------------------------------------------------------

  /** The value of a hexadecimal digit, or -1. */
  function HexValue(c: char): int {
    if '0' <= c <= '9' then c as int - '0' as int
    else if 'a' <= c <= 'f' then c as int - 'a' as int + 10
    else if 'A' <= c <= 'F' then c as int - 'A' as int + 10
    else -1
  }

  predicate IsHex4(s: string)
    requires |s| == 4
  {
    HexValue(s[0]) >= 0 && HexValue(s[1]) >= 0 && HexValue(s[2]) >= 0 && HexValue(s[3]) >= 0
  }

  function Hex4(s: string): (v: int)
    requires |s| == 4 && IsHex4(s)
    ensures 0 <= v < 0x10000
  {
    ((HexValue(s[0]) * 16 + HexValue(s[1])) * 16 + HexValue(s[2])) * 16 + HexValue(s[3])
  }

  /** The bytes a `\uXXXX` escape stands for. */
  function Utf8(v: int): string
    requires 0 <= v < 0x10000
  {
    if v <= 0x7F then [v as char]
    else if v <= 0x7FF then [(0xC0 + v / 64) as char, (0x80 + v % 64) as char]
    else [(0xE0 + v / 4096) as char, (0x80 + v / 64 % 64) as char, (0x80 + v % 64) as char]
  }

  function UnescapeShort(n: char): char {
    if n == 'n' then '\n'
    else if n == 'r' then '\r'
    else if n == 't' then '\t'
    else if n == 'b' then BACKSPACE
    else if n == 'f' then FORMFEED
    else n
  }

  predicate UnicodeEscapeAt(s: string) {
    |s| > 5 && s[0] == '\\' && s[1] == 'u' && IsHex4(s[2..6])
  }

  function Unescape(s: string): string {
    if s == "" then ""
    else if UnicodeEscapeAt(s) then Utf8(Hex4(s[2..6])) + Unescape(s[6..])
    else if s[0] == '\\' && |s| > 1 then [UnescapeShort(s[1])] + Unescape(s[2..])
    else [s[0]] + Unescape(s[1..])
  }

  /** The digit loop of the unescaper over the four characters at `at`. */
  method ReadHex4(s: string, at: nat) returns (v: int, ok: bool)
    requires at + 4 <= |s|
    ensures ok == IsHex4(s[at..at + 4])
    ensures ok ==> v == Hex4(s[at..at + 4])
  {
    v, ok := 0, true;
    ghost var t := s[at..at + 4];
    for k := 0 to 4
      invariant ok <==> forall j :: 0 <= j < k ==> HexValue(t[j]) >= 0
      invariant ok && k == 0 ==> v == 0
      invariant ok && k == 1 ==> v == HexValue(t[0])
      invariant ok && k == 2 ==> v == HexValue(t[0]) * 16 + HexValue(t[1])
      invariant ok && k == 3 ==> v == (HexValue(t[0]) * 16 + HexValue(t[1])) * 16 + HexValue(t[2])
      invariant ok && k == 4 ==> v == Hex4(t)
    {
      assert t[k] == s[at + k];
      var h := HexValue(s[at + k]);
      v := v * 16;
      if h >= 0 { v := v + h; } else { ok := false; }
    }
  }

  /** One round of the loop of `json_unescape`: what is appended and how far it moves. */
  function UnescapeStep(s: string): (r: (string, nat))
    requires s != ""
    ensures 1 <= r.1 <= |s|
    ensures Unescape(s) == r.0 + Unescape(s[r.1..])
  {
    if UnicodeEscapeAt(s) then (Utf8(Hex4(s[2..6])), 6)
    else if s[0] == '\\' && |s| > 1 then ([UnescapeShort(s[1])], 2)
    else ([s[0]], 1)
  }

  method JsonUnescape(s: string) returns (o: string)
    ensures o == Unescape(s)
  {
    o := "";
    var i := 0;
    while i < |s|
      invariant 0 <= i <= |s|
      invariant o + Unescape(s[i..]) == Unescape(s)
    {
      ghost var rest, before := s[i..], o;
      ghost var step := UnescapeStep(rest);
      assert rest[step.1..] == s[i + step.1..];
      assert before + (step.0 + Unescape(s[i + step.1..])) == (before + step.0) + Unescape(s[i + step.1..]);
      if s[i] == '\\' && i + 1 < |s| {
        var n := s[i + 1];
        var done := false;
        if n == 'u' && i + 5 < |s| {
          var v, ok := ReadHex4(s, i + 2);
          assert rest[2..6] == s[i + 2..i + 6];
          if ok {
            o := o + Utf8(v);
            i := i + 6;
            done := true;
          }
        }
        if !done {
          o := o + [UnescapeShort(n)];
          i := i + 2;
        }
      } else {
        o := o + [s[i]];
        i := i + 1;
      }
    }
  }

  // ---- The two are inverse ----------------------------------------------------

  lemma UnescapeEscapedChar(c: char, rest: string)
    ensures Unescape(EscapeChar(c) + rest) == [c] + Unescape(rest)
  {
    var e := EscapeChar(c);
    var t := e + rest;
    if |e| == 1 {
      assert t[1..] == rest;
    } else if |e| == 2 {
      assert t[2..] == rest;
    } else {
      assert t[6..] == rest;
      assert t[2..6] == ['0', '0', HexDigit(c as int / 16), HexDigit(c as int % 16)];
      assert HexValue(HexDigit(c as int / 16)) == c as int / 16;
      assert HexValue(HexDigit(c as int % 16)) == c as int % 16;
      assert Hex4(t[2..6]) == c as int;
    }
  }

  /** `json_unescape` undoes `json_escape`, for every string. */
  lemma {:induction false} UnescapeEscape(s: string)
    ensures Unescape(Escape(s)) == s
  {
    if s != "" {
      UnescapeEscapedChar(s[0], Escape(s[1..]));
      UnescapeEscape(s[1..]);
    }
  }

  // ---- Escaped text -----------------------------------------------------------

  /** Text that can stand between two quotes: every quote in it is escaped and no
      backslash is left dangling. */
  predicate WellEscaped(c: string) {
    if c == "" then true
    else if c[0] == '\\' then |c| >= 2 && WellEscaped(c[2..])
    else c[0] != '\"' && WellEscaped(c[1..])
  }

  function Quote(c: string): string {
    "\"" + c + "\""
  }

  lemma {:induction false} WellEscapedConcat(a: string, b: string)
    requires WellEscaped(a) && WellEscaped(b)
    ensures WellEscaped(a + b)
  {
    if a == "" {
      assert a + b == b;
    } else if a[0] == '\\' {
      WellEscapedConcat(a[2..], b);
      assert (a + b)[2..] == a[2..] + b;
    } else {
      WellEscapedConcat(a[1..], b);
      assert (a + b)[1..] == a[1..] + b;
    }
  }

  lemma {:induction false} PlainWellEscaped(c: string)
    requires forall i :: 0 <= i < |c| ==> c[i] != '\\' && c[i] != '\"'
    ensures WellEscaped(c)
  {
    if c != "" {
      PlainWellEscaped(c[1..]);
    }
  }

  lemma EscapeCharWellEscaped(c: char)
    ensures WellEscaped(EscapeChar(c))
  {
    var e := EscapeChar(c);
    if |e| == 6 {
      PlainWellEscaped(e[2..]);
    } else if |e| == 2 {
      assert e[2..] == "";
    }
  }

  lemma {:induction false} EscapeWellEscaped(s: string)
    ensures WellEscaped(Escape(s))
  {
    if s != "" {
      EscapeCharWellEscaped(s[0]);
      EscapeWellEscaped(s[1..]);
      WellEscapedConcat(EscapeChar(s[0]), Escape(s[1..]));
    }
  }

  /** The inner loop shared by all the scanners: the offset of the first unescaped
      quote at or after the start of `s`, or at least |s| when there is none. A
      backslash skips two bytes, so the offset may run one past the end. */
  function ClosingQuote(s: string): nat {
    if s == "" then 0
    else if s[0] == '\\' then 2 + (if |s| >= 2 then ClosingQuote(s[2..]) else 0)
    else if s[0] == '\"' then 0
    else 1 + ClosingQuote(s[1..])
  }

  lemma {:induction false} ClosingQuoteOfEscaped(c: string, suf: string)
    requires WellEscaped(c)
    ensures ClosingQuote(c + "\"" + suf) == |c|
  {
    var t := c + "\"" + suf;
    if c == "" {
      assert t[0] == '\"';
    } else if c[0] == '\\' {
      ClosingQuoteOfEscaped(c[2..], suf);
      assert t[2..] == c[2..] + "\"" + suf;
    } else {
      ClosingQuoteOfEscaped(c[1..], suf);
      assert t[1..] == c[1..] + "\"" + suf;
    }
  }

  /** Every quote inside escaped text directly follows a backslash. */
  lemma {:induction false} QuoteFollowsBackslash(c: string, j: nat)
    requires WellEscaped(c) && j < |c| && c[j] == '\"'
    ensures j > 0 && c[j - 1] == '\\'
  {
    if c[0] == '\\' {
      if j >= 2 {
        QuoteFollowsBackslash(c[2..], j - 2);
      }
    } else {
      QuoteFollowsBackslash(c[1..], j - 1);
    }
  }
}
