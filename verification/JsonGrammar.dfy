/**
 The escaper and the unescaper of module JsonText against section 7 of RFC 8259, which says
 what may stand between the quotes of a JSON string and what it stands for.
 */
module JsonGrammar {
  import opened JsonText

  predicate IsHexDigit(c: char) {
    '0' <= c <= '9' || 'a' <= c <= 'f' || 'A' <= c <= 'F'
  }

  /** `unescaped`: no control character, no quotation mark, no reverse solidus. */
  predicate IsUnescaped(c: char) {
    c as int >= 0x20 && c as int != 0x22 && c as int != 0x5C
  }

  /** A backslash, `u` and four hexadecimal digits. */
  predicate StartsWithCode(s: string) {
    |s| >= 6 && s[0] == '\\' && s[1] == 'u'
    && IsHexDigit(s[2]) && IsHexDigit(s[3]) && IsHexDigit(s[4]) && IsHexDigit(s[5])
  }

  /** A backslash and one of the eight characters allowed behind it. */
  predicate StartsWithShort(s: string) {
    |s| >= 2 && s[0] == '\\' && s[1] in "\"\\/bfnrt"
  }

  /** `*char`: what may stand between quotation marks. */
  predicate IsContent(s: string) {
    if s == "" then true
    else if StartsWithCode(s) then IsContent(s[6..])
    else if StartsWithShort(s) then IsContent(s[2..])
    else IsUnescaped(s[0]) && IsContent(s[1..])
  }

  /** The character that a short escape stands for. */
  function ShortMeaning(c: char): char {
    if c == 'b' then 0x08 as char
    else if c == 't' then 0x09 as char
    else if c == 'n' then 0x0A as char
    else if c == 'f' then 0x0C as char
    else if c == 'r' then 0x0D as char
    else c
  }

  /** The bytes the content of a string stands for, codes in UTF-8. */
  function Meaning(s: string): string
    requires IsContent(s)
  {
    if s == "" then ""
    else if StartsWithCode(s) then Utf8(Hex4(s[2..6])) + Meaning(s[6..])
    else if StartsWithShort(s) then [ShortMeaning(s[1])] + Meaning(s[2..])
    else [s[0]] + Meaning(s[1..])
  }

  /** UTF-8 as RFC 3629 lays it out: what the bytes say is the code, in the shortest form. */
  lemma Utf8Says(v: int)
    requires 0 <= v < 0x10000
    ensures var bytes := Utf8(v);
            if v < 0x80 then bytes == [v as char]
            else if v < 0x800 then
              && |bytes| == 2 && 0xC2 <= bytes[0] as int <= 0xDF && 0x80 <= bytes[1] as int <= 0xBF
              && (bytes[0] as int - 0xC0) * 0x40 + (bytes[1] as int - 0x80) == v
            else
              && |bytes| == 3 && 0xE0 <= bytes[0] as int <= 0xEF
              && 0x80 <= bytes[1] as int <= 0xBF && 0x80 <= bytes[2] as int <= 0xBF
              && (bytes[0] as int - 0xE0) * 0x1000 + (bytes[1] as int - 0x80) * 0x40 + (bytes[2] as int - 0x80) == v
  {
  }

  lemma EscapedCharIsContent(c: char, rest: string)
    requires IsContent(rest)
    ensures IsContent(EscapeChar(c) + rest) && Meaning(EscapeChar(c) + rest) == [c] + Meaning(rest)
  {
    var e := EscapeChar(c);
    var s := e + rest;
    if |e| == 1 {
      assert s[1..] == rest;
    } else if |e| == 2 {
      assert s[1] == e[1] && s[2..] == rest;
    } else {
      assert s[6..] == rest && s[2..6] == ['0', '0', HexDigit(c as int / 16), HexDigit(c as int % 16)];
      assert Hex4(s[2..6]) == c as int;
    }
  }

  /** Escaped text is the content of a JSON string and stands for the text, for every text. */
  lemma {:induction false} EscapeIsContent(s: string)
    ensures IsContent(Escape(s)) && Meaning(Escape(s)) == s
  {
    if s != "" {
      EscapeIsContent(s[1..]);
      EscapedCharIsContent(s[0], Escape(s[1..]));
    }
  }

  lemma HexDigitsAgree(s: string)
    ensures StartsWithCode(s) <==> UnicodeEscapeAt(s)
  {
    if |s| >= 6 {
      var t := s[2..6];
      assert t[0] == s[2] && t[1] == s[3] && t[2] == s[4] && t[3] == s[5];
    }
  }

  /** The unescaper reads the content of every JSON string as what it stands for. */
  lemma {:induction false} UnescapeIsMeaning(s: string)
    requires IsContent(s)
    ensures Unescape(s) == Meaning(s)
  {
    HexDigitsAgree(s);
    if s == "" {
    } else if StartsWithCode(s) {
      UnescapeIsMeaning(s[6..]);
    } else if StartsWithShort(s) {
      UnescapeIsMeaning(s[2..]);
    } else {
      UnescapeIsMeaning(s[1..]);
    }
  }
}
