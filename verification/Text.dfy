/** `std::string::find` and the few byte classes the scanners of the repository use. */
module Text {

  predicate IsBlank(c: char) {
    c == ' ' || c == '\t' || c == '\r' || c == '\n'
  }

  predicate AllBlank(s: string) {
    forall i :: 0 <= i < |s| ==> IsBlank(s[i])
  }

  predicate IsDigit(c: char) {
    '0' <= c <= '9'
  }

  /** What `std::isspace` holds for white space. */
  predicate IsSpace(c: char) {
    IsBlank(c) || c == '\U{000B}' || c == '\U{000C}'
  }

  lemma Associate(a: string, b: string, c: string)
    ensures a + b + c == a + (b + c)
  {
  }

  lemma AssociateAll(a: string, b: string, c: string, d: string)
    ensures a + b + c + d == a + (b + (c + d))
  {
  }

  /** Does `needle` stand at position `at`? */
  predicate OccursAt(s: string, needle: string, at: nat) {
    at + |needle| <= |s| && s[at..at + |needle|] == needle
  }

  /** The first position at or after `from` where `needle` stands, or -1. */
  function Find(s: string, needle: string, from: nat): (p: int)
    requires from <= |s|
    ensures p == -1 || from <= p <= |s| - |needle|
    decreases |s| - from
  {
    if OccursAt(s, needle, from) then from
    else if from == |s| then -1
    else Find(s, needle, from + 1)
  }

  lemma {:induction false} FindIsFirst(s: string, needle: string, from: nat)
    requires from <= |s|
    ensures var p := Find(s, needle, from);
            && (p >= 0 ==> OccursAt(s, needle, p))
            && forall i :: from <= i < (if p >= 0 then p else |s| + 1) ==> !OccursAt(s, needle, i)
    decreases |s| - from
  {
    if !OccursAt(s, needle, from) && from < |s| {
      FindIsFirst(s, needle, from + 1);
    }
  }

  /** The last position of the character, or -1. */
  function FindLast(s: string, c: char): (p: int)
    ensures -1 <= p < |s|
    ensures p >= 0 ==> s[p] == c
  {
    if s == "" then -1 else if s[|s| - 1] == c then |s| - 1 else FindLast(s[..|s| - 1], c)
  }

  /** The number of blanks `s` starts with. */
  function SkipBlanks(s: string): (n: nat)
    ensures n <= |s|
  {
    if s != "" && IsBlank(s[0]) then 1 + SkipBlanks(s[1..]) else 0
  }

  lemma {:induction false} SkipBlanksOf(blanks: string, suf: string)
    requires AllBlank(blanks) && (suf == "" || !IsBlank(suf[0]))
    ensures SkipBlanks(blanks + suf) == |blanks|
  {
    if blanks == "" {
      assert blanks + suf == suf;
    } else {
      assert (blanks + suf)[1..] == blanks[1..] + suf;
      SkipBlanksOf(blanks[1..], suf);
    }
  }

  lemma Suffix(s: string, i: nat, n: nat)
    requires i + n <= |s|
    ensures s[i..][n..] == s[i + n..]
  {
  }
}
