/**
 Spreadsheet column letters (`col_ref` of `src/handlers/admin/export.cpp`): A to Z, then AA.
 */
module Columns {

  predicate IsLetters(s: string) {
    forall i :: 0 <= i < |s| ==> 'A' <= s[i] <= 'Z'
  }

  function Letter(n: int): (c: char)
    requires 0 <= n < 26
    ensures 'A' <= c <= 'Z' && c as int - 'A' as int == n
  {
    ('A' as int + n) as char
  }

  /** The letters of a column index; nothing for a negative one. */
  function Letters(index: int): string
    decreases if index < 0 then 0 else index + 1
  {
    if index < 0 then "" else Letters(index / 26 - 1) + [Letter(index % 26)]
  }

  method ColRef(index: int) returns (s: string)
    ensures s == Letters(index)
  {
    s := "";
    var idx := index;
    while idx >= 0
      invariant Letters(idx) + s == Letters(index)
      decreases if idx < 0 then 0 else idx + 1
    {
      var c := Letter(idx % 26);
      assert Letters(idx) + s == Letters(idx / 26 - 1) + ([c] + s);
      s := [c] + s;
      idx := idx / 26 - 1;
    }
    assert "" + s == s;
  }

  /** The index that letters stand for: bijective base 26, counted from zero. */
  function IndexOf(s: string): int
    requires IsLetters(s)
  {
    if s == "" then -1 else (IndexOf(s[..|s| - 1]) + 1) * 26 + (s[|s| - 1] as int - 'A' as int)
  }

  /** Every index has its own letters, ... */
  lemma {:induction false} IndexOfLetters(index: int)
    requires index >= -1
    ensures IsLetters(Letters(index)) && IndexOf(Letters(index)) == index
    decreases index + 1
  {
    if index >= 0 {
      IndexOfLetters(index / 26 - 1);
      var s := Letters(index);
      assert s[..|s| - 1] == Letters(index / 26 - 1) && s[|s| - 1] == Letter(index % 26);
    }
  }

  /** ... and every word of letters is that of an index. */
  lemma {:induction false} LettersOfIndex(s: string)
    requires IsLetters(s)
    ensures IndexOf(s) >= -1 && Letters(IndexOf(s)) == s
  {
    if s != "" {
      var lead, last := s[..|s| - 1], s[|s| - 1] as int - 'A' as int;
      LettersOfIndex(lead);
      var index := IndexOf(s);
      assert index == (IndexOf(lead) + 1) * 26 + last;
      assert index / 26 == IndexOf(lead) + 1 && index % 26 == last;
      assert s == lead + [s[|s| - 1]];
    }
  }
}
