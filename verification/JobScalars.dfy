/**
 Reading back the scalar fields of a printed job: which value the reader finds for each name.
 */
module JobScalars {
  import opened Wrappers
  import opened Text
  import opened JsonText
  import opened JobText
  import opened JobCodec

  // ---- One field --------------------------------------------------------------

  predicate IsNumberText(s: string) {
    s != "" && forall i :: 0 <= i < |s| ==> IsDigit(s[i]) || s[i] == '-'
  }

  predicate IsField(f: Field) {
    PlainName(f.name) && (!f.quoted ==> IsNumberText(f.value))
  }

  predicate Spoils(k: string, f: Field) {
    f.quoted && Poison(k, f.value)
  }

  lemma OtherName(k: string, name: string)
    requires PlainName(k) && PlainName(name) && name != k
    ensures !EndsWith("\"" + name, "\"" + k)
  {
    PoisonMeans(k, name);
    if |k| < |name| {
      assert name[|name| - |k| - 1..][0] == name[|name| - |k| - 1];
      assert IsNameChar(name[|name| - |k| - 1]);
    }
  }

  lemma NameText(name: string)
    requires PlainName(name)
    ensures WellEscaped(name) && forall i :: 0 <= i < |name| ==> name[i] != ':' && name[i] != '\"'
  {
    PlainWellEscaped(name);
  }

  /** A field that has another name and does not spoil k. */
  lemma FieldMisses(k: string, f: Field, d: char)
    requires PlainName(k) && IsField(f) && f.name != k && !Spoils(k, f) && (d == ',' || d == '}')
    ensures Misses(k, FieldText(f) + [d])
  {
    OtherName(k, f.name);
    NameText(f.name);
    QuoteMisses(k, f.name, ':');
    if f.quoted {
      EscapePoison(k, f.value);
      EscapeWellEscaped(f.value);
      QuoteMisses(k, Escape(f.value), d);
    } else {
      NoQuoteMisses(k, f.value + [d]);
    }
    MissesConcat(k, Quote(f.name) + [':'], ValueText(f) + [d]);
    assert FieldText(f) + [d] == (Quote(f.name) + [':']) + (ValueText(f) + [d]);
  }

  /** Fields each followed by a comma. */
  function Leading(fs: seq<Field>): string {
    if fs == [] then "" else FieldText(fs[0]) + "," + Leading(fs[1..])
  }

  lemma {:induction false} LeadingMisses(k: string, fs: seq<Field>)
    requires PlainName(k)
    requires forall i :: 0 <= i < |fs| ==> IsField(fs[i]) && fs[i].name != k && !Spoils(k, fs[i])
    ensures Misses(k, Leading(fs))
  {
    if fs == [] {
      NoQuoteMisses(k, "");
    } else {
      FieldMisses(k, fs[0], ',');
      LeadingMisses(k, fs[1..]);
      MissesConcat(k, FieldText(fs[0]) + [','], Leading(fs[1..]));
      assert FieldText(fs[0]) + [','] == FieldText(fs[0]) + ",";
    }
  }

  lemma {:induction false} FieldsSplit(fs: seq<Field>, i: nat)
    requires i < |fs|
    ensures FieldsText(fs) == Leading(fs[..i]) + FieldsText(fs[i..])
  {
    if i > 0 {
      FieldsSplit(fs[1..], i - 1);
      assert fs[1..][..i - 1] == fs[..i][1..] && fs[1..][i - 1..] == fs[i..];
      assert FieldText(fs[0]) + "," + (Leading(fs[..i][1..]) + FieldsText(fs[i..]))
          == FieldText(fs[0]) + "," + Leading(fs[..i][1..]) + FieldsText(fs[i..]);
    } else {
      assert fs[0..] == fs;
    }
  }

  // ---- A value read back ------------------------------------------------------

  lemma {:induction false} NumberReads(s: string, rest: string)
    requires forall i :: 0 <= i < |s| ==> IsDigit(s[i]) || s[i] == '-'
    requires rest != "" && (rest[0] == ',' || rest[0] == '}')
    ensures ScalarEnd(s + rest) == |s| && WithoutSpaces(s) == s
  {
    if s == "" {
      assert s + rest == rest;
    } else {
      assert IsDigit(s[0]) || s[0] == '-';
      assert (s + rest)[1..] == s[1..] + rest;
      NumberReads(s[1..], rest);
    }
  }

  lemma QuotedReads(v: string, rest: string)
    ensures ValueAfter(Quote(Escape(v)) + rest) == v
  {
    var t, c := Quote(Escape(v)) + rest, Escape(v);
    assert t[0..] == t;
    EscapeWellEscaped(v);
    assert t[1..] == c + "\"" + rest;
    ClosingQuoteOfEscaped(c, rest);
    assert t[1..1 + |c|] == c;
    UnescapeEscape(v);
  }

  lemma ValueReads(f: Field, rest: string)
    requires IsField(f) && rest != "" && (rest[0] == ',' || rest[0] == '}')
    ensures ValueAfter(ValueText(f) + rest) == f.value
  {
    if f.quoted {
      QuotedReads(f.value, rest);
    } else {
      var t := f.value + rest;
      assert IsDigit(t[0]) || t[0] == '-';
      assert t[0..] == t && t[..|f.value|] == f.value;
      NumberReads(f.value, rest);
    }
  }

  // ---- Which field is read ----------------------------------------------------

  predicate WellFormed(fs: seq<Field>) {
    && (forall i :: 0 <= i < |fs| ==> IsField(fs[i]))
    && (forall i, j :: 0 <= i < j < |fs| ==> fs[i].name != fs[j].name)
  }

  /** For the name of field m: the field after the first one, from i on, that spoils it;
      field m itself if none before it does. */
  function Target(fs: seq<Field>, m: nat, i: nat): (r: nat)
    requires i <= m < |fs|
    ensures r <= m
    decreases m - i
  {
    if i == m then m else if Spoils(fs[m].name, fs[i]) then i + 1 else Target(fs, m, i + 1)
  }

  /** What stands between the opening brace and the value that is read. */
  function Tail(fs: seq<Field>, i: nat, rest: string): string
    requires i < |fs|
  {
    if i + 1 == |fs| then rest else "," + FieldsText(fs[i + 1..]) + rest
  }

  lemma FieldsFrom(fs: seq<Field>, i: nat, rest: string)
    requires i < |fs|
    ensures FieldsText(fs[i..]) + rest == Quote(fs[i].name) + ":" + (ValueText(fs[i]) + Tail(fs, i, rest))
  {
    var gs := fs[i..];
    if i + 1 < |fs| {
      assert gs[1..] == fs[i + 1..];
      assert FieldText(gs[0]) + "," + FieldsText(gs[1..]) + rest
        == Quote(gs[0].name) + ":" + (ValueText(gs[0]) + ("," + FieldsText(fs[i + 1..]) + rest));
    }
  }

  lemma Glue(all: string, lead: string, fields: string, rest: string, name: string, body: string)
    requires all == lead + fields && fields + rest == name + ":" + body
    ensures "{" + all + rest == ("{" + lead) + name + "" + ":" + body
  {
    assert "{" + all + rest == ("{" + lead) + (fields + rest);
  }

  lemma LayoutAt(fs: seq<Field>, m: nat, rest: string)
    requires m < |fs|
    ensures "{" + FieldsText(fs) + rest
            == ("{" + Leading(fs[..m])) + Quote(fs[m].name) + "" + ":" + (ValueText(fs[m]) + Tail(fs, m, rest))
  {
    FieldsSplit(fs, m);
    FieldsFrom(fs, m, rest);
    Glue(FieldsText(fs), Leading(fs[..m]), FieldsText(fs[m..]), rest, Quote(fs[m].name), ValueText(fs[m]) + Tail(fs, m, rest));
  }

  /** The fields before m, when none of them spoils k. */
  lemma OpeningMisses(k: string, fs: seq<Field>, m: nat)
    requires PlainName(k) && m <= |fs|
    requires forall i :: 0 <= i < m ==> IsField(fs[i]) && fs[i].name != k && !Spoils(k, fs[i])
    ensures Misses(k, "{" + Leading(fs[..m]))
  {
    LeadingMisses(k, fs[..m]);
    NoQuoteMisses(k, "{");
    MissesConcat(k, "{", Leading(fs[..m]));
  }

  lemma OwnNameAt(fs: seq<Field>, m: nat, rest: string)
    requires m < |fs| && PlainName(fs[m].name) && Misses(fs[m].name, "{" + Leading(fs[..m]))
    ensures AfterName("{" + FieldsText(fs) + rest, fs[m].name) == Some(ValueText(fs[m]) + Tail(fs, m, rest))
  {
    var k := fs[m].name;
    NameText(k);
    FoundAt(k, "{" + Leading(fs[..m]), k, "", ValueText(fs[m]) + Tail(fs, m, rest));
    LayoutAt(fs, m, rest);
  }

  /** The name is found where it should be, when nothing before spoils it. */
  lemma OwnName(fs: seq<Field>, m: nat, rest: string)
    requires WellFormed(fs) && m < |fs|
    requires forall i :: 0 <= i < m ==> !Spoils(fs[m].name, fs[i])
    ensures AfterName("{" + FieldsText(fs) + rest, fs[m].name) == Some(ValueText(fs[m]) + Tail(fs, m, rest))
  {
    OpeningMisses(fs[m].name, fs, m);
    OwnNameAt(fs, m, rest);
  }

  lemma GlueSpoiled(all: string, opening: string, name: string, value: string, tail: string,
                    fields: string, rest: string, next: string, body: string)
    requires all == opening + name + "" + ":" + (value + tail)
    requires tail == "," + fields + rest && fields + rest == next + ":" + body
    ensures all == (opening + name + ":") + value + ("," + next) + ":" + body
  {
    assert tail == "," + (fields + rest) == ("," + next) + ":" + body;
  }

  lemma LayoutSpoiled(fs: seq<Field>, i: nat, rest: string)
    requires i + 1 < |fs| && fs[i].quoted
    ensures "{" + FieldsText(fs) + rest
            == ("{" + Leading(fs[..i]) + Quote(fs[i].name) + ":") + Quote(Escape(fs[i].value)) + ("," + Quote(fs[i + 1].name))
               + ":" + (ValueText(fs[i + 1]) + Tail(fs, i + 1, rest))
  {
    LayoutAt(fs, i, rest);
    FieldsFrom(fs, i + 1, rest);
    GlueSpoiled("{" + FieldsText(fs) + rest, "{" + Leading(fs[..i]), Quote(fs[i].name), Quote(Escape(fs[i].value)),
                Tail(fs, i, rest), FieldsText(fs[i + 1..]), rest, Quote(fs[i + 1].name),
                ValueText(fs[i + 1]) + Tail(fs, i + 1, rest));
  }

  lemma SpoiledMisses(k: string, fs: seq<Field>, i: nat)
    requires PlainName(k) && i < |fs|
    requires forall j :: 0 <= j <= i ==> IsField(fs[j]) && fs[j].name != k
    requires forall j :: 0 <= j < i ==> !Spoils(k, fs[j])
    ensures Misses(k, "{" + Leading(fs[..i]) + Quote(fs[i].name) + ":")
  {
    var opening, name := "{" + Leading(fs[..i]), Quote(fs[i].name) + [':'];
    OpeningMisses(k, fs, i);
    OtherName(k, fs[i].name);
    NameText(fs[i].name);
    QuoteMisses(k, fs[i].name, ':');
    MissesConcat(k, opening, name);
    assert opening + name == opening + Quote(fs[i].name) + ":";
  }

  /** When the value of field i is the first to be taken for the name, the value of the
      field after it is read. */
  lemma SpoiledName(fs: seq<Field>, m: nat, i: nat, rest: string)
    requires WellFormed(fs) && i < m < |fs| && Spoils(fs[m].name, fs[i])
    requires forall j :: 0 <= j < i ==> !Spoils(fs[m].name, fs[j])
    ensures AfterName("{" + FieldsText(fs) + rest, fs[m].name) == Some(ValueText(fs[i + 1]) + Tail(fs, i + 1, rest))
  {
    var k := fs[m].name;
    SpoiledMisses(k, fs, i);
    SpoiledFound(k, fs, i, ValueText(fs[i + 1]) + Tail(fs, i + 1, rest));
    LayoutSpoiled(fs, i, rest);
  }

  lemma SpoiledFound(k: string, fs: seq<Field>, i: nat, t: string)
    requires PlainName(k) && i + 1 < |fs| && Spoils(k, fs[i]) && PlainName(fs[i + 1].name)
    requires Misses(k, "{" + Leading(fs[..i]) + Quote(fs[i].name) + ":")
    ensures AfterName("{" + Leading(fs[..i]) + Quote(fs[i].name) + ":" + Quote(Escape(fs[i].value))
                      + ("," + Quote(fs[i + 1].name)) + ":" + t, k) == Some(t)
  {
    NameText(fs[i + 1].name);
    EscapePoison(k, fs[i].value);
    EscapeWellEscaped(fs[i].value);
    FoundAt(k, "{" + Leading(fs[..i]) + Quote(fs[i].name) + ":", Escape(fs[i].value), "," + Quote(fs[i + 1].name), t);
  }

  lemma {:induction false} TargetIs(fs: seq<Field>, m: nat, i: nat)
    requires i <= m < |fs|
    ensures var r := Target(fs, m, i);
            || (r == m && forall j :: i <= j < m ==> !Spoils(fs[m].name, fs[j]))
            || (i < r && Spoils(fs[m].name, fs[r - 1]) && forall j :: i <= j < r - 1 ==> !Spoils(fs[m].name, fs[j]))
    decreases m - i
  {
    if i < m && !Spoils(fs[m].name, fs[i]) {
      TargetIs(fs, m, i + 1);
    }
  }

  /** The value read for a name is exactly that of the target field. */
  lemma ScalarIsTarget(fs: seq<Field>, m: nat, rest: string)
    requires WellFormed(fs) && m < |fs| && rest != "" && (rest[0] == ',' || rest[0] == '}')
    ensures Extract("{" + FieldsText(fs) + rest, fs[m].name) == fs[Target(fs, m, 0)].value
  {
    var r := Target(fs, m, 0);
    TargetIs(fs, m, 0);
    if r > 0 && Spoils(fs[m].name, fs[r - 1]) {
      SpoiledName(fs, m, r - 1, rest);
    } else {
      OwnName(fs, m, rest);
    }
    ValueReads(fs[r], Tail(fs, r, rest));
  }
}
