/**
 The two strict time parsers of `src/helpers/utils.cpp`: `wib_to_utc_iso`, which turns a
 schedule written in Jakarta time into UTC text, and `parse_pg_or_iso_utc`, which reads a
 PostgreSQL or ISO-8601 timestamp.

 Reading past the end of the text gives a non-digit, as the terminating zero does in C++.
 `timegm` is modelled by the day numbers of module Calendar.
 */
module Timestamps {
  import opened Calendar
  import opened Text
  import opened Wrappers

  // ---- Digits -----------------------------------------------------------------

  function DigitOf(n: int): (c: char)
    requires 0 <= n < 10
    ensures IsDigit(c) && c as int - '0' as int == n
  {
    '0' + (n as char)
  }

  /** The digit at `i`, or -1. */
  function Dig(s: string, i: nat): int {
    if i < |s| && IsDigit(s[i]) then s[i] as int - '0' as int else -1
  }

  /** The two-digit number at `i`, or -1. */
  function Two(s: string, i: nat): int {
    if Dig(s, i) < 0 || Dig(s, i + 1) < 0 then -1 else Dig(s, i) * 10 + Dig(s, i + 1)
  }

  predicate FourDigits(s: string) {
    Dig(s, 0) >= 0 && Dig(s, 1) >= 0 && Dig(s, 2) >= 0 && Dig(s, 3) >= 0
  }

  function Year(s: string): int {
    Dig(s, 0) * 1000 + Dig(s, 1) * 100 + Dig(s, 2) * 10 + Dig(s, 3)
  }

  function Pad2(n: int): (s: string)
    requires 0 <= n < 100
    ensures |s| == 2
  {
    [DigitOf(n / 10), DigitOf(n % 10)]
  }

  function Pad4(n: int): (s: string)
    requires 0 <= n < 10000
    ensures |s| == 4
  {
    Pad2(n / 100) + Pad2(n % 100)
  }

  // ---- The text of a moment ---------------------------------------------------

  /** A time of day to the second; 60 is the leap second the parser lets through. */
  datatype Clock = Clock(h: int, mi: int, sec: int)

  predicate IsClock(c: Clock) {
    0 <= c.h <= 23 && 0 <= c.mi <= 59 && 0 <= c.sec <= 60
  }

  function Stamp(date: Date, sep: char, c: Clock): (s: string)
    requires IsDate(date) && 0 <= date.y <= 9999 && IsClock(c)
    ensures |s| == 19
  {
    Pad4(date.y) + "-" + Pad2(date.m) + "-" + Pad2(date.d) + [sep]
    + Pad2(c.h) + ":" + Pad2(c.mi) + ":" + Pad2(c.sec)
  }

  lemma StampAt(date: Date, sep: char, c: Clock, tail: string)
    requires IsDate(date) && 0 <= date.y <= 9999 && IsClock(c)
    ensures var s := Stamp(date, sep, c) + tail;
            FourDigits(s) && Year(s) == date.y && s[4] == '-' && Two(s, 5) == date.m && s[7] == '-'
            && Two(s, 8) == date.d && s[10] == sep && Two(s, 11) == c.h && s[13] == ':'
            && Two(s, 14) == c.mi && s[16] == ':' && Two(s, 17) == c.sec && s[19..] == tail
  {
    var s := Stamp(date, sep, c) + tail;
    assert s[0..4] == Pad4(date.y);
    assert s[0] == Pad4(date.y)[0] && s[1] == Pad4(date.y)[1] && s[2] == Pad4(date.y)[2] && s[3] == Pad4(date.y)[3];
    TwoOfPad(s, 5, date.m);
    TwoOfPad(s, 8, date.d);
    TwoOfPad(s, 11, c.h);
    TwoOfPad(s, 14, c.mi);
    TwoOfPad(s, 17, c.sec);
  }

  lemma TwoOfPad(s: string, i: nat, n: int)
    requires 0 <= n < 100 && i + 2 <= |s| && s[i] == Pad2(n)[0] && s[i + 1] == Pad2(n)[1]
    ensures Two(s, i) == n
  {
  }

  lemma PadOfTwo(s: string, i: nat)
    requires i + 2 <= |s| && Two(s, i) >= 0
    ensures 0 <= Two(s, i) < 100 && Pad2(Two(s, i)) == s[i..i + 2]
  {
  }

  lemma PadOfYear(s: string)
    requires FourDigits(s)
    ensures |s| >= 4 && 0 <= Year(s) < 10000 && Pad4(Year(s)) == s[..4]
  {
    PadOfTwo(s, 0);
    PadOfTwo(s, 2);
    var y := Year(s);
    assert y / 100 == Two(s, 0) && y % 100 == Two(s, 2);
    assert s[..4] == s[0..2] + s[2..4];
  }

  // ---- parse_pg_or_iso_utc ----------------------------------------------------

  /** The number of digits `s` starts with. */
  function DigitRun(s: string): (n: nat)
    ensures n <= |s|
  {
    if s != "" && IsDigit(s[0]) then 1 + DigitRun(s[1..]) else 0
  }

  /** The first three digits of a fraction, read as milliseconds. */
  function Millis(digits: string): int {
    (if |digits| > 0 then Dig(digits, 0) * 100 else 0)
    + (if |digits| > 1 then Dig(digits, 1) * 10 else 0)
    + (if |digits| > 2 then Dig(digits, 2) else 0)
  }

  /** The offset in minutes a zone suffix stands for. */
  function ZoneMinutes(zone: string): Option<int> {
    if zone == "" || zone == "Z" then Some(0)
    else if zone[0] == '+' || zone[0] == '-' then
      var rem := |zone| - 1;
      if rem == 2 || rem == 4 || (rem == 5 && zone[3] == ':') then
        var oh := if rem == 4 && Two(zone, 3) < 0 then -1 else Two(zone, 1);
        var om := if rem == 2 then 0 else if rem == 4 then Two(zone, 3) else Two(zone, 4);
        if oh < 0 || oh > 23 || om < 0 || om > 59 then None
        else Some(if zone[0] == '-' then -(oh * 60 + om) else oh * 60 + om)
      else None
    else None
  }

  /** The length of the fraction suffix, if there is a well-formed one. */
  function FractionLength(tail: string): (n: Option<nat>)
    ensures n.Some? ==> n.value <= |tail|
  {
    if tail == "" || tail[0] != '.' then Some(0)
    else if DigitRun(tail[1..]) == 0 then None
    else Some(1 + DigitRun(tail[1..]))
  }

  predicate DateOk(s: string)
    requires |s| >= 19
  {
    FourDigits(s) && s[4] == '-' && s[7] == '-' && 1 <= Two(s, 5) <= 12 && 1 <= Two(s, 8) <= 31
  }

  predicate ClockOk(s: string)
    requires |s| >= 19
  {
    && 0 <= Two(s, 11) <= 23 && 0 <= Two(s, 14) <= 59 && 0 <= Two(s, 17) <= 60
    && s[13] == ':' && s[16] == ':'
  }

  predicate StampOk(s: string) {
    && |s| >= 19
    && DateOk(s) && Two(s, 8) <= DaysInMonth(Year(s), Two(s, 5))
    && (s[10] == 'T' || s[10] == ' ') && ClockOk(s)
  }

  function DayMillis(date: Date, c: Clock): int {
    (DaysFromCivil(date) * 86400 + c.h * 3600 + c.mi * 60 + c.sec) * 1000
  }

  /** What the fraction and the zone add to the stamp, in milliseconds. */
  function ParseTail(tail: string): Option<int> {
    match FractionLength(tail)
    case None => None
    case Some(n) =>
      match ZoneMinutes(tail[n..])
      case None => None
      case Some(off) => Some(Millis(if n == 0 then "" else tail[1..n]) - off * 60000)
  }

  /** Milliseconds since the epoch, or nothing. */
  function ParsePg(s: string): Option<int> {
    if !StampOk(s) then None
    else
      match ParseTail(s[19..])
      case None => None
      case Some(ms) =>
        Some(DayMillis(Date(Year(s), Two(s, 5), Two(s, 8)), Clock(Two(s, 11), Two(s, 14), Two(s, 17))) + ms)
  }

  /** The fraction loop: digits are counted, the first three are kept. */
  method ReadFraction(s: string, start: nat) returns (pos: nat, ms: int)
    requires start <= |s|
    ensures pos == start + DigitRun(s[start..])
    ensures ms == Millis(s[start..pos])
  {
    pos := start;
    var nd, frac := 0, 0;
    while pos < |s| && Dig(s, pos) >= 0
      invariant start <= pos <= |s| && nd == pos - start
      invariant DigitRun(s[start..]) == nd + DigitRun(s[pos..])
      invariant nd == 0 ==> frac == 0
      invariant nd == 1 ==> frac == Dig(s, start)
      invariant nd == 2 ==> frac == Dig(s, start) * 10 + Dig(s, start + 1)
      invariant nd >= 3 ==> frac == Dig(s, start) * 100 + Dig(s, start + 1) * 10 + Dig(s, start + 2)
    {
      assert s[pos..][1..] == s[pos + 1..];
      if nd < 3 { frac := frac * 10 + Dig(s, pos); }
      nd := nd + 1;
      pos := pos + 1;
    }
    ghost var digits := s[start..pos];
    assert forall i :: 0 <= i < 3 && i < |digits| ==> Dig(digits, i) == Dig(s, start + i);
    ghost var kept := nd;
    while nd < 3
      invariant kept <= nd && (kept >= 3 ==> nd == kept) && (kept < 3 ==> nd <= 3)
      invariant kept >= 3 ==> frac == Millis(digits)
      invariant kept < 3 && nd == 0 ==> frac * 1000 == Millis(digits)
      invariant kept < 3 && nd == 1 ==> frac * 100 == Millis(digits)
      invariant kept < 3 && nd == 2 ==> frac * 10 == Millis(digits)
      invariant kept < 3 && nd == 3 ==> frac == Millis(digits)
    {
      frac := frac * 10;
      nd := nd + 1;
    }
    ms := frac;
  }

  lemma FractionSlice(s: string, pos: nat)
    requires 20 <= pos <= |s|
    ensures s[20..pos] == s[19..][1..pos - 19]
  {
    var tail := s[19..][1..pos - 19];
    assert forall i :: 0 <= i < |tail| ==> tail[i] == s[20 + i];
  }

  method ParsePgOrIsoUtc(s: string) returns (r: Option<int>)
    ensures r == ParsePg(s)
  {
    if |s| < 19 { return None; }
    var date := ReadDate(s);
    if date == None || (s[10] != 'T' && s[10] != ' ') { return None; }
    var clock := ReadClock(s);
    if clock == None { return None; }
    var tail := ReadTail(s);
    if tail == None || date.value.d > DaysInMonth(date.value.y, date.value.m) { return None; }
    r := Some(DayMillis(date.value, clock.value) + tail.value);
  }

  /** The first ten characters; the length of the month is looked at later. */
  method ReadDate(s: string) returns (r: Option<Date>)
    requires |s| >= 19
    ensures r == if DateOk(s) then Some(Date(Year(s), Two(s, 5), Two(s, 8))) else None
  {
    var y := Year(s);
    if !FourDigits(s) || s[4] != '-' || s[7] != '-' { return None; }
    var mo, d := Two(s, 5), Two(s, 8);
    if mo < 1 || mo > 12 || d < 1 || d > 31 { return None; }
    r := Some(Date(y, mo, d));
  }

  method ReadClock(s: string) returns (r: Option<Clock>)
    requires |s| >= 19
    ensures r == if ClockOk(s) then Some(Clock(Two(s, 11), Two(s, 14), Two(s, 17))) else None
  {
    var h, mi, sec := Two(s, 11), Two(s, 14), Two(s, 17);
    if h < 0 || h > 23 || mi < 0 || mi > 59 || sec < 0 || sec > 60 { return None; }
    if s[13] != ':' || s[16] != ':' { return None; }
    r := Some(Clock(h, mi, sec));
  }

  /** The fraction, if there is one: the position behind it, and its milliseconds. */
  method ReadFractionPart(s: string) returns (pos: nat, ms: int)
    requires |s| >= 19
    ensures pos == 0 ==> FractionLength(s[19..]) == None
    ensures pos != 0 ==> 19 <= pos <= |s| && FractionLength(s[19..]) == Some(pos - 19)
    ensures pos != 0 ==> ms == Millis(if pos == 19 then "" else s[19..][1..pos - 19])
  {
    if |s| == 19 || s[19] != '.' {
      return 19, 0;
    }
    Suffix(s, 19, 1);
    pos, ms := ReadFraction(s, 20);
    FractionSlice(s, pos);
    if pos == 20 {
      pos := 0;
    }
  }

  lemma TailIs(tail: string, n: nat, rest: string)
    requires FractionLength(tail) == Some(n) && rest == tail[n..]
    ensures ParseTail(tail) == match ZoneMinutes(rest)
                               case None => None
                               case Some(off) => Some(Millis(if n == 0 then "" else tail[1..n]) - off * 60000)
  {
  }

  /** Fraction and zone: milliseconds to add. */
  method ReadTail(s: string) returns (r: Option<int>)
    requires |s| >= 19
    ensures r == ParseTail(s[19..])
  {
    var pos, fracMs := ReadFractionPart(s);
    if pos == 0 {
      return None;
    }
    Suffix(s, 19, pos - 19);
    TailIs(s[19..], pos - 19, s[pos..]);
    var offMin := 0;
    if pos < |s| {
      var off := ZoneMinutes(s[pos..]);
      if off == None {
        return None;
      }
      offMin := off.value;
    }
    r := Some(fracMs - offMin * 60000);
  }

  // ---- The grammar it accepts -------------------------------------------------

  predicate AllDigits(s: string) {
    forall i :: 0 <= i < |s| ==> IsDigit(s[i])
  }

  /** The zone suffixes of PostgreSQL and ISO-8601. */
  datatype Zone =
    | Unmarked
    | Zulu
    | Hours(west: bool, h: int)
    | HoursMinutes(west: bool, h: int, mi: int)
    | HoursColonMinutes(west: bool, h: int, mi: int)

  predicate IsZone(z: Zone) {
    match z
    case Unmarked => true
    case Zulu => true
    case Hours(_, h) => 0 <= h <= 23
    case HoursMinutes(_, h, mi) => 0 <= h <= 23 && 0 <= mi <= 59
    case HoursColonMinutes(_, h, mi) => 0 <= h <= 23 && 0 <= mi <= 59
  }

  function Sign(west: bool): string {
    if west then "-" else "+"
  }

  function ZoneText(z: Zone): string
    requires IsZone(z)
  {
    match z
    case Unmarked => ""
    case Zulu => "Z"
    case Hours(west, h) => Sign(west) + Pad2(h)
    case HoursMinutes(west, h, mi) => Sign(west) + Pad2(h) + Pad2(mi)
    case HoursColonMinutes(west, h, mi) => Sign(west) + Pad2(h) + ":" + Pad2(mi)
  }

  /** Minutes east of Greenwich. */
  function East(z: Zone): int {
    match z
    case Unmarked => 0
    case Zulu => 0
    case Hours(west, h) => if west then -60 * h else 60 * h
    case HoursMinutes(west, h, mi) => if west then -(60 * h + mi) else 60 * h + mi
    case HoursColonMinutes(west, h, mi) => if west then -(60 * h + mi) else 60 * h + mi
  }

  /** A timestamp in the form the documentation of the parser gives: date, `T` or a space,
      time, an optional fraction and an optional zone. */
  datatype Timestamp = Timestamp(date: Date, sep: char, clock: Clock, fraction: string, zone: Zone)

  predicate IsTimestamp(t: Timestamp) {
    IsDate(t.date) && 0 <= t.date.y <= 9999 && (t.sep == 'T' || t.sep == ' ') && IsClock(t.clock)
    && AllDigits(t.fraction) && IsZone(t.zone)
  }

  function FractionText(fraction: string): string {
    if fraction == "" then "" else "." + fraction
  }

  function TimestampText(t: Timestamp): string
    requires IsTimestamp(t)
  {
    Stamp(t.date, t.sep, t.clock) + (FractionText(t.fraction) + ZoneText(t.zone))
  }

  /** The moment it names: local time less the offset, to the millisecond. Digits of the
      fraction after the third are cut off. */
  function Moment(t: Timestamp): int {
    var d := t.fraction + "000";
    var minutes := (DaysFromCivil(t.date) * 24 + t.clock.h) * 60 + t.clock.mi - East(t.zone);
    (minutes * 60 + t.clock.sec) * 1000 + Dig(d, 0) * 100 + Dig(d, 1) * 10 + Dig(d, 2)
  }

  lemma MomentIs(t: Timestamp)
    ensures Moment(t) == DayMillis(t.date, t.clock) + Millis(t.fraction) - East(t.zone) * 60000
  {
    PaddedMillis(t.fraction);
  }

  lemma PaddedMillis(fraction: string)
    ensures var d := fraction + "000"; Millis(fraction) == Dig(d, 0) * 100 + Dig(d, 1) * 10 + Dig(d, 2)
  {
  }

  lemma {:induction false} DigitRunOfDigits(digits: string, suf: string)
    requires AllDigits(digits) && (suf == "" || !IsDigit(suf[0]))
    ensures DigitRun(digits + suf) == |digits|
  {
    if digits == "" {
      assert digits + suf == suf;
    } else {
      assert (digits + suf)[1..] == digits[1..] + suf;
      DigitRunOfDigits(digits[1..], suf);
    }
  }

  lemma {:induction false} DigitRunIsDigits(s: string)
    ensures AllDigits(s[..DigitRun(s)])
  {
    if s != "" && IsDigit(s[0]) {
      DigitRunIsDigits(s[1..]);
      assert s[..DigitRun(s)] == [s[0]] + s[1..][..DigitRun(s[1..])];
    }
  }

  lemma ZoneReads(z: Zone)
    requires IsZone(z)
    ensures ZoneMinutes(ZoneText(z)) == Some(East(z))
    ensures var text := ZoneText(z); text != "" ==> text[0] in {'Z', '+', '-'}
  {
    var text := ZoneText(z);
    match z
    case Unmarked =>
    case Zulu =>
    case Hours(west, h) => TwoOfPad(text, 1, h);
    case HoursMinutes(west, h, mi) => TwoOfPad(text, 1, h); TwoOfPad(text, 3, mi);
    case HoursColonMinutes(west, h, mi) => TwoOfPad(text, 1, h); TwoOfPad(text, 4, mi);
  }

  /** The zone a suffix spells. */
  function ZoneOf(text: string): (z: Zone)
    requires ZoneMinutes(text).Some?
    ensures IsZone(z) && ZoneText(z) == text
  {
    if text == "" then Unmarked
    else if text == "Z" then Zulu
    else
      var west := text[0] == '-';
      PadOfTwo(text, 1);
      assert text == [text[0]] + text[1..];
      if |text| == 3 then
        assert text[1..3] == text[1..];
        Hours(west, Two(text, 1))
      else if |text| == 5 then
        PadOfTwo(text, 3);
        assert text[1..] == text[1..3] + text[3..5];
        HoursMinutes(west, Two(text, 1), Two(text, 3))
      else
        PadOfTwo(text, 4);
        assert text[1..] == text[1..3] + ":" + text[4..6];
        HoursColonMinutes(west, Two(text, 1), Two(text, 4))
  }

  lemma TailReads(fraction: string, zone: Zone)
    requires AllDigits(fraction) && IsZone(zone)
    ensures ParseTail(FractionText(fraction) + ZoneText(zone)) == Some(Millis(fraction) - East(zone) * 60000)
  {
    ZoneReads(zone);
    FractionReads(fraction, ZoneText(zone));
  }

  lemma FractionReads(fraction: string, zone: string)
    requires AllDigits(fraction) && (zone == "" || zone[0] in {'Z', '+', '-'})
    ensures var tail, n := FractionText(fraction) + zone, |FractionText(fraction)|;
            FractionLength(tail) == Some(n) && tail[n..] == zone && (n > 0 ==> tail[1..n] == fraction)
  {
    var tail := FractionText(fraction) + zone;
    if fraction != "" {
      DigitRunOfDigits(fraction, zone);
      AfterPoint(fraction, zone);
    }
  }

  lemma AfterPoint(fraction: string, zone: string)
    ensures ("." + fraction + zone)[1..] == fraction + zone
    ensures ("." + fraction + zone)[1..1 + |fraction|] == fraction && ("." + fraction + zone)[1 + |fraction|..] == zone
  {
  }

  /** Every timestamp of the grammar is accepted and read as the moment it names. */
  lemma TimestampParses(t: Timestamp)
    requires IsTimestamp(t)
    ensures ParsePg(TimestampText(t)) == Some(Moment(t))
  {
    var tail, ms := FractionText(t.fraction) + ZoneText(t.zone), Millis(t.fraction) - East(t.zone) * 60000;
    TailReads(t.fraction, t.zone);
    StampReads(t.date, t.sep, t.clock, tail, ms);
    assert TimestampText(t) == Stamp(t.date, t.sep, t.clock) + tail;
    MomentIs(t);
  }

  lemma StampReads(date: Date, sep: char, c: Clock, tail: string, ms: int)
    requires IsDate(date) && 0 <= date.y <= 9999 && IsClock(c) && (sep == 'T' || sep == ' ') && ParseTail(tail) == Some(ms)
    ensures ParsePg(Stamp(date, sep, c) + tail) == Some(DayMillis(date, c) + ms)
  {
    StampAt(date, sep, c, tail);
  }

  lemma ParsedTail(tail: string) returns (fraction: string, zone: Zone)
    requires ParseTail(tail).Some?
    ensures AllDigits(fraction) && IsZone(zone) && FractionText(fraction) + ZoneText(zone) == tail
  {
    var n := FractionLength(tail).value;
    fraction := if n == 0 then "" else tail[1..n];
    zone := ZoneOf(tail[n..]);
    if n > 0 {
      DigitRunIsDigits(tail[1..]);
      assert tail[1..][..n - 1] == fraction;
      assert tail[..n] == "." + fraction;
    }
    assert tail == tail[..n] + tail[n..];
  }

  lemma StampText(s: string)
    requires StampOk(s)
    ensures var date, c := Date(Year(s), Two(s, 5), Two(s, 8)), Clock(Two(s, 11), Two(s, 14), Two(s, 17));
            0 <= Year(s) <= 9999 && IsDate(date) && IsClock(c) && Stamp(date, s[10], c) == s[..19]
  {
    PadOfYear(s);
    PadOfTwo(s, 5);
    PadOfTwo(s, 8);
    PadOfTwo(s, 11);
    PadOfTwo(s, 14);
    PadOfTwo(s, 17);
    assert s[..19] == s[..4] + "-" + s[5..7] + "-" + s[8..10] + [s[10]] + s[11..13] + ":" + s[14..16] + ":" + s[17..19];
  }

  /** The timestamp an accepted text spells. */
  lemma ParsedIsTimestamp(s: string) returns (t: Timestamp)
    requires ParsePg(s).Some?
    ensures IsTimestamp(t) && TimestampText(t) == s && ParsePg(s) == Some(Moment(t))
  {
    StampText(s);
    var fraction, zone := ParsedTail(s[19..]);
    t := Timestamp(Date(Year(s), Two(s, 5), Two(s, 8)), s[10], Clock(Two(s, 11), Two(s, 14), Two(s, 17)), fraction, zone);
    assert s == s[..19] + s[19..];
    TimestampParses(t);
  }

  /** The parser accepts exactly the texts of the grammar. */
  lemma AcceptsExactlyTimestamps(s: string)
    ensures ParsePg(s).Some? <==> exists t :: IsTimestamp(t) && TimestampText(t) == s
  {
    if ParsePg(s).Some? {
      var t := ParsedIsTimestamp(s);
    }
    if exists t :: IsTimestamp(t) && TimestampText(t) == s {
      var t :| IsTimestamp(t) && TimestampText(t) == s;
      TimestampParses(t);
    }
  }

  // ---- wib_to_utc_iso ---------------------------------------------------------

  /** The two accepted shapes, `YYYY-MM-DD HH:MM` and `YYYY-MM-DD HH:MM:SS`. */
  predicate WibShape(s: string) {
    && |s| >= 16 && FourDigits(s) && s[4] == '-' && s[7] == '-' && s[10] == ' ' && s[13] == ':'
    && (|s| == 16 || (|s| == 19 && s[16] == ':'))
  }

  /** What the code checks: the hour, minute and second only from above, so a field that
      is not two digits passes as -1. */
  predicate WibAccepts(s: string) {
    && WibShape(s)
    && 2000 <= Year(s) <= 2100
    && 1 <= Two(s, 5) <= 12
    && 1 <= Two(s, 8) <= DaysInMonth(Year(s), Two(s, 5))
    && Two(s, 11) <= 23 && Two(s, 14) <= 59 && (|s| == 19 ==> Two(s, 17) <= 59)
  }

  function WibDate(s: string): Date {
    Date(Year(s), Two(s, 5), Two(s, 8))
  }

  /** Minutes since the epoch after taking off the seven hours of Jakarta time. */
  function WibMinutes(s: string): int {
    DaysFromCivil(WibDate(s)) * 1440 + Two(s, 11) * 60 + Two(s, 14) - 7 * 60
  }

  /** The UTC text of a minute of a day. */
  function MinuteText(date: Date, minute: int): string
    requires IsDate(date) && 0 <= date.y <= 9999 && 0 <= minute < 1440
  {
    Stamp(date, 'T', Clock(minute / 60, minute % 60, 0)) + "Z"
  }

  lemma DaysOfMinutes(day: int, minutes: int, total: int)
    requires total == day * 1440 + minutes && -1440 <= minutes < 1440
    ensures day - 1 <= total / 1440 <= day
  {
    if minutes >= 0 {
      DivisionIsUnique(total, 1440, day, minutes);
    } else {
      DivisionIsUnique(total, 1440, day - 1, minutes + 1440);
    }
  }

  lemma WibYear(s: string)
    requires WibAccepts(s)
    ensures 1999 <= DateAfter(WibMinutes(s) / 1440).y <= 2100
  {
    var day := DaysFromCivil(WibDate(s));
    DateIsDaysAfterEpoch(WibDate(s));
    DayBefore(day);
    DaysOfMinutes(day, Two(s, 11) * 60 + Two(s, 14) - 7 * 60, WibMinutes(s));
  }

  /** The truncating division of the code and the correction after it. */
  method SplitDays(total: int) returns (days: int, rem: int)
    ensures days == total / 1440 && rem == total % 1440
  {
    days := Quotient(total, 1440);
    rem := total - days * 1440;
    if rem < 0 { rem := rem + 1440; days := days - 1; }
    DivisionIsUnique(total, 1440, days, rem);
  }

  /** The checks of `wib_to_utc_iso`. */
  method WibChecks(s: string) returns (ok: bool)
    ensures ok <==> WibAccepts(s)
  {
    if |s| < 16 { return false; }
    if !FourDigits(s) || s[4] != '-' || s[7] != '-' || s[10] != ' ' || s[13] != ':' { return false; }
    var y := Year(s);
    var mo, d, h, mi := Two(s, 5), Two(s, 8), Two(s, 11), Two(s, 14);
    if y < 2000 || y > 2100 || mo < 1 || mo > 12 || h > 23 || mi > 59 { return false; }
    if d < 1 || d > DaysInMonth(y, mo) { return false; }
    var p := 16;
    if p < |s| && s[p] == ':' {
      if Two(s, 17) > 59 { return false; }
      p := 19;
    }
    return p == |s|;
  }

  /** What `wib_to_utc_iso` returns: the minute 420 minutes before the local time. */
  function UtcText(s: string): Option<string> {
    if !WibAccepts(s) then None else
    WibYear(s);
    Some(MinuteText(DateAfter(WibMinutes(s) / 1440), WibMinutes(s) % 1440))
  }

  /** The text before the seconds, as the other parser understands it: Jakarta time is seven
      hours ahead. */
  lemma LocalParses(s: string)
    requires WibAccepts(s) && Two(s, 11) >= 0 && Two(s, 14) >= 0
    ensures ParsePg(s[..16] + ":00+07") == Some(WibMinutes(s) * 60 * 1000)
  {
    LocalText(s);
    SevenAhead();
    WholeMinute(WibDate(s), ' ', Two(s, 11), Two(s, 14), Hours(false, 7));
    WibInMillis(s, East(Hours(false, 7)));
  }

  lemma SevenAhead()
    ensures IsZone(Hours(false, 7)) && ZoneText(Hours(false, 7)) == "+07" && East(Hours(false, 7)) == 420
  {
  }

  lemma WibInMillis(s: string, east: int)
    requires WibAccepts(s) && east == 420
    ensures ((DaysFromCivil(WibDate(s)) * 24 + Two(s, 11)) * 60 + Two(s, 14) - east) * 60000 == WibMinutes(s) * 60 * 1000
  {
    MinutesToMillis(DaysFromCivil(WibDate(s)), Two(s, 11), Two(s, 14), east);
  }

  lemma MinutesToMillis(days: int, h: int, mi: int, east: int)
    ensures ((days * 24 + h) * 60 + mi - east) * 60000 == (days * 1440 + h * 60 + mi - east) * 60 * 1000
  {
  }

  /** A stamp without seconds. */
  lemma WholeMinute(date: Date, sep: char, h: int, mi: int, zone: Zone)
    requires IsDate(date) && 0 <= date.y <= 9999 && (sep == 'T' || sep == ' ') && IsClock(Clock(h, mi, 0)) && IsZone(zone)
    ensures ParsePg(Stamp(date, sep, Clock(h, mi, 0)) + ZoneText(zone))
            == Some(((DaysFromCivil(date) * 24 + h) * 60 + mi - East(zone)) * 60000)
  {
    TailOfZone(zone);
    StampReads(date, sep, Clock(h, mi, 0), ZoneText(zone), -(East(zone) * 60000));
    MillisOfMinute(date, h, mi, East(zone));
  }

  lemma TailOfZone(zone: Zone)
    requires IsZone(zone)
    ensures ParseTail(ZoneText(zone)) == Some(-(East(zone) * 60000))
  {
    TailReads("", zone);
    assert FractionText("") + ZoneText(zone) == ZoneText(zone) && Millis("") == 0;
  }

  lemma MillisOfMinute(date: Date, h: int, mi: int, east: int)
    ensures DayMillis(date, Clock(h, mi, 0)) - east * 60000 == ((DaysFromCivil(date) * 24 + h) * 60 + mi - east) * 60000
  {
  }

  lemma LocalText(s: string)
    requires WibAccepts(s) && Two(s, 11) >= 0 && Two(s, 14) >= 0
    ensures Stamp(WibDate(s), ' ', Clock(Two(s, 11), Two(s, 14), 0)) + "+07" == s[..16] + ":00+07"
  {
    PadOfYear(s);
    PadOfTwo(s, 5);
    PadOfTwo(s, 8);
    PadOfTwo(s, 11);
    PadOfTwo(s, 14);
    assert Pad2(0) == "00";
    assert s[..16] == s[..4] + "-" + s[5..7] + "-" + s[8..10] + " " + s[11..13] + ":" + s[14..16];
  }

  /** Every accepted text with digits for hour and minute is turned into a text that names, for
      the other parser, the same moment as the local time with its offset written out. */
  lemma WibIsSevenAhead(s: string)
    requires WibAccepts(s) && Two(s, 11) >= 0 && Two(s, 14) >= 0
    ensures UtcText(s).Some? && ParsePg(UtcText(s).value) == ParsePg(s[..16] + ":00+07") != None
  {
    LocalParses(s);
    WibOutputParses(s);
  }

  /** The text is a UTC timestamp to the second. */
  lemma WibTextForm(s: string)
    requires WibAccepts(s)
    ensures var r := UtcText(s).value; |r| == 20 && r[10] == 'T' && r[16..] == ":00Z"
  {
    WibYear(s);
    assert Pad2(0) == "00";
  }

  /** In figures: every minute of every day of the accepted years. */
  lemma WibOfEveryMinute(date: Date, h: int, mi: int)
    requires IsDate(date) && 2000 <= date.y <= 2100 && 0 <= h < 24 && 0 <= mi < 60
    ensures var s := Pad4(date.y) + "-" + Pad2(date.m) + "-" + Pad2(date.d) + " " + Pad2(h) + ":" + Pad2(mi);
            && UtcText(s).Some?
            && ParsePg(UtcText(s).value) == Some((((DaysFromCivil(date) * 24 + h - 7) * 60 + mi) * 60) * 1000)
  {
    var s := Pad4(date.y) + "-" + Pad2(date.m) + "-" + Pad2(date.d) + " " + Pad2(h) + ":" + Pad2(mi);
    MinuteFields(s, date, h, mi);
    WibOutputParses(s);
  }

  lemma MinuteFields(s: string, date: Date, h: int, mi: int)
    requires IsDate(date) && 2000 <= date.y <= 2100 && 0 <= h < 24 && 0 <= mi < 60
    requires s == Pad4(date.y) + "-" + Pad2(date.m) + "-" + Pad2(date.d) + " " + Pad2(h) + ":" + Pad2(mi)
    ensures WibAccepts(s) && WibDate(s) == date && Two(s, 11) == h && Two(s, 14) == mi
  {
    StampAt(date, ' ', Clock(h, mi, 0), "");
    assert Stamp(date, ' ', Clock(h, mi, 0)) + "" == s + (":" + Pad2(0));
    SameFields(s, ":" + Pad2(0));
  }

  lemma SameFields(s: string, more: string)
    requires |s| == 16
    ensures Year(s) == Year(s + more) && (FourDigits(s) <==> FourDigits(s + more))
    ensures forall i :: 0 <= i < 15 ==> Two(s, i) == Two(s + more, i)
    ensures forall i :: 0 <= i < 16 ==> s[i] == (s + more)[i]
  {
  }

  method WibToUtcIso(s: string) returns (r: Option<string>)
    ensures r == UtcText(s) && (r.Some? <==> WibAccepts(s))
    ensures WibAccepts(s) && Two(s, 11) >= 0 && Two(s, 14) >= 0 ==> ParsePg(r.value) == ParsePg(s[..16] + ":00+07") != None
    ensures r.Some? ==> |r.value| == 20 && r.value[10] == 'T' && r.value[16..] == ":00Z"
  {
    if WibAccepts(s) { WibTextForm(s); }
    if WibAccepts(s) && Two(s, 11) >= 0 && Two(s, 14) >= 0 { WibIsSevenAhead(s); }
    var ok := WibChecks(s);
    if !ok { return None; }
    var days, rem := SplitDays(WibMinutes(s));
    WibYear(s);
    var date := CivilDate(days);
    r := Some(MinuteText(date, rem));
  }

  /** ... and the other parser reads the output back as that moment. */
  lemma WibOutputParses(s: string)
    requires WibAccepts(s)
    ensures 1999 <= DateAfter(WibMinutes(s) / 1440).y <= 2100
    ensures ParsePg(MinuteText(DateAfter(WibMinutes(s) / 1440), WibMinutes(s) % 1440)) == Some(WibMinutes(s) * 60 * 1000)
  {
    WibYear(s);
    MomentParses(WibMinutes(s));
  }

  function MinuteMillis(days: int, minute: int): int {
    (days * 1440 + minute) * 60 * 1000
  }

  lemma MinutesOfDay(total: int)
    ensures 0 <= total % 1440 < 1440 && MinuteMillis(total / 1440, total % 1440) == total * 60 * 1000
  {
    assert total == total / 1440 * 1440 + total % 1440;
  }

  lemma MinuteParses(date: Date, minute: int)
    requires IsDate(date) && 0 <= date.y <= 9999 && 0 <= minute < 1440
    ensures ParsePg(MinuteText(date, minute)) == Some(MinuteMillis(DaysFromCivil(date), minute))
  {
    WholeMinute(date, 'T', minute / 60, minute % 60, Zulu);
    MinutesToMillis(DaysFromCivil(date), minute / 60, minute % 60, 0);
    assert minute / 60 * 60 + minute % 60 == minute;
  }

  lemma MomentParses(total: int)
    requires 0 <= DateAfter(total / 1440).y <= 9999
    ensures ParsePg(MinuteText(DateAfter(total / 1440), total % 1440)) == Some(total * 60 * 1000)
  {
    MinutesOfDay(total);
    DaysOfDateAfter(total / 1440);
    MinuteParses(DateAfter(total / 1440), total % 1440);
  }

  /** The documented format: every field is two digits and in range. */
  predicate IsWibText(s: string) {
    && WibShape(s)
    && 2000 <= Year(s) <= 2100
    && 1 <= Two(s, 5) <= 12
    && 1 <= Two(s, 8) <= DaysInMonth(Year(s), Two(s, 5))
    && 0 <= Two(s, 11) <= 23 && 0 <= Two(s, 14) <= 59 && (|s| == 19 ==> 0 <= Two(s, 17) <= 59)
  }

  /** An accepted text is a text of the documented format exactly when its hour, minute
      and second fields are digits; nothing of the format is refused. */
  lemma WibAcceptsFormat(s: string)
    ensures IsWibText(s) <==>
            WibAccepts(s) && Two(s, 11) >= 0 && Two(s, 14) >= 0 && (|s| == 19 ==> Two(s, 17) >= 0)
  {
  }

  /** A text outside the format that is accepted: its hour counts as -1. */
  lemma WibAcceptsLetters()
    ensures var s := "2026-05-01 xx:00";
            WibAccepts(s) && !IsWibText(s) && WibMinutes(s) == DaysFromCivil(Date(2026, 4, 30)) * 1440 + 16 * 60
  {
    var s := "2026-05-01 xx:00";
    assert |s| == 16;
    LettersRead(s);
    assert NextDay(Date(2026, 4, 30)) == Date(2026, 5, 1);
    NextDayIsNextNumber(Date(2026, 4, 30));
  }

  lemma LettersRead(s: string)
    requires s == "2026-05-01 xx:00"
    ensures Year(s) == 2026 && Two(s, 5) == 5 && Two(s, 8) == 1 && Two(s, 11) == -1 && Two(s, 14) == 0
  {
  }
}
