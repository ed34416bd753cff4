/**
 The civil-date arithmetic of `src/helpers/utils.cpp`: `days_from_civil` and
 `civil_from_days`, measured against a calendar that knows only month lengths, leap
 years and "the next day".

 The C++ `int` is modelled unbounded; NoOverflow shows that no intermediate value leaves
 32 bits for any year of four digits, which is all the callers pass.
 The unsigned subtraction `m + (m > 2 ? -3 : 9)` wraps around to m - 3 and is modelled as
 arithmetic modulo 2^32.
 */
module Calendar {

  datatype Date = Date(y: int, m: int, d: int)

  // ---- The reference calendar -------------------------------------------------

  predicate IsLeap(y: int) {
    (y % 4 == 0 && y % 100 != 0) || y % 400 == 0
  }

  function DaysInMonth(y: int, m: int): (n: int)
    requires 1 <= m <= 12
    ensures 28 <= n <= 31
  {
    if m == 2 then (if IsLeap(y) then 29 else 28)
    else if m == 4 || m == 6 || m == 9 || m == 11 then 30
    else 31
  }

  predicate IsDate(date: Date) {
    1 <= date.m <= 12 && 1 <= date.d <= DaysInMonth(date.y, date.m)
  }

  function NextDay(date: Date): (r: Date)
    requires IsDate(date)
    ensures IsDate(r)
  {
    if date.d < DaysInMonth(date.y, date.m) then Date(date.y, date.m, date.d + 1)
    else if date.m < 12 then Date(date.y, date.m + 1, 1)
    else Date(date.y + 1, 1, 1)
  }

  function PreviousDay(date: Date): (r: Date)
    requires IsDate(date)
    ensures IsDate(r) && NextDay(r) == date
  {
    if date.d > 1 then Date(date.y, date.m, date.d - 1)
    else if date.m > 1 then Date(date.y, date.m - 1, DaysInMonth(date.y, date.m - 1))
    else Date(date.y - 1, 12, 31)
  }

  const EPOCH := Date(1970, 1, 1)

  /** The date that many days after 1970-01-01, one day at a time. */
  function DateAfter(days: int): (r: Date)
    ensures IsDate(r)
    decreases if days < 0 then -days else days
  {
    if days == 0 then EPOCH
    else if days > 0 then NextDay(DateAfter(days - 1))
    else PreviousDay(DateAfter(days + 1))
  }

  // ---- The code ---------------------------------------------------------------

  const TWO_32 := 0x1_0000_0000

  /** C++ integer division, which truncates toward zero. */
  function Quotient(a: int, b: int): int
    requires b > 0
  {
    if a >= 0 then a / b else -((-a) / b)
  }

  function DaysFromCivil(date: Date): int {
    var y := if date.m <= 2 then date.y - 1 else date.y;
    var era := Quotient(if y >= 0 then y else y - 399, 400);
    var yoe := y - era * 400;
    var mp := (date.m + (if date.m > 2 then TWO_32 - 3 else 9)) % TWO_32;
    var doy := (153 * mp + 2) / 5 + date.d - 1;
    var doe := yoe * 365 + yoe / 4 - yoe / 100 + doy;
    era * 146097 + doe - 719468
  }

  function YearOfEra(doe: int): int {
    (doe - doe / 1460 + doe / 36524 - doe / 146096) / 365
  }

  function CivilFromDays(days: int): Date {
    var z := days + 719468;
    var era := Quotient(if z >= 0 then z else z - 146096, 146097);
    CivilFromEra(era, z - era * 146097)
  }

  /** The second half of `civil_from_days`, from the era and the day of the era. */
  function CivilFromEra(era: int, doe: int): Date {
    var yoe := YearOfEra(doe);
    var y2 := yoe + era * 400;
    var doy := doe - (365 * yoe + yoe / 4 - yoe / 100);
    var mp := (5 * doy + 2) / 153;
    var d2 := doy - (153 * mp + 2) / 5 + 1;
    var m2 := if mp < 10 then mp + 3 else mp - 9;
    Date(y2 + (if m2 <= 2 then 1 else 0), m2, d2)
  }

  // ---- Shifted years ----------------------------------------------------------

  /** Truncating division after the shift is division rounding down. */
  lemma ShiftedQuotient(a: int, b: int)
    requires b > 0
    ensures Quotient(if a >= 0 then a else a - (b - 1), b) == a / b
  {
    if a < 0 {
      var n := -a + (b - 1);
      assert a == b * (a / b) + a % b && 0 <= a % b < b;
      assert n == b * (-(a / b)) + (b - 1 - a % b);
      DivisionIsUnique(n, b, -(a / b), b - 1 - a % b);
    }
  }

  lemma AtLeastOnce(b: int, k: int)
    requires b > 0
    ensures k >= 1 ==> b * k >= b
    ensures k <= -1 ==> b * k <= -b
  {
    if k >= 1 {
      assert b * k == b + b * (k - 1) && b * (k - 1) >= 0;
    } else if k <= -1 {
      assert b * k == -b + b * (k + 1) && b * (k + 1) <= 0;
    }
  }

  lemma DivisionIsUnique(n: int, b: int, q: int, r: int)
    requires b > 0 && n == b * q + r && 0 <= r < b
    ensures n / b == q && n % b == r
  {
    var k := n / b - q;
    assert b * k == b * (n / b) - b * q;
    assert b * k == r - n % b;
    AtLeastOnce(b, k);
  }

  /** Years counted from March: the number of days before the year `yoe` of an era. */
  function DaysBeforeYear(yoe: int): int {
    365 * yoe + yoe / 4 - yoe / 100
  }

  /** Days before the month `mp` (0 is March) of a year counted from March. */
  function DaysBeforeMonth(mp: int): int {
    (153 * mp + 2) / 5
  }

  /** The last day of the year `yoe`, counting from 0. */
  function LastDayOfYear(yoe: int): int {
    if (yoe % 4 == 3 && yoe % 100 != 99) || yoe == 399 then 365 else 364
  }

  /** The year of an era is read back from a day of the era. */
  lemma YearOfEraIsRight(yoe: int, doy: int)
    requires 0 <= yoe < 400 && 0 <= doy <= LastDayOfYear(yoe)
    ensures YearOfEra(DaysBeforeYear(yoe) + doy) == yoe
    ensures 0 <= DaysBeforeYear(yoe) + doy < 146097
  {
    var a, b, c := yoe / 100, yoe % 100 / 4, yoe % 4;
    assert yoe == 100 * a + 4 * b + c && 0 <= a < 4 && 0 <= b < 25 && 0 <= c < 4;
    var rest := 365 * c + doy;
    var doe := DaysBeforeYear(yoe) + doy;
    assert doe == 36524 * a + 1461 * b + rest;
    YearOfEraParts(a, b, c, doy);
  }

  lemma YearOfEraParts(a: int, b: int, c: int, doy: int)
    requires 0 <= a < 4 && 0 <= b < 25 && 0 <= c < 4 && 0 <= doy <= 365
    requires doy == 365 ==> c == 3 && (b < 24 || a == 3)
    ensures var doe := 36524 * a + 1461 * b + 365 * c + doy;
            YearOfEra(doe) == 100 * a + 4 * b + c && 0 <= doe < 146097
  {
    var rest := 365 * c + doy;
    var doe := 36524 * a + 1461 * b + rest;
    var e := if 24 * a + b + rest >= 1460 then 1 else 0;
    assert doe == 1460 * (25 * a + b + e) + (24 * a + b + rest - 1460 * e);
    DivisionIsUnique(doe, 1460, 25 * a + b + e, 24 * a + b + rest - 1460 * e);
    var last := if a == 3 && b == 24 && c == 3 && doy == 365 then 1 else 0;
    assert 1461 * b + rest <= 36523 + last;
    DivisionIsUnique(doe, 36524, a + last, 1461 * b + rest - 36524 * last);
    DivisionIsUnique(doe, 146096, last, doe - 146096 * last);
    var r := doy - e;
    assert doe - doe / 1460 + doe / 36524 - doe / 146096 == 365 * (100 * a + 4 * b + c) + r;
    assert e == 1 ==> c == 3 && doy >= 1;
    assert doy == 365 ==> e == 1;
    DivisionIsUnique(365 * (100 * a + 4 * b + c) + r, 365, 100 * a + 4 * b + c, r);
  }

  /** Every day of an era is some day of some year of it. */
  lemma DayOfEraHasYear(doe: int)
    requires 0 <= doe < 146097
    ensures var yoe := YearOfEra(doe);
            0 <= yoe < 400 && 0 <= doe - DaysBeforeYear(yoe) <= LastDayOfYear(yoe)
  {
    var yoe := FindYear(doe);
    YearOfEraIsRight(yoe, doe - DaysBeforeYear(yoe));
  }

  lemma FindYear(doe: int) returns (yoe: int)
    requires 0 <= doe < 146097
    ensures 0 <= yoe < 400 && 0 <= doe - DaysBeforeYear(yoe) <= LastDayOfYear(yoe)
  {
    yoe := 0;
    while doe - DaysBeforeYear(yoe) > LastDayOfYear(yoe)
      invariant 0 <= yoe < 400 && DaysBeforeYear(yoe) <= doe
      decreases 400 - yoe
    {
      YearAfter(yoe);
      yoe := yoe + 1;
    }
  }

  // ---- Months -----------------------------------------------------------------

  /** The month counted from March, and the year that began in that March. */
  function MarchMonth(m: int): int {
    if m > 2 then m - 3 else m + 9
  }

  function MarchYear(date: Date): int {
    if date.m <= 2 then date.y - 1 else date.y
  }

  lemma WrappedMonth(m: int)
    requires 1 <= m <= 12
    ensures (m + (if m > 2 then TWO_32 - 3 else 9)) % TWO_32 == MarchMonth(m)
  {
  }

  /** Month starts and month lengths agree; the last month, February, is what is left. */
  lemma MonthLengths(y: int, m: int)
    requires 1 <= m <= 12
    ensures var mp := MarchMonth(m);
            0 <= mp < 12 && DaysBeforeMonth(0) == 0
            && (mp < 11 ==> DaysBeforeMonth(mp + 1) == DaysBeforeMonth(mp) + DaysInMonth(y, m))
            && (m == 2 ==> DaysBeforeMonth(mp) == 337)
  {
    var mp := MarchMonth(m);
    assert mp == 0 || mp == 1 || mp == 2 || mp == 3 || mp == 4 || mp == 5
        || mp == 6 || mp == 7 || mp == 8 || mp == 9 || mp == 10 || mp == 11;
  }

  /** The month is read back from a day of the year. */
  lemma MonthIsRight(mp: int, day: int)
    requires 0 <= mp < 12 && 0 <= day
    requires mp < 11 ==> DaysBeforeMonth(mp) + day < DaysBeforeMonth(mp + 1)
    requires mp == 11 ==> DaysBeforeMonth(mp) + day <= 365
    ensures (5 * (DaysBeforeMonth(mp) + day) + 2) / 153 == mp
  {
    var doy := DaysBeforeMonth(mp) + day;
    assert 153 * mp <= 5 * doy + 2 < 153 * (mp + 1);
    DivisionIsUnique(5 * doy + 2, 153, mp, 5 * doy + 2 - 153 * mp);
  }

  /** Every day of a year counted from March lies in some month. */
  lemma DayOfYearHasMonth(doy: int)
    requires 0 <= doy <= 365
    ensures var mp := (5 * doy + 2) / 153;
            0 <= mp < 12 && DaysBeforeMonth(mp) <= doy && (mp < 11 ==> doy < DaysBeforeMonth(mp + 1))
  {
  }

  /** Leap years, seen from the preceding March. */
  lemma LastDayIsLeap(y: int, era: int, yoe: int)
    requires y == era * 400 + yoe && 0 <= yoe < 400
    ensures LastDayOfYear(yoe) == if IsLeap(y + 1) then 365 else 364
  {
    var n := yoe + 1;
    assert y + 1 == 400 * era + n;
    assert (y + 1) % 4 == n % 4 by { DivisionIsUnique(y + 1, 4, 100 * era + n / 4, n % 4); }
    assert (y + 1) % 100 == n % 100 by { DivisionIsUnique(y + 1, 100, 4 * era + n / 100, n % 100); }
    assert (y + 1) % 400 == n % 400 by { DivisionIsUnique(y + 1, 400, era + n / 400, n % 400); }
  }

  // ---- A date as era, year of era, day of year --------------------------------

  /** The day of the year counted from March. */
  function DayOfYear(date: Date): int
    requires IsDate(date)
  {
    DaysBeforeMonth(MarchMonth(date.m)) + date.d - 1
  }

  lemma DayOfYearRange(date: Date)
    requires IsDate(date)
    ensures 0 <= DayOfYear(date) <= LastDayOfYear(MarchYear(date) % 400)
  {
    var y := MarchYear(date);
    MonthLengths(date.y, date.m);
    LastDayIsLeap(y, y / 400, y % 400);
    if date.m != 2 {
      MonthStartsAreBefore(MarchMonth(date.m));
    }
  }

  lemma MonthStartsAreBefore(mp: int)
    requires 0 <= mp < 11
    ensures 0 <= DaysBeforeMonth(mp) && DaysBeforeMonth(mp + 1) <= 337
  {
  }

  lemma DaysFromCivilParts(date: Date)
    requires IsDate(date)
    ensures var y := MarchYear(date);
            DaysFromCivil(date) == y / 400 * 146097 + DaysBeforeYear(y % 400) + DayOfYear(date) - 719468
  {
    ShiftedQuotient(MarchYear(date), 400);
    WrappedMonth(date.m);
  }

  lemma CivilFromDaysParts(days: int, era: int, yoe: int, doy: int)
    requires 0 <= yoe < 400 && 0 <= doy <= LastDayOfYear(yoe)
    requires days == era * 146097 + DaysBeforeYear(yoe) + doy - 719468
    ensures var mp := (5 * doy + 2) / 153;
            var m := if mp < 10 then mp + 3 else mp - 9;
            CivilFromDays(days)
            == Date(era * 400 + yoe + (if m <= 2 then 1 else 0), m, doy - DaysBeforeMonth(mp) + 1)
  {
    var z := days + 719468;
    var doe := DaysBeforeYear(yoe) + doy;
    YearOfEraIsRight(yoe, doy);
    EraOfDays(z, era, doe);
    CivilFromEraParts(era, yoe, doy);
  }

  lemma CivilFromEraParts(era: int, yoe: int, doy: int)
    requires 0 <= yoe < 400 && 0 <= doy <= LastDayOfYear(yoe)
    ensures var mp := (5 * doy + 2) / 153;
            var m := if mp < 10 then mp + 3 else mp - 9;
            CivilFromEra(era, DaysBeforeYear(yoe) + doy)
            == Date(era * 400 + yoe + (if m <= 2 then 1 else 0), m, doy - DaysBeforeMonth(mp) + 1)
  {
    YearOfEraIsRight(yoe, doy);
  }

  lemma EraOfDays(z: int, era: int, doe: int)
    requires z == era * 146097 + doe && 0 <= doe < 146097
    ensures Quotient(if z >= 0 then z else z - 146096, 146097) == era
  {
    ShiftedQuotient(z, 146097);
    DivisionIsUnique(z, 146097, era, doe);
  }

  // ---- The results ------------------------------------------------------------

  /** Reading a date back from its day number. */
  lemma CivilOfDays(date: Date)
    requires IsDate(date)
    ensures CivilFromDays(DaysFromCivil(date)) == date
  {
    var y := MarchYear(date);
    DayOfYearRange(date);
    DaysFromCivilParts(date);
    CivilFromDaysParts(DaysFromCivil(date), y / 400, y % 400, DayOfYear(date));
    MonthLengths(date.y, date.m);
    MonthIsRight(MarchMonth(date.m), date.d - 1);
  }

  /** Every integer is the day number of the date it is read as. */
  lemma DaysOfCivil(days: int)
    ensures IsDate(CivilFromDays(days)) && DaysFromCivil(CivilFromDays(days)) == days
  {
    var z := days + 719468;
    var era, doe := z / 146097, z % 146097;
    DayOfEraHasYear(doe);
    var yoe := YearOfEra(doe);
    var doy := doe - DaysBeforeYear(yoe);
    CivilFromDaysParts(days, era, yoe, doy);
    DayOfYearHasMonth(doy);
    var date := CivilFromDays(days);
    MonthLengths(date.y, date.m);
    LastDayIsLeap(era * 400 + yoe, era, yoe);
    assert MarchYear(date) == era * 400 + yoe;
    DivisionIsUnique(MarchYear(date), 400, era, yoe);
    DaysFromCivilParts(date);
  }

  /** Within a year counted from March the day after is the next day of the year. */
  lemma NextDayOfYear(date: Date)
    requires IsDate(date) && !(date.m == 2 && date.d == DaysInMonth(date.y, 2))
    ensures MarchYear(NextDay(date)) == MarchYear(date)
    ensures DayOfYear(NextDay(date)) == DayOfYear(date) + 1
  {
    MonthLengths(date.y, date.m);
  }

  lemma LastOfFebruary(date: Date)
    requires IsDate(date) && date.m == 2 && date.d == DaysInMonth(date.y, 2)
    ensures var y, n := MarchYear(date), MarchYear(NextDay(date));
            n / 400 * 146097 + DaysBeforeYear(n % 400) + DayOfYear(NextDay(date))
            == y / 400 * 146097 + DaysBeforeYear(y % 400) + DayOfYear(date) + 1
  {
    assert NextDay(date) == Date(date.y, 3, 1);
    NewMarchYear(date.y - 1);
  }

  /** The day after has the next number. */
  lemma NextDayIsNextNumber(date: Date)
    requires IsDate(date)
    ensures DaysFromCivil(NextDay(date)) == DaysFromCivil(date) + 1
  {
    DaysFromCivilParts(date);
    DaysFromCivilParts(NextDay(date));
    if date.m == 2 && date.d == DaysInMonth(date.y, 2) {
      LastOfFebruary(date);
    } else {
      NextDayOfYear(date);
    }
  }

  /** From the last day of February to the first of March. */
  lemma NewMarchYear(y: int)
    ensures var n := y + 1;
            n / 400 * 146097 + DaysBeforeYear(n % 400)
            == y / 400 * 146097 + DaysBeforeYear(y % 400) + 337 + DaysInMonth(y + 1, 2)
  {
    var era, yoe := y / 400, y % 400;
    LastDayIsLeap(y, era, yoe);
    YearAfter(yoe);
    if yoe == 399 {
      DivisionIsUnique(y + 1, 400, era + 1, 0);
    } else {
      DivisionIsUnique(y + 1, 400, era, yoe + 1);
    }
  }

  lemma YearAfter(yoe: int)
    requires 0 <= yoe < 400
    ensures yoe < 399 ==> DaysBeforeYear(yoe + 1) == DaysBeforeYear(yoe) + LastDayOfYear(yoe) + 1
    ensures yoe == 399 ==> DaysBeforeYear(yoe) + LastDayOfYear(yoe) + 1 == 146097 && DaysBeforeYear(0) == 0
  {
  }

  lemma EpochIsZero()
    ensures DaysFromCivil(EPOCH) == 0 && CivilFromDays(0) == EPOCH
  {
    EpochNumber();
    CivilOfDays(EPOCH);
  }

  lemma EpochNumber()
    ensures DaysFromCivil(EPOCH) == 0
  {
    DaysFromCivilParts(EPOCH);
    assert MarchYear(EPOCH) == 1969 == 4 * 400 + 369;
    assert DaysBeforeYear(369) == 134774 && DayOfYear(EPOCH) == 306;
  }

  lemma PreviousDayIsPreviousNumber(date: Date)
    requires IsDate(date)
    ensures DaysFromCivil(PreviousDay(date)) == DaysFromCivil(date) - 1
  {
    NextDayIsNextNumber(PreviousDay(date));
  }

  lemma {:induction false} DaysOfDateAfter(days: int)
    ensures DaysFromCivil(DateAfter(days)) == days
    decreases if days < 0 then -days else days
  {
    if days == 0 {
      EpochIsZero();
    } else if days > 0 {
      DaysOfDateAfter(days - 1);
      OneDayOn(days - 1);
    } else {
      DaysOfDateAfter(days + 1);
      OneDayBack(days + 1);
    }
  }

  lemma OneDayOn(days: int)
    requires days >= 0 && DaysFromCivil(DateAfter(days)) == days
    ensures DaysFromCivil(DateAfter(days + 1)) == days + 1
  {
    assert DateAfter(days + 1) == NextDay(DateAfter(days));
    NextDayIsNextNumber(DateAfter(days));
  }

  lemma OneDayBack(days: int)
    requires days <= 0 && DaysFromCivil(DateAfter(days)) == days
    ensures DaysFromCivil(DateAfter(days - 1)) == days - 1
  {
    assert DateAfter(days - 1) == PreviousDay(DateAfter(days));
    PreviousDayIsPreviousNumber(DateAfter(days));
  }

  /** Both functions agree with counting days one at a time from 1970-01-01, for every
      integer and every date. */
  lemma CalendarIsRight(days: int)
    ensures CivilFromDays(days) == DateAfter(days) && DaysFromCivil(DateAfter(days)) == days
  {
    DaysOfDateAfter(days);
    CivilOfDays(DateAfter(days));
  }

  /** ... so a date is the one that many days after the epoch. */
  lemma DateIsDaysAfterEpoch(date: Date)
    requires IsDate(date)
    ensures DateAfter(DaysFromCivil(date)) == date
  {
    CalendarIsRight(DaysFromCivil(date));
    CivilOfDays(date);
  }

  /** The code's reading of a day number. */
  method CivilDate(days: int) returns (date: Date)
    ensures date == DateAfter(days)
  {
    CalendarIsRight(days);
    date := CivilFromDays(days);
  }

  lemma DayBefore(days: int)
    ensures NextDay(DateAfter(days - 1)) == DateAfter(days)
  {
  }

  predicate FitsInt32(n: int) {
    -0x8000_0000 <= n < 0x8000_0000
  }

  predicate FitsUnsigned(n: int) {
    0 <= n < TWO_32
  }

  predicate AllFit(signed: seq<int>, unsigned: seq<int>) {
    && (forall i :: 0 <= i < |signed| ==> FitsInt32(signed[i]))
    && (forall i :: 0 <= i < |unsigned| ==> FitsUnsigned(unsigned[i]))
  }

  /** All values that `days_from_civil` computes with signed integers, but for the wrapping
      difference in the month. */
  function SignedForward(date: Date): seq<int>
    requires IsDate(date)
  {
    var y := MarchYear(date);
    var from := if y >= 0 then y else y - 399;
    var era := Quotient(from, 400);
    var doe := DaysBeforeYear(y - era * 400) + DayOfYear(date);
    [y, from, era, era * 400, y - era * 400, era * 146097, doe, era * 146097 + doe, era * 146097 + doe - 719468]
  }

  /** ... and with unsigned ones. */
  function UnsignedForward(date: Date): seq<int>
    requires IsDate(date)
  {
    var mp, yoe := MarchMonth(date.m), MarchYear(date) % 400;
    [yoe, mp, 153 * mp, 153 * mp + 2, DaysBeforeMonth(mp), DaysBeforeMonth(mp) + date.d, DayOfYear(date),
     yoe * 365, yoe * 365 + yoe / 4, DaysBeforeYear(yoe), DaysBeforeYear(yoe) + DayOfYear(date)]
  }

  /** The same for `civil_from_days`. */
  function SignedBack(days: int): seq<int> {
    var z := days + 719468;
    var from := if z >= 0 then z else z - 146096;
    var era := Quotient(from, 146097);
    var yoe := YearOfEra(z - era * 146097);
    [z, from, era, era * 146097, z - era * 146097, yoe, era * 400, yoe + era * 400, CivilFromDays(days).y]
  }

  function UnsignedBack(doe: int): seq<int> {
    var yoe := YearOfEra(doe);
    var doy := doe - DaysBeforeYear(yoe);
    var mp := (5 * doy + 2) / 153;
    [doe, doe - doe / 1460, doe - doe / 1460 + doe / 36524, doe - doe / 1460 + doe / 36524 - doe / 146096, yoe,
     365 * yoe, 365 * yoe + yoe / 4, DaysBeforeYear(yoe), doy, 5 * doy, 5 * doy + 2, mp, 153 * mp, 153 * mp + 2,
     doy - DaysBeforeMonth(mp), doy - DaysBeforeMonth(mp) + 1, if mp < 10 then mp + 3 else mp - 9]
  }

  lemma ForwardFits(date: Date)
    requires IsDate(date) && 0 <= date.y <= 9999
    ensures AllFit(SignedForward(date), UnsignedForward(date))
    ensures var y := MarchYear(date);
            -1 <= y / 400 <= 24 && 0 <= DaysBeforeYear(y % 400) + DayOfYear(date) < 146097
  {
    var y := MarchYear(date);
    DayOfYearRange(date);
    YearOfEraIsRight(y % 400, DayOfYear(date));
    assert -1 <= y / 400 <= 24;
    SignedForwardFits(date, y / 400, y % 400);
    UnsignedForwardFits(date);
  }

  lemma SignedForwardFits(date: Date, era: int, yoe: int)
    requires IsDate(date) && -1 <= era <= 24 && 0 <= yoe < 400 && MarchYear(date) == era * 400 + yoe
    requires 0 <= DaysBeforeYear(yoe) + DayOfYear(date) < 146097
    ensures AllFit(SignedForward(date), [])
  {
    ShiftedQuotient(MarchYear(date), 400);
    DivisionIsUnique(MarchYear(date), 400, era, yoe);
  }

  lemma UnsignedForwardFits(date: Date)
    requires IsDate(date) && 0 <= DayOfYear(date) <= 365
    ensures AllFit([], UnsignedForward(date))
  {
  }

  lemma SignedBackFits(days: int, era: int, doe: int)
    requires days + 719468 == era * 146097 + doe && 0 <= doe < 146097 && -1 <= era <= 24
    requires 0 <= YearOfEra(doe) < 400 && FitsInt32(CivilFromDays(days).y)
    ensures AllFit(SignedBack(days), [])
  {
    EraOfDays(days + 719468, era, doe);
  }

  lemma BackFits(doe: int)
    requires 0 <= doe < 146097
    ensures AllFit([], UnsignedBack(doe)) && 0 <= YearOfEra(doe) < 400
  {
    DayOfEraHasYear(doe);
    var yoe := YearOfEra(doe);
    var doy := doe - DaysBeforeYear(yoe);
    assert 0 <= doy <= 365;
    DayOfYearHasMonth(doy);
  }

  /** For years of four digits no value computed on the way there or back leaves its type. */
  lemma NoOverflow(date: Date)
    requires IsDate(date) && 0 <= date.y <= 9999
    ensures AllFit(SignedForward(date), UnsignedForward(date))
    ensures var days := DaysFromCivil(date);
            AllFit(SignedBack(days), UnsignedBack((days + 719468) % 146097))
  {
    var y := MarchYear(date);
    var era, doe := y / 400, DaysBeforeYear(y % 400) + DayOfYear(date);
    var z := DaysFromCivil(date) + 719468;
    ForwardFits(date);
    DaysFromCivilParts(date);
    DivisionIsUnique(z, 146097, era, doe);
    BackFits(doe);
    CivilOfDays(date);
    SignedBackFits(DaysFromCivil(date), era, doe);
  }
}
