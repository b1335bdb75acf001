/**
 Civil dates and day numbers (apps/finalis-nodetest/nodetest_core.cpp): the proleptic Gregorian calendar
 in both directions. Machine division rounds toward zero and is written out as such.
 */
module Calendar {

  /** C++ integer division by a positive divisor. */
  function TruncDiv(a: int, b: nat): int
    requires b > 0
  {
    if a >= 0 then a / b else -((-a) / b)
  }

  function TruncMod(a: int, b: nat): int
    requires b > 0
  {
    a - b * TruncDiv(a, b)
  }

  datatype Date = Date(year: int, month: int, day: int)

  predicate Leap(y: int)
  {
    (TruncMod(y, 4) == 0 && TruncMod(y, 100) != 0) || TruncMod(y, 400) == 0
  }

  /** The rule of the Gregorian calendar, on floor remainders. */
  lemma LeapRule(y: int)
    ensures Leap(y) <==> (y % 4 == 0 && y % 100 != 0) || y % 400 == 0
  {
  }

  function MonthLength(y: int, m: int): nat
    requires 1 <= m <= 12
  {
    [31, 28, 31, 30, 31, 30, 31, 31, 30, 31, 30, 31][m - 1] + if m == 2 && Leap(y) then 1 else 0
  }

  predicate Valid(d: Date)
  {
    1 <= d.month <= 12 && 1 <= d.day <= MonthLength(d.year, d.month)
  }

  // ---------------------------------------------------------------- date to day number

  /** days_from_civil, term by term. */
  function DaysFromCivil(date: Date): int
  {
    var y := if date.month <= 2 then date.year - 1 else date.year;
    var era := TruncDiv(if y >= 0 then y else y - 399, 400);
    var yoe := y - era * 400;
    var doy := (153 * (date.month + if date.month > 2 then -3 else 9) + 2) / 5 + date.day - 1;
    var doe := yoe * 365 + yoe / 4 - yoe / 100 + doy;
    era * 146097 + doe - 719468
  }

  /** Years counted from March, so that the leap day is the last day of its year. */
  function MarchYear(d: Date): int
  {
    if d.month <= 2 then d.year - 1 else d.year
  }

  function MarchMonth(d: Date): int
  {
    if d.month > 2 then d.month - 3 else d.month + 9
  }

  /** Days from the start of March of year 0 to the start of March of year y. */
  function YearStart(y: int): int
  {
    365 * y + y / 4 - y / 100 + y / 400
  }

  function MonthStart(mp: int): int
  {
    (153 * mp + 2) / 5
  }

  /** The era arithmetic is the closed form. */
  lemma ClosedForm(d: Date)
    requires 1 <= d.month <= 12
    ensures DaysFromCivil(d) == YearStart(MarchYear(d)) + MonthStart(MarchMonth(d)) + d.day - 1 - 719468
  {
    var y := MarchYear(d);
    EraIsFloor(y);
    var era := y / 400;
    EraSplit(y, era, y - era * 400);
  }

  lemma EraIsFloor(y: int)
    ensures TruncDiv(if y >= 0 then y else y - 399, 400) == y / 400
  {
  }

  lemma EraSplit(y: int, era: int, yoe: int)
    requires y == era * 400 + yoe && 0 <= yoe < 400
    ensures YearStart(y) == era * 146097 + 365 * yoe + yoe / 4 - yoe / 100
  {
    assert y / 4 == 100 * era + yoe / 4;
    assert y / 100 == 4 * era + yoe / 100;
    assert y / 400 == era;
  }

  // ---------------------------------------------------------------- the day number counts days

  function NextDate(d: Date): Date
    requires Valid(d)
  {
    if d.day < MonthLength(d.year, d.month) then d.(day := d.day + 1)
    else if d.month < 12 then Date(d.year, d.month + 1, 1)
    else Date(d.year + 1, 1, 1)
  }

  lemma YearLength(y: int)
    ensures YearStart(y + 1) - YearStart(y) == if Leap(y + 1) then 366 else 365
  {
    LeapRule(y + 1);
    StepOf(y, 4);
    StepOf(y, 100);
    StepOf(y, 400);
  }

  lemma StepOf(y: int, n: nat)
    requires n == 4 || n == 100 || n == 400
    ensures (y + 1) / n == y / n + if (y + 1) % n == 0 then 1 else 0
  {
  }

  lemma MonthStarts(m: int)
    requires 1 <= m <= 12 && m != 2
    ensures var mp := MarchMonth(Date(0, m, 1)); MonthStart(mp + 1) - MonthStart(mp) == MonthLength(0, m)
  {
  }

  lemma Epoch()
    ensures DaysFromCivil(Date(1970, 1, 1)) == 0
  {
  }

  lemma MonthEnd(d: Date)
    requires Valid(d) && d.day == MonthLength(d.year, d.month) && d.month != 2
    ensures DaysFromCivil(NextDate(d)) == DaysFromCivil(d) + 1
  {
    ClosedForm(d);
    ClosedForm(NextDate(d));
    MonthStarts(d.month);
    assert MarchMonth(NextDate(d)) == MarchMonth(d) + 1;
    assert MarchYear(NextDate(d)) == MarchYear(d);
    assert MonthLength(0, d.month) == MonthLength(d.year, d.month);
    assert MarchMonth(Date(0, d.month, 1)) == MarchMonth(d);
  }

  lemma FebruaryEnd(d: Date)
    requires Valid(d) && d.day == MonthLength(d.year, d.month) && d.month == 2
    ensures DaysFromCivil(NextDate(d)) == DaysFromCivil(d) + 1
  {
    ClosedForm(d);
    ClosedForm(Date(d.year, 3, 1));
    YearLength(d.year - 1);
    assert MonthStart(11) == 337 && MonthStart(0) == 0;
  }

  /** The day after a date has the next number, and 1970-01-01 is day 0. */
  lemma DayCount(d: Date)
    requires Valid(d)
    ensures Valid(NextDate(d)) && DaysFromCivil(NextDate(d)) == DaysFromCivil(d) + 1
    ensures DaysFromCivil(Date(1970, 1, 1)) == 0
  {
    Epoch();
    if d.day < MonthLength(d.year, d.month) {
      ClosedForm(d);
      ClosedForm(NextDate(d));
    } else if d.month == 2 {
      FebruaryEnd(d);
    } else {
      MonthEnd(d);
    }
  }

  // ---------------------------------------------------------------- day number to date

  /** civil_from_days, the part of format_utc_time after the shift to March of year 0. */
  function CivilFromDays(n: int): Date
  {
    CivilInEra(EraOf(n + 719468), n + 719468 - EraOf(n + 719468) * 146097)
  }

  function EraOf(days: int): int
  {
    TruncDiv(if days >= 0 then days else days - 146096, 146097)
  }

  function CivilInEra(era: int, doe: int): Date
  {
    var yoe := YearOfEra(doe);
    CivilInYear(yoe + era * 400, doe - (365 * yoe + yoe / 4 - yoe / 100))
  }

  function CivilInYear(y: int, doy: int): Date
  {
    var mp := (5 * doy + 2) / 153;
    var m := if mp < 10 then mp + 3 else mp - 9;
    Date(y + (if m <= 2 then 1 else 0), m, doy - (153 * mp + 2) / 5 + 1)
  }

  function YearOfEra(doe: int): int
  {
    (doe - doe / 1460 + doe / 36524 - doe / 146096) / 365
  }

  /** A 400-year era as centuries, four-year groups and years; the last of each may be one day longer. */
  ghost predicate EraDay(doe: int, c: int, q: int, r: int, doy: int)
  {
    && 0 <= c <= 3 && 0 <= q <= 24 && 0 <= r <= 3 && 0 <= doy <= 365
    && doe == 36524 * c + 1461 * q + 365 * r + doy
    && (doy == 365 ==> r == 3 && (q == 24 ==> c == 3))
  }

  lemma YearOfEraExact(doe: int, c: int, q: int, r: int, doy: int)
    requires EraDay(doe, c, q, r, doy)
    ensures YearOfEra(doe) == 100 * c + 4 * q + r
  {
    var x := 24 * c + q + 365 * r + doy;
    var extra := if x >= 1460 then 1 else 0;
    assert doe / 1460 == 25 * c + q + extra;
    var last := if doe == 146096 then 1 else 0;
    assert doe / 36524 == c + last;
    assert doe / 146096 == last;
  }

  /** Every day of an era is such a day. */
  lemma EraDayExists(doe: int) returns (c: int, q: int, r: int, doy: int)
    requires 0 <= doe < 146097
    ensures EraDay(doe, c, q, r, doy)
  {
    c := if doe == 146096 then 3 else doe / 36524;
    var rest := doe - 36524 * c;
    q := if rest / 1461 > 24 then 24 else rest / 1461;
    var left := rest - 1461 * q;
    r := if left / 365 > 3 then 3 else left / 365;
    doy := left - 365 * r;
  }

  lemma EraIndex(days: int, era: int, doe: int)
    requires days == era * 146097 + doe && 0 <= doe < 146097
    ensures EraOf(days) == era
  {
  }

  /** Months from March by the 153-day rule; February is 29 days here. */
  function LongestMonth(mp: int): int
    requires 0 <= mp <= 11
  {
    [31, 30, 31, 30, 31, 31, 30, 31, 30, 31, 31, 29][mp]
  }

  lemma MonthOfDay(mp: int, day: int)
    requires 0 <= mp <= 11 && 1 <= day <= LongestMonth(mp)
    ensures (5 * (MonthStart(mp) + day - 1) + 2) / 153 == mp
  {
  }

  lemma DayInMonth(doy: int)
    requires 0 <= doy <= 365
    ensures
      var mp := (5 * doy + 2) / 153;
      0 <= mp <= 11 && 1 <= doy - MonthStart(mp) + 1 <= LongestMonth(mp)
        && (doy - MonthStart(mp) + 1 == 29 && mp == 11 ==> doy == 365)
  {
    var mp := (5 * doy + 2) / 153;
    assert 0 <= mp <= 11;
  }

  /** The date of a year, month and day counted from March. */
  function FromMarch(y: int, mp: int, day: int): Date
  {
    var m := if mp < 10 then mp + 3 else mp - 9;
    Date(y + (if m <= 2 then 1 else 0), m, day)
  }

  lemma YearInEra(c: int, q: int, r: int)
    requires 0 <= c <= 3 && 0 <= q <= 24 && 0 <= r <= 3
    ensures var yoe := 100 * c + 4 * q + r;
      0 <= yoe < 400 && yoe / 4 == 25 * c + q && yoe / 100 == c
  {
  }

  /** Where a day of the era falls, the inverse direction computes it. */
  lemma CivilOfEraDay(n: int, era: int, doe: int, c: int, q: int, r: int, doy: int)
    requires EraDay(doe, c, q, r, doy) && n + 719468 == era * 146097 + doe
    ensures CivilFromDays(n) == CivilInYear(100 * c + 4 * q + r + era * 400, doy)
  {
    CivilInEraDay(era, doe, c, q, r, doy);
    OutOfEra(n, n + 719468, era, doe);
  }

  lemma OutOfEra(n: int, days: int, era: int, doe: int)
    requires n + 719468 == days == era * 146097 + doe && 0 <= doe < 146097
    ensures CivilFromDays(n) == CivilInEra(era, doe)
  {
    EraIndex(days, era, doe);
    assert CivilFromDays(n) == CivilInEra(EraOf(days), days - EraOf(days) * 146097);
  }

  lemma CivilInEraDay(era: int, doe: int, c: int, q: int, r: int, doy: int)
    requires EraDay(doe, c, q, r, doy)
    ensures CivilInEra(era, doe) == CivilInYear(100 * c + 4 * q + r + era * 400, doy)
  {
    EraOffset(doe, c, q, r, doy);
  }

  lemma EraOffset(doe: int, c: int, q: int, r: int, doy: int)
    requires EraDay(doe, c, q, r, doy)
    ensures var yoe := YearOfEra(doe);
      yoe == 100 * c + 4 * q + r && doe - (365 * yoe + yoe / 4 - yoe / 100) == doy
  {
    YearInEra(c, q, r);
    YearOfEraExact(doe, c, q, r, doy);
  }

  lemma EraDayStart(era: int, doe: int, c: int, q: int, r: int, doy: int)
    requires EraDay(doe, c, q, r, doy)
    ensures YearStart(100 * c + 4 * q + r + era * 400) + doy == era * 146097 + doe
  {
    var yoe := 100 * c + 4 * q + r;
    YearInEra(c, q, r);
    EraSplit(yoe + era * 400, era, yoe);
  }

  lemma Mod4(k: int, a: int)
    ensures (4 * k + a) % 4 == a % 4
  {
  }

  lemma Mod100(k: int, a: int)
    ensures (100 * k + a) % 100 == a % 100
  {
  }

  lemma Mod400(k: int, a: int)
    ensures (400 * k + a) % 400 == a % 400
  {
  }

  /** A March year has its 366th day exactly when the year after it is leap. */
  lemma LeapInEra(y: int, era: int, c: int, q: int, r: int)
    requires 0 <= c <= 3 && 0 <= q <= 24 && 0 <= r <= 3 && y == 100 * c + 4 * q + r + era * 400
    ensures Leap(y + 1) <==> r == 3 && (q == 24 ==> c == 3)
  {
    LeapRule(y + 1);
    Mod4(100 * era + 25 * c + q, r + 1);
    Mod100(4 * era + c, 4 * q + r + 1);
    Mod400(era, 100 * c + 4 * q + r + 1);
  }

  lemma ValidFromMarch(y: int, mp: int, day: int)
    requires 0 <= mp <= 11
    ensures Valid(FromMarch(y, mp, day)) <==> 1 <= day <= LongestMonth(mp) && (mp == 11 && day == 29 ==> Leap(y + 1))
    ensures MarchYear(FromMarch(y, mp, day)) == y && MarchMonth(FromMarch(y, mp, day)) == mp
  {
  }

  lemma DayOfMarchYear(mp: int, day: int)
    requires 0 <= mp <= 11 && 1 <= day <= LongestMonth(mp)
    ensures 0 <= MonthStart(mp) + day - 1 <= 365
    ensures MonthStart(mp) + day - 1 == 365 <==> mp == 11 && day == 29
  {
  }

  /** The day of a March year is a valid date with that day number. */
  lemma DateInYear(y: int, doy: int)
    requires 0 <= doy <= 365 && (doy == 365 ==> Leap(y + 1))
    ensures Valid(CivilInYear(y, doy)) && DaysFromCivil(CivilInYear(y, doy)) == YearStart(y) + doy - 719468
  {
    var mp := (5 * doy + 2) / 153;
    var day := doy - MonthStart(mp) + 1;
    DayInMonth(doy);
    ValidFromMarch(y, mp, day);
    ClosedForm(FromMarch(y, mp, day));
  }

  /** The March year and day of a day number. */
  lemma SplitDays(n: int) returns (y: int, doy: int)
    ensures 0 <= doy <= 365 && (doy == 365 ==> Leap(y + 1))
    ensures CivilFromDays(n) == CivilInYear(y, doy) && n == YearStart(y) + doy - 719468
  {
    var era, doe := (n + 719468) / 146097, (n + 719468) % 146097;
    var c, q, r, d := EraDayExists(doe);
    CivilOfEraDay(n, era, doe, c, q, r, d);
    EraDayStart(era, doe, c, q, r, d);
    y, doy := 100 * c + 4 * q + r + era * 400, d;
    LeapInEra(y, era, c, q, r);
  }

  /** Every day number is the number of its date. */
  lemma DateOfDays(n: int)
    ensures Valid(CivilFromDays(n)) && DaysFromCivil(CivilFromDays(n)) == n
  {
    var y, doy := SplitDays(n);
    DateInYear(y, doy);
  }

  lemma YearParts(y: int) returns (era: int, c: int, q: int, r: int)
    ensures 0 <= c <= 3 && 0 <= q <= 24 && 0 <= r <= 3 && y == 100 * c + 4 * q + r + era * 400
  {
    var yoe := y % 400;
    era, c := y / 400, yoe / 100;
    var rest := yoe - 100 * c;
    q := rest / 4;
    r := rest - 4 * q;
  }

  lemma DaysAt(n: int, y: int, doy: int)
    requires 0 <= doy <= 365 && (doy == 365 ==> Leap(y + 1)) && n == YearStart(y) + doy - 719468
    ensures CivilFromDays(n) == CivilInYear(y, doy)
  {
    var era, c, q, r := YearParts(y);
    var doe := 36524 * c + 1461 * q + 365 * r + doy;
    LeapInEra(y, era, c, q, r);
    EraDayStart(era, doe, c, q, r, doy);
    CivilOfEraDay(n, era, doe, c, q, r, doy);
  }

  lemma MarchDate(d: Date)
    requires Valid(d)
    ensures
      var y, doy := MarchYear(d), MonthStart(MarchMonth(d)) + d.day - 1;
      0 <= doy <= 365 && (doy == 365 ==> Leap(y + 1)) && CivilInYear(y, doy) == d
  {
    var y, mp := MarchYear(d), MarchMonth(d);
    assert d == FromMarch(y, mp, d.day);
    ValidFromMarch(y, mp, d.day);
    DayOfMarchYear(mp, d.day);
    MonthOfDay(mp, d.day);
  }

  /** Every date is the date of its day number. */
  lemma CivilOfDate(d: Date)
    requires Valid(d)
    ensures CivilFromDays(DaysFromCivil(d)) == d
  {
    var n := DaysFromCivil(d);
    var y, doy := MarchParts(d, n);
    DaysAt(n, y, doy);
  }

  lemma MarchParts(d: Date, n: int) returns (y: int, doy: int)
    requires Valid(d) && n == DaysFromCivil(d)
    ensures 0 <= doy <= 365 && (doy == 365 ==> Leap(y + 1)) && n == YearStart(y) + doy - 719468
      && CivilInYear(y, doy) == d
  {
    y, doy := MarchYear(d), MonthStart(MarchMonth(d)) + d.day - 1;
    ClosedForm(d);
    MarchDate(d);
  }
}
