/**
 The strict UTC text form YYYY-MM-DDTHH:MM:SSZ and its parser and printer
 (apps/finalis-nodetest/nodetest_core.cpp).
 */
module UtcText {
  import opened Options
  import opened Numerals
  import opened Calendar

  // ---------------------------------------------------------------- decimal numbers

  function Digit(d: nat): char
    requires d < 10
  {
    '0' + d as char
  }

  predicate IsDigit(c: char)
  {
    '0' <= c <= '9'
  }

  /** Exactly w digits. */
  function Fixed(v: nat, w: nat): (t: string)
    ensures |t| == w
    decreases w
  {
    if w == 0 then "" else Fixed(v / 10, w - 1) + [Digit(v % 10)]
  }

  function Decimal(v: nat): (t: string)
    ensures |t| >= 1
  {
    if v < 10 then [Digit(v)] else Decimal(v / 10) + [Digit(v % 10)]
  }

  function Zeros(n: nat): (t: string)
    ensures |t| == n
  {
    seq(n, _ => '0')
  }

  /** A number streamed with setfill('0') and setw(w). */
  function Shown(v: int, w: nat): string
  {
    var t := if v < 0 then "-" + Decimal(-v) else Decimal(v);
    if |t| < w then Zeros(w - |t|) + t else t
  }

  /** A number that fits is shown in exactly w digits. */
  lemma {:induction false} ShownFixed(v: nat, w: nat)
    requires w >= 1 && v < Power(10, w)
    ensures |Decimal(v)| <= w && Shown(v, w) == Fixed(v, w)
    decreases w
  {
    if v < 10 {
      ZeroFixed(w - 1);
    } else {
      assert Power(10, 1) == 10;
      ShownFixed(v / 10, w - 1);
      assert Decimal(v) == Decimal(v / 10) + [Digit(v % 10)];
      assert Zeros(w - |Decimal(v)|) + Decimal(v) == Zeros(w - |Decimal(v)|) + Decimal(v / 10) + [Digit(v % 10)];
      assert Zeros(0) == "";
    }
  }

  lemma {:induction false} ZeroFixed(w: nat)
    ensures Fixed(0, w) == Zeros(w)
  {
    if w > 0 {
      ZeroFixed(w - 1);
      assert Zeros(w) == Zeros(w - 1) + ['0'];
    }
  }

  function DigitsValue(t: string): Option<nat>
  {
    if t == "" then Some(0)
    else
      var front, c := DigitsValue(t[..|t| - 1]), t[|t| - 1];
      if front == None || !IsDigit(c) then None else Some(10 * front.value + (c - '0') as nat)
  }

  lemma TenStep(f: nat, d: nat, p: nat)
    requires d < 10
    ensures (10 * f + d) / 10 == f && (10 * f + d) % 10 == d && (10 * f + d < 10 * p <==> f < p)
  {
  }

  lemma DigitReads(d: nat)
    requires d < 10
    ensures IsDigit(Digit(d)) && (Digit(d) - '0') as nat == d
  {
  }

  lemma {:induction false} DigitsOf(t: string, v: nat)
    requires DigitsValue(t) == Some(v)
    ensures v < Power(10, |t|) && t == Fixed(v, |t|)
    decreases |t|
  {
    if t != "" {
      var front, c := t[..|t| - 1], t[|t| - 1];
      var f := DigitsValue(front).value;
      DigitsOf(front, f);
      TenStep(f, (c - '0') as nat, Power(10, |front|));
      assert t == front + [c];
    }
  }

  lemma {:induction false} ValueOf(v: nat, n: nat)
    requires v < Power(10, n)
    ensures DigitsValue(Fixed(v, n)) == Some(v)
  {
    if n > 0 {
      var t := Fixed(v, n);
      TenStep(v / 10, v % 10, Power(10, n - 1));
      ValueOf(v / 10, n - 1);
      DigitReads(v % 10);
      assert t[..n - 1] == Fixed(v / 10, n - 1) && t[n - 1] == Digit(v % 10);
    }
  }

  /** Digits read v exactly when they are the digits of v. */
  lemma DigitsExact(t: string, v: nat)
    ensures DigitsValue(t) == Some(v) <==> v < Power(10, |t|) && t == Fixed(v, |t|)
  {
    if DigitsValue(t) == Some(v) {
      DigitsOf(t, v);
    }
    if v < Power(10, |t|) {
      ValueOf(v, |t|);
    }
  }

  method ReadNumber(s: string, pos: nat, len: nat) returns (r: Option<nat>)
    requires pos + len <= |s|
    ensures r == DigitsValue(s[pos..pos + len])
  {
    var v := 0;
    for i := 0 to len
      invariant DigitsValue(s[pos..pos + i]) == Some(v)
    {
      var c := s[pos + i];
      assert s[pos..pos + (i + 1)][..i] == s[pos..pos + i];
      if !IsDigit(c) {
        NotANumber(s[pos..pos + len], i);
        return None;
      }
      v := v * 10 + (c - '0') as nat;
    }
    return Some(v);
  }

  lemma {:induction false} NotANumber(t: string, i: nat)
    requires i < |t| && !IsDigit(t[i])
    ensures DigitsValue(t) == None
    decreases |t|
  {
    if i < |t| - 1 {
      NotANumber(t[..|t| - 1], i);
    }
  }

  // ---------------------------------------------------------------- moments

  datatype Moment = Moment(date: Date, hour: int, minute: int, second: int)

  const FIRST: int := 946_684_800
  const LAST: int := 253_402_300_799

  predicate Clock(m: Moment)
  {
    0 <= m.hour <= 23 && 0 <= m.minute <= 59 && 0 <= m.second <= 59
  }

  predicate InYears(m: Moment)
  {
    Valid(m.date) && Clock(m) && 2000 <= m.date.year <= 9999
  }

  function Seconds(m: Moment): int
  {
    DaysFromCivil(m.date) * 86400 + m.hour * 3600 + m.minute * 60 + m.second
  }

  function Frame(y: string, mo: string, d: string, h: string, mi: string, se: string): string
  {
    y + "-" + mo + "-" + d + "T" + h + ":" + mi + ":" + se + "Z"
  }

  predicate Widths(y: string, mo: string, d: string, h: string, mi: string, se: string)
  {
    (|y| == 4) && (|mo| == 2) && (|d| == 2) && (|h| == 2) && (|mi| == 2) && (|se| == 2)
  }

  function TextOf(m: Moment): string
    requires InYears(m)
  {
    Frame(Fixed(m.date.year, 4), Fixed(m.date.month, 2), Fixed(m.date.day, 2), Fixed(m.hour, 2), Fixed(m.minute, 2),
      Fixed(m.second, 2))
  }

  /** The split of format_utc_time, with the remainder of a negative time brought back up. */
  function MomentOf(t: int): Moment
  {
    var rem := TruncMod(t, 86400);
    if rem < 0 then MomentAt(TruncDiv(t, 86400) - 1, rem + 86400) else MomentAt(TruncDiv(t, 86400), rem)
  }

  function MomentAt(days: int, rem: int): Moment
  {
    Moment(CivilFromDays(days), rem / 3600, rem % 3600 / 60, rem % 60)
  }

  /** format_utc_time */
  function Format(t: int): string
  {
    var m := MomentOf(t);
    Frame(Shown(m.date.year, 4), Shown(m.date.month, 2), Shown(m.date.day, 2), Shown(m.hour, 2), Shown(m.minute, 2),
      Shown(m.second, 2))
  }

  predicate Framed(s: string)
  {
    |s| == 20 && s[4] == '-' && s[7] == '-' && s[10] == 'T' && s[13] == ':' && s[16] == ':' && s[19] == 'Z'
  }

  /** The six numbers of a framed text, when all are numbers. */
  function Fields(s: string): Option<Moment>
    requires Framed(s)
  {
    var y, mo, d := DigitsValue(s[0..4]), DigitsValue(s[5..7]), DigitsValue(s[8..10]);
    var h, mi, se := DigitsValue(s[11..13]), DigitsValue(s[14..16]), DigitsValue(s[17..19]);
    if y == None || mo == None || d == None || h == None || mi == None || se == None then None
    else Some(Moment(Date(y.value, mo.value, d.value), h.value, mi.value, se.value))
  }

  function Parse(s: string): Option<int>
  {
    if !Framed(s) then None else
    var m := Fields(s);
    if m == None || m.value.date.year < 2000 || !Valid(m.value.date) || !Clock(m.value) then None
    else Some(Seconds(m.value))
  }

  method ReadFields(s: string) returns (r: Option<Moment>)
    requires Framed(s)
    ensures r == Fields(s)
  {
    var y := ReadNumber(s, 0, 4);
    var mo := ReadNumber(s, 5, 2);
    var d := ReadNumber(s, 8, 2);
    var h := ReadNumber(s, 11, 2);
    var mi := ReadNumber(s, 14, 2);
    var se := ReadNumber(s, 17, 2);
    if y == None || mo == None || d == None || h == None || mi == None || se == None {
      return None;
    }
    return Some(Moment(Date(y.value, mo.value, d.value), h.value, mi.value, se.value));
  }

  /** parse_utc_time */
  method ParseUtcTime(s: string) returns (r: Option<int>)
    ensures r == Parse(s)
  {
    if !Framed(s) {
      return None;
    }
    var fields := ReadFields(s);
    if fields == None {
      return None;
    }
    var m := fields.value;
    if m.date.year < 2000 || m.date.month < 1 || m.date.month > 12 || m.date.day < 1 || m.hour > 23 || m.minute > 59
      || m.second > 59 {
      return None;
    }
    if m.date.day > MonthLength(m.date.year, m.date.month) {
      return None;
    }
    return Some(Seconds(m));
  }

  // ---------------------------------------------------------------- text and fields

  lemma FieldRange()
    ensures Power(10, 2) == 100 && Power(10, 4) == 10000
  {
    assert Power(10, 3) == 10 * Power(10, 2);
  }

  lemma FrameParts(y: string, mo: string, d: string, h: string, mi: string, se: string)
    requires Widths(y, mo, d, h, mi, se)
    ensures
      var s := Frame(y, mo, d, h, mi, se);
      && Framed(s) && s[0..4] == y && s[5..7] == mo && s[8..10] == d && s[11..13] == h && s[14..16] == mi
         && s[17..19] == se
  {
  }

  lemma FrameOf(s: string)
    requires Framed(s)
    ensures s == Frame(s[0..4], s[5..7], s[8..10], s[11..13], s[14..16], s[17..19])
  {
  }

  lemma FixedReads(v: nat, w: nat)
    requires v < Power(10, w)
    ensures DigitsValue(Fixed(v, w)) == Some(v)
  {
    DigitsExact(Fixed(v, w), v);
  }

  lemma ReadsFixed(t: string)
    requires DigitsValue(t).Some?
    ensures DigitsValue(t).value < Power(10, |t|) && t == Fixed(DigitsValue(t).value, |t|)
  {
    DigitsExact(t, DigitsValue(t).value);
  }

  lemma FieldsOfFrame(y: string, mo: string, d: string, h: string, mi: string, se: string, m: Moment)
    requires Widths(y, mo, d, h, mi, se)
    requires DigitsValue(y) == Some(m.date.year)
    requires DigitsValue(mo) == Some(m.date.month)
    requires DigitsValue(d) == Some(m.date.day)
    requires DigitsValue(h) == Some(m.hour)
    requires DigitsValue(mi) == Some(m.minute)
    requires DigitsValue(se) == Some(m.second)
    ensures Framed(Frame(y, mo, d, h, mi, se))
    ensures Fields(Frame(y, mo, d, h, mi, se)) == Some(m)
  {
    FrameParts(y, mo, d, h, mi, se);
  }

  lemma FieldsOfText(m: Moment)
    requires InYears(m)
    ensures Framed(TextOf(m)) && Fields(TextOf(m)) == Some(m)
  {
    FieldRange();
    FixedReads(m.date.year, 4);
    FixedReads(m.date.month, 2);
    FixedReads(m.date.day, 2);
    FixedReads(m.hour, 2);
    FixedReads(m.minute, 2);
    FixedReads(m.second, 2);
    FieldsOfFrame(Fixed(m.date.year, 4), Fixed(m.date.month, 2), Fixed(m.date.day, 2), Fixed(m.hour, 2),
      Fixed(m.minute, 2), Fixed(m.second, 2), m);
  }

  lemma TextOfFields(s: string)
    requires Framed(s) && Fields(s).Some?
    ensures
      var m := Fields(s).value;
      m.date.year <= 9999 && (Valid(m.date) && Clock(m) && m.date.year >= 2000 ==> s == TextOf(m))
  {
    FrameOf(s);
    FieldRange();
    ReadsFixed(s[0..4]);
    ReadsFixed(s[5..7]);
    ReadsFixed(s[8..10]);
    ReadsFixed(s[11..13]);
    ReadsFixed(s[14..16]);
    ReadsFixed(s[17..19]);
  }

  // ---------------------------------------------------------------- moments and seconds

  lemma SplitSeconds(t: int, days: int, rem: int)
    requires t == days * 86400 + rem && 0 <= rem < 86400
    ensures
      var rem0 := TruncMod(t, 86400);
      && (if rem0 < 0 then TruncDiv(t, 86400) - 1 else TruncDiv(t, 86400)) == days
      && (if rem0 < 0 then rem0 + 86400 else rem0) == rem
  {
  }

  lemma MomentSplit(t: int, days: int, rem: int)
    requires t == days * 86400 + rem && 0 <= rem < 86400
    ensures MomentOf(t) == MomentAt(days, rem)
  {
    SplitSeconds(t, days, rem);
  }

  lemma ClockSplit(h: int, mi: int, se: int)
    requires 0 <= h <= 23 && 0 <= mi <= 59 && 0 <= se <= 59
    ensures var rem := h * 3600 + mi * 60 + se;
      0 <= rem < 86400 && rem / 3600 == h && rem % 3600 / 60 == mi && rem % 60 == se
  {
  }

  lemma ClockOf(rem: int)
    requires 0 <= rem < 86400
    ensures 0 <= rem / 3600 <= 23 && 0 <= rem % 3600 / 60 <= 59 && 0 <= rem % 60 <= 59
    ensures rem / 3600 * 3600 + rem % 3600 / 60 * 60 + rem % 60 == rem
  {
  }

  lemma MomentOfSeconds(m: Moment)
    requires Valid(m.date) && Clock(m)
    ensures MomentOf(Seconds(m)) == m
  {
    ClockSplit(m.hour, m.minute, m.second);
    MomentSplit(Seconds(m), DaysFromCivil(m.date), m.hour * 3600 + m.minute * 60 + m.second);
    CivilOfDate(m.date);
  }

  lemma SecondsOfMoment(t: int)
    ensures Valid(MomentOf(t).date) && Clock(MomentOf(t)) && Seconds(MomentOf(t)) == t
  {
    var days, rem := t / 86400, t % 86400;
    MomentSplit(t, days, rem);
    DateOfDays(days);
    ClockOf(rem);
  }

  // ---------------------------------------------------------------- the years the text can hold

  function NewYear(y: int): int
  {
    YearStart(y - 1) + 306 - 719468
  }

  lemma {:induction false} NewYearsAscend(y: int, z: int)
    requires y <= z
    ensures NewYear(y) <= NewYear(z)
    decreases z - y
  {
    if y < z {
      NewYearsAscend(y, z - 1);
      YearLength(z - 2);
    }
  }

  lemma WithinYear(d: Date)
    requires Valid(d)
    ensures NewYear(d.year) <= DaysFromCivil(d) < NewYear(d.year + 1)
  {
    ClosedForm(d);
    YearLength(d.year - 1);
    DayBounds(d);
  }

  lemma DayBounds(d: Date)
    requires Valid(d)
    ensures d.month <= 2 ==> 306 <= MonthStart(MarchMonth(d)) + d.day - 1 < 306 + 59 + (if Leap(d.year) then 1 else 0)
    ensures d.month > 2 ==> 0 <= MonthStart(MarchMonth(d)) + d.day - 1 < 306
  {
  }

  lemma YearRange(d: Date)
    requires Valid(d)
    ensures 2000 <= d.year <= 9999 <==> NewYear(2000) <= DaysFromCivil(d) < NewYear(10000)
  {
    WithinYear(d);
    if d.year < 2000 {
      NewYearsAscend(d.year + 1, 2000);
    } else {
      NewYearsAscend(2000, d.year);
    }
    if d.year > 9999 {
      NewYearsAscend(10000, d.year);
    } else {
      NewYearsAscend(d.year + 1, 10000);
    }
  }

  lemma SecondRange(t: int)
    ensures InYears(MomentOf(t)) <==> FIRST <= t <= LAST
  {
    SecondsOfMoment(t);
    var m := MomentOf(t);
    YearRange(m.date);
    assert NewYear(2000) == 10957 && NewYear(10000) == 2932897;
  }

  lemma FormatText(t: int)
    requires InYears(MomentOf(t))
    ensures Format(t) == TextOf(MomentOf(t))
  {
    var m := MomentOf(t);
    FieldRange();
    ShownFixed(m.date.year, 4);
    ShownFixed(m.date.month, 2);
    ShownFixed(m.date.day, 2);
    ShownFixed(m.hour, 2);
    ShownFixed(m.minute, 2);
    ShownFixed(m.second, 2);
  }

  /** Parsing succeeds with t exactly on the printed form of a t in the years 2000 to 9999. */
  lemma ParseExact(s: string, t: int)
    ensures Parse(s) == Some(t) <==> FIRST <= t <= LAST && s == Format(t)
  {
    SecondRange(t);
    if InYears(MomentOf(t)) {
      FormatText(t);
      FieldsOfText(MomentOf(t));
      SecondsOfMoment(t);
    }
    if Parse(s) == Some(t) {
      TextOfFields(s);
      MomentOfSeconds(Fields(s).value);
    }
  }

  // ---------------------------------------------------------------- what the seconds and the text mean

  /** The moment one second later. */
  function NextMoment(m: Moment): Moment
    requires Valid(m.date)
  {
    if m.second < 59 then m.(second := m.second + 1)
    else if m.minute < 59 then m.(minute := m.minute + 1, second := 0)
    else if m.hour < 23 then m.(hour := m.hour + 1, minute := 0, second := 0)
    else Moment(NextDate(m.date), 0, 0, 0)
  }

  lemma NextDay(m: Moment)
    requires Valid(m.date) && m.hour == 23 && m.minute == 59 && m.second == 59
    ensures Valid(NextMoment(m).date) && Seconds(NextMoment(m)) == Seconds(m) + 1
  {
    DayCount(m.date);
    DayTurns(DaysFromCivil(m.date), DaysFromCivil(NextDate(m.date)));
  }

  lemma DayTurns(d: int, e: int)
    requires e == d + 1
    ensures e * 86400 == d * 86400 + 23 * 3600 + 59 * 60 + 59 + 1
  {
  }

  lemma NextSecond(m: Moment)
    requires Valid(m.date) && Clock(m)
    ensures Valid(NextMoment(m).date) && Clock(NextMoment(m)) && Seconds(NextMoment(m)) == Seconds(m) + 1
  {
    if m.hour == 23 && m.minute == 59 && m.second == 59 {
      NextDay(m);
    }
  }

  lemma EpochMoment()
    ensures Seconds(Moment(Date(1970, 1, 1), 0, 0, 0)) == 0
  {
    Epoch();
  }

  /** The clock counts: 1970 begins at 0, and one second more is the moment that follows. */
  lemma ClockTicks(m: Moment)
    requires Valid(m.date) && Clock(m)
    ensures Seconds(Moment(Date(1970, 1, 1), 0, 0, 0)) == 0
    ensures Seconds(NextMoment(m)) == Seconds(m) + 1 && MomentOf(Seconds(m) + 1) == NextMoment(m)
  {
    EpochMoment();
    NextSecond(m);
    MomentOfSeconds(NextMoment(m));
  }

  /** Two decimal digits. */
  function Pair(v: nat): string
    requires v < 100
  {
    ["0123456789"[v / 10], "0123456789"[v % 10]]
  }

  lemma DigitChar(d: nat)
    requires d < 10
    ensures Digit(d) == "0123456789"[d]
  {
  }

  lemma PairMeans(v: nat)
    requires v < 100
    ensures Fixed(v, 2) == Pair(v)
  {
    DigitChar(v / 10);
    DigitChar(v % 10);
    assert Fixed(v / 10, 1) == Fixed(v / 10 / 10, 0) + [Digit(v / 10 % 10)] == [Digit(v / 10)];
  }

  lemma LowDigits(v: nat)
    ensures v / 10 / 10 == v / 100 && v % 100 / 10 == v / 10 % 10 && v % 100 % 10 == v % 10
  {
  }

  lemma FourDigits(v: nat)
    requires v < 10000
    ensures Fixed(v, 4) == Pair(v / 100) + Pair(v % 100)
  {
    LowDigits(v);
    PairMeans(v / 100);
    DigitChar(v / 10 % 10);
    DigitChar(v % 10);
    FixedFour(v);
  }

  lemma FixedFour(v: nat)
    ensures Fixed(v, 4) == Fixed(v / 10 / 10, 2) + [Digit(v / 10 % 10), Digit(v % 10)]
  {
    assert Fixed(v, 4) == Fixed(v / 10, 3) + [Digit(v % 10)];
    assert Fixed(v / 10, 3) == Fixed(v / 10 / 10, 2) + [Digit(v / 10 % 10)];
  }

  /** The text: year, month, day, hour, minute and second in decimal, most significant digit first. */
  lemma TextLayout(m: Moment)
    requires InYears(m)
    ensures Format(Seconds(m)) ==
      Pair(m.date.year / 100) + Pair(m.date.year % 100) + "-" + Pair(m.date.month) + "-" + Pair(m.date.day)
      + "T" + Pair(m.hour) + ":" + Pair(m.minute) + ":" + Pair(m.second) + "Z"
  {
    MomentOfSeconds(m);
    FormatText(Seconds(m));
    FourDigits(m.date.year);
    PairMeans(m.date.month);
    PairMeans(m.date.day);
    PairMeans(m.hour);
    PairMeans(m.minute);
    PairMeans(m.second);
  }
}
