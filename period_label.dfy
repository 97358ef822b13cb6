/**
 * The period labels that scan statistics are grouped by: `$dateToString` of a scan
 * time in UTC with one of the formats '%Y-%m-%d %H:00' (hour), '%Y-%m-%d' (day),
 * '%Y-W%U' (week, weeks starting on Sunday) and '%Y-%m' (month).
 * Times are integer milliseconds since 1970-01-01T00:00:00Z.
 */
module PeriodLabel {
  import opened JsText

  datatype Granularity = Hour | Day | Week | Month

  const MsPerHour: int := 3_600_000
  const MsPerDay: int := 86_400_000

  datatype CivilDate = CivilDate(year: int, month: int, day: int)

  /**
   * The proleptic Gregorian date of day `z`, counted from 1970-01-01 (day 0): a month 1..12
   * and a day 1..31 from which `DaysFromCivil` gives back `z`.
   */
  function CivilFromDays(z: int): (date: CivilDate)
    ensures 1 <= date.month <= 12 && 1 <= date.day <= 31
    ensures DaysFromCivil(date.year, date.month, date.day) == z
  {
    var z' := z + 719468;
    var era := z' / 146097;
    var doe := z' - era * 146097;
    var yoe := YearOfEra(doe);
    var doy := doe - YearStart(yoe);
    var mp := (5 * doy + 2) / 153;
    var d := doy - (153 * mp + 2) / 5 + 1;
    var m := if mp < 10 then mp + 3 else mp - 9;
    YearOfEraBounds(doe);
    DateOfDay(era, yoe, doy);
    CivilDate(if m <= 2 then yoe + era * 400 + 1 else yoe + era * 400, m, d)
  }

  /** Day `doy` of year `yoe` of era `era` as a civil date, and back. */
  lemma DateOfDay(era: int, yoe: int, doy: int)
    requires 0 <= yoe < 400 && 0 <= doy <= 365
    ensures var mp := (5 * doy + 2) / 153;
      var d := doy - (153 * mp + 2) / 5 + 1;
      var m := if mp < 10 then mp + 3 else mp - 9;
      var y := if m <= 2 then yoe + era * 400 + 1 else yoe + era * 400;
      && 1 <= m <= 12 && 1 <= d <= 31
      && DaysFromCivil(y, m, d) == era * 146097 + YearStart(yoe) + doy - 719468
  {
    MonthOfYear(doy);
    EraOfYear(era, yoe);
    assert yoe + era * 400 - era * 400 == yoe;
  }

  /** The first day of year `yoe` of a 400-year era, counted from the era's first March 1. */
  function YearStart(yoe: int): int {
    365 * yoe + yoe / 4 - yoe / 100
  }

  /** The year of the era that day `doe` of the era falls in. */
  function YearOfEra(doe: int): int {
    (doe - doe / 1460 + doe / 36524 - doe / 146096) / 365
  }

  /** Every day of an era falls in one of its 400 years, 0..365 days after that year's start. */
  lemma YearOfEraBounds(doe: int)
    requires 0 <= doe < 146097
    ensures var yoe := YearOfEra(doe);
      0 <= yoe < 400 && 0 <= doe - YearStart(yoe) <= 365
  {
    if doe < 146096 {
      var b := doe / 36524;
      var q := (doe - 36524 * b) / 1461;
      var t := doe - 36524 * b - 1461 * q;
      CenturyAndCycle(doe, b, q, t);
      var tp := if t < 365 then 0 else if t < 730 then 1 else if t < 1095 then 2 else 3;
      YearInCycle(b, q, t, tp);
    }
  }

  /** Day `doe` (not the era's last) is day `t` of 4-year cycle `q` of century `b`. */
  lemma CenturyAndCycle(doe: int, b: int, q: int, t: int)
    requires 0 <= doe < 146096 && b == doe / 36524 && q == (doe - 36524 * b) / 1461
    requires t == doe - 36524 * b - 1461 * q
    ensures 0 <= b <= 3 && 0 <= q <= 24 && 0 <= t <= 1460
    ensures doe / 1460 == 25 * b + q + (if 24 * b + q + t >= 1460 then 1 else 0)
    ensures doe / 146096 == 0
  {
    assert doe == 1460 * (25 * b + q) + (24 * b + q + t);
  }

  /** Day `t` of a 4-year cycle falls in year `tp` of the cycle, whose start `YearStart` gives. */
  lemma YearInCycle(b: int, q: int, t: int, tp: int)
    requires 0 <= b <= 3 && 0 <= q <= 24 && 0 <= t <= 1460
    requires tp == if t < 365 then 0 else if t < 730 then 1 else if t < 1095 then 2 else 3
    ensures var doe := 36524 * b + 1461 * q + t;
      var carry := if 24 * b + q + t >= 1460 then 1 else 0;
      (doe - (25 * b + q + carry) + b) / 365 == 100 * b + 4 * q + tp
    ensures YearStart(100 * b + 4 * q + tp) == 36500 * b + 1460 * q + 365 * tp + 25 * b + q - b
  {
    var yoe := 100 * b + 4 * q + tp;
    assert yoe / 4 == 25 * b + q;
    assert yoe / 100 == b;
  }

  /** Day `doy` of a March-based year falls in a month 0..11 counted from March, on a day 1..31. */
  lemma MonthOfYear(doy: int)
    requires 0 <= doy <= 365
    ensures var mp := (5 * doy + 2) / 153;
      0 <= mp <= 11 && 1 <= doy - (153 * mp + 2) / 5 + 1 <= 31
  {
  }

  lemma EraOfYear(era: int, yoe: int)
    requires 0 <= yoe < 400
    ensures (yoe + era * 400) / 400 == era
  {
  }

  /** The day number of March 1 of year `y`, the first day of the March-based year `y`. */
  function MarchFirst(y: int): int {
    var era := y / 400;
    era * 146097 + YearStart(y - era * 400) - 719468
  }

  /** The day number, counted from 1970-01-01, of a proleptic Gregorian date. */
  function DaysFromCivil(y: int, m: int, d: int): int {
    var y' := if m <= 2 then y - 1 else y;
    var doy := (153 * (if m > 2 then m - 3 else m + 9) + 2) / 5 + d - 1;
    MarchFirst(y') + doy
  }

  /** A March-based year has 365 or 366 days. */
  lemma YearLength(y: int)
    ensures 365 <= MarchFirst(y + 1) - MarchFirst(y) <= 366
  {
    var era := y / 400;
    var yoe := y - era * 400;
    if yoe < 399 {
      assert (y + 1) / 400 == era;
      assert (yoe + 1) / 100 > yoe / 100 ==> (yoe + 1) / 4 > yoe / 4;
    } else {
      assert (y + 1) / 400 == era + 1;
      assert y + 1 - (era + 1) * 400 == 0;
    }
  }

  /** A month 1..12 and day 1..31 lie 0..365 days after January 1 of their year. */
  lemma DayOfYearBounds(y: int, m: int, d: int)
    requires 1 <= m <= 12 && 1 <= d <= 31
    ensures 0 <= DaysFromCivil(y, m, d) - DaysFromCivil(y, 1, 1) <= 365
  {
    if m > 2 {
      YearLength(y - 1);
      assert y - 1 + 1 == y;
    }
  }

  /** `%U`: the week of the year, where week 1 starts on the year's first Sunday and earlier days are week 0. */
  function SundayWeekOfYear(z: int): (w: int)
    ensures 0 <= w <= 53
  {
    var date := CivilFromDays(z);
    DayOfYearBounds(date.year, date.month, date.day);
    var yday := z - DaysFromCivil(date.year, 1, 1);
    var wday := (z + 4) % 7;  // 1970-01-01 was a Thursday; 0 is Sunday
    (yday + 7 - wday) / 7
  }

  /** A decimal field zero-padded to `width` digits (a negative value is written with its sign). */
  function PadNumber(n: int, width: nat): (s: string)
    ensures n >= 0 ==> |s| >= width
  {
    if n < 0 then IntToDecimal(n) else ZeroPad(NatToDecimal(n), width)
  }

  /** The `$dateToString` format of granularity `g`, applied to a date, an hour of day and a `%U` week. */
  function Format(g: Granularity, date: CivilDate, hour: int, week: int): string {
    var ym := PadNumber(date.year, 4) + "-" + PadNumber(date.month, 2);
    match g
    case Month => ym
    case Day => ym + "-" + PadNumber(date.day, 2)
    case Hour => ym + "-" + PadNumber(date.day, 2) + " " + PadNumber(hour, 2) + ":00"
    case Week => PadNumber(date.year, 4) + "-W" + PadNumber(week, 2)
  }

  /** Positions `lo..hi` of `s` are decimal digits that spell `n`. */
  predicate DigitsAt(s: string, lo: int, hi: int, n: int) {
    && 0 <= lo <= hi <= |s|
    && (forall i :: 0 <= i < hi - lo ==> IsDigit(s[lo..hi][i]))
    && DecimalValue(s[lo..hi]) == n
  }

  /** The fields fit their widths: a four-digit year and two-digit month, day, hour and week. */
  predicate Printable(date: CivilDate, hour: int, week: int) {
    && 0 <= date.year < 10000 && 0 <= date.month < 100 && 0 <= date.day < 100
    && 0 <= hour < 100 && 0 <= week < 100
  }

  /**
   * `r` is laid out as the format of `g` prescribes, and its digit fields spell the date, hour
   * and week: 'YYYY-MM', 'YYYY-MM-DD', 'YYYY-MM-DD HH:00' or 'YYYY-WUU'.
   */
  predicate Spells(g: Granularity, r: string, date: CivilDate, hour: int, week: int) {
    match g
    case Month => |r| == 7 && DigitsAt(r, 0, 4, date.year) && r[4] == '-' && DigitsAt(r, 5, 7, date.month)
    case Day =>
      && |r| == 10 && DigitsAt(r, 0, 4, date.year) && r[4] == '-' && DigitsAt(r, 5, 7, date.month)
      && r[7] == '-' && DigitsAt(r, 8, 10, date.day)
    case Hour =>
      && |r| == 16 && DigitsAt(r, 0, 4, date.year) && r[4] == '-' && DigitsAt(r, 5, 7, date.month)
      && r[7] == '-' && DigitsAt(r, 8, 10, date.day) && r[10] == ' ' && DigitsAt(r, 11, 13, hour)
      && r[13..] == ":00"
    case Week => |r| == 8 && DigitsAt(r, 0, 4, date.year) && r[4..6] == "-W" && DigitsAt(r, 6, 8, week)
  }

  /** A value below `10^w`, padded to `w` digits, is exactly `w` digits spelling it. */
  lemma PadField(n: int, w: nat)
    requires 1 <= w && 0 <= n < Pow10(w)
    ensures |PadNumber(n, w)| == w && DigitsAt(PadNumber(n, w), 0, w, n)
  {
    var s := NatToDecimal(n);
    var p := ZeroPad(s, w);
    assert PadNumber(n, w) == p;
    assert |p| == w by {
      DecimalLength(n, w);
    }
    assert DecimalValue(p) == n && forall i :: 0 <= i < w ==> IsDigit(p[i]) by {
      ZeroPadValue(s, w);
      DecimalRoundTrip(n);
    }
    assert p[0..w] == p;
  }

  /** Text appended after a field leaves the field in place. */
  lemma Extend(a: string, b: string, lo: int, hi: int, n: int)
    requires DigitsAt(a, lo, hi, n)
    ensures DigitsAt(a + b, lo, hi, n)
  {
    assert (a + b)[lo..hi] == a[lo..hi];
  }

  /** A field appended to a text sits right after it. */
  lemma Append(a: string, f: string, n: int)
    requires DigitsAt(f, 0, |f|, n)
    ensures DigitsAt(a + f, |a|, |a| + |f|, n)
  {
    assert (a + f)[|a|..|a| + |f|] == f[0..|f|];
  }

  /** Fields of four, two and two digits, placed as the month and day formats place them. */
  lemma DateLayout(y: string, m: string, d: string, date: CivilDate, hour: int, week: int)
    requires |y| == 4 && DigitsAt(y, 0, 4, date.year) && |m| == 2 && DigitsAt(m, 0, 2, date.month)
    requires |d| == 2 && DigitsAt(d, 0, 2, date.day)
    ensures Spells(Month, y + "-" + m, date, hour, week)
    ensures Spells(Day, y + "-" + m + "-" + d, date, hour, week)
  {
    Extend(y, "-", 0, 4, date.year);
    Extend(y + "-", m, 0, 4, date.year);
    Append(y + "-", m, date.month);
    var ym := y + "-" + m;
    Extend(ym, "-", 0, 4, date.year);
    Extend(ym, "-", 5, 7, date.month);
    Extend(ym + "-", d, 0, 4, date.year);
    Extend(ym + "-", d, 5, 7, date.month);
    Append(ym + "-", d, date.day);
  }

  /** A day label followed by a two-digit hour field, placed as the hour format places it. */
  lemma HourLayout(day: string, h: string, date: CivilDate, hour: int, week: int)
    requires Spells(Day, day, date, hour, week) && |h| == 2 && DigitsAt(h, 0, 2, hour)
    ensures Spells(Hour, day + " " + h + ":00", date, hour, week)
  {
    var a := day + " ";
    var b := a + h;
    Extend(day, " ", 0, 4, date.year);
    Extend(day, " ", 5, 7, date.month);
    Extend(day, " ", 8, 10, date.day);
    Extend(a, h, 0, 4, date.year);
    Extend(a, h, 5, 7, date.month);
    Extend(a, h, 8, 10, date.day);
    Append(a, h, hour);
    Extend(b, ":00", 0, 4, date.year);
    Extend(b, ":00", 5, 7, date.month);
    Extend(b, ":00", 8, 10, date.day);
    Extend(b, ":00", 11, 13, hour);
    assert (b + ":00")[13..] == ":00";
  }

  /** The month and day formats spell their fields. */
  lemma DateFormatsSpell(date: CivilDate, hour: int, week: int)
    requires Printable(date, hour, week)
    ensures Spells(Month, Format(Month, date, hour, week), date, hour, week)
    ensures Spells(Day, Format(Day, date, hour, week), date, hour, week)
  {
    assert Pow10(2) == 100 && Pow10(4) == 10000;
    PadField(date.year, 4);
    PadField(date.month, 2);
    PadField(date.day, 2);
    DateLayout(PadNumber(date.year, 4), PadNumber(date.month, 2), PadNumber(date.day, 2), date, hour, week);
  }

  /** The hour format spells its fields. */
  lemma HourFormatSpells(date: CivilDate, hour: int, week: int)
    requires Printable(date, hour, week)
    ensures Spells(Hour, Format(Hour, date, hour, week), date, hour, week)
  {
    DateFormatsSpell(date, hour, week);
    assert Pow10(2) == 100;
    PadField(hour, 2);
    HourLayout(Format(Day, date, hour, week), PadNumber(hour, 2), date, hour, week);
  }

  /** Two fields of two and four digits, placed as the week format places them. */
  lemma WeekLayout(y: string, u: string, date: CivilDate, hour: int, week: int)
    requires |y| == 4 && DigitsAt(y, 0, 4, date.year) && |u| == 2 && DigitsAt(u, 0, 2, week)
    ensures Spells(Week, y + "-W" + u, date, hour, week)
  {
    Extend(y, "-W", 0, 4, date.year);
    Extend(y + "-W", u, 0, 4, date.year);
    Append(y + "-W", u, week);
    assert (y + "-W" + u)[4..6] == "-W";
  }

  /** The week format spells its fields. */
  lemma WeekFormatSpells(date: CivilDate, hour: int, week: int)
    requires Printable(date, hour, week)
    ensures Spells(Week, Format(Week, date, hour, week), date, hour, week)
  {
    assert Pow10(2) == 100 && Pow10(4) == 10000;
    PadField(date.year, 4);
    PadField(week, 2);
    WeekLayout(PadNumber(date.year, 4), PadNumber(week, 2), date, hour, week);
  }

  /** Every format spells its fields in its layout when they fit their widths. */
  lemma FormatSpells(g: Granularity, date: CivilDate, hour: int, week: int)
    requires Printable(date, hour, week)
    ensures Spells(g, Format(g, date, hour, week), date, hour, week)
  {
    match g
    case Month => DateFormatsSpell(date, hour, week);
    case Day => DateFormatsSpell(date, hour, week);
    case Hour => HourFormatSpells(date, hour, week);
    case Week => WeekFormatSpells(date, hour, week);
  }

  /** The year of the UTC day of time `t`. */
  function YearOf(t: int): int {
    CivilFromDays(t / MsPerDay).year
  }

  /**
   * The label of the period of granularity `g` that contains time `t`: for a four-digit year,
   * the format's layout spelling the UTC date of `t`, its hour of day and its `%U` week.
   */
  function Label(g: Granularity, t: int): (r: string)
    ensures 0 <= YearOf(t) < 10000 ==>
      var z := t / MsPerDay;
      Spells(g, r, CivilFromDays(z), (t % MsPerDay) / MsPerHour, SundayWeekOfYear(z))
  {
    var z := t / MsPerDay;
    var date := CivilFromDays(z);
    var hour := (t % MsPerDay) / MsPerHour;
    var r := Format(g, date, hour, SundayWeekOfYear(z));
    if 0 <= date.year < 10000 then
      FormatSpells(g, date, hour, SundayWeekOfYear(z));
      r
    else r
  }

  /** Two strings laid out by the same format spell the same fields. */
  lemma SpellsOne(g: Granularity, r: string, d1: CivilDate, h1: int, w1: int, d2: CivilDate, h2: int, w2: int)
    requires Spells(g, r, d1, h1, w1) && Spells(g, r, d2, h2, w2)
    ensures d1.year == d2.year
    ensures g != Week ==> d1.month == d2.month
    ensures g == Day || g == Hour ==> d1.day == d2.day
    ensures g == Hour ==> h1 == h2
    ensures g == Week ==> w1 == w2
  {
  }

  /** For four-digit years, two times share a day label exactly when they fall on the same UTC day. */
  lemma DayLabelsIdentifyDays(t1: int, t2: int)
    requires 0 <= YearOf(t1) < 10000 && 0 <= YearOf(t2) < 10000
    ensures Label(Day, t1) == Label(Day, t2) <==> t1 / MsPerDay == t2 / MsPerDay
  {
    var z1, z2 := t1 / MsPerDay, t2 / MsPerDay;
    if Label(Day, t1) == Label(Day, t2) {
      var a, b := CivilFromDays(z1), CivilFromDays(z2);
      SpellsOne(Day, Label(Day, t1), a, (t1 % MsPerDay) / MsPerHour, SundayWeekOfYear(z1),
                b, (t2 % MsPerDay) / MsPerHour, SundayWeekOfYear(z2));
      assert a == b;
    }
  }

  /** The hour of a time, counted from the epoch, is its day's first hour plus its hour of day. */
  lemma HourOfTime(t: int)
    ensures 0 <= (t % MsPerDay) / MsPerHour < 24
    ensures t / MsPerHour == 24 * (t / MsPerDay) + (t % MsPerDay) / MsPerHour
  {
    var z := t / MsPerDay;
    var rem := t % MsPerDay;
    assert t == MsPerHour * (24 * z) + rem;
  }

  /** A day number and an hour of day are recovered from the hour they give. */
  lemma HourSplit(z1: int, h1: int, z2: int, h2: int)
    requires 0 <= h1 < 24 && 0 <= h2 < 24
    ensures 24 * z1 + h1 == 24 * z2 + h2 <==> z1 == z2 && h1 == h2
  {
  }

  /** For four-digit years, two times share an hour label exactly when they fall in the same UTC hour. */
  lemma HourLabelsIdentifyHours(t1: int, t2: int)
    requires 0 <= YearOf(t1) < 10000 && 0 <= YearOf(t2) < 10000
    ensures Label(Hour, t1) == Label(Hour, t2) <==> t1 / MsPerHour == t2 / MsPerHour
  {
    var z1, z2 := t1 / MsPerDay, t2 / MsPerDay;
    var h1, h2 := (t1 % MsPerDay) / MsPerHour, (t2 % MsPerDay) / MsPerHour;
    HourOfTime(t1);
    HourOfTime(t2);
    HourSplit(z1, h1, z2, h2);
    if Label(Hour, t1) == Label(Hour, t2) {
      var a, b := CivilFromDays(z1), CivilFromDays(z2);
      SpellsOne(Hour, Label(Hour, t1), a, h1, SundayWeekOfYear(z1), b, h2, SundayWeekOfYear(z2));
      assert a == b;
    }
  }

  /** `groupBy` selects the format; it defaults to 'day' and any unrecognised value also uses the day format. */
  function GranularityOf(groupBy: Option<string>): (g: Granularity)
    ensures g == Hour <==> groupBy == Some("hour")
    ensures g == Week <==> groupBy == Some("week")
    ensures g == Month <==> groupBy == Some("month")
    ensures groupBy.None? ==> g == Day
  {
    match groupBy
    case None => Day
    case Some(s) =>
      if s == "hour" then Hour
      else if s == "week" then Week
      else if s == "month" then Month
      else Day
  }

  /** Two times on the same UTC calendar day share their day, week and month labels. */
  lemma SameDaySameLabels(t1: int, t2: int, g: Granularity)
    requires t1 / MsPerDay == t2 / MsPerDay
    requires g != Hour
    ensures Label(g, t1) == Label(g, t2)
  {
  }

  /** The month format starts the day format, and the day format starts the hour format. */
  lemma FormatsNest(date: CivilDate, hour: int, week: int)
    ensures var m := Format(Month, date, hour, week);
      var d := Format(Day, date, hour, week);
      var h := Format(Hour, date, hour, week);
      |m| < |d| < |h| && d[..|m|] == m && h[..|d|] == d
  {
    var m := Format(Month, date, hour, week);
    var d := Format(Day, date, hour, week);
    assert d == m + ("-" + PadNumber(date.day, 2));
    assert Format(Hour, date, hour, week) == d + (" " + PadNumber(hour, 2) + ":00");
  }

  /** The month label of a time starts its day label, which starts its hour label. */
  lemma LabelsNest(t: int)
    ensures var m := Label(Month, t);
      var d := Label(Day, t);
      |m| < |d| < |Label(Hour, t)| && d[..|m|] == m && Label(Hour, t)[..|d|] == d
  {
    var z := t / MsPerDay;
    FormatsNest(CivilFromDays(z), (t % MsPerDay) / MsPerHour, SundayWeekOfYear(z));
  }

  /** The epoch is 1970-01-01. */
  lemma EpochDate()
    ensures CivilFromDays(0) == CivilDate(1970, 1, 1)
  {
  }

  /** Day 19675 is 2023-11-14. */
  lemma SampleDate()
    ensures CivilFromDays(19675) == CivilDate(2023, 11, 14)
  {
  }

  /** 2023-11-14 is a Tuesday in week 46 of 2023 (2023-01-01, day 19358, was a Sunday). */
  lemma SampleWeek()
    ensures SundayWeekOfYear(19675) == 46
  {
    SampleDate();
    SampleYearAndWeekday();
    assert SundayWeekOfYear(19675) == (19675 - DaysFromCivil(2023, 1, 1) + 7 - (19675 + 4) % 7) / 7;
  }

  /** 2023-01-01 is day 19358, and day 19675 is a Tuesday. */
  lemma SampleYearAndWeekday()
    ensures DaysFromCivil(2023, 1, 1) == 19358
    ensures (19675 + 4) % 7 == 2
  {
    assert 19679 == 7 * 2811 + 2;
  }
}
