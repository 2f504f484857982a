/** The proleptic-Gregorian day/date conversions of access_window.rs, proved against the
    calendar itself: leap years, month lengths and "the day after". */
module CivilDate {
  datatype Date = Date(year: int, month: int, day: int)

  // ---- The calendar: the independent reference ----

  predicate IsLeap(year: int) {
    year % 4 == 0 && (year % 100 != 0 || year % 400 == 0)
  }

  function DaysInMonth(year: int, month: int): int {
    if month == 2 then (if IsLeap(year) then 29 else 28)
    else if month in {4, 6, 9, 11} then 30
    else 31
  }

  predicate ValidDate(d: Date) {
    1 <= d.month <= 12 && 1 <= d.day <= DaysInMonth(d.year, d.month)
  }

  function NextDate(d: Date): Date {
    if d.day < DaysInMonth(d.year, d.month) then Date(d.year, d.month, d.day + 1)
    else if d.month < 12 then Date(d.year, d.month + 1, 1)
    else Date(d.year + 1, 1, 1)
  }

  /** The date `n` days after 1970-01-01, by turning the calendar one day at a time. */
  function NthDate(n: nat): Date {
    if n == 0 then Date(1970, 1, 1) else NextDate(NthDate(n - 1))
  }

  // ---- The code ----

  /** Day of the March-based year on which March-based month `mp` starts. */
  function MonthStart(mp: int): int {
    (153 * mp + 2) / 5
  }

  /** Day of the era on which March-based year `yoe` starts. */
  function YearStart(yoe: int): int {
    yoe * 365 + yoe / 4 - yoe / 100
  }

  function MarchYear(year: int, month: int): int {
    if month <= 2 then year - 1 else year
  }

  function MarchMonth(month: int): int {
    if month > 2 then month - 3 else month + 9
  }

  function DayOfYear(month: int, day: int): int {
    MonthStart(MarchMonth(month)) + day - 1
  }

  /** Days since the epoch of day `doy` of March-based year `y`. */
  function DayNumber(y: int, doy: int): int {
    var era, yoe := y / 400, y % 400;
    var doe := YearStart(yoe) + doy;
    era * 146_097 + doe - 719_468
  }

  function DaysFromCivil(d: Date): int {
    DayNumber(MarchYear(d.year, d.month), DayOfYear(d.month, d.day))
  }

  function YearOfEra(doe: int): int {
    (doe - doe / 1_460 + doe / 36_524 - doe / 146_096) / 365
  }

  /** The March-based year that holds a day, and the day's place in it. */
  function MarchDay(days: int): (int, int) {
    var z := days + 719_468;
    var era, doe := z / 146_097, z % 146_097;
    var yoe := YearOfEra(doe);
    (yoe + era * 400, doe - YearStart(yoe))
  }

  function DateIn(y: int, doy: int): Date {
    var mp := (5 * doy + 2) / 153;
    var day := doy - MonthStart(mp) + 1;
    var month := if mp < 10 then mp + 3 else mp - 9;
    Date(y + (if month <= 2 then 1 else 0), month, day)
  }

  function CivilFromDays(days: int): Date {
    var (y, doy) := MarchDay(days);
    DateIn(y, doy)
  }

  /** What `format_utc_ymd_hm` prints: a date, an hour and a minute. */
  datatype Stamp = Stamp(date: Date, hour: int, minute: int)

  function UtcStamp(secs: int): Stamp {
    var s := if secs < 0 then 0 else secs;
    var rem := s % 86_400;
    Stamp(CivilFromDays(s / 86_400), rem / 3_600, (rem % 3_600) / 60)
  }

  // ---- The March-based year ----

  /** Length of the March-based year `yoe` of an era: its February belongs to year `yoe + 1`. */
  function YearLength(yoe: int): int {
    if IsLeap(yoe + 1) then 366 else 365
  }

  /** Where the year with century `c`, quad `q` and year `k` of the quad starts. */
  lemma YearStartOf(c: int, q: int, k: int)
    requires 0 <= c <= 4 && 0 <= q < 25 && 0 <= k < 4
    ensures YearStart(100 * c + 4 * q + k) == 36_524 * c + 1_461 * q + 365 * k
  {
    var yoe := 100 * c + 4 * q + k;
    assert yoe / 4 == 25 * c + q && yoe / 100 == c;
  }

  lemma YearLengthOf(c: int, q: int, k: int)
    requires 0 <= c < 4 && 0 <= q < 25 && 0 <= k < 4
    ensures YearLength(100 * c + 4 * q + k) == if k == 3 && (q < 24 || c == 3) then 366 else 365
  {
    var next := 100 * c + 4 * q + k + 1;
    assert k < 3 ==> next % 4 == k + 1;
    assert k == 3 && q < 24 ==> next % 4 == 0 && next % 100 == 4 * (q + 1);
    assert k == 3 && q == 24 ==> next == 100 * (c + 1);
  }

  lemma YearsTileTheEra(yoe: int)
    requires 0 <= yoe < 400
    ensures YearStart(yoe) + YearLength(yoe) == if yoe == 399 then 146_097 else YearStart(yoe + 1)
  {
    var c, q, k := yoe / 100, (yoe % 100) / 4, yoe % 4;
    assert yoe == 100 * c + 4 * q + k && 0 <= q < 25;
    YearStartOf(c, q, k);
    YearLengthOf(c, q, k);
    if k < 3 {
      assert yoe + 1 == 100 * c + 4 * q + (k + 1);
      YearStartOf(c, q, k + 1);
    } else if q < 24 {
      assert yoe + 1 == 100 * c + 4 * (q + 1);
      YearStartOf(c, q + 1, 0);
    } else {
      assert yoe + 1 == 100 * (c + 1);
      YearStartOf(c + 1, 0, 0);
    }
  }

  /** Day `doy` of the year with century `c`, quad `q` and year `k` of the quad: the three
      divisions of the closed form count exactly the leap days before it. */
  lemma LeapDayCounts(c: int, q: int, k: int, doy: int)
    requires 0 <= c < 4 && 0 <= q < 25 && 0 <= k < 4 && 0 <= doy <= 365
    requires doy == 365 ==> k == 3 && (q < 24 || c == 3)
    ensures YearOfEra(36_524 * c + 1_461 * q + 365 * k + doy) == 100 * c + 4 * q + k
    ensures 36_524 * c + 1_461 * q + 365 * k + doy < 146_097
  {
    var doe := 36_524 * c + 1_461 * q + 365 * k + doy;
    var rest := 24 * c + q + 365 * k + doy;
    var e := if rest < 1_460 then 0 else 1;
    assert doe == 1_460 * (25 * c + q) + rest;
    assert doe / 1_460 == 25 * c + q + e;
    var last := if doe == 146_096 then 1 else 0;
    assert doe / 146_096 == last;
    assert doe / 36_524 == c + last;
    assert doe - doe / 1_460 + doe / 36_524 - doe / 146_096 == 365 * (100 * c + 4 * q + k) + doy - e;
  }

  /** The closed form for the year inverts `YearStart`, leap days and era end included. */
  lemma YearOfEraIsExact(yoe: int, doy: int)
    requires 0 <= yoe < 400 && 0 <= doy < YearLength(yoe)
    ensures YearOfEra(YearStart(yoe) + doy) == yoe
    ensures 0 <= YearStart(yoe) + doy < 146_097
  {
    var c, q, k := yoe / 100, (yoe % 100) / 4, yoe % 4;
    assert yoe == 100 * c + 4 * q + k && 0 <= q < 25;
    YearStartOf(c, q, k);
    YearLengthOf(c, q, k);
    LeapDayCounts(c, q, k, doy);
  }

  lemma YearOfEraLocates(doe: int)
    requires 0 <= doe < 146_097
    ensures var yoe := YearOfEra(doe);
            0 <= yoe < 400 && 0 <= doe - YearStart(yoe) < YearLength(yoe)
  {
    var yoe, doy := Locate(doe, 400);
    YearOfEraIsExact(yoe, doy);
  }

  /** Finds the year that holds day `doe` by walking the years back from `limit`. */
  lemma {:induction false} Locate(doe: int, limit: int) returns (yoe: int, doy: int)
    requires 1 <= limit <= 400
    requires 0 <= doe < (if limit == 400 then 146_097 else YearStart(limit))
    ensures 0 <= yoe < 400 && 0 <= doy < YearLength(yoe) && doe == YearStart(yoe) + doy
  {
    YearsTileTheEra(limit - 1);
    if doe >= YearStart(limit - 1) {
      return limit - 1, doe - YearStart(limit - 1);
    }
    yoe, doy := Locate(doe, limit - 1);
  }

  // ---- Months ----

  /** Calendar month of March-based month `mp`, and the calendar year it lies in. */
  function MonthOf(mp: int): int {
    if mp < 10 then mp + 3 else mp - 9
  }

  function YearOf(y: int, mp: int): int {
    if mp < 10 then y else y + 1
  }

  lemma MonthsTileTheYear(y: int, mp: int)
    requires 0 <= mp < 12
    ensures MonthStart(mp) + DaysInMonth(YearOf(y, mp), MonthOf(mp))
         == if mp == 11 then YearLength(y) else MonthStart(mp + 1)
  {
  }

  lemma MonthIsExact(mp: int, day: int)
    requires 0 <= mp < 12 && 1 <= day && day <= (if mp < 11 then MonthStart(mp + 1) - MonthStart(mp) else 29)
    ensures (5 * (MonthStart(mp) + day - 1) + 2) / 153 == mp
  {
    assert mp in {0, 1, 2, 3, 4, 5, 6, 7, 8, 9, 10, 11};
  }

  lemma MonthOfDay(doy: int)
    requires 0 <= doy < 366
    ensures var mp := (5 * doy + 2) / 153;
            0 <= mp < 12 && MonthStart(mp) <= doy && (mp < 11 ==> doy < MonthStart(mp + 1))
  {
    var mp := (5 * doy + 2) / 153;
    assert 153 * mp <= 5 * doy + 2 < 153 * mp + 153;
  }

  /** Valid dates and days of March-based years correspond one to one: from the date... */
  lemma DateToDayOfYear(d: Date)
    requires ValidDate(d)
    ensures 0 <= DayOfYear(d.month, d.day) < YearLength(MarchYear(d.year, d.month))
    ensures DateIn(MarchYear(d.year, d.month), DayOfYear(d.month, d.day)) == d
  {
    var mp := MarchMonth(d.month);
    assert MonthOf(mp) == d.month && YearOf(MarchYear(d.year, d.month), mp) == d.year;
    MonthsTileTheYear(MarchYear(d.year, d.month), mp);
    MonthIsExact(mp, d.day);
    assert mp in {0, 1, 2, 3, 4, 5, 6, 7, 8, 9, 10, 11};
  }

  /** ... and back to it. */
  lemma DayOfYearToDate(y: int, doy: int)
    requires 0 <= doy < YearLength(y)
    ensures var d := DateIn(y, doy);
            ValidDate(d) && MarchYear(d.year, d.month) == y && DayOfYear(d.month, d.day) == doy
  {
    MonthOfDay(doy);
    MonthsTileTheYear(y, (5 * doy + 2) / 153);
  }

  // ---- Eras ----

  lemma Shifted4(y: int, k: int)
    ensures (y + 4 * k) % 4 == y % 4
  {
    assert y + 4 * k == 4 * (y / 4 + k) + y % 4;
  }

  lemma Shifted100(y: int, k: int)
    ensures (y + 100 * k) % 100 == y % 100
  {
    assert y + 100 * k == 100 * (y / 100 + k) + y % 100;
  }

  lemma Shifted400(y: int, k: int)
    ensures (y + 400 * k) % 400 == y % 400
  {
    assert y + 400 * k == 400 * (y / 400 + k) + y % 400;
  }

  lemma LeapIsPeriodic(y: int, k: int)
    ensures IsLeap(y + 400 * k) == IsLeap(y)
  {
    Shifted4(y, 100 * k);
    Shifted100(y, 4 * k);
    Shifted400(y, k);
  }

  lemma YearLengthInEra(y: int)
    ensures YearLength(y) == YearLength(y % 400)
  {
    LeapIsPeriodic(y % 400 + 1, y / 400);
  }

  lemma EraOf(era: int, doe: int)
    requires 0 <= doe < 146_097
    ensures (era * 146_097 + doe) / 146_097 == era && (era * 146_097 + doe) % 146_097 == doe
  {
  }

  /** The era and the day of the era of a day count, apart from what they are made of. */
  lemma MarchDayIn(n: int, era: int, doe: int, yoe: int, doy: int)
    requires 0 <= doe < 146_097 && n + 719_468 == era * 146_097 + doe
    requires YearOfEra(doe) == yoe && doe - YearStart(yoe) == doy
    ensures MarchDay(n) == (yoe + era * 400, doy)
  {
    EraOf(era, doe);
    assert (n + 719_468) / 146_097 == era && (n + 719_468) % 146_097 == doe;
  }

  lemma MarchDayOf(n: int, era: int, yoe: int, doy: int)
    requires 0 <= yoe < 400 && 0 <= doy < YearLength(yoe)
    requires n + 719_468 == era * 146_097 + YearStart(yoe) + doy
    ensures MarchDay(n) == (yoe + era * 400, doy)
  {
    YearOfEraIsExact(yoe, doy);
    MarchDayIn(n, era, YearStart(yoe) + doy, yoe, doy);
  }

  /** Days of March-based years and day numbers correspond one to one, the whole era round. */
  lemma DayNumberToMarchDay(y: int, doy: int)
    requires 0 <= doy < YearLength(y)
    ensures MarchDay(DayNumber(y, doy)) == (y, doy)
  {
    YearLengthInEra(y);
    MarchDayOf(DayNumber(y, doy), y / 400, y % 400, doy);
  }

  /** The day number of a year given by its era and its place in it. */
  lemma DayNumberIn(era: int, yoe: int, doy: int)
    requires 0 <= yoe < 400
    ensures DayNumber(yoe + era * 400, doy) == era * 146_097 + YearStart(yoe) + doy - 719_468
  {
    var y := yoe + era * 400;
    assert y / 400 == era && y % 400 == yoe;
  }

  lemma YearLengthIn(era: int, yoe: int)
    ensures YearLength(yoe + era * 400) == YearLength(yoe)
  {
    LeapIsPeriodic(yoe + 1, era);
    assert yoe + era * 400 + 1 == yoe + 1 + 400 * era;
  }

  lemma MarchDayToDayNumber(n: int)
    ensures var (y, doy) := MarchDay(n);
            0 <= doy < YearLength(y) && DayNumber(y, doy) == n
  {
    var era, doe := (n + 719_468) / 146_097, (n + 719_468) % 146_097;
    YearOfEraLocates(doe);
    var yoe := YearOfEra(doe);
    MarchDayIn(n, era, doe, yoe, doe - YearStart(yoe));
    YearLengthIn(era, yoe);
    DayNumberIn(era, yoe, doe - YearStart(yoe));
  }

  // ---- Main results ----

  /** Formatting undoes `days_from_civil` on every valid calendar date of every year. */
  lemma DateRoundTrip(d: Date)
    requires ValidDate(d)
    ensures CivilFromDays(DaysFromCivil(d)) == d
  {
    DateToDayOfYear(d);
    DayNumberToMarchDay(MarchYear(d.year, d.month), DayOfYear(d.month, d.day));
  }

  /** Every day count gives a valid calendar date, and that date maps back to the count. */
  lemma DayRoundTrip(n: int)
    ensures ValidDate(CivilFromDays(n)) && DaysFromCivil(CivilFromDays(n)) == n
  {
    MarchDayToDayNumber(n);
    var (y, doy) := MarchDay(n);
    DayOfYearToDate(y, doy);
  }

  lemma NextDayOfYear(y: int, doy: int)
    ensures DayNumber(y, doy + 1) == DayNumber(y, doy) + 1
  {
  }

  /** The last day of a month and the first of the next, in March-based terms. */
  lemma MonthTurns(d: Date)
    requires ValidDate(d) && d.day == DaysInMonth(d.year, d.month)
    ensures var y, e := MarchYear(d.year, d.month), NextDate(d);
            if d.month == 2 then DayOfYear(2, d.day) + 1 == YearLength(y) && MarchYear(e.year, e.month) == y + 1 && DayOfYear(e.month, e.day) == 0
            else MarchYear(e.year, e.month) == y && DayOfYear(e.month, e.day) == DayOfYear(d.month, d.day) + 1
  {
    MonthsTileTheYear(MarchYear(d.year, d.month), MarchMonth(d.month));
  }

  /** Consecutive calendar dates, in any year, are exactly one day apart. */
  lemma NextDateIsNextDay(d: Date)
    requires ValidDate(d)
    ensures ValidDate(NextDate(d)) && DaysFromCivil(NextDate(d)) == DaysFromCivil(d) + 1
  {
    var y := MarchYear(d.year, d.month);
    NextDayOfYear(y, DayOfYear(d.month, d.day));
    if d.day == DaysInMonth(d.year, d.month) {
      MonthTurns(d);
      if d.month == 2 {
        YearEnds(y);
      }
    } else {
      assert DayOfYear(d.month, d.day + 1) == DayOfYear(d.month, d.day) + 1;
    }
  }

  lemma YearEnds(y: int)
    ensures DayNumber(y, YearLength(y)) == DayNumber(y + 1, 0)
  {
    YearLengthInEra(y);
    YearsTileTheEra(y % 400);
    YearTurns(y);
  }

  lemma YearTurns(y: int)
    ensures (y + 1) / 400 == (if y % 400 == 399 then y / 400 + 1 else y / 400)
    ensures (y + 1) % 400 == (if y % 400 == 399 then 0 else y % 400 + 1)
  {
  }

  /** Two inverse conversions, under which the next date is the next day. */
  ghost predicate StepTogether(civil: int -> Date, days: Date -> int) {
    && (forall k {:trigger days(civil(k))} :: ValidDate(civil(k)) && days(civil(k)) == k)
    && (forall d {:trigger civil(days(d))} :: ValidDate(d) ==> civil(days(d)) == d)
    && (forall d {:trigger days(NextDate(d))} ::
         ValidDate(d) ==> ValidDate(NextDate(d)) && days(NextDate(d)) == days(d) + 1)
  }

  lemma {:induction false} StepsAreTheCalendar(civil: int -> Date, days: Date -> int, n: nat)
    requires civil(0) == Date(1970, 1, 1)
    requires StepTogether(civil, days)
    ensures civil(n) == NthDate(n)
  {
    if n > 0 {
      StepsAreTheCalendar(civil, days, n - 1);
      var d := civil(n - 1);
      assert days(d) == n - 1;
      assert days(NextDate(d)) == n;
      assert civil(days(NextDate(d))) == NextDate(d);
    }
  }

  lemma TheEpoch()
    ensures CivilFromDays(0) == Date(1970, 1, 1)
  {
    MarchDayOf(0, 4, 369, 306);
  }

  /** The formatter's closed form is the calendar itself, turned `n` times from the epoch. */
  lemma CivilFromDaysIsTheCalendar(n: nat)
    ensures CivilFromDays(n) == NthDate(n)
  {
    var civil, days := (k: int) => CivilFromDays(k), (d: Date) => DaysFromCivil(d);
    TheEpoch();
    forall k
      ensures ValidDate(civil(k)) && days(civil(k)) == k
    {
      DayRoundTrip(k);
    }
    forall d | ValidDate(d)
      ensures civil(days(d)) == d
    {
      DateRoundTrip(d);
    }
    forall d | ValidDate(d)
      ensures ValidDate(NextDate(d)) && days(NextDate(d)) == days(d) + 1
    {
      NextDateIsNextDay(d);
    }
    StepsAreTheCalendar(civil, days, n);
  }

  /** The printed stamp names the minute that holds the instant; before the epoch it is the epoch. */
  lemma StampNamesItsMinute(secs: int)
    ensures var t := UtcStamp(secs);
            && ValidDate(t.date) && 0 <= t.hour < 24 && 0 <= t.minute < 60
            && var at := DaysFromCivil(t.date) * 86_400 + t.hour * 3_600 + t.minute * 60;
               if secs < 0 then at == 0 else at <= secs < at + 60
  {
    DayRoundTrip((if secs < 0 then 0 else secs) / 86_400);
  }
}
