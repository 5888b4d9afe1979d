/**
 The build stamp of the Rust crate: epoch seconds to a Gregorian date and time in
 closed form, and the ISO 8601 text printed from it.

 The closed form is proved against a calendar that only counts: the month table of
 section 5.7 of RFC 3339 and the leap rule of its Appendix C.
 */
module Calendar {

  // ---------- Machine integers ----------

  type i64 = x: int | -0x8000_0000_0000_0000 <= x <= 0x7fff_ffff_ffff_ffff
  type u64 = x: int | 0 <= x <= 0xffff_ffff_ffff_ffff
  type u32 = x: int | 0 <= x <= 0xffff_ffff

  /** Rust's `/` on signed integers rounds toward zero; Dafny's rounds down for a positive divisor. */
  function TruncDiv(a: int, b: int): int
    requires b > 0
  {
    if a >= 0 then a / b else -(-a / b)
  }

  /** `u as i64`: two's complement reinterpretation. */
  function AsI64(u: u64): i64 {
    if u <= 0x7fff_ffff_ffff_ffff then u else u - 0x1_0000_0000_0000_0000
  }

  /** The cast keeps the value modulo 2^64, so it is the only i64 with those bits. */
  lemma CastKeepsBits(u: u64)
    ensures AsI64(u) % 0x1_0000_0000_0000_0000 == u
  {
  }

  // ---------- The reference calendar ----------

  datatype Date = Date(year: int, month: int, day: int)

  datatype DateTime = DateTime(date: Date, hour: int, minute: int, second: int)

  predicate IsLeap(y: int) {
    y % 4 == 0 && (y % 100 != 0 || y % 400 == 0)
  }

  function DaysInMonth(y: int, m: int): int {
    if m == 2 then (if IsLeap(y) then 29 else 28)
    else if m in {4, 6, 9, 11} then 30
    else 31
  }

  function DaysInYear(y: int): int {
    if IsLeap(y) then 366 else 365
  }

  predicate ValidDate(d: Date) {
    1 <= d.month <= 12 && 1 <= d.day <= DaysInMonth(d.year, d.month)
  }

  predicate ValidDateTime(t: DateTime) {
    ValidDate(t.date) && 0 <= t.hour < 24 && 0 <= t.minute < 60 && 0 <= t.second < 60
  }

  const EPOCH := Date(1970, 1, 1)

  /** The following day, by the month table. */
  function NextDay(d: Date): Date
    requires ValidDate(d)
  {
    if d.day < DaysInMonth(d.year, d.month) then Date(d.year, d.month, d.day + 1)
    else if d.month < 12 then Date(d.year, d.month + 1, 1)
    else Date(d.year + 1, 1, 1)
  }

  /** The preceding day, by the month table. */
  function PrevDay(d: Date): Date
    requires ValidDate(d)
  {
    if d.day > 1 then Date(d.year, d.month, d.day - 1)
    else if d.month > 1 then Date(d.year, d.month - 1, DaysInMonth(d.year, d.month - 1))
    else Date(d.year - 1, 12, 31)
  }

  /** The date reached from 1970-01-01 by walking `n` days, backward when `n` is negative. */
  function WalkDays(n: int): (d: Date)
    ensures ValidDate(d)
    decreases if n < 0 then -n else n
  {
    if n == 0 then EPOCH
    else if n > 0 then NextDay(WalkDays(n - 1))
    else PrevDay(WalkDays(n + 1))
  }

  /** Days from 1970-01-01 to January 1 of year `y`, adding up year lengths. */
  function YearStart(y: int): int
    decreases if y < 1970 then 1970 - y else y - 1970
  {
    if y == 1970 then 0
    else if y > 1970 then YearStart(y - 1) + DaysInYear(y - 1)
    else YearStart(y + 1) - DaysInYear(y)
  }

  /** Days of year `y` before month `m`, adding up month lengths. */
  function MonthStart(y: int, m: nat): int {
    if m <= 1 then 0 else MonthStart(y, m - 1) + DaysInMonth(y, m - 1)
  }

  /** The number of days from 1970-01-01 to `d`. */
  function DayNumber(d: Date): int
    requires d.month >= 0
  {
    YearStart(d.year) + MonthStart(d.year, d.month) + d.day - 1
  }

  /** The number of seconds from 1970-01-01T00:00:00Z to `t`. */
  function SecondNumber(t: DateTime): int
    requires t.date.month >= 0
  {
    DayNumber(t.date) * 86_400 + t.hour * 3_600 + t.minute * 60 + t.second
  }

  // ---------- Facts about the reference calendar ----------

  /** Stepping past `y` crosses a multiple of 4, 100 or 400 exactly when `y` is one. */
  lemma DivisionStep(y: int, k: int)
    requires k == 4 || k == 100 || k == 400
    ensures y / k == (y - 1) / k + if y % k == 0 then 1 else 0
  {
  }

  /** A multiple of a multiple is a multiple. */
  lemma MultipleOf(y: int, k: int, q: int)
    requires k == 4 || k == 100
    requires y == k * q
    ensures y % k == 0
  {
    assert if k == 4 then y == 4 * q else y == 100 * q;
  }

  lemma MultiplesNest(y: int)
    ensures y % 400 == 0 ==> y % 100 == 0
    ensures y % 100 == 0 ==> y % 4 == 0
  {
    if y % 400 == 0 {
      MultipleOf(y, 100, 4 * (y / 400));
    }
    if y % 100 == 0 {
      MultipleOf(y, 4, 25 * (y / 100));
    }
  }

  lemma LeapCount(y: int)
    ensures DaysInYear(y) == 365 + (y / 4 - y / 100 + y / 400) - ((y - 1) / 4 - (y - 1) / 100 + (y - 1) / 400)
  {
    DivisionStep(y, 4);
    DivisionStep(y, 100);
    DivisionStep(y, 400);
    MultiplesNest(y);
  }

  lemma {:induction false} YearStartClosedForm(y: int)
    ensures YearStart(y) == 365 * (y - 1970) + (y - 1) / 4 - (y - 1) / 100 + (y - 1) / 400 - 477
    decreases if y < 1970 then 1970 - y else y - 1970
  {
    if y > 1970 {
      YearStartClosedForm(y - 1);
      LeapCount(y - 1);
    } else if y < 1970 {
      YearStartClosedForm(y + 1);
      LeapCount(y);
    }
  }

  /** `MonthStart` tabulated. */
  lemma MonthStartTable(y: int)
    ensures MonthStart(y, 1) == 0 && MonthStart(y, 2) == 31
    ensures var l := DaysInYear(y) - 365;
            && MonthStart(y, 3) == 59 + l && MonthStart(y, 4) == 90 + l && MonthStart(y, 5) == 120 + l
            && MonthStart(y, 6) == 151 + l && MonthStart(y, 7) == 181 + l && MonthStart(y, 8) == 212 + l
            && MonthStart(y, 9) == 243 + l && MonthStart(y, 10) == 273 + l && MonthStart(y, 11) == 304 + l
            && MonthStart(y, 12) == 334 + l && MonthStart(y, 13) == 365 + l
  {
    assert MonthStart(y, 4) == MonthStart(y, 3) + 31;
    assert MonthStart(y, 7) == MonthStart(y, 6) + 30;
    assert MonthStart(y, 10) == MonthStart(y, 9) + 30;
    assert MonthStart(y, 13) == MonthStart(y, 12) + 31;
  }

  lemma YearStep(y: int)
    ensures YearStart(y + 1) == YearStart(y) + DaysInYear(y)
  {
  }

  lemma DecemberEndsTheYear(y: int)
    ensures MonthStart(y, 12) + 31 == DaysInYear(y)
  {
    MonthStartTable(y);
  }

  /** Stepping to the next day adds one to the day number. */
  lemma NextDayCounts(d: Date)
    requires ValidDate(d)
    ensures ValidDate(NextDay(d)) && DayNumber(NextDay(d)) == DayNumber(d) + 1
  {
    var y, m := d.year, d.month;
    if d.day == DaysInMonth(y, m) {
      if m < 12 {
        assert MonthStart(y, m + 1) == MonthStart(y, m) + DaysInMonth(y, m);
      } else {
        YearStep(y);
        DecemberEndsTheYear(y);
      }
    }
  }

  /** Stepping to the preceding day takes one off. */
  lemma PrevDayCounts(d: Date)
    requires ValidDate(d)
    ensures ValidDate(PrevDay(d)) && DayNumber(PrevDay(d)) == DayNumber(d) - 1
  {
    var y, m := d.year, d.month;
    if d.day == 1 {
      if m > 1 {
        assert MonthStart(y, m) == MonthStart(y, m - 1) + DaysInMonth(y, m - 1);
      } else {
        YearStep(y - 1);
        DecemberEndsTheYear(y - 1);
      }
    }
  }

  /** And the two steps undo each other. */
  lemma StepsUndoEachOther(d: Date)
    requires ValidDate(d)
    ensures ValidDate(NextDay(d)) && PrevDay(NextDay(d)) == d
    ensures ValidDate(PrevDay(d)) && NextDay(PrevDay(d)) == d
  {
  }

  /** A valid date's day number lies inside its year. */
  lemma DayNumberInYear(d: Date)
    requires ValidDate(d)
    ensures YearStart(d.year) <= DayNumber(d) < YearStart(d.year + 1)
  {
    MonthStartTable(d.year);
  }

  lemma {:induction false} YearStartMonotone(a: int, b: int)
    requires a <= b
    ensures YearStart(a) <= YearStart(b)
    decreases b - a
  {
    if a < b {
      YearStartMonotone(a, b - 1);
    }
  }

  lemma {:induction false} MonthStartMonotone(y: int, a: nat, b: nat)
    requires 1 <= a < b
    ensures MonthStart(y, a) + DaysInMonth(y, a) <= MonthStart(y, b)
    decreases b - a
  {
    if a + 1 < b {
      MonthStartMonotone(y, a, b - 1);
    }
  }

  predicate DateBefore(a: Date, b: Date) {
    a.year < b.year || (a.year == b.year && (a.month < b.month || (a.month == b.month && a.day < b.day)))
  }

  /** Counting days preserves the calendar order, so no two valid dates share a day number. */
  lemma DayNumberOrders(a: Date, b: Date)
    requires ValidDate(a) && ValidDate(b)
    ensures DateBefore(a, b) <==> DayNumber(a) < DayNumber(b)
    ensures DayNumber(a) == DayNumber(b) ==> a == b
  {
    if DateBefore(a, b) {
      DateBeforeCounts(a, b);
    } else if a != b {
      DateBeforeCounts(b, a);
    }
  }

  lemma DateBeforeCounts(a: Date, b: Date)
    requires ValidDate(a) && ValidDate(b) && DateBefore(a, b)
    ensures DayNumber(a) < DayNumber(b)
  {
    if a.year < b.year {
      DayNumberInYear(a);
      DayNumberInYear(b);
      YearStartMonotone(a.year + 1, b.year);
    } else if a.month < b.month {
      MonthStartMonotone(a.year, a.month, b.month);
    }
  }

  // ---------- The closed form ----------

  /** Day of era to year of era, as build.rs computes it. */
  function YearOfEra(doe: u64): u64
    requires doe <= 146_096
  {
    (doe - doe / 1_460 + doe / 36_524 - doe / 146_096) / 365
  }

  /** Days of the era before year `yoe` (years starting on March 1). */
  function EraYearStart(yoe: int): int {
    365 * yoe + yoe / 4 - yoe / 100
  }

  /** Year `100c + 4k + r` of an era, and day `t` of it; only leap years have a day 365. */
  predicate InEra(c: int, k: int, r: int, t: int) {
    && 0 <= c <= 3 && 0 <= k <= 24 && 0 <= r <= 3 && 0 <= t <= 365
    && (t == 365 ==> r == 3 && (k < 24 || c == 3))
  }

  lemma CenturyQuotient(c: int, k: int, r: int, t: int)
    requires InEra(c, k, r, t)
    ensures var doe := 36_524 * c + 1_461 * k + 365 * r + t;
            0 <= doe <= 146_096 && doe / 36_524 - doe / 146_096 == c
  {
    var rest := 1_461 * k + 365 * r + t;
    assert 0 <= rest <= 36_524 && (rest == 36_524 ==> c == 3);
  }

  lemma CycleQuotient(c: int, k: int, r: int, t: int) returns (e: int)
    requires InEra(c, k, r, t)
    ensures (36_524 * c + 1_461 * k + 365 * r + t) / 1_460 == 25 * c + k + e
    ensures 0 <= t - e <= 364
  {
    var rest := 24 * c + k + 365 * r + t;
    e := if rest < 1_460 then 0 else 1;
    assert 36_524 * c + 1_461 * k + 365 * r + t == 1_460 * (25 * c + k) + rest;
  }

  /** Write a year of era as 100c + 4k + r; day `t` of it is mapped back to it. */
  lemma YearOfEraAt(c: int, k: int, r: int, t: int)
    requires InEra(c, k, r, t)
    ensures 0 <= 36_524 * c + 1_461 * k + 365 * r + t <= 146_096
    ensures YearOfEra(36_524 * c + 1_461 * k + 365 * r + t) == 100 * c + 4 * k + r
  {
    CenturyQuotient(c, k, r, t);
    var e := CycleQuotient(c, k, r, t);
    var doe, yoe := 36_524 * c + 1_461 * k + 365 * r + t, 100 * c + 4 * k + r;
    assert doe - doe / 1_460 + doe / 36_524 - doe / 146_096 == 365 * yoe + (t - e);
  }

  lemma EraYearStartAt(c: int, k: int, r: int)
    requires InEra(c, k, r, 0)
    ensures EraYearStart(100 * c + 4 * k + r) == 36_524 * c + 1_461 * k + 365 * r
  {
    var yoe := 100 * c + 4 * k + r;
    assert yoe == 4 * (25 * c + k) + r;
    assert yoe / 100 == c && yoe / 4 == 25 * c + k;
  }

  /** Every day of an era is a day of one of its years. */
  lemma SplitEra(doe: int) returns (c: int, k: int, r: int, t: int)
    requires 0 <= doe <= 146_096
    ensures InEra(c, k, r, t) && doe == 36_524 * c + 1_461 * k + 365 * r + t
  {
    c := if doe == 146_096 then 3 else doe / 36_524;
    var inCentury := doe - 36_524 * c;
    assert 0 <= inCentury <= 36_524 && (inCentury == 36_524 ==> c == 3);
    k := inCentury / 1_461;
    var inCycle := inCentury - 1_461 * k;
    r := if inCycle == 1_460 then 3 else inCycle / 365;
    t := inCycle - 365 * r;
  }

  lemma LongYearIsLeap(c: int, k: int)
    requires InEra(c, k, 3, 365)
    ensures IsLeap(100 * c + 4 * k + 4)
  {
    var y := 100 * c + 4 * k + 4;
    assert y == 4 * (25 * c + k + 1);
    assert y % 100 == if k == 24 then 0 else 4 * k + 4;
  }

  /** The year of era found is the one whose days contain `doe`. */
  lemma YearOfEraBrackets(doe: u64)
    requires doe <= 146_096
    ensures 0 <= YearOfEra(doe) <= 399
    ensures 0 <= doe - EraYearStart(YearOfEra(doe)) <= 365
    ensures doe - EraYearStart(YearOfEra(doe)) == 365 ==> IsLeap(YearOfEra(doe) + 1)
  {
    var c, k, r, t := SplitEra(doe);
    YearOfEraAt(c, k, r, t);
    EraYearStartAt(c, k, r);
    if t == 365 {
      LongYearIsLeap(c, k);
    }
  }

  /** The truncating formula for the era is floor division, on both sides of zero. */
  lemma EraIsFloor(z: int, era: int)
    requires era == if z >= 0 then TruncDiv(z, 146_097) else TruncDiv(z - 146_096, 146_097)
    ensures era == z / 146_097
    ensures 0 <= z - era * 146_097 <= 146_096
  {
  }

  /**
   Days since 1970-01-01 to a date. Here and in `CivilInEra` every intermediate value carries the
   Rust type it has there, so the absence of overflow and of unsigned underflow is part of what is proved.
   */
  function CivilFromDays(days: i64): (d: Date)
    requires -106_751_991_167_301 <= days <= 106_751_991_167_300
    ensures ValidDate(d)
    ensures DayNumber(d) == days
  {
    var z: i64 := days + 719_468;
    var era: i64 := if z >= 0 then TruncDiv(z, 146_097) else TruncDiv(z - 146_096, 146_097);
    EraIsFloor(z, era);
    var doe: u64 := z - era * 146_097;
    CivilInEra(era, doe)
  }

  /** The second half: a day of an era to a date. */
  function CivilInEra(era: i64, doe: u64): (d: Date)
    requires -1_000_000_000 <= era <= 1_000_000_000 && doe <= 146_096
    ensures ValidDate(d)
    ensures DayNumber(d) == era * 146_097 + doe - 719_468
  {
    var yoe: u64 := YearOfEra(doe);
    YearOfEraBrackets(doe);
    var y: i64 := yoe + era * 400;
    var doy: u64 := doe - (365 * yoe + yoe / 4 - yoe / 100);
    MarchYearIsCalendarYear(era, yoe, doy);
    LinearMonth(doy);
    var mp: u64 := (5 * doy + 2) / 153;
    var day: u32 := doy - (153 * mp + 2) / 5 + 1;
    var month: u32 := if mp < 10 then mp + 3 else mp - 9;
    var year: i64 := if month <= 2 then y + 1 else y;
    Date(year, month, day)
  }

  /** Days of a March-based year before its month `mp`, by the linear formula. */
  function MarchMonthStart(mp: int): int {
    (153 * mp + 2) / 5
  }

  /** The linear formulas for the month and its first day bracket every day of the year. */
  lemma LinearMonth(doy: int)
    requires 0 <= doy <= 365
    ensures var mp := (5 * doy + 2) / 153;
            0 <= mp <= 11 && MarchMonthStart(mp) <= doy && (mp < 11 ==> doy < MarchMonthStart(mp + 1))
  {
  }

  /** The linear formula is the month table, from March on. */
  lemma LinearMonthIsTable(y: int, mp: int)
    requires 0 <= mp <= 11
    ensures mp < 10 ==> MonthStart(y, mp + 3) == DaysInYear(y) - 306 + MarchMonthStart(mp)
    ensures mp < 10 ==> DaysInMonth(y, mp + 3) == MarchMonthStart(mp + 1) - MarchMonthStart(mp)
    ensures mp >= 10 ==> MonthStart(y + 1, mp - 9) == MarchMonthStart(mp) - 306
    ensures mp == 10 ==> DaysInMonth(y + 1, mp - 9) == MarchMonthStart(mp + 1) - MarchMonthStart(mp)
  {
    MonthStartTable(y);
    MonthStartTable(y + 1);
  }

  /** Day `doy` of the year that starts on March 1 of `y`. */
  function MarchDate(y: int, doy: int): Date {
    var mp := (5 * doy + 2) / 153;
    var month := if mp < 10 then mp + 3 else mp - 9;
    Date(if month <= 2 then y + 1 else y, month, doy - MarchMonthStart(mp) + 1)
  }

  lemma MarchDateCounts(y: int, doy: int)
    requires 0 <= doy <= 365 && (doy == 365 ==> IsLeap(y + 1))
    ensures ValidDate(MarchDate(y, doy)) && DayNumber(MarchDate(y, doy)) == YearStart(y + 1) - 306 + doy
  {
    var mp := (5 * doy + 2) / 153;
    LinearMonth(doy);
    LinearMonthIsTable(y, mp);
    YearStep(y);
    assert MarchMonthStart(11) == 337;
  }

  /** Day `doy` of the March-based year `yoe` of an era is the date the linear month formula names. */
  lemma MarchYearIsCalendarYear(era: int, yoe: int, doy: int)
    requires 0 <= yoe <= 399 && 0 <= doy <= 365
    requires doy == 365 ==> IsLeap(yoe + 1)
    ensures var mp := (5 * doy + 2) / 153;
            var month := if mp < 10 then mp + 3 else mp - 9;
            var y := yoe + era * 400;
            var d := Date(if month <= 2 then y + 1 else y, month, doy - (153 * mp + 2) / 5 + 1);
            && ValidDate(d)
            && DayNumber(d) == era * 146_097 + EraYearStart(yoe) + doy - 719_468
  {
    var y := yoe + era * 400;
    EraShift(era, yoe);
    MarchDateCounts(y, doy);
    YearStartClosedForm(y + 1);
  }

  /** Moving by whole eras changes no divisibility by 4, 100 or 400. */
  lemma EraShift(era: int, yoe: int)
    requires 0 <= yoe <= 399
    ensures var y := yoe + era * 400;
            && y / 4 == yoe / 4 + 100 * era && y / 100 == yoe / 100 + 4 * era && y / 400 == era
            && (IsLeap(y + 1) <==> IsLeap(yoe + 1))
  {
    var y := yoe + era * 400;
    assert y / 4 == yoe / 4 + 100 * era;
    assert y / 100 == yoe / 100 + 4 * era;
    SameRemainder(yoe + 1, era, 4, 100);
    SameRemainder(yoe + 1, era, 100, 4);
    SameRemainder(yoe + 1, era, 400, 1);
  }

  lemma SameRemainder(x: int, era: int, k: int, n: int)
    requires (k == 4 && n == 100) || (k == 100 && n == 4) || (k == 400 && n == 1)
    ensures (x + era * 400) % k == x % k
  {
    assert x + era * 400 == x + (era * n) * k;
    assert (x + era * 400) / k == x / k + era * n;
  }

  // ---------- Seconds ----------

  /** `epoch_to_ymd_hms`: total on i64. */
  function EpochToYmdHms(secs: i64): (t: DateTime)
    ensures ValidDateTime(t)
    ensures SecondNumber(t) == secs
  {
    var days: i64 := secs / 86_400;
    var remainder: i64 := secs % 86_400;
    var hour: u32 := remainder / 3_600;
    var minute: u32 := (remainder % 3_600) / 60;
    var second: u32 := remainder % 60;
    TimeOfDay(remainder);
    DateTime(CivilFromDays(days), hour, minute, second)
  }

  lemma TimeOfDay(r: int)
    requires 0 <= r < 86_400
    ensures 0 <= r / 3_600 < 24 && 0 <= (r % 3_600) / 60 < 60
    ensures r == r / 3_600 * 3_600 + (r % 3_600) / 60 * 60 + r % 60
  {
    assert r % 60 == (r % 3_600) % 60;
  }

  predicate TimeBefore(a: DateTime, b: DateTime) {
    || DateBefore(a.date, b.date)
    || (a.date == b.date && (a.hour < b.hour
        || (a.hour == b.hour && (a.minute < b.minute || (a.minute == b.minute && a.second < b.second)))))
  }

  /** The second count preserves calendar order, so it is injective on valid date-times. */
  lemma SecondNumberOrders(a: DateTime, b: DateTime)
    requires ValidDateTime(a) && ValidDateTime(b)
    ensures TimeBefore(a, b) <==> SecondNumber(a) < SecondNumber(b)
    ensures SecondNumber(a) == SecondNumber(b) ==> a == b
  {
    DayNumberOrders(a.date, b.date);
    DayNumberOrders(b.date, a.date);
  }

  /** Every valid date-time whose count fits an i64 is the image of that count and of no other. */
  lemma EpochIsABijection(t: DateTime, secs: i64)
    requires ValidDateTime(t)
    ensures EpochToYmdHms(secs) == t <==> SecondNumber(t) == secs
  {
    if SecondNumber(t) == secs {
      SecondNumberOrders(EpochToYmdHms(secs), t);
    }
  }

  /** A day of seconds is one day of the calendar, with the time of day untouched. */
  lemma AddOneDay(secs: int)
    requires -0x8000_0000_0000_0000 <= secs && secs + 86_400 <= 0x7fff_ffff_ffff_ffff
    ensures var t := EpochToYmdHms(secs);
            EpochToYmdHms(secs + 86_400) == t.(date := NextDay(t.date))
  {
    OneDayLater(EpochToYmdHms(secs), EpochToYmdHms(secs + 86_400));
  }

  lemma OneDayLater(t: DateTime, u: DateTime)
    requires ValidDateTime(t) && ValidDateTime(u) && SecondNumber(u) == SecondNumber(t) + 86_400
    ensures u == t.(date := NextDay(t.date))
  {
    NextDaySeconds(t);
    SecondNumberOrders(t.(date := NextDay(t.date)), u);
  }

  lemma NextDaySeconds(t: DateTime)
    requires ValidDateTime(t)
    ensures ValidDateTime(t.(date := NextDay(t.date)))
    ensures SecondNumber(t.(date := NextDay(t.date))) == SecondNumber(t) + 86_400
  {
    NextDayCounts(t.date);
  }

  lemma {:induction false} WalkDaysCounts(n: int)
    ensures DayNumber(WalkDays(n)) == n
    decreases if n < 0 then -n else n
  {
    if n == 0 {
      assert DayNumber(EPOCH) == 0;
    } else if n > 0 {
      var d := WalkDays(n - 1);
      assert DayNumber(d) == n - 1 by { WalkDaysCounts(n - 1); }
      assert DayNumber(NextDay(d)) == n by { NextDayCounts(d); }
      assert WalkDays(n) == NextDay(d);
    } else {
      var d := WalkDays(n + 1);
      assert DayNumber(d) == n + 1 by { WalkDaysCounts(n + 1); }
      assert DayNumber(PrevDay(d)) == n by { PrevDayCounts(d); }
      assert WalkDays(n) == PrevDay(d);
    }
  }

  /** The closed form names the date reached by walking the calendar day by day, either way. */
  lemma ClosedFormIsWalking(secs: i64)
    ensures EpochToYmdHms(secs).date == WalkDays(secs / 86_400)
  {
    var d := EpochToYmdHms(secs).date;
    WalkDaysCounts(secs / 86_400);
    DayNumberOrders(d, WalkDays(secs / 86_400));
  }
}
