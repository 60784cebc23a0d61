/** Civil dates (`days_from_civil`, `civil_from_days` in
    `backend/src/modules/calendar.rs`) against a day-by-day Gregorian calendar. */
module Civil {
  datatype Date = Date(year: int, month: int, day: int)

  // -- the closed forms of the source ------------------------------------------

  function DaysFromCivil(year: int, month: int, day: int): int {
    var year := if month <= 2 then year - 1 else year;
    var era := year / 400;
    var yoe := year - era * 400;
    var mp := (month + 9) % 12;
    var doy := (153 * mp + 2) / 5 + day - 1;
    var doe := yoe * 365 + yoe / 4 - yoe / 100 + doy;
    era * 146_097 + doe - 719_468
  }

  function CivilFromDays(days: int): Date {
    var z := days + 719_468;
    var era := z / 146_097;
    var doe := z - era * 146_097;
    var yoe := (doe - doe / 1460 + doe / 36_524 - doe / 146_096) / 365;
    var doy := doe - (365 * yoe + yoe / 4 - yoe / 100);
    var mp := (5 * doy + 2) / 153;
    var day := doy - (153 * mp + 2) / 5 + 1;
    var month := if mp < 10 then mp + 3 else mp - 9;
    Date(if month <= 2 then yoe + era * 400 + 1 else yoe + era * 400, month, day)
  }

  // -- the calendar ------------------------------------------------------------

  predicate IsLeap(year: int) {
    year % 4 == 0 && (year % 100 != 0 || year % 400 == 0)
  }

  function YearLength(year: int): int {
    if IsLeap(year) then 366 else 365
  }

  function MonthLength(year: int, month: int): int {
    if month == 2 then (if IsLeap(year) then 29 else 28)
    else if month == 4 || month == 6 || month == 9 || month == 11 then 30
    else 31
  }

  predicate ValidDate(d: Date) {
    1 <= d.month <= 12 && 1 <= d.day <= MonthLength(d.year, d.month)
  }

  /** Days from 1970-01-01 to January 1st of a year, year by year. */
  function DaysToYear(year: int): int
    decreases if year < 1970 then 1970 - year else year - 1970
  {
    if year == 1970 then 0
    else if year > 1970 then DaysToYear(year - 1) + YearLength(year - 1)
    else DaysToYear(year + 1) - YearLength(year)
  }

  /** Days of a year before a month, month by month. */
  function DaysToMonth(year: int, month: int): int
    requires 1 <= month <= 12
    decreases month
  {
    if month == 1 then 0 else DaysToMonth(year, month - 1) + MonthLength(year, month - 1)
  }

  function DayCount(d: Date): int
    requires 1 <= d.month <= 12
  {
    DaysToYear(d.year) + DaysToMonth(d.year, d.month) + d.day - 1
  }

  // -- years that start in March -----------------------------------------------

  /** Days of the first `year` years counted from March, leap days included. */
  function MarchYears(year: int): int {
    365 * year + year / 4 - year / 100 + year / 400
  }

  /** The offset of a month in such a year. */
  function MarchOffset(mp: int): int {
    (153 * mp + 2) / 5
  }

  lemma {:induction false} EraForm(year: int)
    ensures var era, yoe := year / 400, year % 400;
            era * 146_097 + yoe * 365 + yoe / 4 - yoe / 100 == MarchYears(year)
  {
    var era, yoe := year / 400, year % 400;
    assert year == 400 * era + yoe;
    assert year / 4 == 100 * era + yoe / 4;
    assert year / 100 == 4 * era + yoe / 100;
  }

  lemma ClosedForm(year: int, month: int, day: int)
    requires 1 <= month <= 12
    ensures var y := if month <= 2 then year - 1 else year;
            DaysFromCivil(year, month, day) == MarchYears(y) + MarchOffset((month + 9) % 12) + day - 1 - 719_468
  {
    EraForm(if month <= 2 then year - 1 else year);
  }

  lemma {:induction false} MarchYearLength(year: int)
    ensures MarchYears(year) - MarchYears(year - 1) == YearLength(year)
  {
    QuotientStep(year, 4);
    QuotientStep(year, 100);
    QuotientStep(year, 400);
    LeapDay(year);
    hide IsLeap;
  }

  lemma LeapDay(year: int)
    ensures (if year % 4 == 0 then 1 else 0) - (if year % 100 == 0 then 1 else 0) + (if year % 400 == 0 then 1 else 0) ==
            if IsLeap(year) then 1 else 0
  {
    if year % 100 == 0 {
      assert year == 4 * (25 * (year / 100));
    }
    if year % 400 == 0 {
      assert year == 100 * (4 * (year / 400));
    }
  }

  lemma QuotientStep(n: int, d: int)
    requires d == 4 || d == 100 || d == 400
    ensures n / d - (n - 1) / d == if n % d == 0 then 1 else 0
  {
    if d == 4 {
    } else if d == 100 {
    } else {
    }
  }

  lemma {:induction false} DaysToYearClosed(year: int)
    ensures DaysToYear(year) == MarchYears(year - 1) + 306 - 719_468
    decreases if year < 1970 then 1970 - year else year - 1970
  {
    if year > 1970 {
      DaysToYearClosed(year - 1);
      MarchYearLength(year - 1);
    } else if year < 1970 {
      DaysToYearClosed(year + 1);
      MarchYearLength(year);
    }
  }

  /** The March offsets are the months counted one by one. */
  lemma MonthsBefore(year: int, month: int)
    requires 1 <= month <= 12
    ensures DaysToMonth(year, month) ==
            MarchOffset((month + 9) % 12) + if month <= 2 then -306 else 59 + if IsLeap(year) then 1 else 0
  {
    assert DaysToMonth(year, 1) == 0;
    assert DaysToMonth(year, 2) == 31;
    if month > 2 {
      MonthsFromMarch(year, month);
      assert (month + 9) % 12 == month - 3;
    }
  }

  lemma {:induction false} MonthsFromMarch(year: int, month: int)
    requires 3 <= month <= 12
    ensures DaysToMonth(year, month) == MarchOffset(month - 3) + 59 + if IsLeap(year) then 1 else 0
    decreases month
  {
    if month == 3 {
      assert DaysToMonth(year, 1) == 0;
      assert DaysToMonth(year, 2) == 31;
    } else {
      MonthsFromMarch(year, month - 1);
    }
  }

  // -- main results ------------------------------------------------------------

  /** The closed form counts days: for every year, and even for days past the end of
      the month, which it carries over. */
  lemma DaysFromCivilCounts(d: Date)
    requires 1 <= d.month <= 12
    ensures DaysFromCivil(d.year, d.month, d.day) == DayCount(d)
  {
    ClosedForm(d.year, d.month, d.day);
    DaysToYearClosed(d.year);
    MonthsBefore(d.year, d.month);
    MarchYearLength(d.year);
  }

  /** Position in a 400-year era: centuries, leap cycles, years and days. */
  lemma EraParts(doe: int) returns (c: int, q: int, t: int, u: int)
    requires 0 <= doe <= 146_096
    ensures 0 <= c <= 3 && 0 <= q <= 24 && 0 <= t <= 3 && 0 <= u <= 365
    ensures doe == 36_524 * c + 1461 * q + 365 * t + u
    ensures u == 365 ==> t == 3 && (q < 24 || c == 3)
  {
    c := if doe == 146_096 then 3 else doe / 36_524;
    var r := doe - 36_524 * c;
    q := r / 1461;
    var s := r - 1461 * q;
    t := if s == 1460 then 3 else s / 365;
    u := s - 365 * t;
  }

  lemma {:induction false} YearOfEra(doe: int, c: int, q: int, t: int, u: int)
    requires 0 <= doe <= 146_096
    requires 0 <= c <= 3 && 0 <= q <= 24 && 0 <= t <= 3 && 0 <= u <= 365
    requires doe == 36_524 * c + 1461 * q + 365 * t + u
    requires u == 365 ==> t == 3 && (q < 24 || c == 3)
    ensures (doe - doe / 1460 + doe / 36_524 - doe / 146_096) / 365 == 100 * c + 4 * q + t
  {
    var spill := if 24 * c + q + 365 * t + u >= 1460 then 1 else 0;
    assert doe / 1460 == 25 * c + q + spill;
    assert doe / 36_524 - doe / 146_096 == c;
    assert doe - doe / 1460 + c == 365 * (100 * c + 4 * q + t) + (u - spill);
    assert 0 <= u - spill < 365;
  }

  lemma YearStart(c: int, q: int, t: int)
    requires 0 <= c <= 3 && 0 <= q <= 24 && 0 <= t <= 3
    ensures var yoe := 100 * c + 4 * q + t;
            365 * yoe + yoe / 4 - yoe / 100 == 36_524 * c + 1461 * q + 365 * t
  {
    var yoe := 100 * c + 4 * q + t;
    assert yoe / 4 == 25 * c + q;
    assert yoe / 100 == c;
  }

  /** A day of a March year splits into a month and a day of that month, in range. */
  lemma MonthOfDay(doy: int)
    requires 0 <= doy <= 365
    ensures var mp := (5 * doy + 2) / 153;
            && 0 <= mp <= 11
            && MarchOffset(mp) <= doy
            && (mp < 11 ==> doy < MarchOffset(mp + 1))
  {
  }

  lemma LeapOfParts(era: int, c: int, q: int, t: int)
    requires 0 <= c <= 3 && 0 <= q <= 24 && 0 <= t <= 3
    ensures IsLeap(400 * era + 100 * c + 4 * q + t + 1) <==> t == 3 && (q < 24 || c == 3)
  {
    var year := 400 * era + 100 * c + 4 * q + t + 1;
    if t < 3 {
      Remainder(year, 4, 100 * era + 25 * c + q, t + 1);
    } else if q < 24 {
      Remainder(year, 4, 100 * era + 25 * c + q + 1, 0);
      Remainder(year, 100, 4 * era + c, 4 * q + 4);
    } else {
      Remainder(year, 4, 100 * era + 25 * c + q + 1, 0);
      Remainder(year, 100, 4 * era + c + 1, 0);
      if c == 3 {
        Remainder(year, 400, era + 1, 0);
      } else {
        Remainder(year, 400, era, 100 * (c + 1));
      }
    }
  }

  lemma Remainder(n: int, d: int, k: int, r: int)
    requires (d == 4 || d == 100 || d == 400) && 0 <= r < d && n == d * k + r
    ensures n % d == r
  {
    if d == 4 {
    } else if d == 100 {
    } else {
    }
  }

  /** The date with offset `offset` in month `mp` of March year `y`. */
  function MarchDate(y: int, mp: int, offset: int): Date {
    Date(if mp < 10 then y else y + 1, if mp < 10 then mp + 3 else mp - 9, offset + 1)
  }

  /** `civil_from_days`, once its year of the era is known. */
  lemma Assembled(days: int, era: int, doe: int, yoe: int, doy: int)
    requires era == (days + 719_468) / 146_097 && doe == days + 719_468 - era * 146_097
    requires yoe == (doe - doe / 1460 + doe / 36_524 - doe / 146_096) / 365
    requires doy == doe - (365 * yoe + yoe / 4 - yoe / 100) && 0 <= doy <= 365
    ensures var mp := (5 * doy + 2) / 153;
            CivilFromDays(days) == MarchDate(yoe + era * 400, mp, doy - MarchOffset(mp))
  {
    MonthOfDay(doy);
  }

  lemma {:induction false} EraOfYear(era: int, yoe: int)
    requires 0 <= yoe < 400
    ensures MarchYears(yoe + era * 400) == era * 146_097 + yoe * 365 + yoe / 4 - yoe / 100
  {
    var y := yoe + era * 400;
    assert y / 400 == era && y % 400 == yoe;
    EraForm(y);
  }

  /** What `civil_from_days` finds: a March year, a month and an offset, in range. */
  lemma {:induction false} CivilParts(days: int) returns (y: int, mp: int, offset: int)
    ensures 0 <= mp <= 11
    ensures days == MarchYears(y) + MarchOffset(mp) + offset - 719_468
    ensures 0 <= offset && (mp < 11 ==> offset < MarchOffset(mp + 1) - MarchOffset(mp))
    ensures MarchOffset(mp) + offset < YearLength(y + 1)
    ensures CivilFromDays(days) == MarchDate(y, mp, offset)
  {
    var era := (days + 719_468) / 146_097;
    var doe := days + 719_468 - era * 146_097;
    var c, q, t, u := EraParts(doe);
    var yoe := 100 * c + 4 * q + t;
    YearOfEra(doe, c, q, t, u);
    YearStart(c, q, t);
    Assembled(days, era, doe, yoe, u);
    LeapOfParts(era, c, q, t);
    MonthOfDay(u);
    EraOfYear(era, yoe);
    y, mp := yoe + era * 400, (5 * u + 2) / 153;
    offset := u - MarchOffset(mp);
  }

  lemma MarchDateCounts(y: int, mp: int, offset: int)
    requires 0 <= mp <= 11
    ensures var d := MarchDate(y, mp, offset);
            && 1 <= d.month <= 12
            && DaysFromCivil(d.year, d.month, d.day) == MarchYears(y) + MarchOffset(mp) + offset - 719_468
  {
    var d := MarchDate(y, mp, offset);
    ClosedForm(d.year, d.month, d.day);
    assert (d.month + 9) % 12 == mp;
  }

  /** Every day number is one valid date, and that date counts back to it. */
  lemma {:induction false} CivilFromDaysIsValid(days: int)
    ensures ValidDate(CivilFromDays(days))
    ensures var d := CivilFromDays(days); DaysFromCivil(d.year, d.month, d.day) == days
  {
    var y, mp, offset := CivilParts(days);
    MarchDateCounts(y, mp, offset);
    MonthFits(y, mp, offset);
  }

  lemma MonthFits(y: int, mp: int, offset: int)
    requires 0 <= mp <= 11 && 0 <= offset
    requires mp < 11 ==> offset < MarchOffset(mp + 1) - MarchOffset(mp)
    requires MarchOffset(mp) + offset < YearLength(y + 1)
    ensures ValidDate(MarchDate(y, mp, offset))
  {
  }

  /** Two March-based dates with the same day number are the same. */
  lemma {:induction false} MarchYearsGrow(a: int, b: int)
    requires a <= b
    ensures MarchYears(b) - MarchYears(a) >= 365 * (b - a)
    decreases b - a
  {
    if a < b {
      MarchYearsGrow(a, b - 1);
      MarchYearLength(b);
    }
  }

  /** Where a valid date lies in its March year. */
  lemma WithinMarchYear(d: Date) returns (y: int, mp: int, offset: int)
    requires ValidDate(d)
    ensures 0 <= mp <= 11 && 0 <= offset && d == MarchDate(y, mp, offset)
    ensures MarchOffset(mp) + offset < YearLength(y + 1)
    ensures mp < 11 ==> offset < MarchOffset(mp + 1) - MarchOffset(mp)
    ensures DaysFromCivil(d.year, d.month, d.day) == MarchYears(y) + MarchOffset(mp) + offset - 719_468
  {
    y, mp := if d.month <= 2 then d.year - 1 else d.year, if d.month <= 2 then d.month + 9 else d.month - 3;
    offset := d.day - 1;
    MarchDateCounts(y, mp, offset);
  }

  /** A position in March years names its year, month and day. */
  lemma {:induction false} SameYear(a: int, i: int, b: int, j: int)
    requires 0 <= i < YearLength(a + 1) && 0 <= j < YearLength(b + 1)
    requires MarchYears(a) + i == MarchYears(b) + j
    ensures a == b
  {
    MarchYearLength(a + 1);
    MarchYearLength(b + 1);
    if a < b {
      MarchYearsGrow(a + 1, b);
    } else if b < a {
      MarchYearsGrow(b + 1, a);
    }
  }

  lemma SameMonth(m: int, i: int, n: int, j: int)
    requires 0 <= m <= 11 && 0 <= n <= 11 && i >= 0 && j >= 0
    requires m < 11 ==> i < MarchOffset(m + 1) - MarchOffset(m)
    requires n < 11 ==> j < MarchOffset(n + 1) - MarchOffset(n)
    requires MarchOffset(m) + i == MarchOffset(n) + j
    ensures m == n && i == j
  {
    assert m < n ==> MarchOffset(m + 1) <= MarchOffset(n);
    assert n < m ==> MarchOffset(n + 1) <= MarchOffset(m);
  }

  lemma {:induction false} DatesAreDistinct(a: Date, b: Date)
    requires ValidDate(a) && ValidDate(b)
    requires DaysFromCivil(a.year, a.month, a.day) == DaysFromCivil(b.year, b.month, b.day)
    ensures a == b
  {
    var ya, ma, i := WithinMarchYear(a);
    var yb, mb, j := WithinMarchYear(b);
    SameYear(ya, MarchOffset(ma) + i, yb, MarchOffset(mb) + j);
    SameMonth(ma, i, mb, j);
  }

  /** The other direction: a valid date comes back from its day number. */
  lemma {:induction false} CivilRoundTrip(d: Date)
    requires ValidDate(d)
    ensures CivilFromDays(DaysFromCivil(d.year, d.month, d.day)) == d
  {
    var days := DaysFromCivil(d.year, d.month, d.day);
    CivilFromDaysIsValid(days);
    DatesAreDistinct(CivilFromDays(days), d);
  }
}
