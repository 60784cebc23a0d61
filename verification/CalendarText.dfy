/** Dates and instants as text (`parse_date` to `parse_rfc3339_ms` in
    `backend/src/modules/calendar.rs`; section 5.6 of RFC 3339). */
module CalendarText {
  import opened Basics
  import opened Text
  import opened Civil

  /** `number`: digits only, and a value that fits an i64. */
  function Number(text: string): Option<int> {
    if text == [] || !AllDigits(text) || NatValue(text) > I64_MAX then None else Some(NatValue(text))
  }

  /** "YYYY-MM-DD". The day is only checked to be at most 31. The sums and products of the
      source wrap; wrapping once at the end comes to the same. */
  function ParseDate(text: string): Option<int> {
    match SplitOnce(text, {'-'})
    case None => None
    case Some((yearText, rest)) =>
      match SplitOnce(rest, {'-'})
      case None => None
      case Some((monthText, dayText)) =>
        match (Number(yearText), Number(monthText), Number(dayText))
        case (Some(year), Some(month), Some(day)) =>
          if 1 <= month <= 12 && 1 <= day <= 31 then Some(WrapI64(DaysFromCivil(year, month, day))) else None
        case _ => None
  }

  const EPOCH_SHIFT: int := 719_468

  /** `civil_from_days` of an i64: shifting the epoch wraps. */
  function CivilFromI64(days: int): Date {
    CivilFromDays(WrapI64(days + EPOCH_SHIFT) - EPOCH_SHIFT)
  }

  function DateText(d: Date): string {
    PaddedInt(d.year, 4) + ['-'] + (PaddedInt(d.month, 2) + ['-'] + PaddedInt(d.day, 2))
  }

  function FormatDate(days: int): string {
    DateText(CivilFromI64(days))
  }

  function FormatClock(seconds: nat): string {
    Padded(seconds / 3600, 2) + [':'] + (Padded(seconds % 3600 / 60, 2) + [':'] + Padded(seconds % 60, 2))
  }

  function FormatRfc3339(epochSeconds: int): string {
    FormatDate(epochSeconds / 86_400) + ['T'] + (FormatClock(epochSeconds % 86_400) + ['Z'])
  }

  function ParseClock(clock: string): Option<int> {
    match SplitOnce(clock, {':'})
    case None => None
    case Some((hourText, rest)) =>
      match SplitOnce(rest, {':'})
      case None => None
      case Some((minuteText, secondText)) =>
        match (Number(hourText), Number(minuteText), Number(secondText))
        case (Some(hour), Some(minute), Some(second)) => Some(hour * 3600 + minute * 60 + second)
        case _ => None
  }

  /** The first three digits of the fraction, padded with zeros. */
  function ParseMillis(fraction: string): Option<int> {
    if fraction == [] then Some(0) else Number((fraction + "000")[..3])
  }

  function ParseOffset(zone: string): Option<int>
    requires zone != []
  {
    if zone == "z" || zone == "Z" then Some(0)
    else
      var sign := if zone[0] == '-' then -1 else 1;
      match SplitOnce(zone[1..], {':'})
      case None => None
      case Some((hours, minutes)) =>
        match (Number(hours), Number(minutes))
        case (Some(h), Some(m)) => Some(sign * (h * 60 + m))
        case _ => None
  }

  const ZONE_MARKS: set<char> := {'Z', 'z', '+', '-'}

  /** The text after the date separator, for a date `days` after the epoch. */
  function ParseTime(days: int, rest: string): Option<int> {
    var zoneAt := FindAny(rest, ZONE_MARKS);
    if zoneAt == |rest| then None
    else
      var split := SplitOnce(rest[..zoneAt], {'.'});
      var clock := ParseClock(if split.Some? then split.value.0 else rest[..zoneAt]);
      var millis := ParseMillis(if split.Some? then split.value.1 else []);
      var offset := ParseOffset(rest[zoneAt..]);
      match (clock, millis, offset)
      case (Some(seconds), Some(ms), Some(minutes)) =>
        Some(WrapI64((days * 86_400 + seconds - minutes * 60) * 1000 + ms))
      case _ => None
  }

  function ParseRfc3339Ms(text: string): Option<int> {
    match SplitOnce(text, {'T', 't'})
    case None => None
    case Some((date, rest)) =>
      match ParseDate(date)
      case None => None
      case Some(days) => ParseTime(days, rest)
  }

  // -- dates -------------------------------------------------------------------

  lemma NumberOfPadded(n: nat, width: nat)
    requires n <= I64_MAX
    ensures AllDigits(Padded(n, width)) && Number(Padded(n, width)) == Some(n)
  {
    PaddedValue(n, width);
  }

  /** The year of an i64 day number is far from the i64 limits. */
  lemma {:induction false} YearFits(days: int)
    requires days <= I64_MAX
    ensures CivilFromDays(days).year <= I64_MAX
  {
    var y, mp, offset := CivilParts(days);
    if y >= 0 {
      MarchYearsAtLeast(y);
    }
    hide CivilFromDays, MarchYears, IsLeap;
  }

  lemma MarchYearsAtLeast(y: int)
    requires y >= 0
    ensures MarchYears(y) >= 365 * y
  {
  }

  /** January 1st of the year 0. */
  const FIRST_DAY: int := -719_528

  lemma {:induction false} YearSign(days: int)
    ensures CivilFromDays(days).year >= 0 <==> days >= FIRST_DAY
  {
    var y, mp, offset := CivilParts(days);
    MonthStart(mp);
    if y >= 0 {
      MarchYearsAtLeast(y);
    } else {
      MarchYearLength(y + 1);
      MarchYearsGrow(y + 1, 0);
    }
    hide CivilFromDays, MarchYears, IsLeap, MarchOffset;
    assert MarchYears(-1) == -366 && MarchYears(0) == 0 by {
      YearZero();
    }
    if y <= -2 {
      MarchYearsGrow(y + 1, -1);
    }
  }

  lemma YearZero()
    ensures MarchYears(-1) == -366 && MarchYears(0) == 0
  {
  }

  lemma MonthStart(mp: int)
    requires 0 <= mp <= 11
    ensures mp >= 10 ==> MarchOffset(mp) >= 306
    ensures mp <= 9 ==> MarchOffset(mp + 1) <= 306
    ensures MarchOffset(mp) >= 0
  {
  }

  lemma WrapInside(n: int)
    requires IsI64(n)
    ensures WrapI64(n) == n
  {
  }

  lemma WrapAbove(n: int)
    requires I64_MAX < n <= I64_MAX + EPOCH_SHIFT
    ensures WrapI64(n) == n - 0x1_0000_0000_0000_0000
  {
  }

  /** Every i64 day is printed with its date, but for the last ones, where the shift wraps
      and a date long before the year 0 comes out. */
  lemma {:induction false} PrintedDate(days: int)
    requires IsI64(days)
    ensures days <= I64_MAX - EPOCH_SHIFT ==> CivilFromI64(days) == CivilFromDays(days)
    ensures CivilFromI64(days).year >= 0 <==> FIRST_DAY <= days <= I64_MAX - EPOCH_SHIFT
    ensures CivilFromI64(days).year <= I64_MAX && ValidDate(CivilFromI64(days))
  {
    hide CivilFromDays, WrapI64, ValidDate;
    var shown := WrapI64(days + EPOCH_SHIFT) - EPOCH_SHIFT;
    if days <= I64_MAX - EPOCH_SHIFT {
      WrapInside(days + EPOCH_SHIFT);
    } else {
      WrapAbove(days + EPOCH_SHIFT);
    }
    YearSign(shown);
    YearFits(shown);
    CivilFromDaysIsValid(shown);
  }

  /** A printed date parses back exactly for the years RFC 3339 can write, as far as the
      shift does not wrap; a negative year prints a sign that the parser takes for a
      separator. */
  lemma {:induction false} ParseOfFormatDate(days: int)
    requires IsI64(days)
    ensures ParseDate(FormatDate(days)) == if FIRST_DAY <= days <= I64_MAX - EPOCH_SHIFT then Some(days) else None
  {
    var d := CivilFromI64(days);
    PrintedDate(days);
    if d.year >= 0 {
      CivilFromDaysIsValid(days);
      WrapInside(days);
      hide CivilFromI64, CivilFromDays, DaysFromCivil, WrapI64;
      ParseOfDate(d, days);
    } else {
      NegativeYear(d);
    }
  }

  lemma {:induction false} ParseOfDate(d: Date, days: int)
    requires ValidDate(d) && 0 <= d.year <= I64_MAX && WrapI64(DaysFromCivil(d.year, d.month, d.day)) == days
    ensures ParseDate(DateText(d)) == Some(days)
  {
    var year, month, day := PaddedInt(d.year, 4), PaddedInt(d.month, 2), PaddedInt(d.day, 2);
    NumberOfPadded(d.year, 4);
    NumberOfPadded(d.month, 2);
    NumberOfPadded(d.day, 2);
    DigitsFree(year, {'-'});
    DigitsFree(month, {'-'});
    SplitOnceAt(year, '-', month + ['-'] + day, {'-'});
    SplitOnceAt(month, '-', day, {'-'});
    hide Number, Padded, SplitOnce, DaysFromCivil, WrapI64, IsLeap;
  }

  lemma NegativeYear(d: Date)
    requires d.year < 0
    ensures ParseDate(DateText(d)) == None
  {
    var text := DateText(d);
    assert text[0] == '-';
    assert SplitOnce(text, {'-'}).value.0 == [];
  }

  // -- instants ----------------------------------------------------------------

  datatype Zone = Utc(mark: char) | Offset(negative: bool, hours: nat, minutes: nat)

  predicate ValidZone(zone: Zone) {
    match zone
    case Utc(mark) => mark == 'Z' || mark == 'z'
    case Offset(_, hours, minutes) => hours < 100 && minutes < 100
  }

  function ZoneText(zone: Zone): string {
    match zone
    case Utc(mark) => [mark]
    case Offset(negative, hours, minutes) =>
      [if negative then '-' else '+'] + (Padded(hours, 2) + [':'] + Padded(minutes, 2))
  }

  function ZoneMinutes(zone: Zone): int {
    match zone
    case Utc(_) => 0
    case Offset(negative, hours, minutes) => if negative then -(hours * 60 + minutes) else hours * 60 + minutes
  }

  /** Local time with a fraction and a zone, as other programs print it. */
  function PrintInstant(tee: char, local: int, fraction: string, zone: Zone): string {
    FormatDate(local / 86_400) + [tee] + (ClockPart(local % 86_400, fraction) + ZoneText(zone))
  }

  function Millis(fraction: string): nat
    requires AllDigits(fraction)
  {
    if fraction == [] then 0 else NatValue((fraction + "000")[..3])
  }

  /** No character of a printed date, clock or number is a mark of another part. */
  lemma {:induction false} DateFree(days: int)
    requires IsI64(days)
    ensures Free(FormatDate(days), {'T', 't'})
  {
    PrintedDate(days);
    var d := CivilFromI64(days);
    PaddedFree(if d.year < 0 then -d.year else d.year, if d.year < 0 then 3 else 4);
    PaddedFree(d.month, 2);
    PaddedFree(d.day, 2);
    hide CivilFromI64, IsLeap, Padded;
  }

  lemma PaddedFree(n: nat, width: nat)
    ensures Free(Padded(n, width), {'T', 't'})
  {
    PaddedValue(n, width);
    DigitsFree(Padded(n, width), {'T', 't'});
  }

  lemma ParseOfThree(h: nat, m: nat, s: nat)
    requires h <= I64_MAX && m <= I64_MAX && s <= I64_MAX
    ensures ParseClock(Padded(h, 2) + [':'] + (Padded(m, 2) + [':'] + Padded(s, 2))) == Some(h * 3600 + m * 60 + s)
  {
    hide AllDigits, Free, Number, Padded, SplitOnce;
    NumberOfPadded(h, 2);
    NumberOfPadded(m, 2);
    NumberOfPadded(s, 2);
    DigitsFree(Padded(h, 2), {':'});
    DigitsFree(Padded(m, 2), {':'});
    SplitOnceAt(Padded(h, 2), ':', Padded(m, 2) + [':'] + Padded(s, 2), {':'});
    SplitOnceAt(Padded(m, 2), ':', Padded(s, 2), {':'});
  }

  lemma ClockParts(seconds: nat)
    ensures seconds / 3600 * 3600 + seconds % 3600 / 60 * 60 + seconds % 60 == seconds
  {
    assert seconds % 60 == seconds % 3600 % 60;
  }

  lemma ParseOfClock(seconds: nat)
    requires seconds < 86_400
    ensures ParseClock(FormatClock(seconds)) == Some(seconds)
  {
    hide Padded, ParseClock;
    ParseOfThree(seconds / 3600, seconds % 3600 / 60, seconds % 60);
    ClockParts(seconds);
  }

  lemma ClockFree(seconds: nat, chars: set<char>)
    requires forall c | c in chars :: !IsDigit(c) && c != ':'
    ensures Free(FormatClock(seconds), chars)
  {
    PaddedValue(seconds / 3600, 2);
    PaddedValue(seconds % 3600 / 60, 2);
    PaddedValue(seconds % 60, 2);
  }

  lemma ParseOfOffset(sign: char, hours: nat, minutes: nat)
    requires (sign == '+' || sign == '-') && hours <= I64_MAX && minutes <= I64_MAX
    ensures ParseOffset([sign] + (Padded(hours, 2) + [':'] + Padded(minutes, 2))) ==
            Some(if sign == '-' then -(hours * 60 + minutes) else hours * 60 + minutes)
  {
    hide AllDigits, Free, Number, Padded, SplitOnce;
    NumberOfPadded(hours, 2);
    NumberOfPadded(minutes, 2);
    DigitsFree(Padded(hours, 2), {':'});
    SplitOnceAt(Padded(hours, 2), ':', Padded(minutes, 2), {':'});
    var text := [sign] + (Padded(hours, 2) + [':'] + Padded(minutes, 2));
    assert text[1..] == Padded(hours, 2) + [':'] + Padded(minutes, 2);
    assert text[0] == sign;
  }

  lemma ParseOfUtc(mark: char)
    requires mark == 'Z' || mark == 'z'
    ensures ParseOffset([mark]) == Some(0)
  {
  }

  lemma ParseOfZone(zone: Zone)
    requires ValidZone(zone)
    ensures ParseOffset(ZoneText(zone)) == Some(ZoneMinutes(zone))
    ensures ZoneText(zone) != [] && ZoneText(zone)[0] in ZONE_MARKS
  {
    hide Padded, ParseOffset;
    match zone
    case Utc(mark) => ParseOfUtc(mark);
    case Offset(negative, hours, minutes) =>
      var sign := if negative then '-' else '+';
      ParseOfOffset(sign, hours, minutes);
      assert ZoneText(zone)[0] == sign;
  }

  lemma ParseOfMillis(fraction: string)
    requires AllDigits(fraction)
    ensures ParseMillis(fraction) == Some(Millis(fraction))
  {
    if fraction != [] {
      ShortValue((fraction + "000")[..3]);
    }
  }

  lemma ShortValue(s: string)
    requires AllDigits(s) && |s| == 3
    ensures NatValue(s) < 1000
  {
    NatValueConcat([], s);
    assert Pow10(1) == 10 && Pow10(2) == 100 && Pow10(3) == 1000;
  }

  /** The clock and its fraction as one text. */
  function ClockPart(seconds: nat, fraction: string): string {
    FormatClock(seconds) + if fraction == [] then [] else ['.'] + fraction
  }

  lemma ClockPartFree(seconds: nat, fraction: string)
    requires AllDigits(fraction)
    ensures Free(ClockPart(seconds, fraction), ZONE_MARKS)
  {
    ClockFree(seconds, ZONE_MARKS);
  }

  lemma ClockPartSplits(seconds: nat, fraction: string)
    requires AllDigits(fraction)
    ensures SplitOnce(ClockPart(seconds, fraction), {'.'}) ==
            if fraction == [] then None else Some((FormatClock(seconds), fraction))
    ensures fraction == [] ==> ClockPart(seconds, fraction) == FormatClock(seconds)
  {
    var clock := FormatClock(seconds);
    ClockFree(seconds, {'.'});
    if fraction == [] {
      assert clock + [] == clock;
      SplitOnceNone(clock, {'.'});
    } else {
      assert clock + (['.'] + fraction) == clock + ['.'] + fraction;
      SplitOnceAt(clock, '.', fraction, {'.'});
    }
  }

  /** The second half of the text cut at its zone. */
  lemma ZoneSplits(part: string, zone: string)
    requires Free(part, ZONE_MARKS) && zone != [] && zone[0] in ZONE_MARKS
    ensures var n := FindAny(part + zone, ZONE_MARKS);
            n == |part| < |part + zone| && (part + zone)[..n] == part && (part + zone)[n..] == zone
  {
    FindAnyIs(part + zone, ZONE_MARKS, |part|);
  }

  /** Putting the pieces of a time together, whatever their texts are. */
  lemma TimeFromPieces(days: int, part: string, zone: string, clock: string, fraction: string,
                       seconds: int, millis: int, minutes: int)
    requires Free(part, ZONE_MARKS) && zone != [] && zone[0] in ZONE_MARKS
    requires SplitOnce(part, {'.'}) == if fraction == [] then None else Some((clock, fraction))
    requires fraction == [] ==> part == clock
    requires ParseClock(clock) == Some(seconds)
    requires ParseMillis(fraction) == Some(millis)
    requires ParseOffset(zone) == Some(minutes)
    ensures ParseTime(days, part + zone) == Some(WrapI64((days * 86_400 + seconds - minutes * 60) * 1000 + millis))
  {
    ZoneSplits(part, zone);
  }

  lemma ParseOfTime(days: int, seconds: nat, fraction: string, zone: Zone)
    requires seconds < 86_400 && AllDigits(fraction) && ValidZone(zone)
    ensures ParseTime(days, ClockPart(seconds, fraction) + ZoneText(zone)) ==
            Some(WrapI64((days * 86_400 + seconds - ZoneMinutes(zone) * 60) * 1000 + Millis(fraction)))
  {
    hide *;
    ParseOfZone(zone);
    ClockPartFree(seconds, fraction);
    ClockPartSplits(seconds, fraction);
    ParseOfClock(seconds);
    ParseOfMillis(fraction);
    TimeFromPieces(days, ClockPart(seconds, fraction), ZoneText(zone), FormatClock(seconds), fraction,
                   seconds, Millis(fraction), ZoneMinutes(zone));
  }

  lemma InstantFromPieces(date: string, tee: char, rest: string, days: int)
    requires Free(date, {'T', 't'}) && (tee == 'T' || tee == 't') && ParseDate(date) == Some(days)
    ensures ParseRfc3339Ms(date + [tee] + rest) == ParseTime(days, rest)
  {
    SplitOnceAt(date, tee, rest, {'T', 't'});
  }

  /** The first second of the year 0. */
  const FIRST_SECOND: int := FIRST_DAY * 86_400

  /** Every way RFC 3339 writes an instant parses to that instant: any offset, either
      case of the letters, any fraction, cut to milliseconds. An instant whose milliseconds
      do not fit an i64 comes out wrapped. */
  lemma {:induction false} ParseOfInstant(tee: char, local: int, fraction: string, zone: Zone)
    requires tee == 'T' || tee == 't'
    requires IsI64(local) && local >= FIRST_SECOND
    requires AllDigits(fraction) && ValidZone(zone)
    ensures var parsed, ms := ParseRfc3339Ms(PrintInstant(tee, local, fraction, zone)),
                              (local - ZoneMinutes(zone) * 60) * 1000 + Millis(fraction);
            parsed == Some(WrapI64(ms)) && (parsed == Some(ms) <==> IsI64(ms))
  {
    hide *;
    var days, seconds := local / 86_400, local % 86_400;
    var rest := ClockPart(seconds, fraction) + ZoneText(zone);
    DaysFit(local);
    ParseOfFormatDate(days);
    DateFree(days);
    InstantFromPieces(FormatDate(days), tee, rest, days);
    InstantText(tee, local, fraction, zone);
    ParseOfTime(days, seconds, fraction, zone);
    WrapIsExact((local - ZoneMinutes(zone) * 60) * 1000 + Millis(fraction));
  }

  lemma WrapIsExact(n: int)
    ensures WrapI64(n) == n <==> IsI64(n)
  {
  }

  lemma InstantText(tee: char, local: int, fraction: string, zone: Zone)
    requires AllDigits(fraction) && ValidZone(zone)
    ensures PrintInstant(tee, local, fraction, zone) ==
            FormatDate(local / 86_400) + [tee] + (ClockPart(local % 86_400, fraction) + ZoneText(zone))
  {
  }

  lemma DaysFit(seconds: int)
    requires IsI64(seconds)
    ensures IsI64(seconds / 86_400) && seconds / 86_400 <= I64_MAX - EPOCH_SHIFT
    ensures seconds >= FIRST_SECOND <==> seconds / 86_400 >= FIRST_DAY
  {
  }

  lemma UtcText(epochSeconds: int)
    ensures FormatRfc3339(epochSeconds) == PrintInstant('T', epochSeconds, [], Utc('Z'))
  {
    ClockPartSplits(epochSeconds % 86_400, []);
  }

  /** The daemon's own timestamps: from the year 0 on they parse back to their second, as
      far as its milliseconds fit an i64; earlier ones do not parse. */
  lemma {:induction false} ParseOfFormatRfc3339(epochSeconds: int)
    requires IsI64(epochSeconds)
    ensures var parsed := ParseRfc3339Ms(FormatRfc3339(epochSeconds));
            && parsed == (if epochSeconds < FIRST_SECOND then None else Some(WrapI64(epochSeconds * 1000)))
            && (parsed == Some(epochSeconds * 1000) <==> FIRST_SECOND <= epochSeconds && IsI64(epochSeconds * 1000))
  {
    hide *;
    UtcText(epochSeconds);
    NoDigits();
    if epochSeconds >= FIRST_SECOND {
      ParseOfInstant('T', epochSeconds, [], Utc('Z'));
    } else {
      var days := epochSeconds / 86_400;
      DaysFit(epochSeconds);
      ParseOfFormatDate(days);
      DateFree(days);
      NoDate(FormatDate(days), FormatClock(epochSeconds % 86_400) + ['Z']);
      UtcParts(epochSeconds);
    }
  }

  lemma UtcParts(epochSeconds: int)
    ensures FormatRfc3339(epochSeconds) ==
            FormatDate(epochSeconds / 86_400) + ['T'] + (FormatClock(epochSeconds % 86_400) + ['Z'])
  {
  }

  lemma NoDate(date: string, rest: string)
    requires Free(date, {'T', 't'}) && ParseDate(date) == None
    ensures ParseRfc3339Ms(date + ['T'] + rest) == None
  {
    SplitOnceAt(date, 'T', rest, {'T', 't'});
  }

  lemma NoDigits()
    ensures AllDigits([]) && Millis([]) == 0 && ValidZone(Utc('Z')) && ZoneMinutes(Utc('Z')) == 0
  {
  }

  // -- what the fraction means -------------------------------------------------

  function Pow10(n: nat): (p: nat)
    ensures p >= 1
  {
    if n == 0 then 1 else 10 * Pow10(n - 1)
  }

  lemma {:induction false} NatValueConcat(a: string, b: string)
    requires AllDigits(a) && AllDigits(b)
    ensures AllDigits(a + b)
    ensures NatValue(a + b) == NatValue(a) * Pow10(|b|) + NatValue(b)
    ensures NatValue(b) < Pow10(|b|)
    decreases |b|
  {
    if b == [] {
      assert a + b == a;
    } else {
      var n := |b| - 1;
      assert (a + b)[..|a + b| - 1] == a + b[..n];
      NatValueConcat(a, b[..n]);
      Distribute(NatValue(a), Pow10(n), NatValue(b[..n]));
    }
  }

  lemma Distribute(x: nat, p: nat, y: nat)
    ensures (x * p + y) * 10 == x * (10 * p) + y * 10
  {
  }

  /** The fraction is cut, not rounded: `Millis` is the whole milliseconds in it. */
  lemma {:induction false} FractionIsTruncated(fraction: string)
    requires AllDigits(fraction)
    ensures WholeMillis(Millis(fraction), NatValue(fraction), Pow10(|fraction|))
  {
    hide WholeMillis, Millis, NatValue, Pow10;
    if |fraction| >= 3 {
      LongFraction(fraction);
    } else if fraction != [] {
      ShortFraction(fraction);
      Exact(Millis(fraction), NatValue(fraction), Pow10(|fraction|));
    } else {
      NoFraction();
    }
  }

  /** `millis` is `value / scale` seconds in whole milliseconds, rounded down. */
  predicate WholeMillis(millis: int, value: int, scale: int) {
    millis * scale <= value * 1000 < (millis + 1) * scale
  }

  lemma Exact(millis: int, value: int, scale: int)
    requires millis * scale == value * 1000 && scale >= 1
    ensures WholeMillis(millis, value, scale)
  {
    assert (millis + 1) * scale == millis * scale + scale;
  }

  lemma NoFraction()
    ensures WholeMillis(Millis([]), NatValue([]), Pow10(0))
  {
  }

  lemma LongMillis(fraction: string)
    requires AllDigits(fraction) && |fraction| >= 3
    ensures Millis(fraction) == NatValue(fraction[..3])
  {
    hide NatValue;
    assert (fraction + "000")[..3] == fraction[..3];
  }

  lemma LongFraction(fraction: string)
    requires AllDigits(fraction) && |fraction| >= 3
    ensures WholeMillis(Millis(fraction), NatValue(fraction), Pow10(|fraction|))
  {
    LongMillis(fraction);
    hide WholeMillis, Millis, NatValue, Pow10;
    var head, tail := fraction[..3], fraction[3..];
    assert fraction == head + tail;
    LongBounds(head, tail);
  }

  lemma LongBounds(head: string, tail: string)
    requires AllDigits(head) && AllDigits(tail) && |head| == 3
    ensures AllDigits(head + tail)
    ensures WholeMillis(NatValue(head), NatValue(head + tail), Pow10(3 + |tail|))
  {
    NatValueConcat(head, tail);
    Pow10Sum(3, |tail|);
    assert Pow10(3) == 1000 by {
      assert Pow10(2) == 100;
    }
    hide NatValue, Pow10, WholeMillis;
    CutIsWhole(NatValue(head), NatValue(tail), Pow10(|tail|), NatValue(head + tail), Pow10(3 + |tail|));
  }

  lemma CutIsWhole(head: nat, tail: nat, p: nat, value: nat, scale: nat)
    requires tail < p && value == head * p + tail && scale == 1000 * p
    ensures WholeMillis(head, value, scale)
  {
    assert head * scale == 1000 * (head * p);
    assert (head + 1) * scale == 1000 * (head * p) + 1000 * p;
  }

  lemma ShortFraction(fraction: string)
    requires AllDigits(fraction) && 1 <= |fraction| <= 2
    ensures Millis(fraction) * Pow10(|fraction|) == NatValue(fraction) * 1000
  {
    var zeros := "000"[..3 - |fraction|];
    assert (fraction + "000")[..3] == fraction + zeros;
    ZerosAreZero(zeros);
    NatValueConcat(fraction, zeros);
    assert Pow10(1) == 10 && Pow10(2) == 100;
    var v := NatValue(fraction);
    if |fraction| == 1 {
      assert Millis(fraction) == v * 100;
    } else {
      assert Millis(fraction) == v * 10;
    }
  }

  lemma {:induction false} Pow10Sum(a: nat, b: nat)
    ensures Pow10(a + b) == Pow10(a) * Pow10(b)
  {
    if a > 0 {
      Pow10Sum(a - 1, b);
      assert 10 * (Pow10(a - 1) * Pow10(b)) == 10 * Pow10(a - 1) * Pow10(b);
    }
  }

  lemma {:induction false} ZerosAreZero(s: string)
    requires forall i | 0 <= i < |s| :: s[i] == '0'
    ensures AllDigits(s) && NatValue(s) == 0
  {
    if s != [] {
      ZerosAreZero(s[..|s| - 1]);
    }
  }
}
