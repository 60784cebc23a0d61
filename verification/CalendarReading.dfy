/** Exactly which texts the timestamp parser takes, and what it takes them for. */
module CalendarReading {
  import opened Basics
  import opened Text
  import opened Civil
  import opened CalendarText

  // -- two and three parts -----------------------------------------------------

  lemma SplitMeans(s: string, chars: set<char>)
    ensures var split := SplitOnce(s, chars);
            if split.None? then Free(s, chars)
            else
              var n := |split.value.0|;
              n < |s| && s[n] in chars && Free(s[..n], chars) && split.value == (s[..n], s[n + 1..])
  {
    FindAnyMeaning(s, chars);
  }

  lemma SplitJoins(s: string, c: char, a: string, b: string)
    requires SplitOnce(s, {c}) == Some((a, b))
    ensures s == a + ([c] + b) && Free(a, {c})
  {
    hide FindAny;
    SplitMeans(s, {c});
  }

  lemma NumberIsDigits(text: string)
    ensures Number(text).Some? ==> AllDigits(text) && text != []
  {
  }

  lemma Joins(a: string, c: char, b: string, chars: set<char>)
    requires c in chars && AllDigits(a) && forall d | d in chars :: !IsDigit(d)
    ensures SplitOnce(a + ([c] + b), chars) == Some((a, b))
  {
    DigitsFree(a, chars);
    assert a + ([c] + b) == a + [c] + b;
    SplitOnceAt(a, c, b, chars);
  }

  /** Three numbers with a mark between them. */
  predicate Three(text: string, mark: char, a: string, b: string, c: string) {
    text == a + ([mark] + (b + ([mark] + c))) && Number(a).Some? && Number(b).Some? && Number(c).Some?
  }

  lemma ThreeSplits(text: string, mark: char, a: string, b: string, c: string)
    requires !IsDigit(mark) && Three(text, mark, a, b, c)
    ensures SplitOnce(text, {mark}) == Some((a, b + ([mark] + c))) && SplitOnce(b + ([mark] + c), {mark}) == Some((b, c))
  {
    NumberIsDigits(a);
    NumberIsDigits(b);
    hide Number, SplitOnce;
    Joins(a, mark, b + ([mark] + c), {mark});
    Joins(b, mark, c, {mark});
  }

  lemma SplitsThree(text: string, mark: char, rest: string, a: string, b: string, c: string)
    requires SplitOnce(text, {mark}) == Some((a, rest)) && SplitOnce(rest, {mark}) == Some((b, c))
    requires Number(a).Some? && Number(b).Some? && Number(c).Some?
    ensures Three(text, mark, a, b, c)
  {
    hide Number, SplitOnce, Free;
    SplitJoins(text, mark, a, rest);
    SplitJoins(rest, mark, b, c);
  }

  // -- dates -------------------------------------------------------------------

  ghost predicate DateSays(text: string, days: int) {
    exists y, m, d ::
      && Three(text, '-', y, m, d)
      && 1 <= Number(m).value <= 12 && 1 <= Number(d).value <= 31
      && days == WrapI64(DaysFromCivil(Number(y).value, Number(m).value, Number(d).value))
  }

  /** A date is three numbers, a month from 1 to 12 and a day from 1 to 31, and nothing else
      is one. */
  lemma ParseDateMeans(text: string, days: int)
    ensures ParseDate(text) == Some(days) <==> DateSays(text, days)
  {
    hide Number, SplitOnce, WrapI64, DaysFromCivil;
    if ParseDate(text) == Some(days) {
      var (y, rest) := SplitOnce(text, {'-'}).value;
      var (m, d) := SplitOnce(rest, {'-'}).value;
      SplitsThree(text, '-', rest, y, m, d);
    }
    if y, m, d :| Three(text, '-', y, m, d)
                  && 1 <= Number(m).value <= 12 && 1 <= Number(d).value <= 31
                  && days == WrapI64(DaysFromCivil(Number(y).value, Number(m).value, Number(d).value)) {
      ThreeSplits(text, '-', y, m, d);
    }
  }

  /** A day past the end of its month is taken for one in the next: the check stops at 31,
      and the count goes on from the first of the month. */
  lemma DaysRunOver(year: int, month: int, day: int)
    requires 1 <= month <= 12 && 1 <= day
    ensures DaysFromCivil(year, month, day) == DayCount(Date(year, month, 1)) + day - 1
  {
    hide DayCount;
    DaysFromCivilCounts(Date(year, month, 1));
    ClosedForm(year, month, day);
    ClosedForm(year, month, 1);
  }

  // -- times -------------------------------------------------------------------

  ghost predicate ClockSays(text: string, seconds: int) {
    exists h, m, s ::
      Three(text, ':', h, m, s) && seconds == Number(h).value * 3600 + Number(m).value * 60 + Number(s).value
  }

  lemma ParseClockMeans(text: string, seconds: int)
    ensures ParseClock(text) == Some(seconds) <==> ClockSays(text, seconds)
  {
    hide Number, SplitOnce;
    if ParseClock(text) == Some(seconds) {
      var (h, rest) := SplitOnce(text, {':'}).value;
      var (m, s) := SplitOnce(rest, {':'}).value;
      SplitsThree(text, ':', rest, h, m, s);
    }
    if h, m, s :| Three(text, ':', h, m, s) && seconds == Number(h).value * 3600 + Number(m).value * 60 + Number(s).value {
      ThreeSplits(text, ':', h, m, s);
    }
  }

  /** A zone is the letter alone, or a mark, hours and minutes; only '-' goes west. */
  ghost predicate ZoneSays(zone: string, minutes: int) {
    || ((zone == "z" || zone == "Z") && minutes == 0)
    || (exists mark: char, h, m :: MarkedZone(zone, mark, h, m, minutes))
  }

  predicate MarkedZone(zone: string, mark: char, h: string, m: string, minutes: int) {
    && zone == [mark] + (h + ([':'] + m)) && Number(h).Some? && Number(m).Some?
    && minutes == (if mark == '-' then -1 else 1) * (Number(h).value * 60 + Number(m).value)
  }

  lemma MarkedZoneParses(zone: string, mark: char, h: string, m: string, minutes: int)
    requires MarkedZone(zone, mark, h, m, minutes)
    ensures zone != [] && ParseOffset(zone) == Some(minutes)
  {
    hide Number, SplitOnce;
    NumberIsDigits(h);
    assert zone[1..] == h + ([':'] + m) && zone[0] == mark && |zone| > 1;
    Joins(h, ':', m, {':'});
  }

  lemma ParsedZoneIsMarked(zone: string, minutes: int)
    requires zone != [] && zone != "z" && zone != "Z" && ParseOffset(zone) == Some(minutes)
    ensures exists mark: char, h, m :: MarkedZone(zone, mark, h, m, minutes)
  {
    hide Number, SplitOnce;
    var (h, m) := SplitOnce(zone[1..], {':'}).value;
    SplitJoins(zone[1..], ':', h, m);
    assert zone == [zone[0]] + zone[1..];
    assert MarkedZone(zone, zone[0], h, m, minutes);
  }

  lemma ParseOffsetMeans(zone: string, minutes: int)
    requires zone != []
    ensures ParseOffset(zone) == Some(minutes) <==> ZoneSays(zone, minutes)
  {
    hide Number, SplitOnce, MarkedZone;
    if ParseOffset(zone) == Some(minutes) && zone != "z" && zone != "Z" {
      ParsedZoneIsMarked(zone, minutes);
    }
    if mark: char, h, m :| MarkedZone(zone, mark, h, m, minutes) {
      MarkedZoneParses(zone, mark, h, m, minutes);
    }
  }

  /** The time behind the date: a clock, perhaps a point and a fraction, and from the first
      zone mark on the zone. */
  predicate TimePieces(rest: string, clock: string, fraction: string, zone: string) {
    && zone != [] && zone[0] in ZONE_MARKS && Free(clock, ZONE_MARKS + {'.'}) && Free(fraction, ZONE_MARKS)
    && (rest == clock + (['.'] + fraction) + zone || (fraction == [] && rest == clock + zone))
  }

  ghost predicate TimeSays(days: int, rest: string, ms: int) {
    exists clock, fraction, zone, seconds, millis, minutes ::
      TimePieces(rest, clock, fraction, zone) && PiecesSay(days, clock, fraction, zone, seconds, millis, minutes, ms)
  }

  ghost predicate PiecesSay(days: int, clock: string, fraction: string, zone: string,
                            seconds: int, millis: int, minutes: int, ms: int) {
    && ClockSays(clock, seconds) && ParseMillis(fraction) == Some(millis) && ZoneSays(zone, minutes)
    && ms == WrapI64((days * 86_400 + seconds - minutes * 60) * 1000 + millis)
  }

  lemma PiecesAreCut(rest: string, clock: string, fraction: string, zone: string)
    requires TimePieces(rest, clock, fraction, zone)
    ensures var n := FindAny(rest, ZONE_MARKS);
            && n < |rest| && rest[n..] == zone
            && var split := SplitOnce(rest[..n], {'.'});
               split == Some((clock, fraction)) || (split == None && fraction == [] && rest[..n] == clock)
  {
    var part := if rest == clock + (['.'] + fraction) + zone then clock + (['.'] + fraction) else clock;
    assert Free(part, ZONE_MARKS);
    assert Free(clock, {'.'});
    ZoneSplits(part, zone);
    if rest == clock + (['.'] + fraction) + zone {
      assert part == clock + ['.'] + fraction;
      SplitOnceAt(clock, '.', fraction, {'.'});
    } else {
      SplitOnceNone(clock, {'.'});
    }
  }

  lemma CutIsPieces(rest: string)
    requires FindAny(rest, ZONE_MARKS) < |rest|
    ensures var n := FindAny(rest, ZONE_MARKS);
            var split := SplitOnce(rest[..n], {'.'});
            TimePieces(rest, if split.Some? then split.value.0 else rest[..n], if split.Some? then split.value.1 else [], rest[n..])
  {
    hide FindAny, SplitOnce;
    var n := FindAny(rest, ZONE_MARKS);
    FindAnyMeaning(rest, ZONE_MARKS);
    var part := rest[..n];
    assert Free(part, ZONE_MARKS);
    SplitMeans(part, {'.'});
    var split := SplitOnce(part, {'.'});
    assert rest == part + rest[n..];
    if split.Some? {
      SplitJoins(part, '.', split.value.0, split.value.1);
      FreeParts(split.value.0, split.value.1, part);
    }
  }

  lemma FreeParts(a: string, b: string, part: string)
    requires part == a + (['.'] + b) && Free(part, ZONE_MARKS) && Free(a, {'.'})
    ensures Free(a, ZONE_MARKS + {'.'}) && Free(b, ZONE_MARKS)
  {
    assert forall i | 0 <= i < |a| :: part[i] == a[i];
    assert forall i | 0 <= i < |b| :: part[|a| + 1 + i] == b[i];
  }

  lemma ParsedTimeHasPieces(days: int, rest: string, ms: int)
    requires ParseTime(days, rest) == Some(ms)
    ensures TimeSays(days, rest, ms)
  {
    hide SplitOnce, ParseClock, ParseMillis, ParseOffset, ClockSays, ZoneSays, WrapI64, TimePieces;
    CutIsPieces(rest);
    var n := FindAny(rest, ZONE_MARKS);
    var split := SplitOnce(rest[..n], {'.'});
    var clock := if split.Some? then split.value.0 else rest[..n];
    var fraction := if split.Some? then split.value.1 else [];
    var seconds, minutes := ParseClock(clock).value, ParseOffset(rest[n..]).value;
    ParseClockMeans(clock, seconds);
    ParseOffsetMeans(rest[n..], minutes);
    assert PiecesSay(days, clock, fraction, rest[n..], seconds, ParseMillis(fraction).value, minutes, ms);
  }

  lemma PiecesParse(days: int, rest: string, clock: string, fraction: string, zone: string,
                    seconds: int, millis: int, minutes: int, ms: int)
    requires TimePieces(rest, clock, fraction, zone) && PiecesSay(days, clock, fraction, zone, seconds, millis, minutes, ms)
    ensures ParseTime(days, rest) == Some(ms)
  {
    hide SplitOnce, ParseClock, ParseMillis, ParseOffset, ClockSays, ZoneSays, WrapI64, FindAny, TimePieces, Number;
    assert zone != [] by {
      ZoneIsThere(rest, clock, fraction, zone);
    }
    PiecesAreCut(rest, clock, fraction, zone);
    ParseClockMeans(clock, seconds);
    ParseOffsetMeans(zone, minutes);
    NoMillis();
  }

  lemma ZoneIsThere(rest: string, clock: string, fraction: string, zone: string)
    requires TimePieces(rest, clock, fraction, zone)
    ensures zone != []
  {
  }

  lemma ParseTimeMeans(days: int, rest: string, ms: int)
    ensures ParseTime(days, rest) == Some(ms) <==> TimeSays(days, rest, ms)
  {
    hide ParseTime, PiecesSay, TimePieces;
    if ParseTime(days, rest) == Some(ms) {
      ParsedTimeHasPieces(days, rest, ms);
    }
    if clock, fraction, zone, seconds, millis, minutes :|
      TimePieces(rest, clock, fraction, zone) && PiecesSay(days, clock, fraction, zone, seconds, millis, minutes, ms) {
      PiecesParse(days, rest, clock, fraction, zone, seconds, millis, minutes, ms);
    }
  }

  lemma NoMillis()
    ensures ParseMillis([]) == Some(0)
  {
  }

  /** Only the first three characters of a fraction are looked at: they must be digits, with
      zeros where there are fewer. */
  lemma ParseMillisMeans(fraction: string)
    ensures var head := if |fraction| < 3 then fraction else fraction[..3];
            ParseMillis(fraction) == if AllDigits(head) then Some(Millis(head)) else None
  {
    var head := if |fraction| < 3 then fraction else fraction[..3];
    if fraction != [] {
      assert (fraction + "000")[..3] == (head + "000")[..3];
      var three := (head + "000")[..3];
      if AllDigits(head) {
        ShortValue(three);
      } else {
        var i :| 0 <= i < |head| && !IsDigit(head[i]);
        assert three[i] == head[i];
      }
    }
  }

  // -- instants ----------------------------------------------------------------

  ghost predicate InstantSays(text: string, ms: int) {
    exists date, tee: char, rest, days ::
      && text == date + [tee] + rest && (tee == 'T' || tee == 't')
      && DateSays(date, days) && TimeSays(days, rest, ms)
  }

  lemma DateHasNoTee(date: string, days: int)
    requires DateSays(date, days)
    ensures Free(date, {'T', 't'})
  {
    hide Number, WrapI64, DaysFromCivil;
    var y, m, d :| Three(date, '-', y, m, d);
    NumberIsDigits(y);
    NumberIsDigits(m);
    NumberIsDigits(d);
  }

  /** Exactly the texts of this form parse, and to this instant: a date, a letter T, a clock,
      a fraction of any length and a zone. Nothing else is let through. */
  lemma ParseRfc3339Means(text: string, ms: int)
    ensures ParseRfc3339Ms(text) == Some(ms) <==> InstantSays(text, ms)
  {
    hide SplitOnce, ParseDate, ParseTime, DateSays, TimeSays;
    if ParseRfc3339Ms(text) == Some(ms) {
      SplitMeans(text, {'T', 't'});
      var (date, rest) := SplitOnce(text, {'T', 't'}).value;
      var days := ParseDate(date).value;
      ParseDateMeans(date, days);
      ParseTimeMeans(days, rest, ms);
      assert text == date + [text[|date|]] + rest;
    }
    if date, tee: char, rest, days :|
      && text == date + [tee] + rest && (tee == 'T' || tee == 't')
      && DateSays(date, days) && TimeSays(days, rest, ms) {
      DateHasNoTee(date, days);
      SplitOnceAt(date, tee, rest, {'T', 't'});
      ParseDateMeans(date, days);
      ParseTimeMeans(days, rest, ms);
    }
  }
}
