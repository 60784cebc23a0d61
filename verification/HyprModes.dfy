/** What the display validator lets through, said without it: the text forms of modes and
    positions, when a request is sound, and when the live state itself is. */
module HyprModes {
  import opened Basics
  import opened Text
  import opened HyprModel
  import opened HyprLayout

  // -- text forms --------------------------------------------------------------

  /** `text` is cut at its first 'x' from `from` on, and both halves are numbers. */
  predicate IsPair(text: string, from: nat, n: nat, a: int, b: int) {
    && from <= n < |text| && text[n] == 'x' && Free(text[from..n], {'x'})
    && ParseI64(Trim(text[..n])) == Some(a) && ParseI64(Trim(text[n + 1..])) == Some(b)
  }

  lemma CutAt(s: string, chars: set<char>, n: nat)
    requires n < |s| && s[n] in chars && Free(s[..n], chars)
    ensures SplitOnce(s, chars) == Some((s[..n], s[n + 1..]))
  {
    assert forall i | 0 <= i < n :: s[i] == s[..n][i];
    FindAnyIs(s, chars, n);
  }

  /** "1920x1080": two positive numbers at the first 'x', spaces allowed around them. */
  lemma SizeMeans(value: string, width: int, height: int)
    ensures ParseSize(value) == Some((width, height)) <==>
            width > 0 && height > 0 && exists n :: IsPair(Trim(value), 0, n, width, height)
  {
    hide Trim, ParseI64, FindAny;
    var text := Trim(value);
    if ParseSize(value) == Some((width, height)) {
      var n := FindAny(text, {'x'});
      FindAnyMeaning(text, {'x'});
      assert IsPair(text, 0, n, width, height);
    }
    if n: nat :| IsPair(text, 0, n, width, height) {
      CutAt(text, {'x'}, n);
    }
  }

  /** "-1920x0": two numbers of either sign at the first 'x' after the first character. */
  lemma PointMeans(value: string, x: int, y: int)
    ensures ParsePoint(value) == Some((x, y)) <==> exists n :: IsPair(Trim(value), 1, n, x, y)
  {
    hide Trim, ParseI64, FindAny;
    var text := Trim(value);
    if ParsePoint(value) == Some((x, y)) {
      var n := FindAny(text[1..], {'x'});
      FindAnyMeaning(text[1..], {'x'});
      assert text[1..][..n] == text[1..n + 1] && [text[0]] + text[1..n + 1] == text[..n + 1];
      assert text[1..][n + 1..] == text[n + 2..];
      assert IsPair(text, 1, n + 1, x, y);
    }
    if n: nat :| IsPair(text, 1, n, x, y) {
      assert text[1..][..n - 1] == text[1..n] && [text[0]] + text[1..n] == text[..n];
      assert text[1..][n..] == text[n + 1..];
      CutAt(text[1..], {'x'}, n - 1);
    }
  }

  /** The unit of a rate is taken off however often it is written, and nothing else. */
  lemma {:induction false} HertzIsTakenOff(rate: string) returns (units: string)
    ensures rate == TrimHertz(rate) + units && |units| % 2 == 0
    ensures forall i | 0 <= i < |units| :: units[i] == if i % 2 == 0 then 'H' else 'z'
    ensures var kept := TrimHertz(rate); !(|kept| >= 2 && kept[|kept| - 2..] == "Hz")
  {
    if |rate| >= 2 && rate[|rate| - 2..] == "Hz" {
      var front := rate[..|rate| - 2];
      var more := HertzIsTakenOff(front);
      units := more + "Hz";
      OneMoreUnit(front, TrimHertz(front), more);
      assert rate == front + "Hz";
    } else {
      units := "";
    }
  }

  lemma OneMoreUnit(front: string, kept: string, units: string)
    requires front == kept + units && |units| % 2 == 0
    requires forall i | 0 <= i < |units| :: units[i] == if i % 2 == 0 then 'H' else 'z'
    ensures front + "Hz" == kept + (units + "Hz")
    ensures forall i | 0 <= i < |units + "Hz"| :: (units + "Hz")[i] == if i % 2 == 0 then 'H' else 'z'
  {
  }

  // -- sound requests ----------------------------------------------------------

  predicate Keyword(text: string) {
    text == "preferred" || text == "highres" || text == "highrr" || text == "auto" || text == ""
  }

  /** A panel that lists its modes has to list one of this size. */
  predicate Listed(m: LiveMonitor, size: (int, int)) {
    m.availableModes == [] || exists i :: 0 <= i < |m.availableModes| && ParseSize(SizePart(m.availableModes[i])) == Some(size)
  }

  ghost predicate SoundSize(text: string, m: LiveMonitor) {
    ParseSize(text).Some? && Listed(m, ParseSize(text).value)
  }

  /** A keyword, a size the panel has, or such a size and a rate behind the first '@'. */
  ghost predicate SoundMode(mode: string, m: LiveMonitor, rateOk: RateParser) {
    var text := Trim(mode);
    || Keyword(text)
    || (Free(text, {'@'}) && SoundSize(text, m))
    || (exists n :: 0 <= n < |text| && text[n] == '@' && Free(text[..n], {'@'})
                    && SoundSize(text[..n], m) && rateOk(Trim(TrimHertz(Trim(text[n + 1..])))))
  }

  /** Nothing, one of the compositor's own words, or a point. */
  ghost predicate SoundPosition(position: string) {
    var text := Trim(position);
    text == "" || (|text| >= 4 && text[..4] == "auto") || exists n, x, y :: IsPair(text, 1, n, x, y)
  }

  ghost predicate SoundFields(s: MonitorSetting, m: LiveMonitor, rateOk: RateParser) {
    && (s.mode.Some? ==> SoundMode(s.mode.value, m, rateOk))
    && (s.position.Some? ==> SoundPosition(s.position.value))
    && (s.scale.Some? ==> 0.25 <= s.scale.value <= 8.0)
    && (s.transform.Some? ==> s.transform.value <= 7)
    && (s.vrr.Some? ==> s.vrr.value <= 2)
  }

  /** The first live display with this name. */
  predicate FirstWithName(live: seq<LiveMonitor>, k: nat, name: string) {
    k < |live| && live[k].name == name && forall i | 0 <= i < k :: live[i].name != name
  }

  /** The request is for a live display, and a display that stays on gets sound fields. */
  ghost predicate SoundRequest(s: MonitorSetting, live: seq<LiveMonitor>, rateOk: RateParser) {
    && Trim(s.output) != ""
    && exists k: nat :: FirstWithName(live, k, Trim(s.output)) && (s.disabled || SoundFields(s, live[k], rateOk))
  }

  lemma CheckModeMeans(mode: string, m: LiveMonitor, rateOk: RateParser)
    ensures CheckMode(mode, m, rateOk).None? <==> SoundMode(mode, m, rateOk)
  {
    hide Trim, TrimHertz, ParseSize, SizePart, FindAny;
    var text := Trim(mode);
    var n := FindAny(text, {'@'});
    FindAnyMeaning(text, {'@'});
    if n < |text| {
      assert Free(text[..n], {'@'});
      forall k | 0 <= k < |text| && text[k] == '@' && Free(text[..k], {'@'}) ensures k == n {
        FirstIs(text, k, n);
      }
    } else {
      assert Free(text, {'@'});
    }
  }

  lemma FirstIs(text: string, k: nat, n: nat)
    requires k < |text| && text[k] == '@' && Free(text[..k], {'@'})
    requires n < |text| && text[n] == '@' && Free(text[..n], {'@'})
    ensures k == n
  {
  }

  lemma CheckPositionMeans(position: string)
    ensures CheckPosition(position).None? <==> SoundPosition(position)
  {
    hide Trim, ParsePoint, IsPair;
    var text := Trim(position);
    TrimTwice(position);
    var point := ParsePoint(text);
    if point.Some? {
      PointMeans(text, point.value.0, point.value.1);
    }
    if n: nat, x, y :| IsPair(text, 1, n, x, y) {
      PointMeans(text, x, y);
    }
  }

  lemma CheckFieldsMeans(s: MonitorSetting, m: LiveMonitor, rateOk: RateParser)
    ensures CheckFields(s, m, rateOk).None? <==> s.disabled || SoundFields(s, m, rateOk)
  {
    hide CheckMode, CheckPosition, SoundMode, SoundPosition;
    if s.mode.Some? {
      CheckModeMeans(s.mode.value, m, rateOk);
    }
    if s.position.Some? {
      CheckPositionMeans(s.position.value);
    }
  }

  lemma RequestMeans(s: MonitorSetting, live: seq<LiveMonitor>, rateOk: RateParser)
    ensures SettingOk(s, live, rateOk) <==> SoundRequest(s, live, rateOk)
  {
    hide CheckFields, SoundFields, Trim;
    var at := MonitorNamed(live, Trim(s.output));
    if at < |live| {
      CheckFieldsMeans(s, live[at], rateOk);
      assert FirstWithName(live, at, Trim(s.output));
    }
    forall k: nat | FirstWithName(live, k, Trim(s.output)) ensures k == at {
    }
  }

  /** Exactly what the validator accepts: sound requests for different displays, after which
      some display is on and no two clash. */
  lemma AcceptedMeans(requested: seq<MonitorSetting>, live: seq<LiveMonitor>, rateOk: RateParser)
    ensures Acceptable(requested, live, rateOk) <==>
            && (forall i | 0 <= i < |requested| :: SoundRequest(requested[i], live, rateOk))
            && DistinctTrims(requested)
            && SomeEnabled(ResolveLayout(requested, live)) && NoClash(ResolveLayout(requested, live))
  {
    hide SoundRequest, SettingOk, ResolveLayout, SomeEnabled, NoClash, Trim;
    forall i | 0 <= i < |requested| ensures SettingOk(requested[i], live, rateOk) <==> SoundRequest(requested[i], live, rateOk) {
      RequestMeans(requested[i], live, rateOk);
    }
  }

  // -- sizes a panel has -------------------------------------------------------

  lemma KeywordIsNoSize(text: string)
    requires Keyword(text)
    ensures ParseSize(SizePart(text)).None?
  {
    hide SplitOnce, Trim, IsSpace, ParseI64, FindAny;
    assert Free(text, {'@'}) && Free(text, {'x'}) && Trimmed(text) by {
      KeywordLetters(text);
    }
    FindAnyIs(text, {'@'}, |text|);
    assert SizePart(text) == text;
    TrimIsIdentity(text);
    SplitOnceNone(text, {'x'});
  }

  lemma KeywordLetters(text: string)
    requires Keyword(text)
    ensures Free(text, {'@'}) && Free(text, {'x'}) && Trimmed(text)
  {
  }

  /** White space around a mode does not matter to the size it names. */
  lemma SizeOfTrimmed(mode: string)
    ensures ParseSize(SizePart(mode)) == ParseSize(SizePart(Trim(mode)))
  {
    hide Trim, IsSpace, ParseI64, FindAny, SplitOnce;
    var text := Trim(mode);
    var before, after := TrimMeaning(mode);
    var n := FindAny(text, {'@'});
    FindAnyMeaning(text, {'@'});
    SpaceIsFree(before);
    SpaceIsFree(after);
    if n < |text| {
      assert forall i | 0 <= i < |before| :: mode[i] == before[i];
      assert forall i | 0 <= i < n :: mode[|before| + i] == text[i];
      FindAnyIs(mode, {'@'}, |before| + n);
      assert SizePart(mode) == before + text[..n] + "";
      TrimIs(before, text[..n], "");
    } else {
      FindAnyIs(mode, {'@'}, |mode|);
      assert SizePart(mode) == mode && SizePart(text) == text;
      TrimTwice(mode);
    }
  }

  lemma SpaceIsFree(s: string)
    requires AllSpace(s)
    ensures Free(s, {'@'})
  {
  }

  lemma SoundModeSize(mode: string, m: LiveMonitor, rateOk: RateParser)
    requires SoundMode(mode, m, rateOk) && ParseSize(SizePart(mode)).Some?
    ensures Listed(m, ParseSize(SizePart(mode)).value)
  {
    hide Trim, ParseSize, FindAny, TrimHertz, Listed, Keyword;
    var text := Trim(mode);
    SizeOfTrimmed(mode);
    if Keyword(text) {
      KeywordIsNoSize(text);
    } else if Free(text, {'@'}) && SoundSize(text, m) {
      FindAnyIs(text, {'@'}, |text|);
      assert SizePart(text) == text;
    } else {
      var n :| 0 <= n < |text| && text[n] == '@' && Free(text[..n], {'@'}) && SoundSize(text[..n], m);
      assert forall i | 0 <= i < n :: text[i] == text[..n][i];
      FindAnyIs(text, {'@'}, n);
    }
  }

  /** In an accepted request, a display that stays on and is given a size is given one that
      its panel lists, and that is the size it is placed at. */
  lemma AcceptedSizesAreListed(requested: seq<MonitorSetting>, live: seq<LiveMonitor>, k: nat, s: MonitorSetting, rateOk: RateParser)
    requires Acceptable(requested, live, rateOk) && k < |live| && FirstWithName(live, k, live[k].name)
    requires SettingFor(requested, live[k].name) == Some(s) && !s.disabled && s.mode.Some?
    requires ParseSize(SizePart(s.mode.value)).Some?
    ensures ResolvedSize(Some(s), live[k]) == ParseSize(SizePart(s.mode.value)).value
    ensures live[k].availableModes != [] ==>
              exists mode :: mode in live[k].availableModes && ParseSize(SizePart(mode)) == ParseSize(SizePart(s.mode.value))
  {
    hide Trim, ParseSize, SizePart, SoundMode, SoundPosition, ResolveLayout, SomeEnabled, NoClash;
    AcceptedMeans(requested, live, rateOk);
    var i :| 0 <= i < |requested| && requested[i] == s;
    assert SoundRequest(requested[i], live, rateOk);
    SoundModeSize(s.mode.value, live[k], rateOk);
  }

  // -- the live state as a request ---------------------------------------------

  /** What a display that is on needs to be let through as it is. */
  ghost predicate KeepsItself(m: LiveMonitor, rateOk: RateParser) {
    && m.width > 0 && m.height > 0 && Listed(m, (m.width, m.height))
    && rateOk(IntText(SaturateI64(Round(m.refreshRate))))
    && (m.scale <= 0.0 || 0.25 <= m.scale <= 8.0)
    && m.transform <= 7
  }

  lemma RateIsKept(rate: int)
    ensures Trim(TrimHertz(Trim(IntText(rate)))) == IntText(rate)
  {
    hide Trim, IntText;
    IntTextChars(rate);
    NoUnit(rate);
    TrimIsIdentity(IntText(rate));
  }

  lemma NoUnit(rate: int)
    ensures var s := IntText(rate); s != [] && s[|s| - 1] != 'z'
  {
    NatTextValue(if rate < 0 then -rate else rate);
    var digits := NatText(if rate < 0 then -rate else rate);
    assert IsDigit(digits[|digits| - 1]);
  }

  /** The printed mode is cut where it was put together. */
  lemma PrintedMode(width: int, height: int, rate: int)
    ensures var size, mode := SizeText(width, height), SizeText(width, height) + ['@'] + IntText(rate);
            && Trim(mode) == mode && !Keyword(mode) && mode[|size|] == '@'
            && Free(mode[..|size|], {'@'}) && mode[..|size|] == size && mode[|size| + 1..] == IntText(rate)
  {
    var size, mode := SizeText(width, height), SizeText(width, height) + ['@'] + IntText(rate);
    hide Trim, IntText, IsSpace, SizeText;
    SizeTextTrimmed(width, height);
    IntTextChars(rate);
    assert mode[0] == size[0] && mode[|mode| - 1] == IntText(rate)[|IntText(rate)| - 1];
    TrimIsIdentity(mode);
    assert mode[|size|] == '@';
    if Keyword(mode) {
      KeywordLetters(mode);
    }
  }

  lemma PrintedModeSound(m: LiveMonitor, rateOk: RateParser)
    requires IsI64(m.width) && IsI64(m.height)
    ensures SoundMode(ModeText(m), m, rateOk) <==>
            && m.width > 0 && m.height > 0 && Listed(m, (m.width, m.height))
            && rateOk(IntText(SaturateI64(Round(m.refreshRate))))
  {
    var size, rate := SizeText(m.width, m.height), SaturateI64(Round(m.refreshRate));
    var text := ModeText(m);
    PrintedMode(m.width, m.height, rate);
    RateIsKept(rate);
    ParseOfSizeText(m.width, m.height);
    hide Trim, TrimHertz, IntText, SizeText, ParseSize, Keyword, Listed, Round, SaturateI64;
    forall n | 0 <= n < |text| && text[n] == '@' && Free(text[..n], {'@'}) ensures n == |size| {
      FirstIs(text, n, |size|);
    }
  }

  lemma SnapshotSound(m: LiveMonitor, rateOk: RateParser)
    requires IsI64(m.width) && IsI64(m.height) && IsI64(m.x) && IsI64(m.y)
    ensures SoundFields(SnapshotOne(m), m, rateOk) <==> KeepsItself(m, rateOk)
  {
    hide ModeText, SizeText, SoundMode, IsPair, Trim, Listed, Round, SaturateI64;
    PrintedModeSound(m, rateOk);
    var position := SizeText(m.x, m.y);
    SizeTextTrimmed(m.x, m.y);
    TrimIsIdentity(position);
    ParseOfPointText(m.x, m.y);
    PointMeans(position, m.x, m.y);
  }

  /** The live displays with a scale where they have none, as a snapshot prints them. */
  function Scaled(live: seq<LiveMonitor>): (scaled: seq<LiveMonitor>)
    ensures |scaled| == |live|
    ensures forall i | 0 <= i < |live| :: scaled[i] == live[i].(scale := if live[i].scale > 0.0 then live[i].scale else 1.0)
  {
    seq(|live|, i requires 0 <= i < |live| => live[i].(scale := if live[i].scale > 0.0 then live[i].scale else 1.0))
  }

  lemma ScaledResolves(m: LiveMonitor, scaled: LiveMonitor)
    requires IsI64(m.width) && IsI64(m.height) && IsI64(m.x) && IsI64(m.y)
    requires scaled == m.(scale := if m.scale > 0.0 then m.scale else 1.0)
    ensures ResolveOne(Some(SnapshotOne(m)), m) == ResolveOne(None, scaled)
  {
    SnapshotReadsBack(m);
    OneIsEnough();
    assert ResolvedSize(None, scaled) == (m.width, m.height) && ResolvedPoint(None, scaled) == (m.x, m.y);
    assert ResolvedTransform(None, scaled) == m.transform;
    assert ResolvedScale(None, scaled) == ResolvedScale(Some(SnapshotOne(m)), m);
    hide Logical, ResolvedSize, ResolvedPoint, ResolvedScale, ResolvedTransform, SnapshotOne;
  }

  lemma OneIsEnough()
    ensures MinPositive() <= 1.0
  {
  }

  lemma SnapshotLayout(live: seq<LiveMonitor>)
    requires PlainNames(live) && LiveFits(live)
    ensures ResolveLayout(Snapshot(live), live) == ResolveLayout([], Scaled(live))
  {
    hide ResolveOne, SnapshotOne, SettingFor, Trim;
    var a, b := ResolveLayout(Snapshot(live), live), ResolveLayout([], Scaled(live));
    forall i | 0 <= i < |live| ensures a[i] == b[i] {
      SnapshotSetting(live, i);
      ScaledResolves(live[i], Scaled(live)[i]);
      NoRequest(live[i].name);
    }
  }

  lemma SnapshotRequest(live: seq<LiveMonitor>, i: nat, rateOk: RateParser)
    requires PlainNames(live) && LiveFits(live) && i < |live|
    ensures SoundRequest(Snapshot(live)[i], live, rateOk) <==>
            live[i].name != "" && (live[i].disabled || KeepsItself(live[i], rateOk))
  {
    hide KeepsItself, ModeText, SizeText, SoundFields, Trim;
    SnapshotSound(live[i], rateOk);
    assert FirstWithName(live, i, live[i].name);
    forall k: nat | FirstWithName(live, k, live[i].name) ensures k == i {
    }
  }

  /** The validator accepts the live state as it prints it exactly if some display is on,
      every display that is on can keep what it has, and the displays do not clash. */
  lemma SnapshotIsAccepted(live: seq<LiveMonitor>, rateOk: RateParser)
    requires PlainNames(live) && LiveFits(live)
    ensures Acceptable(Snapshot(live), live, rateOk) <==>
            && (forall i | 0 <= i < |live| :: live[i].name != "" && (live[i].disabled || KeepsItself(live[i], rateOk)))
            && (exists i | 0 <= i < |live| :: !live[i].disabled)
            && NoClash(ResolveLayout([], Scaled(live)))
  {
    hide NoClash, SoundRequest, KeepsItself, Acceptable, ResolveOne, SettingFor, Trim, ModeText, SizeText;
    var requested := Snapshot(live);
    AcceptedMeans(requested, live, rateOk);
    SnapshotLayout(live);
    forall i | 0 <= i < |live|
      ensures SoundRequest(requested[i], live, rateOk) <==>
              live[i].name != "" && (live[i].disabled || KeepsItself(live[i], rateOk)) {
      SnapshotRequest(live, i, rateOk);
    }
    SnapshotOn(live);
  }

  lemma SnapshotOn(live: seq<LiveMonitor>)
    requires PlainNames(live)
    ensures DistinctTrims(Snapshot(live))
    ensures SomeEnabled(ResolveLayout([], Scaled(live))) <==> exists i | 0 <= i < |live| :: !live[i].disabled
  {
    hide Trim, ModeText, SizeText, ResolvedSize, ResolvedPoint, ResolvedScale, ResolvedTransform, Logical;
    var layout := ResolveLayout([], Scaled(live));
    forall i | 0 <= i < |live| ensures layout[i].disabled == live[i].disabled {
      NoRequest(live[i].name);
    }
    if i :| 0 <= i < |live| && !live[i].disabled {
      assert !layout[i].disabled;
    }
  }

  // -- where displays are ------------------------------------------------------

  /** The nearest whole number, within 64 bits. */
  predicate Nearest(n: int, x: real) {
    if x > I64_MAX as real then n == I64_MAX
    else if x < I64_MIN as real then n == I64_MIN
    else -0.5 <= n as real - x <= 0.5
  }

  lemma LogicalIsNearest(pixels: int, scale: real)
    requires scale > 0.0
    ensures Nearest(Logical(pixels, scale), pixels as real / scale)
  {
  }

  /** A display with a scale is at its own position and covers its pixels divided by the
      scale; a quarter turn swaps its sides. */
  lemma LivePlace(m: LiveMonitor)
    requires m.scale >= MinPositive()
    ensures var r, wide, high := ResolveOne(None, m), m.width as real / m.scale, m.height as real / m.scale;
            && (r.name, r.x, r.y, r.disabled) == (m.name, m.x, m.y, m.disabled)
            && (m.transform % 2 == 0 ==> Nearest(r.width, wide) && Nearest(r.height, high))
            && (m.transform % 2 == 1 ==> Nearest(r.width, high) && Nearest(r.height, wide))
  {
    hide Logical, MinPositive, Nearest;
    LogicalIsNearest(m.width, m.scale);
    LogicalIsNearest(m.height, m.scale);
  }
}
