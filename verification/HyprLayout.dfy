/** The layout validator of `backend/src/modules/hypr.rs`: what it accepts, and that
    what it accepts is a layout with an enabled display and no overlap. */
module HyprLayout {
  import opened Basics
  import opened Text
  import opened HyprModel

  // -- overlap -----------------------------------------------------------------

  function Min(a: int, b: int): int {
    if a < b then a else b
  }

  function Max(a: int, b: int): int {
    if a < b then b else a
  }

  predicate Active(m: ResolvedMonitor) {
    !m.disabled && m.width > 0 && m.height > 0
  }

  /** The length two intervals share, in wrapping 64-bit arithmetic. */
  function Shared(a: int, aLength: int, b: int, bLength: int): int {
    WrapI64(Min(WrapI64(a + aLength), WrapI64(b + bLength)) - Max(a, b))
  }

  predicate Clash(a: ResolvedMonitor, b: ResolvedMonitor) {
    Shared(a.x, a.width, b.x, b.width) > 1 && Shared(a.y, a.height, b.y, b.height) > 1
  }

  /** The pixel square of side 2 at (px, py) lies inside the display. */
  predicate Contains(m: ResolvedMonitor, px: int, py: int) {
    m.x <= px && px + 2 <= m.x + m.width && m.y <= py && py + 2 <= m.y + m.height
  }

  /** The displays overlap by more than one pixel both ways. */
  ghost predicate Overlap(a: ResolvedMonitor, b: ResolvedMonitor) {
    exists px: int, py: int :: Contains(a, px, py) && Contains(b, px, py)
  }

  /** Every field is an i64, as the source has them. */
  predicate Fits(m: ResolvedMonitor) {
    IsI64(m.x) && IsI64(m.y) && IsI64(m.width) && IsI64(m.height)
  }

  lemma WrapIs(n: int)
    requires I64_MIN - 0x1_0000_0000_0000_0000 <= n <= I64_MAX + 0x1_0000_0000_0000_0000
    ensures WrapI64(n) ==
            if n < I64_MIN then n + 0x1_0000_0000_0000_0000
            else if n > I64_MAX then n - 0x1_0000_0000_0000_0000
            else n
  {
  }

  /** Wrapping never hides a shared stretch: it can only lengthen it. */
  lemma SharedIsFound(a: int, aLength: int, b: int, bLength: int)
    requires IsI64(a) && IsI64(b) && 0 < aLength <= I64_MAX && 0 < bLength <= I64_MAX
    requires Min(a + aLength, b + bLength) - Max(a, b) > 1
    ensures Shared(a, aLength, b, bLength) > 1
  {
    WrapIs(a + aLength);
    WrapIs(b + bLength);
    WrapIs(Min(WrapI64(a + aLength), WrapI64(b + bLength)) - Max(a, b));
  }

  /** An overlap is always found, wherever the displays are. */
  lemma {:induction false} OverlapIsFound(a: ResolvedMonitor, b: ResolvedMonitor)
    requires Active(a) && Active(b) && Fits(a) && Fits(b) && Overlap(a, b)
    ensures Clash(a, b)
  {
    var px, py :| Contains(a, px, py) && Contains(b, px, py);
    SharedIsFound(a.x, a.width, b.x, b.width);
    SharedIsFound(a.y, a.height, b.y, b.height);
  }

  /** The length two intervals really share; negative when they are apart. */
  function Common(a: int, aLength: int, b: int, bLength: int): int {
    Min(a + aLength, b + bLength) - Max(a, b)
  }

  /** The arithmetic of the source fails: at most one of the ends is past the last i64, and
      the wrapped difference comes out as more than a pixel. */
  predicate Wraps(a: int, aLength: int, b: int, bLength: int) {
    var distance := Max(a, b) - Min(WrapI64(a + aLength), WrapI64(b + bLength));
    && (a + aLength <= I64_MAX || b + bLength <= I64_MAX)
    && -I64_MIN < distance < 0x1_0000_0000_0000_0000 - 1
  }

  /** What the source computes, for all displays and wherever they are. */
  lemma {:induction false} SharedExactly(a: int, aLength: int, b: int, bLength: int)
    requires IsI64(a) && IsI64(b) && 0 < aLength <= I64_MAX && 0 < bLength <= I64_MAX
    ensures Shared(a, aLength, b, bLength) > 1 <==> Common(a, aLength, b, bLength) > 1 || Wraps(a, aLength, b, bLength)
  {
    WrapIs(a + aLength);
    WrapIs(b + bLength);
    WrapIs(Min(WrapI64(a + aLength), WrapI64(b + bLength)) - Max(a, b));
  }

  predicate Meets(a: int, aLength: int, b: int, bLength: int) {
    Common(a, aLength, b, bLength) > 1
  }

  /** A pair that is reported without an overlap: on some axis only the wrapping makes the
      intervals meet. */
  predicate FalseAlarm(a: ResolvedMonitor, b: ResolvedMonitor) {
    && (Meets(a.x, a.width, b.x, b.width) || Wraps(a.x, a.width, b.x, b.width))
    && (Meets(a.y, a.height, b.y, b.height) || Wraps(a.y, a.height, b.y, b.height))
    && !(Meets(a.x, a.width, b.x, b.width) && Meets(a.y, a.height, b.y, b.height))
  }

  lemma OverlapMeets(a: ResolvedMonitor, b: ResolvedMonitor)
    requires Active(a) && Active(b)
    ensures Overlap(a, b) <==> Meets(a.x, a.width, b.x, b.width) && Meets(a.y, a.height, b.y, b.height)
  {
    if Meets(a.x, a.width, b.x, b.width) && Meets(a.y, a.height, b.y, b.height) {
      var px, py := Max(a.x, b.x), Max(a.y, b.y);
      assert Contains(a, px, py) && Contains(b, px, py);
    }
  }

  /** The test is right about a pair exactly when it raises no false alarm. */
  lemma ClashIsOverlap(a: ResolvedMonitor, b: ResolvedMonitor)
    requires Active(a) && Active(b) && Fits(a) && Fits(b)
    ensures (Clash(a, b) <==> Overlap(a, b)) <==> !FalseAlarm(a, b)
  {
    OverlapMeets(a, b);
    SharedExactly(a.x, a.width, b.x, b.width);
    SharedExactly(a.y, a.height, b.y, b.height);
    hide Shared, Common, Wraps, Overlap;
  }

  const HALF_RANGE: int := 0x4000_0000_0000_0000

  predicate InRange(m: ResolvedMonitor) {
    && -HALF_RANGE <= m.x && m.x + m.width < HALF_RANGE
    && -HALF_RANGE <= m.y && m.y + m.height < HALF_RANGE
  }

  /** Displays in the middle half of the range never raise one. */
  lemma InRangeIsExact(a: ResolvedMonitor, b: ResolvedMonitor)
    requires Active(a) && Active(b) && InRange(a) && InRange(b)
    ensures !FalseAlarm(a, b)
  {
    WrapIs(a.x + a.width);
    WrapIs(b.x + b.width);
    WrapIs(a.y + a.height);
    WrapIs(b.y + b.height);
  }

  /** At the far end they can: two enabled displays far apart are taken to overlap. */
  lemma FarDisplaysAreRefused(a: ResolvedMonitor, b: ResolvedMonitor)
    requires a.x == I64_MAX - 10 && a.y == 0 && a.width == 100 && a.height == 100 && !a.disabled
    requires b.x == 0 && b.y == 0 && b.width == 100 && b.height == 100 && !b.disabled
    ensures Active(a) && Active(b) && FalseAlarm(a, b) && Clash(a, b) && !Overlap(a, b)
  {
    WrapIs(a.x + a.width);
    WrapIs(b.x + b.width);
    WrapIs(WrapI64(a.x + a.width) - a.x);
    WrapIs(100);
  }

  ghost predicate NoClash(layout: seq<ResolvedMonitor>) {
    forall i, j | 0 <= i < j < |layout| && Active(layout[i]) && Active(layout[j]) :: !Clash(layout[i], layout[j])
  }

  ghost predicate NoOverlap(layout: seq<ResolvedMonitor>) {
    forall i, j | 0 <= i < j < |layout| && Active(layout[i]) && Active(layout[j]) :: !Overlap(layout[i], layout[j])
  }

  /** The pair at `i`, `j` clashes and no pair before it does. */
  ghost predicate FirstClash(active: seq<ResolvedMonitor>, i: nat, j: nat) {
    && i < j < |active| && Clash(active[i], active[j])
    && (forall k, l | 0 <= k < l < |active| && (k < i || (k == i && l < j)) :: !Clash(active[k], active[l]))
  }

  function ActiveOnes(layout: seq<ResolvedMonitor>): seq<ResolvedMonitor> {
    if layout == [] then []
    else
      var n := |layout| - 1;
      ActiveOnes(layout[..n]) + if Active(layout[n]) then [layout[n]] else []
  }

  method FirstOverlap(layout: seq<ResolvedMonitor>) returns (r: Option<(string, string)>)
    ensures r.None? <==> NoClash(layout)
    ensures r.Some? ==>
              exists i: nat, j: nat :: FirstClash(ActiveOnes(layout), i, j)
                && r.value == (ActiveOnes(layout)[i].name, ActiveOnes(layout)[j].name)
  {
    var active := [];
    var n := 0;
    while n < |layout|
      invariant n <= |layout| && active == ActiveOnes(layout[..n])
    {
      assert layout[..n + 1][..n] == layout[..n];
      if Active(layout[n]) {
        active := active + [layout[n]];
      }
      n := n + 1;
    }
    assert layout[..n] == layout;
    ActiveClash(layout);
    var i := 0;
    while i < |active|
      invariant i <= |active|
      invariant forall k, l | 0 <= k < i && k < l < |active| :: !Clash(active[k], active[l])
    {
      var j := i + 1;
      while j < |active|
        invariant i < j <= |active|
        invariant forall l | i < l < j :: !Clash(active[i], active[l])
      {
        var first, second := active[i], active[j];
        var horizontal := Shared(first.x, first.width, second.x, second.width);
        var vertical := Shared(first.y, first.height, second.y, second.height);
        if horizontal > 1 && vertical > 1 {
          assert FirstClash(active, i, j);
          return Some((first.name, second.name));
        }
        j := j + 1;
      }
      i := i + 1;
    }
    return None;
  }

  ghost predicate AnyClash(active: seq<ResolvedMonitor>) {
    exists i, j | 0 <= i < j < |active| :: Clash(active[i], active[j])
  }

  lemma ActiveOnesIn(layout: seq<ResolvedMonitor>)
    ensures forall m :: m in ActiveOnes(layout) <==> m in layout && Active(m)
  {
    if layout != [] {
      var n := |layout| - 1;
      ActiveOnesIn(layout[..n]);
      assert layout == layout[..n] + [layout[n]];
    }
  }

  /** Taking out the inactive displays keeps the clashes. */
  lemma {:induction false} ActiveClash(layout: seq<ResolvedMonitor>)
    ensures AnyClash(ActiveOnes(layout)) <==> !NoClash(layout)
  {
    hide Clash;
    if layout != [] {
      var n := |layout| - 1;
      var before, last := layout[..n], layout[n];
      ActiveClash(before);
      ActiveOnesIn(before);
      NoClashAppend(before, last);
      if Active(last) {
        AnyClashAppend(ActiveOnes(before), last);
      } else {
        assert ActiveOnes(before) + [] == ActiveOnes(before);
      }
      assert layout == before + [last];
    }
  }

  lemma NoClashAppend(before: seq<ResolvedMonitor>, last: ResolvedMonitor)
    ensures NoClash(before + [last]) <==>
            NoClash(before) && (Active(last) ==> forall m | m in before && Active(m) :: !Clash(m, last))
  {
    var layout := before + [last];
    if NoClash(layout) {
      forall i, j | 0 <= i < j < |before| && Active(before[i]) && Active(before[j]) ensures !Clash(before[i], before[j]) {
        assert !Clash(layout[i], layout[j]);
      }
      forall m | m in before && Active(m) && Active(last) ensures !Clash(m, last) {
        var i :| 0 <= i < |before| && before[i] == m;
        assert !Clash(layout[i], layout[|before|]);
      }
    }
  }

  lemma AnyClashAppend(before: seq<ResolvedMonitor>, last: ResolvedMonitor)
    ensures AnyClash(before + [last]) <==> AnyClash(before) || exists m | m in before :: Clash(m, last)
  {
    var layout := before + [last];
    if AnyClash(before) {
      var i, j :| 0 <= i < j < |before| && Clash(before[i], before[j]);
      assert Clash(layout[i], layout[j]);
    }
    if m :| m in before && Clash(m, last) {
      var i :| 0 <= i < |before| && before[i] == m;
      assert Clash(layout[i], layout[|before|]);
    }
    if AnyClash(layout) {
      var i, j :| 0 <= i < j < |layout| && Clash(layout[i], layout[j]);
      if j < |before| {
        assert Clash(before[i], before[j]);
      } else {
        assert before[i] in before;
      }
    }
  }

  // -- validation --------------------------------------------------------------

  datatype LayoutError =
    | EmptyOutput
    | Duplicate(output: string)
    | Unknown(output: string)
    | BadMode(mode: string)
    | BadRate(mode: string)
    | Unsupported(output: string, width: int, height: int)
    | BadPosition(position: string)
    | BadScale
    | BadTransform
    | BadVrr
    | NoneEnabled
    | Overlapping(first: string, second: string)

  /** Whether a text parses as a positive f64; the parser is not part of this model. */
  type RateParser = string -> bool

  function TrimHertz(rate: string): string {
    if |rate| >= 2 && rate[|rate| - 2..] == "Hz" then TrimHertz(rate[..|rate| - 2]) else rate
  }

  predicate Offers(m: LiveMonitor, size: (int, int)) {
    exists i | 0 <= i < |m.availableModes| :: ParseSize(SizePart(m.availableModes[i])) == Some(size)
  }

  function CheckMode(modeText: string, m: LiveMonitor, rateOk: RateParser): Option<LayoutError> {
    var mode := Trim(modeText);
    if mode == "preferred" || mode == "highres" || mode == "highrr" || mode == "auto" || mode == "" then None
    else
      var split := SplitOnce(mode, {'@'});
      var size := ParseSize(if split.Some? then split.value.0 else mode);
      if size.None? then Some(BadMode(mode))
      else if split.Some? && !rateOk(Trim(TrimHertz(Trim(split.value.1)))) then Some(BadRate(mode))
      else if m.availableModes != [] && !Offers(m, size.value) then
        Some(Unsupported(m.name, size.value.0, size.value.1))
      else None
  }

  function CheckPosition(positionText: string): Option<LayoutError> {
    var position := Trim(positionText);
    if position == "" || "auto" <= position || ParsePoint(position).Some? then None else Some(BadPosition(position))
  }

  const MIN_SCALE: real := 0.25
  const MAX_SCALE: real := 8.0

  /** The field checks of one request; a disabled display has none. */
  function CheckFields(s: MonitorSetting, m: LiveMonitor, rateOk: RateParser): Option<LayoutError> {
    if s.disabled then None
    else
      var mode := if s.mode.Some? then CheckMode(s.mode.value, m, rateOk) else None;
      var position := if s.position.Some? then CheckPosition(s.position.value) else None;
      if mode.Some? then mode
      else if position.Some? then position
      else if s.scale.Some? && !(MIN_SCALE <= s.scale.value <= MAX_SCALE) then Some(BadScale)
      else if s.transform.Some? && s.transform.value > 7 then Some(BadTransform)
      else if s.vrr.Some? && s.vrr.value > 2 then Some(BadVrr)
      else None
  }

  function MonitorNamed(live: seq<LiveMonitor>, name: string): (n: nat)
    ensures n <= |live|
    ensures n < |live| ==> live[n].name == name
    ensures forall i | 0 <= i < n :: live[i].name != name
  {
    if live == [] || live[0].name == name then 0 else 1 + MonitorNamed(live[1..], name)
  }

  /** The first thing wrong with one request, given the outputs before it. */
  function CheckSetting(s: MonitorSetting, seen: set<string>, live: seq<LiveMonitor>, rateOk: RateParser)
    : Option<LayoutError>
  {
    var output := Trim(s.output);
    var at := MonitorNamed(live, output);
    if output == "" then Some(EmptyOutput)
    else if output in seen then Some(Duplicate(output))
    else if at == |live| then Some(Unknown(output))
    else CheckFields(s, live[at], rateOk)
  }

  function Outputs(requested: seq<MonitorSetting>): set<string> {
    set s | s in requested :: Trim(s.output)
  }

  /** The first `n` requests name displays, each its own, and have sound fields. */
  ghost predicate SettingsOk(requested: seq<MonitorSetting>, n: nat, live: seq<LiveMonitor>, rateOk: RateParser)
    requires n <= |requested|
  {
    && (forall i, j | 0 <= i < j < n :: Trim(requested[i].output) != Trim(requested[j].output))
    && (forall i | 0 <= i < n :: SettingOk(requested[i], live, rateOk))
  }

  ghost predicate SettingOk(s: MonitorSetting, live: seq<LiveMonitor>, rateOk: RateParser) {
    var at := MonitorNamed(live, Trim(s.output));
    Trim(s.output) != "" && at < |live| && CheckFields(s, live[at], rateOk).None?
  }

  /** What the validator lets through, said without its loop: sound requests for
      different displays, after which some display is enabled and none clash. */
  ghost predicate Acceptable(requested: seq<MonitorSetting>, live: seq<LiveMonitor>, rateOk: RateParser) {
    && SettingsOk(requested, |requested|, live, rateOk)
    && SomeEnabled(ResolveLayout(requested, live))
    && NoClash(ResolveLayout(requested, live))
  }

  predicate SomeEnabled(layout: seq<ResolvedMonitor>) {
    exists i | 0 <= i < |layout| :: !layout[i].disabled
  }

  method ValidateLayout(requested: seq<MonitorSetting>, live: seq<LiveMonitor>, rateOk: RateParser)
    returns (r: Result<(), LayoutError>)
    ensures r.Ok? <==> Acceptable(requested, live, rateOk)
    ensures r.Err? && !r.error.NoneEnabled? && !r.error.Overlapping? ==>
              exists i: nat :: i < |requested|
                && CheckSetting(requested[i], Outputs(requested[..i]), live, rateOk) == Some(r.error)
    ensures r == Err(NoneEnabled) ==> !SomeEnabled(ResolveLayout(requested, live))
    ensures r.Err? && r.error.Overlapping? ==> !NoClash(ResolveLayout(requested, live))
  {
    hide Clash, NoClash, CheckFields, CheckSetting, SettingsOk, Trim, MonitorNamed, ResolveLayout;
    var seen := {};
    var i := 0;
    NoSettings(requested, live, rateOk);
    while i < |requested|
      invariant i <= |requested| && seen == Outputs(requested[..i])
      invariant SettingsOk(requested, i, live, rateOk)
    {
      var error := CheckSetting(requested[i], seen, live, rateOk);
      OneMoreSetting(requested, i, live, rateOk);
      if error.Some? {
        SettingErrors(requested[i], seen, live, rateOk);
        return Err(error.value);
      }
      seen := seen + {Trim(requested[i].output)};
      i := i + 1;
    }
    var layout := ResolveLayout(requested, live);
    if !SomeEnabled(layout) {
      return Err(NoneEnabled);
    }
    var overlap := FirstOverlap(layout);
    if overlap.Some? {
      return Err(Overlapping(overlap.value.0, overlap.value.1));
    }
    return Ok(());
  }

  lemma NoSettings(requested: seq<MonitorSetting>, live: seq<LiveMonitor>, rateOk: RateParser)
    ensures SettingsOk(requested, 0, live, rateOk) && Outputs(requested[..0]) == {}
  {
  }

  lemma SettingErrors(s: MonitorSetting, seen: set<string>, live: seq<LiveMonitor>, rateOk: RateParser)
    ensures var e := CheckSetting(s, seen, live, rateOk); e.Some? ==> !e.value.NoneEnabled? && !e.value.Overlapping?
  {
    hide Trim, MonitorNamed, ParseSize, ParsePoint, SplitOnce, Offers;
  }

  lemma CheckedIsOk(s: MonitorSetting, seen: set<string>, live: seq<LiveMonitor>, rateOk: RateParser)
    ensures CheckSetting(s, seen, live, rateOk).None? <==> SettingOk(s, live, rateOk) && Trim(s.output) !in seen
  {
    hide CheckFields, Trim, MonitorNamed;
  }

  lemma SeenBefore(requested: seq<MonitorSetting>, i: nat)
    requires i < |requested|
    ensures Outputs(requested[..i + 1]) == Outputs(requested[..i]) + {Trim(requested[i].output)}
    ensures Trim(requested[i].output) in Outputs(requested[..i]) <==>
            exists k | 0 <= k < i :: Trim(requested[k].output) == Trim(requested[i].output)
  {
    hide Trim;
    assert requested[..i + 1] == requested[..i] + [requested[i]];
    forall k | 0 <= k < i ensures Trim(requested[k].output) in Outputs(requested[..i]) {
      assert requested[..i][k] in requested[..i];
    }
  }

  /** One turn of the loop: the next request passes iff the longer prefix is sound, and
      a request that does not pass spoils the whole list. */
  lemma OneMoreSetting(requested: seq<MonitorSetting>, i: nat, live: seq<LiveMonitor>, rateOk: RateParser)
    requires i < |requested| && SettingsOk(requested, i, live, rateOk)
    ensures Outputs(requested[..i + 1]) == Outputs(requested[..i]) + {Trim(requested[i].output)}
    ensures CheckSetting(requested[i], Outputs(requested[..i]), live, rateOk).None? ==> SettingsOk(requested, i + 1, live, rateOk)
    ensures CheckSetting(requested[i], Outputs(requested[..i]), live, rateOk).Some? ==>
              !SettingsOk(requested, |requested|, live, rateOk)
  {
    hide CheckSetting, SettingOk, Trim;
    SeenBefore(requested, i);
    CheckedIsOk(requested[i], Outputs(requested[..i]), live, rateOk);
  }

  // -- main results ------------------------------------------------------------

  /** The request the compositor applies to an output: it goes by the exact name, and a
      later call overrides an earlier one. */
  function SentFor(requested: seq<MonitorSetting>, name: string): Option<MonitorSetting> {
    if requested == [] then None
    else
      var n := |requested| - 1;
      if requested[n].output == name then Some(requested[n]) else SentFor(requested[..n], name)
  }

  predicate Unspaced(requested: seq<MonitorSetting>) {
    forall i | 0 <= i < |requested| :: Trim(requested[i].output) == requested[i].output
  }

  /** Outputs without surrounding white space, each once. The validator trims names and
      the compositor does not, so only such requests mean the same to both. */
  predicate PlainOutputs(requested: seq<MonitorSetting>) {
    && Unspaced(requested)
    && (forall i, j | 0 <= i < j < |requested| :: requested[i].output != requested[j].output)
  }

  lemma {:induction false} SentNone(requested: seq<MonitorSetting>, name: string)
    requires forall s | s in requested :: s.output != name
    ensures SentFor(requested, name) == None
  {
    if requested != [] {
      SentNone(requested[..|requested| - 1], name);
    }
  }

  lemma {:induction false} SentAt(requested: seq<MonitorSetting>, i: nat)
    requires PlainOutputs(requested) && i < |requested|
    ensures SentFor(requested, requested[i].output) == Some(requested[i])
  {
    var n := |requested| - 1;
    if i < n {
      SentAt(requested[..n], i);
    }
  }

  lemma SentIsSetting(requested: seq<MonitorSetting>, name: string)
    requires PlainOutputs(requested)
    ensures SentFor(requested, name) == SettingFor(requested, name)
  {
    hide Trim;
    var setting := SettingFor(requested, name);
    if setting.Some? {
      var i :| 0 <= i < |requested| && requested[i] == setting.value;
      SentAt(requested, i);
    } else {
      SentNone(requested, name);
    }
  }

  /** A request carried out to the letter, as the validator pictures it: each display takes
      over what was asked for in numbers and keeps everything else. Compositors that make
      something of keywords are in `HyprPreview`. */
  function OverrideOne(setting: Option<MonitorSetting>, m: LiveMonitor): LiveMonitor {
    if setting.None? then m
    else if setting.value.disabled then m.(disabled := true)
    else
      var size := ResolvedSize(setting, m);
      var point := ResolvedPoint(setting, m);
      m.(width := size.0, height := size.1, x := point.0, y := point.1,
         scale := if setting.value.scale.Some? then setting.value.scale.value else m.scale,
         transform := ResolvedTransform(setting, m),
         disabled := false)
  }

  function Override(live: seq<LiveMonitor>, requested: seq<MonitorSetting>): (after: seq<LiveMonitor>)
    ensures |after| == |live|
    ensures forall i | 0 <= i < |live| :: after[i] == OverrideOne(SentFor(requested, live[i].name), live[i])
  {
    if live == [] then []
    else
      var n := |live| - 1;
      Override(live[..n], requested) + [OverrideOne(SentFor(requested, live[n].name), live[n])]
  }

  /** Same displays, same ones enabled, and the enabled ones in the same place. */
  predicate SameLayout(a: seq<ResolvedMonitor>, b: seq<ResolvedMonitor>) {
    && |a| == |b|
    && (forall i | 0 <= i < |a| ::
          a[i].name == b[i].name && a[i].disabled == b[i].disabled && (a[i].disabled || a[i] == b[i]))
  }

  /** The validator's picture of a request is the layout the request leads to. */
  lemma {:induction false} ResolvePredicts(requested: seq<MonitorSetting>, live: seq<LiveMonitor>)
    requires PlainOutputs(requested)
    ensures SameLayout(ResolveLayout([], Override(live, requested)), ResolveLayout(requested, live))
  {
    forall i | 0 <= i < |live|
      ensures var a, b := ResolveLayout([], Override(live, requested))[i], ResolveLayout(requested, live)[i];
              a.name == b.name && a.disabled == b.disabled && (a.disabled || a == b) {
      hide ResolveOne, OverrideOne, Trim;
      SentIsSetting(requested, live[i].name);
      NoRequest(live[i].name);
      OverridePredicts(SettingFor(requested, live[i].name), live[i]);
    }
  }

  lemma OverridePredicts(setting: Option<MonitorSetting>, m: LiveMonitor)
    ensures var a, b := ResolveOne(None, OverrideOne(setting, m)), ResolveOne(setting, m);
            a.name == b.name && a.disabled == b.disabled && (a.disabled || a == b)
  {
    hide ParseSize, ParsePoint, Logical, MinPositive, SizePart;
  }

  /** Sizes and positions of the live displays are i64 values. */
  predicate LiveFits(live: seq<LiveMonitor>) {
    forall i | 0 <= i < |live| ::
      IsI64(live[i].x) && IsI64(live[i].y) && IsI64(live[i].width) && IsI64(live[i].height)
  }

  lemma PointFits(text: string)
    ensures ParsePoint(text).Some? ==> IsI64(ParsePoint(text).value.0) && IsI64(ParsePoint(text).value.1)
  {
    hide Trim, SplitOnce;
  }

  lemma ResolvedFits(setting: Option<MonitorSetting>, m: LiveMonitor)
    requires IsI64(m.x) && IsI64(m.y)
    ensures Fits(ResolveOne(setting, m))
  {
    if setting.Some? && setting.value.position.Some? {
      PointFits(setting.value.position.value);
    }
    hide ParseSize, ParsePoint, MinPositive, SizePart, Round;
  }

  /** The requests that the compositor finds: their names have no white space around. */
  function Plain(requested: seq<MonitorSetting>): (plain: seq<MonitorSetting>)
    ensures forall s :: s in plain <==> s in requested && Trim(s.output) == s.output
  {
    if requested == [] then []
    else
      var n := |requested| - 1;
      assert requested == requested[..n] + [requested[n]];
      Plain(requested[..n]) + if Trim(requested[n].output) == requested[n].output then [requested[n]] else []
  }

  lemma {:induction false} PlainOfUnspaced(requested: seq<MonitorSetting>)
    requires Unspaced(requested)
    ensures Plain(requested) == requested
  {
    hide Trim;
    if requested != [] {
      var n := |requested| - 1;
      assert Unspaced(requested[..n]);
      PlainOfUnspaced(requested[..n]);
      assert Plain(requested) == Plain(requested[..n]) + [requested[n]];
    }
  }

  predicate DistinctTrims(requested: seq<MonitorSetting>) {
    forall i, j | 0 <= i < j < |requested| :: Trim(requested[i].output) != Trim(requested[j].output)
  }

  lemma {:induction false} PlainTrims(requested: seq<MonitorSetting>)
    requires DistinctTrims(requested)
    ensures DistinctTrims(Plain(requested))
  {
    hide Trim;
    if requested != [] {
      var n := |requested| - 1;
      PlainTrims(requested[..n]);
      OtherTrims(requested);
    }
  }

  lemma OtherTrims(requested: seq<MonitorSetting>)
    requires DistinctTrims(requested) && requested != []
    ensures var n := |requested| - 1;
            var plain := Plain(requested[..n]);
            forall i | 0 <= i < |plain| :: Trim(plain[i].output) != Trim(requested[n].output)
  {
    hide Trim;
    var n := |requested| - 1;
    var plain := Plain(requested[..n]);
    forall i | 0 <= i < |plain| ensures Trim(plain[i].output) != Trim(requested[n].output) {
      assert plain[i] in plain;
      var k :| 0 <= k < n && requested[k] == plain[i];
    }
  }

  lemma PlainDistinct(requested: seq<MonitorSetting>)
    requires DistinctTrims(requested)
    ensures DistinctTrims(Plain(requested)) && PlainOutputs(Plain(requested))
  {
    PlainTrims(requested);
    hide Trim;
    var plain := Plain(requested);
    forall i | 0 <= i < |plain| ensures Trim(plain[i].output) == plain[i].output {
      assert plain[i] in plain;
    }
  }

  lemma {:induction false} SentIsPlain(requested: seq<MonitorSetting>, name: string)
    requires Trim(name) == name
    ensures SentFor(requested, name) == SentFor(Plain(requested), name)
  {
    hide Trim;
    if requested != [] {
      var n := |requested| - 1;
      SentIsPlain(requested[..n], name);
      if Trim(requested[n].output) == requested[n].output {
        var plain := Plain(requested[..n]) + [requested[n]];
        assert plain[..|plain| - 1] == Plain(requested[..n]);
      } else {
        assert Plain(requested[..n]) + [] == Plain(requested[..n]);
      }
    }
  }

  lemma PlainSettingsOk(requested: seq<MonitorSetting>, live: seq<LiveMonitor>, rateOk: RateParser)
    requires SettingsOk(requested, |requested|, live, rateOk)
    ensures SettingsOk(Plain(requested), |Plain(requested)|, live, rateOk)
  {
    hide Trim, SettingOk;
    PlainDistinct(requested);
    var plain := Plain(requested);
    forall i | 0 <= i < |plain| ensures SettingOk(plain[i], live, rateOk) {
      assert plain[i] in plain;
      var k :| 0 <= k < |requested| && requested[k] == plain[i];
    }
  }

  /** The layout a request leads to is the validator's picture of its plain part. */
  lemma PlainPredicts(requested: seq<MonitorSetting>, live: seq<LiveMonitor>)
    requires DistinctTrims(requested) && PlainNames(live)
    ensures SameLayout(ResolveLayout([], Override(live, requested)), ResolveLayout(Plain(requested), live))
  {
    PlainDistinct(requested);
    forall i | 0 <= i < |live|
      ensures var a, b := ResolveLayout([], Override(live, requested))[i], ResolveLayout(Plain(requested), live)[i];
              a.name == b.name && a.disabled == b.disabled && (a.disabled || a == b) {
      hide ResolveOne, OverrideOne, Trim, Plain, PlainOutputs;
      SentIsPlain(requested, live[i].name);
      SentIsSetting(Plain(requested), live[i].name);
      NoRequest(live[i].name);
      OverridePredicts(SettingFor(Plain(requested), live[i].name), live[i]);
    }
  }

  lemma SameLayoutSameSafety(a: seq<ResolvedMonitor>, b: seq<ResolvedMonitor>)
    requires SameLayout(a, b)
    ensures SomeEnabled(a) <==> SomeEnabled(b)
    ensures NoClash(a) <==> NoClash(b)
    ensures NoOverlap(a) <==> NoOverlap(b)
  {
    hide Clash, Overlap;
    forall i | 0 <= i < |a| ensures Active(a[i]) <==> Active(b[i]) {
    }
  }

  /** What the validator accepts is safe exactly when it also accepts the plain part. */
  lemma {:induction false} AcceptedIsSafe(requested: seq<MonitorSetting>, live: seq<LiveMonitor>, rateOk: RateParser)
    requires PlainNames(live) && Acceptable(requested, live, rateOk)
    ensures var after := ResolveLayout([], Override(live, requested));
            SomeEnabled(after) && NoClash(after) <==> Acceptable(Plain(requested), live, rateOk)
  {
    hide NoClash, SameLayout, SettingOk, SomeEnabled, Trim;
    PlainPredicts(requested, live);
    PlainSettingsOk(requested, live, rateOk);
    SameLayoutSameSafety(ResolveLayout([], Override(live, requested)), ResolveLayout(Plain(requested), live));
  }

  ghost predicate FitsAll(layout: seq<ResolvedMonitor>) {
    forall i | 0 <= i < |layout| :: Fits(layout[i])
  }

  ghost predicate NoFalseAlarm(layout: seq<ResolvedMonitor>) {
    forall i, j | 0 <= i < j < |layout| && Active(layout[i]) && Active(layout[j]) :: !FalseAlarm(layout[i], layout[j])
  }

  /** Without a clash there is no overlap, and the other way round but for false alarms. */
  lemma NoClashNoOverlap(layout: seq<ResolvedMonitor>)
    requires FitsAll(layout)
    ensures NoClash(layout) ==> NoOverlap(layout) && NoFalseAlarm(layout)
    ensures NoOverlap(layout) && NoFalseAlarm(layout) ==> NoClash(layout)
  {
    hide Clash, Overlap, FalseAlarm;
    forall i, j | 0 <= i < j < |layout| && Active(layout[i]) && Active(layout[j])
      ensures !Clash(layout[i], layout[j]) <==> !Overlap(layout[i], layout[j]) && !FalseAlarm(layout[i], layout[j]) {
      ClashIsOverlap(layout[i], layout[j]);
      AlarmIsClash(layout[i], layout[j]);
    }
  }

  lemma AlarmIsClash(a: ResolvedMonitor, b: ResolvedMonitor)
    requires Active(a) && Active(b) && Fits(a) && Fits(b)
    ensures FalseAlarm(a, b) ==> Clash(a, b) && !Overlap(a, b)
  {
    OverlapMeets(a, b);
    SharedExactly(a.x, a.width, b.x, b.width);
    SharedExactly(a.y, a.height, b.y, b.height);
    hide Shared, Common, Wraps, Overlap;
  }

  lemma {:induction false} OverrideFits(requested: seq<MonitorSetting>, live: seq<LiveMonitor>)
    requires LiveFits(live)
    ensures FitsAll(ResolveLayout([], Override(live, requested)))
  {
    hide ResolveOne, OverrideOne, SentFor;
    forall i | 0 <= i < |live| ensures Fits(ResolveLayout([], Override(live, requested))[i]) {
      NoRequest(live[i].name);
      OverridePointFits(SentFor(requested, live[i].name), live[i]);
      ResolvedFits(None, OverrideOne(SentFor(requested, live[i].name), live[i]));
    }
  }

  lemma OverridePointFits(setting: Option<MonitorSetting>, m: LiveMonitor)
    requires IsI64(m.x) && IsI64(m.y)
    ensures IsI64(OverrideOne(setting, m).x) && IsI64(OverrideOne(setting, m).y)
    ensures OverrideOne(setting, m).name == m.name
  {
    if setting.Some? && setting.value.position.Some? {
      PointFits(setting.value.position.value);
    }
    hide ParsePoint, ParseSize, SizePart;
  }

  /** The same in pixels: an accepted request leads to an enabled display, no overlap of
      more than a pixel both ways and no false alarm iff its plain part is accepted too. */
  lemma {:induction false} AcceptedHasNoOverlap(requested: seq<MonitorSetting>, live: seq<LiveMonitor>, rateOk: RateParser)
    requires PlainNames(live) && LiveFits(live) && Acceptable(requested, live, rateOk)
    ensures var after := ResolveLayout([], Override(live, requested));
            SomeEnabled(after) && NoOverlap(after) && NoFalseAlarm(after) <==> Acceptable(Plain(requested), live, rateOk)
  {
    AcceptedIsSafe(requested, live, rateOk);
    OverrideFits(requested, live);
    hide Acceptable, NoClash, NoOverlap, NoFalseAlarm, SomeEnabled, FitsAll;
    NoClashNoOverlap(ResolveLayout([], Override(live, requested)));
  }

  const OFF: MonitorSetting := MonitorSetting("A", None, None, None, None, None, true)
  const SPACED: MonitorSetting := MonitorSetting(" B", None, None, None, None, None, false)

  lemma SpacedTrims()
    ensures Trim("A") == "A" && Trim("B") == "B" && Trim(" B") == "B"
  {
    assert " B"[1..] == "B";
  }

  lemma SpacedIsAccepted(a: LiveMonitor, b: LiveMonitor, rateOk: RateParser)
    requires a.name == "A" && b.name == "B"
    ensures Acceptable([OFF, SPACED], [a, b], rateOk)
  {
    SpacedTrims();
    hide Trim, ResolvedSize, ResolvedPoint, ResolvedScale, Logical, Clash;
    var live, requested := [a, b], [OFF, SPACED];
    assert MonitorNamed(live, "A") == 0;
    assert live[1..] == [b] && MonitorNamed([b], "B") == 0 && MonitorNamed(live, "B") == 1;
    assert requested[1..] == [SPACED] && SettingFor(requested, "A") == Some(OFF) && SettingFor(requested, "B") == Some(SPACED);
    var layout := ResolveLayout(requested, live);
    assert layout[0].disabled && !layout[1].disabled;
  }

  lemma SpacedGoesDark(a: LiveMonitor, b: LiveMonitor)
    requires a.name == "A" && b.name == "B" && b.disabled
    ensures !SomeEnabled(ResolveLayout([], Override([a, b], [OFF, SPACED])))
  {
    var requested := [OFF, SPACED];
    assert requested[..1] == [OFF] && [OFF][..0] == [];
    assert SentFor(requested, "B") == SentFor([OFF], "B") == None;
    assert SentFor(requested, "A") == SentFor([OFF], "A") == Some(OFF);
    hide ResolvedSize, ResolvedPoint, ResolvedScale, ResolvedTransform, Logical, SentFor;
    assert Override([a, b], requested)[0].disabled && Override([a, b], requested)[1].disabled;
    NoRequest("A");
    NoRequest("B");
  }

  /** An accepted request whose plain part is not: the validator counts on a display that
      the compositor does not find, and every display ends up off. */
  lemma SpacedNameCanGoDark(a: LiveMonitor, b: LiveMonitor, rateOk: RateParser)
    requires a.name == "A" && b.name == "B" && b.disabled
    ensures Acceptable([OFF, SPACED], [a, b], rateOk) && !Acceptable(Plain([OFF, SPACED]), [a, b], rateOk)
    ensures !SomeEnabled(ResolveLayout([], Override([a, b], [OFF, SPACED])))
  {
    SpacedTrims();
    SpacedIsAccepted(a, b, rateOk);
    SpacedGoesDark(a, b);
    hide Acceptable, NoClash, Override, Plain, ResolveLayout, SomeEnabled, Trim;
    AcceptedIsSafe([OFF, SPACED], [a, b], rateOk);
  }

  /** The validator leaves a way back: the only display can always be switched on. */
  lemma LoneDisplayIsAccepted(m: LiveMonitor, rateOk: RateParser)
    requires m.name != "" && Trim(m.name) == m.name
    ensures Acceptable([MonitorSetting(m.name, None, None, None, None, None, false)], [m], rateOk)
  {
    hide Trim, ResolvedSize, ResolvedPoint, ResolvedScale, Logical, Clash;
    var request := MonitorSetting(m.name, None, None, None, None, None, false);
    var live, layout := [m], ResolveLayout([request], [m]);
    assert MonitorNamed(live, m.name) == 0 && SettingFor([request], m.name) == Some(request);
    assert live[0] == m && !layout[0].disabled;
  }

  // -- the snapshot is a fixed point -------------------------------------------

  lemma {:induction false} FirstNamed(settings: seq<MonitorSetting>, i: nat)
    requires i < |settings|
    requires forall k | 0 <= k < |settings| :: Trim(settings[k].output) == settings[k].output
    requires forall k | 0 <= k < i :: settings[k].output != settings[i].output
    ensures SettingFor(settings, settings[i].output) == Some(settings[i])
  {
    hide Trim;
    if i > 0 {
      FirstNamed(settings[1..], i - 1);
    }
  }

  /** Names that the lookup by trimmed text finds again. */
  predicate PlainNames(live: seq<LiveMonitor>) {
    DistinctNames(live) && forall i | 0 <= i < |live| :: Trim(live[i].name) == live[i].name
  }

  lemma SnapshotSetting(live: seq<LiveMonitor>, i: nat)
    requires i < |live| && PlainNames(live)
    ensures SettingFor(Snapshot(live), live[i].name) == Some(SnapshotOne(live[i]))
  {
    hide Trim, ModeText, SizeText, Round;
    var settings := Snapshot(live);
    assert forall k | 0 <= k < |live| :: settings[k].output == live[k].name;
    FirstNamed(settings, i);
  }

  /** Sizes that no scale changes: nothing, and what is past measuring. */
  predicate Unscaled(pixels: int) {
    pixels == 0 || pixels == I64_MIN || pixels == I64_MAX
  }

  /** A display with a scale, or with sides that need none. */
  predicate Steady(m: LiveMonitor) {
    m.scale > 0.0 || (Unscaled(m.width) && Unscaled(m.height))
  }

  /** What the printed mode and position of a display are read back as. */
  lemma SnapshotReadsBack(m: LiveMonitor)
    requires IsI64(m.x) && IsI64(m.y) && IsI64(m.width) && IsI64(m.height)
    ensures ResolvedSize(Some(SnapshotOne(m)), m) == (m.width, m.height)
    ensures ResolvedPoint(Some(SnapshotOne(m)), m) == (m.x, m.y)
    ensures ResolvedScale(Some(SnapshotOne(m)), m) == if m.scale > 0.0 then ResolvedScale(None, m) else 1.0
    ensures ResolvedTransform(Some(SnapshotOne(m)), m) == m.transform && SnapshotOne(m).disabled == m.disabled
  {
    var size, rate := SizeText(m.width, m.height), IntText(SaturateI64(Round(m.refreshRate)));
    SizeTextTrimmed(m.width, m.height);
    SizePartOfMode(size, rate);
    ParseOfSizeText(m.width, m.height);
    ParseOfPointText(m.x, m.y);
    hide ParseSize, ParsePoint, SizePart, SizeText, IntText, MinPositive, Round;
  }

  /** A setting that keeps everything but the scale. */
  lemma OnlyScale(s: MonitorSetting, m: LiveMonitor)
    requires ResolvedSize(Some(s), m) == (m.width, m.height) && ResolvedPoint(Some(s), m) == (m.x, m.y)
    requires ResolvedTransform(Some(s), m) == m.transform && s.disabled == m.disabled
    ensures var one, other := ResolvedScale(Some(s), m), ResolvedScale(None, m);
            ResolveOne(Some(s), m) == ResolveOne(None, m)
            <==> Logical(m.width, one) == Logical(m.width, other) && Logical(m.height, one) == Logical(m.height, other)
  {
    assert ResolvedSize(None, m) == (m.width, m.height) && ResolvedPoint(None, m) == (m.x, m.y);
    assert ResolvedTransform(None, m) == m.transform;
    hide Logical, ResolvedSize, ResolvedPoint, ResolvedScale, ResolvedTransform;
  }

  lemma ScaleMatters(pixels: int)
    requires IsI64(pixels)
    ensures Logical(pixels, 1.0) == Logical(pixels, MinPositive()) <==> Unscaled(pixels)
  {
    HugeLogical(pixels);
    ScaleOne(pixels);
    hide Logical, MinPositive;
  }

  /** Printing one display and resolving the print changes nothing about its place iff the
      display has a scale or needs none. */
  lemma SnapshotOneResolves(m: LiveMonitor)
    requires IsI64(m.x) && IsI64(m.y) && IsI64(m.width) && IsI64(m.height)
    ensures ResolveOne(Some(SnapshotOne(m)), m) == ResolveOne(None, m) <==> Steady(m)
  {
    hide Logical, MinPositive, ResolveOne, ResolvedSize, ResolvedPoint, ResolvedScale, ResolvedTransform, SnapshotOne, Unscaled;
    SnapshotReadsBack(m);
    OnlyScale(SnapshotOne(m), m);
    if m.scale <= 0.0 {
      NoScale(m);
      ScaleMatters(m.width);
      ScaleMatters(m.height);
    }
  }

  lemma NoScale(m: LiveMonitor)
    requires m.scale <= 0.0
    ensures ResolvedScale(None, m) == MinPositive()
  {
    hide MinPositive;
  }

  /** Taking the snapshot as a request resolves to the layout without any request iff every
      display is steady. */
  lemma {:induction false} SnapshotIsFixedPoint(live: seq<LiveMonitor>)
    requires PlainNames(live) && LiveFits(live)
    ensures ResolveLayout(Snapshot(live), live) == ResolveLayout([], live)
            <==> forall i | 0 <= i < |live| :: Steady(live[i])
  {
    hide ResolveOne, SnapshotOne, SettingFor, Steady, Trim;
    var a, b := ResolveLayout(Snapshot(live), live), ResolveLayout([], live);
    forall i | 0 <= i < |live| ensures a[i] == b[i] <==> Steady(live[i]) {
      SnapshotSetting(live, i);
      SnapshotOneResolves(live[i]);
      NoRequest(live[i].name);
    }
    if forall i | 0 <= i < |live| :: Steady(live[i]) {
      assert forall i | 0 <= i < |live| :: a[i] == b[i];
    } else {
      var i :| 0 <= i < |live| && !Steady(live[i]);
      assert a[i] != b[i];
    }
  }

  lemma NoRequest(name: string)
    ensures SettingFor([], name) == None
  {
  }

  lemma {:induction false} Pow2Grows(a: nat, b: nat)
    requires a <= b
    ensures Pow2(a) <= Pow2(b)
    decreases b - a
  {
    if a < b {
      Pow2Grows(a, b - 1);
    }
  }

  lemma WordPow2()
    ensures Pow2(64) == 0x1_0000_0000_0000_0000 as real
  {
    Pow2Step(0, 16);
    Pow2Step(16, 16);
    Pow2Step(32, 16);
    Pow2Step(48, 16);
    assert Pow2(16) == 65536.0 by {
      assert Pow2(4) == 16.0;
      Pow2Step(4, 4);
      Pow2Step(8, 8);
    }
  }

  lemma {:induction false} Pow2Step(a: nat, b: nat)
    ensures Pow2(a + b) == Pow2(a) * Pow2(b)
  {
    if b > 0 {
      Pow2Step(a, b - 1);
      assert Pow2(a + b) == 2.0 * Pow2(a + b - 1);
    }
  }

  lemma {:induction false} HugeLogical(pixels: int)
    ensures Logical(pixels, MinPositive()) == if pixels > 0 then I64_MAX else if pixels < 0 then I64_MIN else 0
  {
    Pow2Grows(64, 1022);
    WordPow2();
    var p := Pow2(1022);
    DivideByInverse(pixels as real, p);
    if pixels > 0 {
      AtLeast(pixels as real, p);
    } else if pixels < 0 {
      AtLeast(-pixels as real, p);
    }
  }

  lemma AtLeast(x: real, p: real)
    requires x >= 1.0 && p >= 0.0
    ensures x * p >= p
  {
  }

  lemma DivideByInverse(x: real, p: real)
    requires p >= 1.0
    ensures x / (1.0 / p) == x * p
  {
    var q := 1.0 / p;
    assert q * p == 1.0;
    assert x * p * q == x;
  }

  lemma ScaleOne(pixels: int)
    requires IsI64(pixels)
    ensures Logical(pixels, 1.0) == pixels
  {
  }
}
