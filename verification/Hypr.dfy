/** Displays (`backend/src/modules/hypr.rs`): settings, the live state, their text
    forms, and where a request would put every display. */
module HyprModel {
  import opened Basics
  import opened Text

  /** What the settings app asks for one output; an unset field is left alone. */
  datatype MonitorSetting = MonitorSetting(
    output: string,
    mode: Option<string>,
    position: Option<string>,
    scale: Option<real>,
    transform: Option<nat>,
    vrr: Option<nat>,
    disabled: bool)

  /** One display as the compositor reports it. */
  datatype LiveMonitor = LiveMonitor(
    name: string,
    width: int,
    height: int,
    refreshRate: real,
    x: int,
    y: int,
    scale: real,
    transform: nat,
    vrr: Option<bool>,
    disabled: bool,
    availableModes: seq<string>)

  /** A display's place after a request, in logical pixels. */
  datatype ResolvedMonitor = ResolvedMonitor(name: string, x: int, y: int, width: int, height: int, disabled: bool)

  // -- numbers -----------------------------------------------------------------

  /** `f64::round`: halves go away from zero. */
  function Round(x: real): int {
    if x >= 0.0 then (x + 0.5).Floor else -((-x + 0.5).Floor)
  }

  /** `as i64` saturates. */
  function SaturateI64(n: int): int {
    if n < I64_MIN then I64_MIN else if n > I64_MAX then I64_MAX else n
  }

  function Pow2(n: nat): (p: real)
    ensures p >= 1.0
  {
    if n == 0 then 1.0 else 2.0 * Pow2(n - 1)
  }

  /** `f64::MIN_POSITIVE`, two to the power of -1022. */
  function MinPositive(): (r: real)
    ensures 0.0 < r <= 1.0
  {
    1.0 / Pow2(1022)
  }

  // -- text forms --------------------------------------------------------------

  /** "1920x1080" */
  function ParseSize(value: string): Option<(int, int)> {
    match SplitOnce(Trim(value), {'x'})
    case None => None
    case Some((widthText, heightText)) =>
      match (ParseI64(Trim(widthText)), ParseI64(Trim(heightText)))
      case (Some(width), Some(height)) => if width > 0 && height > 0 then Some((width, height)) else None
      case _ => None
  }

  /** "-1920x0": cut at the first 'x' after the first character. */
  function ParsePoint(value: string): Option<(int, int)> {
    var text := Trim(value);
    if text == [] then None
    else
      match SplitOnce(text[1..], {'x'})
      case None => None
      case Some((rest, yText)) =>
        match (ParseI64(Trim([text[0]] + rest)), ParseI64(Trim(yText)))
        case (Some(x), Some(y)) => Some((x, y))
        case _ => None
  }

  /** The part of a mode before its refresh rate. */
  function SizePart(mode: string): string {
    mode[..FindAny(mode, {'@'})]
  }

  function SizeText(width: int, height: int): string {
    IntText(width) + ['x'] + IntText(height)
  }

  function ModeText(m: LiveMonitor): string {
    SizeText(m.width, m.height) + ['@'] + IntText(SaturateI64(Round(m.refreshRate)))
  }

  function SnapshotOne(m: LiveMonitor): MonitorSetting {
    MonitorSetting(
      m.name,
      Some(ModeText(m)),
      Some(SizeText(m.x, m.y)),
      Some(if m.scale > 0.0 then m.scale else 1.0),
      Some(m.transform),
      if m.vrr.Some? then Some(if m.vrr.value then 1 else 0) else None,
      m.disabled)
  }

  /** `snapshot_settings`: the whole live state, with every field spelt out. */
  function Snapshot(live: seq<LiveMonitor>): (settings: seq<MonitorSetting>)
    ensures |settings| == |live|
    ensures forall i | 0 <= i < |live| :: settings[i] == SnapshotOne(live[i])
  {
    seq(|live|, i requires 0 <= i < |live| => SnapshotOne(live[i]))
  }

  // -- resolving a request -----------------------------------------------------

  /** The request for an output: the first whose trimmed name is the display's. */
  function SettingFor(requested: seq<MonitorSetting>, name: string): (s: Option<MonitorSetting>)
    ensures s.Some? ==> s.value in requested && Trim(s.value.output) == name
    ensures s.None? ==> forall item | item in requested :: Trim(item.output) != name
  {
    if requested == [] then None
    else if Trim(requested[0].output) == name then Some(requested[0])
    else SettingFor(requested[1..], name)
  }

  function ResolvedSize(setting: Option<MonitorSetting>, m: LiveMonitor): (int, int) {
    var parsed := if setting.Some? && setting.value.mode.Some? then ParseSize(SizePart(setting.value.mode.value)) else None;
    if parsed.Some? then parsed.value else (m.width, m.height)
  }

  function ResolvedPoint(setting: Option<MonitorSetting>, m: LiveMonitor): (int, int) {
    var parsed := if setting.Some? && setting.value.position.Some? then ParsePoint(setting.value.position.value) else None;
    if parsed.Some? then parsed.value else (m.x, m.y)
  }

  function ResolvedScale(setting: Option<MonitorSetting>, m: LiveMonitor): (s: real)
    ensures s > 0.0
  {
    var scale := if setting.Some? && setting.value.scale.Some? then setting.value.scale.value else m.scale;
    if scale > MinPositive() then scale else MinPositive()
  }

  function ResolvedTransform(setting: Option<MonitorSetting>, m: LiveMonitor): nat {
    if setting.Some? && setting.value.transform.Some? then setting.value.transform.value else m.transform
  }

  function Logical(pixels: int, scale: real): int
    requires scale > 0.0
  {
    SaturateI64(Round(pixels as real / scale))
  }

  function ResolveOne(setting: Option<MonitorSetting>, m: LiveMonitor): ResolvedMonitor {
    var size := ResolvedSize(setting, m);
    var point := ResolvedPoint(setting, m);
    var scale := ResolvedScale(setting, m);
    var width, height := Logical(size.0, scale), Logical(size.1, scale);
    var turned := ResolvedTransform(setting, m) % 2 == 1;
    ResolvedMonitor(m.name, point.0, point.1,
                    if turned then height else width, if turned then width else height,
                    if setting.Some? then setting.value.disabled else m.disabled)
  }

  function ResolveLayout(requested: seq<MonitorSetting>, live: seq<LiveMonitor>): (layout: seq<ResolvedMonitor>)
    ensures |layout| == |live|
    ensures forall i | 0 <= i < |live| :: layout[i] == ResolveOne(SettingFor(requested, live[i].name), live[i])
  {
    seq(|live|, i requires 0 <= i < |live| => ResolveOne(SettingFor(requested, live[i].name), live[i]))
  }

  predicate DistinctNames(live: seq<LiveMonitor>) {
    forall i, j | 0 <= i < j < |live| :: live[i].name != live[j].name
  }

  // -- printing and parsing back -----------------------------------------------

  lemma IntTextChars(i: int)
    ensures var s := IntText(i); s != [] && Trimmed(s) && Free(s, {'x', '@'})
    ensures Free(IntText(i)[1..], {'x'}) && Free(IntText(i), {'x'}) && Free(IntText(i), {'@'})
  {
    var digits := NatText(if i < 0 then -i else i);
    NatTextValue(if i < 0 then -i else i);
    DigitsChars(digits);
    hide NatText, NatValue, IsSpace;
    if i < 0 {
      assert IntText(i)[1..] == digits;
    }
  }

  lemma DigitsChars(digits: string)
    requires AllDigits(digits) && digits != []
    ensures Trimmed(digits) && Free(digits, {'x', '@'}) && Free(digits[1..], {'x'})
    ensures Free(digits, {'x'}) && Free(digits, {'@'}) && Trimmed(['-'] + digits)
  {
    assert (['-'] + digits)[|digits|] == digits[|digits| - 1];
  }

  lemma SizeTextTrimmed(a: int, b: int)
    ensures Trimmed(SizeText(a, b)) && SizeText(a, b) != [] && Free(SizeText(a, b), {'@'})
  {
    IntTextChars(a);
    IntTextChars(b);
  }

  lemma ParseOfSizeText(width: int, height: int)
    requires IsI64(width) && IsI64(height)
    ensures ParseSize(SizeText(width, height)) == if width > 0 && height > 0 then Some((width, height)) else None
  {
    SizeTextTrimmed(width, height);
    TrimIsIdentity(SizeText(width, height));
    IntTextChars(width);
    IntTextChars(height);
    SplitOnceAt(IntText(width), 'x', IntText(height), {'x'});
    TrimIsIdentity(IntText(width));
    TrimIsIdentity(IntText(height));
    ParseOfIntText(width);
    ParseOfIntText(height);
  }

  /** Positions survive printing and parsing, negative ones included. */
  lemma ParseOfPointText(x: int, y: int)
    requires IsI64(x) && IsI64(y)
    ensures ParsePoint(SizeText(x, y)) == Some((x, y))
  {
    var text := SizeText(x, y);
    SizeTextTrimmed(x, y);
    TrimIsIdentity(text);
    IntTextChars(x);
    IntTextChars(y);
    var rest := IntText(x)[1..];
    assert text[1..] == rest + ['x'] + IntText(y);
    SplitOnceAt(rest, 'x', IntText(y), {'x'});
    assert [text[0]] + rest == IntText(x);
    TrimIsIdentity(IntText(x));
    TrimIsIdentity(IntText(y));
    ParseOfIntText(x);
    ParseOfIntText(y);
    hide IntText, ParseI64, SplitOnce, Trim;
  }

  lemma SizePartOfMode(size: string, rate: string)
    requires Free(size, {'@'})
    ensures SizePart(size + ['@'] + rate) == size
  {
    FindAnyIs(size + ['@'] + rate, {'@'}, |size|);
  }
}
