/** The greeter's layout file (`backend/src/greeter.rs`): one checked line for each
    display, with the lines of absent displays carried over from the file before. */
module GreeterLayout {
  import opened Basics
  import opened Text
  import opened HyprModel

  datatype Keyboard = Keyboard(layout: string, variant: string, options: string)

  // -- recognisers -------------------------------------------------------------

  predicate IsAlnum(c: char) {
    IsDigit(c) || 'a' <= c <= 'z' || 'A' <= c <= 'Z'
  }

  predicate IsNameChar(c: char) {
    IsAlnum(c) || c == '-' || c == '_' || c == '.'
  }

  predicate IsKeyboardChar(c: char) {
    IsAlnum(c) || c == '_' || c == ',' || c == ':' || c == '(' || c == ')' || c == '+' || c == '-'
  }

  predicate IsOutputName(value: string) {
    value != [] && forall i | 0 <= i < |value| :: IsNameChar(value[i])
  }

  predicate IsKeyboardValue(value: string) {
    forall i | 0 <= i < |value| :: IsKeyboardChar(value[i])
  }

  predicate IsDigits(value: string) {
    value != [] && AllDigits(value)
  }

  predicate IsNumber(part: string, signed: bool) {
    IsDigits(if signed && part != [] && part[0] == '-' then part[1..] else part)
  }

  predicate IsPair(value: string, signed: bool) {
    match SplitOnce(value, {'x'})
    case None => false
    case Some((first, second)) => IsNumber(first, signed) && IsNumber(second, signed)
  }

  /** Digits, with or without a point and more digits. */
  predicate IsDecimal(value: string) {
    match SplitOnce(value, {'.'})
    case None => IsDigits(value)
    case Some((whole, fraction)) => IsDigits(whole) && IsDigits(fraction)
  }

  predicate IsMode(value: string) {
    match SplitOnce(value, {'@'})
    case None => false
    case Some((size, rate)) => IsPair(size, false) && IsDecimal(rate)
  }

  predicate IsPosition(value: string) {
    IsPair(value, true)
  }

  // -- lines of a text ---------------------------------------------------------

  predicate NewlineFree(s: string) {
    '\n' !in s
  }

  function StripCr(s: string): string {
    if s != [] && s[|s| - 1] == '\r' then s[..|s| - 1] else s
  }

  /** `str::lines`: cut at newlines; a carriage return before one belongs to it. */
  function Lines(text: string): seq<string> {
    if text == [] then []
    else
      var n := FindAny(text, {'\n'});
      if n == |text| then [text] else [StripCr(text[..n])] + Lines(text[n + 1..])
  }

  function Unlines(lines: seq<string>): string {
    if lines == [] then [] else lines[0] + ['\n'] + Unlines(lines[1..])
  }

  // -- the file ----------------------------------------------------------------

  /** How an f64 is printed; only the form of the text matters here. */
  type ScaleText = real -> string

  /** The standard library prints positive finite numbers as plain decimals. */
  ghost predicate PrintsDecimals(show: ScaleText) {
    forall x | x > 0.0 :: IsDecimal(show(x))
  }

  const MONITOR := "monitor="
  const DISABLED := "disabled="
  const KB_LAYOUT := "kb_layout="
  const KB_VARIANT := "kb_variant="
  const KB_OPTIONS := "kb_options="
  const HEADER := "# Generated by the " + "Vellum Shell backend " + "\U{2013} ne szerkeszd " + "kezzel."
  const HEADER_NOTE := "# A greeter compositor " + "(greeter/hyprland.lua) " + "soronkent, ellenorizve " + "olvassa."

  function LineScale(s: MonitorSetting): (scale: real)
    ensures scale > 0.0
  {
    if s.scale.Some? && s.scale.value > 0.0 then s.scale.value else 1.0
  }

  function LineTransform(s: MonitorSetting): (transform: nat)
    ensures transform <= 7
  {
    if s.transform.Some? && s.transform.value <= 7 then s.transform.value else 0
  }

  /** The settings that get a line. */
  predicate HasLine(s: MonitorSetting) {
    && IsOutputName(s.output)
    && (s.disabled
        || (s.mode.Some? && IsMode(s.mode.value) && s.position.Some? && IsPosition(s.position.value)))
  }

  function Joined(a: string, b: string, c: string, d: string, e: string): string {
    a + [' '] + (b + [' '] + (c + [' '] + (d + [' '] + e)))
  }

  function MonitorLine(s: MonitorSetting, show: ScaleText): string
    requires HasLine(s)
  {
    if s.disabled then DISABLED + s.output
    else
      MONITOR + Joined(s.output, s.mode.value, s.position.value, show(LineScale(s)), NatText(LineTransform(s)))
  }

  function StripPrefix(s: string, prefix: string): Option<string> {
    if prefix <= s then Some(s[|prefix|..]) else None
  }

  /** The display an earlier line describes, if it describes one. */
  function LineOutput(line: string): Option<string> {
    var rest := StripPrefix(line, MONITOR);
    var name :=
      if rest.Some? then Some(rest.value[..FindAny(rest.value, {' '})])
      else StripPrefix(line, DISABLED);
    if name.Some? && IsOutputName(name.value) then name else None
  }

  function KeyLine(key: string, value: string): seq<string> {
    if IsKeyboardValue(value) then [key + value] else []
  }

  function KeyboardLines(k: Keyboard): seq<string> {
    KeyLine(KB_LAYOUT, k.layout) + KeyLine(KB_VARIANT, k.variant) + KeyLine(KB_OPTIONS, k.options)
  }

  function HeadLines(k: Keyboard): seq<string> {
    [HEADER, HEADER_NOTE] + KeyboardLines(k)
  }

  function MonitorLines(monitors: seq<MonitorSetting>, show: ScaleText): seq<string> {
    if monitors == [] then []
    else
      var n := |monitors| - 1;
      MonitorLines(monitors[..n], show) + if HasLine(monitors[n]) then [MonitorLine(monitors[n], show)] else []
  }

  function Written(monitors: seq<MonitorSetting>): set<string> {
    set s | s in monitors && HasLine(s) :: s.output
  }

  /** The first line of every display that is not written yet. */
  function Carried(lines: seq<string>, written: set<string>): seq<string> {
    if lines == [] then []
    else
      var name := LineOutput(lines[0]);
      if name.Some? && name.value !in written then
        [lines[0]] + Carried(lines[1..], written + {name.value})
      else Carried(lines[1..], written)
  }

  function LayoutLines(monitors: seq<MonitorSetting>, k: Keyboard, previous: string, show: ScaleText): seq<string> {
    HeadLines(k) + MonitorLines(monitors, show) + Carried(Lines(previous), Written(monitors))
  }

  lemma {:induction false} UnlinesConcat(a: seq<string>, b: seq<string>)
    ensures Unlines(a + b) == Unlines(a) + Unlines(b)
  {
    if a == [] {
      assert a + b == b;
    } else {
      assert (a + b)[1..] == a[1..] + b;
      UnlinesConcat(a[1..], b);
      Associate(a[0] + ['\n'], Unlines(a[1..]), Unlines(b));
    }
  }

  lemma Associate(a: string, b: string, c: string)
    ensures a + (b + c) == (a + b) + c
  {
  }

  lemma UnlinesOne(line: string)
    ensures Unlines([line]) == line + ['\n']
  {
    assert Unlines([line][1..]) == [];
  }

  lemma UnlinesAppend(lines: seq<string>, line: string)
    ensures Unlines(lines + [line]) == Unlines(lines) + line + ['\n']
  {
    UnlinesConcat(lines, [line]);
    UnlinesOne(line);
    Associate(Unlines(lines), line, ['\n']);
  }

  lemma NoMonitors(monitors: seq<MonitorSetting>, show: ScaleText)
    ensures MonitorLines(monitors[..0], show) == [] && Written(monitors[..0]) == {}
  {
  }

  lemma OneMoreMonitor(monitors: seq<MonitorSetting>, i: nat, show: ScaleText)
    requires i < |monitors|
    ensures MonitorLines(monitors[..i + 1], show) ==
            MonitorLines(monitors[..i], show) + if HasLine(monitors[i]) then [MonitorLine(monitors[i], show)] else []
    ensures Written(monitors[..i + 1]) ==
            Written(monitors[..i]) + if HasLine(monitors[i]) then {monitors[i].output} else {}
  {
    hide HasLine, MonitorLine;
    assert monitors[..i + 1][..i] == monitors[..i];
    assert monitors[..i + 1] == monitors[..i] + [monitors[i]];
  }

  lemma OneMoreCarried(lines: seq<string>, i: nat, written: set<string>)
    requires i < |lines|
    ensures var name := LineOutput(lines[i]);
            Carried(lines[i..], written) ==
            if name.Some? && name.value !in written then [lines[i]] + Carried(lines[i + 1..], written + {name.value})
            else Carried(lines[i + 1..], written)
  {
    hide LineOutput;
    assert lines[i..][0] == lines[i] && lines[i..][1..] == lines[i + 1..];
  }

  lemma NoneCarried(lines: seq<string>, written: set<string>)
    ensures Carried(lines[|lines|..], written) == [] && lines[0..] == lines
  {
  }

  /** `render_layout`, with its three loops. */
  method RenderLayout(monitors: seq<MonitorSetting>, k: Keyboard, previous: string, show: ScaleText) returns (out: string)
    ensures out == Unlines(LayoutLines(monitors, k, previous, show))
  {
    hide Unlines, MonitorLine, MonitorLines, HasLine, LineOutput, Lines, IsKeyboardValue, Carried, Written;
    hide HEADER, HEADER_NOTE, KB_LAYOUT, KB_VARIANT, KB_OPTIONS, FindAny;
    out := HEADER + ['\n'] + HEADER_NOTE + ['\n'];
    ghost var done := [HEADER, HEADER_NOTE];
    HeaderText();
    var keys := [(KB_LAYOUT, k.layout), (KB_VARIANT, k.variant), (KB_OPTIONS, k.options)];
    var i := 0;
    while i < 3
      invariant i <= 3 && out == Unlines(done)
      invariant done == [HEADER, HEADER_NOTE]
                        + (if i > 0 then KeyLine(KB_LAYOUT, k.layout) else [])
                        + (if i > 1 then KeyLine(KB_VARIANT, k.variant) else [])
                        + (if i > 2 then KeyLine(KB_OPTIONS, k.options) else [])
    {
      if IsKeyboardValue(keys[i].1) {
        UnlinesAppend(done, keys[i].0 + keys[i].1);
        out := out + (keys[i].0 + keys[i].1) + ['\n'];
        done := done + [keys[i].0 + keys[i].1];
      }
      i := i + 1;
    }
    ghost var head := done;
    assert head == HeadLines(k);
    var written := {};
    NoMonitors(monitors, show);
    i := 0;
    while i < |monitors|
      invariant i <= |monitors| && out == Unlines(done)
      invariant done == head + MonitorLines(monitors[..i], show) && written == Written(monitors[..i])
    {
      OneMoreMonitor(monitors, i, show);
      if HasLine(monitors[i]) {
        var line := MonitorLine(monitors[i], show);
        written := written + {monitors[i].output};
        UnlinesAppend(done, line);
        out := out + line + ['\n'];
        done := done + [line];
      }
      i := i + 1;
    }
    assert monitors[..i] == monitors;
    var lines := Lines(previous);
    i := 0;
    ghost var carried := [];
    while i < |lines|
      invariant i <= |lines| && out == Unlines(done)
      invariant done == head + MonitorLines(monitors, show) + carried
      invariant carried + Carried(lines[i..], written) == Carried(lines, Written(monitors))
    {
      var name := LineOutput(lines[i]);
      OneMoreCarried(lines, i, written);
      if name.Some? && name.value !in written {
        written := written + {name.value};
        UnlinesAppend(done, lines[i]);
        out := out + lines[i] + ['\n'];
        done := done + [lines[i]];
        carried := carried + [lines[i]];
      }
      i := i + 1;
    }
    NoneCarried(lines, written);
    assert carried == carried + [];
  }

  lemma HeaderText()
    ensures HEADER + ['\n'] + HEADER_NOTE + ['\n'] == Unlines([HEADER, HEADER_NOTE])
  {
    hide HEADER, HEADER_NOTE;
    UnlinesOne(HEADER);
    UnlinesAppend([HEADER], HEADER_NOTE);
    assert [HEADER] + [HEADER_NOTE] == [HEADER, HEADER_NOTE];
  }
}
