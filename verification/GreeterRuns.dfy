/** The layout file over any number of sessions: a map from displays to lines that the
    greeter reads back entry by entry. */
module GreeterRuns {
  import opened Basics
  import opened Text
  import opened HyprModel
  import opened GreeterLayout
  import opened GreeterConfig
  import P = GreeterPatterns

  // -- one line, written and read ----------------------------------------------

  /** What the greeter should make of a setting. */
  function EntryOf(s: MonitorSetting, show: ScaleText): Entry
    requires HasLine(s)
  {
    if s.disabled then Off(s.output)
    else
      var scale := if s.scale.Some? && s.scale.value > 0.0 then s.scale.value else 1.0;
      var transform := if s.transform.Some? && s.transform.value <= 7 then s.transform.value else 0;
      On(s.output, s.mode.value, s.position.value, show(scale), NatText(transform))
  }

  lemma {:induction false} WordLengthIs(s: string, n: nat)
    requires n <= |s| && (forall i | 0 <= i < n :: In(s[i], Word)) && (n < |s| ==> !In(s[n], Word))
    ensures WordLength(s) == n
  {
    hide In;
    if n > 0 {
      WordLengthIs(s[1..], n - 1);
    }
  }

  lemma KeyValueOf(key: string, value: string)
    requires key != [] && forall i | 0 <= i < |key| :: In(key[i], Word)
    ensures KeyValue(key + ['='] + value) == Some((key, value))
  {
    var line := key + ['='] + value;
    WordLengthIs(line, |key|);
    assert line[..|key|] == key && line[|key| + 1..] == value;
  }

  lemma FieldsCons(a: string, rest: string)
    requires IsField(a)
    ensures Fields(a + [' '] + rest) == [a] + Fields(rest)
    ensures FindAny(a + [' '] + rest, {' '}) == |a|
  {
    var s := a + [' '] + rest;
    FindAnyIs(s, {' '}, |a|);
    assert s[..|a|] == a && s[|a| + 1..] == rest;
  }

  lemma FieldsLast(a: string)
    requires IsField(a)
    ensures Fields(a) == [a]
  {
    FindAnyIs(a, {' '}, |a|);
  }

  lemma CutJoined(a: string, b: string, c: string, d: string, e: string)
    requires IsField(a) && IsField(b) && IsField(c) && IsField(d) && IsField(e)
    ensures Fields(Joined(a, b, c, d, e)) == [a] + ([b] + ([c] + ([d] + [e])))
    ensures FindAny(Joined(a, b, c, d, e), {' '}) == |a|
  {
    hide IsField, Fields, FindAny;
    FieldsLast(e);
    FieldsCons(d, e);
    FieldsCons(c, d + [' '] + e);
    FieldsCons(b, c + [' '] + (d + [' '] + e));
    FieldsCons(a, b + [' '] + (c + [' '] + (d + [' '] + e)));
  }

  lemma FieldsOfJoined(a: string, b: string, c: string, d: string, e: string)
    requires IsField(a) && IsField(b) && IsField(c) && IsField(d) && IsField(e)
    ensures FiveFields(Joined(a, b, c, d, e)) == Some([a, b, c, d, e])
    ensures FindAny(Joined(a, b, c, d, e), {' '}) == |a|
  {
    hide IsField, Fields, FindAny, Joined;
    CutJoined(a, b, c, d, e);
    assert [a] + ([b] + ([c] + ([d] + [e]))) == [a, b, c, d, e];
  }

  lemma MatchedIsField(items: seq<Item>, s: string)
    requires P.Inky(items) && Match(items, s) && s != []
    ensures IsField(s)
  {
    P.MatchedIsInky(items, s);
  }

  lemma NotEmpty(s: string)
    ensures s == [] ==> !IsOutputName(s) && !IsMode(s) && !IsPosition(s) && !IsDecimal(s)
  {
  }

  lemma ModeIsField(mode: string)
    requires IsMode(mode)
    ensures Match(MODE, mode) && IsField(mode)
  {
    P.ModeAgrees(mode);
    NotEmpty(mode);
    hide Match, IsMode, IsField;
    MatchedIsField(MODE, mode);
  }

  lemma PositionIsField(position: string)
    requires IsPosition(position)
    ensures Match(POSITION, position) && IsField(position)
  {
    P.PositionAgrees(position);
    NotEmpty(position);
    hide Match, IsPosition, IsField;
    MatchedIsField(POSITION, position);
  }

  lemma ScaleIsField(scale: string)
    requires IsDecimal(scale)
    ensures Match(SCALE, scale) && IsField(scale)
  {
    P.ScaleAgrees(scale);
    P.LooseMeans(scale);
    NotEmpty(scale);
    hide Match, IsDecimal, IsField;
    MatchedIsField(SCALE, scale);
  }

  lemma TransformIsField(transform: nat)
    requires transform <= 7
    ensures Match(TRANSFORM, NatText(transform)) && IsField(NatText(transform))
  {
    P.TransformAgrees(transform);
    hide Match, IsField;
    MatchedIsField(TRANSFORM, NatText(transform));
  }

  /** The parts of a line pass the reader's patterns, and so hold no white space. */
  lemma PartsAreAccepted(s: MonitorSetting, show: ScaleText)
    requires HasLine(s) && !s.disabled && PrintsDecimals(show)
    ensures var scale, transform := show(LineScale(s)), NatText(LineTransform(s));
            && Match(OUTPUT, s.output) && Match(MODE, s.mode.value) && Match(POSITION, s.position.value)
            && Match(SCALE, scale) && Match(TRANSFORM, transform)
            && IsField(s.output) && IsField(s.mode.value) && IsField(s.position.value)
            && IsField(scale) && IsField(transform)
  {
    hide Match, IsMode, IsPosition, IsDecimal, IsOutputName, IsField, NatText;
    OutputIsField(s.output);
    ModeIsField(s.mode.value);
    PositionIsField(s.position.value);
    ScaleIsField(show(LineScale(s)));
    TransformIsField(LineTransform(s));
  }

  lemma OutputIsField(name: string)
    requires IsOutputName(name)
    ensures IsField(name) && Match(OUTPUT, name)
  {
    P.OutputAgrees(name);
  }

  lemma {:induction false} OnLineReads(a: string, b: string, c: string, d: string, e: string)
    requires IsField(a) && IsField(b) && IsField(c) && IsField(d) && IsField(e)
    requires Match(OUTPUT, a) && Match(MODE, b) && Match(POSITION, c) && Match(SCALE, d) && Match(TRANSFORM, e)
    ensures ReadLine(MONITOR + Joined(a, b, c, d, e)) == On(a, b, c, d, e)
  {
    hide Match, IsField, Joined, FiveFields;
    var value := Joined(a, b, c, d, e);
    FieldsOfJoined(a, b, c, d, e);
    KeyValueOf("monitor", value);
    assert MONITOR + value == "monitor" + ['='] + value;
  }

  lemma OffLineReads(name: string)
    requires Match(OUTPUT, name)
    ensures ReadLine(DISABLED + name) == Off(name)
  {
    hide Match;
    KeyValueOf("disabled", name);
    assert DISABLED + name == "disabled" + ['='] + name;
  }

  /** Every line the writer makes is accepted, and says what the setting said. */
  lemma LineReadsBack(s: MonitorSetting, show: ScaleText)
    requires HasLine(s) && PrintsDecimals(show)
    ensures ReadLine(MonitorLine(s, show)) == EntryOf(s, show)
  {
    hide ReadLine, Match, IsField;
    OutputIsField(s.output);
    if s.disabled {
      OffLineReads(s.output);
    } else {
      PartsAreAccepted(s, show);
      OnLineReads(s.output, s.mode.value, s.position.value, show(LineScale(s)), NatText(LineTransform(s)));
    }
  }

  lemma OnLineOutput(a: string, b: string, c: string, d: string, e: string)
    requires IsField(a) && IsField(b) && IsField(c) && IsField(d) && IsField(e) && IsOutputName(a)
    ensures LineOutput(MONITOR + Joined(a, b, c, d, e)) == Some(a)
  {
    hide IsField, IsOutputName;
    var value := Joined(a, b, c, d, e);
    FieldsOfJoined(a, b, c, d, e);
    assert (MONITOR + value)[|MONITOR|..] == value;
    assert value[..|a|] == a;
  }

  lemma OffLineOutput(name: string)
    requires IsOutputName(name)
    ensures LineOutput(DISABLED + name) == Some(name)
  {
    hide IsOutputName;
    assert (DISABLED + name)[0] == 'd';
    assert (DISABLED + name)[|DISABLED|..] == name;
  }

  /** The writer finds its own lines again. */
  lemma LineNamesOutput(s: MonitorSetting, show: ScaleText)
    requires HasLine(s) && PrintsDecimals(show)
    ensures LineOutput(MonitorLine(s, show)) == Some(s.output)
  {
    hide LineOutput, Match, IsField, IsOutputName;
    if s.disabled {
      OffLineOutput(s.output);
    } else {
      PartsAreAccepted(s, show);
      OnLineOutput(s.output, s.mode.value, s.position.value, show(LineScale(s)), NatText(LineTransform(s)));
    }
  }

  // -- lines of the file -------------------------------------------------------

  predicate Clean(line: string) {
    NewlineFree(line) && StripCr(line) == line
  }

  lemma CleanConcat(a: string, b: string)
    requires NewlineFree(a) && b != [] && Clean(b)
    ensures Clean(a + b)
  {
  }

  lemma FieldIsClean(s: string)
    requires IsField(s)
    ensures Clean(s) && s != []
  {
  }

  lemma JoinedIsClean(a: string, b: string, c: string, d: string, e: string)
    requires IsField(a) && IsField(b) && IsField(c) && IsField(d) && IsField(e)
    ensures Clean(Joined(a, b, c, d, e)) && Joined(a, b, c, d, e) != []
  {
    FieldIsClean(a);
    FieldIsClean(b);
    FieldIsClean(c);
    FieldIsClean(d);
    FieldIsClean(e);
    hide IsField, Clean;
    assert NewlineFree([' ']);
    PrependField(d, e);
    PrependField(c, d + [' '] + e);
    PrependField(b, c + [' '] + (d + [' '] + e));
    PrependField(a, b + [' '] + (c + [' '] + (d + [' '] + e)));
  }

  lemma PrependField(a: string, rest: string)
    requires Clean(a) && Clean(rest) && rest != []
    ensures Clean(a + [' '] + rest)
  {
    CleanConcat(a + [' '], rest);
  }

  lemma {:induction false} LineIsClean(s: MonitorSetting, show: ScaleText)
    requires HasLine(s) && PrintsDecimals(show)
    ensures Clean(MonitorLine(s, show))
  {
    hide Match, IsField, IsOutputName, Clean;
    assert NewlineFree(MONITOR) && NewlineFree(DISABLED);
    OutputIsField(s.output);
    if s.disabled {
      FieldIsClean(s.output);
      CleanConcat(DISABLED, s.output);
    } else {
      PartsAreAccepted(s, show);
      var value := Joined(s.output, s.mode.value, s.position.value, show(LineScale(s)), NatText(LineTransform(s)));
      JoinedIsClean(s.output, s.mode.value, s.position.value, show(LineScale(s)), NatText(LineTransform(s)));
      CleanConcat(MONITOR, value);
    }
  }

  function StripAll(lines: seq<string>): (stripped: seq<string>)
    ensures |stripped| == |lines|
    ensures forall i | 0 <= i < |lines| :: stripped[i] == StripCr(lines[i])
  {
    if lines == [] then [] else [StripCr(lines[0])] + StripAll(lines[1..])
  }

  /** Reading a file back: Lua gets the lines as they were written, and the daemon gets
      them without a final carriage return. */
  lemma {:induction false} LinesOfUnlines(lines: seq<string>)
    requires forall i | 0 <= i < |lines| :: NewlineFree(lines[i])
    ensures LuaLines(Unlines(lines)) == lines
    ensures Lines(Unlines(lines)) == StripAll(lines)
  {
    hide StripCr;
    if lines != [] {
      var line, rest := lines[0], Unlines(lines[1..]);
      LinesOfUnlines(lines[1..]);
      FindAnyIs(line + ['\n'] + rest, {'\n'}, |line|);
      var text := line + ['\n'] + rest;
      assert text[..|line|] == line && text[|line| + 1..] == rest;
    }
  }

  ghost predicate CleanAll(lines: seq<string>) {
    forall i | 0 <= i < |lines| :: Clean(lines[i])
  }

  lemma LinesOfClean(lines: seq<string>)
    requires CleanAll(lines)
    ensures LuaLines(Unlines(lines)) == lines && Lines(Unlines(lines)) == lines
  {
    hide StripCr, NewlineFree;
    LinesOfUnlines(lines);
  }

  // -- the lines of one display ------------------------------------------------

  /** The lines that describe a display, in order. */
  function For(lines: seq<string>, name: string): seq<string> {
    if lines == [] then []
    else (if LineOutput(lines[0]) == Some(name) then [lines[0]] else []) + For(lines[1..], name)
  }

  function First(lines: seq<string>): seq<string> {
    if lines == [] then [] else [lines[0]]
  }

  /** The setting in a list that gets a line for a display. */
  function ValidFor(monitors: seq<MonitorSetting>, name: string): (s: Option<MonitorSetting>)
    ensures s.Some? ==> HasLine(s.value) && s.value.output == name && s.value in monitors
    ensures s.None? ==> forall m | m in monitors && HasLine(m) :: m.output != name
  {
    if monitors == [] then None
    else
      var n := |monitors| - 1;
      if HasLine(monitors[n]) && monitors[n].output == name then Some(monitors[n])
      else
        assert monitors == monitors[..n] + [monitors[n]];
        ValidFor(monitors[..n], name)
  }

  predicate UniqueOutputs(monitors: seq<MonitorSetting>) {
    forall i, j | 0 <= i < j < |monitors| :: monitors[i].output != monitors[j].output
  }

  lemma {:induction false} ForConcat(a: seq<string>, b: seq<string>, name: string)
    ensures For(a + b, name) == For(a, name) + For(b, name)
  {
    hide LineOutput;
    if a == [] {
      assert a + b == b;
    } else {
      assert (a + b)[1..] == a[1..] + b;
      ForConcat(a[1..], b, name);
    }
  }

  lemma ForOne(line: string, name: string)
    ensures For([line], name) == if LineOutput(line) == Some(name) then [line] else []
  {
    hide LineOutput;
    assert For([line][1..], name) == [];
  }

  lemma {:induction false} ForNone(lines: seq<string>, name: string)
    requires forall i | 0 <= i < |lines| :: LineOutput(lines[i]) != Some(name)
    ensures For(lines, name) == []
  {
    hide LineOutput;
    if lines != [] {
      ForNone(lines[1..], name);
    }
  }

  /** A line of the file's head: it describes no display and is one clean line. */
  ghost predicate HeadLine(line: string) {
    LineOutput(line).None? && Clean(line) && !ReadLine(line).On? && !ReadLine(line).Off?
  }

  lemma NoteIsHead(line: string)
    requires line != [] && line[0] == '#' && Clean(line)
    ensures HeadLine(line) && ReadLine(line) == Nothing
  {
  }

  lemma PiecesAreClean(a: string, b: string, c: string, d: string)
    requires NewlineFree(a) && NewlineFree(b) && NewlineFree(c) && Clean(d) && d != []
    requires a != [] && a[0] == '#'
    ensures var s := a + b + c + d; Clean(s) && s != [] && s[0] == '#'
  {
  }

  lemma FirstNoteIsClean()
    ensures Clean(HEADER) && HEADER != [] && HEADER[0] == '#'
  {
    PiecesAreClean("# Generated by the ", "Vellum Shell backend ", "\U{2013} ne szerkeszd ", "kezzel.");
  }

  lemma SecondNoteIsClean()
    ensures Clean(HEADER_NOTE) && HEADER_NOTE != [] && HEADER_NOTE[0] == '#'
  {
    PiecesAreClean("# A greeter compositor ", "(greeter/hyprland.lua) ", "soronkent, ellenorizve ", "olvassa.");
  }

  lemma HeaderIsClean()
    ensures Clean(HEADER) && HEADER != [] && HEADER[0] == '#'
    ensures Clean(HEADER_NOTE) && HEADER_NOTE != [] && HEADER_NOTE[0] == '#'
  {
    hide Clean, HEADER, HEADER_NOTE;
    FirstNoteIsClean();
    SecondNoteIsClean();
  }

  lemma KeyLineIsHead(key: string, value: string)
    requires IsKeyboardKey(key) && IsKeyboardValue(value)
    ensures HeadLine(key + ['='] + value)
    ensures ReadLine(key + ['='] + value) == if value == "" then Nothing else Set(key, value)
  {
    var line := key + ['='] + value;
    KeyValueOf(key, value);
    P.KeyboardAgrees(value);
    assert line[0] == 'k';
    hide Match, KeyValue;
    if value == [] {
      assert line[|line| - 1] == '=';
    } else {
      assert line[|line| - 1] == value[|value| - 1];
    }
  }

  ghost predicate HeadAll(lines: seq<string>) {
    forall i | 0 <= i < |lines| :: HeadLine(lines[i])
  }

  lemma HeadConcat(a: seq<string>, b: seq<string>)
    requires HeadAll(a) && HeadAll(b)
    ensures HeadAll(a + b)
  {
  }

  lemma KeyLinesAreHead(key: string, value: string)
    requires IsKeyboardKey(key)
    ensures HeadAll(KeyLine(key + ['='], value))
  {
    hide HeadLine, IsKeyboardValue, IsKeyboardKey;
    if IsKeyboardValue(value) {
      KeyLineIsHead(key, value);
    }
  }

  lemma KeyNames()
    ensures KB_LAYOUT == "kb_layout" + ['='] && KB_VARIANT == "kb_variant" + ['='] && KB_OPTIONS == "kb_options" + ['=']
  {
  }

  lemma HeadIsHead(k: Keyboard)
    ensures HeadAll(HeadLines(k))
  {
    HeaderIsClean();
    NoteIsHead(HEADER);
    NoteIsHead(HEADER_NOTE);
    KeyNames();
    hide HeadLine, KeyLine, HEADER, HEADER_NOTE, KB_LAYOUT, KB_VARIANT, KB_OPTIONS;
    KeyLinesAreHead("kb_layout", k.layout);
    KeyLinesAreHead("kb_variant", k.variant);
    KeyLinesAreHead("kb_options", k.options);
    HeadConcat(KeyLine(KB_LAYOUT, k.layout), KeyLine(KB_VARIANT, k.variant));
    HeadConcat(KeyLine(KB_LAYOUT, k.layout) + KeyLine(KB_VARIANT, k.variant), KeyLine(KB_OPTIONS, k.options));
    HeadConcat([HEADER, HEADER_NOTE], KeyboardLines(k));
  }

  lemma LastIsNew(monitors: seq<MonitorSetting>)
    requires UniqueOutputs(monitors) && monitors != []
    ensures var front, last := monitors[..|monitors| - 1], monitors[|monitors| - 1];
            UniqueOutputs(front) && ValidFor(front, last.output) == None
  {
    hide HasLine;
    var n := |monitors| - 1;
    assert forall i | 0 <= i < n :: monitors[..n][i] == monitors[i];
  }

  lemma {:induction false} ForMonitors(monitors: seq<MonitorSetting>, name: string, show: ScaleText)
    requires PrintsDecimals(show) && UniqueOutputs(monitors)
    ensures var valid := ValidFor(monitors, name);
            For(MonitorLines(monitors, show), name) == if valid.Some? then [MonitorLine(valid.value, show)] else []
  {
    hide For, LineOutput, MonitorLine, HasLine, PrintsDecimals, UniqueOutputs;
    if monitors == [] {
      ForNone([], name);
    } else {
      var n := |monitors| - 1;
      var last := monitors[n];
      LastIsNew(monitors);
      ForMonitors(monitors[..n], name, show);
      if HasLine(last) {
        var line := MonitorLine(last, show);
        LineNamesOutput(last, show);
        ForConcat(MonitorLines(monitors[..n], show), [line], name);
        ForOne(line, name);
      } else {
        assert MonitorLines(monitors[..n], show) + [] == MonitorLines(monitors[..n], show);
      }
    }
  }

  lemma {:induction false} ForCarried(lines: seq<string>, written: set<string>, name: string)
    ensures For(Carried(lines, written), name) == if name in written then [] else First(For(lines, name))
  {
    hide LineOutput;
    if lines != [] {
      var named := LineOutput(lines[0]);
      if named.Some? && named.value !in written {
        ForCarried(lines[1..], written + {named.value}, name);
        ForConcat([lines[0]], Carried(lines[1..], written + {named.value}), name);
        ForOne(lines[0], name);
      } else {
        ForCarried(lines[1..], written, name);
      }
    }
  }

  lemma WrittenMeans(monitors: seq<MonitorSetting>, name: string)
    ensures name in Written(monitors) <==> ValidFor(monitors, name).Some?
  {
    hide HasLine;
  }

  /** One rendering, whatever the file before it: each display has its new line if the
      list has a valid one, and otherwise keeps the first line it had. */
  lemma {:induction false} RenderedLines(monitors: seq<MonitorSetting>, k: Keyboard, previous: string, name: string,
                                         show: ScaleText)
    requires PrintsDecimals(show) && UniqueOutputs(monitors)
    ensures var valid := ValidFor(monitors, name);
            For(LayoutLines(monitors, k, previous, show), name) ==
            if valid.Some? then [MonitorLine(valid.value, show)] else First(For(Lines(previous), name))
  {
    hide LineOutput, MonitorLine, HasLine, PrintsDecimals, HeadLines, Lines;
    var head, data, carried := HeadLines(k), MonitorLines(monitors, show), Carried(Lines(previous), Written(monitors));
    ForConcat(head + data, carried, name);
    ForConcat(head, data, name);
    HeadIsHead(k);
    ForNone(head, name);
    ForMonitors(monitors, name, show);
    ForCarried(Lines(previous), Written(monitors), name);
    WrittenMeans(monitors, name);
  }

  // -- runs --------------------------------------------------------------------

  /** One `write_layout`: whether the old file could be read and the new one written. */
  datatype Call = Call(monitors: seq<MonitorSetting>, keyboard: Keyboard, readable: bool, written: bool)

  function Before(text: string, call: Call): string {
    if call.readable then text else ""
  }

  /** The file after a sequence of calls; at first it is empty. */
  function File(calls: seq<Call>, show: ScaleText): string {
    if calls == [] then ""
    else
      var n := |calls| - 1;
      var text, call := File(calls[..n], show), calls[n];
      if call.written then Unlines(LayoutLines(call.monitors, call.keyboard, Before(text, call), show)) else text
  }

  predicate UniqueCalls(calls: seq<Call>) {
    forall i | 0 <= i < |calls| :: UniqueOutputs(calls[i].monitors)
  }

  /** The setting of the latest written call that had a valid one for the display; a call
      that could not read the file forgets what came before. */
  function Latest(calls: seq<Call>, name: string): (s: Option<MonitorSetting>)
    ensures s.Some? ==> HasLine(s.value) && s.value.output == name
  {
    if calls == [] then None
    else
      var n := |calls| - 1;
      var valid := ValidFor(calls[n].monitors, name);
      if !calls[n].written then Latest(calls[..n], name)
      else if valid.Some? then valid
      else if calls[n].readable then Latest(calls[..n], name)
      else None
  }

  ghost predicate DataLine(line: string, show: ScaleText) {
    exists s :: HasLine(s) && line == MonitorLine(s, show)
  }

  /** A line that a rendering can put into the file. */
  ghost predicate Known(line: string, show: ScaleText) {
    HeadLine(line) || DataLine(line, show)
  }

  ghost predicate KnownAll(lines: seq<string>, show: ScaleText) {
    forall i | 0 <= i < |lines| :: Known(lines[i], show)
  }

  lemma {:induction false} KnownIsClean(line: string, show: ScaleText)
    requires PrintsDecimals(show) && Known(line, show)
    ensures Clean(line)
  {
    if !HeadLine(line) {
      var s :| HasLine(s) && line == MonitorLine(s, show);
      LineIsClean(s, show);
    }
  }

  lemma {:induction false} CarriedKnown(lines: seq<string>, written: set<string>, show: ScaleText)
    requires KnownAll(lines, show)
    ensures KnownAll(Carried(lines, written), show)
  {
    hide LineOutput, Known;
    if lines != [] {
      var named := LineOutput(lines[0]);
      CarriedKnown(lines[1..], if named.Some? && named.value !in written then written + {named.value} else written, show);
    }
  }

  lemma {:induction false} MonitorLinesKnown(monitors: seq<MonitorSetting>, show: ScaleText)
    ensures KnownAll(MonitorLines(monitors, show), show)
  {
    hide MonitorLine, HasLine, HeadLine;
    if monitors != [] {
      MonitorLinesKnown(monitors[..|monitors| - 1], show);
    }
  }

  lemma KnownConcat(a: seq<string>, b: seq<string>, show: ScaleText)
    requires KnownAll(a, show) && KnownAll(b, show)
    ensures KnownAll(a + b, show)
  {
  }

  lemma LayoutKnown(monitors: seq<MonitorSetting>, k: Keyboard, previous: string, show: ScaleText)
    requires KnownAll(Lines(previous), show)
    ensures KnownAll(LayoutLines(monitors, k, previous, show), show)
  {
    hide HeadLine, HeadLines, DataLine, Lines;
    var head, data, carried := HeadLines(k), MonitorLines(monitors, show), Carried(Lines(previous), Written(monitors));
    HeadIsHead(k);
    MonitorLinesKnown(monitors, show);
    CarriedKnown(Lines(previous), Written(monitors), show);
    KnownConcat(head, data, show);
    KnownConcat(head + data, carried, show);
  }

  lemma {:induction false} KnownLinesReadBack(lines: seq<string>, show: ScaleText)
    requires PrintsDecimals(show) && KnownAll(lines, show)
    ensures Lines(Unlines(lines)) == lines && LuaLines(Unlines(lines)) == lines
  {
    hide Clean, Known, PrintsDecimals;
    forall i | 0 <= i < |lines| ensures Clean(lines[i]) {
      KnownIsClean(lines[i], show);
    }
    LinesOfClean(lines);
  }

  lemma NoLines()
    ensures Lines("") == [] && LuaLines("") == []
  {
  }

  /** Both ends see the same lines, and each is one a rendering can make. */
  lemma {:induction false} FileIsKnown(calls: seq<Call>, show: ScaleText)
    requires PrintsDecimals(show)
    ensures KnownAll(Lines(File(calls, show)), show)
    ensures LuaLines(File(calls, show)) == Lines(File(calls, show))
  {
    hide Known, Lines, LuaLines, LayoutLines, Unlines, PrintsDecimals;
    NoLines();
    if calls != [] {
      var n := |calls| - 1;
      var text, call := File(calls[..n], show), calls[n];
      FileIsKnown(calls[..n], show);
      if call.written {
        LayoutKnown(call.monitors, call.keyboard, Before(text, call), show);
        KnownLinesReadBack(LayoutLines(call.monitors, call.keyboard, Before(text, call), show), show);
      }
    }
  }

  lemma FileAfter(calls: seq<Call>, call: Call, show: ScaleText)
    requires PrintsDecimals(show) && call.written
    ensures Lines(File(calls + [call], show)) ==
            LayoutLines(call.monitors, call.keyboard, Before(File(calls, show), call), show)
  {
    hide Known, Lines, LuaLines, LayoutLines, Unlines, PrintsDecimals;
    assert (calls + [call])[..|calls|] == calls;
    NoLines();
    FileIsKnown(calls, show);
    LayoutKnown(call.monitors, call.keyboard, Before(File(calls, show), call), show);
    KnownLinesReadBack(LayoutLines(call.monitors, call.keyboard, Before(File(calls, show), call), show), show);
  }

  /** After any sequence of calls a display has at most one line: the one from the latest
      call that had a valid setting for it. */
  lemma {:induction false} FileIsLatest(calls: seq<Call>, name: string, show: ScaleText)
    requires PrintsDecimals(show) && UniqueCalls(calls)
    ensures var latest := Latest(calls, name);
            For(Lines(File(calls, show)), name) == if latest.Some? then [MonitorLine(latest.value, show)] else []
  {
    hide LineOutput, Lines, LayoutLines, Unlines, MonitorLine, HasLine, PrintsDecimals;
    NoLines();
    if calls != [] {
      var n := |calls| - 1;
      var text, call := File(calls[..n], show), calls[n];
      FileIsLatest(calls[..n], name, show);
      if call.written {
        FileAfter(calls[..n], call, show);
        assert calls[..n] + [call] == calls;
        RenderedLines(call.monitors, call.keyboard, Before(text, call), name, show);
      }
    }
  }

  // -- what the greeter makes of it --------------------------------------------

  /** The registrations of one display. */
  function EntriesFor(entries: seq<Entry>, name: string): seq<Entry> {
    if entries == [] then []
    else
      var n := |entries| - 1;
      EntriesFor(entries[..n], name) +
      if (entries[n].On? || entries[n].Off?) && entries[n].name == name then [entries[n]] else []
  }

  function ReadAll(lines: seq<string>): (entries: seq<Entry>)
    ensures |entries| == |lines|
  {
    if lines == [] then [] else [ReadLine(lines[0])] + ReadAll(lines[1..])
  }

  lemma {:induction false} EntriesForConcat(a: seq<Entry>, b: seq<Entry>, name: string)
    ensures EntriesFor(a + b, name) == EntriesFor(a, name) + EntriesFor(b, name)
  {
    if b == [] {
      assert a + b == a;
    } else {
      assert (a + b)[..|a| + |b| - 1] == a + b[..|b| - 1];
      EntriesForConcat(a, b[..|b| - 1], name);
    }
  }

  lemma {:induction false} RegisteredConcat(a: seq<string>, b: seq<string>)
    ensures Registered(a + b) == Registered(a) + Registered(b)
  {
    hide ReadLine;
    if b == [] {
      assert a + b == a;
    } else {
      assert (a + b)[..|a| + |b| - 1] == a + b[..|b| - 1];
      RegisteredConcat(a, b[..|b| - 1]);
    }
  }

  lemma RegisteredOne(line: string)
    ensures var entry := ReadLine(line); Registered([line]) == if entry.On? || entry.Off? then [entry] else []
  {
    hide ReadLine;
    assert Registered([line][..0]) == [];
  }

  /** Reader and writer agree on which display a line is about, and every line about a
      display is accepted. */
  lemma {:induction false} KnownLineAgrees(line: string, show: ScaleText)
    requires PrintsDecimals(show) && Known(line, show)
    ensures var entry, name := ReadLine(line), LineOutput(line);
            if name.Some? then (entry.On? || entry.Off?) && entry.name == name.value else !entry.On? && !entry.Off?
  {
    hide ReadLine, LineOutput, PrintsDecimals, MonitorLine, HasLine;
    if !HeadLine(line) {
      var s :| HasLine(s) && line == MonitorLine(s, show);
      LineReadsBack(s, show);
      LineNamesOutput(s, show);
    }
  }

  lemma EntriesOne(entry: Entry, name: string)
    ensures EntriesFor([entry], name) == if (entry.On? || entry.Off?) && entry.name == name then [entry] else []
  {
    assert EntriesFor([entry][..0], name) == [];
  }

  lemma {:induction false} LineEntries(line: string, name: string, show: ScaleText)
    requires PrintsDecimals(show) && Known(line, show)
    ensures EntriesFor(Registered([line]), name) == if LineOutput(line) == Some(name) then [ReadLine(line)] else []
  {
    hide ReadLine, LineOutput, Known, PrintsDecimals, Registered, EntriesFor;
    KnownLineAgrees(line, show);
    RegisteredOne(line);
    EntriesOne(ReadLine(line), name);
    NoEntries(name);
  }

  lemma NoEntries(name: string)
    ensures EntriesFor([], name) == [] && Registered([]) == []
  {
  }

  lemma {:induction false} EntriesAreLines(lines: seq<string>, name: string, show: ScaleText)
    requires PrintsDecimals(show) && KnownAll(lines, show)
    ensures EntriesFor(Registered(lines), name) == ReadAll(For(lines, name))
  {
    hide ReadLine, LineOutput, Known, PrintsDecimals, Registered, EntriesFor;
    NoEntries(name);
    if lines != [] {
      EntriesAreLines(lines[1..], name, show);
      RegisteredConcat([lines[0]], lines[1..]);
      assert lines == [lines[0]] + lines[1..];
      EntriesForConcat(Registered([lines[0]]), Registered(lines[1..]), name);
      LineEntries(lines[0], name, show);
      assert ([lines[0]] + For(lines[1..], name))[1..] == For(lines[1..], name);
      assert [] + For(lines[1..], name) == For(lines[1..], name);
    }
  }

  /** The greeter registers a display exactly as the latest valid setting for it says,
      once, and registers no display that never had one. */
  lemma GreeterSeesLatest(calls: seq<Call>, name: string, show: ScaleText)
    requires PrintsDecimals(show) && UniqueCalls(calls)
    ensures var latest := Latest(calls, name);
            EntriesFor(Registered(LuaLines(File(calls, show))), name) ==
            if latest.Some? then [EntryOf(latest.value, show)] else []
  {
    hide ReadLine, LineOutput, Known, PrintsDecimals, Registered, EntriesFor, Lines, LuaLines, File;
    hide MonitorLine, EntryOf, HasLine;
    var lines := Lines(File(calls, show));
    FileIsKnown(calls, show);
    FileIsLatest(calls, name, show);
    EntriesAreLines(lines, name, show);
    var latest := Latest(calls, name);
    if latest.Some? {
      LineReadsBack(latest.value, show);
      var line := MonitorLine(latest.value, show);
      assert [line][1..] == [];
    }
  }

  /** No line of the file is lost on the greeter: one that describes a display is
      registered for that display. */
  lemma EveryLineIsAccepted(calls: seq<Call>, i: nat, show: ScaleText)
    requires PrintsDecimals(show) && i < |LuaLines(File(calls, show))|
    ensures var line := LuaLines(File(calls, show))[i];
            var entry := ReadLine(line);
            LineOutput(line).Some? ==> (entry.On? || entry.Off?) && entry.name == LineOutput(line).value
  {
    hide ReadLine, LineOutput, Known, PrintsDecimals, Lines, LuaLines, File;
    FileIsKnown(calls, show);
    KnownLineAgrees(LuaLines(File(calls, show))[i], show);
  }

  // -- the keyboard ------------------------------------------------------------

  /** A value the session can hand over: valid and not empty. */
  function Override(table: map<string, string>, key: string, value: string): map<string, string> {
    if value != "" && IsKeyboardValue(value) then table[key := value] else table
  }

  lemma {:induction false} KeyboardConcat(a: seq<string>, b: seq<string>, system: map<string, string>)
    ensures KeyboardAfter(a + b, system) == KeyboardAfter(b, KeyboardAfter(a, system))
  {
    hide ReadLine;
    if b == [] {
      assert a + b == a;
    } else {
      assert (a + b)[..|a| + |b| - 1] == a + b[..|b| - 1];
      KeyboardConcat(a, b[..|b| - 1], system);
    }
  }

  lemma KeyboardOne(line: string, system: map<string, string>)
    ensures KeyboardAfter([line], system) ==
            if ReadLine(line).Set? then system[ReadLine(line).key := ReadLine(line).value] else system
  {
    hide ReadLine;
    assert KeyboardAfter([line][..0], system) == system;
  }

  lemma KeyLineSets(key: string, value: string, system: map<string, string>)
    requires IsKeyboardKey(key)
    ensures KeyboardAfter(KeyLine(key + ['='], value), system) == Override(system, key, value)
  {
    hide ReadLine, IsKeyboardValue, IsKeyboardKey, KeyboardAfter, HeadLine;
    if IsKeyboardValue(value) {
      KeyLineIsHead(key, value);
      KeyboardOne(key + ['='] + value, system);
    } else {
      KeyboardNone(system);
    }
  }

  lemma KeyboardNone(system: map<string, string>)
    ensures KeyboardAfter([], system) == system
  {
  }

  lemma NotesSetNothing(system: map<string, string>)
    ensures KeyboardAfter([HEADER, HEADER_NOTE], system) == system
  {
    HeaderIsClean();
    NoteIsHead(HEADER);
    NoteIsHead(HEADER_NOTE);
    hide ReadLine, HeadLine, HEADER, HEADER_NOTE;
    assert [HEADER, HEADER_NOTE] == [HEADER] + [HEADER_NOTE];
    KeyboardConcat([HEADER], [HEADER_NOTE], system);
    KeyboardOne(HEADER, system);
    KeyboardOne(HEADER_NOTE, system);
  }

  function Session(system: map<string, string>, k: Keyboard): map<string, string> {
    Override(Override(Override(system, "kb_layout", k.layout), "kb_variant", k.variant), "kb_options", k.options)
  }

  lemma KeyboardLinesSet(k: Keyboard, system: map<string, string>)
    ensures KeyboardAfter(KeyboardLines(k), system) == Session(system, k)
  {
    hide ReadLine, KeyLine, KeyboardAfter, Override;
    KeyNames();
    var layout, variant, options := KeyLine(KB_LAYOUT, k.layout), KeyLine(KB_VARIANT, k.variant), KeyLine(KB_OPTIONS, k.options);
    KeyboardConcat(layout + variant, options, system);
    KeyboardConcat(layout, variant, system);
    KeyLineSets("kb_layout", k.layout, system);
    var first := Override(system, "kb_layout", k.layout);
    KeyLineSets("kb_variant", k.variant, first);
    KeyLineSets("kb_options", k.options, Override(first, "kb_variant", k.variant));
  }

  lemma {:induction false} DisplaysSetNothing(lines: seq<string>, system: map<string, string>)
    requires forall i | 0 <= i < |lines| :: !ReadLine(lines[i]).Set?
    ensures KeyboardAfter(lines, system) == system
  {
    hide ReadLine;
    if lines != [] {
      DisplaysSetNothing(lines[..|lines| - 1], system);
    }
  }

  lemma {:induction false} CarriedAreDisplays(lines: seq<string>, written: set<string>)
    ensures forall i | 0 <= i < |Carried(lines, written)| ::
              Carried(lines, written)[i] in lines && LineOutput(Carried(lines, written)[i]).Some?
  {
    hide LineOutput;
    if lines != [] {
      var named := LineOutput(lines[0]);
      CarriedAreDisplays(lines[1..], if named.Some? && named.value !in written then written + {named.value} else written);
    }
  }

  lemma {:induction false} MonitorLinesAreDisplays(monitors: seq<MonitorSetting>, show: ScaleText)
    requires PrintsDecimals(show)
    ensures forall i | 0 <= i < |MonitorLines(monitors, show)| ::
              LineOutput(MonitorLines(monitors, show)[i]).Some? && !ReadLine(MonitorLines(monitors, show)[i]).Set?
  {
    hide LineOutput, ReadLine, MonitorLine, HasLine, PrintsDecimals;
    if monitors != [] {
      var n := |monitors| - 1;
      MonitorLinesAreDisplays(monitors[..n], show);
      if HasLine(monitors[n]) {
        LineNamesOutput(monitors[n], show);
        LineReadsBack(monitors[n], show);
      }
    }
  }

  lemma CarriedSetNothing(previous: string, written: set<string>, system: map<string, string>, show: ScaleText)
    requires PrintsDecimals(show) && KnownAll(Lines(previous), show)
    ensures KeyboardAfter(Carried(Lines(previous), written), system) == system
  {
    hide LineOutput, ReadLine, Known, PrintsDecimals, Lines;
    var lines := Lines(previous);
    CarriedAreDisplays(lines, written);
    forall i | 0 <= i < |Carried(lines, written)| ensures !ReadLine(Carried(lines, written)[i]).Set? {
      KnownLineAgrees(Carried(lines, written)[i], show);
    }
    DisplaysSetNothing(Carried(lines, written), system);
  }

  /** The greeter's keyboard is the one of the last session that wrote the file; values
      that are empty or invalid leave the system's own in place. */
  lemma GreeterSeesKeyboard(calls: seq<Call>, call: Call, system: map<string, string>, show: ScaleText)
    requires PrintsDecimals(show) && call.written
    ensures KeyboardAfter(LuaLines(File(calls + [call], show)), system) == Session(system, call.keyboard)
  {
    hide ReadLine, PrintsDecimals, Lines, LuaLines, File, KeyboardLines, Session, Known, HEADER, HEADER_NOTE;
    var previous := Before(File(calls, show), call);
    var k, data, carried := call.keyboard, MonitorLines(call.monitors, show), Carried(Lines(previous), Written(call.monitors));
    FileIsKnown(calls + [call], show);
    FileAfter(calls, call, show);
    KeyboardConcat(HeadLines(k) + data, carried, system);
    KeyboardConcat(HeadLines(k), data, system);
    KeyboardConcat([HEADER, HEADER_NOTE], KeyboardLines(k), system);
    NotesSetNothing(system);
    KeyboardLinesSet(k, system);
    MonitorLinesAreDisplays(call.monitors, show);
    DisplaysSetNothing(data, Session(system, k));
    NoLines();
    FileIsKnown(calls, show);
    CarriedSetNothing(previous, Written(call.monitors), Session(system, k), show);
  }

  // -- writing twice -----------------------------------------------------------

  lemma {:induction false} LinesHaveNoNewline(text: string)
    ensures forall i | 0 <= i < |Lines(text)| :: NewlineFree(Lines(text)[i])
  {
    hide NewlineFree;
    if text != [] {
      var n := FindAny(text, {'\n'});
      UpToNewline(text);
      if n < |text| {
        LinesHaveNoNewline(text[n + 1..]);
      } else {
        assert text[..n] == text;
      }
    }
  }

  lemma UpToNewline(text: string)
    ensures var line := text[..FindAny(text, {'\n'})]; NewlineFree(line) && NewlineFree(StripCr(line))
  {
    FindAnyMeaning(text, {'\n'});
  }

  /** A line that ends in a name does not end in a carriage return. */
  lemma NameEnds(line: string, prefix: string)
    requires prefix <= line && IsOutputName(line[|prefix|..])
    ensures StripCr(line) == line
  {
    var name := line[|prefix|..];
    assert name[|name| - 1] == line[|line| - 1];
  }

  lemma MonitorStripped(line: string)
    requires MONITOR <= line && FindAny(line[|MONITOR|..], {' '}) < |line| - |MONITOR|
    ensures LineOutput(StripCr(line)) == LineOutput(line)
  {
    var rest, short := line[|MONITOR|..], StripCr(line);
    var n := FindAny(rest, {' '});
    FindAnyMeaning(rest, {' '});
    if short != line {
      assert rest[|rest| - 1] == '\r';
      assert short[|MONITOR|..] == rest[..|rest| - 1];
      FindAnyIs(rest[..|rest| - 1], {' '}, n);
      assert rest[..|rest| - 1][..n] == rest[..n];
    }
  }

  lemma StripKeepsOutput(line: string)
    ensures LineOutput(line).Some? ==> LineOutput(StripCr(line)) == LineOutput(line)
  {
    hide IsOutputName, StripCr, FindAny;
    if LineOutput(line).Some? {
      if !(MONITOR <= line) {
        NameEnds(line, DISABLED);
      } else {
        var rest := line[|MONITOR|..];
        var n := FindAny(rest, {' '});
        if n == |rest| {
          assert rest[..n] == rest;
          NameEnds(line, MONITOR);
        } else {
          MonitorStripped(line);
        }
      }
    }
  }

  /** Lines of displays that are not written yet, one for each. */
  predicate FreshNames(lines: seq<string>, written: set<string>) {
    && (forall i | 0 <= i < |lines| :: LineOutput(lines[i]).Some? && LineOutput(lines[i]).value !in written)
    && (forall i, j | 0 <= i < j < |lines| :: LineOutput(lines[i]) != LineOutput(lines[j]))
  }

  lemma {:induction false} CarriedFresh(lines: seq<string>, written: set<string>)
    ensures FreshNames(Carried(lines, written), written)
  {
    hide LineOutput;
    if lines != [] {
      var named := LineOutput(lines[0]);
      CarriedFresh(lines[1..], if named.Some? && named.value !in written then written + {named.value} else written);
    }
  }

  lemma {:induction false} CarriedKeeps(lines: seq<string>, written: set<string>)
    requires FreshNames(lines, written)
    ensures Carried(lines, written) == lines
  {
    hide LineOutput;
    if lines != [] {
      CarriedKeeps(lines[1..], written + {LineOutput(lines[0]).value});
    }
  }

  /** Lines that a rendering does not carry over. */
  predicate Covered(lines: seq<string>, written: set<string>) {
    forall i | 0 <= i < |lines| :: LineOutput(lines[i]).None? || LineOutput(lines[i]).value in written
  }

  lemma {:induction false} CarriedSkips(a: seq<string>, b: seq<string>, written: set<string>)
    requires Covered(a, written)
    ensures Carried(a + b, written) == Carried(b, written)
  {
    hide LineOutput;
    if a == [] {
      assert a + b == b;
    } else {
      assert (a + b)[1..] == a[1..] + b;
      CarriedSkips(a[1..], b, written);
    }
  }

  lemma {:induction false} MonitorLinesWritten(monitors: seq<MonitorSetting>, show: ScaleText)
    requires PrintsDecimals(show)
    ensures forall i | 0 <= i < |MonitorLines(monitors, show)| ::
              && LineOutput(MonitorLines(monitors, show)[i]).Some?
              && LineOutput(MonitorLines(monitors, show)[i]).value in Written(monitors)
              && Clean(MonitorLines(monitors, show)[i])
  {
    hide LineOutput, MonitorLine, HasLine, PrintsDecimals, Clean;
    if monitors != [] {
      var n := |monitors| - 1;
      MonitorLinesWritten(monitors[..n], show);
      assert Written(monitors[..n]) <= Written(monitors);
      if HasLine(monitors[n]) {
        LineNamesOutput(monitors[n], show);
        LineIsClean(monitors[n], show);
      }
    }
  }

  lemma FixedLines(monitors: seq<MonitorSetting>, k: Keyboard, show: ScaleText)
    requires PrintsDecimals(show)
    ensures var fixed := HeadLines(k) + MonitorLines(monitors, show);
            CleanAll(fixed) && Covered(fixed, Written(monitors))
  {
    hide LineOutput, HeadLines, PrintsDecimals, Clean;
    HeadIsHead(k);
    MonitorLinesWritten(monitors, show);
  }

  lemma CleanNewlineFree(a: seq<string>, b: seq<string>)
    requires CleanAll(a) && forall i | 0 <= i < |b| :: NewlineFree(b[i])
    ensures forall i | 0 <= i < |a + b| :: NewlineFree((a + b)[i])
    ensures StripAll(a + b) == a + StripAll(b)
  {
    hide StripCr, NewlineFree;
  }

  lemma {:induction false} CarriedAreIn(lines: seq<string>, written: set<string>)
    requires forall i | 0 <= i < |lines| :: NewlineFree(lines[i])
    ensures forall i | 0 <= i < |Carried(lines, written)| :: NewlineFree(Carried(lines, written)[i])
  {
    hide NewlineFree;
    CarriedAreDisplays(lines, written);
  }

  lemma {:induction false} StrippedAreFresh(lines: seq<string>, written: set<string>)
    requires FreshNames(lines, written)
    ensures FreshNames(StripAll(lines), written)
  {
    hide LineOutput, StripCr;
    forall i | 0 <= i < |lines| ensures LineOutput(StripAll(lines)[i]) == LineOutput(lines[i]) {
      StripKeepsOutput(lines[i]);
    }
  }

  /** What a second rendering finds in the file: its own new lines, and the carried ones
      without their carriage returns. */
  lemma {:induction false} SecondRendering(monitors: seq<MonitorSetting>, k: Keyboard, previous: string, show: ScaleText)
    requires PrintsDecimals(show)
    ensures var carried := Carried(Lines(previous), Written(monitors));
            var text := Unlines(LayoutLines(monitors, k, previous, show));
            && LuaLines(text) == LayoutLines(monitors, k, previous, show)
            && LayoutLines(monitors, k, text, show) == HeadLines(k) + MonitorLines(monitors, show) + StripAll(carried)
  {
    hide LineOutput, Clean, FreshNames, HeadLines, MonitorLines, NewlineFree, Written, Carried, PrintsDecimals;
    hide StripCr, Lines, LuaLines, Unlines;
    var written := Written(monitors);
    var carried := Carried(Lines(previous), written);
    var fixed := HeadLines(k) + MonitorLines(monitors, show);
    FixedLines(monitors, k, show);
    LinesHaveNoNewline(previous);
    CarriedAreIn(Lines(previous), written);
    CleanNewlineFree(fixed, carried);
    LinesOfUnlines(fixed + carried);
    CarriedSkips(fixed, StripAll(carried), written);
    CarriedFresh(Lines(previous), written);
    StrippedAreFresh(carried, written);
    CarriedKeeps(StripAll(carried), written);
  }

  /** Rendering once more changes nothing iff no carried line ends in a carriage return. */
  lemma {:induction false} RepeatedRendering(monitors: seq<MonitorSetting>, k: Keyboard, previous: string, show: ScaleText)
    requires PrintsDecimals(show)
    ensures var text := Unlines(LayoutLines(monitors, k, previous, show));
            Unlines(LayoutLines(monitors, k, text, show)) == text
            <==> forall line | line in Carried(Lines(previous), Written(monitors)) :: StripCr(line) == line
  {
    hide LineOutput, HeadLines, PrintsDecimals, StripCr, Lines, LuaLines, Unlines;
    var carried := Carried(Lines(previous), Written(monitors));
    var fixed := HeadLines(k) + MonitorLines(monitors, show);
    SecondRendering(monitors, k, previous, show);
    var text := Unlines(fixed + carried);
    var again := LayoutLines(monitors, k, text, show);
    assert again == fixed + StripAll(carried);
    if Unlines(again) == text {
      SecondRendering(monitors, k, text, show);
      assert fixed + StripAll(carried) == fixed + carried;
      SamePrefix(fixed, StripAll(carried), carried);
    } else {
      assert StripAll(carried) != carried;
    }
  }

  const RETURNED := "monitor=DP-1 x\r"

  lemma ReturnedLines()
    ensures Lines(RETURNED + "\r\n") == [RETURNED]
  {
    var text, line := RETURNED + "\r\n", RETURNED + ['\r'];
    assert text[..16] == line && text[16] == '\n' && text[17..] == [];
    assert '\n' !in line;
    FindAnyIs(text, {'\n'}, 16);
    assert line[..15] == RETURNED;
    assert Lines(text[17..]) == [];
    hide FindAny;
  }

  lemma ReturnedOutput()
    ensures LineOutput(RETURNED) == Some("DP-1")
  {
    var rest := "DP-1 x\r";
    assert RETURNED == MONITOR + rest;
    FindAnyIs(rest, {' '}, 4);
    assert rest[..4] == "DP-1";
    hide FindAny, RETURNED;
    assert (MONITOR + rest)[8..] == rest;
  }

  lemma ReturnedCarried()
    ensures Carried([RETURNED], {}) == [RETURNED] && StripCr(RETURNED) != RETURNED
  {
    ReturnedOutput();
    assert StripCr(RETURNED) != RETURNED;
    hide LineOutput, RETURNED;
    assert [RETURNED][1..] == [];
    assert Carried([RETURNED], {}) == [RETURNED] + Carried([], {"DP-1"});
  }

  /** A hand-edited file with such a line. */
  lemma {:induction false} CarriageReturnIsLost(k: Keyboard, show: ScaleText)
    requires PrintsDecimals(show)
    ensures var text := Unlines(LayoutLines([], k, RETURNED + "\r\n", show));
            Unlines(LayoutLines([], k, text, show)) != text
  {
    hide Carried, HeadLines, LineOutput, Lines, PrintsDecimals, RETURNED, StripCr, Unlines;
    ReturnedLines();
    ReturnedCarried();
    assert Written([]) == {};
    RepeatedRendering([], k, RETURNED + "\r\n", show);
  }

  lemma SamePrefix(a: seq<string>, b: seq<string>, c: seq<string>)
    requires a + b == a + c
    ensures b == c
  {
    assert (a + b)[|a|..] == b && (a + c)[|a|..] == c;
  }

  /** Every file that the daemon wrote itself is a fixed point of repeating the call. */
  lemma {:induction false} RepeatedCallChangesNothing(calls: seq<Call>, call: Call, show: ScaleText)
    requires PrintsDecimals(show) && call.written
    ensures File(calls + [call] + [call.(readable := true)], show) == File(calls + [call], show)
  {
    hide LineOutput, HeadLines, PrintsDecimals, StripCr, Lines, LuaLines, Unlines, Known;
    var once, again := calls + [call], call.(readable := true);
    assert (once + [again])[..|once|] == once && once[..|calls|] == calls;
    var previous := Before(File(calls, show), call);
    NoLines();
    FileIsKnown(calls, show);
    CarriedKnown(Lines(previous), Written(call.monitors), show);
    var carried := Carried(Lines(previous), Written(call.monitors));
    forall line | line in carried ensures StripCr(line) == line {
      KnownIsClean(line, show);
    }
    RepeatedRendering(call.monitors, call.keyboard, previous, show);
  }
}
