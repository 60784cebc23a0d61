/** Exactly which lines the two ends of the layout file take, and which settings get one. */
module GreeterReading {
  import opened Basics
  import opened Text
  import opened HyprModel
  import opened GreeterLayout
  import opened GreeterConfig
  import P = GreeterPatterns
  import R = GreeterRuns

  // -- the greeter's end -------------------------------------------------------

  lemma KeyValueMeans(line: string, key: string, value: string)
    ensures KeyValue(line) == Some((key, value)) <==>
            line == key + (['='] + value) && key != [] && forall i | 0 <= i < |key| :: In(key[i], Word)
  {
    hide In;
    if KeyValue(line) == Some((key, value)) {
      var n := WordLength(line);
      assert line == line[..n] + (['='] + line[n + 1..]);
      assert forall i | 0 <= i < n :: key[i] == line[i];
    }
    if line == key + (['='] + value) && key != [] && forall i | 0 <= i < |key| :: In(key[i], Word) {
      assert line == key + ['='] + value;
      R.KeyValueOf(key, value);
    }
  }

  /** Cutting at spaces loses nothing. */
  lemma FieldsRejoin(s: string)
    ensures var fields := Fields(s);
            if |fields| == 1 then s == fields[0]
            else
              var n := |fields[0]|;
              n < |s| && s == fields[0] + [' '] + s[n + 1..] && Fields(s[n + 1..]) == fields[1..]
  {
    FindAnyMeaning(s, {' '});
    hide FindAny;
    var n := FindAny(s, {' '});
    if n < |s| {
      assert s == s[..n] + [' '] + s[n + 1..];
      assert Fields(s) == [s[..n]] + Fields(s[n + 1..]);
    }
  }

  lemma FiveRejoin(s: string)
    requires |Fields(s)| == 5
    ensures var f := Fields(s); s == Joined(f[0], f[1], f[2], f[3], f[4])
  {
    hide Fields;
    var f := Fields(s);
    FieldsRejoin(s);
    var b := s[|f[0]| + 1..];
    FieldsRejoin(b);
    var c := b[|f[1]| + 1..];
    FieldsRejoin(c);
    var d := c[|f[2]| + 1..];
    FieldsRejoin(d);
    var e := d[|f[3]| + 1..];
    FieldsRejoin(e);
    assert Fields(e) == f[4..];
  }

  predicate FivePatterns(a: string, b: string, c: string, d: string, e: string) {
    Match(OUTPUT, a) && Match(MODE, b) && Match(POSITION, c) && Match(SCALE, d) && Match(TRANSFORM, e)
  }

  lemma MatchedFields(a: string, b: string, c: string, d: string, e: string)
    requires FivePatterns(a, b, c, d, e)
    ensures IsField(a) && IsField(b) && IsField(c) && IsField(d) && IsField(e)
  {
    NothingMatches();
    hide Match, IsField;
    R.MatchedIsField(OUTPUT, a);
    R.MatchedIsField(MODE, b);
    R.MatchedIsField(POSITION, c);
    R.MatchedIsField(SCALE, d);
    R.MatchedIsField(TRANSFORM, e);
  }

  lemma NothingMatches()
    ensures !Match(OUTPUT, "") && !Match(MODE, "") && !Match(POSITION, "") && !Match(SCALE, "") && !Match(TRANSFORM, "")
  {
    hide *;
    P.OutputAgrees("");
    P.ModeAgrees("");
    P.PositionAgrees("");
    P.ScaleAgrees("");
    Blank();
  }

  lemma Blank()
    ensures !IsOutputName("") && !IsMode("") && !IsPosition("") && !P.LooseDecimal("") && !P.DanglingMode("")
    ensures !Match(TRANSFORM, "")
  {
    assert FindAny("", {'x'}) == 0 && FindAny("", {'@'}) == 0 && FindAny("", {'.'}) == 0;
  }

  lemma KeysApart(value: string, other: string)
    ensures "monitor" + (['='] + value) != "disabled" + (['='] + other)
  {
    assert ("monitor" + (['='] + value))[0] == 'm' && ("disabled" + (['='] + other))[0] == 'd';
  }

  /** A display is switched on by exactly the lines of five fields that pass the patterns. */
  lemma OnMeans(line: string, a: string, b: string, c: string, d: string, e: string)
    ensures ReadLine(line) == On(a, b, c, d, e) <==> line == MONITOR + Joined(a, b, c, d, e) && FivePatterns(a, b, c, d, e)
  {
    hide Match, IsField, Joined, Fields, KeyValue;
    if ReadLine(line) == On(a, b, c, d, e) {
      var (key, value) := KeyValue(line).value;
      KeyValueMeans(line, key, value);
      FiveRejoin(value);
      assert line == MONITOR + value;
    }
    if line == MONITOR + Joined(a, b, c, d, e) && FivePatterns(a, b, c, d, e) {
      MatchedFields(a, b, c, d, e);
      R.OnLineReads(a, b, c, d, e);
    }
  }

  /** ... and off by exactly these. */
  lemma OffMeans(line: string, name: string)
    ensures ReadLine(line) == Off(name) <==> line == DISABLED + name && Match(OUTPUT, name)
  {
    hide Match, FiveFields, KeyValue;
    if ReadLine(line) == Off(name) {
      KeyValueMeans(line, "disabled", name);
      assert line == DISABLED + name;
    }
    if line == DISABLED + name && Match(OUTPUT, name) {
      R.OffLineReads(name);
    }
  }

  lemma KeysAreWords(key: string)
    requires IsKeyboardKey(key)
    ensures key != [] && key != "monitor" && key != "disabled" && forall i | 0 <= i < |key| :: In(key[i], Word)
  {
    assert key[0] == 'k';
  }

  /** A keyboard setting is overridden by exactly the lines with its key and a value that is
      not empty and passes the pattern. */
  lemma SetMeans(line: string, key: string, value: string)
    ensures ReadLine(line) == Set(key, value) <==>
            line == key + (['='] + value) && IsKeyboardKey(key) && value != "" && Match(KEYBOARD, value)
  {
    hide Match, FiveFields, KeyValue, In;
    KeyValueMeans(line, key, value);
    if IsKeyboardKey(key) {
      KeysAreWords(key);
    }
  }

  // -- the daemon's end --------------------------------------------------------

  /** A line of an earlier file is about a display iff it is marked as on or off and the name
      behind the mark, up to the first space of a line marked as on, is an output name. */
  lemma LineOutputMeans(line: string, name: string)
    ensures LineOutput(line) == Some(name) <==>
            IsOutputName(name) && (line == DISABLED + name || line == MONITOR + name || MONITOR + name + [' '] <= line)
  {
    hide IsOutputName, FindAny;
    if LineOutput(line) == Some(name) && MONITOR <= line {
      var rest := line[|MONITOR|..];
      FindAnyMeaning(rest, {' '});
      assert line == MONITOR + rest;
    }
    if IsOutputName(name) && line == DISABLED + name {
      R.OffLineOutput(name);
    }
    if IsOutputName(name) && (line == MONITOR + name || MONITOR + name + [' '] <= line) {
      NameStops(line, name);
    }
  }

  lemma NameStops(line: string, name: string)
    requires IsOutputName(name) && (line == MONITOR + name || MONITOR + name + [' '] <= line)
    ensures LineOutput(line) == Some(name)
  {
    var rest := line[|MONITOR|..];
    assert name <= rest;
    assert forall i | 0 <= i < |name| :: rest[i] == name[i] && IsNameChar(name[i]);
    if line != MONITOR + name {
      assert rest[|name|] == line[|MONITOR| + |name|] == (MONITOR + name + [' '])[|MONITOR| + |name|] == ' ';
    }
    FindAnyIs(rest, {' '}, |name|);
    assert rest[..|name|] == name;
    assert MONITOR <= line;
  }

  /** A setting gets a line exactly if the greeter's patterns take its name and, unless it is
      off, its mode and position, but for a rate that ends in its point. */
  lemma HasLineMeans(s: MonitorSetting)
    ensures HasLine(s) <==>
            && Match(OUTPUT, s.output)
            && (s.disabled
                || (&& s.mode.Some? && Match(MODE, s.mode.value) && !P.DanglingMode(s.mode.value)
                    && s.position.Some? && Match(POSITION, s.position.value)))
  {
    hide Match, IsMode, IsPosition, P.DanglingMode;
    P.OutputAgrees(s.output);
    if s.mode.Some? {
      P.ModeAgrees(s.mode.value);
    }
    if s.position.Some? {
      P.PositionAgrees(s.position.value);
    }
  }

  /** A file may end without a newline: both ends take the rest for a last line. */
  lemma {:induction false} UnendedLine(lines: seq<string>, tail: string)
    requires (forall i | 0 <= i < |lines| :: NewlineFree(lines[i])) && NewlineFree(tail) && tail != []
    ensures LuaLines(Unlines(lines) + tail) == lines + [tail]
    ensures Lines(Unlines(lines) + tail) == R.StripAll(lines) + [tail]
  {
    hide StripCr, Lines, LuaLines, NewlineFree;
    if lines == [] {
      OneLine(tail);
      assert Unlines([]) + tail == tail;
    } else {
      var line, rest := lines[0], Unlines(lines[1..]) + tail;
      UnendedLine(lines[1..], tail);
      FirstOfLines(line, rest);
      Append(line + ['\n'], Unlines(lines[1..]), tail);
    }
  }

  lemma Append(a: string, b: string, c: string)
    ensures a + b + c == a + (b + c)
  {
  }

  lemma OneLine(tail: string)
    requires NewlineFree(tail) && tail != []
    ensures Lines(tail) == [tail] && LuaLines(tail) == [tail]
  {
    FindAnyIs(tail, {'\n'}, |tail|);
  }

  lemma FirstOfLines(line: string, rest: string)
    requires NewlineFree(line)
    ensures LuaLines(line + ['\n'] + rest) == [line] + LuaLines(rest)
    ensures Lines(line + ['\n'] + rest) == [StripCr(line)] + Lines(rest)
  {
    hide StripCr;
    var text := line + ['\n'] + rest;
    FindAnyIs(text, {'\n'}, |line|);
    assert text[..|line|] == line && text[|line| + 1..] == rest;
  }
}
