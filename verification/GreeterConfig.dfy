/** The other end of the layout file (`greeter/hyprland.lua`): Lua patterns, the checks
    made of them, and the line-by-line reader. */
module GreeterConfig {
  import opened Basics
  import opened Text

  // -- anchored Lua patterns ---------------------------------------------------

  /** The character classes the patterns use. */
  datatype Class = Digit | Octal | Word | Name | Key | Lit(c: char)

  predicate IsWord(c: char) {
    '0' <= c <= '9' || 'a' <= c <= 'z' || 'A' <= c <= 'Z'
  }

  predicate In(c: char, kind: Class) {
    match kind
    case Digit => '0' <= c <= '9'
    case Octal => '0' <= c <= '7'
    case Word => IsWord(c) || c == '_'
    case Name => IsWord(c) || c in {'-', '_', '.'}
    case Key => IsWord(c) || c in {'_', ',', ':', '(', ')', '+', '-'}
    case Lit(l) => c == l
  }

  datatype Item = One(kind: Class) | Plus(kind: Class) | Star(kind: Class) | Opt(kind: Class)

  /** Some way of matching the whole text exists; the matcher backtracks to find it. */
  predicate Match(items: seq<Item>, s: string)
    decreases |items|, |s|
  {
    if items == [] then s == []
    else
      var rest := items[1..];
      match items[0]
      case One(kind) => s != [] && In(s[0], kind) && Match(rest, s[1..])
      case Opt(kind) => Match(rest, s) || (s != [] && In(s[0], kind) && Match(rest, s[1..]))
      case Star(kind) => Match(rest, s) || (s != [] && In(s[0], kind) && Match(items, s[1..]))
      case Plus(kind) => s != [] && In(s[0], kind) && (Match(rest, s[1..]) || Match(items, s[1..]))
  }

  /** "^[%w%-_%.]+$" */
  const OUTPUT := [Plus(Name)]
  /** "^[%w_,:()+%-]*$" */
  const KEYBOARD := [Star(Key)]
  /** "^%d+x%d+@%d+%.?%d*$" */
  const MODE := [Plus(Digit), One(Lit('x')), Plus(Digit), One(Lit('@')), Plus(Digit), Opt(Lit('.')), Star(Digit)]
  /** "^%-?%d+x%-?%d+$" */
  const POSITION := [Opt(Lit('-')), Plus(Digit), One(Lit('x')), Opt(Lit('-')), Plus(Digit)]
  /** "^%d+%.?%d*$" */
  const SCALE := [Plus(Digit), Opt(Lit('.')), Star(Digit)]
  /** "^[0-7]$" */
  const TRANSFORM := [One(Octal)]

  // -- one line ----------------------------------------------------------------

  /** What a line makes the reader do; numbers stay the text that was matched. */
  datatype Entry =
    | Nothing
    | On(name: string, mode: string, position: string, scale: string, transform: string)
    | Off(name: string)
    | Set(key: string, value: string)

  /** Length of the leading run of word characters. */
  function WordLength(s: string): (n: nat)
    ensures n <= |s|
    ensures forall i | 0 <= i < n :: In(s[i], Word)
    ensures n < |s| ==> !In(s[n], Word)
  {
    if s == [] || !In(s[0], Word) then 0 else 1 + WordLength(s[1..])
  }

  /** "^([%w_]+)=(.*)$": the run of word characters must end at the first '='. */
  function KeyValue(line: string): Option<(string, string)> {
    var n := WordLength(line);
    if 0 < n < |line| && line[n] == '=' then Some((line[..n], line[n + 1..])) else None
  }

  predicate IsLuaSpace(c: char) {
    c == ' ' || '\t' <= c <= '\r'
  }

  /** Cut at every space. */
  function Fields(s: string): (fields: seq<string>)
    ensures fields != []
  {
    var n := FindAny(s, {' '});
    if n == |s| then [s] else [s[..n]] + Fields(s[n + 1..])
  }

  predicate IsField(s: string) {
    s != [] && forall i | 0 <= i < |s| :: !IsLuaSpace(s[i])
  }

  /** "^(%S+) (%S+) (%S+) (%S+) (%S+)$" */
  function FiveFields(value: string): Option<seq<string>> {
    var fields := Fields(value);
    if |fields| == 5 && forall i | 0 <= i < 5 :: IsField(fields[i]) then Some(fields) else None
  }

  predicate IsKeyboardKey(key: string) {
    key == "kb_layout" || key == "kb_variant" || key == "kb_options"
  }

  function ReadLine(line: string): Entry {
    match KeyValue(line)
    case None => Nothing
    case Some((key, value)) =>
      if key == "monitor" then
        match FiveFields(value)
        case None => Nothing
        case Some(f) =>
          if Match(OUTPUT, f[0]) && Match(MODE, f[1]) && Match(POSITION, f[2]) && Match(SCALE, f[3]) && Match(TRANSFORM, f[4])
          then On(f[0], f[1], f[2], f[3], f[4])
          else Nothing
      else if key == "disabled" && Match(OUTPUT, value) then Off(value)
      else if IsKeyboardKey(key) && value != "" && Match(KEYBOARD, value) then Set(key, value)
      else Nothing
  }

  // -- the whole file ----------------------------------------------------------

  /** Lua's line reader: newlines separate, and nothing else is taken off. */
  function LuaLines(text: string): seq<string> {
    if text == [] then []
    else
      var n := FindAny(text, {'\n'});
      if n == |text| then [text] else [text[..n]] + LuaLines(text[n + 1..])
  }

  /** The registrations of a list of lines, in order. */
  function Registered(lines: seq<string>): seq<Entry> {
    if lines == [] then []
    else
      var n := |lines| - 1;
      var entry := ReadLine(lines[n]);
      Registered(lines[..n]) + if entry.On? || entry.Off? then [entry] else []
  }

  /** The keyboard settings: a line overrides what was there. */
  function KeyboardAfter(lines: seq<string>, system: map<string, string>): map<string, string> {
    if lines == [] then system
    else
      var n := |lines| - 1;
      var entry := ReadLine(lines[n]);
      var before := KeyboardAfter(lines[..n], system);
      if entry.Set? then before[entry.key := entry.value] else before
  }

  /** The configuration: the reading loop updates the keyboard table and registers
      displays as it goes. */
  class Greeter {
    var keyboard: map<string, string>
    var monitors: seq<Entry>

    constructor (system: map<string, string>)
      ensures keyboard == system && monitors == []
    {
      keyboard := system;
      monitors := [];
    }

    method ReadLayout(text: string)
      modifies this
      ensures keyboard == KeyboardAfter(LuaLines(text), old(keyboard))
      ensures monitors == old(monitors) + Registered(LuaLines(text))
    {
      hide ReadLine, LuaLines;
      var lines := LuaLines(text);
      var i := 0;
      while i < |lines|
        invariant i <= |lines|
        invariant keyboard == KeyboardAfter(lines[..i], old(keyboard))
        invariant monitors == old(monitors) + Registered(lines[..i])
      {
        assert lines[..i + 1][..i] == lines[..i];
        var entry := ReadLine(lines[i]);
        match entry {
          case Nothing =>
          case On(_, _, _, _, _) => monitors := monitors + [entry];
          case Off(_) => monitors := monitors + [entry];
          case Set(key, value) => keyboard := keyboard[key := value];
        }
        i := i + 1;
      }
      assert lines[..i] == lines;
    }
  }
}
