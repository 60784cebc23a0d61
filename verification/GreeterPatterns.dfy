/** The recognisers of `backend/src/greeter.rs` against the Lua patterns of
    `greeter/hyprland.lua`: what the writer lets through, the reader accepts. */
module GreeterPatterns {
  import opened Basics
  import opened Text
  import opened HyprModel
  import opened GreeterLayout
  import opened GreeterConfig

  // -- matching ----------------------------------------------------------------

  lemma {:induction false} PlusMatch(kind: Class, s: string)
    ensures Match([Plus(kind)], s) <==> s != [] && forall i | 0 <= i < |s| :: In(s[i], kind)
  {
    hide In;
    var items := [Plus(kind)];
    assert items[1..] == [];
    if s != [] {
      PlusMatch(kind, s[1..]);
      assert s == [s[0]] + s[1..];
    }
  }

  lemma {:induction false} StarMatch(kind: Class, s: string)
    ensures Match([Star(kind)], s) <==> forall i | 0 <= i < |s| :: In(s[i], kind)
  {
    hide In;
    var items := [Star(kind)];
    assert items[1..] == [];
    if s != [] {
      StarMatch(kind, s[1..]);
      assert s == [s[0]] + s[1..];
    }
  }

  lemma OutputAgrees(value: string)
    ensures Match(OUTPUT, value) <==> IsOutputName(value)
  {
    PlusMatch(Name, value);
  }

  lemma KeyboardAgrees(value: string)
    ensures Match(KEYBOARD, value) <==> IsKeyboardValue(value)
  {
    StarMatch(Key, value);
  }

  lemma SplitOnceStep(s: string, c: char)
    requires s != [] && s[0] != c
    ensures var t := SplitOnce(s[1..], {c});
            SplitOnce(s, {c}) == if t.None? then None else Some(([s[0]] + t.value.0, t.value.1))
  {
    var n := FindAny(s[1..], {c});
    if n < |s| - 1 {
      assert s[..n + 1] == [s[0]] + s[1..][..n];
      assert s[n + 2..] == s[1..][n + 1..];
    }
  }

  lemma SplitOnceNow(s: string, c: char)
    requires s != [] && s[0] == c
    ensures SplitOnce(s, {c}) == Some(([], s[1..]))
  {
    assert s[..0] == [];
  }

  lemma DigitsCons(c: char, s: string)
    ensures IsDigits([c] + s) <==> IsDigit(c) && AllDigits(s)
  {
    var whole := [c] + s;
    assert whole[0] == c;
    if AllDigits(whole) {
      forall i | 0 <= i < |s| ensures IsDigit(s[i]) {
        assert whole[i + 1] == s[i];
      }
    }
  }

  predicate LitMatch(c: char, rest: seq<Item>, s: string) {
    var split := SplitOnce(s, {c});
    split.Some? && IsDigits(split.value.0) && Match(rest, split.value.1)
  }

  /** Digits up to a mark: the matcher has no choice but to stop at the first mark. */
  lemma {:induction false} DigitsLit(c: char, rest: seq<Item>, s: string)
    requires !IsDigit(c)
    ensures Match([Plus(Digit), One(Lit(c))] + rest, s) <==> LitMatch(c, rest, s)
  {
    hide SplitOnce, IsDigits, AllDigits;
    var items, lit := [Plus(Digit), One(Lit(c))] + rest, [One(Lit(c))] + rest;
    assert items[1..] == lit && lit[1..] == rest;
    if s == [] {
      assert SplitOnce(s, {c}) == None by { SplitOnceNone(s, {c}); }
    } else if s[0] == c {
      SplitOnceNow(s, c);
      NotDigits([]);
    } else {
      var t := s[1..];
      DigitsLit(c, rest, t);
      SplitOnceStep(s, c);
      if t == [] {
        SplitOnceNone(t, {c});
      } else if t[0] == c {
        SplitOnceNow(t, c);
        DigitsCons(s[0], []);
        NotDigits([]);
      } else if SplitOnce(t, {c}).Some? {
        DigitsCons(s[0], SplitOnce(t, {c}).value.0);
        NotEmptySplit(t, c);
        NotDigits(SplitOnce(t, {c}).value.0);
      }
    }
  }

  lemma NotDigits(s: string)
    ensures s == [] ==> !IsDigits(s) && AllDigits(s)
    ensures s != [] ==> (IsDigits(s) <==> AllDigits(s))
  {
  }

  lemma NotEmptySplit(t: string, c: char)
    requires t != [] && t[0] != c && SplitOnce(t, {c}).Some?
    ensures SplitOnce(t, {c}).value.0 != []
  {
    SplitOnceStep(t, c);
  }

  /** Digits, with or without a point, and any digits after it. */
  predicate LooseDecimal(s: string) {
    match SplitOnce(s, {'.'})
    case None => IsDigits(s)
    case Some((whole, fraction)) => IsDigits(whole) && AllDigits(fraction)
  }

  lemma FractionMatch(s: string)
    ensures Match([Opt(Lit('.')), Star(Digit)], s) <==> AllDigits(s) || (s != [] && s[0] == '.' && AllDigits(s[1..]))
  {
    var items := [Opt(Lit('.')), Star(Digit)];
    assert items[1..] == [Star(Digit)];
    StarMatch(Digit, s);
    if s != [] {
      StarMatch(Digit, s[1..]);
    }
  }

  lemma {:induction false} ScaleAgrees(s: string)
    ensures Match(SCALE, s) <==> LooseDecimal(s)
  {
    hide SplitOnce, IsDigits, AllDigits;
    var tail := [Opt(Lit('.')), Star(Digit)];
    assert SCALE[1..] == tail;
    if s == [] {
      SplitOnceNone(s, {'.'});
      NotDigits(s);
    } else if s[0] == '.' {
      SplitOnceNow(s, '.');
      NotDigits([]);
    } else {
      var t := s[1..];
      ScaleAgrees(t);
      SplitOnceStep(s, '.');
      FractionMatch(t);
      assert s == [s[0]] + t;
      DigitsCons(s[0], t);
      NotDigits(t);
      if t == [] {
        SplitOnceNone(t, {'.'});
      } else if t[0] == '.' {
        SplitOnceNow(t, '.');
        DigitsCons(s[0], []);
        NotDigits([]);
        NoDot(t);
      } else if SplitOnce(t, {'.'}).Some? {
        DigitsCons(s[0], SplitOnce(t, {'.'}).value.0);
        NotEmptySplit(t, '.');
        NotDigits(SplitOnce(t, {'.'}).value.0);
        DotInside(t);
      }
    }
  }

  lemma NoDot(t: string)
    requires t != [] && t[0] == '.'
    ensures !AllDigits(t)
  {
  }

  lemma DotInside(t: string)
    requires SplitOnce(t, {'.'}).Some?
    ensures !AllDigits(t)
  {
    FindAnyMeaning(t, {'.'});
  }

  /** The reader also takes a decimal point with nothing after it. */
  predicate DanglingPoint(s: string) {
    var n := |s| - 1;
    s != [] && s[n] == '.' && IsDigits(s[..n])
  }

  lemma LooseMeans(s: string)
    ensures LooseDecimal(s) <==> IsDecimal(s) || DanglingPoint(s)
  {
    FindAnyMeaning(s, {'.'});
    var at, n := FindAny(s, {'.'}), |s| - 1;
    if DanglingPoint(s) {
      assert forall i | 0 <= i < n :: s[i] == s[..n][i];
      FindAnyIs(s, {'.'}, n);
    }
    if at < |s| && s[at + 1..] == [] {
      assert at == n;
    }
  }

  function AssembledMode(width: string, height: string, rate: string): string {
    width + ['x'] + height + ['@'] + rate
  }

  /** Cutting at the '@' first or at the 'x' first makes no difference. */
  lemma ModeCuts(s: string, width: string, height: string, rate: string)
    requires IsDigits(width) && IsDigits(height) && s == AssembledMode(width, height, rate)
    ensures SplitOnce(s, {'x'}) == Some((width, height + ['@'] + rate))
    ensures SplitOnce(height + ['@'] + rate, {'@'}) == Some((height, rate))
    ensures SplitOnce(s, {'@'}) == Some((width + ['x'] + height, rate))
    ensures SplitOnce(width + ['x'] + height, {'x'}) == Some((width, height))
  {
    var tail, size := height + ['@'] + rate, width + ['x'] + height;
    assert s == width + ['x'] + tail;
    assert s == size + ['@'] + rate;
    SplitOnceAt(width, 'x', tail, {'x'});
    SplitOnceAt(height, '@', rate, {'@'});
    SplitOnceAt(size, '@', rate, {'@'});
    SplitOnceAt(width, 'x', height, {'x'});
  }

  lemma SplitRejoins(s: string, c: char)
    ensures var split := SplitOnce(s, {c}); split.Some? ==> s == split.value.0 + [c] + split.value.1
  {
    FindAnyMeaning(s, {c});
  }

  ghost predicate ModeMade(s: string, width: string, height: string, rate: string) {
    IsDigits(width) && IsDigits(height) && s == AssembledMode(width, height, rate)
  }

  lemma ModeIsMade(s: string)
    ensures IsMode(s) <==> exists w, h, r :: ModeMade(s, w, h, r) && IsDecimal(r)
  {
    hide IsDecimal, IsDigits, SplitOnce;
    if IsMode(s) {
      var (size, rate) := SplitOnce(s, {'@'}).value;
      SplitRejoins(s, '@');
      SplitRejoins(size, 'x');
      var (width, height) := SplitOnce(size, {'x'}).value;
      assert ModeMade(s, width, height, rate);
    }
    if w, h, r :| ModeMade(s, w, h, r) && IsDecimal(r) {
      ModeCuts(s, w, h, r);
    }
  }

  lemma ModeMatchIsMade(s: string)
    ensures Match(MODE, s) <==> exists w, h, r :: ModeMade(s, w, h, r) && LooseDecimal(r)
  {
    hide LooseDecimal, IsDigits, SplitOnce, Match;
    var inner := [Plus(Digit), One(Lit('@'))] + SCALE;
    assert MODE == [Plus(Digit), One(Lit('x'))] + inner;
    DigitsLit('x', inner, s);
    var outer := SplitOnce(s, {'x'});
    SplitRejoins(s, 'x');
    if outer.Some? {
      var tail := outer.value.1;
      DigitsLit('@', SCALE, tail);
      SplitRejoins(tail, '@');
      var cut := SplitOnce(tail, {'@'});
      if cut.Some? {
        ScaleAgrees(cut.value.1);
        if Match(MODE, s) {
          MadeOf(s, outer.value.0, tail, cut.value.0, cut.value.1);
        }
      }
    }
    if w, h, r :| ModeMade(s, w, h, r) && LooseDecimal(r) {
      ModeCuts(s, w, h, r);
      ScaleAgrees(r);
    }
  }

  lemma MadeOf(s: string, w: string, tail: string, h: string, r: string)
    requires IsDigits(w) && IsDigits(h) && s == w + ['x'] + tail && tail == h + ['@'] + r
    ensures ModeMade(s, w, h, r)
  {
  }

  lemma ModeParts(s: string, w: string, h: string, r: string, w2: string, h2: string, r2: string)
    requires ModeMade(s, w, h, r) && ModeMade(s, w2, h2, r2)
    ensures r == r2
  {
    ModeCuts(s, w, h, r);
    ModeCuts(s, w2, h2, r2);
  }

  /** A mode the reader takes and the writer does not: a rate ending in its point. */
  ghost predicate DanglingMode(s: string) {
    exists w, h, r :: ModeMade(s, w, h, r) && DanglingPoint(r)
  }

  /** The two mode tests differ in exactly the dangling point. */
  lemma ModeAgrees(s: string)
    ensures Match(MODE, s) <==> IsMode(s) || DanglingMode(s)
    ensures !(IsMode(s) && DanglingMode(s))
  {
    hide IsMode, Match, ModeMade, LooseDecimal, IsDecimal, DanglingPoint;
    ModeIsMade(s);
    ModeMatchIsMade(s);
    forall r: string ensures (LooseDecimal(r) <==> IsDecimal(r) || DanglingPoint(r)) && !(IsDecimal(r) && DanglingPoint(r)) {
      LooseMeans(r);
      DanglingIsNot(r);
    }
    if IsMode(s) && DanglingMode(s) {
      var w, h, r :| ModeMade(s, w, h, r) && IsDecimal(r);
      var w2, h2, r2 :| ModeMade(s, w2, h2, r2) && DanglingPoint(r2);
      ModeParts(s, w, h, r, w2, h2, r2);
    }
  }

  /** One such mode. */
  lemma DanglingModeExists()
    ensures var s := "1920x1080@60."; DanglingMode(s) && Match(MODE, s) && !IsMode(s)
  {
    var s := "1920x1080@60.";
    assert s == AssembledMode("1920", "1080", "60.");
    assert "60."[..2] == "60";
    assert ModeMade(s, "1920", "1080", "60.") && DanglingPoint("60.");
    hide Match, IsMode, ModeMade;
    ModeAgrees(s);
  }

  lemma DanglingIsNot(s: string)
    ensures DanglingPoint(s) ==> !IsDecimal(s)
  {
    if DanglingPoint(s) {
      var n := |s| - 1;
      assert forall i | 0 <= i < n :: s[i] == s[..n][i];
      FindAnyIs(s, {'.'}, n);
    }
  }

  // -- positions ---------------------------------------------------------------

  lemma NumberMatch(rest: seq<Item>, s: string)
    requires rest != [] && rest[0] == Plus(Digit)
    ensures Match([Opt(Lit('-'))] + rest, s) <==> Match(rest, if s != [] && s[0] == '-' then s[1..] else s)
  {
    var items := [Opt(Lit('-'))] + rest;
    assert items[1..] == rest;
  }

  lemma UnsignedEnd(s: string)
    ensures Match([Plus(Digit)], s) <==> IsDigits(s)
  {
    PlusMatch(Digit, s);
  }

  lemma SignedCut(s: string)
    requires s != [] && s[0] == '-'
    ensures var t := SplitOnce(s[1..], {'x'});
            SplitOnce(s, {'x'}) == if t.None? then None else Some((['-'] + t.value.0, t.value.1))
  {
    SplitOnceStep(s, 'x');
  }

  lemma SignedIsNumber(s: string)
    ensures IsNumber(['-'] + s, true) <==> IsDigits(s)
  {
    assert (['-'] + s)[1..] == s;
  }

  lemma UnsignedFirst(s: string)
    requires s == [] || s[0] != '-'
    ensures var split := SplitOnce(s, {'x'}); split.Some? ==> (IsNumber(split.value.0, true) <==> IsDigits(split.value.0))
  {
  }

  /** The position tests are the same. */
  lemma PositionAgrees(s: string)
    ensures Match(POSITION, s) <==> IsPosition(s)
  {
    hide SplitOnce, IsDigits, IsNumber, Match;
    var last := [Opt(Lit('-')), Plus(Digit)];
    var unsigned := [Plus(Digit), One(Lit('x'))] + last;
    assert POSITION == [Opt(Lit('-'))] + unsigned;
    NumberMatch(unsigned, s);
    var t := if s != [] && s[0] == '-' then s[1..] else s;
    DigitsLit('x', last, t);
    var split := SplitOnce(t, {'x'});
    if split.Some? {
      LastNumber(split.value.1);
    }
    if s != [] && s[0] == '-' {
      SignedCut(s);
      if split.Some? {
        SignedIsNumber(split.value.0);
      }
    } else {
      UnsignedFirst(s);
    }
  }

  lemma LastNumber(s: string)
    ensures Match([Opt(Lit('-')), Plus(Digit)], s) <==> IsNumber(s, true)
  {
    hide Match;
    assert [Opt(Lit('-')), Plus(Digit)] == [Opt(Lit('-'))] + [Plus(Digit)];
    NumberMatch([Plus(Digit)], s);
    UnsignedEnd(if s != [] && s[0] == '-' then s[1..] else s);
  }

  lemma TransformAgrees(n: nat)
    ensures Match(TRANSFORM, NatText(n)) <==> n <= 7
  {
    assert TRANSFORM[1..] == [];
    var s := NatText(n);
    if n < 10 {
      assert s[1..] == [];
    } else {
      assert |s| >= 2;
    }
  }

  // -- matched text holds no white space ---------------------------------------

  predicate Inky(items: seq<Item>) {
    forall item | item in items :: !item.kind.Lit? || !IsLuaSpace(item.kind.c)
  }

  lemma {:induction false} MatchedIsInky(items: seq<Item>, s: string)
    requires Inky(items) && Match(items, s)
    ensures forall i | 0 <= i < |s| :: !IsLuaSpace(s[i])
    decreases |items|, |s|
  {
    if items != [] {
      var rest := items[1..];
      assert Inky(rest);
      if Match(rest, s) {
        MatchedIsInky(rest, s);
      } else {
        assert s == [s[0]] + s[1..];
        InkyChar(s[0], items[0].kind);
        if Match(rest, s[1..]) {
          MatchedIsInky(rest, s[1..]);
        } else {
          MatchedIsInky(items, s[1..]);
        }
      }
    }
  }

  lemma InkyChar(c: char, kind: Class)
    requires In(c, kind) && (!kind.Lit? || !IsLuaSpace(kind.c))
    ensures !IsLuaSpace(c)
  {
  }
}
