/** The string functions of the Rust standard library that the modules rely on:
    decimal printing and parsing, splitting, trimming. */
module Text {
  import opened Basics

  const I64_MIN: int := -0x8000_0000_0000_0000
  const I64_MAX: int := 0x7fff_ffff_ffff_ffff

  /** i64 arithmetic of a release build wraps. */
  function WrapI64(n: int): int {
    (n - I64_MIN) % 0x1_0000_0000_0000_0000 + I64_MIN
  }

  predicate IsI64(n: int) {
    I64_MIN <= n <= I64_MAX
  }

  // -- digits ------------------------------------------------------------------

  predicate IsDigit(c: char) {
    '0' <= c <= '9'
  }

  predicate AllDigits(s: string) {
    forall i | 0 <= i < |s| :: IsDigit(s[i])
  }

  function DigitChar(d: nat): (c: char)
    requires d < 10
    ensures IsDigit(c) && DigitValue(c) == d
  {
    '0' + d as char
  }

  function DigitValue(c: char): (d: nat)
    requires IsDigit(c)
    ensures d < 10
  {
    (c - '0') as nat
  }

  /** Decimal text of a natural number, without leading zeros. */
  function NatText(n: nat): (s: string)
    ensures s != []
  {
    if n < 10 then [DigitChar(n)] else NatText(n / 10) + [DigitChar(n % 10)]
  }

  function NatValue(s: string): nat
    requires AllDigits(s)
  {
    if s == [] then 0 else NatValue(s[..|s| - 1]) * 10 + DigitValue(s[|s| - 1])
  }

  function Zeros(n: nat): (s: string)
    ensures |s| == n && AllDigits(s)
  {
    if n == 0 then [] else Zeros(n - 1) + ['0']
  }

  /** `{:0width}` of a natural number. */
  function Padded(n: nat, width: nat): string {
    var s := NatText(n);
    if |s| < width then Zeros(width - |s|) + s else s
  }

  function IntText(i: int): string {
    if i < 0 then ['-'] + NatText(-i) else NatText(i)
  }

  /** `{:0width}` of an integer: the sign counts towards the width. */
  function PaddedInt(i: int, width: nat): string {
    if i >= 0 then Padded(i, width)
    else ['-'] + Padded(-i, if width > 0 then width - 1 else 0)
  }

  /** `str::parse::<i64>`: an optional sign, digits, and a value that fits. */
  function ParseI64(s: string): Option<int> {
    var unsigned := if s != [] && (s[0] == '+' || s[0] == '-') then s[1..] else s;
    if unsigned == [] || !AllDigits(unsigned) then None
    else
      var value := if s[0] == '-' then -(NatValue(unsigned) as int) else NatValue(unsigned);
      if I64_MIN <= value <= I64_MAX then Some(value) else None
  }

  lemma {:induction false} NatTextValue(n: nat)
    ensures AllDigits(NatText(n)) && NatValue(NatText(n)) == n
  {
    var s := NatText(n);
    if n >= 10 {
      NatTextValue(n / 10);
      assert s[..|s| - 1] == NatText(n / 10);
    } else {
      assert s[..0] == [];
      assert s[0] == DigitChar(n);
    }
  }

  lemma {:induction false} ZerosValue(n: nat, s: string)
    requires AllDigits(s)
    ensures AllDigits(Zeros(n) + s) && NatValue(Zeros(n) + s) == NatValue(s)
  {
    var z := Zeros(n) + s;
    if s != [] {
      assert z[..|z| - 1] == Zeros(n) + s[..|s| - 1];
      ZerosValue(n, s[..|s| - 1]);
    } else {
      assert z == Zeros(n);
      if n > 0 {
        assert z[..n - 1] == Zeros(n - 1);
        assert z[..n - 1] == Zeros(n - 1) + [];
        ZerosValue(n - 1, []);
      }
    }
  }

  lemma PaddedValue(n: nat, width: nat)
    ensures var s := Padded(n, width); s != [] && AllDigits(s) && NatValue(s) == n
  {
    hide AllDigits, NatText, NatValue, Zeros;
    NatTextValue(n);
    if |NatText(n)| < width {
      ZerosValue(width - |NatText(n)|, NatText(n));
    }
  }

  /** Printing and parsing an i64 is a round trip. */
  lemma ParseOfIntText(i: int)
    requires I64_MIN <= i <= I64_MAX
    ensures ParseI64(IntText(i)) == Some(i)
  {
    var n := if i < 0 then -i else i;
    NatTextValue(n);
    var s := IntText(i);
    if i < 0 {
      assert s[1..] == NatText(n);
    } else {
      assert IsDigit(s[0]);
    }
  }

  /** A number as it is spelt: an optional sign, and digits. */
  predicate Spells(s: string, sign: string, digits: string, value: int) {
    && s == sign + digits && digits != [] && AllDigits(digits)
    && (sign == "" || sign == "+" || sign == "-")
    && value == if sign == "-" then -(NatValue(digits) as int) else NatValue(digits)
  }

  lemma SpeltIsParsed(s: string, sign: string, digits: string, value: int)
    requires Spells(s, sign, digits, value)
    ensures ParseI64(s) == if IsI64(value) then Some(value) else None
  {
    hide NatValue;
    assert digits[0] in digits && IsDigit(digits[0]);
    if sign == "" {
      assert s == digits;
    } else {
      assert s[0] == sign[0] && s[1..] == digits;
    }
  }

  /** Exactly what is spelt like that and fits i64 is a number, and it is that number. */
  lemma ParseI64Means(s: string, value: int)
    ensures ParseI64(s) == Some(value) <==>
            IsI64(value) && exists sign, digits :: Spells(s, sign, digits, value)
  {
    if ParseI64(s) == Some(value) {
      hide NatValue, AllDigits;
      var sign := if s[0] == '+' || s[0] == '-' then [s[0]] else "";
      assert Spells(s, sign, s[|sign|..], value);
    }
    if sign, digits :| Spells(s, sign, digits, value) {
      hide Spells, ParseI64;
      SpeltIsParsed(s, sign, digits, value);
    }
  }

  // -- splitting ---------------------------------------------------------------

  /** Position of the first character in `chars`, or the length. */
  function FindAny(s: string, chars: set<char>): (n: nat)
    ensures n <= |s|
  {
    if s == [] || s[0] in chars then 0 else 1 + FindAny(s[1..], chars)
  }

  lemma {:induction false} FindAnyMeaning(s: string, chars: set<char>)
    ensures var n := FindAny(s, chars);
            && (forall i | 0 <= i < n :: s[i] !in chars)
            && (n < |s| ==> s[n] in chars)
  {
    if s != [] && s[0] !in chars {
      FindAnyMeaning(s[1..], chars);
      forall i | 0 <= i < FindAny(s, chars) ensures s[i] !in chars {
        if i > 0 {
          assert s[i] == s[1..][i - 1];
        }
      }
    }
  }

  lemma {:induction false} FindAnyIs(s: string, chars: set<char>, n: nat)
    requires n <= |s| && (forall i | 0 <= i < n :: s[i] !in chars)
    requires n < |s| ==> s[n] in chars
    ensures FindAny(s, chars) == n
  {
    if n > 0 {
      FindAnyIs(s[1..], chars, n - 1);
    }
  }

  /** `split_once` at the first of the given characters. */
  function SplitOnce(s: string, chars: set<char>): Option<(string, string)> {
    var n := FindAny(s, chars);
    if n == |s| then None else Some((s[..n], s[n + 1..]))
  }

  predicate Free(s: string, chars: set<char>) {
    forall i | 0 <= i < |s| :: s[i] !in chars
  }

  lemma SplitOnceAt(a: string, c: char, b: string, chars: set<char>)
    requires c in chars && Free(a, chars)
    ensures SplitOnce(a + [c] + b, chars) == Some((a, b))
  {
    var s := a + [c] + b;
    FindAnyIs(s, chars, |a|);
    assert s[..|a|] == a;
    assert s[|a| + 1..] == b;
  }

  lemma SplitOnceNone(s: string, chars: set<char>)
    requires Free(s, chars)
    ensures SplitOnce(s, chars) == None
  {
    FindAnyIs(s, chars, |s|);
  }

  lemma DigitsFree(s: string, chars: set<char>)
    requires AllDigits(s) && (forall c | c in chars :: !IsDigit(c))
    ensures Free(s, chars)
  {
  }

  // -- white space -------------------------------------------------------------

  /** `char::is_whitespace`. */
  predicate IsSpace(c: char) {
    || '\t' <= c <= '\r'
    || c == ' '
    || c == '\U{0085}' || c == '\U{00A0}' || c == '\U{1680}'
    || '\U{2000}' <= c <= '\U{200A}'
    || c == '\U{2028}' || c == '\U{2029}' || c == '\U{202F}' || c == '\U{205F}' || c == '\U{3000}'
  }

  function TrimStart(s: string): string {
    if s != [] && IsSpace(s[0]) then TrimStart(s[1..]) else s
  }

  function TrimEnd(s: string): string {
    if s != [] && IsSpace(s[|s| - 1]) then TrimEnd(s[..|s| - 1]) else s
  }

  function Trim(s: string): string {
    TrimEnd(TrimStart(s))
  }

  /** A text that trimming leaves alone. */
  predicate Trimmed(s: string) {
    s == [] || (!IsSpace(s[0]) && !IsSpace(s[|s| - 1]))
  }

  lemma TrimIsIdentity(s: string)
    requires Trimmed(s)
    ensures Trim(s) == s
  {
  }

  predicate AllSpace(s: string) {
    forall i | 0 <= i < |s| :: IsSpace(s[i])
  }

  /** Trimming takes off white space at both ends and nothing else. */
  lemma {:induction false} TrimMeaning(s: string) returns (before: string, after: string)
    ensures AllSpace(before) && AllSpace(after) && Trimmed(Trim(s)) && s == before + Trim(s) + after
  {
    hide IsSpace;
    before := TrimStartMeaning(s);
    after := TrimEndMeaning(TrimStart(s));
  }

  lemma {:induction false} TrimStartMeaning(s: string) returns (before: string)
    ensures AllSpace(before) && s == before + TrimStart(s)
    ensures TrimStart(s) != [] ==> !IsSpace(TrimStart(s)[0])
  {
    hide IsSpace;
    before := [];
    if s != [] && IsSpace(s[0]) {
      var rest := TrimStartMeaning(s[1..]);
      before := [s[0]] + rest;
    }
  }

  lemma {:induction false} TrimEndMeaning(s: string) returns (after: string)
    ensures AllSpace(after) && s == TrimEnd(s) + after
    ensures TrimEnd(s) != [] ==> !IsSpace(TrimEnd(s)[|TrimEnd(s)| - 1])
    ensures |TrimEnd(s)| <= |s| && TrimEnd(s) == s[..|TrimEnd(s)|]
    ensures s != [] && !IsSpace(s[0]) ==> TrimEnd(s) != []
  {
    hide IsSpace;
    after := [];
    if s != [] && IsSpace(s[|s| - 1]) {
      var rest := TrimEndMeaning(s[..|s| - 1]);
      after := rest + [s[|s| - 1]];
    }
  }

  lemma {:induction false} TrimStartAdds(before: string, s: string)
    requires AllSpace(before)
    ensures TrimStart(before + s) == TrimStart(s)
  {
    hide IsSpace;
    if before == [] {
      assert before + s == s;
    } else {
      assert (before + s)[1..] == before[1..] + s;
      TrimStartAdds(before[1..], s);
    }
  }

  lemma {:induction false} TrimEndAdds(s: string, after: string)
    requires AllSpace(after)
    ensures TrimEnd(s + after) == TrimEnd(s)
  {
    hide IsSpace;
    if after == [] {
      assert s + after == s;
    } else {
      var n := |after| - 1;
      assert (s + after)[..|s| + n] == s + after[..n];
      TrimEndAdds(s, after[..n]);
    }
  }

  /** And so nothing but the text between them matters. */
  lemma {:induction false} TrimIs(before: string, s: string, after: string)
    requires AllSpace(before) && AllSpace(after)
    ensures Trim(before + s + after) == Trim(s)
  {
    hide IsSpace;
    assert before + s + after == before + (s + after);
    TrimStartAdds(before, s + after);
    var start := TrimStartMeaning(s);
    if TrimStart(s) == [] {
      assert s + after == start + after;
      assert AllSpace(start + after) && TrimStart([]) == [];
      TrimStartAdds(start + after, []);
      assert start + after + [] == start + after;
    } else {
      assert s + after == start + (TrimStart(s) + after);
      TrimStartAdds(start, TrimStart(s) + after);
      assert (TrimStart(s) + after)[0] == TrimStart(s)[0];
      TrimEndAdds(TrimStart(s), after);
    }
  }

  lemma TrimTwice(s: string)
    ensures Trim(Trim(s)) == Trim(s)
  {
    hide IsSpace, TrimStart, TrimEnd;
    var before, after := TrimMeaning(s);
    TrimIs(before, Trim(s), after);
  }
}
