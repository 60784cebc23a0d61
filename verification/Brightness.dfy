/** Brightness arithmetic (`backend/src/modules/brightness.rs`): raw levels of a panel
    and percents, for every number of levels. */
module Brightness {
  const MIN_PERCENT: int := 1
  const TWO_TO_THE_31: int := 0x8000_0000
  const TWO_TO_THE_32: int := 0x1_0000_0000

  predicate IsU32(n: int) {
    0 <= n < TWO_TO_THE_32
  }

  /** `as i32`, and i32 addition in release builds: wraps. */
  function WrapI32(n: int): int {
    (n + TWO_TO_THE_31) % TWO_TO_THE_32 - TWO_TO_THE_31
  }

  function Clamp(n: int, low: int, high: int): int
    requires low <= high
  {
    if n < low then low else if n > high then high else n
  }

  function Max(a: int, b: int): int {
    if a < b then b else a
  }

  /** Computed in 64 bits, then cut to 32. */
  function ToPercent(current: int, max: int): int {
    if max == 0 then 0 else (current * 100 + max / 2) / max % TWO_TO_THE_32
  }

  function FromPercent(percent: int, max: int): int {
    Max((Clamp(percent, MIN_PERCENT, 100) * max + 50) / 100 % TWO_TO_THE_32, 1)
  }

  function Stepped(current: int, max: int, delta: int): int {
    var percent := Clamp(WrapI32(WrapI32(ToPercent(current, max)) + delta), 0, 100);
    var target := FromPercent(percent, max);
    if target == current && delta != 0 then
      if delta > 0 then (if current + 1 < max then current + 1 else max)
      else Max(if current > 0 then current - 1 else 0, 1)
    else target
  }

  lemma Quotient(n: int, d: int)
    requires d > 0 && n >= 0
    ensures n / d * d <= n < (n / d + 1) * d && n / d >= 0
  {
  }

  lemma Monotone(a: int, b: int, m: int)
    requires a <= b && m >= 0
    ensures a * m <= b * m
  {
  }

  /** Within the panel's range nothing wraps. */
  lemma {:induction false} PercentBounds(current: int, max: int)
    requires 0 <= current <= max && IsU32(max) && max >= 1
    ensures var p := ToPercent(current, max);
            0 <= p <= 100 && p * max <= current * 100 + max / 2 < (p + 1) * max
  {
    var n := current * 100 + max / 2;
    Quotient(n, max);
    assert n < 101 * max;
    LessFactor(n / max, 101, max);
    ToPercentIs(current, max, n / max);
  }

  lemma LessFactor(a: int, b: int, m: int)
    requires a * m < b * m && m > 0
    ensures a < b
  {
    if a >= b {
      Monotone(b, a, m);
    }
  }

  lemma ToPercentIs(current: int, max: int, q: int)
    requires max != 0 && q == (current * 100 + max / 2) / max && 0 <= q < 101
    ensures ToPercent(current, max) == q
  {
  }

  lemma LevelBounds(percent: int, max: int)
    requires 0 <= percent <= 100 && IsU32(max) && max >= 1
    ensures var p, r := Max(percent, 1), FromPercent(percent, max);
            1 <= r <= max && (r == 1 || r * 100 <= p * max + 50) && p * max - 50 < r * 100
  {
    var p := Max(percent, 1);
    var r := (p * max + 50) / 100;
    Monotone(p, 100, max);
    assert 0 <= r <= max;
  }

  lemma {:induction false} StepPercent(current: int, max: int, delta: int)
    requires 0 <= current <= max && IsU32(max) && max >= 1 && -100 <= delta <= 100
    ensures WrapI32(WrapI32(ToPercent(current, max)) + delta) == ToPercent(current, max) + delta
  {
    PercentRange(current, max);
    hide ToPercent, WrapI32;
    WrapSmall(ToPercent(current, max));
    WrapSmall(ToPercent(current, max) + delta);
  }

  lemma PercentRange(current: int, max: int)
    requires 0 <= current <= max && IsU32(max) && max >= 1
    ensures 0 <= ToPercent(current, max) <= 100
  {
    PercentBounds(current, max);
  }

  lemma WrapSmall(n: int)
    requires -TWO_TO_THE_31 <= n < TWO_TO_THE_31
    ensures WrapI32(n) == n
  {
  }

  /** A higher percent is no lower level. */
  lemma {:induction false} UpIsNotBelow(current: int, max: int, up: int)
    requires 0 <= current <= max && IsU32(max) && max >= 1
    requires ToPercent(current, max) < up <= 100
    ensures FromPercent(up, max) >= current
  {
    var p := ToPercent(current, max);
    PercentBounds(current, max);
    LevelBounds(up, max);
    Monotone(p + 1, up, max);
  }

  /** A lower percent, down to the floor of one, is no higher level. */
  lemma {:induction false} DownIsNotAbove(current: int, max: int, down: int)
    requires 1 < current <= max && IsU32(max)
    requires 1 < down < ToPercent(current, max)
    ensures FromPercent(down, max) <= current
  {
    var p := ToPercent(current, max);
    PercentBounds(current, max);
    LevelBounds(down, max);
    Monotone(down, p - 1, max);
    OneLess(p, max);
    LevelBelow(down * max, p * max, current, max, FromPercent(down, max));
  }

  lemma OneLess(p: int, m: int)
    ensures (p - 1) * m == p * m - m
  {
  }

  lemma LevelBelow(x: int, y: int, current: int, max: int, r: int)
    requires x <= y - max && y <= current * 100 + max / 2 && max >= 2
    requires current >= 1 && (r == 1 || r * 100 <= x + 50)
    ensures r <= current
  {
  }

  /** A step up from below the top goes up, and not past the top. */
  lemma {:induction false} StepUp(current: int, max: int, delta: int)
    requires 1 <= current < max && IsU32(max) && 1 <= delta <= 100
    ensures current < Stepped(current, max, delta) <= max
  {
    var p := ToPercent(current, max);
    var up := Clamp(p + delta, 0, 100);
    PercentBounds(current, max);
    StepPercent(current, max, delta);
    LevelBounds(up, max);
    if p < 100 {
      UpIsNotBelow(current, max, up);
    } else {
      TopLevel(max);
    }
  }

  /** No step, however large, switches the panel off or leaves its range. */
  lemma {:induction false} StepStaysOn(current: int, max: int, delta: int)
    requires 0 <= current <= max && IsU32(max) && max >= 1
    ensures 1 <= Stepped(current, max, delta) <= max
  {
    hide ToPercent, FromPercent, WrapI32;
    var percent := Clamp(WrapI32(WrapI32(ToPercent(current, max)) + delta), 0, 100);
    LevelBounds(percent, max);
  }

  lemma TopLevel(max: int)
    requires IsU32(max) && max >= 1
    ensures FromPercent(100, max) == max
  {
    assert (100 * max + 50) / 100 == max;
  }

  /** A panel above one percent reads as at least one percent. */
  lemma {:induction false} BelowFloor(current: int, max: int)
    requires 1 < current <= max && IsU32(max) && ToPercent(current, max) > 2
    ensures current >= FromPercent(1, max)
  {
    PercentBounds(current, max);
    Monotone(3, ToPercent(current, max), max);
    LevelBounds(1, max);
  }

  /** A step down never reaches zero, and it goes down exactly when the panel is not
      already below its one percent level. */
  lemma {:induction false} StepDown(current: int, max: int, delta: int)
    requires 1 < current <= max && IsU32(max) && -100 <= delta <= -1
    ensures Stepped(current, max, delta) >= 1
    ensures Stepped(current, max, delta) < current <==> current >= FromPercent(MIN_PERCENT, max)
  {
    var p := ToPercent(current, max);
    var down := Clamp(p + delta, 0, 100);
    PercentBounds(current, max);
    StepPercent(current, max, delta);
    LevelBounds(down, max);
    if down > 1 {
      DownIsNotAbove(current, max, down);
      BelowFloor(current, max);
    } else {
      assert Clamp(down, MIN_PERCENT, 100) == 1;
      assert FromPercent(down, max) == FromPercent(1, max);
    }
  }

  /** A percent set comes back as that percent. */
  lemma {:induction false} PercentRoundTrip(percent: int, max: int)
    requires 1 <= percent <= 100 && max >= 100 && IsU32(max)
    ensures ToPercent(FromPercent(percent, max), max) == percent
  {
    var r := FromPercent(percent, max);
    var n := percent * max;
    Monotone(1, percent, max);
    LevelBounds(percent, max);
    PercentBounds(r, max);
    var q := ToPercent(r, max);
    assert max == 100 ==> r * 100 == n;
    assert n <= r * 100 + max / 2 < n + max;
    Between(percent, q, r * 100 + max / 2, max);
  }

  /** A step of some percents sets exactly that many percents more or less. */
  lemma {:induction false} StepSetsPercent(current: int, max: int, delta: int)
    requires 0 <= current <= max && max >= 100 && IsU32(max) && -100 <= delta <= 100
    requires delta != 0 && 1 <= ToPercent(current, max) + delta <= 100
    ensures ToPercent(Stepped(current, max, delta), max) == ToPercent(current, max) + delta
  {
    hide ToPercent, FromPercent, WrapI32;
    StepPercent(current, max, delta);
    PercentRoundTrip(ToPercent(current, max) + delta, max);
  }

  /** Percents outside 1 to 100 set the nearest level that is allowed. */
  lemma PercentIsClamped(percent: int, max: int)
    requires IsU32(max) && max >= 1
    ensures percent > 100 ==> FromPercent(percent, max) == max
    ensures percent < 1 ==> FromPercent(percent, max) == FromPercent(1, max)
  {
    TopLevel(max);
  }

  /** A number lies between one pair of consecutive multiples only. */
  lemma {:induction false} Between(a: int, b: int, n: int, m: int)
    requires m > 0 && a * m <= n < a * m + m && b * m <= n < (b + 1) * m
    ensures a == b
  {
    assert a * m < (b + 1) * m && b * m < (a + 1) * m;
  }

  /** With fewer than 100 levels two percents share a level, so one is lost: the round
      trip holds for every percent exactly when the panel has at least 100 levels. */
  lemma RoundTripNeedsLevels(max: int)
    requires max >= 1 && IsU32(max)
    ensures (forall percent | 1 <= percent <= 100 :: ToPercent(FromPercent(percent, max), max) == percent) <==> max >= 100
  {
    if max >= 100 {
      forall percent | 1 <= percent <= 100 ensures ToPercent(FromPercent(percent, max), max) == percent {
        PercentRoundTrip(percent, max);
      }
    } else {
      var k := SharedLevel(max);
      assert ToPercent(FromPercent(k, max), max) == ToPercent(FromPercent(k + 1, max), max);
    }
  }

  lemma SharedLevel(max: int) returns (k: int)
    requires 1 <= max < 100
    ensures 1 <= k < 100 && FromPercent(k, max) == FromPercent(k + 1, max)
  {
    var gap := 100 - max;
    if gap > 50 {
      k := 1;
    } else {
      k := 50 / gap;
      Quotient(50, gap);
      assert (k + 1) * gap == k * gap + gap;
      SameLevel(k, gap, k * gap);
    }
  }

  /** Neighbouring percents whose missing levels add up to half a level. */
  lemma {:induction false} SameLevel(k: int, gap: int, missing: int)
    requires 1 <= gap <= 50 && 0 <= k <= 50 && missing == k * gap && missing <= 50 < missing + gap
    ensures 1 <= k < 100 && FromPercent(k, 100 - gap) == FromPercent(k + 1, 100 - gap)
  {
    assert k * (100 - gap) == 100 * k - missing;
    assert (k + 1) * (100 - gap) == 100 * (k + 1) - missing - gap;
  }
}
