/** The failure backoff's arithmetic: one schedule, and the four ways the SDKs compute it. */
module Backoff {
  import opened Common

  const BASE := 200_000_000
  const CAP := 5_000_000_000

  // 0.2 s, doubled k times.
  function Doubled(k: nat): nat
  {
    200_000_000 * Pow2(k)
  }

  // The promised window before jitter, after n consecutive failures.
  function Schedule(n: nat): nat
    requires n >= 1
  {
    Min(Doubled(n - 1), CAP)
  }

  // Two's complement wrap-around of a 64-bit and of a 32-bit signed integer.
  function Wrap64(x: int): (w: int)
    ensures -0x8000_0000_0000_0000 <= w < 0x8000_0000_0000_0000
  {
    var r := x % 0x1_0000_0000_0000_0000;
    if r >= 0x8000_0000_0000_0000 then r - 0x1_0000_0000_0000_0000 else r
  }

  function Wrap32(x: int): (w: int)
    ensures -0x8000_0000 <= w < 0x8000_0000
  {
    var r := x % 0x1_0000_0000;
    if r >= 0x8000_0000 then r - 0x1_0000_0000 else r
  }

  // ---- the four forms ----

  // Go: a clamped shift of an int64 duration, whose overflow the guard is meant to catch.
  function GoDelay(failures: int): int
  {
    var s := Wrap64(failures - 1);
    GoShifted(if s < 0 then 0 else if s > 62 then 62 else s)
  }

  function GoShifted(shift: nat): int
  {
    var d := Wrap64(Doubled(shift));
    if d > CAP || d <= 0 then CAP else d
  }

  // Rust: the counter is a u32 that saturates, the shift stops at 31.
  function RustDelay(failures: nat): int
  {
    var shift := Max(failures, 1) - 1;
    Min(Doubled(Min(shift, 31)), CAP)
  }

  // .NET: an int counter, the exponent stops at 30.
  function DotNetDelay(failures: int): int
  {
    var shift := Min(Max(failures, 1) - 1, 30);
    var raw := Doubled(shift);
    if raw < CAP then raw else CAP
  }

  // Node: 2 ** k is Infinity past the double range, and the minimum with Infinity is the cap.
  function NodeDelay(failures: nat): int
    requires failures >= 1
  {
    if failures - 1 > 1023 then CAP else Min(Doubled(failures - 1), CAP)
  }

  lemma ScheduleIsCapped(n: nat)
    requires n >= 6
    ensures Schedule(n) == CAP
  {
    Pow2Grows(5, n - 1);
    assert Pow2(5) == 32;
  }

  // The first five windows: 0.2 s, 0.4 s, 0.8 s, 1.6 s, 3.2 s.
  lemma ScheduleStart()
    ensures Schedule(1) == BASE && Schedule(2) == 2 * BASE && Schedule(3) == 4 * BASE
    ensures Schedule(4) == 8 * BASE && Schedule(5) == 16 * BASE
  {
    assert Pow2(0) == 1 && Pow2(1) == 2 && Pow2(2) == 4 && Pow2(3) == 8 && Pow2(4) == 16;
  }

  lemma {:induction false} ScheduleGrows(m: nat, n: nat)
    requires 1 <= m <= n
    ensures Schedule(m) <= Schedule(n) && 0 < Schedule(n) <= CAP && Schedule(n) % 2 == 0
  {
    Pow2Grows(m - 1, n - 1);
    if Doubled(n - 1) < CAP {
      assert Doubled(n - 1) == 2 * (100_000_000 * Pow2(n - 1));
    }
  }

  lemma Pow2Of23()
    ensures Pow2(23) == 8388608
  {
    assert Pow2(11) == 2048 && Pow2(12) == 4096;
    Pow2Splits(11, 12);
  }

  // A multiple of 2^33 stays one when it wraps, so what wraps to a positive value is over the cap.
  lemma MultipleWrapsPastTheCap(m: int)
    ensures var d := Wrap64(8589934592 * m); d > CAP || d <= 0
  {
    var q, r := m / 2147483648, m % 2147483648;
    assert 8589934592 * m == 0x1_0000_0000_0000_0000 * q + 8589934592 * r;
  }

  lemma ShiftedPastTheCap(k: nat)
    requires 24 <= k
    ensures var d := Wrap64(Doubled(k)); d > CAP || d <= 0
  {
    Pow2Splits(23, k - 23);
    Pow2Of23();
    assert Pow2(k - 23) == 2 * Pow2(k - 24);
    assert Doubled(k) == 8589934592 * (390625 * Pow2(k - 24));
    MultipleWrapsPastTheCap(390625 * Pow2(k - 24));
  }

  lemma Wrap64Fits(x: int)
    requires -0x8000_0000_0000_0000 <= x < 0x8000_0000_0000_0000
    ensures Wrap64(x) == x
  {
  }

  lemma GoShiftedIs(shift: nat)
    ensures GoShifted(shift) == Min(Doubled(shift), CAP)
  {
    if shift >= 24 {
      ShiftedPastTheCap(shift);
      AtLeast32(shift);
    } else {
      Pow2Grows(shift, 23);
      Pow2Of23();
      Wrap64Fits(Doubled(shift));
    }
  }

  // The int64 form, for every counter value Go can hold but the least one.
  lemma GoDelayIs(failures: int)
    requires -0x8000_0000_0000_0000 < failures < 0x8000_0000_0000_0000
    ensures GoDelay(failures) == Schedule(Max(failures, 1))
  {
    var s := failures - 1;
    Wrap64Fits(s);
    GoShiftedIs(if s < 0 then 0 else if s > 62 then 62 else s);
    if s > 62 {
      ScheduleIsCapped(failures);
      AtLeast32(62);
    }
  }

  // The Rust form, for a counter that saturates.
  lemma RustDelayIs(n: nat)
    requires n >= 1
    ensures RustDelay(Min(n, 0xFFFF_FFFF)) == Schedule(n)
  {
    if n >= 6 {
      ScheduleIsCapped(n);
      AtLeast32(Min(Min(n, 0xFFFF_FFFF) - 1, 31));
    }
  }

  // The .NET form, for every positive value of its counter.
  lemma DotNetDelayIs(n: nat)
    requires 1 <= n < 0x8000_0000
    ensures DotNetDelay(n) == Schedule(n)
  {
    if n >= 6 {
      ScheduleIsCapped(n);
      AtLeast32(Min(n - 1, 30));
    }
  }

  lemma NodeDelayIs(n: nat)
    requires n >= 1
    ensures NodeDelay(n) == Schedule(n)
  {
    if n >= 6 {
      ScheduleIsCapped(n);
    }
  }

  // After n consecutive failures the four SDKs open the same window, while no counter has overflowed.
  lemma FormsAgree(n: nat)
    requires 1 <= n < 0x8000_0000
    ensures GoDelay(n) == RustDelay(n) == DotNetDelay(n) == NodeDelay(n) == Schedule(n)
    ensures Schedule(n) <= Schedule(n + 1) <= CAP
  {
    GoDelayIs(n);
    RustDelayIs(n);
    DotNetDelayIs(n);
    NodeDelayIs(n);
    ScheduleGrows(n, n + 1);
  }

  lemma AtLeast32(k: nat)
    requires k >= 5
    ensures Doubled(k) > CAP
  {
    Pow2Grows(5, k);
    assert Pow2(5) == 32;
  }

  lemma ScheduleBelowCap(n: nat)
    requires 1 <= n <= 5
    ensures Schedule(n) < CAP
  {
    ScheduleStart();
  }

  // .NET's int counter wraps unchecked: the window is right exactly while the wrapped counter is positive and
  // has not come round to the first five values again.
  lemma DotNetWindowIsRightExactlyWhen(n: nat)
    requires n >= 1
    ensures DotNetDelay(Wrap32(n)) == Schedule(n) <==> n <= 5 || 6 <= n % 0x1_0000_0000 < 0x8000_0000
  {
    if n <= 5 {
      Wrap32AtLeast6(n);
      DotNetDelayIs(n);
    } else {
      ScheduleIsCapped(n);
      Wrap32AtLeast6(n);
      DotNetDelayIsCapped(Wrap32(n));
    }
  }

  lemma Wrap32AtLeast6(n: nat)
    ensures Wrap32(n) >= 6 <==> 6 <= n % 0x1_0000_0000 < 0x8000_0000
    ensures n <= 5 ==> Wrap32(n) == n
  {
  }

  lemma DotNetDelayIsCapped(c: int)
    requires c < 0x8000_0000
    ensures DotNetDelay(c) == CAP <==> c >= 6
  {
    if c >= 1 {
      DotNetDelayIs(c);
      if c >= 6 { ScheduleIsCapped(c); } else { ScheduleBelowCap(c); }
    } else {
      assert DotNetDelay(c) == Doubled(0);
    }
  }

  // Go's int counter wraps at 2^63. At exactly 2^63 the decrement wraps as well and still gives the cap.
  lemma GoWindowIsRightExactlyWhen(n: nat)
    requires n >= 1
    ensures GoDelay(Wrap64(n)) == Schedule(n) <==> n <= 5 || 6 <= n % 0x1_0000_0000_0000_0000 <= 0x8000_0000_0000_0000
  {
    Wrap64AtLeast6(n);
    if n <= 5 {
      GoDelayIs(n);
    } else {
      ScheduleIsCapped(n);
      GoDelayIsCapped(Wrap64(n));
    }
  }

  lemma Wrap64AtLeast6(n: nat)
    ensures Wrap64(n) >= 6 || Wrap64(n) == -0x8000_0000_0000_0000 <==>
            6 <= n % 0x1_0000_0000_0000_0000 <= 0x8000_0000_0000_0000
    ensures n <= 5 ==> Wrap64(n) == n
  {
  }

  lemma GoDelayIsCapped(c: int)
    requires -0x8000_0000_0000_0000 <= c < 0x8000_0000_0000_0000
    ensures GoDelay(c) == CAP <==> c >= 6 || c == -0x8000_0000_0000_0000
  {
    if c == -0x8000_0000_0000_0000 {
      assert Wrap64(c - 1) == 0x7FFF_FFFF_FFFF_FFFF;
      GoShiftedIs(62);
      AtLeast32(62);
    } else {
      GoDelayIs(c);
      if c >= 6 {
        ScheduleIsCapped(c);
      } else {
        ScheduleBelowCap(Max(c, 1));
      }
    }
  }

  // ---- the jittered window ----

  // Go truncates the product to whole nanoseconds.
  function Jittered(window: nat, jitter: Jitter): int
  {
    (window as real * jitter).Floor
  }

  // Rust rounds it to the nearest nanosecond.
  function JitteredNearest(window: nat, jitter: Jitter): int
  {
    (window as real * jitter + 0.5).Floor
  }

  // What is drawn is the window times the factor, up to the rounding.
  lemma TheFactorIsUsed(window: nat, jitter: Jitter)
    ensures var exact := window as real * jitter;
            && Jittered(window, jitter) as real <= exact < (Jittered(window, jitter) + 1) as real
            && exact - 0.5 < JitteredNearest(window, jitter) as real <= exact + 0.5
  {
  }

  // The windows in numbers: 0.2, 0.4, 0.8, 1.6, 3.2 and then 5 seconds.
  lemma TheWindowsAre(n: nat)
    requires n >= 1
    ensures Schedule(n) ==
            if n == 1 then 200 * MS else if n == 2 then 400 * MS else if n == 3 then 800 * MS
            else if n == 4 then 1_600 * MS else if n == 5 then 3_200 * MS else 5 * SECOND
  {
    ScheduleStart();
    if n >= 6 {
      ScheduleIsCapped(n);
    }
  }

  lemma Product(a: real, b: real)
    requires a > 0.0 && b > 0.0
    ensures a * b > 0.0
  {
  }

  lemma HalfToWhole(w: real, half: real, jitter: real) returns (p: real)
    requires w == 2.0 * half && half > 0.0 && 0.5 <= jitter < 1.0
    ensures half <= p < w
    ensures p == w * jitter
  {
    p := w * jitter;
    Product(w, 1.0 - jitter);
    assert w * (1.0 - jitter) == w - p;
    assert w - p > 0.0;
    if jitter > 0.5 {
      Product(w, jitter - 0.5);
      assert w * (jitter - 0.5) == p - half;
    }
  }

  lemma FloorBetween(p: real, low: int, high: int)
    requires low as real <= p < high as real
    ensures low <= p.Floor < high && low <= (p + 0.5).Floor <= high
  {
  }

  lemma WindowBetween(w: nat, half: nat, jitter: Jitter)
    requires w > 0 && w == 2 * half
    ensures half <= Jittered(w, jitter) < w
    ensures half <= JitteredNearest(w, jitter) <= w
  {
    var p := HalfToWhole(w as real, half as real, jitter);
    FloorBetween(p, half, w);
  }

  lemma LeastJitter(n: nat)
    requires 1 <= n < 0x8000_0000_0000_0000
    ensures Jittered(GoDelay(n), 0.5) == Schedule(n) / 2
  {
    GoDelayIs(n);
    var half := if Doubled(n - 1) < CAP then 100_000_000 * Pow2(n - 1) else 2_500_000_000;
    assert Schedule(n) == 2 * half;
    assert Schedule(n) as real * 0.5 == half as real;
  }

  // The window a Go failure opens, whatever the counter has come to.
  lemma GoWindowBounds(n: int, jitter: Jitter)
    ensures GoDelay(n) / 2 <= Jittered(GoDelay(n), jitter) < GoDelay(n) <= CAP
    ensures GoDelay(n) > 0
  {
    var s := Wrap64(n - 1);
    var shift := if s < 0 then 0 else if s > 62 then 62 else s;
    GoShiftedIs(shift);
    var half := if Doubled(shift) < CAP then 100_000_000 * Pow2(shift) else 2_500_000_000;
    WindowBetween(GoDelay(n), half, jitter);
  }

  lemma RustWindowBounds(n: nat, jitter: Jitter)
    requires n >= 1
    ensures Schedule(n) / 2 <= JitteredNearest(Schedule(n), jitter) <= Schedule(n) <= CAP
  {
    var half := if Doubled(n - 1) < CAP then 100_000_000 * Pow2(n - 1) else 2_500_000_000;
    WindowBetween(Schedule(n), half, jitter);
  }

  // The least time that k failures in a row, the first of them the (n+1)-th, keep the store from fetching again.
  function LeastWait(n: nat, k: nat): nat
  {
    if k == 0 then 0 else LeastWait(n, k - 1) + Schedule(n + k) / 2
  }

  lemma {:induction false} LeastWaitOutage(k: nat)
    requires k >= 5
    ensures LeastWait(0, k) == 3_100_000_000 + 2_500_000_000 * (k - 5)
  {
    if k == 5 {
      ScheduleStart();
      assert LeastWait(0, 1) == BASE / 2;
      assert LeastWait(0, 2) == BASE / 2 + BASE;
      assert LeastWait(0, 3) == BASE / 2 + BASE + 2 * BASE;
      assert LeastWait(0, 4) == BASE / 2 + BASE + 2 * BASE + 4 * BASE;
    } else {
      LeastWaitOutage(k - 1);
      ScheduleIsCapped(k);
    }
  }
}
