/**
 * Reconnect delays: the gateway's Backoff.Next on 64-bit durations
 * (gateway/internal/upstream/upstream.go) and the web client's nextBackoffMs
 * (web/src/transport/wsClient.ts). Both double in a loop and saturate.
 */
module Backoff {
  import opened Durations

  function Pow2(n: nat): (p: nat)
    ensures p >= 1
  {
    if n == 0 then 1 else 2 * Pow2(n - 1)
  }

  /** The documented schedule: doubling, capped, never negative. */
  function Schedule(initial: int, max: int, attempt: nat): int {
    Max(0, Min(initial * Pow2(attempt), max))
  }

  // ---- The loops as functions of their remaining turns ----

  function GoLoop(base: Int64, max: Int64, turns: nat): Int64
    decreases turns
  {
    if turns == 0 then base
    else
      var next := Wrap64(base * 2);
      if next <= 0 || next > max then max else GoLoop(next, max, turns - 1)
  }

  function GoBase(initial: Int64, max: Int64, attempt: int): Int64 {
    var base := GoLoop(initial, max, if attempt < 0 then 0 else attempt);
    if base > max then max else base
  }

  /** Doubling a double is exact; one that becomes infinite exceeds the cap like the real number does. */
  function TsLoop(base: real, max: real, turns: nat): real
    decreases turns
  {
    if turns == 0 then base
    else
      var next := base * 2.0;
      if next <= 0.0 || next > max then max else TsLoop(next, max, turns - 1)
  }

  /** Attempts are truncated, and negative ones count as none. */
  function Turns(attempt: real): nat {
    if attempt < 0.0 then 0 else attempt.Floor
  }

  function TsBase(initial: real, max: real, attempt: real): real {
    var base := TsLoop(initial, max, Turns(attempt));
    if base > max then max else base
  }

  // ---- The schedule ----

  lemma Pow2Split(a: nat)
    requires a > 0
    ensures Pow2(a) == 2 * Pow2(a - 1)
  {}

  lemma Doubling(base: int, turns: nat)
    requires turns > 0
    ensures base * Pow2(turns) == (base * 2) * Pow2(turns - 1)
  {
    Pow2Split(turns);
  }

  lemma Growth(base: int, p: int)
    requires base >= 1 && p >= 1
    ensures base * p >= base
  {}

  lemma WrapDouble(base: Int64)
    requires base >= 1
    ensures Wrap64(base * 2) == if base * 2 < LIMIT63 then base * 2 else base * 2 - 2 * LIMIT63
  {}

  /** Overflowing doublings count as exceeding the cap, so the loop computes the mathematical minimum. */
  lemma {:induction false} GoLoopIsSchedule(base: Int64, max: Int64, turns: nat)
    requires base >= 1
    ensures Min(GoLoop(base, max, turns), max) == Min(base * Pow2(turns), max)
    decreases turns
  {
    if turns > 0 {
      Doubling(base, turns);
      WrapDouble(base);
      var next := Wrap64(base * 2);
      if next <= 0 || next > max {
        Growth(base * 2, Pow2(turns - 1));
      } else {
        GoLoopIsSchedule(next, max, turns - 1);
      }
    }
  }

  lemma GoFollowsSchedule(initial: Int64, max: Int64, attempt: nat)
    requires initial >= 1
    ensures Max(0, GoBase(initial, max, attempt)) == Schedule(initial, max, attempt)
  {
    GoLoopIsSchedule(initial, max, attempt);
  }

  /** For non-positive initial delays the first retry already jumps past the schedule, unless the cap is 0. */
  lemma GoFollowsScheduleIff(initial: Int64, max: Int64)
    ensures (forall attempt: nat :: Max(0, GoBase(initial, max, attempt)) == Schedule(initial, max, attempt))
            <==> initial >= 1 || max <= 0
  {
    if initial >= 1 {
      forall attempt: nat ensures Max(0, GoBase(initial, max, attempt)) == Schedule(initial, max, attempt) {
        GoFollowsSchedule(initial, max, attempt);
      }
    } else if max <= 0 {
      forall attempt: nat ensures Max(0, GoBase(initial, max, attempt)) == Schedule(initial, max, attempt) {
      }
    } else {
      assert Pow2(1) == 2 * Pow2(0);
      assert Schedule(initial, max, 1) == 0;
      var next := Wrap64(initial * 2);
      assert GoLoop(initial, max, 1) == if next <= 0 || next > max then max else GoLoop(next, max, 0);
      assert Max(0, GoBase(initial, max, 1)) > 0;
    }
  }

  lemma {:induction false} Pow2Grows(m: nat, n: nat)
    requires m <= n
    ensures Pow2(m) <= Pow2(n)
  {
    if m < n {
      Pow2Grows(m, n - 1);
    }
  }

  /** Later attempts never wait less. */
  lemma GoMonotone(initial: Int64, max: Int64, m: nat, n: nat)
    requires initial >= 1 && m <= n
    ensures Max(0, GoBase(initial, max, m)) <= Max(0, GoBase(initial, max, n))
  {
    GoFollowsSchedule(initial, max, m);
    GoFollowsSchedule(initial, max, n);
    Pow2Grows(m, n);
    ProductGrows(initial, Pow2(m), Pow2(n));
  }

  lemma ProductGrows(a: int, p: int, q: int)
    requires a >= 0 && p <= q
    ensures a * p <= a * q
  {}

  /** The web client's loop and the gateway's agree on all non-negative 64-bit settings. */
  lemma {:induction false} LoopsAgree(base: Int64, max: Int64, turns: nat)
    requires base >= 0 && max >= 0
    ensures TsLoop(base as real, max as real, turns) == GoLoop(base, max, turns) as real
    decreases turns
  {
    if turns > 0 && base > 0 {
      WrapDouble(base);
      assert (base as real) * 2.0 == (base * 2) as real;
      if base * 2 <= max {
        LoopsAgree(base * 2, max, turns - 1);
      }
    }
  }

  lemma ClientAgreesWithGateway(initial: Int64, max: Int64, attempt: int)
    requires initial >= 0 && max >= 0
    ensures TsBase(initial as real, max as real, attempt as real) == GoBase(initial, max, attempt) as real
  {
    LoopsAgree(initial, max, if attempt < 0 then 0 else attempt);
    assert Turns(attempt as real) == if attempt < 0 then 0 else attempt;
  }

  lemma RealDoubling(base: real, turns: nat)
    requires turns > 0
    ensures base * (Pow2(turns) as real) == (base * 2.0) * (Pow2(turns - 1) as real)
  {
    Pow2Split(turns);
    assert Pow2(turns) as real == 2.0 * (Pow2(turns - 1) as real);
  }

  lemma RealGrowth(base: real, p: int)
    requires base > 0.0 && p >= 1
    ensures base * (p as real) >= base
  {
    assert base * ((p - 1) as real) >= 0.0;
    assert p as real == (p - 1) as real + 1.0;
  }

  function MinReal(a: real, b: real): real { if a <= b then a else b }

  function TsSchedule(initial: real, max: real, n: nat): real {
    MinReal(initial * (Pow2(n) as real), max)
  }

  lemma ScheduleDoubles(base: real, max: real, turns: nat)
    requires turns > 0
    ensures TsSchedule(base, max, turns) == TsSchedule(base * 2.0, max, turns - 1)
  {
    RealDoubling(base, turns);
  }

  lemma ScheduleCapped(base: real, max: real, turns: nat)
    requires base > max && base > 0.0
    ensures TsSchedule(base, max, turns) == max
  {
    RealGrowth(base, Pow2(turns));
  }

  lemma {:induction false} TsLoopIsSchedule(base: real, max: real, turns: nat)
    requires base > 0.0
    ensures MinReal(TsLoop(base, max, turns), max) == TsSchedule(base, max, turns)
    decreases turns
  {
    if turns > 0 {
      hide TsSchedule;
      ScheduleDoubles(base, max, turns);
      if base * 2.0 > max {
        ScheduleCapped(base * 2.0, max, turns - 1);
      } else {
        TsLoopIsSchedule(base * 2.0, max, turns - 1);
      }
    }
  }

  /** The web client's schedule, for fractional settings too. */
  lemma TsFollowsSchedule(initial: real, max: real, attempt: real)
    requires initial > 0.0
    ensures TsBase(initial, max, attempt) == TsSchedule(initial, max, Turns(attempt))
  {
    TsLoopIsSchedule(initial, max, Turns(attempt));
  }

  /** Attempts below one, negative ones included, do not double, and fractions of an attempt do not count. */
  lemma FirstAttempts(initial: Int64, max: Int64, attempt: int, first: real, cap: real, fraction: real)
    ensures attempt <= 0 ==> GoBase(initial, max, attempt) == Min(initial, max)
    ensures fraction < 1.0 ==> TsBase(first, cap, fraction) == MinReal(first, cap)
    ensures fraction >= 0.0 ==> Turns(fraction) as real <= fraction < Turns(fraction) as real + 1.0
  {
    if fraction < 1.0 {
      assert Turns(fraction) == 0;
    }
  }

  // ---- Jitter ----

  /** Truncation toward zero. */
  function Trunc(x: real): int {
    if x >= 0.0 then x.Floor else -((-x).Floor)
  }

  /** The offset drawn for a uniform draw in [0, 1). */
  function Offset(draw: real, jitter: real, base: real): int {
    Trunc((draw * 2.0 - 1.0) * (jitter * base))
  }

  lemma TruncBound(x: real, bound: real)
    requires -bound <= x <= bound
    ensures -bound <= Trunc(x) as real <= bound
  {}

  lemma OffsetBound(draw: real, jitter: real, base: real)
    requires 0.0 <= draw < 1.0 && jitter >= 0.0 && base >= 0.0
    ensures -(jitter * base) <= Offset(draw, jitter, base) as real <= jitter * base
  {
    var s, r := draw * 2.0 - 1.0, jitter * base;
    assert r >= 0.0;
    ScaledBound(s, r);
    TruncBound(s * r, r);
  }

  /**
   * A draw in the middle changes nothing, a smaller one shortens and a larger one lengthens the delay,
   * equally far for draws equally far from the middle; the whole part of that distance counts.
   */
  lemma OffsetMeaning(draw: real, jitter: real, base: real)
    requires jitter >= 0.0 && base >= 0.0
    ensures draw == 0.5 ==> Offset(draw, jitter, base) == 0
    ensures Offset(1.0 - draw, jitter, base) == -Offset(draw, jitter, base)
    ensures draw >= 0.5 ==>
              0.0 <= Offset(draw, jitter, base) as real <= 2.0 * (draw - 0.5) * (jitter * base)
              && 2.0 * (draw - 0.5) * (jitter * base) < Offset(draw, jitter, base) as real + 1.0
  {
    var r := jitter * base;
    assert r >= 0.0;
    Mirrored(draw, r);
    if draw >= 0.5 {
      assert (draw * 2.0 - 1.0) * r >= 0.0;
      assert (draw * 2.0 - 1.0) * r == 2.0 * (draw - 0.5) * r;
    }
  }

  lemma Mirrored(draw: real, r: real)
    ensures Trunc(((1.0 - draw) * 2.0 - 1.0) * r) == -Trunc((draw * 2.0 - 1.0) * r)
  {
    assert ((1.0 - draw) * 2.0 - 1.0) * r == -((draw * 2.0 - 1.0) * r);
  }

  lemma ClampBound(base: int, offset: int, r: real)
    requires base >= 0 && -r <= offset as real <= r
    ensures (base as real) - r <= Max(0, base + offset) as real <= (base as real) + r
  {
    assert (base + offset) as real == (base as real) + (offset as real);
  }

  lemma ScaledBound(s: real, r: real)
    requires -1.0 <= s <= 1.0 && r >= 0.0
    ensures -r <= s * r <= r
  {
    assert (1.0 - s) * r >= 0.0;
    assert (1.0 + s) * r >= 0.0;
  }

  function NotNegative(x: real): real { if x < 0.0 then 0.0 else x }

  function TsDelay(initial: real, max: real, jitter: real, attempt: real, draw: real): real {
    var base := TsBase(initial, max, attempt);
    NotNegative(if jitter > 0.0 then base + Offset(draw, jitter, base) as real else base)
  }

  function GoDelay(initial: Int64, max: Int64, jitter: real, attempt: int, draw: real): int {
    var base := GoBase(initial, max, attempt);
    Max(0, if jitter > 0.0 then Wrap64(base + Offset(draw, jitter, base as real)) else base)
  }

  /** The delay stays within the jitter of the base delay, whatever is drawn. */
  lemma TsDelayWithinJitter(initial: real, max: real, jitter: real, attempt: real, draw: real)
    requires 0.0 <= draw < 1.0 && jitter >= 0.0 && TsBase(initial, max, attempt) >= 0.0
    ensures var base, delay := TsBase(initial, max, attempt), TsDelay(initial, max, jitter, attempt, draw);
            base - jitter * base <= delay <= base + jitter * base && delay >= 0.0
  {
    OffsetBound(draw, jitter, TsBase(initial, max, attempt));
    assert jitter * TsBase(initial, max, attempt) >= 0.0;
  }

  lemma NoOverflow(base: int, offset: int, r: real)
    requires base >= 0 && -r <= offset as real <= r && (base as real) + r < LIMIT63 as real
    ensures Wrap64(base + offset) == base + offset
  {
    assert (base + offset) as real < LIMIT63 as real;
    assert (offset as real) > -(LIMIT63 as real);
  }

  lemma MovedWithin(base: Int64, offset: int, r: real)
    requires base >= 0 && -r <= offset as real <= r && (base as real) + r < LIMIT63 as real
    ensures (base as real) - r <= Max(0, Wrap64(base + offset)) as real <= (base as real) + r
    ensures (base as real) - r <= Max(0, base) as real <= (base as real) + r
  {
    NoOverflow(base, offset, r);
    hide Wrap64;
    ClampBound(base, offset, r);
  }

  lemma GoDelayWithinJitter(initial: Int64, max: Int64, jitter: real, attempt: int, draw: real)
    requires 0.0 <= draw < 1.0 && jitter >= 0.0 && GoBase(initial, max, attempt) >= 0
    requires var base := GoBase(initial, max, attempt) as real; base + jitter * base < LIMIT63 as real
    ensures var base := GoBase(initial, max, attempt) as real;
            var delay := GoDelay(initial, max, jitter, attempt, draw) as real;
            base - jitter * base <= delay <= base + jitter * base && delay >= 0.0
  {
    hide Offset, GoBase, Wrap64;
    var base := GoBase(initial, max, attempt);
    OffsetBound(draw, jitter, base as real);
    MovedWithin(base, Offset(draw, jitter, base as real), jitter * (base as real));
  }

  /** Bounds of the offset for a jitter of up to one, with a name for the product. */
  lemma OffsetWithin(draw: real, jitter: real, base: real, r: real)
    requires 0.0 <= draw < 1.0 && 0.0 <= jitter <= 1.0 && base >= 0.0 && r == jitter * base
    ensures -r <= Offset(draw, jitter, base) as real <= r && r <= base
  {
    OffsetBound(draw, jitter, base);
    assert (1.0 - jitter) * base >= 0.0;
  }

  lemma NotBelowZero(base: int, offset: int, r: real)
    requires -r <= offset as real && r <= base as real
    ensures base + offset >= 0
  {
    assert (base + offset) as real == (base as real) + (offset as real);
  }

  lemma NoOffset(draw: real, base: real)
    ensures Offset(draw, 0.0, base) == 0
  {
    assert 0.0 * base == 0.0;
    assert (draw * 2.0 - 1.0) * 0.0 == 0.0;
  }

  /** For a jitter of up to one, the delay is the base moved by the offset. */
  lemma TsDelayIs(initial: real, max: real, jitter: real, attempt: real, draw: real)
    requires 0.0 <= draw < 1.0 && 0.0 <= jitter <= 1.0 && TsBase(initial, max, attempt) >= 0.0
    ensures var base := TsBase(initial, max, attempt);
            TsDelay(initial, max, jitter, attempt, draw) == base + Offset(draw, jitter, base) as real
  {
    hide Offset, TsBase;
    OffsetWithin(draw, jitter, TsBase(initial, max, attempt), jitter * TsBase(initial, max, attempt));
    NoOffset(draw, TsBase(initial, max, attempt));
  }

  /** No delay is negative, and without jitter it is the base, or zero for a negative one. */
  lemma DelaysNotNegative(initial: Int64, max: Int64, first: real, cap: real, jitter: real, n: int, attempt: real, draw: real)
    ensures GoDelay(initial, max, jitter, n, draw) >= 0 && TsDelay(first, cap, jitter, attempt, draw) >= 0.0
    ensures jitter <= 0.0 ==> GoDelay(initial, max, jitter, n, draw) == Max(0, GoBase(initial, max, n))
    ensures jitter <= 0.0 && TsBase(first, cap, attempt) >= 0.0 ==>
              TsDelay(first, cap, jitter, attempt, draw) == TsBase(first, cap, attempt)
  {
    hide GoBase, TsBase, Offset, Wrap64;
  }

  lemma GoOffsetFits(base: Int64, jitter: real, draw: real, r: real)
    requires 0.0 <= draw < 1.0 && 0.0 <= jitter <= 1.0 && base >= 0
    requires r == jitter * (base as real) && (base as real) + r < LIMIT63 as real
    ensures var moved := base + Offset(draw, jitter, base as real); moved >= 0 && Wrap64(moved) == moved
  {
    OffsetWithin(draw, jitter, base as real, r);
    hide *;
    NotBelowZero(base, Offset(draw, jitter, base as real), r);
    NoOverflow(base, Offset(draw, jitter, base as real), r);
  }

  lemma GoDelayIs(initial: Int64, max: Int64, jitter: real, attempt: int, draw: real)
    requires 0.0 <= draw < 1.0 && 0.0 <= jitter <= 1.0 && GoBase(initial, max, attempt) >= 0
    requires var base := GoBase(initial, max, attempt) as real; base + jitter * base < LIMIT63 as real
    ensures var base := GoBase(initial, max, attempt);
            GoDelay(initial, max, jitter, attempt, draw) == base + Offset(draw, jitter, base as real)
  {
    hide Offset, GoBase, Wrap64;
    var base := GoBase(initial, max, attempt);
    GoOffsetFits(base, jitter, draw, jitter * (base as real));
    NoOffset(draw, base as real);
  }

  // ---- The loops ----

  class Backoff {
    const Initial: Int64
    const Cap: Int64
    const Jitter: real

    constructor (initial: Int64, cap: Int64, jitter: real)
      ensures Initial == initial && Cap == cap && Jitter == jitter
    {
      Initial, Cap, Jitter := initial, cap, jitter;
    }

    /** draw is what the random source returns, should it be asked. */
    method Next(attempt: int, draw: real) returns (delay: int)
      ensures delay == GoDelay(Initial, Cap, Jitter, attempt, draw)
      ensures Initial >= 1 && Jitter == 0.0 && attempt >= 0 ==> delay == Schedule(Initial, Cap, attempt)
    {
      var turns := if attempt < 0 then 0 else attempt;
      var base: Int64 := Initial;
      var i := 0;
      while i < turns
        invariant 0 <= i <= turns
        invariant GoLoop(Initial, Cap, turns) == GoLoop(base, Cap, turns - i)
      {
        var next := Wrap64(base * 2);
        if next <= 0 || next > Cap {
          base := Cap;
          break;
        }
        base := next;
        i := i + 1;
      }
      if base > Cap {
        base := Cap;
      }
      if Initial >= 1 && attempt >= 0 {
        GoFollowsSchedule(Initial, Cap, attempt);
      }
      delay := base;
      if Jitter > 0.0 {
        delay := Wrap64(base + Offset(draw, Jitter, base as real));
      }
      if delay < 0 {
        delay := 0;
      }
    }
  }

  method NextBackoffMs(attempt: real, initial: real, max: real, jitter: real, draw: real) returns (delay: real)
    ensures delay == TsDelay(initial, max, jitter, attempt, draw)
  {
    var normalized := Turns(attempt);
    var base := initial;
    var i := 0;
    while i < normalized
      invariant 0 <= i <= normalized
      invariant TsLoop(initial, max, normalized) == TsLoop(base, max, normalized - i)
    {
      var next := base * 2.0;
      if next <= 0.0 || next > max {
        base := max;
        break;
      }
      base := next;
      i := i + 1;
    }
    if base > max {
      base := max;
    }
    if jitter > 0.0 {
      base := base + Offset(draw, jitter, base) as real;
    }
    delay := NotNegative(base);
  }
}
