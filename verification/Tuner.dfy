// The adaptive batch tuner: a clamped, rate-limited controller over integers.
module Tuner {
  import opened Prelude

  /** Python's int(): truncation toward zero. */
  function Truncate(x: real): int {
    if x >= 0.0 then x.Floor else -((-x).Floor)
  }

  /** The size one timeout window asks for, held down while the stream is current, clamped to the limits. */
  function Ideal(flushCount: nat, duration: real, lag: Option<real>, lo: nat, hi: nat, timeout: real): (ideal: nat)
    requires duration > 0.0 && lo <= hi
    ensures lo <= ideal <= hi
    ensures lag.Some? && lag.value < 2.0 ==> ideal <= Max(lo, lo * 2)
  {
    var raw := Truncate(flushCount as real / duration * timeout);
    var guarded := if lag.Some? && lag.value < 2.0 then Min(raw, lo * 2) else raw;
    Max(lo, Min(hi, guarded))
  }

  /** The ideal is the number of events one timeout window brings at the measured rate, rounded down, as far
      as the limits let it; while the lag is below two seconds, no more than twice the lower limit. */
  lemma IdealIsOneWindow(flushCount: nat, duration: real, lag: Option<real>, lo: nat, hi: nat, timeout: real)
    requires duration > 0.0 && timeout >= 0.0 && lo <= hi
    ensures var ideal := Ideal(flushCount, duration, lag, lo, hi, timeout);
            var events := flushCount as real / duration * timeout;
            var cap := (2 * lo) as real;
            var window := if lag.Some? && lag.value < 2.0 && events > cap then cap else events;
            && (ideal as real <= window || ideal == lo)
            && (window < ideal as real + 1.0 || ideal == hi)
  {
    assert flushCount as real / duration >= 0.0;
    NonNegative(flushCount as real / duration, timeout);
  }

  lemma NonNegative(a: real, b: real)
    requires a >= 0.0 && b >= 0.0
    ensures a * b >= 0.0
  {
  }

  /** One step toward the ideal, at most half up and at most a third down. */
  function NextSize(size: nat, ideal: nat, lo: nat, hi: nat): nat {
    Max(Max(lo, size * 67 / 100), Min(Min(hi, size * 3 / 2), ideal))
  }

  class AdaptiveBatchTuner {
    var batchSize: nat
    const lo: nat
    const hi: nat
    const timeout: real

    constructor (initial: nat, lo: nat, hi: nat, timeout: real)
      requires lo <= hi
      ensures Valid() && this.lo == lo && this.hi == hi && this.timeout == timeout
      ensures lo <= initial <= hi ==> batchSize == initial
    {
      batchSize := Max(lo, Min(hi, initial));
      this.lo, this.hi, this.timeout := lo, hi, timeout;
    }

    ghost predicate Valid()
      reads this
    {
      lo <= batchSize <= hi
    }

    method Tune(flushCount: nat, duration: real, lag: Option<real>) returns (size: nat)
      requires Valid()
      modifies this
      ensures Valid() && size == batchSize
      ensures duration <= 0.0 || flushCount == 0 ==> batchSize == old(batchSize)
      ensures duration > 0.0 && flushCount > 0 ==>
                batchSize == NextSize(old(batchSize), Ideal(flushCount, duration, lag, lo, hi, timeout), lo, hi)
      ensures old(batchSize) * 67 / 100 <= batchSize <= old(batchSize) * 3 / 2
    {
      if duration <= 0.0 || flushCount == 0 {
        return batchSize;
      }
      var ideal := Ideal(flushCount, duration, lag, lo, hi, timeout);
      var least := Max(lo, batchSize * 67 / 100);
      var most := Min(hi, batchSize * 3 / 2);
      StepBounds(batchSize, ideal, lo, hi);
      batchSize := Max(least, Min(most, ideal));
      size := batchSize;
    }
  }

  lemma StepBounds(size: nat, ideal: nat, lo: nat, hi: nat)
    requires lo <= size <= hi && lo <= ideal <= hi
    ensures var next := NextSize(size, ideal, lo, hi);
            && lo <= next <= hi && size * 67 / 100 <= next <= size * 3 / 2
            && (size <= ideal ==> size <= next <= ideal) && (size >= ideal ==> ideal <= next <= size)
            && (next == size ==> size == ideal || size <= 1)
  {
  }

  /** The next size is the one nearest to the ideal among those allowed: within the limits, not below 67 % of
      the size and not above 150 %, both rounded down. */
  lemma NextIsNearest(size: nat, ideal: nat, lo: nat, hi: nat, other: nat)
    requires lo <= size <= hi && lo <= ideal <= hi
    requires lo <= other <= hi && 67 * size < 100 * (other + 1) && 2 * other <= 3 * size
    ensures var next := NextSize(size, ideal, lo, hi);
            && lo <= next <= hi && 67 * size < 100 * (next + 1) && 2 * next <= 3 * size
            && (if next >= ideal then next - ideal else ideal - next)
               <= (if other >= ideal then other - ideal else ideal - other)
  {
  }

  // ---- Constant inputs --------------------------------------------------------------------------

  function Iterate(size: nat, ideal: nat, lo: nat, hi: nat, n: nat): nat
    decreases n
  {
    if n == 0 then size else Iterate(NextSize(size, ideal, lo, hi), ideal, lo, hi, n - 1)
  }

  function Pow2(n: nat): nat {
    if n == 0 then 1 else 2 * Pow2(n - 1)
  }

  /** Each step moves toward the ideal and never past it. */
  lemma {:induction false} MovesMonotonically(size: nat, ideal: nat, lo: nat, hi: nat, n: nat)
    requires lo <= size <= hi && lo <= ideal <= hi
    ensures var s, t := Iterate(size, ideal, lo, hi, n), Iterate(size, ideal, lo, hi, n + 1);
            && lo <= s <= hi
            && (size <= ideal ==> size <= s <= t <= ideal)
            && (size >= ideal ==> size >= s >= t >= ideal)
    decreases n
  {
    StepBounds(size, ideal, lo, hi);
    if n > 0 {
      MovesMonotonically(NextSize(size, ideal, lo, hi), ideal, lo, hi, n - 1);
    } else {
      var next := NextSize(size, ideal, lo, hi);
      assert Iterate(size, ideal, lo, hi, 1) == Iterate(next, ideal, lo, hi, 0) == next;
    }
  }

  lemma {:induction false} IterateSum(size: nat, ideal: nat, lo: nat, hi: nat, m: nat, n: nat)
    ensures Iterate(size, ideal, lo, hi, m + n) == Iterate(Iterate(size, ideal, lo, hi, m), ideal, lo, hi, n)
    decreases m
  {
    if m > 0 {
      IterateSum(NextSize(size, ideal, lo, hi), ideal, lo, hi, m - 1, n);
    }
  }

  /** Three steps halve the distance in scale: they double or halve the size, or reach the ideal. */
  lemma ThreeSteps(size: nat, ideal: nat, lo: nat, hi: nat)
    requires 2 <= lo <= size <= hi && lo <= ideal <= hi
    ensures var s := Iterate(size, ideal, lo, hi, 3);
            && 2 <= lo <= s <= hi
            && (size <= ideal ==> s <= ideal && (s == ideal || s >= 2 * size))
            && (size >= ideal ==> s >= ideal && (s == ideal || 2 * s <= size))
  {
    var a := NextSize(size, ideal, lo, hi);
    var b := NextSize(a, ideal, lo, hi);
    var c := NextSize(b, ideal, lo, hi);
    assert Iterate(size, ideal, lo, hi, 3) == Iterate(a, ideal, lo, hi, 2) == Iterate(b, ideal, lo, hi, 1)
           == Iterate(c, ideal, lo, hi, 0) == c;
    StepBounds(size, ideal, lo, hi);
    StepBounds(a, ideal, lo, hi);
    StepBounds(b, ideal, lo, hi);
  }

  lemma HalvesTheGap(size: nat, ideal: nat, s: nat, k: nat)
    requires k > 0 && Within(size, ideal, k)
    requires size <= ideal ==> size <= s <= ideal && (s == ideal || s >= 2 * size)
    requires size >= ideal ==> s >= ideal && (s == ideal || 2 * s <= size)
    ensures Within(s, ideal, k - 1)
  {
    var p := Pow2(k - 1);
    PowPositive(k - 1);
    Grows(p, s);
    Grows(p, ideal);
    if s != ideal {
      Twice(p, size);
      Twice(p, ideal);
      if size <= ideal {
        Monotone(p, 2 * size, s);
      }
    }
  }

  lemma Grows(p: nat, x: nat)
    requires p >= 1
    ensures x <= p * x
  {
    assert p * x == x + (p - 1) * x;
  }

  lemma Twice(p: nat, x: nat)
    ensures 2 * p * x == p * (2 * x) == 2 * (p * x)
  {
  }

  lemma Monotone(p: nat, x: nat, y: nat)
    requires x <= y
    ensures p * x <= p * y
  {
  }

  predicate Within(size: nat, ideal: nat, k: nat) {
    ideal <= Pow2(k) * size && size <= Pow2(k) * ideal
  }

  /** If the ideal is within a factor 2^k of the size, 3k steps reach it. */
  lemma {:induction false} ConvergesLogarithmically(size: nat, ideal: nat, lo: nat, hi: nat, k: nat)
    requires 2 <= lo <= size <= hi && lo <= ideal <= hi && Within(size, ideal, k)
    ensures Iterate(size, ideal, lo, hi, 3 * k) == ideal
    decreases k
  {
    if k > 0 {
      var s := ThreeMoreSteps(size, ideal, lo, hi, k);
      ConvergesLogarithmically(s, ideal, lo, hi, k - 1);
    }
  }

  lemma ThreeMoreSteps(size: nat, ideal: nat, lo: nat, hi: nat, k: nat) returns (s: nat)
    requires 2 <= lo <= size <= hi && lo <= ideal <= hi && k > 0 && Within(size, ideal, k)
    ensures lo <= s <= hi && Within(s, ideal, k - 1)
    ensures Iterate(size, ideal, lo, hi, 3 * k) == Iterate(s, ideal, lo, hi, 3 * (k - 1))
  {
    s := Iterate(size, ideal, lo, hi, 3);
    ThreeSteps(size, ideal, lo, hi);
    IterateSum(size, ideal, lo, hi, 3, 3 * (k - 1));
    HalvesTheGap(size, ideal, s, k);
  }

  lemma {:induction false} PowPositive(n: nat)
    ensures Pow2(n) >= 1
  {
    if n > 0 { PowPositive(n - 1); }
  }

  /** Without the lower limit of two: the ideal is reached exactly when the size need not grow or is
      at least two, since a size of one (or zero) rounds back to itself. */
  lemma ReachesIdealIff(size: nat, ideal: nat, lo: nat, hi: nat)
    requires lo <= size <= hi && lo <= ideal <= hi
    ensures (exists n :: Iterate(size, ideal, lo, hi, n) == ideal) <==> ideal <= size || size >= 2
  {
    if ideal <= size || size >= 2 {
      var n := StepsToIdeal(size, ideal, lo, hi);
    } else {
      forall n ensures Iterate(size, ideal, lo, hi, n) == size {
        StuckBelowTwo(size, ideal, lo, hi, n);
      }
    }
  }

  lemma {:induction false} StuckBelowTwo(size: nat, ideal: nat, lo: nat, hi: nat, n: nat)
    requires size < 2 && lo <= size <= hi && size < ideal
    ensures Iterate(size, ideal, lo, hi, n) == size
  {
    if n > 0 {
      assert NextSize(size, ideal, lo, hi) == size;
      StuckBelowTwo(size, ideal, lo, hi, n - 1);
    }
  }

  lemma {:induction false} StepsToIdeal(size: nat, ideal: nat, lo: nat, hi: nat) returns (n: nat)
    requires lo <= size <= hi && lo <= ideal <= hi && (ideal <= size || size >= 2)
    ensures Iterate(size, ideal, lo, hi, n) == ideal
    decreases if size <= ideal then ideal - size else size - ideal
  {
    if size == ideal {
      n := 0;
    } else {
      StepBounds(size, ideal, lo, hi);
      var next := NextSize(size, ideal, lo, hi);
      if size <= 1 {
        assert size == 1 && ideal == 0 && next == 0;
      }
      var m := StepsToIdeal(next, ideal, lo, hi);
      n := m + 1;
    }
  }
}
