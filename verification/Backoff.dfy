/** The delay before a retry: exponential, capped, in whole nanoseconds. */
module Backoff {
  import opened Prelude

  /** Durations are in nanoseconds. The multiplier is a real; rounding of floats is not modelled. */
  datatype Policy = Policy(maxAttempts: int, initialBackoff: int, maxBackoff: int, multiplier: real)

  function Pow(b: real, n: nat): real {
    if n == 0 then 1.0 else b * Pow(b, n - 1)
  }

  /** Conversion of a float to an integer type: towards zero. */
  function Truncate(x: real): int {
    if x >= 0.0 then x.Floor else -((-x).Floor)
  }

  function Uncapped(p: Policy, attempt: nat): real {
    p.initialBackoff as real * Pow(p.multiplier, attempt)
  }

  function Capped(p: Policy, attempt: nat): real {
    if Uncapped(p, attempt) > p.maxBackoff as real then p.maxBackoff as real else Uncapped(p, attempt)
  }

  function Delay(p: Policy, attempt: nat): int {
    Truncate(Capped(p, attempt))
  }

  predicate Growing(p: Policy) {
    p.multiplier >= 1.0 && p.initialBackoff >= 0 && p.maxBackoff >= 0
  }

  lemma {:induction false} UncappedGrows(p: Policy, n: nat)
    requires Growing(p)
    ensures Pow(p.multiplier, n) >= 1.0
    ensures 0.0 <= Uncapped(p, n) <= Uncapped(p, n + 1) == p.multiplier * Uncapped(p, n)
  {
    if n > 0 { UncappedGrows(p, n - 1); }
    var x, m := Pow(p.multiplier, n), p.multiplier;
    assert x >= 1.0 by {
      if n > 0 { Scale(Pow(m, n - 1), m); }
    }
    var i := p.initialBackoff as real;
    assert i * (m * x) == m * (i * x);
    assert i * x >= 0.0;
    Scale(i * x, m);
  }

  lemma Scale(x: real, m: real)
    requires x >= 0.0 && m >= 1.0
    ensures m * x >= x
  {
    assert m * x - x == (m - 1.0) * x;
  }

  /** The capped power is the capped iteration: each delay is the last times the multiplier, cut at the maximum. */
  lemma CappedIterates(p: Policy, n: nat)
    requires Growing(p)
    ensures var next := p.multiplier * Capped(p, n);
            Capped(p, n + 1) == if next > p.maxBackoff as real then p.maxBackoff as real else next
  {
    UncappedGrows(p, n);
    Scale(p.maxBackoff as real, p.multiplier);
    if Uncapped(p, n) > p.maxBackoff as real {
      assert Uncapped(p, n + 1) > p.maxBackoff as real;
    }
  }

  lemma FloorMonotone(x: real, y: real)
    requires x <= y
    ensures x.Floor <= y.Floor
  {
  }

  /** Delays never shrink, never pass the maximum, and stay there once they have reached it. */
  lemma {:induction false} DelayMonotone(p: Policy, m: nat, n: nat)
    requires Growing(p) && m <= n
    ensures 0 <= Delay(p, m) <= Delay(p, n) <= p.maxBackoff
    ensures Delay(p, m) == p.maxBackoff ==> Delay(p, n) == p.maxBackoff
    decreases n - m
  {
    UncappedGrows(p, m);
    FloorMonotone(Capped(p, m), p.maxBackoff as real);
    if m < n {
      DelayMonotone(p, m + 1, n);
      FloorMonotone(Capped(p, m), Capped(p, m + 1));
    }
  }

  /** The first delay is the smaller of the two durations, and every one the capped power cut to whole nanoseconds. */
  lemma DelayTruncates(p: Policy, n: nat)
    requires Growing(p)
    ensures Delay(p, 0) == if p.initialBackoff > p.maxBackoff then p.maxBackoff else p.initialBackoff
    ensures Delay(p, n) as real <= Capped(p, n) < Delay(p, n) as real + 1.0
  {
    UncappedGrows(p, n);
    assert Uncapped(p, 0) == p.initialBackoff as real;
  }

  /** Delays are positive from the start and for ever exactly when both configured durations are. */
  lemma PositiveDelays(p: Policy)
    requires Growing(p)
    ensures (forall n: nat :: Delay(p, n) > 0) <==> p.initialBackoff > 0 && p.maxBackoff > 0
  {
    var i := p.initialBackoff as real;
    assert Uncapped(p, 0) == i;
    if p.initialBackoff > 0 && p.maxBackoff > 0 {
      assert Delay(p, 0) > 0;
      forall n: nat ensures Delay(p, n) > 0 { DelayMonotone(p, 0, n); }
    } else {
      assert Delay(p, 0) <= 0;
    }
  }

  function Pow2(n: nat): nat {
    if n == 0 then 1 else 2 * Pow2(n - 1)
  }

  lemma {:induction false} PowOfTwo(n: nat)
    ensures Pow(2.0, n) == Pow2(n) as real
  {
    if n > 0 { PowOfTwo(n - 1); }
  }

  lemma {:induction false} Pow2Monotone(m: nat, n: nat)
    requires m <= n
    ensures Pow2(m) <= Pow2(n)
  {
    if m < n { Pow2Monotone(m, n - 1); }
  }

  /** With multiplier 2 and the cap out of reach, the delay is the initial one doubled n times, exactly. */
  lemma DoublingDelay(p: Policy, n: nat)
    requires p.multiplier == 2.0 && 0 <= p.initialBackoff * Pow2(n) <= p.maxBackoff
    ensures Delay(p, n) == p.initialBackoff * Pow2(n)
  {
    PowOfTwo(n);
    ProductOfReals(p.initialBackoff, Pow2(n));
    hide Pow, Pow2;
    assert Uncapped(p, n) == (p.initialBackoff * Pow2(n)) as real;
  }

  lemma ProductOfReals(a: int, b: int)
    ensures a as real * b as real == (a * b) as real
  {
  }

  // ---------------------------------------------------------------- the delays of one record

  /**
   * The delays of a record scheduled at `attempt` that fails every time. Schedule numbers it
   * attempt + 1 and waits Delay(attempt); a failed retry increments the number first and waits
   * Delay of the new one, so index attempt + 1 is never waited for.
   */
  function Waits(p: Policy, attempt: nat): seq<int>
    requires attempt < p.maxAttempts
  {
    [Delay(p, attempt)] + LaterWaits(p, attempt + 1)
  }

  function LaterWaits(p: Policy, number: nat): seq<int>
    decreases p.maxAttempts - number
  {
    if number + 1 >= p.maxAttempts then [] else [Delay(p, number + 1)] + LaterWaits(p, number + 1)
  }

  function Total(s: seq<int>): int {
    if s == [] then 0 else s[0] + Total(s[1..])
  }

  lemma {:induction false} LaterWaitsShape(p: Policy, number: nat)
    ensures |LaterWaits(p, number)| == Max(0, p.maxAttempts - number - 1)
    ensures forall j | 0 <= j < |LaterWaits(p, number)| :: LaterWaits(p, number)[j] == Delay(p, number + 1 + j)
    decreases p.maxAttempts - number
  {
    if number + 1 < p.maxAttempts {
      LaterWaitsShape(p, number + 1);
    }
  }

  lemma {:induction false} TotalBound(p: Policy, s: seq<int>)
    requires forall j | 0 <= j < |s| :: s[j] <= p.maxBackoff
    ensures Total(s) <= |s| * p.maxBackoff
  {
    if s != [] {
      TotalBound(p, s[1..]);
      assert |s| * p.maxBackoff == (|s| - 1) * p.maxBackoff + p.maxBackoff;
    }
  }

  /**
   * One wait per handler call, max(1, maxAttempts - attempt - 1) of them, at the indices attempt,
   * attempt + 2, ..., maxAttempts - 1, together never more than that many maximum delays.
   */
  lemma WaitsShape(p: Policy, attempt: nat)
    requires attempt < p.maxAttempts
    ensures var w := Waits(p, attempt);
            && |w| == Max(1, p.maxAttempts - attempt - 1)
            && w[0] == Delay(p, attempt)
            && (forall j | 1 <= j < |w| :: w[j] == Delay(p, attempt + 1 + j))
            && (Growing(p) ==> Total(w) <= |w| * p.maxBackoff)
  {
    LaterWaitsShape(p, attempt + 1);
    var w := Waits(p, attempt);
    if Growing(p) {
      forall j | 0 <= j < |w| ensures w[j] <= p.maxBackoff {
        var n := if j == 0 then attempt else attempt + 1 + j;
        DelayMonotone(p, n, n);
      }
      TotalBound(p, w);
    }
  }

  lemma {:induction false} LaterDoubling(p: Policy, number: nat)
    requires p.multiplier == 2.0 && p.initialBackoff >= 0
    requires 1 <= number + 1 <= p.maxAttempts && p.initialBackoff * Pow2(p.maxAttempts - 1) <= p.maxBackoff
    ensures Total(LaterWaits(p, number)) == p.initialBackoff * (Pow2(p.maxAttempts) - Pow2(number + 1))
    decreases p.maxAttempts - number
  {
    if number + 1 < p.maxAttempts {
      hide Delay;
      LaterDoubling(p, number + 1);
      NoCap(p, number + 1);
      assert LaterWaits(p, number)[1..] == LaterWaits(p, number + 1);
      Regroup(p.initialBackoff, Pow2(number + 1), Pow2(p.maxAttempts), 1);
    }
  }

  lemma ScaleNat(i: nat, a: nat, b: nat)
    requires a <= b
    ensures 0 <= i * a <= i * b
  {
    assert i * b - i * a == i * (b - a);
  }

  lemma NoCap(p: Policy, n: nat)
    requires p.multiplier == 2.0 && p.initialBackoff >= 0
    requires n < p.maxAttempts && p.initialBackoff * Pow2(p.maxAttempts - 1) <= p.maxBackoff
    ensures Delay(p, n) == p.initialBackoff * Pow2(n)
  {
    hide Delay;
    Pow2Monotone(n, p.maxAttempts - 1);
    ScaleNat(p.initialBackoff, Pow2(n), Pow2(p.maxAttempts - 1));
    DoublingDelay(p, n);
  }

  /** The closed form of the time a record spends waiting before it is exhausted. */
  lemma DoublingTotal(p: Policy, attempt: nat)
    requires p.multiplier == 2.0 && p.initialBackoff >= 0
    requires attempt + 2 <= p.maxAttempts && p.initialBackoff * Pow2(p.maxAttempts - 1) <= p.maxBackoff
    ensures Total(Waits(p, attempt)) == p.initialBackoff * (Pow2(p.maxAttempts) - 3 * Pow2(attempt))
  {
    hide Delay;
    NoCap(p, attempt);
    LaterDoubling(p, attempt + 1);
    assert Waits(p, attempt)[1..] == LaterWaits(p, attempt + 1);
    assert Pow2(attempt + 2) == 4 * Pow2(attempt);
    Regroup(p.initialBackoff, Pow2(attempt), Pow2(p.maxAttempts), 3);
  }

  lemma Regroup(i: int, a: int, b: int, k: int)
    ensures i * a + i * (b - (k + 1) * a) == i * (b - k * a)
  {
    assert a + (b - (k + 1) * a) == b - k * a;
    assert i * (a + (b - (k + 1) * a)) == i * a + i * (b - (k + 1) * a);
  }
}
