/** Decorrelated jitter, pkg/backoff/strategy.go. float64 is modelled as real and the random draw
    is an input in [0, 1). */
module DecorrelatedJitter {
  import opened GoNumbers

  datatype Settings = Settings(baseDelay: int, multiplier: real, maxDelay: int)

  datatype Draw = Draw(attempt: int, random: real)

  /** The upper end of the interval a delay is drawn from. */
  function Upper(s: Settings, previous: int, attempt: int): int {
    var from := if attempt <= 0 || previous == 0 then s.baseDelay else previous;
    var up := Scale(from, s.multiplier);
    var capped := if s.maxDelay > 0 && up > s.maxDelay then s.maxDelay else up;
    if capped < s.baseDelay then s.baseDelay else capped
  }

  function NextDelay(s: Settings, previous: int, d: Draw): int {
    s.baseDelay + Scale(Upper(s, previous, d.attempt) - s.baseDelay, d.random)
  }

  /** The delay after a sequence of calls, starting from a fresh strategy. */
  function After(s: Settings, ds: seq<Draw>): int {
    if ds == [] then 0 else NextDelay(s, After(s, ds[..|ds| - 1]), ds[|ds| - 1])
  }

  class DecorrelatedJitter {
    const settings: Settings
    var previousDelay: int
    ghost var draws: seq<Draw>

    constructor (s: Settings)
      ensures settings == s && previousDelay == 0 && draws == []
    {
      settings := s;
      previousDelay := 0;
      draws := [];
    }

    method Delay(attempt: int, random: real) returns (delay: int)
      requires previousDelay == After(settings, draws)
      modifies this
      ensures draws == old(draws) + [Draw(attempt, random)]
      ensures delay == previousDelay == After(settings, draws)
    {
      var previous := previousDelay;
      var upperBound;
      if attempt <= 0 || previous == 0 {
        upperBound := Scale(settings.baseDelay, settings.multiplier);
      } else {
        upperBound := Scale(previous, settings.multiplier);
      }
      if settings.maxDelay > 0 && upperBound > settings.maxDelay {
        upperBound := settings.maxDelay;
      }
      if upperBound < settings.baseDelay {
        upperBound := settings.baseDelay;
      }
      assert upperBound == Upper(settings, previous, attempt);
      var delayRange := upperBound - settings.baseDelay;
      delay := settings.baseDelay + Scale(delayRange, random);
      assert delay == NextDelay(settings, previous, Draw(attempt, random));
      OneMore(settings, draws, Draw(attempt, random));
      previousDelay := delay;
      draws := draws + [Draw(attempt, random)];
    }
  }

  lemma OneMore(s: Settings, ds: seq<Draw>, d: Draw)
    ensures After(s, ds + [d]) == NextDelay(s, After(s, ds), d)
  {
    assert (ds + [d])[..|ds|] == ds;
  }

  ghost predicate Sane(s: Settings) { s.baseDelay >= 0 && s.multiplier >= 1.0 }

  ghost predicate UnitDraws(ds: seq<Draw>) {
    forall i :: 0 <= i < |ds| ==> 0.0 <= ds[i].random < 1.0
  }

  lemma DrawnBetween(s: Settings, previous: int, d: Draw)
    requires Sane(s) && 0.0 <= d.random < 1.0
    ensures s.baseDelay <= NextDelay(s, previous, d) <= Upper(s, previous, d.attempt)
  {
    DrawnWithin(s.baseDelay, Upper(s, previous, d.attempt), d.random);
  }

  lemma DrawnWithin(base: int, upper: int, random: real)
    requires base <= upper && 0.0 <= random < 1.0
    ensures base <= base + Scale(upper - base, random) <= upper
  {
    StrictlyWithin(upper - base, random);
  }

  lemma Shrinks(r: real, x: real)
    requires 0.0 <= r < 1.0 && x >= 0.0
    ensures 0.0 <= r * x <= x
    ensures x > 0.0 ==> r * x < x
  {
    assert x - r * x == (1.0 - r) * x;
  }

  /** The delay that is multiplied. */
  ghost function Basis(s: Settings, previous: int, attempt: int): real {
    (if attempt <= 0 || previous == 0 then s.baseDelay else previous) as real
  }

  ghost predicate Possible(s: Settings, previous: int, attempt: int, d: int) {
    exists random :: 0.0 <= random < 1.0 && NextDelay(s, previous, Draw(attempt, random)) == d
  }

  /** The delays a call can draw: the base, and everything above it that lies below the cap and at least
      one nanosecond below the multiple of the previous delay, or of the base when there is none. */
  lemma PossibleExactly(s: Settings, previous: int, attempt: int, d: int)
    requires Sane(s) && previous >= 0
    ensures Possible(s, previous, attempt, d)
       <==> d == s.baseDelay
            || (s.baseDelay < d && (s.maxDelay > 0 ==> d < s.maxDelay)
                && (d + 1) as real <= s.multiplier * Basis(s, previous, attempt))
  {
    DrawsReachTheRange(s, previous, attempt, d);
    if s.baseDelay < d { BelowUpper(s, previous, attempt, d); }
  }

  lemma DrawsReachTheRange(s: Settings, previous: int, attempt: int, d: int)
    requires Sane(s) && previous >= 0
    ensures Possible(s, previous, attempt, d) <==> d == s.baseDelay || s.baseDelay < d < Upper(s, previous, attempt)
  {
    var range := Upper(s, previous, attempt) - s.baseDelay;
    if d == s.baseDelay {
      assert NextDelay(s, previous, Draw(attempt, 0.0)) == d;
    } else if s.baseDelay < d < Upper(s, previous, attempt) {
      var random := Aim(range, d - s.baseDelay);
      assert NextDelay(s, previous, Draw(attempt, random)) == d;
    }
    if Possible(s, previous, attempt, d) {
      var random :| 0.0 <= random < 1.0 && NextDelay(s, previous, Draw(attempt, random)) == d;
      StrictlyWithin(range, random);
    }
  }

  lemma BelowUpper(s: Settings, previous: int, attempt: int, d: int)
    requires Sane(s) && previous >= 0 && s.baseDelay < d
    ensures d < Upper(s, previous, attempt)
       <==> (s.maxDelay > 0 ==> d < s.maxDelay) && (d + 1) as real <= s.multiplier * Basis(s, previous, attempt)
  {
    var from := if attempt <= 0 || previous == 0 then s.baseDelay else previous;
    BelowWholePart(s.multiplier * from as real, d, from, s.multiplier);
  }

  lemma BelowWholePart(x: real, d: int, from: int, multiplier: real)
    requires x == multiplier * from as real && from >= 0 && multiplier >= 1.0
    ensures d < Scale(from, multiplier) <==> (d + 1) as real <= x
  {
    Product(multiplier, from as real);
    assert from as real * multiplier == x;
  }

  /** A draw that hits any point of the range. */
  lemma Aim(range: int, target: int) returns (random: real)
    requires 0 <= target < range
    ensures 0.0 <= random < 1.0 && Scale(range, random) == target
  {
    random := target as real / range as real;
    assert range as real * random == target as real;
    UnitQuotient(random, range as real, target as real);
  }

  lemma UnitQuotient(x: real, range: real, target: real)
    requires range * x == target && 0.0 <= target < range
    ensures 0.0 <= x < 1.0
  {
    if x >= 1.0 { AtLeast(range, x); }
    if x < 0.0 { Negative(range, x); }
  }

  lemma Negative(x: real, y: real)
    requires x > 0.0 && y < 0.0
    ensures x * y < 0.0
  {
  }

  lemma StrictlyWithin(range: int, random: real)
    requires range >= 0 && 0.0 <= random < 1.0
    ensures if range == 0 then Scale(range, random) == 0 else 0 <= Scale(range, random) < range
  {
    Shrinks(random, range as real);
    assert range as real * random == random * range as real;
  }

  /** Every delay is at least the base; and, when a cap is set, no sequence of calls ever exceeds it
      exactly when the cap is not below the base. */
  lemma DelayRespectsBaseAndCap(s: Settings, ds: seq<Draw>)
    requires Sane(s) && UnitDraws(ds) && ds != []
    ensures s.baseDelay <= After(s, ds)
    ensures s.maxDelay > 0 ==> (After(s, ds) <= s.maxDelay <==> s.baseDelay <= s.maxDelay)
  {
    DrawnBetween(s, After(s, ds[..|ds| - 1]), ds[|ds| - 1]);
  }

  /** base * multiplier^k */
  function Ceiling(s: Settings, k: nat): real {
    s.baseDelay as real * Pow(s.multiplier, k)
  }

  /** Without a cap the k-th delay is at most base * multiplier^k. */
  lemma {:induction false} GrowthBound(s: Settings, ds: seq<Draw>)
    requires Sane(s) && UnitDraws(ds)
    ensures 0.0 <= After(s, ds) as real <= Ceiling(s, |ds|)
  {
    if ds == [] {
      CeilingGrows(s, 0);
    } else {
      GrowthBound(s, ds[..|ds| - 1]);
      NextUnderCeiling(s, After(s, ds[..|ds| - 1]), ds[|ds| - 1], |ds| - 1);
    }
  }

  lemma NextUnderCeiling(s: Settings, previous: int, d: Draw, k: nat)
    requires Sane(s) && 0.0 <= d.random < 1.0
    requires previous >= 0 && previous as real <= Ceiling(s, k)
    ensures NextDelay(s, previous, d) >= 0 && NextDelay(s, previous, d) as real <= Ceiling(s, k + 1)
  {
    CeilingGrows(s, k);
    NextUnder(s, previous, d, Ceiling(s, k), Ceiling(s, k + 1));
  }

  lemma NextUnder(s: Settings, previous: int, d: Draw, ceiling: real, next: real)
    requires Sane(s) && 0.0 <= d.random < 1.0 && previous >= 0
    requires previous as real <= ceiling && s.baseDelay as real <= ceiling && next == ceiling * s.multiplier
    ensures 0 <= NextDelay(s, previous, d) && NextDelay(s, previous, d) as real <= next
  {
    UpperBound(s, previous, d.attempt, ceiling);
    DrawnBetween(s, previous, d);
  }

  lemma CeilingGrows(s: Settings, k: nat)
    requires Sane(s)
    ensures 0.0 <= s.baseDelay as real <= Ceiling(s, k)
    ensures Ceiling(s, k + 1) == Ceiling(s, k) * s.multiplier
  {
    PowAtLeastOne(s.multiplier, k);
    AtLeast(s.baseDelay as real, Pow(s.multiplier, k));
    Associate(s.baseDelay as real, Pow(s.multiplier, k), s.multiplier);
  }

  lemma AtLeast(x: real, y: real)
    requires x >= 0.0 && y >= 1.0
    ensures x * y >= x
  {
    Product(x, y - 1.0);
    assert x * (y - 1.0) == x * y - x;
  }

  lemma Associate(x: real, y: real, z: real)
    ensures x * y * z == x * (y * z)
  {
  }

  lemma UpperBound(s: Settings, previous: int, attempt: int, ceiling: real)
    requires Sane(s) && previous >= 0 && previous as real <= ceiling && s.baseDelay as real <= ceiling
    ensures Upper(s, previous, attempt) as real <= ceiling * s.multiplier
  {
    var from := if attempt <= 0 || previous == 0 then s.baseDelay else previous;
    Product(ceiling - from as real, s.multiplier);
    assert (ceiling - from as real) * s.multiplier == ceiling * s.multiplier - from as real * s.multiplier;
    Product(ceiling, s.multiplier - 1.0);
    assert ceiling * (s.multiplier - 1.0) == ceiling * s.multiplier - ceiling;
    Product(from as real, s.multiplier);
  }

  lemma Product(x: real, y: real)
    requires x >= 0.0 && y >= 0.0
    ensures x * y >= 0.0
  {
  }

  lemma {:induction false} PowAtLeastOne(x: real, n: nat)
    requires x >= 1.0
    ensures Pow(x, n) >= 1.0
  {
    if n > 0 {
      PowAtLeastOne(x, n - 1);
      Product(Pow(x, n - 1) - 1.0, x);
      assert (Pow(x, n - 1) - 1.0) * x == x * Pow(x, n - 1) - x;
    }
  }
}
