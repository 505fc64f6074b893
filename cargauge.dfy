/** The dial gauge widget: a target value clamped to the dial's range, a
    needle value that eases toward the target on every tick of the
    animation timer, the needle angle, and the colour theme. Painting is
    not modelled. */
module CarGauges {

  datatype Theme = Classic | Sport | Luxury | Racing

  /** The theme a name selects; any unknown name selects classic. */
  function ThemeNamed(name: string): Theme {
    if name == "sport" then Sport
    else if name == "luxury" then Luxury
    else if name == "racing" then Racing
    else Classic
  }

  function ThemeName(t: Theme): string {
    match t
    case Classic => "classic"
    case Sport => "sport"
    case Luxury => "luxury"
    case Racing => "racing"
  }

  /** The stored theme name is the one asked for when it is known and
      "classic" otherwise. */
  lemma ThemeFallback(name: string)
    ensures ThemeName(ThemeNamed(name)) ==
      (if name in {"classic", "sport", "luxury", "racing"} then name else "classic")
  {
  }

  /** The milliseconds between animation ticks. */
  const TICK_MS: int := 16

  /** The distance below which the needle snaps onto its target. */
  const SNAP: real := 0.1

  /** The fraction of the remaining distance one tick covers. */
  const EASE: real := 0.1

  function Abs(x: real): real {
    if x < 0.0 then -x else x
  }

  /** `max(lo, min(hi, value))`: within [lo, hi] when the range is the
      right way round, and always lo when hi < lo. */
  function Clamp(lo: real, hi: real, v: real): (r: real)
    ensures lo <= r
    ensures lo <= hi ==> r <= hi
    ensures hi < lo ==> r == lo
    ensures lo <= v <= hi ==> r == v
  {
    var m := if hi < v then hi else v;
    if lo < m then m else lo
  }

  /** The needle value after one tick toward `target`: it lands between
      where it was and the target, never beyond. */
  function Eased(current: real, target: real): (next: real)
    ensures current <= target ==> current <= next <= target
    ensures target <= current ==> target <= next <= current
  {
    if Abs(target - current) < SNAP then target else current + (target - current) * EASE
  }

  /** The distance left after one tick is nine tenths of what it was,
      unless the needle snapped onto the target. */
  lemma EasedMovesToward(current: real, target: real)
    ensures var next := Eased(current, target);
      next == target || Abs(target - next) == Abs(target - current) * (1.0 - EASE)
  {
  }

  /** The needle value after n ticks. */
  function EasedAfter(current: real, target: real, n: nat): real {
    if n == 0 then current else Eased(EasedAfter(current, target, n - 1), target)
  }

  /** One easing tick from distance d keeps the shrink bound one tick
      further: 0.9 * (1 + (k + 1)/9) = 1 + k/10, which is at most 1 + k/9. */
  lemma ShrinkStep(d: real, k: real, d0: real)
    requires 0.0 <= d && 0.0 <= k && d * (1.0 + k / 9.0) <= d0
    ensures d * 0.9 * (1.0 + (k + 1.0) / 9.0) <= d0
  {
    assert d * 0.9 * (1.0 + (k + 1.0) / 9.0) == d + d * (k / 10.0);
    assert d * (1.0 + k / 9.0) == d + d * (k / 9.0);
    assert d * (k / 10.0) <= d * (k / 9.0);
  }

  /** After n ticks the needle is on the target or the distance left has
      shrunk at least by the factor 1 + n/9 (the nine-tenths rule, by
      Bernoulli's inequality). */
  lemma {:induction false} DistanceShrinks(current: real, target: real, n: nat)
    ensures var d := Abs(target - EasedAfter(current, target, n));
      EasedAfter(current, target, n) == target || d * (1.0 + (n as real) / 9.0) <= Abs(target - current)
  {
    if n > 0 {
      DistanceShrinks(current, target, n - 1);
      var prev := EasedAfter(current, target, n - 1);
      assert EasedAfter(current, target, n) == Eased(prev, target);
      if prev != target {
        TickShrinks(prev, target, (n - 1) as real, Abs(target - current));
      }
    }
  }

  /** One tick keeps the bound of DistanceShrinks, with one more tick
      counted. */
  lemma TickShrinks(prev: real, target: real, k: real, d0: real)
    requires 0.0 <= k && Abs(target - prev) * (1.0 + k / 9.0) <= d0
    ensures var next := Eased(prev, target);
      next == target || Abs(target - next) * (1.0 + (k + 1.0) / 9.0) <= d0
  {
    var d := Abs(target - prev);
    if d >= SNAP {
      EasedMovesToward(prev, target);
      ShrinkStep(d, k, d0);
    }
  }

  /** The animation always ends: from any start, the needle sits on the
      target after at most 90 * |target - current| + 1 ticks, and stays
      there. */
  lemma NeedleSettles(current: real, target: real, n: nat)
    requires (n as real) >= 90.0 * Abs(target - current)
    ensures EasedAfter(current, target, n + 1) == target
  {
    DistanceShrinks(current, target, n);
    var here := EasedAfter(current, target, n);
    var d := Abs(target - here);
    assert EasedAfter(current, target, n + 1) == Eased(here, target);
    if here != target {
      var f := 1.0 + (n as real) / 9.0;
      BelowTenth(d, f, Abs(target - current));
    }
  }

  /** A non-negative d with d * f <= a, where f exceeds 10 * a, is below a
      tenth. */
  lemma BelowTenth(d: real, f: real, a: real)
    requires 0.0 <= d && 0.0 <= a && d * f <= a && f > 10.0 * a && f > 0.0
    ensures d < 0.1
  {
    assert (d - 0.1) * f == d * f - 0.1 * f;
    assert (d - 0.1) * f < 0.0;
  }

  class CarGauge {
    const theme: Theme
    const themeName: string
    const minValue: real
    const maxValue: real
    var currentValue: real
    var targetValue: real
    var timerActive: bool
    /** How many times the timer has been started. */
    ghost var timerStarts: nat

    /** The top of the range the needle can reach. */
    function Top(): real
      reads this
    {
      if maxValue < minValue then minValue else maxValue
    }

    /** The needle and the target stay within the dial. */
    ghost predicate Valid()
      reads this
    {
      && minValue <= currentValue <= Top()
      && minValue <= targetValue <= Top()
    }

    constructor (themeRequested: string, minValue: real, maxValue: real)
      ensures Valid()
      ensures theme == ThemeNamed(themeRequested) && themeName == ThemeName(theme)
      ensures this.minValue == minValue && this.maxValue == maxValue
      ensures currentValue == minValue && targetValue == minValue
      ensures !timerActive && timerStarts == 0
    {
      theme := ThemeNamed(themeRequested);
      themeName := ThemeName(ThemeNamed(themeRequested));
      this.minValue := minValue;
      this.maxValue := maxValue;
      currentValue := minValue;
      targetValue := minValue;
      timerActive := false;
      timerStarts := 0;
    }

    /** Aim the needle at `value`, clamped to the dial, and start the
        animation timer unless it already runs. */
    method SetValue(value: real)
      requires Valid()
      modifies this
      ensures Valid()
      ensures targetValue == Clamp(minValue, maxValue, value)
      ensures currentValue == old(currentValue) && timerActive
      ensures timerStarts == old(timerStarts) + (if old(timerActive) then 0 else 1)
    {
      targetValue := Clamp(minValue, maxValue, value);
      if !timerActive {
        timerActive := true;
        timerStarts := timerStarts + 1;
      }
    }

    /** One animation tick: snap onto the target and stop the timer once
        within 0.1 of it, otherwise cover a tenth of the distance. */
    method AnimateNeedle()
      requires Valid()
      modifies this
      ensures Valid()
      ensures currentValue == Eased(old(currentValue), targetValue)
      ensures targetValue == old(targetValue) && timerStarts == old(timerStarts)
      ensures timerActive == (old(timerActive) && Abs(targetValue - old(currentValue)) >= SNAP)
    {
      var diff := targetValue - currentValue;
      EasedMovesToward(currentValue, targetValue);
      if Abs(diff) < SNAP {
        currentValue := targetValue;
        timerActive := false;
      } else {
        currentValue := currentValue + diff * EASE;
      }
    }

    /** The needle angle in degrees: -150 on an empty range, otherwise
        -150 plus 300 times the needle's fraction of the range. */
    function NeedleAngle(): (a: real)
      reads this
      requires Valid()
      ensures -150.0 <= a <= 150.0
      ensures currentValue == minValue ==> a == -150.0
      ensures maxValue != minValue && currentValue == maxValue ==> a == 150.0
    {
      if maxValue == minValue then -150.0
      else
        var w := maxValue - minValue;
        var ratio := (currentValue - minValue) / w;
        assert ratio * w == currentValue - minValue;
        assert 0.0 <= ratio <= 1.0 by {
          if w < 0.0 {
            assert currentValue - minValue == 0.0;
            assert ratio == 0.0 / w == 0.0;
          }
        }
        -150.0 + ratio * 300.0
    }
  }

  /** A higher needle value never gives a smaller angle. */
  lemma NeedleAngleMonotone(g: CarGauge, h: CarGauge)
    requires g.Valid() && h.Valid()
    requires g.minValue == h.minValue && g.maxValue == h.maxValue
    requires g.currentValue <= h.currentValue
    ensures g.NeedleAngle() <= h.NeedleAngle()
  {
    if g.maxValue > g.minValue {
      var w := g.maxValue - g.minValue;
      assert (g.currentValue - g.minValue) / w <= (h.currentValue - h.minValue) / w;
    }
  }
}
