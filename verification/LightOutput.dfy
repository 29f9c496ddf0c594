/** The outputs: a relay and a PWM duty cycle, as floats. */
module LightOutput {
  import opened Binary32
  import opened Gf2

  /** The float 0.95. */
  const DIMMING_FACTOR: nat := Hundredths(95)

  function Duty(level: nat): nat {
    Single(level * DIMMING_FACTOR, ONE)
  }

  datatype Lamp = Lamp(dimmingValue: int, duty: nat, relay: bool) {
    /** What the outputs promise whatever was asked for: a level in 0 to 1, a duty cycle of at
        most 0.95, and the relay on exactly when there is a duty cycle at all. */
    predicate Inv() {
      && 0 <= dimmingValue <= ONE
      && duty == Duty(dimmingValue) && 100 * duty <= 95 * ONE
      && (relay <==> duty > 0)
    }
  }

  lemma DutyRange(level: nat)
    requires level <= ONE
    ensures 100 * Duty(level) <= 95 * ONE
    ensures Duty(level) > 0 <==> level > 0
  {
    Places();
    FactorSignificand(0x100_0000, 30, 0x4000_0000);
    var f := Significand(95, 0x100_0000);
    ProductMono(level, ONE, DIMMING_FACTOR);
    RoundedAtMost(level * DIMMING_FACTOR, ONE, 0x100_0000, f, 30, 0x4000_0000);
    if level > 0 {
      ProductMono(1, level, DIMMING_FACTOR);
      RoundedPositive(level * DIMMING_FACTOR, ONE, 0x100_0000);
    }
  }

  lemma FactorSignificand(s: nat, j: nat, u: nat)
    requires s == 0x100_0000 && u == 0x4000_0000 == Pow2(j) && j > 0
    ensures DIMMING_FACTOR == Significand(95, s) * u && 2 * DIMMING_FACTOR > ONE
    ensures 100 * Significand(95, s) == 95 * s - 20
  {
    SignificandError(95, s);
    HundredthsAt(95, s, j, u);
  }

  /** The float 0.95 is a little less than 95/100. */
  lemma FactorNear(unit: nat)
    requires unit == 0x4000_0000
    ensures 100 * DIMMING_FACTOR == 95 * ONE - 20 * unit && ONE == 0x100_0000 * unit
  {
    Places();
    FactorSignificand(0x100_0000, 30, unit);
  }

  /** The duty cycle follows the level: it is 95/100 of it, up to seven tenths of a unit in the last
      place of the level, of which the rounding of the product takes half a unit, and the float
      0.95 the rest. */
  lemma DutyFollowsLevel(level: nat, j: nat, u: nat)
    requires level <= ONE && u == Pow2(j) && level < 0x100_0000 * u
    ensures 95 * level <= 100 * Driven(level).duty + 70 * u
    ensures 100 * Driven(level).duty <= 95 * level + 50 * u
  {
    var unit: nat := 0x4000_0000;
    FactorNear(unit);
    ProductFits(level, DIMMING_FACTOR, ONE, u);
    RoundedNear(level * DIMMING_FACTOR, ONE, 0x100_0000, j, u);
    FactorTimes(level, DIMMING_FACTOR, ONE, unit, u);
    NearProduct(Duty(level), level, level * DIMMING_FACTOR, ONE, u);
  }

  lemma ProductFits(level: nat, factor: nat, one: nat, u: nat)
    requires factor < one && level < 0x100_0000 * u
    ensures level * factor < one * 0x100_0000 * u
  {
    ProductLess(level, 0x100_0000 * u, one);
    ProductMono(factor, one, level);
    Regroup3(one, 0x100_0000, u);
  }

  lemma FactorTimes(level: nat, factor: nat, one: nat, unit: nat, u: nat)
    requires 100 * factor == 95 * one - 20 * unit && one == 0x100_0000 * unit && level < 0x100_0000 * u
    ensures 100 * (level * factor) <= 95 * (level * one) <= 100 * (level * factor) + 20 * (u * one)
  {
    ProductMono(level, 0x100_0000 * u, unit);
    assert 0x100_0000 * u * unit == u * one by { Regroup3(0x100_0000, u, unit); Regroup3(0x100_0000, unit, u); }
    assert 100 * (level * factor) + 20 * (level * unit) == level * (100 * factor + 20 * unit) == 95 * (level * one);
  }

  lemma NearProduct(duty: nat, level: nat, product: nat, one: nat, u: nat)
    requires one > 0 && Near(duty, one, product, one * u)
    requires 100 * product <= 95 * (level * one) <= 100 * product + 20 * (u * one)
    ensures 95 * level <= 100 * duty + 70 * u && 100 * duty <= 95 * level + 50 * u
  {
    Weighted(95, level, 50, u, one);
    Weighted(100, duty, 70, u, one);
    Weighted(100, duty, 0, u, one);
    Weighted(95, level, 0, u, one);
    Weighted(0, level, 1, u, one);
    ProductLess(95 * level + 50 * u, 100 * duty, one);
    ProductLess(100 * duty + 70 * u, 95 * level, one);
  }

  lemma Weighted(k: nat, x: nat, i: nat, u: nat, one: nat)
    ensures (k * x + i * u) * one == k * (x * one) + i * (u * one) && one * u == u * one
  {
    Regroup3(k, x, one);
    Regroup3(i, u, one);
  }

  /** A higher level has no lower a duty cycle. */
  lemma DutyOrdered(a: nat, b: nat)
    requires a <= b <= ONE
    ensures Driven(a).duty <= Driven(b).duty
  {
    ProductMono(a, b, DIMMING_FACTOR);
    RoundedOrdered(a * DIMMING_FACTOR, b * DIMMING_FACTOR, ONE, 0x100_0000);
  }

  /** Every hundredth has a duty cycle of its own. */
  lemma HundredthsVisible(n: nat, m: nat)
    requires n < m <= 100
    ensures Driven(Hundredths(n)).duty < Driven(Hundredths(m)).duty
  {
    Ends(100);
    HundredthsOrder(n, m);
    HundredthsNear(n);
    HundredthsNear(m);
    LargePlace(0x8000_0000);
    DutyFollowsLevel(Hundredths(n), 31, 0x8000_0000);
    DutyFollowsLevel(Hundredths(m), 31, 0x8000_0000);
    Apart(n, m, Hundredths(n), Hundredths(m), Driven(Hundredths(n)).duty, Driven(Hundredths(m)).duty);
  }

  lemma Apart(n: nat, m: nat, x: nat, y: nat, d: nat, e: nat)
    requires n < m && 100 * x < n * ONE + 0x40_0000_0000 && m * ONE < 100 * y + 0x40_0000_0000
    requires 100 * d <= 95 * x + 50 * 0x8000_0000 && 95 * y <= 100 * e + 70 * 0x8000_0000
    ensures d < e
  {
    assert m * ONE >= n * ONE + ONE;
  }

  lemma LargePlace(u: nat)
    requires u == 0x8000_0000
    ensures Pow2(31) == u && ONE < 0x100_0000 * u
  {
    HigherPlaces(30);
  }

  /** Full light is the float 0.95 exactly. */
  lemma FullDuty()
    ensures Driven(ONE).duty == Hundredths(95)
  {
    Places();
    FactorSignificand(0x100_0000, 30, 0x4000_0000);
    ExactProduct(Significand(95, 0x100_0000), ONE, 30, 0x4000_0000);
  }

  lemma ExactProduct(q: nat, one: nat, j: nat, u: nat)
    requires j > 0 && u == Pow2(j) && one > 0 && q < 0x100_0000 <= 2 * q
    ensures Single(one * (q * u), one) == q * u
  {
    ProductLess(q, 0x100_0000, one * u);
    ProductMono(0x100_0000, 2 * q, one * u);
    ProductLess(0, one, u);
    Exchanged(one, q, u);
    Exchanged(one, 0x100_0000, u);
    Regroup3(2, q, one * u);
    RoundedAt(one * (q * u), one, 0x100_0000, j, u);
    NearestIs(q * (one * u), one * u, q);
  }

  lemma Exchanged(a: nat, b: nat, c: nat)
    ensures a * (b * c) == b * (a * c) && a * b * c == b * (a * c)
  {
    Regroup3(a, b, c);
    Regroup3(b, a, c);
  }

  function Driven(level: int): (lamp: Lamp)
    ensures lamp.Inv()
    ensures lamp.relay <==> level > 0
    ensures 0 <= level <= ONE ==> lamp.dimmingValue == level
    ensures level > ONE ==> lamp.dimmingValue == ONE
  {
    var v := if level >= ONE then ONE else if level < 0 then 0 else level;
    DutyRange(v);
    Lamp(v, Duty(v), v > 0)
  }

  class Output {
    var dimmingValue: int
    var duty: nat
    var relay: bool

    function Now(): Lamp
      reads this
    {
      Lamp(dimmingValue, duty, relay)
    }

    constructor ()
      ensures Now() == Driven(0)
    {
      new;
      SetOutput(0);
    }

    method SetOutput(level: int)
      modifies this
      ensures Now() == Driven(level)
    {
      dimmingValue := level;
      if dimmingValue >= ONE {
        dimmingValue := ONE;
      }
      if dimmingValue < 0 {
        dimmingValue := 0;
      }
      duty := Duty(dimmingValue);
      relay := if dimmingValue > 0 then true else false;
    }
  }
}
