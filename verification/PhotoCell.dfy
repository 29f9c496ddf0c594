/** The photocell: averaged readings with hysteresis. Floats are whole multiples of 2^-149, the
    smallest positive one, so that rounding is exact for all of them. */
module PhotoCell {
  import opened Machine
  import opened Binary32
  import Gf2

  /** The value 1. */
  const FULL: nat := 0x20_0000_0000_0000_0000_0000_0000_0000_0000_0000

  datatype Photo = Photo(onThreshold: int, offThreshold: int, lastState: bool, lastRead: int) {
    predicate Inv() {
      onThreshold <= offThreshold
    }

    function SetThreshold(on: int, off: int): Photo {
      this.(onThreshold := on, offThreshold := if on <= off then off else on)
    }

    /** shouldBeOn(), given the average that it reads */
    function ShouldBeOn(average: int): Photo {
      var state := if lastState then !(average > offThreshold) else average < onThreshold;
      this.(lastRead := average, lastState := state)
    }

    /** A reading outside the band decides the state whatever it was. */
    predicate Decisive(average: int) {
      average < onThreshold || average > offThreshold
    }
  }

  function Created(on: int, off: int): Photo {
    Photo(0, 0, false, 0).SetThreshold(on, off)
  }

  datatype Input = Reading(average: int) | Thresholds(on: int, off: int)

  function Step(s: Photo, input: Input): Photo {
    match input
    case Reading(average) => s.ShouldBeOn(average)
    case Thresholds(on, off) => s.SetThreshold(on, off)
  }

  function Run(s: Photo, inputs: seq<Input>): Photo {
    if inputs == [] then s else Step(Run(s, inputs[..|inputs| - 1]), inputs[|inputs| - 1])
  }

  /** Input i is a reading outside the band in force when it was taken. */
  predicate DecisiveAt(s: Photo, inputs: seq<Input>, i: nat)
    requires i < |inputs|
  {
    inputs[i].Reading? && Run(s, inputs[..i]).Decisive(inputs[i].average)
  }

  lemma {:induction false} BandKept(s: Photo, inputs: seq<Input>)
    requires s.Inv()
    ensures Run(s, inputs).Inv()
    decreases |inputs|
  {
    if inputs != [] {
      BandKept(s, inputs[..|inputs| - 1]);
    }
  }

  /** A prefix has the decisive readings of the whole. */
  lemma DecisiveInPrefix(s: Photo, inputs: seq<Input>, n: nat, i: nat)
    requires i < n <= |inputs|
    ensures DecisiveAt(s, inputs[..n], i) == DecisiveAt(s, inputs, i)
    ensures Run(s, inputs[..n][..i]) == Run(s, inputs[..i])
  {
    assert inputs[..n][..i] == inputs[..i];
  }

  /** An input that is no decisive reading leaves the state alone; a decisive one sets it. */
  lemma OneInput(s: Photo, input: Input)
    requires s.Inv()
    ensures Step(s, input).lastState
         == if input.Reading? && s.Decisive(input.average) then input.average < s.onThreshold else s.lastState
  {
  }

  /** The state is what the last decisive reading says: on when it was below the band. */
  lemma {:induction false} LastDecisiveReading(s: Photo, inputs: seq<Input>, i: nat)
    requires s.Inv() && i < |inputs| && DecisiveAt(s, inputs, i)
    requires forall j :: i < j < |inputs| ==> !DecisiveAt(s, inputs, j)
    ensures Run(s, inputs).lastState <==> inputs[i].average < Run(s, inputs[..i]).onThreshold
    decreases |inputs|
  {
    var n := |inputs| - 1;
    BandKept(s, inputs[..n]);
    OneInput(Run(s, inputs[..n]), inputs[n]);
    if i < n {
      assert !DecisiveAt(s, inputs, n);
      forall j | i <= j < n
        ensures DecisiveAt(s, inputs[..n], j) == DecisiveAt(s, inputs, j)
      {
        DecisiveInPrefix(s, inputs, n, j);
      }
      DecisiveInPrefix(s, inputs, n, i);
      LastDecisiveReading(s, inputs[..n], i);
    }
  }

  /** Without one it is the state at the start, which is off for a new photocell. */
  lemma {:induction false} NoDecisiveReading(s: Photo, inputs: seq<Input>)
    requires s.Inv() && forall i :: 0 <= i < |inputs| ==> !DecisiveAt(s, inputs, i)
    ensures Run(s, inputs).lastState == s.lastState
    decreases |inputs|
  {
    if inputs != [] {
      var n := |inputs| - 1;
      BandKept(s, inputs[..n]);
      OneInput(Run(s, inputs[..n]), inputs[n]);
      assert !DecisiveAt(s, inputs, n);
      forall j | 0 <= j < n
        ensures !DecisiveAt(s, inputs[..n], j)
      {
        DecisiveInPrefix(s, inputs, n, j);
      }
      NoDecisiveReading(s, inputs[..n]);
    }
  }

  /** The band in force is that of the last change of thresholds, with off not below on. */
  lemma {:induction false} BandInForce(s: Photo, inputs: seq<Input>, i: nat)
    requires i < |inputs| && inputs[i].Thresholds? && forall j :: i < j < |inputs| ==> inputs[j].Reading?
    ensures Run(s, inputs).onThreshold == inputs[i].on
    ensures inputs[i].on <= Run(s, inputs).offThreshold && inputs[i].off <= Run(s, inputs).offThreshold
    ensures Run(s, inputs).offThreshold == inputs[i].on || Run(s, inputs).offThreshold == inputs[i].off
    decreases |inputs|
  {
    var n := |inputs| - 1;
    if i < n {
      BandInForce(s, inputs[..n], i);
    }
  }

  // ----- averaging

  /** The average as the loop adds it up: each quotient and each sum is rounded to a float. */
  function Average(samples: seq<nat>, n: nat): nat
    requires n > 0 || samples == []
  {
    if samples == [] then 0
    else Single(Average(samples[..|samples| - 1], n) + Single(samples[|samples| - 1], n), 1)
  }

  function Copies(x: nat, k: nat): (samples: seq<nat>)
    ensures |samples| == k && forall i :: 0 <= i < k ==> samples[i] == x
  {
    if k == 0 then [] else Copies(x, k - 1) + [x]
  }

  predicate Within(samples: seq<nat>, lo: nat, hi: nat) {
    forall i :: 0 <= i < |samples| ==> lo <= samples[i] <= hi
  }

  /** Larger samples have no smaller an average. */
  lemma {:induction false} AverageOrdered(a: seq<nat>, b: seq<nat>, n: nat)
    requires n > 0 && |a| == |b| && forall i :: 0 <= i < |a| ==> a[i] <= b[i]
    ensures Average(a, n) <= Average(b, n)
    decreases |a|
  {
    if a != [] {
      var k := |a| - 1;
      AverageOrdered(a[..k], b[..k], n);
      RoundedOrdered(a[k], b[k], n, 0x100_0000);
      RoundedOrdered(Average(a[..k], n) + Single(a[k], n), Average(b[..k], n) + Single(b[k], n), 1, 0x100_0000);
    }
  }

  /** An average lies between those of as many copies of the smallest and of the largest sample. */
  lemma AverageBetween(samples: seq<nat>, lo: nat, hi: nat)
    requires samples != [] && Within(samples, lo, hi)
    ensures Average(Copies(lo, |samples|), |samples|) <= Average(samples, |samples|) <= Average(Copies(hi, |samples|), |samples|)
  {
    AverageOrdered(Copies(lo, |samples|), samples, |samples|);
    AverageOrdered(samples, Copies(hi, |samples|), |samples|);
  }

  ghost predicate StaysWithin(n: nat, lo: nat, hi: nat)
    requires n > 0
  {
    forall samples: seq<nat> :: |samples| == n && Within(samples, lo, hi) ==> lo <= Average(samples, n) <= hi
  }

  /** The average of n samples lies between the smallest and the largest value that they may have,
      whatever they are, if and only if it does so for n copies of either. */
  lemma StaysWithinExactly(n: nat, lo: nat, hi: nat)
    requires n > 0 && lo <= hi
    ensures StaysWithin(n, lo, hi) <==> lo <= Average(Copies(lo, n), n) && Average(Copies(hi, n), n) <= hi
  {
    if lo <= Average(Copies(lo, n), n) && Average(Copies(hi, n), n) <= hi {
      forall samples: seq<nat> | |samples| == n && Within(samples, lo, hi)
        ensures lo <= Average(samples, n) <= hi
      {
        AverageBetween(samples, lo, hi);
      }
    }
    assert Within(Copies(lo, n), lo, hi) && Within(Copies(hi, n), lo, hi);
  }

  // ----- the error

  /** After k of n samples, with u the unit in the last place. */
  predicate Bounded(sum: nat, k: nat, n: nat, lo: nat, hi: nat, u: nat) {
    n * sum <= k * (hi + n * u) && k * lo <= n * sum + k * (n * u)
  }

  lemma {:induction false} SumBounded(samples: seq<nat>, n: nat, lo: nat, hi: nat, j: nat, u: nat)
    requires 0 < n && |samples| <= n && Within(samples, lo, hi)
    requires u == Gf2.Pow2(j) && hi + n * u < 0x100_0000 * u
    ensures Bounded(Average(samples, n), |samples|, n, lo, hi, u)
    decreases |samples|
  {
    if samples != [] {
      var k, x := |samples| - 1, samples[|samples| - 1];
      SumBounded(samples[..k], n, lo, hi, j, u);
      QuotientNear(x, n, j, u, hi);
      OneSampleMore(Average(samples[..k], n), Single(x, n), k, n, lo, hi, x, u);
      RoundedNear(Average(samples[..k], n) + Single(x, n), 1, 0x100_0000, j, u);
      SumRounded(Average(samples[..k], n) + Single(x, n), Average(samples, n), k, n, lo, hi, x, u);
    }
  }

  lemma QuotientNear(x: nat, n: nat, j: nat, u: nat, hi: nat)
    requires 0 < n && u == Gf2.Pow2(j) && x <= hi && hi + n * u < 0x100_0000 * u
    ensures Near(Single(x, n), n, x, n * u)
  {
    ProductMono(1, n, 0x100_0000 * u);
    Regroup3(n, 0x100_0000, u);
    RoundedNear(x, n, 0x100_0000, j, u);
  }

  /** The exact sum of the next quotient and what has been added up. */
  predicate Summed(t: nat, k: nat, n: nat, lo: nat, hi: nat, u: nat) {
    && 2 * (n * t) <= 2 * (k * (hi + n * u)) + 2 * hi + n * u
    && 2 * (k * lo) + 2 * lo <= 2 * (n * t) + 2 * (k * (n * u)) + n * u
  }

  lemma OneSampleMore(sum: nat, q: nat, k: nat, n: nat, lo: nat, hi: nat, x: nat, u: nat)
    requires 0 < n && k < n && lo <= x <= hi && Bounded(sum, k, n, lo, hi, u) && Near(q, n, x, n * u)
    ensures Summed(sum + q, k, n, lo, hi, u) && sum + q <= hi + n * u
  {
    Distributed(n, sum, q);
    var t := hi + n * u;
    OneMore(k, t);
    ProductMono(k + 1, n, t);
    Cancelled(n, sum + q, t);
  }

  lemma Distributed(n: nat, a: nat, b: nat)
    ensures n * (a + b) == n * a + n * b && n * (a + b) == (a + b) * n && n * b == b * n
  {
  }

  lemma SumRounded(t: nat, sum: nat, k: nat, n: nat, lo: nat, hi: nat, x: nat, u: nat)
    requires Summed(t, k, n, lo, hi, u) && Near(sum, 1, t, 1 * u)
    ensures Bounded(sum, k + 1, n, lo, hi, u)
  {
    ProductMono(2 * sum, 2 * t + u, n);
    ProductMono(2 * t, 2 * sum + u, n);
    Expanded(n, sum, t, u);
    OneMore(k, hi + n * u);
    OneMore(k, lo);
    OneMore(k, n * u);
  }

  lemma Expanded(n: nat, sum: nat, t: nat, u: nat)
    ensures 2 * sum * n == 2 * (n * sum) && (2 * t + u) * n == 2 * (n * t) + n * u
    ensures 2 * t * n == 2 * (n * t) && (2 * sum + u) * n == 2 * (n * sum) + n * u
  {
  }

  /** An average leaves the range of its samples by at most one unit in the last place for each
      sample, where the unit is that of numbers a little above the largest one. */
  lemma AverageNear(samples: seq<nat>, lo: nat, hi: nat, j: nat, u: nat)
    requires samples != [] && Within(samples, lo, hi)
    requires u == Gf2.Pow2(j) && hi + |samples| * u < 0x100_0000 * u
    ensures lo <= Average(samples, |samples|) + |samples| * u && Average(samples, |samples|) <= hi + |samples| * u
  {
    var n, a := |samples|, Average(samples, |samples|);
    SumBounded(samples, n, lo, hi, j, u);
    Distributed(n, a, n * u);
    Cancelled(n, a, hi + n * u);
    Cancelled(n, lo, a + n * u);
  }

  lemma Cancelled(n: nat, a: nat, b: nat)
    requires n > 0 && n * a <= n * b
    ensures a <= b
  {
    if a > b {
      ProductMono(b + 1, a, n);
      OneMore(b, n);
      assert false;
    }
  }

  /** 2^-23, the unit in the last place from 1 on. */
  const ULP: nat := 0x4000_0000_0000_0000_0000_0000_0000_0000

  lemma {:induction false} PowersMultiply(i: nat, j: nat)
    ensures Gf2.Pow2(i + j) == Gf2.Pow2(i) * Gf2.Pow2(j)
    decreases i
  {
    if i > 0 {
      PowersMultiply(i - 1, j);
      Scaled2(Gf2.Pow2(i - 1), Gf2.Pow2(j));
    }
  }

  lemma Scaled2(a: nat, b: nat)
    ensures 2 * (a * b) == 2 * a * b
  {
  }

  lemma UlpIsPower(i: nat)
    requires i == 30
    ensures Gf2.Pow2(i + i + i + i + 6) == ULP
  {
    Places();
    TwoBits(24);
    SevenBits(i + i + i + i);
    PowersMultiply(i, i);
    PowersMultiply(i + i, i);
    PowersMultiply(i + i + i, i);
  }

  /** For up to 255 samples between 0 and 1, as the analogue input gives them. */
  lemma ReadingNear(samples: seq<nat>, lo: nat, hi: nat)
    requires 1 <= |samples| <= 255 && Within(samples, lo, hi) && hi <= FULL
    ensures lo <= Average(samples, |samples|) + |samples| * ULP && Average(samples, |samples|) <= hi + |samples| * ULP
  {
    UlpIsPower(30);
    AverageNear(samples, lo, hi, 126, ULP);
  }

  // ----- ten samples of 1

  /** 2^-27, the unit in the last place of a tenth. */
  const UNIT: nat := 0x400_0000_0000_0000_0000_0000_0000_0000

  /** A tenth of 1 as a float, in these units. */
  const TENTH: nat := 0xCCCCCD

  lemma UnitIsPower(i: nat)
    requires i == 30
    ensures Gf2.Pow2(i + i + i + i + 2) == UNIT && Gf2.Pow2(i + i + i + i + 3) == 2 * UNIT
    ensures Gf2.Pow2(i + i + i + i + 4) == 4 * UNIT && Gf2.Pow2(i + i + i + i + 5) == 8 * UNIT
  {
    UlpIsPower(i);
    TwoBits(i + i + i + i + 2);
    TwoBits(i + i + i + i + 4);
  }

  lemma TenthOfOne()
    ensures Single(FULL, 10) == TENTH * UNIT
  {
    UnitIsPower(30);
    RoundedAt(FULL, 10, 0x100_0000, 122, UNIT);
    NearestScaled(0x800_0000, 10, UNIT);
    NearestIs(0x800_0000, 10, TENTH);
  }

  /** A sum of x units, rounded to q times t units. */
  lemma UnitsRounded(x: nat, t: nat, i: nat, q: nat)
    requires t > 0 && t * UNIT == Gf2.Pow2(i) && i > 0 && x < 0x100_0000 * t <= 2 * x
    requires NearestEven(x, t) == q
    ensures Single(x * UNIT, 1) == q * t * UNIT
  {
    ProductPlace(x, t, i, UNIT);
    Regroup3(q, t, UNIT);
  }

  /** The first five sums and the others. */
  lemma FirstSums()
    ensures Single(0xCCCCCD * UNIT, 1) == 0xCCCCCD * UNIT
    ensures Single(0x199999A * UNIT, 1) == 0x199999A * UNIT
    ensures Single(0x2666667 * UNIT, 1) == 0x2666668 * UNIT
    ensures Single(0x3333335 * UNIT, 1) == 0x3333334 * UNIT
    ensures Single(0x4000001 * UNIT, 1) == 0x4000000 * UNIT
  {
    UnitIsPower(30);
    UnitsRounded(0xCCCCCD, 1, 122, 0xCCCCCD);
    UnitsRounded(0x199999A, 2, 123, 0xCCCCCD);
    UnitsRounded(0x2666667, 4, 124, 0x99999A);
    UnitsRounded(0x3333335, 4, 124, 0xCCCCCD);
    UnitsRounded(0x4000001, 8, 125, 0x800000);
  }

  lemma LastSums()
    ensures Single(0x4CCCCCD * UNIT, 1) == 0x4CCCCD0 * UNIT
    ensures Single(0x599999D * UNIT, 1) == 0x59999A0 * UNIT
    ensures Single(0x666666D * UNIT, 1) == 0x6666670 * UNIT
    ensures Single(0x733333D * UNIT, 1) == 0x7333340 * UNIT
    ensures Single(0x800000D * UNIT, 1) == 0x8000010 * UNIT
  {
    UnitIsPower(30);
    UlpIsPower(30);
    UnitsRounded(0x4CCCCCD, 8, 125, 0x99999A);
    UnitsRounded(0x599999D, 8, 125, 0xB33334);
    UnitsRounded(0x666666D, 8, 125, 0xCCCCCE);
    UnitsRounded(0x733333D, 8, 125, 0xE66668);
    UnitsRounded(0x800000D, 16, 126, 0x800001);
  }

  /** The sum after k of ten samples of 1, in units. */
  function TenthsAdded(k: nat): nat
    requires k <= 10
  {
    if k == 0 then 0x0 else if k == 1 then 0xCCCCCD else if k == 2 then 0x199999A else if k == 3 then 0x2666668 else if k == 4 then 0x3333334 else if k == 5 then 0x4000000 else if k == 6 then 0x4CCCCD0 else if k == 7 then 0x59999A0 else if k == 8 then 0x6666670 else if k == 9 then 0x7333340 else 0x8000010
  }

  lemma NextTenth(k: nat)
    requires k < 10
    ensures Single(TenthsAdded(k) * UNIT + TENTH * UNIT, 1) == TenthsAdded(k + 1) * UNIT
  {
    FirstSums();
    LastSums();
  }

  lemma {:induction false} TenthsSum(x: nat, k: nat, n: nat)
    requires k <= 10 && n > 0 && Single(x, n) == TENTH * UNIT
    ensures Average(Copies(x, k), n) == TenthsAdded(k) * UNIT
  {
    if k > 0 {
      TenthsSum(x, k - 1, n);
      CopyMore(x, k, n);
      NextTenth(k - 1);
    }
  }

  lemma CopyMore(x: nat, k: nat, n: nat)
    requires k > 0 && n > 0
    ensures Average(Copies(x, k), n) == Single(Average(Copies(x, k - 1), n) + Single(x, n), 1)
  {
    assert Copies(x, k)[..k - 1] == Copies(x, k - 1);
  }

  /** Ten samples of 1 average to the next float above 1, so the average of ten samples does not stay
      between 0 and 1. */
  lemma TenOnes()
    ensures Average(Copies(FULL, 10), 10) == FULL + ULP
    ensures !StaysWithin(10, 0, FULL)
  {
    TenthOfOne();
    TenthsSum(FULL, 10, 10);
    StaysWithinExactly(10, 0, FULL);
  }

  // ----- the code

  class Cell {
    var onThreshold: int
    var offThreshold: int
    var lastState: bool
    var lastRead: int

    function Now(): Photo
      reads this
    {
      Photo(onThreshold, offThreshold, lastState, lastRead)
    }

    constructor (on: int, off: int)
      ensures Now() == Created(on, off) && Now().Inv()
    {
      lastState, lastRead := false, 0;
      new;
      SetThreshold(on, off);
    }

    method SetThreshold(on: int, off: int)
      modifies this
      ensures Now() == old(Now()).SetThreshold(on, off) && Now().Inv()
    {
      onThreshold := on;
      if on <= off {
        offThreshold := off;
      } else {
        offThreshold := on;
      }
    }

    /** pin gives the values that the analogue input returns, one for each point. */
    method Read(pin: seq<nat>) returns (average: nat)
      requires |pin| < 256
      modifies this
      ensures average == Average(pin, |pin|)
      ensures Now() == old(Now()).(lastRead := average)
    {
      var accumulator := 0;
      var i := 0;
      while i < |pin|
        invariant i <= |pin|
        invariant accumulator == Average(pin[..i], |pin|)
      {
        var value := pin[i];
        assert pin[..i + 1][..i] == pin[..i];
        accumulator := Single(accumulator + Single(value, |pin|), 1);
        i := i + 1;
      }
      assert pin[..|pin|] == pin;
      lastRead := accumulator;
      average := accumulator;
    }

    method ShouldBeOn(pin: seq<nat>) returns (on: bool)
      requires |pin| == 10
      modifies this
      ensures Now() == old(Now()).ShouldBeOn(Average(pin, 10))
      ensures on == lastState
    {
      var currentRead := Read(pin);
      if lastState {
        if currentRead > offThreshold {
          lastState := false;
          return false;
        } else {
          lastState := true;
          return true;
        }
      } else {
        if currentRead < onThreshold {
          lastState := true;
          return true;
        } else {
          lastState := false;
          return false;
        }
      }
    }
  }
}
