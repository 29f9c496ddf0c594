/** The demonstration: stepping down to a fifth of full light and up again, in floats. */
module DimmingDemo {
  import opened Machine
  import opened Remainders
  import opened Binary32
  import Gf2

  const DEMO_PERIOD: nat := 60

  /** The double 0.2, which is the step and the lower bound. */
  const FIFTH: nat := 0xc_cccc_cccc_cccd

  /** The same, stored in a float: a little more. */
  const STORED_FIFTH: nat := 0xc_cccc_d000_0000

  /** A double result stored in a float. */
  function Stored(x: nat): nat {
    Single(Double(x, 1), 1)
  }

  datatype Demo = Demo(goingUp: bool, lastValue: nat) {
    function Next(): Demo
      requires lastValue >= FIFTH
    {
      if goingUp then
        if Stored(lastValue + FIFTH) >= ONE then Demo(false, ONE) else Demo(true, Stored(lastValue + FIFTH))
      else
        if Stored(lastValue - FIFTH) <= FIFTH then Demo(true, Stored(FIFTH)) else Demo(false, Stored(lastValue - FIFTH))
    }

    predicate Inv() {
      FIFTH <= lastValue <= ONE
    }
  }

  const START := Demo(false, ONE)

  /** The cycle, from full light. */
  function Place(k: nat): Demo
    requires k < 9
  {
    if k == 0 then START
    else if k == 1 then Demo(false, 0x33_3333_4000_0000)
    else if k == 2 then Demo(false, 0x26_6666_8000_0000)
    else if k == 3 then Demo(false, 0x19_9999_c000_0000)
    else if k == 4 then Demo(false, 0xc_cccc_f000_0000)
    else if k == 5 then Demo(true, STORED_FIFTH)
    else if k == 6 then Demo(true, 0x19_9999_a000_0000)
    else if k == 7 then Demo(true, 0x26_6666_8000_0000)
    else Demo(true, 0x33_3333_4000_0000)
  }

  /** What a sum or difference is rounded to, given the places of the last bits. */
  lemma StoredAt(x: nat, i: nat, v: nat, d: nat, j: nat, u: nat)
    requires v == Gf2.Pow2(i) && u == Gf2.Pow2(j)
    requires x < 0x20_0000_0000_0000 * v && (i > 0 ==> 0x20_0000_0000_0000 * v <= 2 * x)
    requires d == NearestEven(x, v) * v
    requires d < 0x100_0000 * u && (j > 0 ==> 0x100_0000 * u <= 2 * d)
    ensures Stored(x) == NearestEven(d, u) * u
  {
    RoundedAt(x, 1, 0x20_0000_0000_0000, i, v);
    RoundedAt(d, 1, 0x100_0000, j, u);
  }

  lemma SmallPlaces()
    ensures Gf2.Pow2(0) == 1 && Gf2.Pow2(1) == 2 && Gf2.Pow2(2) == 4 && Gf2.Pow2(6) == 64
  {
  }

  lemma LargePlaces()
    ensures Gf2.Pow2(28) == 0x1000_0000 && Gf2.Pow2(29) == 0x2000_0000 && Gf2.Pow2(30) == 0x4000_0000 && Gf2.Pow2(31) == 0x8000_0000
  {
    Places();
    HigherPlaces(30);
  }

  lemma StepsDown1()
    ensures Stored(0x33_3333_3333_3333) == 0x33_3333_4000_0000
    ensures Stored(0x26_6666_7333_3333) == 0x26_6666_8000_0000
  {
    SmallPlaces();
    LargePlaces();
    StoredAt(0x33_3333_3333_3333, 1, 2, 0x33_3333_3333_3334, 30, 0x4000_0000);
    StoredAt(0x26_6666_7333_3333, 1, 2, 0x26_6666_7333_3334, 30, 0x4000_0000);
  }

  lemma StepsDown2()
    ensures Stored(0x19_9999_b333_3333) == 0x19_9999_c000_0000
    ensures Stored(0xc_cccc_f333_3333) == 0xc_cccc_f000_0000
  {
    SmallPlaces();
    LargePlaces();
    StoredAt(0x19_9999_b333_3333, 0, 1, 0x19_9999_b333_3333, 29, 0x2000_0000);
    StoredAt(0xc_cccc_f333_3333, 0, 1, 0xc_cccc_f333_3333, 28, 0x1000_0000);
  }

  lemma StepsAtBottom()
    ensures Stored(0x2333_3333) == 0x2333_3340
    ensures Stored(0xc_cccc_cccc_cccd) == 0xc_cccc_d000_0000
  {
    SmallPlaces();
    LargePlaces();
    StoredAt(0x2333_3333, 0, 1, 0x2333_3333, 6, 0x40);
    StoredAt(0xc_cccc_cccc_cccd, 0, 1, 0xc_cccc_cccc_cccd, 28, 0x1000_0000);
  }

  lemma StepsUp1()
    ensures Stored(0x19_9999_9ccc_cccd) == 0x19_9999_a000_0000
    ensures Stored(0x26_6666_6ccc_cccd) == 0x26_6666_8000_0000
  {
    SmallPlaces();
    LargePlaces();
    StoredAt(0x19_9999_9ccc_cccd, 0, 1, 0x19_9999_9ccc_cccd, 29, 0x2000_0000);
    StoredAt(0x26_6666_6ccc_cccd, 1, 2, 0x26_6666_6ccc_cccc, 30, 0x4000_0000);
  }

  lemma StepsUp2()
    ensures Stored(0x33_3333_4ccc_cccd) == 0x33_3333_4000_0000
    ensures Stored(0x40_0000_0ccc_cccd) == 0x40_0000_0000_0000
  {
    SmallPlaces();
    LargePlaces();
    StoredAt(0x33_3333_4ccc_cccd, 1, 2, 0x33_3333_4ccc_cccc, 30, 0x4000_0000);
    StoredAt(0x40_0000_0ccc_cccd, 2, 4, 0x40_0000_0ccc_cccc, 31, 0x8000_0000);
  }

  lemma NextDown(k: nat)
    requires k < 5
    ensures Place(k).Next() == Place(k + 1)
  {
    StepsDown1();
    StepsDown2();
    StepsAtBottom();
  }

  lemma NextUp(k: nat)
    requires 5 <= k < 7
    ensures Place(k).Next() == Place(k + 1)
  {
    StepsUp1();
  }

  lemma NextOver(k: nat)
    requires 7 <= k < 9
    ensures Place(k).Next() == Place(if k == 8 then 0 else k + 1)
  {
    StepsUp2();
  }

  lemma NextPlace(k: nat)
    requires k < 9
    ensures Place(k).Next() == Place(if k == 8 then 0 else k + 1)
  {
    if k < 5 {
      NextDown(k);
    } else if k < 7 {
      NextUp(k);
    } else {
      NextOver(k);
    }
  }

  lemma StoredRange(x: nat)
    ensures x <= ONE ==> Stored(x) <= ONE
    ensures x >= 0x10_0000_0000_0000 ==> Stored(x) >= FIFTH
  {
    FarPlaces(30);
    if x <= ONE {
      RoundedAtMost(x, 1, 0x20_0000_0000_0000, 1, 54, ONE);
      RoundedAtMost(Double(x, 1), 1, 0x100_0000, 1, 54, ONE);
    }
    if x >= 0x10_0000_0000_0000 {
      RoundedAtLeast(x, 1, 0x20_0000_0000_0000, 52);
      RoundedAtLeast(Double(x, 1), 1, 0x100_0000, 52);
    }
  }

  lemma FarPlaces(j: nat)
    requires j == 30
    ensures Gf2.Pow2(j + 24) == ONE && Gf2.Pow2(j + 22) == 0x10_0000_0000_0000
  {
    HigherPlaces(j);
    SevenBits(j + 7);
    SevenBits(j + 14);
    TwoBits(j + 21);
    TwoBits(j + 20);
    TwoBits(j + 22);
  }

  /** Every step stays between the double 0.2 and 1. */
  lemma NextKeeps(d: Demo)
    requires d.Inv()
    ensures d.Next().Inv()
  {
    StepsAtBottom();
    StoredRange(d.lastValue + FIFTH);
    StoredRange(d.lastValue - FIFTH);
  }

  function After(n: nat): (d: Demo)
    ensures d.Inv()
  {
    if n == 0 then
      START
    else
      NextKeeps(After(n - 1));
      After(n - 1).Next()
  }

  /** The cycle takes nine calls, not the eight of the documentation: the fourth value on the way
      down is a little more than 0.2, so the way up begins one call later, from the stored 0.2. */
  lemma Wave(n: nat)
    ensures After(n) == Place(n % 9)
  {
    WaveAt(n, 9);
    IndexIsRemainder(n, 9);
  }

  lemma {:induction false} WaveAt(n: nat, period: nat)
    requires period == 9
    ensures IndexAfter(n, period) < 9 && After(n) == Place(IndexAfter(n, period))
  {
    if n > 0 {
      WaveAt(n - 1, period);
      OneCallMore(n, IndexAfter(n - 1, period));
    }
  }

  lemma OneCallMore(n: nat, k: nat)
    requires n > 0 && k < 9 && After(n - 1) == Place(k)
    ensures After(n) == Place(if k == 8 then 0 else k + 1)
  {
    NextPlace(k);
  }

  /** It is back at the start exactly after every ninth call. */
  lemma NineCalls(n: nat)
    ensures After(n) == START <==> n % 9 == 0
  {
    Wave(n);
  }

  /** The constants are what the literals of the program stand for. */
  lemma FifthIsDouble()
    ensures Double(ONE, 5) == FIFTH && Stored(FIFTH) == STORED_FIFTH == Single(ONE, 5)
  {
    SmallPlaces();
    LargePlaces();
    StepsAtBottom();
    RoundedAt(ONE, 5, 0x20_0000_0000_0000, 0, 1);
    RoundedAt(ONE, 5, 0x100_0000, 28, 0x1000_0000);
  }

  class Demonstration {
    var goingUp: bool
    var lastValue: nat

    function Now(): Demo
      reads this
    {
      Demo(goingUp, lastValue)
    }

    constructor ()
      ensures Now() == START && Now().Inv()
    {
      goingUp, lastValue := false, ONE;
    }

    method GetDimming() returns (level: nat)
      requires Now().Inv()
      modifies this
      ensures Now() == old(Now()).Next() && level == lastValue
      ensures Now().Inv()
    {
      NextKeeps(Now());
      StepsAtBottom();
      if goingUp {
        lastValue := Stored(lastValue + FIFTH);
        if lastValue >= ONE {
          lastValue := ONE;
          goingUp := false;
        }
      } else {
        lastValue := Stored(lastValue - FIFTH);
        if lastValue <= FIFTH {
          lastValue := Stored(FIFTH);
          goingUp := true;
        }
      }
      level := lastValue;
    }
  }
}
