/** Words as numbers. The words are eight bits wider than those of the machine, so that nothing
    is lost when one is doubled. */
module BitVectors {
  import opened Gf2
  import opened CrcRegister

  /** The number in the low n bits of a word. */
  function Nat(x: bv40, n: nat): (r: nat)
    ensures r < Pow2(n)
    decreases n
  {
    if n == 0 then 0 else (if x & 1 == 1 then 1 else 0) + 2 * Nat(x >> 1, n - 1)
  }

  /** x >> n, one bit at a time */
  function Dropped(x: bv40, n: nat): bv40
    decreases n
  {
    if n == 0 then x else Dropped(x >> 1, n - 1)
  }

  lemma XorHalf(x: bv40, y: bv40)
    ensures (x ^ y) >> 1 == (x >> 1) ^ (y >> 1)
    ensures ((x ^ y) & 1 == 1) <==> ((x & 1 == 1) != (y & 1 == 1))
  {
  }

  lemma NatStep(x: bv40, n: nat)
    requires n > 0
    ensures Nat(x, n) == Digit(x & 1 == 1) + 2 * Nat(x >> 1, n - 1)
  {
  }

  lemma NatXor(x: bv40, y: bv40, n: nat)
    ensures Nat(x ^ y, n) == Xor(Nat(x, n), Nat(y, n))
  {
    NatSum(x, y, x ^ y, n);
  }

  lemma {:induction false} NatSum(x: bv40, y: bv40, z: bv40, n: nat)
    requires z == x ^ y
    ensures Nat(z, n) == Xor(Nat(x, n), Nat(y, n))
    decreases n
  {
    if n == 0 {
      XorSelf(0);
    } else {
      XorHalf(x, y);
      NatSum(x >> 1, y >> 1, z >> 1, n - 1);
      HalvesAdd(x, y, z, n);
    }
  }

  lemma HalvesAdd(x: bv40, y: bv40, z: bv40, n: nat)
    requires n > 0 && Nat(z >> 1, n - 1) == Xor(Nat(x >> 1, n - 1), Nat(y >> 1, n - 1))
    requires (z & 1 == 1) <==> ((x & 1 == 1) != (y & 1 == 1))
    ensures Nat(z, n) == Xor(Nat(x, n), Nat(y, n))
  {
    NatStep(x, n);
    NatStep(y, n);
    NatStep(z, n);
    HalvesMeet(x & 1 == 1, y & 1 == 1, Nat(x >> 1, n - 1), Nat(y >> 1, n - 1));
  }

  lemma HalvesMeet(p: bool, q: bool, a: nat, b: nat)
    ensures Xor(Digit(p) + 2 * a, Digit(q) + 2 * b) == Digit(p != q) + 2 * Xor(a, b)
  {
    XorStep(Digit(p) + 2 * a, Digit(q) + 2 * b);
    HalvedDigit(p, a);
    HalvedDigit(q, b);
  }

  lemma HalvedDigit(p: bool, a: nat)
    ensures (Digit(p) + 2 * a) / 2 == a && (Digit(p) + 2 * a) % 2 == Digit(p)
  {
  }

  lemma NatTwice(x: bv40, n: nat)
    requires x < 0x80_0000_0000
    ensures Nat(x << 1, n + 1) == 2 * Nat(x, n)
  {
    assert (x << 1) >> 1 == x && (x << 1) & 1 == 0;
  }

  /** The bit on top. */
  lemma {:induction false} NatTop(x: bv40, n: nat)
    ensures Nat(x, n + 1) == Nat(x, n) + if Dropped(x, n) & 1 == 1 then Pow2(n) else 0
    decreases n
  {
    if n > 0 {
      NatTop(x >> 1, n - 1);
    }
  }

  lemma {:induction false} DroppedAdd(x: bv40, j: nat, k: nat)
    ensures Dropped(Dropped(x, j), k) == Dropped(x, j + k)
    decreases j
  {
    if j > 0 {
      DroppedAdd(x >> 1, j - 1, k);
    }
  }

  lemma DroppedEight(x: bv40)
    ensures Dropped(x, 8) == x >> 8
  {
    DroppedFour(x);
    DroppedFour(x >> 4);
    DroppedAdd(x, 4, 4);
  }

  lemma DroppedFour(x: bv40)
    ensures Dropped(x, 4) == x >> 4
  {
  }

  lemma DroppedSeven(x: bv40)
    ensures Dropped(x, 7) == x >> 7
  {
    DroppedFour(x);
    DroppedThree(x >> 4);
    DroppedAdd(x, 4, 3);
  }

  lemma DroppedThree(x: bv40)
    ensures Dropped(x, 3) == x >> 3
  {
  }

  lemma DroppedFifteen(x: bv40)
    ensures Dropped(x, 15) == x >> 15
  {
    DroppedEight(x);
    DroppedSeven(x >> 8);
    DroppedAdd(x, 8, 7);
  }

  lemma DroppedThirtyOne(x: bv40)
    ensures Dropped(x, 31) == x >> 31
  {
    DroppedSixteen(x);
    DroppedFifteen(x >> 16);
    DroppedAdd(x, 16, 15);
  }

  lemma DroppedSixteen(x: bv40)
    ensures Dropped(x, 16) == x >> 16
  {
    DroppedEight(x);
    DroppedEight(x >> 8);
    DroppedAdd(x, 8, 8);
  }

  lemma DroppedThirtyTwo(x: bv40)
    ensures Dropped(x, 32) == x >> 32
  {
    DroppedSixteen(x);
    DroppedSixteen(x >> 16);
    DroppedAdd(x, 16, 16);
  }

  lemma DroppedTwentyOne(x: bv40)
    ensures Dropped(x, 21) == x >> 21
  {
    DroppedSixteen(x);
    DroppedFive(x >> 16);
    DroppedAdd(x, 16, 5);
  }

  lemma DroppedFive(x: bv40)
    ensures Dropped(x, 5) == x >> 5
  {
    DroppedFour(x);
    DroppedAdd(x, 4, 1);
  }

  /** Bit k of the number is bit k of the word. */
  lemma {:induction false} NatBit(x: bv40, n: nat, k: nat)
    requires k < n
    ensures Bit(Nat(x, n), k) <==> Dropped(x, k) & 1 == 1
    decreases k
  {
    NatStep(x, n);
    if k > 0 {
      NatBit(x >> 1, n - 1, k - 1);
    }
  }

  /** The low byte, and the rest. */
  lemma {:induction false} NatSplit(x: bv40, j: nat, n: nat)
    ensures Nat(x, j + n) == Nat(x, j) + Shl(Nat(Dropped(x, j), n), j)
    decreases j
  {
    if j > 0 {
      NatSplit(x >> 1, j - 1, n);
    }
  }

  lemma NatByte(x: bv40, n: nat)
    ensures Nat(x, n + 8) == Nat(x, 8) + 256 * Nat(x >> 8, n)
  {
    NatSplit(x, 8, n);
    DroppedEight(x);
    ShlIsProduct(Nat(x >> 8, n), 8);
  }

  lemma {:induction false} NatOfZero(n: nat)
    ensures Nat(0, n) == 0
    decreases n
  {
    if n > 0 {
      assert (0 as bv40) >> 1 == 0;
      NatOfZero(n - 1);
    }
  }
}
