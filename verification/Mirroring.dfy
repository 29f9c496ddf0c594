/** Bit reversal, the "reflection" of CRC descriptions. */
module Mirroring {
  import opened Gf2
  import opened CrcRegister

  /** The low k bits of a in reverse order. */
  function Mirror(k: nat, a: nat): nat
    decreases k
  {
    if k == 0 then 0 else Shl(a % 2, k - 1) + Mirror(k - 1, a / 2)
  }

  lemma {:induction false} MirrorBound(k: nat, a: nat)
    ensures Mirror(k, a) < Pow2(k)
    decreases k
  {
    if k > 0 {
      MirrorBound(k - 1, a / 2);
      ShlBound(a % 2, 1, k - 1);
    }
  }

  lemma {:induction false} MirrorZero(k: nat)
    ensures Mirror(k, 0) == 0
  {
    if k > 0 {
      MirrorZero(k - 1);
      ShlOne(k - 1);
    }
  }

  /** Only the low k bits count. */
  lemma {:induction false} MirrorLow(k: nat, a: nat)
    ensures Mirror(k, Low(a, k)) == Mirror(k, a)
    decreases k
  {
    if k > 0 {
      MirrorLow(k - 1, a / 2);
    }
  }

  lemma {:induction false} MirrorXor(k: nat, a: nat, b: nat)
    ensures Mirror(k, Xor(a, b)) == Xor(Mirror(k, a), Mirror(k, b))
    decreases k
  {
    if k == 0 {
      XorSelf(0);
    } else {
      MirrorXor(k - 1, a / 2, b / 2);
      XorStep(a, b);
      MirrorBound(k - 1, a / 2);
      MirrorBound(k - 1, b / 2);
      XorParts(a % 2, Mirror(k - 1, a / 2), b % 2, Mirror(k - 1, b / 2), k - 1);
      XorSelf(a % 2);
      XorZero(1);
    }
  }

  lemma XorParts(s: nat, a: nat, t: nat, b: nat, n: nat)
    requires a < Pow2(n) && b < Pow2(n)
    ensures Xor(Shl(s, n) + a, Shl(t, n) + b) == Shl(Xor(s, t), n) + Xor(a, b)
  {
    XorDisjoint(s, a, n);
    XorDisjoint(t, b, n);
    XorSwap(Shl(s, n), a, Shl(t, n), b);
    XorShl(s, t, n);
    XorBound(a, b, n);
    XorDisjoint(Xor(s, t), Xor(a, b), n);
  }

  /** Reversing two parts exchanges them and reverses each. */
  lemma {:induction false} MirrorJoin(j: nat, hi: nat, k: nat, lo: nat)
    requires lo < Pow2(k)
    ensures Mirror(j + k, Shl(hi, k) + lo) == Shl(Mirror(k, lo), j) + Mirror(j, hi)
    decreases k
  {
    if k == 0 {
      ShlOne(j);
    } else {
      var a := Shl(hi, k) + lo;
      assert a / 2 == Shl(hi, k - 1) + lo / 2 && a % 2 == lo % 2;
      MirrorJoin(j, hi, k - 1, lo / 2);
      ShlSum(Shl(lo % 2, k - 1), Mirror(k - 1, lo / 2), j);
      ShlAdd(lo % 2, k - 1, j);
    }
  }

  /** Reversal bit by bit from the other end. */
  lemma {:induction false} MirrorOneMore(k: nat, a: nat)
    ensures Mirror(k + 1, a) == 2 * Mirror(k, a) + Shr(a, k) % 2
    decreases k
  {
    if k > 0 {
      MirrorOneMore(k - 1, a / 2);
    }
  }

  lemma {:induction false} MirrorTwice(k: nat, a: nat)
    ensures Mirror(k, Mirror(k, a)) == Low(a, k)
    decreases k
  {
    if k > 0 {
      var t := a % 2;
      MirrorBound(k - 1, a / 2);
      MirrorJoin(1, t, k - 1, Mirror(k - 1, a / 2));
      MirrorTwice(k - 1, a / 2);
      assert Shl(Low(a / 2, k - 1), 1) == 2 * Shl(Low(a / 2, k - 1), 0);
      assert Mirror(1, t) == Shl(t, 0) + Mirror(0, t / 2);
    }
  }

  /** Bit i of the mirror is bit k - 1 - i. */
  lemma {:induction false} MirrorBit(k: nat, a: nat, i: nat)
    requires i < k
    ensures Bit(Mirror(k, a), i) == Bit(a, k - 1 - i)
    decreases k
  {
    var t, m := a % 2, Mirror(k - 1, a / 2);
    MirrorBound(k - 1, a / 2);
    if i == k - 1 {
      Joined(t, m, k - 1);
    } else {
      MirrorBit(k - 1, a / 2, i);
      Joined(t, m, k - 1);
      BitOfLow(Mirror(k, a), i, k - 1);
    }
  }

  lemma {:induction false} BitOfLow(a: nat, i: nat, k: nat)
    requires i < k
    ensures Bit(Low(a, k), i) == Bit(a, i)
    decreases i
  {
    if i > 0 {
      BitOfLow(a / 2, i - 1, k - 1);
      assert Low(a, k) / 2 == Low(a / 2, k - 1);
    }
  }

  /** The bits of a number, most significant first. */
  lemma {:induction false} BitsAt(v: nat, n: nat, i: nat)
    requires i < n
    ensures ToBits(v, n)[i] == Bit(v, n - 1 - i)
    decreases n
  {
    if i < n - 1 {
      BitsAt(v / 2, n - 1, i);
    }
  }

  /** The bits of a mirrored number are its bits, least significant first. */
  lemma MirroredBitsAt(v: nat, n: nat, i: nat)
    requires i < n
    ensures ToBits(Mirror(n, v), n)[i] == Bit(v, i)
  {
    BitsAt(Mirror(n, v), n, i);
    MirrorBit(n, v, n - 1 - i);
  }
}
