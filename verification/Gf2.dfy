/** Polynomials over GF(2), written as natural numbers: bit i of the number is the
    coefficient of x^i. Xor is addition, Shl by k is multiplication by x^k. */
module Gf2 {

  function Pow2(k: nat): (p: nat)
    ensures p >= 1
  {
    if k == 0 then 1 else 2 * Pow2(k - 1)
  }

  /** Bitwise exclusive or of two naturals of any size. */
  function Xor(a: nat, b: nat): nat
    decreases a + b
  {
    if a == 0 && b == 0 then 0
    else (if a % 2 == b % 2 then 0 else 1) + 2 * Xor(a / 2, b / 2)
  }

  /** Bitwise or. */
  function Or(a: nat, b: nat): nat
    decreases a + b
  {
    if a == 0 && b == 0 then 0
    else (if a % 2 == 0 && b % 2 == 0 then 0 else 1) + 2 * Or(a / 2, b / 2)
  }

  /** a << k, without losing any bit */
  function Shl(a: nat, k: nat): nat {
    if k == 0 then a else 2 * Shl(a, k - 1)
  }

  /** a >> k */
  function Shr(a: nat, k: nat): nat
    decreases k
  {
    if k == 0 then a else Shr(a / 2, k - 1)
  }

  /** The low k bits of a: a masked with k ones. */
  function Low(a: nat, k: nat): nat
    decreases k
  {
    if k == 0 then 0 else a % 2 + 2 * Low(a / 2, k - 1)
  }

  predicate Bit(a: nat, k: nat) {
    Shr(a, k) % 2 == 1
  }

  /** Carry-less product. */
  function Mul(a: nat, b: nat): nat
    decreases a
  {
    if a == 0 then 0 else Xor(if a % 2 == 1 then b else 0, 2 * Mul(a / 2, b))
  }

  // ----- powers of two and shifts

  lemma {:induction false} Pow2Mono(a: nat, b: nat)
    requires a <= b
    ensures Pow2(a) <= Pow2(b)
    decreases b
  {
    if a < b {
      Pow2Mono(a, b - 1);
    }
  }

  lemma {:induction false} ShlAdd(a: nat, j: nat, k: nat)
    ensures Shl(Shl(a, j), k) == Shl(a, j + k)
    decreases k
  {
    if k > 0 {
      ShlAdd(a, j, k - 1);
    }
  }

  lemma {:induction false} ShrAdd(a: nat, j: nat, k: nat)
    ensures Shr(Shr(a, j), k) == Shr(a, j + k)
    decreases j
  {
    if j > 0 {
      ShrAdd(a / 2, j - 1, k);
    }
  }

  /** Doubling before shifting is shifting by one more. */
  lemma {:induction false} ShlTwice(a: nat, k: nat)
    ensures Shl(2 * a, k) == 2 * Shl(a, k) == Shl(a, k + 1)
  {
    if k > 0 {
      ShlTwice(a, k - 1);
    }
  }

  lemma {:induction false} ShlOne(k: nat)
    ensures Shl(1, k) == Pow2(k) && Shl(0, k) == 0
  {
    if k > 0 {
      ShlOne(k - 1);
    }
  }

  lemma {:induction false} ShlBound(a: nat, j: nat, k: nat)
    requires a < Pow2(j)
    ensures Shl(a, k) < Pow2(j + k)
    ensures Shl(a, k) + Pow2(k) <= Pow2(j + k)
    decreases k
  {
    if k > 0 {
      ShlBound(a, j, k - 1);
    }
  }

  lemma {:induction false} LowBound(a: nat, k: nat)
    ensures Low(a, k) < Pow2(k)
    ensures a < Pow2(k) ==> Low(a, k) == a
    decreases k
  {
    if k > 0 {
      LowBound(a / 2, k - 1);
    }
  }

  lemma {:induction false} ShrBound(a: nat, k: nat)
    ensures Shr(a, k) == 0 <==> a < Pow2(k)
    decreases k
  {
    if k > 0 {
      ShrBound(a / 2, k - 1);
    }
  }

  lemma {:induction false} Split(a: nat, k: nat)
    ensures a == Shl(Shr(a, k), k) + Low(a, k)
    decreases k
  {
    if k > 0 {
      Split(a / 2, k - 1);
    }
  }

  /** Taking apart what was put together. */
  lemma {:induction false} Joined(hi: nat, lo: nat, k: nat)
    requires lo < Pow2(k)
    ensures Shr(Shl(hi, k) + lo, k) == hi
    ensures Low(Shl(hi, k) + lo, k) == lo
    decreases k
  {
    if k > 0 {
      var a := Shl(hi, k) + lo;
      assert a / 2 == Shl(hi, k - 1) + lo / 2 && a % 2 == lo % 2;
      Joined(hi, lo / 2, k - 1);
    }
  }

  lemma {:induction false} LowLow(a: nat, j: nat, k: nat)
    requires j <= k
    ensures Low(Low(a, k), j) == Low(a, j)
    decreases k
  {
    if j > 0 {
      LowLow(a / 2, j - 1, k - 1);
      assert Low(a, k) / 2 == Low(a / 2, k - 1);
    }
  }

  /** The shifts and the mask are the arithmetic they stand for. */
  lemma ShiftsAreArithmetic(a: nat, k: nat)
    ensures Shl(a, k) == a * Pow2(k)
    ensures a == Shr(a, k) * Pow2(k) + Low(a, k) && Low(a, k) < Pow2(k)
  {
    ShlIsProduct(a, k);
    ShlIsProduct(Shr(a, k), k);
    Split(a, k);
    LowBound(a, k);
  }

  lemma {:induction false} ShlIsProduct(a: nat, k: nat)
    ensures Shl(a, k) == a * Pow2(k)
  {
    if k > 0 {
      ShlIsProduct(a, k - 1);
      assert 2 * (a * Pow2(k - 1)) == a * (2 * Pow2(k - 1));
    }
  }

  // ----- exclusive or

  lemma XorStep(a: nat, b: nat)
    ensures Xor(a, b) / 2 == Xor(a / 2, b / 2)
    ensures Xor(a, b) % 2 == if a % 2 == b % 2 then 0 else 1
  {
  }

  lemma {:induction false} XorComm(a: nat, b: nat)
    ensures Xor(a, b) == Xor(b, a)
    decreases a + b
  {
    if a + b > 0 {
      XorComm(a / 2, b / 2);
    }
  }

  lemma {:induction false} XorZero(a: nat)
    ensures Xor(a, 0) == a && Xor(0, a) == a
  {
    if a > 0 {
      XorZero(a / 2);
    }
  }

  lemma {:induction false} XorSelf(a: nat)
    ensures Xor(a, a) == 0
  {
    if a > 0 {
      XorSelf(a / 2);
    }
  }

  lemma {:induction false} XorAssoc(a: nat, b: nat, c: nat)
    ensures Xor(Xor(a, b), c) == Xor(a, Xor(b, c))
    decreases a + b + c
  {
    if a + b + c > 0 {
      XorAssoc(a / 2, b / 2, c / 2);
      XorStep(a, b);
      XorStep(b, c);
      var l, r := Xor(Xor(a, b), c), Xor(a, Xor(b, c));
      XorStep(Xor(a, b), c);
      XorStep(a, Xor(b, c));
      assert l / 2 == r / 2 && l % 2 == r % 2;
    }
  }

  /** (a + b) + (c + d) == (a + c) + (b + d) */
  lemma XorSwap(a: nat, b: nat, c: nat, d: nat)
    ensures Xor(Xor(a, b), Xor(c, d)) == Xor(Xor(a, c), Xor(b, d))
  {
    XorAssoc(a, b, Xor(c, d));
    XorAssoc(b, c, d);
    XorComm(b, c);
    XorAssoc(c, b, d);
    XorAssoc(a, c, Xor(b, d));
  }

  lemma XorCancel(a: nat, b: nat)
    ensures Xor(Xor(a, b), b) == a
    ensures Xor(b, Xor(b, a)) == a
  {
    XorAssoc(a, b, b);
    XorAssoc(b, b, a);
    XorSelf(b);
    XorZero(a);
  }

  lemma XorEqZero(a: nat, b: nat)
    ensures Xor(a, b) == 0 <==> a == b
  {
    XorSelf(a);
    if Xor(a, b) == 0 {
      XorCancel(a, b);
      XorZero(b);
    }
  }

  lemma {:induction false} XorBound(a: nat, b: nat, k: nat)
    requires a < Pow2(k) && b < Pow2(k)
    ensures Xor(a, b) < Pow2(k)
    decreases k
  {
    if k > 0 {
      XorBound(a / 2, b / 2, k - 1);
      XorStep(a, b);
    }
  }

  lemma XorDouble(a: nat, b: nat)
    ensures Xor(2 * a, 2 * b) == 2 * Xor(a, b)
  {
    XorStep(2 * a, 2 * b);
  }

  lemma {:induction false} XorShl(a: nat, b: nat, k: nat)
    ensures Shl(Xor(a, b), k) == Xor(Shl(a, k), Shl(b, k))
  {
    if k > 0 {
      XorShl(a, b, k - 1);
      XorDouble(Shl(a, k - 1), Shl(b, k - 1));
    }
  }

  lemma {:induction false} XorShr(a: nat, b: nat, k: nat)
    ensures Shr(Xor(a, b), k) == Xor(Shr(a, k), Shr(b, k))
    decreases k
  {
    if k > 0 {
      XorStep(a, b);
      XorShr(a / 2, b / 2, k - 1);
    }
  }

  lemma {:induction false} XorLow(a: nat, b: nat, k: nat)
    ensures Low(Xor(a, b), k) == Xor(Low(a, k), Low(b, k))
    decreases k
  {
    if k > 0 {
      XorStep(a, b);
      XorLow(a / 2, b / 2, k - 1);
      XorStep(Low(a, k), Low(b, k));
      assert Low(a, k) / 2 == Low(a / 2, k - 1) && Low(b, k) / 2 == Low(b / 2, k - 1);
      var l, r := Low(Xor(a, b), k), Xor(Low(a, k), Low(b, k));
      assert l / 2 == r / 2 && l % 2 == r % 2;
    }
  }

  /** Disjoint parts: a high part above k bits of low part is simply added. */
  lemma {:induction false} XorDisjoint(hi: nat, lo: nat, k: nat)
    requires lo < Pow2(k)
    ensures Xor(Shl(hi, k), lo) == Shl(hi, k) + lo
    decreases k
  {
    if k == 0 {
      XorZero(hi);
    } else {
      XorDisjoint(hi, lo / 2, k - 1);
      XorStep(Shl(hi, k), lo);
    }
  }

  lemma {:induction false} OrDisjoint(hi: nat, lo: nat, k: nat)
    requires lo < Pow2(k)
    ensures Or(Shl(hi, k), lo) == Shl(hi, k) + lo
    decreases k
  {
    if k == 0 {
      OrZero(hi);
    } else {
      OrDisjoint(hi, lo / 2, k - 1);
    }
  }

  lemma {:induction false} OrZero(a: nat)
    ensures Or(a, 0) == a
  {
    if a > 0 {
      OrZero(a / 2);
    }
  }

  /** Adding something of lower degree leaves the leading term alone. */
  lemma {:induction false} XorLeading(a: nat, b: nat, m: nat)
    requires Pow2(m) <= a < Pow2(m + 1) && b < Pow2(m)
    ensures Pow2(m) <= Xor(a, b) < Pow2(m + 1)
    decreases m
  {
    if m == 0 {
      XorZero(a);
    } else {
      XorLeading(a / 2, b / 2, m - 1);
      XorStep(a, b);
    }
  }

  lemma XorBit(a: nat, b: nat, k: nat)
    ensures Bit(Xor(a, b), k) == (Bit(a, k) != Bit(b, k))
  {
    XorShr(a, b, k);
    XorStep(Shr(a, k), Shr(b, k));
  }

  // ----- carry-less product

  lemma MulParts(a: nat, g: nat)
    ensures Mul(a, g) == Xor(if a % 2 == 1 then g else 0, 2 * Mul(a / 2, g))
  {
    XorSelf(0);
  }

  lemma {:induction false} MulTwice(a: nat, g: nat)
    ensures Mul(2 * a, g) == 2 * Mul(a, g)
    ensures Mul(2 * a + 1, g) == Xor(g, 2 * Mul(a, g))
  {
    MulParts(2 * a, g);
    MulParts(2 * a + 1, g);
    XorZero(2 * Mul(a, g));
  }

  lemma {:induction false} MulDistributes(a: nat, b: nat, g: nat)
    ensures Mul(Xor(a, b), g) == Xor(Mul(a, g), Mul(b, g))
    decreases a + b
  {
    if a + b > 0 {
      var ta := if a % 2 == 1 then g else 0;
      var tb := if b % 2 == 1 then g else 0;
      MulDistributes(a / 2, b / 2, g);
      XorStep(a, b);
      MulParts(a, g);
      MulParts(b, g);
      MulParts(Xor(a, b), g);
      XorSwap(ta, 2 * Mul(a / 2, g), tb, 2 * Mul(b / 2, g));
      XorDouble(Mul(a / 2, g), Mul(b / 2, g));
      XorSelf(g);
      XorZero(g);
    }
  }

  lemma {:induction false} MulShl(a: nat, g: nat, k: nat)
    ensures Mul(Shl(a, k), g) == Shl(Mul(a, g), k)
    decreases k
  {
    if k > 0 {
      MulShl(a, g, k - 1);
      MulTwice(Shl(a, k - 1), g);
    }
  }

  lemma MulOne(g: nat)
    ensures Mul(1, g) == g && Mul(0, g) == 0
  {
    MulParts(1, g);
    XorZero(g);
  }

  /** Degrees add. */
  lemma {:induction false} MulDegree(q: nat, g: nat, k: nat, w: nat)
    requires Pow2(k) <= q < Pow2(k + 1) && Pow2(w) <= g < Pow2(w + 1)
    ensures Pow2(k + w) <= Mul(q, g) < Pow2(k + w + 1)
    decreases k
  {
    if k == 0 {
      MulOne(g);
    } else {
      MulDegree(q / 2, g, k - 1, w);
      MulParts(q, g);
      var t := if q % 2 == 1 then g else 0;
      Pow2Mono(w + 1, k + w);
      XorComm(t, 2 * Mul(q / 2, g));
      XorLeading(2 * Mul(q / 2, g), t, k + w);
    }
  }

  lemma {:induction false} LeadingTerm(q: nat) returns (k: nat)
    requires q > 0
    ensures Pow2(k) <= q < Pow2(k + 1)
  {
    if q == 1 {
      k := 0;
    } else {
      var j := LeadingTerm(q / 2);
      k := j + 1;
    }
  }

  lemma SmallMultipleIsZero(q: nat, g: nat, w: nat)
    requires Pow2(w) <= g < Pow2(w + 1) && Mul(q, g) < Pow2(w)
    ensures q == 0
  {
    if q > 0 {
      var k := LeadingTerm(q);
      MulDegree(q, g, k, w);
      Pow2Mono(w, k + w);
    }
  }

  // ----- division

  /** a == q * g + r with r of degree below w */
  ghost predicate Division(a: nat, g: nat, w: nat, q: nat, r: nat) {
    r < Pow2(w) && Xor(Mul(q, g), r) == a
  }

  /** r is what is left of a after division by the degree-w polynomial g. */
  ghost predicate IsRemainder(a: nat, g: nat, w: nat, r: nat) {
    exists q: nat :: Division(a, g, w, q, r)
  }

  lemma RemainderUnique(a: nat, g: nat, w: nat, r: nat, s: nat)
    requires Pow2(w) <= g < Pow2(w + 1)
    requires IsRemainder(a, g, w, r) && IsRemainder(a, g, w, s)
    ensures r == s
  {
    var q: nat :| Division(a, g, w, q, r);
    var t: nat :| Division(a, g, w, t, s);
    XorSwap(Mul(q, g), r, Mul(t, g), s);
    XorSelf(a);
    MulDistributes(q, t, g);
    XorEqZero(Mul(Xor(q, t), g), Xor(r, s));
    XorBound(r, s, w);
    SmallMultipleIsZero(Xor(q, t), g, w);
    XorEqZero(r, s);
  }

  /** Remainders add. */
  lemma RemainderAdds(a: nat, b: nat, g: nat, w: nat, r: nat, s: nat)
    requires IsRemainder(a, g, w, r) && IsRemainder(b, g, w, s)
    ensures IsRemainder(Xor(a, b), g, w, Xor(r, s))
  {
    var q: nat :| Division(a, g, w, q, r);
    var t: nat :| Division(b, g, w, t, s);
    XorSwap(Mul(q, g), r, Mul(t, g), s);
    MulDistributes(q, t, g);
    XorBound(r, s, w);
    assert Division(Xor(a, b), g, w, Xor(q, t), Xor(r, s));
  }

  /** With a constant term in g, factors of x cancel from a multiple of g. */
  lemma {:induction false} CancelPowers(q: nat, g: nat, e: nat, k: nat) returns (t: nat)
    requires g % 2 == 1 && Mul(q, g) == Shl(e, k)
    ensures Mul(t, g) == e
    decreases k
  {
    if k == 0 {
      t := q;
    } else {
      MulParts(q, g);
      XorStep(if q % 2 == 1 then g else 0, 2 * Mul(q / 2, g));
      assert q % 2 == 0;
      MulTwice(q / 2, g);
      t := CancelPowers(q / 2, g, e, k - 1);
    }
  }
}
