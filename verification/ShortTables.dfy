/** A table of remainders read into a register narrower than the one that it is made for. */
module ShortTables {
  import opened Gf2
  import opened CrcRegister
  import opened Mirroring
  import opened CrcSteps
  import opened TableAlgebra

  /** The divisor that the low w bits of a polynomial make. */
  function Narrowed(g: Generator, w: nat): Generator {
    Generator(w, Low(g.poly, w))
  }

  /** The entry of twice an index is one division step further. */
  lemma EntryDoubled(g: Generator, n: nat, u: nat)
    requires g.Valid() && 2 * u < Pow2(n)
    ensures TableEntry(g, n, u) < Pow2(g.width)
    ensures TableEntry(g, n, 2 * u) == FeedBit(g, TableEntry(g, n, u), false)
  {
    var e := TableEntry(g, n, u);
    RegisterIsRemainder(g, 0, ToBits(u, n));
    FeedBitDivides(g, e, false);
    ShlOne(g.width);
    XorZero(2 * e);
    XorZero(FeedBit(g, e, false));
    XorCancel(FeedBit(g, e, false), g.Divisor());
    XorComm(g.Divisor(), 2 * e);
    EntryTwice(g, n, u, FeedBit(g, e, false));
  }

  /** The step of the wide register, cut to w bits, is the step of the narrow one exactly when both
      shift out the same bit. */
  lemma NarrowedStep(g: Generator, w: nat, e: nat)
    requires g.Valid() && 1 <= w <= g.width && Low(g.poly, w) != 0
    ensures Low(FeedBit(g, e, false), w) == FeedBit(Narrowed(g, w), Low(e, w), false)
       <==> Bit(e, w - 1) == Bit(e, g.width - 1)
  {
    var moved := Low(2 * e, w);
    LowLow(2 * e, w, g.width);
    XorLow(Low(2 * e, g.width), g.poly, w);
    BitOfLow(e, w - 1, w);
    LowOfDouble(e, w);
    XorZero(moved);
    if Xor(moved, Low(g.poly, w)) == moved {
      XorCancel(Low(g.poly, w), moved);
      XorSelf(moved);
    }
  }

  lemma LowOfDouble(e: nat, w: nat)
    requires w >= 1
    ensures Low(2 * Low(e, w), w) == Low(2 * e, w)
  {
    LowTwice(e, w - 1);
    LowTwice(Low(e, w), w - 1);
    LowLow(e, w - 1, w);
  }

  lemma LowTwice(a: nat, k: nat)
    ensures Low(2 * a, k + 1) == 2 * Low(a, k)
  {
    assert 2 * a / 2 == a;
  }

  /** The entry of the i-th power of two shifts the same bit out of either register. */
  predicate TopsAgree(g: Generator, w: nat, n: nat, i: nat)
    requires 1 <= w <= g.width
  {
    Bit(TableEntry(g, n, Pow2(i)), w - 1) == Bit(TableEntry(g, n, Pow2(i)), g.width - 1)
  }

  ghost predicate Serves(g: Generator, w: nat, n: nat)
    requires 1 <= w <= g.width
  {
    forall v: nat :: v < Pow2(n) ==> Low(TableEntry(g, n, v), w) == TableEntry(Narrowed(g, w), n, v)
  }

  lemma NarrowedValid(g: Generator, w: nat)
    requires 1 <= w
    ensures Narrowed(g, w).Valid()
  {
    LowBound(g.poly, w);
  }

  /** Cut entries add as their indices do. */
  lemma CutAdds(g: Generator, w: nat, n: nat)
    requires g.Valid()
    ensures Adds((v: nat) => Low(TableEntry(g, n, v), w), n)
  {
    var e := (v: nat) => Low(TableEntry(g, n, v), w);
    EntryZero(g, n);
    LowOfZero(w);
    forall a: nat, b: nat | a < Pow2(n) && b < Pow2(n)
      ensures e(Xor(a, b)) == Xor(e(a), e(b))
    {
      EntryAdds(g, n, a, b);
      XorLow(TableEntry(g, n, a), TableEntry(g, n, b), w);
    }
  }

  lemma LowOfZero(w: nat)
    ensures Low(0, w) == 0
  {
    LowBound(0, w);
  }

  /** Functions that add are equal when they are equal at the powers of two. */
  lemma {:induction false} SameByPowers(e: nat -> nat, f: nat -> nat, n: nat, k: nat, v: nat)
    requires Adds(e, n) && Adds(f, n) && k <= n && v < Pow2(k)
    requires forall i: nat :: i < n ==> e(Pow2(i)) == f(Pow2(i))
    ensures e(v) == f(v)
    decreases k
  {
    if k > 0 {
      var top := Pow2(k - 1);
      if v < top {
        SameByPowers(e, f, n, k - 1, v);
      } else {
        SameByPowers(e, f, n, k - 1, v - top);
        AddsTop(e, n, k - 1, v - top);
        AddsTop(f, n, k - 1, v - top);
      }
    }
  }

  lemma AddsTop(e: nat -> nat, n: nat, k: nat, u: nat)
    requires Adds(e, n) && k < n && u < Pow2(k)
    ensures e(Pow2(k) + u) == Xor(e(Pow2(k)), e(u))
  {
    XorDisjoint(1, u, k);
    ShlOne(k);
    Pow2Mono(k + 1, n);
    AddsAt(e, n, Pow2(k), u);
  }

  lemma OneStepMore(g: Generator, w: nat, n: nat, i: nat)
    requires g.Valid() && 1 <= w <= g.width && Low(g.poly, w) != 0 && i + 1 < n
    requires Low(TableEntry(g, n, Pow2(i)), w) == TableEntry(Narrowed(g, w), n, Pow2(i))
    ensures Low(TableEntry(g, n, Pow2(i + 1)), w) == TableEntry(Narrowed(g, w), n, Pow2(i + 1)) <==> TopsAgree(g, w, n, i)
  {
    Pow2Mono(i + 2, n);
    NarrowedValid(g, w);
    EntryDoubled(g, n, Pow2(i));
    EntryDoubled(Narrowed(g, w), n, Pow2(i));
    NarrowedStep(g, w, TableEntry(g, n, Pow2(i)));
  }

  lemma {:induction false} PowersServe(g: Generator, w: nat, n: nat, i: nat)
    requires g.Valid() && 1 <= w <= g.width && Low(g.poly, w) != 0 && i < n
    requires forall j: nat :: j < i ==> TopsAgree(g, w, n, j)
    ensures Low(TableEntry(g, n, Pow2(i)), w) == TableEntry(Narrowed(g, w), n, Pow2(i))
  {
    if i == 0 {
      NarrowedValid(g, w);
      EntryOne(g, n);
      EntryOne(Narrowed(g, w), n);
    } else {
      PowersServe(g, w, n, i - 1);
      OneStepMore(g, w, n, i - 1);
    }
  }

  /** Cut to w bits, all the entries are those of the narrow register if and only if the entries of
      the powers of two but the last shift the same bit out of either register. */
  lemma ServesExactly(g: Generator, w: nat, n: nat)
    requires g.Valid() && 1 <= w <= g.width && Low(g.poly, w) != 0
    ensures Serves(g, w, n) <==> forall i: nat :: i + 1 < n ==> TopsAgree(g, w, n, i)
  {
    if Serves(g, w, n) {
      forall i: nat | i + 1 < n
        ensures TopsAgree(g, w, n, i)
      {
        Pow2Mono(i + 2, n);
        OneStepMore(g, w, n, i);
      }
    }
    if forall i: nat :: i + 1 < n ==> TopsAgree(g, w, n, i) {
      AllServe(g, w, n);
    }
  }

  lemma AllServe(g: Generator, w: nat, n: nat)
    requires g.Valid() && 1 <= w <= g.width && Low(g.poly, w) != 0
    requires forall i: nat :: i + 1 < n ==> TopsAgree(g, w, n, i)
    ensures Serves(g, w, n)
  {
    var e, f := (v: nat) => Low(TableEntry(g, n, v), w), EntryOf(Narrowed(g, w), n);
    NarrowedValid(g, w);
    CutAdds(g, w, n);
    EntriesAdd(Narrowed(g, w), n);
    forall i: nat | i < n
      ensures e(Pow2(i)) == f(Pow2(i))
    {
      PowersServe(g, w, n, i);
    }
    SameEverywhere(e, f, n);
    forall v: nat | v < Pow2(n)
      ensures Low(TableEntry(g, n, v), w) == TableEntry(Narrowed(g, w), n, v)
    {
      assert e(v) == f(v);
    }
  }

  lemma SameEverywhere(e: nat -> nat, f: nat -> nat, n: nat)
    requires Adds(e, n) && Adds(f, n) && forall i: nat :: i < n ==> e(Pow2(i)) == f(Pow2(i))
    ensures forall v: nat :: v < Pow2(n) ==> e(v) == f(v)
  {
    forall v: nat | v < Pow2(n)
      ensures e(v) == f(v)
    {
      SameByPowers(e, f, n, n, v);
    }
  }

  /** As long as nothing is shifted out, entries of powers of two are shifted. */
  lemma {:induction false} PowerShifted(g: Generator, n: nat, j: nat, i: nat)
    requires g.Valid() && j + i < n && Shl(TableEntry(g, n, Pow2(j)), i) < Pow2(g.width)
    ensures TableEntry(g, n, Pow2(j + i)) == Shl(TableEntry(g, n, Pow2(j)), i)
    decreases i
  {
    if i > 0 {
      PowerShifted(g, n, j, i - 1);
      Pow2Mono(j + i + 1, n);
      EntryTwice(g, n, Pow2(j + i - 1), Shl(TableEntry(g, n, Pow2(j)), i));
    }
  }

  /** A bit of an early entry that leaves the narrow register before any leaves the wide one. */
  lemma LeavesEarly(g: Generator, w: nat, n: nat, j: nat, i: nat, x: nat)
    requires g.Valid() && 1 <= w <= g.width && Low(g.poly, w) != 0 && j + i + 1 < n && i < w
    requires x == TableEntry(g, n, Pow2(j)) && Shl(x, i + 1) < Pow2(g.width) && Bit(x, w - 1 - i)
    ensures !Serves(g, w, n)
  {
    PowerShifted(g, n, j, i);
    ShrUndoesShl(x, i, w - 1 - i);
    ShrBound(Shl(x, i), g.width - 1);
    assert !TopsAgree(g, w, n, j + i);
    ServesExactly(g, w, n);
  }

  /** A bit of a number taken apart. */
  lemma BitIs(a: nat, k: nat, hi: nat, lo: nat, p: nat)
    requires p == Pow2(k) && a == hi * p + lo && lo < p
    ensures Bit(a, k) == (hi % 2 == 1)
  {
    ShlIsProduct(hi, k);
    Joined(hi, lo, k);
  }
}
