/** The CRC register as a mathematical object: a remainder that is fed one message bit at a
    time. Every loop of the driver is proved against Register; what Register computes is
    proved here. */
module CrcRegister {
  import opened Gf2

  /** The divisor x^width + poly. */
  datatype Generator = Generator(width: nat, poly: nat) {
    ghost predicate Valid() {
      width >= 1 && poly < Pow2(width)
    }

    function Divisor(): nat {
      Pow2(width) + poly
    }
  }

  /** One division step with the message bit entering at the top of the register. */
  function FeedBit(g: Generator, c: nat, bit: bool): nat
    requires g.width >= 1
  {
    var shifted := Low(2 * c, g.width);
    if Bit(c, g.width - 1) != bit then Xor(shifted, g.poly) else shifted
  }

  function Register(g: Generator, c: nat, bits: seq<bool>): nat
    requires g.width >= 1
  {
    if bits == [] then c else FeedBit(g, Register(g, c, bits[..|bits| - 1]), bits[|bits| - 1])
  }

  // ----- bit strings, first processed bit first, as polynomials

  function Digit(b: bool): nat {
    if b then 1 else 0
  }

  function Value(bits: seq<bool>): nat {
    if bits == [] then 0 else 2 * Value(bits[..|bits| - 1]) + Digit(bits[|bits| - 1])
  }

  function ToBits(v: nat, n: nat): (bits: seq<bool>)
    ensures |bits| == n
    decreases n
  {
    if n == 0 then [] else ToBits(v / 2, n - 1) + [v % 2 == 1]
  }

  lemma {:induction false} ValueBound(bits: seq<bool>)
    ensures Value(bits) < Pow2(|bits|)
    decreases |bits|
  {
    if bits != [] {
      ValueBound(bits[..|bits| - 1]);
    }
  }

  lemma {:induction false} ValueOfBits(v: nat, n: nat)
    ensures Value(ToBits(v, n)) == Low(v, n)
    decreases n
  {
    if n > 0 {
      ValueOfBits(v / 2, n - 1);
      assert ToBits(v, n)[..n - 1] == ToBits(v / 2, n - 1);
    }
  }

  lemma {:induction false} BitsOfValue(bits: seq<bool>)
    ensures ToBits(Value(bits), |bits|) == bits
    decreases |bits|
  {
    if bits != [] {
      BitsOfValue(bits[..|bits| - 1]);
    }
  }

  lemma {:induction false} ValueConcat(a: seq<bool>, b: seq<bool>)
    ensures Value(a + b) == Shl(Value(a), |b|) + Value(b)
    decreases |b|
  {
    if b == [] {
      assert a + b == a;
    } else {
      ValueConcat(a, b[..|b| - 1]);
      assert (a + b)[..|a + b| - 1] == a + b[..|b| - 1];
    }
  }

  lemma {:induction false} BitsConcat(hi: nat, m: nat, lo: nat, n: nat)
    requires lo < Pow2(n)
    ensures ToBits(Shl(hi, n) + lo, m + n) == ToBits(hi, m) + ToBits(lo, n)
    decreases n
  {
    if n > 0 {
      BitsConcat(hi, m, lo / 2, n - 1);
      var v := Shl(hi, n) + lo;
      assert v / 2 == Shl(hi, n - 1) + lo / 2 && v % 2 == lo % 2;
    }
  }

  // ----- division

  lemma DivisorRange(g: Generator)
    requires g.Valid()
    ensures Pow2(g.width) <= g.Divisor() < Pow2(g.width + 1)
    ensures g.Divisor() == Xor(Pow2(g.width), g.poly)
  {
    XorDisjoint(1, g.poly, g.width);
    ShlOne(g.width);
  }

  /** x * c + bit * x^width, less the divisor when the leading terms do not cancel. */
  lemma FeedBitDivides(g: Generator, c: nat, bit: bool)
    requires g.Valid() && c < Pow2(g.width)
    ensures FeedBit(g, c, bit) < Pow2(g.width)
    ensures Xor(if Bit(c, g.width - 1) != bit then g.Divisor() else 0, FeedBit(g, c, bit))
         == Xor(2 * c, Shl(Digit(bit), g.width))
  {
    var w, low := g.width, Low(2 * c, g.width);
    TopBit(c, w);
    DivisorRange(g);
    ShlOne(w);
    LowBound(2 * c, w);
    XorBound(low, g.poly, w);
    LeadingTermsCancel(Pow2(w), g.poly, low, Bit(c, w - 1), bit);
  }

  lemma LeadingTermsCancel(lead: nat, poly: nat, low: nat, top: bool, bit: bool)
    ensures Xor(if top != bit then Xor(lead, poly) else 0, if top != bit then Xor(low, poly) else low)
         == Xor(Xor(if top then lead else 0, low), if bit then lead else 0)
  {
    XorZero(low);
    XorSwap(lead, poly, low, poly);
    XorSelf(poly);
    XorZero(Xor(lead, low));
    XorComm(lead, low);
    XorCancel(low, lead);
  }

  /** The bit shifted out of the register, and what stays. */
  lemma TopBit(c: nat, w: nat)
    requires w >= 1 && c < Pow2(w)
    ensures 2 * c == Xor(Shl(Digit(Bit(c, w - 1)), w), Low(2 * c, w))
  {
    ShrBelow(c, w - 1, 1);
    MovedUp(c, w, 1);
    assert Shl(c, 1) == 2 * Shl(c, 0);
  }

  /** What is divided: the starting register shifted past the message, plus the message
      shifted past the register. */
  function Dividend(g: Generator, c: nat, bits: seq<bool>): nat {
    Xor(Shl(c, |bits|), Shl(Value(bits), g.width))
  }

  lemma {:induction false} RegisterDivides(g: Generator, c: nat, bits: seq<bool>) returns (q: nat)
    requires g.Valid() && c < Pow2(g.width)
    ensures Division(Dividend(g, c, bits), g.Divisor(), g.width, q, Register(g, c, bits))
    decreases |bits|
  {
    var w, G := g.width, g.Divisor();
    if bits == [] {
      q := 0;
      ShlOne(w);
      XorZero(c);
    } else {
      var front, bit := bits[..|bits| - 1], bits[|bits| - 1];
      var r := Register(g, c, front);
      var q' := RegisterDivides(g, c, front);
      var flip := Bit(r, w - 1) != bit;
      q := 2 * q' + Digit(flip);
      DivideBitMore(g, c, bits, q', r, flip);
    }
  }

  lemma DivideBitMore(g: Generator, c: nat, bits: seq<bool>, q: nat, r: nat, flip: bool)
    requires g.Valid() && r < Pow2(g.width) && bits != []
    requires Division(Dividend(g, c, bits[..|bits| - 1]), g.Divisor(), g.width, q, r)
    requires flip == (Bit(r, g.width - 1) != bits[|bits| - 1])
    ensures Division(Dividend(g, c, bits), g.Divisor(), g.width, 2 * q + Digit(flip), FeedBit(g, r, bits[|bits| - 1]))
  {
    var w, G, front, bit := g.width, g.Divisor(), bits[..|bits| - 1], bits[|bits| - 1];
    FeedBitDivides(g, r, bit);
    ProductMore(q, G, flip);
    DividendOfMore(g, c, bits);
    DivideOneMore(Mul(q, G), r, Shl(c, |front|), Shl(Value(front), w),
                  if flip then G else 0, FeedBit(g, r, bit), Shl(Digit(bit), w));
  }

  lemma ProductMore(q: nat, d: nat, flip: bool)
    ensures Mul(2 * q + Digit(flip), d) == Xor(if flip then d else 0, 2 * Mul(q, d))
  {
    MulTwice(q, d);
    XorZero(2 * Mul(q, d));
  }

  lemma DividendOfMore(g: Generator, c: nat, bits: seq<bool>)
    requires bits != []
    ensures Dividend(g, c, bits)
         == Xor(2 * Shl(c, |bits| - 1),
                Xor(2 * Shl(Value(bits[..|bits| - 1]), g.width), Shl(Digit(bits[|bits| - 1]), g.width)))
  {
    var v, d := Value(bits[..|bits| - 1]), Digit(bits[|bits| - 1]);
    XorDisjoint(v, d, 1);
    assert Shl(v, 1) == 2 * Shl(v, 0);
    XorShl(2 * v, d, g.width);
    ShlTwice(v, g.width);
  }

  lemma DivideOneMore(product: nat, r: nat, sc: nat, sv: nat, t: nat, f: nat, b: nat)
    requires Xor(product, r) == Xor(sc, sv) && Xor(t, f) == Xor(2 * r, b)
    ensures Xor(Xor(t, 2 * product), f) == Xor(2 * sc, Xor(2 * sv, b))
  {
    XorComm(t, 2 * product);
    XorAssoc(2 * product, t, f);
    XorAssoc(2 * product, 2 * r, b);
    XorDouble(product, r);
    XorDouble(sc, sv);
    XorAssoc(2 * sc, 2 * sv, b);
  }

  /** Register computes the one remainder of Dividend by x^width + poly. */
  lemma RegisterIsRemainder(g: Generator, c: nat, bits: seq<bool>)
    requires g.Valid() && c < Pow2(g.width)
    ensures Register(g, c, bits) < Pow2(g.width)
    ensures forall r: nat :: IsRemainder(Dividend(g, c, bits), g.Divisor(), g.width, r) <==> r == Register(g, c, bits)
  {
    var q := RegisterDivides(g, c, bits);
    DivisorRange(g);
    var a := Dividend(g, c, bits);
    forall r: nat | IsRemainder(a, g.Divisor(), g.width, r)
      ensures r == Register(g, c, bits)
    {
      RemainderUnique(a, g.Divisor(), g.width, r, Register(g, c, bits));
    }
  }

  /** Equal dividends leave equal registers. */
  lemma SameDividend(g: Generator, c: nat, a: seq<bool>, d: nat, b: seq<bool>)
    requires g.Valid() && c < Pow2(g.width) && d < Pow2(g.width)
    requires Dividend(g, c, a) == Dividend(g, d, b)
    ensures Register(g, c, a) == Register(g, d, b)
  {
    RegisterIsRemainder(g, c, a);
    RegisterIsRemainder(g, d, b);
    assert IsRemainder(Dividend(g, c, a), g.Divisor(), g.width, Register(g, c, a));
  }

  lemma SmallRemainder(g: Generator, a: nat)
    requires a < Pow2(g.width)
    ensures IsRemainder(a, g.Divisor(), g.width, a)
  {
    XorZero(a);
    assert Division(a, g.Divisor(), g.width, 0, a);
  }

  lemma {:induction false} RegisterConcat(g: Generator, c: nat, a: seq<bool>, b: seq<bool>)
    requires g.width >= 1
    ensures Register(g, c, a + b) == Register(g, Register(g, c, a), b)
    decreases |b|
  {
    if b == [] {
      assert a + b == a;
    } else {
      RegisterConcat(g, c, a, b[..|b| - 1]);
      assert (a + b)[..|a + b| - 1] == a + b[..|b| - 1];
    }
  }

  /** Feeding the k bits of v at once through a table of k-bit remainders: the top k register
      bits join the table index, the rest of the register moves up. */
  lemma RegisterByTable(g: Generator, c: nat, v: nat, k: nat)
    requires g.Valid() && c < Pow2(g.width) && v < Pow2(k) && k <= g.width
    ensures Xor(v, Shr(c, g.width - k)) < Pow2(k)
    ensures Register(g, c, ToBits(v, k))
         == Xor(Register(g, 0, ToBits(Xor(v, Shr(c, g.width - k)), k)), Low(Shl(c, k), g.width))
  {
    var w, top := g.width, Shr(c, g.width - k);
    var index, stays := Xor(v, top), Low(Shl(c, k), g.width);
    ShrBelow(c, w - k, k);
    XorBound(v, top, k);
    LowBound(Shl(c, k), w);
    DividendByTable(g, c, v, k);
    RegisterIsRemainder(g, 0, ToBits(index, k));
    SmallRemainder(g, stays);
    RemainderAdds(Dividend(g, 0, ToBits(index, k)), stays, g.Divisor(), w, Register(g, 0, ToBits(index, k)), stays);
    RegisterIsRemainder(g, c, ToBits(v, k));
  }

  lemma DividendByTable(g: Generator, c: nat, v: nat, k: nat)
    requires g.Valid() && c < Pow2(g.width) && v < Pow2(k) && k <= g.width
    requires Xor(v, Shr(c, g.width - k)) < Pow2(k)
    ensures Dividend(g, c, ToBits(v, k))
         == Xor(Dividend(g, 0, ToBits(Xor(v, Shr(c, g.width - k)), k)), Low(Shl(c, k), g.width))
  {
    var w, top := g.width, Shr(c, g.width - k);
    var index, stays := Xor(v, top), Low(Shl(c, k), g.width);
    DividendOfNumber(g, c, v, k);
    DividendOfNumber(g, 0, index, k);
    ShlOne(k);
    XorZero(Shl(index, w));
    MovedUp(c, w, k);
    XorShl(v, top, w);
    XorRotate(Shl(top, w), stays, Shl(v, w));
  }

  lemma DividendOfNumber(g: Generator, c: nat, v: nat, k: nat)
    requires v < Pow2(k)
    ensures Dividend(g, c, ToBits(v, k)) == Xor(Shl(c, k), Shl(v, g.width))
  {
    LowBound(v, k);
    ValueOfBits(v, k);
  }

  lemma XorRotate(a: nat, b: nat, c: nat)
    ensures Xor(Xor(a, b), c) == Xor(Xor(c, a), b)
  {
    XorComm(Xor(a, b), c);
    XorAssoc(c, a, b);
  }

  /** A register moved up by k bits: the bits pushed out, and the bits that stay. */
  lemma MovedUp(c: nat, w: nat, k: nat)
    requires k <= w
    ensures Shl(c, k) == Xor(Shl(Shr(c, w - k), w), Low(Shl(c, k), w))
    ensures Low(Shl(c, k), w) == Shl(Low(c, w - k), k)
  {
    LowOfShl(c, k, w - k);
    ShrUndoesShl(c, k, w - k);
    Split(Shl(c, k), w);
    LowBound(Shl(c, k), w);
    XorDisjoint(Shr(c, w - k), Low(Shl(c, k), w), w);
  }

  lemma {:induction false} ShlSum(a: nat, b: nat, k: nat)
    ensures Shl(a + b, k) == Shl(a, k) + Shl(b, k)
  {
    if k > 0 {
      ShlSum(a, b, k - 1);
    }
  }

  lemma {:induction false} ShrBelow(a: nat, j: nat, k: nat)
    requires a < Pow2(j + k)
    ensures Shr(a, j) < Pow2(k)
    decreases j
  {
    if j > 0 {
      ShrBelow(a / 2, j - 1, k);
    }
  }

  // ----- detection

  /** Only a zero register difference below x^width is a multiple of a divisor with a
      constant term, however far it is shifted. */
  lemma ShiftedDifference(g: Generator, e: nat, k: nat)
    requires g.Valid() && g.poly % 2 == 1 && e < Pow2(g.width)
    requires IsRemainder(Shl(e, k), g.Divisor(), g.width, 0)
    ensures e == 0
  {
    var q: nat :| Division(Shl(e, k), g.Divisor(), g.width, q, 0);
    XorZero(Mul(q, g.Divisor()));
    DivisorRange(g);
    var t := CancelPowers(q, g.Divisor(), e, k);
    SmallMultipleIsZero(t, g.Divisor(), g.width);
  }

  /** The computation is affine: registers add as their inputs do. */
  lemma RegisterAdds(g: Generator, c: nat, a: seq<bool>, d: nat, b: seq<bool>)
    requires g.Valid() && c < Pow2(g.width) && d < Pow2(g.width) && |a| == |b|
    ensures IsRemainder(Xor(Shl(Xor(c, d), |a|), Shl(Xor(Value(a), Value(b)), g.width)),
                        g.Divisor(), g.width, Xor(Register(g, c, a), Register(g, d, b)))
  {
    RegisterIsRemainder(g, c, a);
    RegisterIsRemainder(g, d, b);
    RemainderAdds(Dividend(g, c, a), Dividend(g, d, b), g.Divisor(), g.width, Register(g, c, a), Register(g, d, b));
    XorSwap(Shl(c, |a|), Shl(Value(a), g.width), Shl(d, |b|), Shl(Value(b), g.width));
    XorShl(c, d, |a|);
    XorShl(Value(a), Value(b), g.width);
  }

  /** ... so the register of a sum is the sum of the registers. */
  lemma SumOfRegisters(g: Generator, c: nat, v: nat, d: nat, u: nat, k: nat)
    requires g.Valid() && c < Pow2(g.width) && d < Pow2(g.width) && v < Pow2(k) && u < Pow2(k)
    ensures Xor(c, d) < Pow2(g.width) && Xor(v, u) < Pow2(k)
    ensures Register(g, Xor(c, d), ToBits(Xor(v, u), k)) == Xor(Register(g, c, ToBits(v, k)), Register(g, d, ToBits(u, k)))
  {
    XorBound(c, d, g.width);
    XorBound(v, u, k);
    RegisterAdds(g, c, ToBits(v, k), d, ToBits(u, k));
    ValueOfBits(v, k);
    ValueOfBits(u, k);
    LowBound(v, k);
    LowBound(u, k);
    DividendOfNumber(g, Xor(c, d), Xor(v, u), k);
    RegisterIsRemainder(g, Xor(c, d), ToBits(Xor(v, u), k));
  }

  /** Every run of division steps can be undone. */
  lemma RegisterInjective(g: Generator, c: nat, d: nat, bits: seq<bool>)
    requires g.Valid() && g.poly % 2 == 1 && c < Pow2(g.width) && d < Pow2(g.width)
    ensures Register(g, c, bits) == Register(g, d, bits) <==> c == d
  {
    if Register(g, c, bits) == Register(g, d, bits) {
      RegisterAdds(g, c, bits, d, bits);
      XorSelf(Register(g, c, bits));
      XorSelf(Value(bits));
      ShlOne(g.width);
      XorZero(Shl(Xor(c, d), |bits|));
      XorBound(c, d, g.width);
      ShiftedDifference(g, Xor(c, d), |bits|);
      XorEqZero(c, d);
    }
  }

  /** Two different strings no longer than the register never lead to the same register. */
  lemma ShortStringsSeparated(g: Generator, c: nat, a: seq<bool>, b: seq<bool>)
    requires g.Valid() && g.poly % 2 == 1 && c < Pow2(g.width)
    requires |a| == |b| <= g.width
    ensures Register(g, c, a) == Register(g, c, b) <==> a == b
  {
    if Register(g, c, a) == Register(g, c, b) {
      RegisterAdds(g, c, a, c, b);
      XorSelf(Register(g, c, a));
      XorSelf(c);
      ShlOne(|a|);
      XorZero(Shl(Xor(Value(a), Value(b)), g.width));
      ValueBound(a);
      ValueBound(b);
      Pow2Mono(|a|, g.width);
      XorBound(Value(a), Value(b), g.width);
      ShiftedDifference(g, Xor(Value(a), Value(b)), g.width);
      XorEqZero(Value(a), Value(b));
      BitsOfValue(a);
      BitsOfValue(b);
    }
  }

  /** A burst error no longer than the register is always seen. */
  lemma BurstSeparated(g: Generator, c: nat, a: seq<bool>, b: seq<bool>, s: nat)
    requires g.Valid() && g.poly % 2 == 1 && c < Pow2(g.width)
    requires |a| == |b| && a != b
    requires forall i :: 0 <= i < |a| && !(s <= i < s + g.width) ==> a[i] == b[i]
    ensures Register(g, c, a) != Register(g, c, b)
  {
    var n := |a|;
    var lo := if s < n then s else n;
    var hi := if s + g.width < n then s + g.width else n;
    var pre, x, y, suf := a[..lo], a[lo..hi], b[lo..hi], a[hi..];
    assert a == pre + x + suf;
    assert b == pre + y + suf;
    var r := Register(g, c, pre);
    RegisterIsRemainder(g, c, pre);
    RegisterIsRemainder(g, r, x);
    RegisterIsRemainder(g, r, y);
    RegisterConcat(g, c, pre + x, suf);
    RegisterConcat(g, c, pre + y, suf);
    RegisterConcat(g, c, pre, x);
    RegisterConcat(g, c, pre, y);
    ShortStringsSeparated(g, r, x, y);
    RegisterInjective(g, Register(g, r, x), Register(g, r, y), suf);
  }

  /** The bound is sharp: flipping the width + 1 bits of the divisor itself goes unseen. */
  lemma LongerBurstMissed(g: Generator, c: nat, pre: seq<bool>, x: seq<bool>, suf: seq<bool>)
    returns (y: seq<bool>)
    requires g.Valid() && c < Pow2(g.width) && |x| == g.width + 1
    ensures |y| == |x| && y != x
    ensures Register(g, c, pre + x + suf) == Register(g, c, pre + y + suf)
  {
    var w, G := g.width, g.Divisor();
    DivisorRange(g);
    ValueBound(x);
    XorBound(Value(x), G, w + 1);
    y := ToBits(Xor(Value(x), G), w + 1);
    ValueOfBits(Xor(Value(x), G), w + 1);
    LowBound(Xor(Value(x), G), w + 1);
    XorCancel(G, Value(x));
    XorEqZero(Value(x), Value(y));
    var r := Register(g, c, pre);
    RegisterIsRemainder(g, c, pre);
    RegisterAdds(g, r, x, r, y);
    XorCancel(G, Value(x));
    XorSelf(r);
    ShlOne(|x|);
    XorZero(Shl(G, w));
    MulShl(1, G, w);
    MulOne(G);
    XorZero(Shl(G, w));
    assert Division(Shl(G, w), G, w, Shl(1, w), 0);
    RemainderUnique(Shl(G, w), G, w, 0, Xor(Register(g, r, x), Register(g, r, y)));
    XorEqZero(Register(g, r, x), Register(g, r, y));
    RegisterConcat(g, c, pre + x, suf);
    RegisterConcat(g, c, pre + y, suf);
    RegisterConcat(g, c, pre, x);
    RegisterConcat(g, c, pre, y);
  }

  /** Feeding width bits to a register clears it when they are the register's own value,
      and, for a divisor with a constant term, only then. */
  lemma RegisterCleared(g: Generator, c: nat, t: nat)
    requires g.Valid() && c < Pow2(g.width) && t < Pow2(g.width)
    ensures c == t ==> Register(g, c, ToBits(t, g.width)) == 0
    ensures g.poly % 2 == 1 && Register(g, c, ToBits(t, g.width)) == 0 ==> c == t
  {
    var w := g.width;
    ValueOfBits(t, w);
    LowBound(t, w);
    XorShl(c, t, w);
    XorBound(c, t, w);
    RegisterIsRemainder(g, c, ToBits(t, w));
    assert Dividend(g, c, ToBits(t, w)) == Shl(Xor(c, t), w);
    if c == t {
      XorSelf(c);
      ShlOne(w);
      SmallRemainder(g, 0);
    }
    if g.poly % 2 == 1 && Register(g, c, ToBits(t, w)) == 0 {
      ShiftedDifference(g, Xor(c, t), w);
      XorEqZero(c, t);
    }
  }

  // ----- alignment

  /** Dividing by x^j * divisor with a register moved up by j bits is the same division
      moved up by j bits. */
  lemma {:induction false} RegisterMovedUp(g: Generator, c: nat, bits: seq<bool>, j: nat)
    requires g.Valid() && c < Pow2(g.width)
    ensures Register(Generator(g.width + j, Shl(g.poly, j)), Shl(c, j), bits) == Shl(Register(g, c, bits), j)
    ensures Shl(g.poly, j) < Pow2(g.width + j) && Shl(c, j) < Pow2(g.width + j)
    decreases |bits|
  {
    ShlBound(g.poly, g.width, j);
    ShlBound(c, g.width, j);
    if bits != [] {
      var front := bits[..|bits| - 1];
      RegisterMovedUp(g, c, front, j);
      RegisterIsRemainder(g, c, front);
      var r := Register(g, c, front);
      ShrUndoesShl(r, j, g.width - 1);
      LowOfShl(2 * r, j, g.width);
      ShlTwice(r, j);
      XorShl(Low(2 * r, g.width), g.poly, j);
    }
  }

  lemma {:induction false} ShrUndoesShl(a: nat, j: nat, k: nat)
    ensures Shr(Shl(a, j), j + k) == Shr(a, k)
    decreases j
  {
    if j > 0 {
      ShrUndoesShl(a, j - 1, k);
    }
  }

  lemma {:induction false} LowOfShl(a: nat, j: nat, k: nat)
    ensures Low(Shl(a, j), j + k) == Shl(Low(a, k), j)
    decreases j
  {
    if j > 0 {
      LowOfShl(a, j - 1, k);
    }
  }
}
