/** IEEE 754 arithmetic on the non-negative values that the program meets, rounding to the
    nearest value and to the even one in a tie. Values are whole multiples of some power of two:
    of 2^-54 for levels, of 2^-149, the smallest positive float, for readings. */
module Binary32 {
  import opened Gf2

  /** The value 1, in units of 2^-54. */
  const ONE: nat := 0x40_0000_0000_0000

  /** a / b to the nearest integer. */
  function NearestEven(a: nat, b: nat): nat
    requires b > 0
  {
    var q, r := a / b, a % b;
    if 2 * r < b || (2 * r == b && q % 2 == 0) then q else q + 1
  }

  /** a / b rounded to a significand of at most p. */
  function Rounded(a: nat, b: nat, p: nat): nat
    requires b > 0 && p > 0
    decreases if a >= b then a - b + 1 else 0
  {
    if a < b * p then NearestEven(a, b)
    else
      ProductMono(1, p, b);
      2 * Rounded(a, 2 * b, p)
  }

  /** Rounded to a float. */
  function Single(a: nat, b: nat): nat
    requires b > 0
  {
    Rounded(a, b, 0x100_0000)
  }

  /** Rounded to a double. */
  function Double(a: nat, b: nat): nat
    requires b > 0
  {
    Rounded(a, b, 0x20_0000_0000_0000)
  }

  lemma TwiceLess(c: nat, j: nat)
    requires j > 0
    ensures 2 * c * Pow2(j - 1) == c * Pow2(j) && c <= c * Pow2(j - 1)
  {
    Scaled(c, Pow2(j - 1));
  }

  lemma Scaled(c: nat, p: nat)
    requires p >= 1
    ensures 2 * c * p == c * (2 * p) && c <= c * p
  {
  }

  /** Rounding, when the place of the last bit is known. */
  lemma {:induction false} RoundedAt(a: nat, b: nat, p: nat, j: nat, u: nat)
    requires b > 0 && p > 0 && u == Pow2(j) && b * u > 0
    requires a < b * p * u && (j > 0 ==> b * p * u <= 2 * a)
    ensures Rounded(a, b, p) == NearestEven(a, b * u) * u
    decreases j
  {
    if j > 0 {
      var v := Pow2(j - 1);
      HalfUnit(a, b, p, v);
      RoundedAt(a, 2 * b, p, j - 1, v);
      RoundedStep(a, b, p, NearestEven(a, 2 * b * v), v);
    }
  }

  lemma RoundedStep(a: nat, b: nat, p: nat, q: nat, v: nat)
    requires b > 0 && p > 0 && a >= b * p && Rounded(a, 2 * b, p) == q * v
    ensures Rounded(a, b, p) == q * (2 * v)
  {
    LargeRounded(a, b, p);
    TwiceProduct(q, v);
  }

  lemma TwiceProduct(q: nat, v: nat)
    ensures q * (2 * v) == 2 * (q * v)
  {
  }

  lemma HalfUnit(a: nat, b: nat, p: nat, v: nat)
    requires b > 0 && p > 0 && v >= 1 && b * p * (2 * v) <= 2 * a
    ensures b * p <= a && 2 * b * p * v == b * p * (2 * v) && 2 * b * v == b * (2 * v) > 0
  {
    ProductMono(1, v, b * p);
    ProductLess(0, b, 2 * v);
  }

  lemma Places()
    ensures Pow2(30) == 0x4000_0000 && Pow2(29) == 0x2000_0000 && Pow2(28) == 0x1000_0000 && Pow2(27) == 0x800_0000
    ensures Pow2(26) == 0x400_0000 && Pow2(25) == 0x200_0000 && Pow2(24) == 0x100_0000
  {
    assert Pow2(12) == 0x1000;
    assert Pow2(24) == 0x100_0000;
  }

  /** A byte n divided by 100 as floats. */
  function Hundredths(n: nat): nat {
    Single(n * ONE, 100)
  }

  /** A nibble divided by 10 as floats. */
  function Tenths(n: nat): nat {
    Single(n * ONE, 10)
  }

  /** A level multiplied by 100 as floats, truncated to a byte. */
  function Percent(level: nat): nat {
    Single(100 * level, 1) / ONE % 0x100
  }

  function Multiple(q: nat, t: nat): nat {
    ProductMono(0, q, t);
    q * t
  }

  /** The integer part of the product, in terms of significands: s units make 1, and the last
      bit of the product is worth t units. */
  function Product(n: nat, s: nat, t: nat): nat
    requires s > 0 && t > 0
  {
    Multiple(NearestEven(100 * NearestEven(n * s, 100), t), t) / s
  }

  lemma ProductLess(a: nat, b: nat, u: nat)
    requires u > 0
    ensures a < b <==> a * u < b * u
  {
    if a < b {
      assert a * u + u == (a + 1) * u;
      ProductMono(a + 1, b, u);
    } else {
      ProductMono(b, a, u);
    }
  }

  lemma ProductMono(a: nat, b: nat, u: nat)
    requires a <= b
    ensures a * u <= b * u
  {
    assert b * u == a * u + (b - a) * u;
  }

  lemma QuotientIs(x: nat, d: nat, q: nat, r: nat)
    requires d > 0 && x == q * d + r && r < d
    ensures x / d == q && x % d == r
  {
    var p, s := x / d, x % d;
    assert x == p * d + s;
    OneMore(p, d);
    OneMore(q, d);
    if p < q {
      ProductMono(p + 1, q, d);
    } else if q < p {
      ProductMono(q + 1, p, d);
    }
  }

  lemma OneMore(p: nat, d: nat)
    ensures (p + 1) * d == p * d + d
  {
  }

  lemma SameQuotient(x: nat, b: nat, u: nat)
    requires b > 0 && u > 0 && b * u > 0
    ensures (x * u) / (b * u) == x / b && (x * u) % (b * u) == (x % b) * u
  {
    var q, r := x / b, x % b;
    ProductLess(r, b, u);
    Regroup(q, b, r, u);
    assert x == q * b + r;
    QuotientIs(x * u, b * u, q, r * u);
  }

  lemma Regroup(q: nat, b: nat, r: nat, u: nat)
    ensures (q * b + r) * u == q * (b * u) + r * u
  {
  }

  /** A common factor does not matter. */
  lemma NearestScaled(x: nat, b: nat, u: nat)
    requires b > 0 && u > 0 && b * u > 0
    ensures NearestEven(x * u, b * u) == NearestEven(x, b)
  {
    SameQuotient(x, b, u);
    var r := x % b;
    ProductLess(2 * r, b, u);
    ProductLess(b, 2 * r, u);
    assert 2 * r * u == 2 * (r * u);
  }

  /** The significand of n / 100 in units of which s make 1. */
  function Significand(n: nat, s: nat): nat {
    NearestEven(n * s, 100)
  }

  lemma HundredthsAt(n: nat, s: nat, j: nat, u: nat)
    requires u == Pow2(j) && j > 0 && s * u == ONE && n * s < 0x6400_0000 <= 2 * (n * s)
    ensures Hundredths(n) == Significand(n, s) * u
  {
    var a := n * s;
    ProductLess(a, 0x6400_0000, u);
    ProductLess(2 * a, 0x6400_0000, u);
    assert a * u == n * ONE by { Regroup3(n, s, u); }
    assert 2 * a * u == 2 * (a * u);
    RoundedAt(n * ONE, 100, 0x100_0000, j, u);
    NearestScaled(a, 100, u);
  }

  lemma Regroup3(n: nat, s: nat, u: nat)
    ensures n * s * u == n * (s * u)
  {
  }

  /** The product, when the places of both last bits are known. */
  lemma PercentAt(n: nat, s: nat, j: nat, u: nat, i: nat, t: nat)
    requires s > 0 && t > 0 && u == Pow2(j) && t * u == Pow2(i) && j > 0 && i > 0 && s * u == ONE
    requires n * s < 0x6400_0000 <= 2 * (n * s)
    requires var p := 100 * Significand(n, s); p < 0x100_0000 * t <= 2 * p
    ensures Percent(Hundredths(n)) == Product(n, s, t) % 0x100
  {
    HundredthsAt(n, s, j, u);
    PercentOf(Significand(n, s), Hundredths(n), s, u, i, t);
  }

  lemma PercentOf(m: nat, level: nat, s: nat, u: nat, i: nat, t: nat)
    requires s > 0 && t > 0 && u > 0 && t * u == Pow2(i) && i > 0 && s * u == ONE && level == m * u
    requires 100 * m < 0x100_0000 * t <= 2 * (100 * m)
    ensures Percent(level) == NearestEven(100 * m, t) * t / s % 0x100
  {
    var q := NearestEven(100 * m, t);
    ProductPlace(100 * m, t, i, u);
    Regroup3(100, m, u);
    Regroup3(q, t, u);
    SameQuotient(q * t, s, u);
  }

  lemma ProductPlace(p: nat, t: nat, i: nat, u: nat)
    requires t > 0 && u > 0 && t * u == Pow2(i) && i > 0 && p < 0x100_0000 * t <= 2 * p
    ensures Single(p * u, 1) == NearestEven(p, t) * (t * u)
  {
    ProductLess(p, 0x100_0000 * t, u);
    ProductLess(2 * p, 0x100_0000 * t, u);
    Regroup3(0x100_0000, t, u);
    assert 2 * p * u == 2 * (p * u);
    RoundedAt(p * u, 1, 0x100_0000, i, t * u);
    NearestScaled(p, t, u);
  }

  lemma NearestIs(a: nat, b: nat, q: nat)
    requires b > 0 && (a - q * b) * 2 < b && (q * b - a) * 2 < b
    ensures NearestEven(a, b) == q
  {
    if a >= q * b {
      QuotientIs(a, b, q, a - q * b);
    } else {
      OneMore(q - 1, b);
      QuotientIs(a, b, q - 1, a - (q - 1) * b);
    }
  }

  /** The significand is off by the remainder, or by what is missing to the next hundred. */
  lemma SignificandError(n: nat, s: nat)
    requires (n * s) % 100 != 50
    ensures var r := (n * s) % 100; 100 * Significand(n, s) == if r < 50 then n * s - r else n * s + (100 - r)
  {
  }

  /** Where the product is coarser by seven bits the error is rounded away. */
  lemma FineProduct(n: nat, s: nat, z: nat)
    requires s == 128 * z && z > 0 && (n * s) % 100 != 50
    ensures Product(n, s, 128) == n
  {
    SignificandError(n, s);
    assert n * s == n * z * 128;
    NearestIs(100 * Significand(n, s), 128, n * z);
    QuotientIs(n * z * 128, s, n, 0);
  }

  lemma CoarseNearest(e: nat, h: nat)
    requires -64 < e - h * 128 < 64
    ensures NearestEven(e, 64) == if e + 32 < h * 128 then 2 * h - 1 else if e > h * 128 + 32 then 2 * h + 1 else 2 * h
  {
    var q := 2 * h;
    if e + 32 == q * 64 {
      QuotientIs(e, 64, q - 1, 32);
    } else if e + 32 < q * 64 {
      NearestIs(e, 64, q - 1);
    } else if e == q * 64 + 32 {
      QuotientIs(e, 64, q, 32);
    } else if e > q * 64 + 32 {
      NearestIs(e, 64, q + 1);
    } else {
      NearestIs(e, 64, q);
    }
  }

  /** By six bits, an error of more than half of the last place takes the product below n. */
  lemma CoarseProduct(n: nat, s: nat, z: nat)
    requires s == 128 * z && z > 0 && (n * s) % 100 != 50 && n > 0
    ensures Product(n, s, 64) == if 32 < (n * s) % 100 < 50 then n - 1 else n
  {
    var h := n * z;
    SignificandError(n, s);
    assert n * s == h * 128;
    CoarseNearest(100 * Significand(n, s), h);
    Neighbours(n, s, h);
  }

  lemma Neighbours(n: nat, s: nat, h: nat)
    requires n > 0 && s >= 128 && n * s == h * 128 && h > 0
    ensures (2 * h - 1) * 64 / s == n - 1 && 2 * h * 64 / s == n && (2 * h + 1) * 64 / s == n
  {
    OneMore(n - 1, s);
    QuotientIs((2 * h - 1) * 64, s, n - 1, s - 64);
    QuotientIs(2 * h * 64, s, n, 0);
    QuotientIs((2 * h + 1) * 64, s, n, 64);
  }

  /** The units of the significand: u is 2^j, and s of them make 1. */
  datatype Unit = Unit(j: nat, s: nat, u: nat)

  function UnitOf(n: nat): Unit {
    if n >= 50 then Unit(30, 0x100_0000, 0x4000_0000)
    else if n >= 25 then Unit(29, 0x200_0000, 0x2000_0000)
    else if n >= 13 then Unit(28, 0x400_0000, 0x1000_0000)
    else if n >= 7 then Unit(27, 0x800_0000, 0x800_0000)
    else if n >= 4 then Unit(26, 0x1000_0000, 0x400_0000)
    else if n >= 2 then Unit(25, 0x2000_0000, 0x200_0000)
    else Unit(24, 0x4000_0000, 0x100_0000)
  }

  lemma UnitFits(n: nat)
    requires 1 <= n <= 99
    ensures var g := UnitOf(n); g.s * g.u == ONE && n * g.s < 0x6400_0000 <= 2 * (n * g.s)
    ensures UnitOf(n).u == Pow2(UnitOf(n).j)
  {
    Places();
  }

  lemma UnitError(n: nat)
    requires 1 <= n <= 99
    ensures (n * UnitOf(n).s) % 100 != 50
    ensures 32 < (n * UnitOf(n).s) % 100 < 50 && n * UnitOf(n).s < 0x4000_0000 + 50 <==> n == 53 || n == 59
  {
  }

  lemma PercentInside(n: nat)
    requires 1 <= n <= 99
    ensures Percent(Hundredths(n)) == if n == 53 || n == 59 then n - 1 else n
  {
    UnitFits(n);
    UnitError(n);
    var g := UnitOf(n);
    PercentIn(n, g.s, g.j, g.u, g.s / 128);
    SignificandError(n, g.s);
  }

  lemma PercentIn(n: nat, s: nat, j: nat, u: nat, z: nat)
    requires s == 128 * z && z > 0 && 1 <= n <= 99 && u == Pow2(j) && j > 0 && s * u == ONE
    requires n * s < 0x6400_0000 <= 2 * (n * s) && (n * s) % 100 != 50
    ensures Percent(Hundredths(n))
         == if 100 * Significand(n, s) < 0x4000_0000 && 32 < (n * s) % 100 < 50 then n - 1 else n
  {
    SignificandError(n, s);
    if 100 * Significand(n, s) < 0x4000_0000 {
      PercentCoarse(n, s, j, u, z);
    } else {
      PercentFine(n, s, j, u, z);
    }
  }

  lemma PercentCoarse(n: nat, s: nat, j: nat, u: nat, z: nat)
    requires s == 128 * z && z > 0 && 1 <= n <= 99 && u == Pow2(j) && j > 0 && s * u == ONE
    requires n * s < 0x6400_0000 <= 2 * (n * s) && (n * s) % 100 != 50
    requires 0x2000_0000 <= 100 * Significand(n, s) < 0x4000_0000
    ensures Percent(Hundredths(n)) == if 32 < (n * s) % 100 < 50 then n - 1 else n
  {
    SevenBits(j);
    PercentAt(n, s, j, u, j + 6, 64);
    CoarseProduct(n, s, z);
  }

  lemma PercentFine(n: nat, s: nat, j: nat, u: nat, z: nat)
    requires s == 128 * z && z > 0 && 1 <= n <= 99 && u == Pow2(j) && j > 0 && s * u == ONE
    requires n * s < 0x6400_0000 <= 2 * (n * s) && (n * s) % 100 != 50
    requires 0x4000_0000 <= 100 * Significand(n, s) < 0x8000_0000
    ensures Percent(Hundredths(n)) == n
  {
    SevenBits(j);
    PercentAt(n, s, j, u, j + 7, 128);
    FineProduct(n, s, z);
  }

  lemma SevenBits(j: nat)
    ensures Pow2(j + 6) == 64 * Pow2(j) && Pow2(j + 7) == 128 * Pow2(j)
  {
    TwoBits(j);
    TwoBits(j + 2);
    TwoBits(j + 4);
    assert Pow2(j + 7) == 2 * Pow2(j + 6);
  }

  lemma TwoBits(j: nat)
    ensures Pow2(j + 2) == 4 * Pow2(j) && Pow2(j + 1) == 2 * Pow2(j)
  {
    assert Pow2(j + 2) == 2 * Pow2(j + 1);
  }

  lemma Ends(n: nat)
    requires n == 0 || n == 100
    ensures n == 0 ==> Hundredths(n) == 0
    ensures n == 100 ==> Hundredths(n) == ONE
    ensures Percent(Hundredths(n)) == n
  {
    if n == 100 {
      HundredHundredths(n);
      FullPercent(ONE);
    }
  }

  lemma HundredHundredths(n: nat)
    requires n == 100
    ensures Hundredths(n) == ONE
  {
    HigherPlaces(30);
    RoundedAt(n * ONE, 100, 0x100_0000, 31, 0x8000_0000);
  }

  lemma FullPercent(level: nat)
    requires level == ONE
    ensures Percent(level) == 100
  {
    HigherPlaces(30);
    PercentOf(0x80_0000, level, 0x80_0000, 0x8000_0000, 37, 64);
  }

  lemma HigherPlaces(j: nat)
    requires j == 30
    ensures Pow2(j + 1) == 0x8000_0000 && Pow2(j + 2) == 0x1_0000_0000 && Pow2(j + 7) == 0x20_0000_0000
  {
    Places();
    TwoBits(j);
    SevenBits(j);
  }

  /** The hundredths that survive the multiplication by 100 and the truncation to a byte. */
  lemma PercentHundredths(n: nat)
    requires n <= 100
    ensures Percent(Hundredths(n)) == if n == 53 || n == 59 then n - 1 else n
  {
    if n == 0 || n == 100 {
      Ends(n);
    } else {
      PercentInside(n);
    }
  }

  lemma HundredthsNear(n: nat)
    requires n <= 100
    ensures n * ONE - 0x40_0000_0000 < 100 * Hundredths(n) < n * ONE + 0x40_0000_0000
  {
    if n == 0 || n == 100 {
      Ends(n);
    } else {
      var g := UnitOf(n);
      UnitFits(n);
      UnitError(n);
      SignificandError(n, g.s);
      HundredthsAt(n, g.s, g.j, g.u);
      NearHundredth(n, 100 * Significand(n, g.s), g.s, g.u);
    }
  }

  lemma NearHundredth(n: nat, p: nat, s: nat, u: nat)
    requires s * u == ONE && n * s <= p + 50 && p <= n * s + 50 && u <= 0x4000_0000
    ensures n * ONE - 0x40_0000_0000 < p * u < n * ONE + 0x40_0000_0000
  {
    Regroup3(n, s, u);
    ProductMono(n * s, p + 50, u);
    ProductMono(p, n * s + 50, u);
    assert (p + 50) * u == p * u + 50 * u && (n * s + 50) * u == n * s * u + 50 * u;
  }

  /** Different hundredths are different floats, in the same order. */
  lemma HundredthsOrder(n: nat, m: nat)
    requires n < m <= 100
    ensures Hundredths(n) < Hundredths(m)
  {
    HundredthsNear(n);
    HundredthsNear(m);
  }

  lemma HundredthsAbove(n: nat)
    requires 100 <= n <= 255
    ensures Hundredths(n) >= ONE
  {
    HigherPlaces(30);
    if n < 200 {
      RoundedAt(n * ONE, 100, 0x100_0000, 31, 0x8000_0000);
    } else {
      RoundedAt(n * ONE, 100, 0x100_0000, 32, 0x1_0000_0000);
    }
  }

  // ----- tenths are hundredths

  lemma {:induction false} RoundedScaled(a: nat, b: nat, p: nat, k: nat)
    requires b > 0 && p > 0 && k > 0 && k * b > 0
    ensures Rounded(k * a, k * b, p) == Rounded(a, b, p)
    decreases if a >= b then a - b + 1 else 0
  {
    ScaledRoom(a, b, p, k);
    if a < b * p {
      NearestScaled(a, b, k);
      SmallRounded(k * a, k * b, p);
    } else {
      ProductMono(1, p, b);
      RoundedScaled(a, 2 * b, p, k);
      LargeRounded(k * a, k * b, p);
    }
  }

  lemma ScaledRoom(a: nat, b: nat, p: nat, k: nat)
    requires k > 0
    ensures a < b * p <==> k * a < k * b * p
    ensures k * (2 * b) == 2 * (k * b)
  {
    Regroup3(k, b, p);
    ProductLess(a, b * p, k);
  }

  lemma SmallRounded(a: nat, b: nat, p: nat)
    requires b > 0 && p > 0 && a < b * p
    ensures Rounded(a, b, p) == NearestEven(a, b)
  {
  }

  lemma LargeRounded(a: nat, b: nat, p: nat)
    requires b > 0 && p > 0 && a >= b * p
    ensures Rounded(a, b, p) == 2 * Rounded(a, 2 * b, p)
  {
  }

  lemma TenthsAreHundredths(k: nat)
    ensures Tenths(k) == Hundredths(10 * k)
  {
    RoundedScaled(k * ONE, 10, 0x100_0000, 10);
  }

  lemma TenthsRange(k: nat)
    requires k <= 15
    ensures k <= 10 ==> Tenths(k) <= ONE
    ensures Tenths(k) <= ONE + ONE / 2
  {
    TenthsAreHundredths(k);
    if k == 10 {
      Ends(10 * k);
    } else if k < 10 {
      HundredthsNear(10 * k);
    } else {
      HigherPlaces(30);
      RoundedAt(k * ONE, 10, 0x100_0000, 31, 0x8000_0000);
    }
  }

  // ----- bounds

  lemma NearestAtMost(a: nat, d: nat, q: nat)
    requires d > 0 && a <= q * d
    ensures NearestEven(a, d) <= q
  {
    var p, r := a / d, a % d;
    assert a == p * d + r;
    if p >= q {
      ProductMono(q, p, d);
    }
  }

  /** Rounding does not exceed a bound that needs no rounding. */
  lemma {:induction false} RoundedAtMost(a: nat, b: nat, p: nat, f: nat, j: nat, v: nat)
    requires b > 0 && p > 0 && f < p && v == Pow2(j) && a <= b * (f * v)
    ensures Rounded(a, b, p) <= f * v
    decreases j
  {
    if a < b * p {
      NearestAtMost(a, b, f * v);
    } else if j == 0 {
      ProductLess(f, p, b);
      assert false;
    } else {
      var h := Pow2(j - 1);
      Halved(b, f, h);
      RoundedAtMost(a, 2 * b, p, f, j - 1, h);
    }
  }

  lemma Halved(b: nat, f: nat, h: nat)
    ensures b * (f * (2 * h)) == 2 * b * (f * h) && f * (2 * h) == 2 * (f * h)
  {
  }

  /** More than half of the smallest value is not rounded to nothing. */
  lemma {:induction false} RoundedPositive(a: nat, b: nat, p: nat)
    requires b > 0 && p >= 2 && 2 * a > b
    ensures Rounded(a, b, p) > 0
    decreases if a >= b then a - b + 1 else 0
  {
    if a < b * p {
      NearestPositive(a, b);
    } else {
      ProductMono(2, p, b);
      if a > b {
        RoundedPositive(a, 2 * b, p);
      }
    }
  }

  lemma NearestPositive(a: nat, d: nat)
    requires d > 0 && 2 * a > d
    ensures NearestEven(a, d) > 0
  {
    if a < d {
      QuotientIs(a, d, 0, a);
    }
  }

  lemma {:induction false} RoundedAtLeast(a: nat, b: nat, p: nat, j: nat)
    requires b > 0 && p >= 2 && b * Pow2(j) <= a
    ensures Pow2(j) <= Rounded(a, b, p)
    decreases j
  {
    if a < b * p {
      NearestAtLeast(a, b, Pow2(j));
    } else if j == 0 {
      RoundedPositive(a, b, p);
    } else {
      TwiceLess(b, j);
      RoundedAtLeast(a, 2 * b, p, j - 1);
    }
  }

  lemma NearestAtLeast(a: nat, d: nat, q: nat)
    requires d > 0 && d * q <= a
    ensures q <= NearestEven(a, d)
  {
    var p, r := a / d, a % d;
    assert a == p * d + r;
    if p < q {
      ProductMono(p + 1, q, d);
      OneMore(p, d);
      assert false;
    }
  }

  // ----- order and error

  lemma NearestOrdered(a: nat, b: nat, d: nat)
    requires d > 0 && a <= b
    ensures NearestEven(a, d) <= NearestEven(b, d)
  {
    var p, q := a / d, b / d;
    assert a == p * d + a % d && b == q * d + b % d;
    if q < p {
      OneMore(q, d);
      ProductMono(q + 1, p, d);
      assert false;
    }
    if p < q {
      NearestAtMost(a, d, p + 1);
      OneMore(p, d);
    }
  }

  /** What does not fit p significant units is at least p after rounding. */
  lemma {:induction false} RoundedLarge(a: nat, b: nat, p: nat)
    requires b > 0 && p > 0 && p % 2 == 0 && b * p <= a
    ensures p <= Rounded(a, b, p)
    decreases a, if a >= b then a - b + 1 else 0
  {
    HalfFits(b, p);
    LargeRounded(a, b, p);
    if a < 2 * b * p {
      SmallRounded(a, 2 * b, p);
      NearestAtLeast(a, 2 * b, p / 2);
    } else {
      ProductMono(1, p, b);
      RoundedLarge(a, 2 * b, p);
    }
  }

  lemma HalfFits(b: nat, p: nat)
    requires p % 2 == 0
    ensures 2 * b * (p / 2) == b * p
  {
    Regroup3(b, 2, p / 2);
    assert 2 * (p / 2) == p;
  }

  /** Rounding keeps the order. */
  lemma {:induction false} RoundedOrdered(a: nat, c: nat, b: nat, p: nat)
    requires b > 0 && p > 0 && p % 2 == 0 && a <= c
    ensures Rounded(a, b, p) <= Rounded(c, b, p)
    decreases if c >= b then c - b + 1 else 0
  {
    if c < b * p {
      NearestOrdered(a, c, b);
    } else if a < b * p {
      ProductIs(p, b);
      NearestAtMost(a, b, p);
      RoundedLarge(c, b, p);
    } else {
      ProductMono(1, p, b);
      RoundedOrdered(a, c, 2 * b, p);
      LargeRounded(a, b, p);
      LargeRounded(c, b, p);
    }
  }

  lemma ProductIs(p: nat, b: nat)
    ensures p * b == b * p
  {
  }

  /** Twice the distance of x * b from a is at most e. */
  predicate Near(x: nat, b: nat, a: nat, e: nat) {
    2 * (x * b) <= 2 * a + e && 2 * a <= 2 * (x * b) + e
  }

  lemma NearestNear(a: nat, b: nat)
    requires b > 0
    ensures Near(NearestEven(a, b), b, a, b)
  {
    var q, r := a / b, a % b;
    assert a == q * b + r;
    OneMore(q, b);
  }

  /** Rounding errs by at most half a unit in the last place. */
  lemma {:induction false} RoundedNear(a: nat, b: nat, p: nat, j: nat, u: nat)
    requires b > 0 && p > 0 && u == Pow2(j) && a < b * p * u
    ensures Near(Rounded(a, b, p), b, a, b * u)
    decreases j
  {
    if a < b * p {
      SmallNear(a, b, p, u);
    } else if j > 0 {
      var v := Pow2(j - 1);
      TwiceUnit(b, p, v);
      RoundedNear(a, 2 * b, p, j - 1, v);
      LargeNear(a, b, p, v);
    }
  }

  lemma SmallNear(a: nat, b: nat, p: nat, u: nat)
    requires b > 0 && p > 0 && u >= 1 && a < b * p
    ensures Near(Rounded(a, b, p), b, a, b * u)
  {
    NearestNear(a, b);
    ProductMono(1, u, b);
    ProductIs(u, b);
  }

  lemma LargeNear(a: nat, b: nat, p: nat, v: nat)
    requires b > 0 && p > 0 && a >= b * p && Near(Rounded(a, 2 * b, p), 2 * b, a, 2 * b * v)
    ensures Near(Rounded(a, b, p), b, a, b * (2 * v))
  {
    NearHalved(Rounded(a, 2 * b, p), a, b, v);
    LargeRounded(a, b, p);
  }

  lemma NearHalved(r: nat, a: nat, b: nat, v: nat)
    requires Near(r, 2 * b, a, 2 * b * v)
    ensures Near(2 * r, b, a, b * (2 * v))
  {
    Regroup3(2, r, b);
    Regroup3(r, 2, b);
    ProductIs(2, r);
    TwiceUnit(b, 1, v);
  }

  lemma TwiceUnit(b: nat, p: nat, v: nat)
    ensures b * p * (2 * v) == 2 * b * p * v && 2 * b * v == b * (2 * v)
  {
  }
}
