/** One turn of each CRC loop of the driver, on unmasked machine registers, compared with the
    ideal register of CrcRegister. */
module CrcSteps {
  import opened Gf2
  import opened CrcRegister
  import opened Mirroring

  lemma {:induction false} LowOfTwice(a: nat, w: nat)
    ensures Low(2 * Low(a, w), w) == Low(2 * a, w)
  {
    if w > 0 {
      LowLow(a, w - 1, w);
    }
  }

  lemma {:induction false} LowOfShr(a: nat, j: nat, k: nat)
    ensures Low(Shr(a, j), k) == Shr(Low(a, j + k), j)
    decreases j
  {
    if j > 0 {
      LowOfShr(a / 2, j - 1, k);
      assert Low(a, j + k) / 2 == Low(a / 2, j - 1 + k);
    }
  }

  /** What a left shift keeps in the low w bits depends on the low w bits alone. */
  lemma {:induction false} LowOfShlOfLow(a: nat, k: nat, w: nat)
    ensures Low(Shl(Low(a, w), k), w) == Low(Shl(a, k), w)
    decreases k
  {
    if k == 0 {
      LowLow(a, w, w);
    } else {
      LowOfShlOfLow(a, k - 1, w);
      LowOfTwice(Shl(a, k - 1), w);
      LowOfTwice(Shl(Low(a, w), k - 1), w);
    }
  }

  lemma {:induction false} ToBitsOfLow(v: nat, n: nat)
    ensures ToBits(Low(v, n), n) == ToBits(v, n)
    decreases n
  {
    if n > 0 {
      ToBitsOfLow(v / 2, n - 1);
      assert Low(v, n) / 2 == Low(v / 2, n - 1) && Low(v, n) % 2 == v % 2;
    }
  }

  /** The message bits still waiting at the top of the register: the first of them decides. */
  lemma WaitingTop(g: Generator, c: nat, p: nat, rest: nat, j: nat)
    requires g.Valid() && 1 <= j <= g.width
    requires Low(p, g.width) == Xor(c, Shl(rest, g.width - j))
    ensures Bit(p, g.width - 1) == (Bit(c, g.width - 1) != Bit(rest, j - 1))
  {
    var w := g.width;
    BitOfLow(p, w - 1, w);
    XorBit(c, Shl(rest, w - j), w - 1);
    ShrUndoesShl(rest, w - j, j - 1);
  }

  /** ... and the others move up with the register. */
  lemma WaitingMoves(g: Generator, c: nat, p: nat, rest: nat, j: nat)
    requires g.Valid() && 1 <= j <= g.width
    requires Low(p, g.width) == Xor(c, Shl(rest, g.width - j))
    ensures Low(2 * p, g.width) == Xor(Low(2 * c, g.width), Shl(Low(rest, j - 1), g.width - (j - 1)))
  {
    var w := g.width;
    LowOfTwice(p, w);
    XorDouble(c, Shl(rest, w - j));
    XorLow(2 * c, 2 * Shl(rest, w - j), w);
    assert 2 * Shl(rest, w - j) == Shl(rest, w - (j - 1));
    LowOfShl(rest, w - (j - 1), j - 1);
  }

  /** Truncation to a 32-bit word keeps the low w bits. */
  lemma TruncationKeepsLow(a: nat, w: nat, word: nat)
    requires w <= word && Pow2(word) == 0x1_0000_0000
    ensures Low(a % 0x1_0000_0000, w) == Low(a, w)
  {
    ShiftsAreArithmetic(a, word);
    ScaledBy(Shr(a, word), Pow2(word), 0x1_0000_0000);
    WordRemainder(a, Shr(a, word), Low(a, word));
    LowLow(a, w, word);
  }

  lemma ScaledBy(q: nat, d: nat, e: nat)
    requires d == e
    ensures q * d == q * e
  {
  }

  lemma WordRemainder(a: nat, q: nat, r: nat)
    requires a == q * 0x1_0000_0000 + r && r < 0x1_0000_0000
    ensures a % 0x1_0000_0000 == r
  {
  }

  lemma ByteIsLow(a: nat, k: nat)
    requires Pow2(k) == 256
    ensures Low(a, k) == a % 256
  {
    ShiftsAreArithmetic(a, k);
  }

  /** A conditional xor of the whole polynomial onto a shifted word, seen through the mask. */
  lemma MaskedXor(w: nat, a: nat, shifted: nat, polynomial: nat, poly: nat, flip: bool)
    requires Low(shifted, w) == Low(a, w) && poly == Low(polynomial, w)
    ensures Low(if flip then Xor(shifted, polynomial) else shifted, w)
         == if flip then Xor(Low(a, w), poly) else Low(a, w)
  {
    XorLow(shifted, polynomial, w);
  }

  /** One turn of the byte loop: shift, and xor the polynomial when the top bit was set. */
  lemma DivisionStep(g: Generator, c: nat, p: nat, rest: nat, j: nat, polynomial: nat, shifted: nat)
    requires g.Valid() && 1 <= j <= g.width && g.poly == Low(polynomial, g.width)
    requires Low(p, g.width) == Xor(c, Shl(rest, g.width - j))
    requires Low(shifted, g.width) == Low(2 * p, g.width)
    ensures Low(if Bit(p, g.width - 1) then Xor(shifted, polynomial) else shifted, g.width)
         == Xor(FeedBit(g, c, Bit(rest, j - 1)), Shl(Low(rest, j - 1), g.width - (j - 1)))
  {
    var w, low, wait := g.width, Low(2 * c, g.width), Shl(Low(rest, j - 1), g.width - (j - 1));
    WaitingTop(g, c, p, rest, j);
    WaitingMoves(g, c, p, rest, j);
    MaskedXor(w, 2 * p, shifted, polynomial, g.poly, Bit(p, w - 1));
    XorAssoc(low, wait, g.poly);
    XorComm(wait, g.poly);
    XorAssoc(low, g.poly, wait);
  }

  /** The loop for widths below 8 takes the message bit from the top of the byte instead. */
  lemma SerialStep(g: Generator, p: nat, dataByte: nat, polynomial: nat, shifted: nat)
    requires g.Valid() && g.poly == Low(polynomial, g.width)
    requires Low(shifted, g.width + 1) == Low(2 * p, g.width + 1)
    ensures Low(if Bit(Xor(dataByte, shifted), g.width) then Xor(shifted, polynomial) else shifted, g.width)
         == FeedBit(g, Low(p, g.width), Bit(dataByte, g.width))
  {
    var w := g.width;
    XorBit(dataByte, shifted, w);
    BitOfLow(shifted, w, w + 1);
    BitOfLow(2 * p, w, w + 1);
    BitOfLow(p, w - 1, w);
    assert Bit(2 * p, w) == Bit(p, w - 1);
    LowLow(shifted, w, w + 1);
    LowLow(2 * p, w, w + 1);
    MaskedXor(w, 2 * p, shifted, polynomial, g.poly, Bit(Xor(dataByte, shifted), w));
    LowOfTwice(p, w);
  }

  lemma OneBitMore(g: Generator, c: nat, v: nat, n: nat, j: nat)
    requires g.width >= 1 && 1 <= j <= n
    ensures Register(g, c, ToBits(v, n)[..n - (j - 1)])
         == FeedBit(g, Register(g, c, ToBits(v, n)[..n - j]), Bit(v, j - 1))
  {
    BitsAt(v, n, n - j);
    assert ToBits(v, n)[..n - (j - 1)][..n - j] == ToBits(v, n)[..n - j];
  }

  /** The word of the byte loop when j of the n bits of v are still to be divided. */
  ghost predicate Dividing(g: Generator, c: nat, v: nat, n: nat, j: nat, p: nat)
    requires g.width >= 1 && j <= n <= g.width
  {
    Low(p, g.width) == Xor(Register(g, c, ToBits(v, n)[..n - j]), Shl(Low(v, j), g.width - j))
  }

  lemma DividingStarts(g: Generator, v: nat, n: nat, p: nat)
    requires g.Valid() && n <= g.width && v < Pow2(n)
    ensures Dividing(g, Low(p, g.width), v, n, n, Xor(p, Shl(v, g.width - n)))
  {
    var w := g.width;
    LowBound(v, n);
    ShlBound(v, n, w - n);
    LowBound(Shl(v, w - n), w);
    XorLow(p, Shl(v, w - n), w);
    assert ToBits(v, n)[..0] == [];
  }

  lemma DividingGoesOn(g: Generator, c: nat, v: nat, n: nat, j: nat, p: nat, polynomial: nat, shifted: nat)
    requires g.Valid() && 1 <= j <= n <= g.width && g.poly == Low(polynomial, g.width)
    requires Dividing(g, c, v, n, j, p) && Low(shifted, g.width) == Low(2 * p, g.width)
    ensures Dividing(g, c, v, n, j - 1, if Bit(p, g.width - 1) then Xor(shifted, polynomial) else shifted)
  {
    var r := Register(g, c, ToBits(v, n)[..n - j]);
    DivisionStep(g, r, p, Low(v, j), j, polynomial, shifted);
    OneBitMore(g, c, v, n, j);
    assert Bit(Low(v, j), j - 1) == Bit(v, j - 1) && Low(Low(v, j), j - 1) == Low(v, j - 1) by {
      BitOfLow(v, j - 1, j);
      LowLow(v, j - 1, j);
    }
  }

  lemma DividingEnds(g: Generator, c: nat, v: nat, n: nat, p: nat)
    requires 1 <= g.width && n <= g.width && Dividing(g, c, v, n, 0, p)
    ensures Low(p, g.width) == Register(g, c, ToBits(v, n))
  {
    ShlOne(g.width);
    XorZero(Register(g, c, ToBits(v, n)));
    assert ToBits(v, n)[..n] == ToBits(v, n);
  }

  /** The word and the byte of the serial loop when j of the n bits of v are still to come. */
  ghost predicate Serial(g: Generator, c: nat, v: nat, n: nat, j: nat, p: nat, dataByte: nat)
    requires g.width >= 1 && j <= n
  {
    && Low(p, g.width) == Register(g, c, ToBits(v, n)[..n - j])
    && dataByte == Low(Shl(v, n - j), n)
  }

  lemma SerialStarts(g: Generator, v: nat, n: nat, p: nat)
    requires g.width >= 1 && v < Pow2(n)
    ensures Serial(g, Low(p, g.width), v, n, n, p, v)
  {
    LowBound(v, n);
    assert ToBits(v, n)[..0] == [];
  }

  lemma SerialGoesOn(g: Generator, c: nat, v: nat, n: nat, j: nat, p: nat, dataByte: nat, polynomial: nat, shifted: nat)
    requires g.Valid() && 1 <= j <= n == g.width + 1 && g.poly == Low(polynomial, g.width)
    requires Serial(g, c, v, n, j, p, dataByte) && Low(shifted, n) == Low(2 * p, n)
    ensures Serial(g, c, v, n, j - 1,
                   if Bit(Xor(dataByte, shifted), g.width) then Xor(shifted, polynomial) else shifted,
                   Low(2 * dataByte, n))
  {
    SerialBit(v, n, j);
    SerialRegister(g, c, v, n, j, p, dataByte, polynomial, shifted);
  }

  lemma SerialRegister(g: Generator, c: nat, v: nat, n: nat, j: nat, p: nat, dataByte: nat, polynomial: nat, shifted: nat)
    requires g.Valid() && 1 <= j <= n == g.width + 1 && g.poly == Low(polynomial, g.width)
    requires Low(p, g.width) == Register(g, c, ToBits(v, n)[..n - j]) && Low(shifted, n) == Low(2 * p, n)
    requires Bit(dataByte, n - 1) == Bit(v, j - 1)
    ensures Low(if Bit(Xor(dataByte, shifted), g.width) then Xor(shifted, polynomial) else shifted, g.width)
         == Register(g, c, ToBits(v, n)[..n - (j - 1)])
  {
    SerialStep(g, p, dataByte, polynomial, shifted);
    OneBitMore(g, c, v, n, j);
  }

  /** Shifting the byte left brings its bits to the top one after the other. */
  lemma SerialBit(v: nat, n: nat, j: nat)
    requires 1 <= j <= n
    ensures Bit(Low(Shl(v, n - j), n), n - 1) == Bit(v, j - 1)
    ensures Low(2 * Low(Shl(v, n - j), n), n) == Low(Shl(v, n - (j - 1)), n)
  {
    BitOfLow(Shl(v, n - j), n - 1, n);
    ShrUndoesShl(v, n - j, j - 1);
    LowOfTwice(Shl(v, n - j), n);
  }

  lemma SerialEnds(g: Generator, c: nat, v: nat, n: nat, p: nat, dataByte: nat)
    requires g.width >= 1 && Serial(g, c, v, n, 0, p, dataByte)
    ensures Low(p, g.width) == Register(g, c, ToBits(v, n))
  {
    assert ToBits(v, n)[..n] == ToBits(v, n);
  }

  // ----- table forms

  /** An entry of a table indexed by k bits: the remainder of those bits placed above the
      register, that is, k division steps of the index put in the top bits. */
  function TableEntry(g: Generator, k: nat, v: nat): nat
    requires g.width >= 1
  {
    Register(g, 0, ToBits(v, k))
  }

  lemma EntryFits(g: Generator, k: nat, v: nat)
    requires g.Valid()
    ensures Low(TableEntry(g, k, v), g.width) == TableEntry(g, k, v)
  {
    RegisterIsRemainder(g, 0, ToBits(v, k));
    LowBound(TableEntry(g, k, v), g.width);
  }

  /** The index of the word, cut to k bits, is the index of the masked register. */
  lemma IndexOfWord(p: nat, v: nat, w: nat, k: nat)
    requires k <= w && v < Pow2(k)
    ensures Low(Xor(v, Shr(p, w - k)), k) == Xor(v, Shr(Low(p, w), w - k)) < Pow2(k)
  {
    LowBound(v, k);
    LowBound(Xor(v, Shr(p, w - k)), k);
    XorLow(v, Shr(p, w - k), k);
    LowOfShr(p, w - k, k);
  }

  /** As the program computes it. */
  lemma ByteIndex(p: nat, v: nat, w: nat, k: nat)
    requires k <= w && v < Pow2(k) == 256
    ensures Xor(v, Shr(p, w - k)) % 256 == Xor(v, Shr(Low(p, w), w - k)) < 256
  {
    IndexOfWord(p, v, w, k);
    ByteIsLow(Xor(v, Shr(p, w - k)), k);
  }

  /** One turn of a table loop on the masked register, with whatever entry was looked up. */
  function TableTurn(entry: nat, reg: nat, k: nat, w: nat): nat {
    Low(Xor(entry, Low(Shl(reg, k), w)), w)
  }

  /** On the machine word, with its unmasked shift. */
  lemma TableWord(w: nat, k: nat, p: nat, entry: nat, shifted: nat)
    requires Low(shifted, w) == Low(Shl(p, k), w)
    ensures Low(Xor(entry, shifted), w) == TableTurn(entry, Low(p, w), k, w)
  {
    XorLow(entry, shifted, w);
    XorLow(entry, Low(Shl(Low(p, w), k), w), w);
    LowOfShlOfLow(p, k, w);
    LowLow(Shl(p, k), w, w);
  }

  /** A turn divides by k bits exactly when the entry looked up is the right one. */
  lemma TableTurnExact(g: Generator, entry: nat, reg: nat, v: nat, k: nat)
    requires g.Valid() && k <= g.width && v < Pow2(k) && reg < Pow2(g.width)
    ensures var index := Xor(v, Shr(reg, g.width - k));
      && index < Pow2(k)
      && (TableTurn(entry, reg, k, g.width) == Register(g, reg, ToBits(v, k)) <==> Low(entry, g.width) == TableEntry(g, k, index))
  {
    var w, index, rest := g.width, Xor(v, Shr(reg, g.width - k)), Low(Shl(reg, k), g.width);
    RegisterByTable(g, reg, v, k);
    XorLow(entry, rest, w);
    LowLow(Shl(reg, k), w, w);
    XorCancel(Low(entry, w), rest);
    XorCancel(TableEntry(g, k, index), rest);
  }

  // ----- the right-shifting form

  /** One right-shifting division step with a mirrored polynomial. */
  function RightStep(p: nat, polynomial: nat): nat {
    if p % 2 == 1 then Xor(p / 2, polynomial) else p / 2
  }

  function RightSteps(n: nat, p: nat, polynomial: nat): nat
    decreases n
  {
    if n == 0 then p else RightSteps(n - 1, RightStep(p, polynomial), polynomial)
  }

  function Zeros(n: nat): seq<bool> {
    if n == 0 then [] else Zeros(n - 1) + [false]
  }

  lemma HalfBound(p: nat, w: nat)
    requires w >= 1 && p < Pow2(w)
    ensures p / 2 < Pow2(w - 1) < Pow2(w)
  {
  }

  /** Halving a number moves its mirror up by one bit. */
  lemma MirrorOfHalf(w: nat, p: nat)
    requires w >= 1 && p < Pow2(w)
    ensures Low(2 * Mirror(w, p), w) == Mirror(w, p / 2)
    ensures Bit(Mirror(w, p), w - 1) == (p % 2 == 1)
  {
    var t, m := Digit(p % 2 == 1), Mirror(w - 1, p / 2);
    MirrorBound(w - 1, p / 2);
    MirrorTop(w, p);
    DoubledTop(t, m, w, Mirror(w, p));
    HalvedTop(w, p / 2);
  }

  lemma HalvedTop(w: nat, h: nat)
    requires w >= 1 && h < Pow2(w - 1)
    ensures Mirror(w, h) == 2 * Mirror(w - 1, h)
  {
    MirrorOfHigh(w, h, 1);
    assert Shl(Mirror(w - 1, h), 1) == 2 * Shl(Mirror(w - 1, h), 0);
  }

  lemma MirrorTop(w: nat, p: nat)
    requires w >= 1
    ensures Mirror(w, p) == Shl(Digit(p % 2 == 1), w - 1) + Mirror(w - 1, p / 2)
  {
  }

  lemma DoubledTop(t: nat, m: nat, w: nat, c: nat)
    requires w >= 1 && t <= 1 && m < Pow2(w - 1) && c == Shl(t, w - 1) + m
    ensures Bit(c, w - 1) == (t == 1) && Low(2 * c, w) == 2 * m
  {
    Joined(t, m, w - 1);
    Joined(t, 2 * m, w);
  }

  /** Unused high bits become unused low bits. */
  lemma MirrorOfHigh(w: nat, hi: nat, k: nat)
    requires k <= w && hi < Pow2(w - k)
    ensures Mirror(w, hi) == Shl(Mirror(w - k, hi), k)
  {
    MirrorJoin(k, 0, w - k, hi);
    MirrorZero(k);
    ShlOne(w - k);
  }

  /** Stepping right on a number is stepping left on its mirror. */
  lemma RightStepMirrors(g: Generator, p: nat)
    requires g.Valid() && p < Pow2(g.width)
    ensures Mirror(g.width, RightStep(p, Mirror(g.width, g.poly))) == FeedBit(g, Mirror(g.width, p), false)
    ensures RightStep(p, Mirror(g.width, g.poly)) < Pow2(g.width)
  {
    var w, q := g.width, Mirror(g.width, g.poly);
    HalfBound(p, w);
    MirrorBound(w, g.poly);
    XorBound(p / 2, q, w);
    MirrorXor(w, p / 2, q);
    MirrorTwice(w, g.poly);
    LowBound(g.poly, w);
    MirrorOfHalf(w, p);
  }

  lemma {:induction false} RightStepsMirror(g: Generator, n: nat, p: nat)
    requires g.Valid() && p < Pow2(g.width)
    ensures RightSteps(n, p, Mirror(g.width, g.poly)) < Pow2(g.width)
    ensures Mirror(g.width, RightSteps(n, p, Mirror(g.width, g.poly))) == Register(g, Mirror(g.width, p), Zeros(n))
    decreases n
  {
    if n > 0 {
      RightStepMirrors(g, p);
      RightStepsMirror(g, n - 1, RightStep(p, Mirror(g.width, g.poly)));
      ZeroFirst(g, Mirror(g.width, p), n);
    }
  }

  lemma ZeroFirst(g: Generator, c: nat, n: nat)
    requires g.width >= 1 && n > 0
    ensures Register(g, c, Zeros(n)) == Register(g, FeedBit(g, c, false), Zeros(n - 1))
  {
    ZerosRotate(n - 1);
    RegisterConcat(g, c, [false], Zeros(n - 1));
    assert [false][..0] == [];
    assert Register(g, c, [false]) == FeedBit(g, c, false);
  }

  lemma {:induction false} ZerosRotate(n: nat)
    ensures Zeros(n + 1) == [false] + Zeros(n)
  {
    if n > 0 {
      ZerosRotate(n - 1);
    }
  }

  lemma {:induction false} ZerosValue(n: nat)
    ensures |Zeros(n)| == n && Value(Zeros(n)) == 0
  {
    if n > 0 {
      ZerosValue(n - 1);
      assert Zeros(n)[..n - 1] == Zeros(n - 1);
    }
  }

  /** An entry of the right-shifting table indexed by k bits: k right-shifting steps. */
  function RightEntry(g: Generator, k: nat, v: nat): nat {
    RightSteps(k, v, Mirror(g.width, g.poly))
  }

  lemma RightEntryIsRemainder(g: Generator, k: nat, v: nat)
    requires g.Valid() && k <= g.width && v < Pow2(k)
    ensures Mirror(g.width, RightEntry(g, k, v)) == TableEntry(g, k, Mirror(k, v))
    ensures RightEntry(g, k, v) < Pow2(g.width)
  {
    var w := g.width;
    Pow2Mono(k, w);
    RightStepsMirror(g, k, v);
    MirrorBound(w, v);
    MirroredDividend(g, k, v);
    ShlOne(w);
    SameDividend(g, Mirror(w, v), Zeros(k), 0, ToBits(Mirror(k, v), k));
  }

  /** Steps on an index held in the register divide what the same bits, fed as a message
      to an empty register, divide. */
  lemma MirroredDividend(g: Generator, k: nat, v: nat)
    requires k <= g.width && v < Pow2(k)
    ensures Dividend(g, Mirror(g.width, v), Zeros(k)) == Dividend(g, 0, ToBits(Mirror(k, v), k))
  {
    MirrorBound(k, v);
    MirroredShift(g.width, k, v);
    DividendOfIndex(g, Mirror(k, v), k);
    DividendOfZeros(g, Mirror(g.width, v), k);
  }

  lemma MirroredShift(w: nat, k: nat, v: nat)
    requires k <= w && v < Pow2(k)
    ensures Shl(Mirror(w, v), k) == Shl(Mirror(k, v), w)
  {
    MirrorOfHigh(w, v, w - k);
    ShlAdd(Mirror(k, v), w - k, k);
  }

  lemma DividendOfIndex(g: Generator, m: nat, k: nat)
    requires m < Pow2(k)
    ensures Dividend(g, 0, ToBits(m, k)) == Shl(m, g.width)
  {
    DividendOfNumber(g, 0, m, k);
    ShlOne(k);
    XorZero(Shl(m, g.width));
  }

  lemma DividendOfZeros(g: Generator, c: nat, k: nat)
    ensures Dividend(g, c, Zeros(k)) == Shl(c, k)
  {
    ZerosValue(k);
    ShlOne(g.width);
    XorZero(Shl(c, k));
  }

  /** One turn of the right-shifting table loop. */
  function RightTableStep(g: Generator, k: nat, p: nat, v: nat): nat {
    Xor(Shr(p, k), RightEntry(g, k, Low(Xor(p, v), k)))
  }

  lemma RightTableStepMirrors(g: Generator, k: nat, p: nat, v: nat)
    requires g.Valid() && k <= g.width && p < Pow2(g.width)
    ensures RightTableStep(g, k, p, v) < Pow2(g.width)
    ensures Mirror(g.width, RightTableStep(g, k, p, v)) == Register(g, Mirror(g.width, p), ToBits(Mirror(k, v), k))
  {
    var w, index, hi := g.width, Low(Xor(p, v), k), Shr(p, k);
    LowBound(Xor(p, v), k);
    RightEntryIsRemainder(g, k, index);
    ShrBelow(p, k, w - k);
    Pow2Mono(w - k, w);
    XorBound(hi, RightEntry(g, k, index), w);
    MirrorXor(w, hi, RightEntry(g, k, index));
    MirrorOfHigh(w, hi, k);
    MirrorBound(w, p);
    MirrorBound(k, v);
    RegisterByTable(g, Mirror(w, p), Mirror(k, v), k);
    MirrorSplits(w, p, k);
    MirroredIndex(p, v, k);
    XorComm(Mirror(w, hi), Mirror(w, RightEntry(g, k, index)));
  }

  /** The low k bits of a word are the top k bits of its mirror; the rest moves up. */
  lemma MirrorSplits(w: nat, p: nat, k: nat)
    requires k <= w && p < Pow2(w)
    ensures Shr(Mirror(w, p), w - k) == Mirror(k, p)
    ensures Low(Shl(Mirror(w, p), k), w) == Shl(Mirror(w - k, Shr(p, k)), k)
  {
    Split(p, k);
    LowBound(p, k);
    MirrorLow(k, p);
    MirrorJoin(w - k, Shr(p, k), k, Low(p, k));
    MirrorBound(w - k, Shr(p, k));
    Joined(Mirror(k, p), Mirror(w - k, Shr(p, k)), w - k);
    MovedUp(Mirror(w, p), w, k);
  }

  lemma MirroredIndex(p: nat, v: nat, k: nat)
    ensures Mirror(k, Low(Xor(p, v), k)) == Xor(Mirror(k, v), Mirror(k, p))
  {
    MirrorLow(k, Xor(p, v));
    MirrorXor(k, p, v);
    XorComm(Mirror(k, p), Mirror(k, v));
  }

  /** The mirrored bits of a number are those of its low half, then those of its high half. */
  lemma MirroredHalves(b: nat, k: nat)
    ensures ToBits(Mirror(k + k, b), k + k) == ToBits(Mirror(k, b), k) + ToBits(Mirror(k, Shr(b, k)), k)
  {
    Split(b, k);
    LowBound(b, k);
    MirrorJoin(k, Shr(b, k), k, Low(b, k));
    MirrorLow(k, b);
    MirrorBound(k, Shr(b, k));
    BitsConcat(Mirror(k, b), k, Mirror(k, Shr(b, k)), k);
  }
}
