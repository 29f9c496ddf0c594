/** Every word of the byte tables in ROM is the remainder it stands for, but for the last four of
    the CRC-16/IBM table. */
module RomWords {
  import opened Machine
  import opened Gf2
  import opened CrcRegister
  import opened CrcSteps
  import opened MbedCrc
  import opened BitVectors
  import opened CrcTables
  import opened TableAlgebra
  import opened ShortTables

  /** The entries as numbers of the width of their C type. */
  function Entries(rows: seq<seq<bv40>>, w: nat): (entries: seq<uint32>)
    requires Shape(rows) && w <= 32
    ensures |entries| == 256
  {
    seq(256, v requires 0 <= v < 256 => Word(rows[v / 16][v % 16], w))
  }

  function Word(x: bv40, w: nat): uint32
    requires w <= 32
  {
    WordSize();
    Pow2Mono(w, 32);
    Nat(x, w)
  }

  lemma HoldsEntries(g: Generator, n: nat, rows: seq<seq<bv40>>)
    requires 1 <= g.width <= 32 && Holds(EntryOf(g, n), NumberOf(g.width), rows)
    ensures forall v: nat :: v < 256 ==> Entries(rows, g.width)[v] == TableEntry(g, n, v)
  {
    forall v: nat | v < 256
      ensures Entries(rows, g.width)[v] == TableEntry(g, n, v)
    {
      HoldsEntry(g, n, rows, v / 16, v % 16);
    }
  }

  lemma HoldsEntry(g: Generator, n: nat, rows: seq<seq<bv40>>, i: nat, j: nat)
    requires 1 <= g.width <= 32 && Holds(EntryOf(g, n), NumberOf(g.width), rows) && i < 16 && j < 16
    ensures Word(rows[i][j], g.width) == TableEntry(g, n, 16 * i + j)
  {
    assert NumberOf(g.width)(rows[i][j]) == EntryOf(g, n)(16 * i + j);
  }

  // ----- words of forty bits

  function NumberOf(w: nat): bv40 -> nat {
    (x: bv40) => Nat(x, w)
  }

  const BOTH: (bv40, bv40) -> bv40 := (x: bv40, y: bv40) => x ^ y

  lemma NumbersLinear(w: nat)
    ensures Linear(BOTH, NumberOf(w)) && NumberOf(w)(0) == 0
  {
    NatOfZero(w);
    var number := NumberOf(w);
    forall x: bv40, y: bv40
      ensures number(BOTH(x, y)) == Xor(number(x), number(y))
    {
      NatXor(x, y, w);
    }
  }

  /** The bit above the low w bits. */
  predicate Limit(w: nat, limit: bv40) {
    (w == 8 && limit == 0x100) || (w == 16 && limit == 0x1_0000) || (w == 32 && limit == 0x1_0000_0000)
  }

  lemma DroppedBy(x: bv40, w: nat, limit: bv40)
    requires Limit(w, limit)
    ensures limit == 0x100 ==> Dropped(x, w) == x >> 8
    ensures limit == 0x1_0000 ==> Dropped(x, w) == x >> 16
    ensures limit == 0x1_0000_0000 ==> Dropped(x, w) == x >> 32
  {
    if w == 8 {
      DroppedEight(x);
    } else if w == 16 {
      DroppedSixteen(x);
    } else {
      DroppedThirtyTwo(x);
    }
  }

  lemma BelowLimit(x: bv40, w: nat, limit: bv40)
    requires Limit(w, limit) && x < limit
    ensures Dropped(x, w) == 0
  {
    DroppedBy(x, w, limit);
  }

  lemma LimitDropped(w: nat, limit: bv40)
    requires Limit(w, limit)
    ensures Dropped(limit, w) == 1
  {
    DroppedBy(limit, w, limit);
  }

  lemma NumberBelowLimit(x: bv40, w: nat, limit: bv40)
    requires Limit(w, limit) && x < limit
    ensures Nat(x, w + 1) == Nat(x, w)
  {
    BelowLimit(x, w, limit);
    NothingOnTop(x, w);
  }

  lemma NothingOnTop(x: bv40, w: nat)
    requires Dropped(x, w) == 0
    ensures Nat(x, w + 1) == Nat(x, w)
  {
    NatTop(x, w);
  }

  predicate Doubles(x: bv40, y: bv40, divisor: bv40, limit: bv40) {
    x < 0x80_0000_0000 && y < limit && (y == x << 1 || y == (x << 1) ^ divisor)
  }

  lemma DoubledNumber(x: bv40, y: bv40, divisor: bv40, limit: bv40, w: nat)
    requires Doubles(x, y, divisor, limit)
    ensures Nat(y, w + 1) == 2 * Nat(x, w) || Nat(y, w + 1) == Xor(2 * Nat(x, w), Nat(divisor, w + 1))
  {
    NatTwice(x, w);
    if y != x << 1 {
      NatXor(x << 1, divisor, w + 1);
    }
  }

  lemma DoubledBelowLimit(x: bv40, y: bv40, divisor: bv40, limit: bv40, w: nat)
    requires Limit(w, limit) && Doubles(x, y, divisor, limit)
    ensures Nat(y, w) == 2 * Nat(x, w) || Nat(y, w) == Xor(2 * Nat(x, w), Nat(divisor, w + 1))
  {
    DoubledNumber(x, y, divisor, limit, w);
    NumberBelowLimit(y, w, limit);
  }

  function DoubleBy(divisor: bv40, limit: bv40): (bv40, bv40) -> bool {
    (x: bv40, y: bv40) => Doubles(x, y, divisor, limit)
  }

  lemma DoublingByWords(w: nat, divisor: bv40, limit: bv40)
    requires Limit(w, limit)
    ensures Doubling(DoubleBy(divisor, limit), NumberOf(w), Nat(divisor, w + 1))
  {
    var double, number := DoubleBy(divisor, limit), NumberOf(w);
    forall x: bv40, y: bv40 | double(x, y)
      ensures DoublesNumber(number(x), number(y), Nat(divisor, w + 1))
    {
      DoubledBelowLimit(x, y, divisor, limit, w);
    }
  }

  // ----- the divisors

  lemma TwoBytes(x: bv40, y: bv40, n: nat, high: nat, low: nat)
    requires y == x >> 8 && Nat(x, 8) == low && Nat(y, n) == high
    ensures Nat(x, n + 8) == 256 * high + low
  {
    NatByte(x, n);
  }

  lemma SdByte()
    ensures Nat(0x12, 8) == 0x12
  {
  }

  lemma Ccitt8Byte()
    ensures Nat(0x07, 8) == 0x07
  {
  }

  lemma Ccitt16Byte0()
    ensures Nat(0x1021, 8) == 0x21
  {
  }

  lemma Ccitt16Byte1()
    ensures Nat(0x10, 8) == 0x10
  {
  }

  lemma IbmByte0()
    ensures Nat(0x8005, 8) == 0x05
  {
  }

  lemma IbmByte1()
    ensures Nat(0x80, 8) == 0x80
  {
  }

  lemma AnsiByte0()
    ensures Nat(0x04c1_1db7, 8) == 0xb7
  {
  }

  lemma AnsiByte1()
    ensures Nat(0x4_c11d, 8) == 0x1d
  {
  }

  lemma AnsiByte2()
    ensures Nat(0x4c1, 8) == 0xc1
  {
  }

  lemma AnsiByte3()
    ensures Nat(0x4, 8) == 0x4
  {
  }

  lemma SdPolynomial(w: nat)
    requires w == 8
    ensures Nat(0x12, w) == 0x12
  {
    SdByte();
  }

  lemma Ccitt8Polynomial(w: nat)
    requires w == 8
    ensures Nat(0x07, w) == 0x07
  {
    Ccitt8Byte();
  }

  lemma Ccitt16Polynomial(w: nat)
    requires w == 16
    ensures Nat(0x1021, w) == 0x1021
  {
    Ccitt16Byte0();
    Ccitt16Byte1();
    TwoBytes(0x1021, 0x10, 8, 0x10, 0x21);
  }

  lemma IbmPolynomial(w: nat)
    requires w == 16
    ensures Nat(0x8005, w) == 0x8005
  {
    IbmByte0();
    IbmByte1();
    TwoBytes(0x8005, 0x80, 8, 0x80, 0x05);
  }

  lemma AnsiPolynomial(w: nat)
    requires w == 32
    ensures Nat(0x04c1_1db7, w) == 0x04c1_1db7
  {
    AnsiByte0();
    AnsiByte1();
    AnsiByte2();
    AnsiByte3();
    TwoBytes(0x4c1, 0x4, 8, 0x4, 0xc1);
    TwoBytes(0x4_c11d, 0x4c1, 16, 0x4c1, 0x1d);
    TwoBytes(0x04c1_1db7, 0x4_c11d, 24, 0x4_c11d, 0xb7);
  }

  lemma EmptyByte0()
    ensures Nat(0x100, 8) == 0
  {
  }

  lemma EmptyByte1()
    ensures Nat(0x1_0000, 8) == 0
  {
  }

  lemma EmptyByte2()
    ensures Nat(0x100_0000, 8) == 0
  {
  }

  lemma EmptyByte3()
    ensures Nat(0x1_0000_0000, 8) == 0
  {
  }

  lemma LimitNumber(w: nat, limit: bv40)
    requires Limit(w, limit)
    ensures Nat(limit, w) == 0
  {
    EmptyByte0();
    EmptyByte1();
    EmptyByte2();
    EmptyByte3();
    TwoBytes(0x1_0000, 0x100, 8, 0, 0);
    TwoBytes(0x100_0000, 0x1_0000, 16, 0, 0);
    TwoBytes(0x1_0000_0000, 0x100_0000, 24, 0, 0);
  }

  lemma LimitOnTop(w: nat, limit: bv40)
    requires Limit(w, limit)
    ensures Nat(limit, w + 1) == Pow2(w)
  {
    LimitNumber(w, limit);
    LimitDropped(w, limit);
    OneOnTop(limit, w);
  }

  lemma OneOnTop(x: bv40, w: nat)
    requires Dropped(x, w) == 1
    ensures Nat(x, w + 1) == Nat(x, w) + Pow2(w)
  {
    NatTop(x, w);
  }

  lemma DivisorWord(g: Generator, poly: bv40, divisor: bv40, limit: bv40)
    requires g.Valid() && Limit(g.width, limit) && poly < limit && divisor == poly ^ limit
    requires Nat(poly, g.width) == g.poly
    ensures Nat(divisor, g.width + 1) == g.Divisor()
  {
    DivisorNumber(g);
    LimitAdded(poly, divisor, limit, g.width, g.width + 1, g.poly, Pow2(g.width));
  }

  lemma LimitAdded(x: bv40, y: bv40, limit: bv40, w: nat, n: nat, a: nat, b: nat)
    requires Limit(w, limit) && x < limit && y == x ^ limit && Nat(x, w) == a && b == Pow2(w) && n == w + 1
    ensures Nat(y, n) == Xor(a, b)
  {
    WithoutTop(x, w, limit, n, a);
    TopAlone(w, limit, n, b);
    NumbersAdd(x, limit, y, n, a, b);
  }

  lemma WithoutTop(x: bv40, w: nat, limit: bv40, n: nat, a: nat)
    requires Limit(w, limit) && x < limit && Nat(x, w) == a && n == w + 1
    ensures Nat(x, n) == a
  {
    NumberBelowLimit(x, w, limit);
  }

  lemma TopAlone(w: nat, limit: bv40, n: nat, b: nat)
    requires Limit(w, limit) && n == w + 1 && b == Pow2(w)
    ensures Nat(limit, n) == b
  {
    LimitOnTop(w, limit);
  }

  lemma NumbersAdd(x: bv40, y: bv40, z: bv40, n: nat, a: nat, b: nat)
    requires Nat(x, n) == a && Nat(y, n) == b && z == x ^ y
    ensures Nat(z, n) == Xor(a, b)
  {
    NatSum(x, y, z, n);
  }

  lemma DivisorNumber(g: Generator)
    requires g.Valid()
    ensures Xor(g.poly, Pow2(g.width)) == g.Divisor()
  {
    DivisorRange(g);
    XorComm(Pow2(g.width), g.poly);
  }

  // ----- the words themselves

  predicate SpannedTable(rows: seq<seq<bv40>>) {
    && Shape(rows) && rows[0][0] == 0
    && SpannedWords(BOTH, rows[0]) && SpannedWords(BOTH, Heads(rows))
  }

  predicate DoublingTable(rows: seq<seq<bv40>>, divisor: bv40, limit: bv40) {
    Shape(rows) && DoublingWords(DoubleBy(divisor, limit), Powers(rows))
  }

  lemma SdSpanned()
    ensures SpannedTable(SD_7BIT)
  {
  }

  lemma SdDoubling()
    ensures DoublingTable(SD_7BIT, 0x112, 0x100)
  {
  }

  lemma SdTop()
    ensures EightRows(BOTH, SD_7BIT, 0)
  {
  }

  lemma SdBottom()
    ensures EightRows(BOTH, SD_7BIT, 8)
  {
  }

  lemma Ccitt8Spanned()
    ensures SpannedTable(CCITT_8BIT)
  {
  }

  lemma Ccitt8Doubling()
    ensures DoublingTable(CCITT_8BIT, 0x107, 0x100)
  {
  }

  lemma Ccitt8Top()
    ensures EightRows(BOTH, CCITT_8BIT, 0)
  {
  }

  lemma Ccitt8Bottom()
    ensures EightRows(BOTH, CCITT_8BIT, 8)
  {
  }

  lemma Ccitt16Spanned()
    ensures SpannedTable(CCITT_16BIT)
  {
  }

  lemma Ccitt16Doubling()
    ensures DoublingTable(CCITT_16BIT, 0x1_1021, 0x1_0000)
  {
  }

  lemma Ccitt16Top()
    ensures EightRows(BOTH, CCITT_16BIT, 0)
  {
  }

  lemma Ccitt16Bottom()
    ensures EightRows(BOTH, CCITT_16BIT, 8)
  {
  }

  lemma AnsiSpanned()
    ensures SpannedTable(ANSI_32BIT)
  {
  }

  lemma AnsiDoubling()
    ensures DoublingTable(ANSI_32BIT, 0x1_04c1_1db7, 0x1_0000_0000)
  {
  }

  lemma AnsiTop()
    ensures EightRows(BOTH, ANSI_32BIT, 0)
  {
  }

  lemma AnsiBottom()
    ensures EightRows(BOTH, ANSI_32BIT, 8)
  {
  }

  /** What the last row of the CRC-16/IBM table ought to be. */
  function Completed(last: seq<bv40>): (row: seq<bv40>)
    requires |last| == 16
    ensures |row| == 16
  {
    [last[0], last[1], last[2], last[3], last[4], last[5], last[6], last[7],
     last[8], last[9], last[10], last[11], 0x0208, 0x820d, 0x8207, 0x0202]
  }

  const IBM_REPAIRED: seq<seq<bv40>> := IBM_16BIT[15 := Completed(IBM_16BIT[15])]

  lemma IbmSpanned()
    ensures SpannedTable(IBM_REPAIRED)
  {
  }

  lemma IbmDoubling()
    ensures DoublingTable(IBM_REPAIRED, 0x1_8005, 0x1_0000)
  {
  }

  lemma IbmTop()
    ensures EightRows(BOTH, IBM_REPAIRED, 0)
  {
  }

  lemma IbmBottom()
    ensures EightRows(BOTH, IBM_REPAIRED, 8)
  {
  }

  ghost predicate TableOf(poly: bv40, divisor: bv40, limit: bv40, rows: seq<seq<bv40>>) {
    && poly < limit && divisor == poly ^ limit
    && Words(BOTH, DoubleBy(divisor, limit), rows) && rows[0][0] == 0 && rows[0][1] == poly
  }

  lemma BuiltOfWords(g: Generator, n: nat, k: nat, poly: bv40, divisor: bv40, limit: bv40, rows: seq<seq<bv40>>)
    requires n >= 8 && Pow2(n) == 256 && Pow2(k) == 16
    requires g.Valid() && Limit(g.width, limit) && Nat(poly, g.width) == g.poly && TableOf(poly, divisor, limit, rows)
    ensures Holds(EntryOf(g, n), NumberOf(g.width), rows)
  {
    DivisorWord(g, poly, divisor, limit);
    NumbersLinear(g.width);
    DoublingByWords(g.width, divisor, limit);
    Built(g, n, k, BOTH, NumberOf(g.width), DoubleBy(divisor, limit), rows);
  }

  lemma SdWords()
    ensures TableOf(0x12, 0x112, 0x100, SD_7BIT)
  {
    SdSpanned();
    SdDoubling();
    SdTop();
    SdBottom();
    WordsOf(BOTH, DoubleBy(0x112, 0x100), SD_7BIT);
  }

  /** Every word of the 7-bit SD table, left aligned in a byte is right. */
  lemma SdHolds(g: Generator, n: nat, k: nat)
    requires n >= 8 && Pow2(n) == 256 && Pow2(k) == 16 && g.Valid() && g.width == 8 && g.poly == 0x12
    ensures Holds(EntryOf(g, n), NumberOf(g.width), SD_7BIT)
  {
    SdPolynomial(g.width);
    SdWords();
    BuiltOfWords(g, n, k, 0x12, 0x112, 0x100, SD_7BIT);
  }

  lemma Ccitt8Words()
    ensures TableOf(0x07, 0x107, 0x100, CCITT_8BIT)
  {
    Ccitt8Spanned();
    Ccitt8Doubling();
    Ccitt8Top();
    Ccitt8Bottom();
    WordsOf(BOTH, DoubleBy(0x107, 0x100), CCITT_8BIT);
  }

  /** Every word of the 8-bit CCITT table is right. */
  lemma Ccitt8Holds(g: Generator, n: nat, k: nat)
    requires n >= 8 && Pow2(n) == 256 && Pow2(k) == 16 && g.Valid() && g.width == 8 && g.poly == 0x07
    ensures Holds(EntryOf(g, n), NumberOf(g.width), CCITT_8BIT)
  {
    Ccitt8Polynomial(g.width);
    Ccitt8Words();
    BuiltOfWords(g, n, k, 0x07, 0x107, 0x100, CCITT_8BIT);
  }

  lemma Ccitt16Words()
    ensures TableOf(0x1021, 0x1_1021, 0x1_0000, CCITT_16BIT)
  {
    Ccitt16Spanned();
    Ccitt16Doubling();
    Ccitt16Top();
    Ccitt16Bottom();
    WordsOf(BOTH, DoubleBy(0x1_1021, 0x1_0000), CCITT_16BIT);
  }

  /** Every word of the 16-bit CCITT table is right. */
  lemma Ccitt16Holds(g: Generator, n: nat, k: nat)
    requires n >= 8 && Pow2(n) == 256 && Pow2(k) == 16 && g.Valid() && g.width == 16 && g.poly == 0x1021
    ensures Holds(EntryOf(g, n), NumberOf(g.width), CCITT_16BIT)
  {
    Ccitt16Polynomial(g.width);
    Ccitt16Words();
    BuiltOfWords(g, n, k, 0x1021, 0x1_1021, 0x1_0000, CCITT_16BIT);
  }

  lemma IbmWords()
    ensures TableOf(0x8005, 0x1_8005, 0x1_0000, IBM_REPAIRED)
  {
    IbmSpanned();
    IbmDoubling();
    IbmTop();
    IbmBottom();
    WordsOf(BOTH, DoubleBy(0x1_8005, 0x1_0000), IBM_REPAIRED);
  }

  /** Every word of the CRC-16/IBM table, once completed, is right. */
  lemma IbmHolds(g: Generator, n: nat, k: nat)
    requires n >= 8 && Pow2(n) == 256 && Pow2(k) == 16 && g.Valid() && g.width == 16 && g.poly == 0x8005
    ensures Holds(EntryOf(g, n), NumberOf(g.width), IBM_REPAIRED)
  {
    IbmPolynomial(g.width);
    IbmWords();
    BuiltOfWords(g, n, k, 0x8005, 0x1_8005, 0x1_0000, IBM_REPAIRED);
  }

  lemma AnsiWords()
    ensures TableOf(0x04c1_1db7, 0x1_04c1_1db7, 0x1_0000_0000, ANSI_32BIT)
  {
    AnsiSpanned();
    AnsiDoubling();
    AnsiTop();
    AnsiBottom();
    WordsOf(BOTH, DoubleBy(0x1_04c1_1db7, 0x1_0000_0000), ANSI_32BIT);
  }

  /** Every word of the 32-bit ANSI table is right. */
  lemma AnsiHolds(g: Generator, n: nat, k: nat)
    requires n >= 8 && Pow2(n) == 256 && Pow2(k) == 16 && g.Valid() && g.width == 32 && g.poly == 0x04c1_1db7
    ensures Holds(EntryOf(g, n), NumberOf(g.width), ANSI_32BIT)
  {
    AnsiPolynomial(g.width);
    AnsiWords();
    BuiltOfWords(g, n, k, 0x04c1_1db7, 0x1_04c1_1db7, 0x1_0000_0000, ANSI_32BIT);
  }

  // ----- the table of the right-shifting loop

  /** One right-shifting division step on a word. */
  function RightShifted(x: bv40): bv40 {
    if x & 1 == 1 then (x >> 1) ^ 0xedb8_8320 else x >> 1
  }

  function Four<W>(step: W -> W, x: W): W {
    step(step(step(step(x))))
  }

  function Stepped<W>(step: W -> W, index: seq<W>): (r: seq<W>)
    requires |index| == 16
    ensures |r| == 16
  {
    [Four(step, index[0]), Four(step, index[1]), Four(step, index[2]), Four(step, index[3]),
     Four(step, index[4]), Four(step, index[5]), Four(step, index[6]), Four(step, index[7]),
     Four(step, index[8]), Four(step, index[9]), Four(step, index[10]), Four(step, index[11]),
     Four(step, index[12]), Four(step, index[13]), Four(step, index[14]), Four(step, index[15])]
  }

  const INDEX: seq<bv40> := [0, 1, 2, 3, 4, 5, 6, 7, 8, 9, 10, 11, 12, 13, 14, 15]

  lemma RevStepped()
    ensures REV_ANSI == Stepped(RightShifted, INDEX)
  {
  }

  /** Words that fit the machine step as numbers do. */
  ghost predicate StepsRight<W(!new)>(step: W -> W, fits: W -> bool, number: W -> nat, poly: nat) {
    forall x: W {:trigger step(x)} :: fits(x) ==> fits(step(x)) && number(step(x)) == RightStep(number(x), poly)
  }

  lemma FourSteps<W(!new)>(step: W -> W, fits: W -> bool, number: W -> nat, poly: nat, x: W, k: nat)
    requires StepsRight(step, fits, number, poly) && fits(x) && k == 4
    ensures number(Four(step, x)) == RightSteps(k, number(x), poly)
  {
    var a, b, c := step(x), step(step(x)), step(step(step(x)));
    assert RightSteps(k, number(x), poly) == RightSteps(k - 1, number(a), poly);
    assert RightSteps(k - 1, number(a), poly) == RightSteps(k - 2, number(b), poly);
    assert RightSteps(k - 2, number(b), poly) == RightSteps(k - 3, number(c), poly);
    assert RightSteps(k - 3, number(c), poly) == RightSteps(k - 4, number(step(c)), poly);
  }

  lemma SteppedAt<W(!new)>(step: W -> W, index: seq<W>, v: nat)
    requires |index| == 16 && v < 16
    ensures Stepped(step, index)[v] == Four(step, index[v])
  {
  }

  function Fits(limit: bv40): bv40 -> bool {
    (x: bv40) => x < limit
  }

  lemma RightFits(x: bv40, limit: bv40)
    requires limit == 0x1_0000_0000 && x < limit
    ensures RightShifted(x) < limit
  {
  }

  /** Undone: the word before an even step, and before an odd one. */
  predicate Before(x: bv40, y: bv40, p: bv40) {
    x == y << 1 || x == ((y ^ p) << 1) ^ 1
  }

  lemma RightUndone(x: bv40)
    ensures Before(x, RightShifted(x), 0xedb8_8320)
  {
    Halved(x);
    XorTwice(x >> 1, 0xedb8_8320);
  }

  lemma Halved(x: bv40)
    ensures x & 1 == 1 ==> x == ((x >> 1) << 1) ^ 1
    ensures x & 1 != 1 ==> x == (x >> 1) << 1
  {
  }

  lemma XorTwice(x: bv40, p: bv40)
    ensures (x ^ p) ^ p == x
  {
  }

  lemma NumberOfOne(n: nat)
    ensures Nat(1, n + 1) == 1
  {
    NatOfZero(n);
    assert (1 as bv40) >> 1 == 0;
  }

  lemma BeforeOdd(y: bv40, p: bv40, w: nat)
    requires y ^ p < 0x80_0000_0000
    ensures Nat(((y ^ p) << 1) ^ 1, w + 1) == Xor(2 * Xor(Nat(y, w), Nat(p, w)), 1)
  {
    NatXor(y, p, w);
    OddAbove(y ^ p, w);
  }

  lemma OddAbove(z: bv40, w: nat)
    requires z < 0x80_0000_0000
    ensures Nat((z << 1) ^ 1, w + 1) == Xor(2 * Nat(z, w), 1)
  {
    NatTwice(z, w);
    NatXor(z << 1, 1, w + 1);
    NumberOfOne(w);
  }

  lemma StepUndone(n: nat, m: nat, p: nat)
    requires n == 2 * m || n == Xor(2 * Xor(m, p), 1)
    ensures RightStep(n, p) == m
  {
    if n != 2 * m {
      var a := Xor(m, p);
      XorStep(2 * a, 1);
      XorZero(a);
      XorCancel(m, p);
    }
  }

  lemma OddStep(y: bv40, p: bv40, w: nat)
    requires y ^ p < 0x80_0000_0000
    ensures RightStep(Nat(((y ^ p) << 1) ^ 1, w + 1), Nat(p, w)) == Nat(y, w)
  {
    BeforeOdd(y, p, w);
    StepUndone(Nat(((y ^ p) << 1) ^ 1, w + 1), Nat(y, w), Nat(p, w));
  }

  lemma EvenStep(y: bv40, p: bv40, w: nat)
    requires y < 0x80_0000_0000
    ensures RightStep(Nat(y << 1, w + 1), Nat(p, w)) == Nat(y, w)
  {
    NatTwice(y, w);
    StepUndone(Nat(y << 1, w + 1), Nat(y, w), Nat(p, w));
  }

  lemma RightNumber(x: bv40, y: bv40, p: bv40, w: nat, limit: bv40)
    requires Limit(w, limit) && x < limit && Before(x, y, p) && y < 0x80_0000_0000 && y ^ p < 0x80_0000_0000
    ensures Nat(y, w) == RightStep(Nat(x, w), Nat(p, w))
  {
    NumberBelowLimit(x, w, limit);
    if x == y << 1 {
      EvenStep(y, p, w);
    } else {
      OddStep(y, p, w);
    }
  }

  lemma WordsStepRight(w: nat, limit: bv40)
    requires Limit(w, limit) && limit == 0x1_0000_0000
    ensures StepsRight(RightShifted, Fits(limit), NumberOf(w), NumberOf(w)(0xedb8_8320))
  {
    var step, fits, number := RightShifted, Fits(limit), NumberOf(w);
    forall x: bv40 | fits(x)
      ensures fits(step(x)) && number(step(x)) == RightStep(number(x), number(0xedb8_8320))
    {
      RightFits(x, limit);
      RightUndone(x);
      RightNumber(x, step(x), 0xedb8_8320, w, limit);
    }
  }

  lemma IndexNumber(v: nat, n: nat)
    requires v < 16
    ensures Nat(INDEX[v], n + 4) == v && INDEX[v] < 16
  {
    IndexBelow(v);
    IndexNibble(v);
    SmallNumber(INDEX[v], n);
  }

  lemma IndexBelow(v: nat)
    requires v < 16
    ensures INDEX[v] < 16
  {
  }

  lemma IndexNibble(v: nat)
    requires v < 16
    ensures Nat(INDEX[v], 4) == v
  {
  }

  lemma SmallNumber(x: bv40, n: nat)
    requires x < 16
    ensures Nat(x, n + 4) == Nat(x, 4)
  {
    assert Dropped(x, 4) == 0;
    NatSplit(x, 4, n);
    NatOfZero(n);
    ShlOne(4);
  }

  lemma RevByte0()
    ensures Nat(0xedb8_8320, 8) == 0x20
  {
  }

  lemma RevByte1()
    ensures Nat(0xed_b883, 8) == 0x83
  {
  }

  lemma RevByte2()
    ensures Nat(0xedb8, 8) == 0xb8
  {
  }

  lemma RevByte3()
    ensures Nat(0xed, 8) == 0xed
  {
  }

  lemma RevHigh()
    ensures Nat(0xed_b883, 24) == 0xed_b883
  {
    RevByte1();
    RevByte2();
    RevByte3();
    TwoBytes(0xedb8, 0xed, 8, 0xed, 0xb8);
    TwoBytes(0xed_b883, 0xedb8, 16, 0xedb8, 0x83);
  }

  lemma RevPolynomial(w: nat)
    requires w == 32
    ensures Nat(0xedb8_8320, w) == 0xedb8_8320
  {
    RevByte0();
    RevHigh();
    TwoBytes(0xedb8_8320, 0xed_b883, w - 8, 0xed_b883, 0x20);
  }

  lemma SteppedNumber<W(!new)>(table: seq<W>, step: W -> W, index: seq<W>, fits: W -> bool, number: W -> nat, poly: nat, v: nat, k: nat)
    requires |index| == 16 && table == Stepped(step, index) && v < 16 && k == 4
    requires StepsRight(step, fits, number, poly) && fits(index[v]) && number(index[v]) == v
    ensures number(table[v]) == RightSteps(k, v, poly)
  {
    SteppedAt(step, index, v);
    FourSteps(step, fits, number, poly, index[v], k);
  }

  lemma RevNumber(w: nat, k: nat, v: nat)
    requires w == 32 && k == 4 && v < 16
    ensures NumberOf(w)(REV_ANSI[v]) == RightSteps(k, v, NumberOf(w)(0xedb8_8320))
  {
    RevStepped();
    IndexNumber(v, 28);
    WordsStepRight(w, 0x1_0000_0000);
    SteppedNumber(REV_ANSI, RightShifted, INDEX, Fits(0x1_0000_0000), NumberOf(w), NumberOf(w)(0xedb8_8320), v, k);
  }

  /** Every word of the table of the right-shifting loop is right. */
  lemma RevHolds(w: nat, k: nat, v: nat)
    requires w == 32 && k == 4 && v < 16
    ensures Nat(REV_ANSI[v], w) == RightSteps(k, v, 0xedb8_8320)
  {
    RevNumber(w, k, v);
    RevPolynomial(w);
  }

  // ----- the last four words of the CRC-16/IBM table

  lemma RepairedBelow(i: nat, j: nat)
    requires i < 16 && j < 16 && (i < 15 || j < 12)
    ensures Shape(IBM_REPAIRED) && IBM_16BIT[i][j] == IBM_REPAIRED[i][j]
  {
    if i == 15 {
      CompletedBelow(IBM_16BIT[15], j);
    }
  }

  lemma CompletedBelow(last: seq<bv40>, j: nat)
    requires |last| == 16 && j < 12
    ensures Completed(last)[j] == last[j]
  {
  }

  lemma IbmTail(j: nat)
    requires 12 <= j < 16
    ensures IBM_16BIT[15][j] == 0
  {
  }

  lemma IbmBelow(g: Generator, n: nat, k: nat, i: nat, j: nat)
    requires n >= 8 && Pow2(n) == 256 && Pow2(k) == 16 && g.Valid() && g.width == 16 && g.poly == 0x8005
    requires i < 16 && j < 16 && (i < 15 || j < 12)
    ensures Word(IBM_16BIT[i][j], g.width) == TableEntry(g, n, 16 * i + j)
  {
    IbmHolds(g, n, k);
    HoldsEntry(g, n, IBM_REPAIRED, i, j);
    RepairedBelow(i, j);
  }

  lemma IbmAbove(w: nat, j: nat)
    requires w <= 32 && 12 <= j < 16
    ensures Word(IBM_16BIT[15][j], w) == 0
  {
    IbmTail(j);
    NatOfZero(w);
  }

  /** The last four words are missing; all the others are right. */
  lemma IbmEntries(g: Generator, n: nat, k: nat, v: nat)
    requires n >= 8 && Pow2(n) == 256 && Pow2(k) == 16 && g.Valid() && g.width == 16 && g.poly == 0x8005 && v < 256
    ensures Entries(IBM_16BIT, g.width)[v] == if v < 252 then TableEntry(g, n, v) else 0
  {
    forall i: nat, j: nat | i < 16 && j < 16
      ensures Word(IBM_16BIT[i][j], g.width) == BelowTail(g, n, 16 * i + j)
    {
      if i < 15 || j < 12 {
        IbmBelow(g, n, k, i, j);
      } else {
        IbmAbove(g.width, j);
      }
    }
    EntryAt(g, n, IBM_16BIT, v);
  }

  function BelowTail(g: Generator, n: nat, v: nat): nat
    requires g.width >= 1
  {
    if v < 252 then TableEntry(g, n, v) else 0
  }

  lemma EntryAt(g: Generator, n: nat, rows: seq<seq<bv40>>, v: nat)
    requires 1 <= g.width <= 32 && Shape(rows) && v < 256
    requires forall i: nat, j: nat :: i < 16 && j < 16 ==> Word(rows[i][j], g.width) == BelowTail(g, n, 16 * i + j)
    ensures Entries(rows, g.width)[v] == BelowTail(g, n, v)
  {
    assert 16 * (v / 16) + v % 16 == v;
  }

  // ----- the beginnings of the tables

  lemma WordZero(w: nat)
    requires w <= 32
    ensures Word(0, w) == 0
  {
    NatOfZero(w);
  }

  lemma RevSecondByte()
    ensures Nat(0x1db7_1064, 8) == 0x64
  {
  }

  lemma RevSecondWord()
    ensures REV_ANSI[1] == 0x1db7_1064
  {
  }

  lemma RevSecond(w: nat)
    requires w == 32
    ensures Word(REV_ANSI[1], w) % 0x100 == 0x64
  {
    RevSecondWord();
    RevSecondNumber(w);
  }

  lemma RevSecondNumber(w: nat)
    requires w == 32
    ensures Nat(0x1db7_1064, w) % 0x100 == 0x64
  {
    RevSecondByte();
    LowByteOf(0x1db7_1064, 0x1d_b710, w - 8, 0x64);
  }

  lemma LowByteOf(x: bv40, y: bv40, n: nat, low: nat)
    requires y == x >> 8 && Nat(x, 8) == low < 256
    ensures Nat(x, n + 8) % 0x100 == low
  {
    TwoBytes(x, y, n, Nat(y, n), low);
    LowByteIs(Nat(x, n + 8), Nat(y, n), low);
  }

  lemma LowByteIs(x: nat, high: nat, low: nat)
    requires x == 256 * high + low && low < 256
    ensures x % 0x100 == low
  {
  }

  lemma EntryInRow(rows: seq<seq<bv40>>, w: nat, i: nat, j: nat)
    requires Shape(rows) && w <= 32 && i < 16 && j < 16
    ensures Entries(rows, w)[16 * i + j] == Word(rows[i][j], w)
  {
  }

  // ----- the bits that the powers of two shift out

  predicate SameBit(x: bv40, j: nat, k: nat) {
    (Dropped(x, j) & 1 == 1) <==> (Dropped(x, k) & 1 == 1)
  }

  /** Where the i-th power of two is in a table. */
  function PowerRow(i: nat): nat {
    if i < 4 then 0 else if i == 4 then 1 else if i == 5 then 2 else if i == 6 then 4 else 8
  }

  function PowerColumn(i: nat): nat {
    if i == 0 then 1 else if i == 1 then 2 else if i == 2 then 4 else if i == 3 then 8 else 0
  }

  lemma PowerCell<W>(rows: seq<seq<W>>, i: nat)
    requires Shape(rows) && i < 8
    ensures Powers(rows)[i] == rows[PowerRow(i)][PowerColumn(i)]
    ensures 16 * PowerRow(i) + PowerColumn(i) == Pow2(i)
  {
    PowersOfTwo();
  }

  lemma HoldsPower(g: Generator, n: nat, rows: seq<seq<bv40>>, i: nat)
    requires 1 <= g.width <= 32 && Holds(EntryOf(g, n), NumberOf(g.width), rows) && i < 8
    ensures Nat(Powers(rows)[i], g.width) == TableEntry(g, n, Pow2(i))
  {
    PowerCell(rows, i);
    HoldsEntry(g, n, rows, PowerRow(i), PowerColumn(i));
  }

  lemma SameBitOfNumber(x: bv40, n: nat, j: nat, k: nat)
    requires j < n && k < n && SameBit(x, j, k)
    ensures Bit(Nat(x, n), j) == Bit(Nat(x, n), k)
  {
    NatBit(x, n, j);
    NatBit(x, n, k);
  }

  lemma TopOfPower(g: Generator, n: nat, w: nat, i: nat, x: bv40)
    requires 1 <= w <= g.width && Nat(x, g.width) == TableEntry(g, n, Pow2(i)) && SameBit(x, w - 1, g.width - 1)
    ensures TopsAgree(g, w, n, i)
  {
    SameBitOfNumber(x, g.width, w - 1, g.width - 1);
  }

  lemma TopsOfWords(g: Generator, n: nat, rows: seq<seq<bv40>>, w: nat)
    requires 1 <= w <= g.width <= 32 && n <= 8 && Holds(EntryOf(g, n), NumberOf(g.width), rows)
    requires forall i :: 0 <= i < 7 ==> SameBit(Powers(rows)[i], w - 1, g.width - 1)
    ensures forall i: nat :: i + 1 < n ==> TopsAgree(g, w, n, i)
  {
    forall i: nat | i + 1 < n
      ensures TopsAgree(g, w, n, i)
    {
      HoldsPower(g, n, rows, i);
      TopOfPower(g, n, w, i, Powers(rows)[i]);
    }
  }

  predicate SameNinth(x: bv40) {
    (x >> 8) & 1 == (x >> 15) & 1
  }

  lemma Ccitt16Ninth()
    ensures forall i :: 0 <= i < 7 ==> SameNinth(Powers(CCITT_16BIT)[i])
  {
  }

  /** Bits 8 and 15 of the powers in the 16-bit CCITT table. */
  lemma Ccitt16Tops(w: nat)
    requires w == 16
    ensures forall i :: 0 <= i < 7 ==> SameBit(Powers(CCITT_16BIT)[i], 8, w - 1)
  {
    Ccitt16Ninth();
    forall i | 0 <= i < 7
      ensures SameBit(Powers(CCITT_16BIT)[i], 8, w - 1)
    {
      DroppedEight(Powers(CCITT_16BIT)[i]);
      DroppedFifteen(Powers(CCITT_16BIT)[i]);
    }
  }

  predicate SameTwentySecond(x: bv40) {
    (x >> 21) & 1 == (x >> 31) & 1
  }

  lemma AnsiTwentySecond()
    ensures forall i :: 0 <= i < 7 ==> SameTwentySecond(Powers(ANSI_32BIT)[i])
  {
  }

  /** Bits 21 and 31 of the powers in the 32-bit ANSI table. */
  lemma AnsiTops(w: nat)
    requires w == 32
    ensures forall i :: 0 <= i < 7 ==> SameBit(Powers(ANSI_32BIT)[i], 21, w - 1)
  {
    AnsiTwentySecond();
    forall i | 0 <= i < 7
      ensures SameBit(Powers(ANSI_32BIT)[i], 21, w - 1)
    {
      DroppedTwentyOne(Powers(ANSI_32BIT)[i]);
      DroppedThirtyOne(Powers(ANSI_32BIT)[i]);
    }
  }

  // ----- the low bytes of the entries 1, 2 and 4

  lemma LowByteOfWord(x: bv40, y: bv40, w: nat, low: nat)
    requires 8 <= w <= 32 && y == x >> 8 && Nat(x, 8) == low < 256
    ensures Word(x, w) % 0x100 == low
  {
    LowByteOf(x, y, w - 8, low);
  }

  lemma SdBytes(w: nat)
    requires 8 <= w <= 32
    ensures Word(0x12, w) % 0x100 == 0x12 && Word(0x24, w) % 0x100 == 0x24 && Word(0x48, w) % 0x100 == 0x48
  {
    SdByte();
    LowByteOfWord(0x12, 0, w, 0x12);
    SdNext(w);
  }

  lemma SdNext(w: nat)
    requires 8 <= w <= 32
    ensures Word(0x24, w) % 0x100 == 0x24 && Word(0x48, w) % 0x100 == 0x48
  {
    LowByteOfWord(0x24, 0, w, 0x24);
    LowByteOfWord(0x48, 0, w, 0x48);
  }

  lemma Ccitt8Bytes(w: nat)
    requires 8 <= w <= 32
    ensures Word(0x07, w) % 0x100 == 0x07 && Word(0x0e, w) % 0x100 == 0x0e && Word(0x1c, w) % 0x100 == 0x1c
  {
    Ccitt8Byte();
    LowByteOfWord(0x07, 0, w, 0x07);
    Ccitt8Next(w);
  }

  lemma Ccitt8Next(w: nat)
    requires 8 <= w <= 32
    ensures Word(0x0e, w) % 0x100 == 0x0e && Word(0x1c, w) % 0x100 == 0x1c
  {
    LowByteOfWord(0x0e, 0, w, 0x0e);
    LowByteOfWord(0x1c, 0, w, 0x1c);
  }

  lemma Ccitt16Bytes(w: nat)
    requires 8 <= w <= 32
    ensures Word(0x1021, w) % 0x100 == 0x21 && Word(0x2042, w) % 0x100 == 0x42 && Word(0x4084, w) % 0x100 == 0x84
  {
    Ccitt16Byte0();
    LowByteOfWord(0x1021, 0x10, w, 0x21);
    Ccitt16Next(w);
  }

  lemma Ccitt16Next(w: nat)
    requires 8 <= w <= 32
    ensures Word(0x2042, w) % 0x100 == 0x42 && Word(0x4084, w) % 0x100 == 0x84
  {
    LowByteOfWord(0x2042, 0x20, w, 0x42);
    LowByteOfWord(0x4084, 0x40, w, 0x84);
  }

  lemma IbmBytes(w: nat)
    requires 8 <= w <= 32
    ensures Word(0x8005, w) % 0x100 == 0x05 && Word(0x800f, w) % 0x100 == 0x0f && Word(0x801b, w) % 0x100 == 0x1b
  {
    IbmByte0();
    LowByteOfWord(0x8005, 0x80, w, 0x05);
    IbmNext(w);
  }

  lemma IbmNext(w: nat)
    requires 8 <= w <= 32
    ensures Word(0x800f, w) % 0x100 == 0x0f && Word(0x801b, w) % 0x100 == 0x1b
  {
    LowByteOfWord(0x800f, 0x80, w, 0x0f);
    LowByteOfWord(0x801b, 0x80, w, 0x1b);
  }

  lemma AnsiBytes(w: nat)
    requires 8 <= w <= 32
    ensures Word(0x04c1_1db7, w) % 0x100 == 0xb7 && Word(0x0982_3b6e, w) % 0x100 == 0x6e && Word(0x1304_76dc, w) % 0x100 == 0xdc
  {
    AnsiByte0();
    LowByteOfWord(0x04c1_1db7, 0x4_c11d, w, 0xb7);
    AnsiNext(w);
  }

  lemma AnsiNext(w: nat)
    requires 8 <= w <= 32
    ensures Word(0x0982_3b6e, w) % 0x100 == 0x6e && Word(0x1304_76dc, w) % 0x100 == 0xdc
  {
    LowByteOfWord(0x0982_3b6e, 0x9_823b, w, 0x6e);
    LowByteOfWord(0x1304_76dc, 0x13_0476, w, 0xdc);
  }

  lemma Ccitt16Fourth0()
    ensures Nat(0x1231, 8) == 0x31
  {
  }

  lemma Ccitt16Fourth1()
    ensures Nat(0x12, 8) == 0x12
  {
  }

  /** The first entry of the second row. */
  lemma Ccitt16Fourth(w: nat)
    requires w == 16
    ensures Nat(0x1231, w) == 0x1231
  {
    Ccitt16Fourth0();
    Ccitt16Fourth1();
    TwoBytes(0x1231, 0x12, 8, 0x12, 0x31);
  }
}
