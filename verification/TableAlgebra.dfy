/** Byte tables of remainders. Remainders add as their indices do, so a table of 256 of them, laid
    out in sixteen rows, is fixed by its entries at the powers of two, and each of these by the
    one before. Words of the table are of any type W with an xor and a reading as numbers. */
module TableAlgebra {
  import opened Gf2
  import opened CrcRegister
  import opened CrcSteps

  // ----- remainders of sums and doubles

  lemma EntryAdds(g: Generator, n: nat, a: nat, b: nat)
    requires g.Valid() && a < Pow2(n) && b < Pow2(n)
    ensures Xor(a, b) < Pow2(n) && TableEntry(g, n, Xor(a, b)) == Xor(TableEntry(g, n, a), TableEntry(g, n, b))
  {
    XorBound(a, b, n);
    DividendOfIndex(g, a, n);
    DividendOfIndex(g, b, n);
    DividendOfIndex(g, Xor(a, b), n);
    XorShl(a, b, g.width);
    RegisterIsRemainder(g, 0, ToBits(a, n));
    RegisterIsRemainder(g, 0, ToBits(b, n));
    RemainderAdds(Shl(a, g.width), Shl(b, g.width), g.Divisor(), g.width, TableEntry(g, n, a), TableEntry(g, n, b));
    RegisterIsRemainder(g, 0, ToBits(Xor(a, b), n));
  }

  lemma EntryZero(g: Generator, n: nat)
    requires g.Valid()
    ensures TableEntry(g, n, 0) == 0
  {
    EntryAdds(g, n, 0, 0);
    XorSelf(0);
    XorSelf(TableEntry(g, n, 0));
  }

  lemma EntryOne(g: Generator, n: nat)
    requires g.Valid() && n >= 1
    ensures TableEntry(g, n, 1) == g.poly
  {
    Pow2Mono(1, n);
    DividendOfIndex(g, 1, n);
    ShlOne(g.width);
    DivisorRange(g);
    MulOne(g.Divisor());
    XorCancel(Pow2(g.width), g.poly);
    assert Division(Pow2(g.width), g.Divisor(), g.width, 1, g.poly);
    RegisterIsRemainder(g, 0, ToBits(1, n));
    assert IsRemainder(Dividend(g, 0, ToBits(1, n)), g.Divisor(), g.width, g.poly);
  }

  /** Twice an entry, less the divisor if need be, is the entry of twice the index. */
  lemma EntryTwice(g: Generator, n: nat, u: nat, r: nat)
    requires g.Valid() && 2 * u < Pow2(n) && r < Pow2(g.width)
    requires r == 2 * TableEntry(g, n, u) || r == Xor(2 * TableEntry(g, n, u), g.Divisor())
    ensures r == TableEntry(g, n, 2 * u)
  {
    var G, w, e := g.Divisor(), g.width, TableEntry(g, n, u);
    DividendOfIndex(g, u, n);
    DividendOfIndex(g, 2 * u, n);
    ShlTwice(u, w);
    var q := RegisterDivides(g, 0, ToBits(u, n));
    DoubledDivision(Shl(u, w), G, w, q, e, r);
    RegisterIsRemainder(g, 0, ToBits(2 * u, n));
  }

  lemma DoubledDivision(a: nat, G: nat, w: nat, q: nat, e: nat, r: nat)
    requires Division(a, G, w, q, e) && r < Pow2(w) && (r == 2 * e || r == Xor(2 * e, G))
    ensures IsRemainder(2 * a, G, w, r)
  {
    MulTwice(q, G);
    XorDouble(Mul(q, G), e);
    if r == 2 * e {
      assert Division(2 * a, G, w, 2 * q, r);
    } else {
      XorComm(G, 2 * Mul(q, G));
      XorSwap(2 * Mul(q, G), G, 2 * e, G);
      XorSelf(G);
      XorZero(2 * a);
      assert Division(2 * a, G, w, 2 * q + 1, r);
    }
  }

  ghost function EntryOf(g: Generator, n: nat): nat -> nat
    requires g.width >= 1
  {
    (v: nat) => TableEntry(g, n, v)
  }

  /** A function on n-bit indices that adds as they do. */
  ghost predicate Adds(e: nat -> nat, n: nat) {
    && e(0) == 0
    && forall a: nat, b: nat {:trigger e(Xor(a, b))} :: a < Pow2(n) && b < Pow2(n) ==> e(Xor(a, b)) == Xor(e(a), e(b))
  }

  lemma EntriesAdd(g: Generator, n: nat)
    requires g.Valid()
    ensures Adds(EntryOf(g, n), n)
  {
    EntryZero(g, n);
    var e := EntryOf(g, n);
    forall a: nat, b: nat | a < Pow2(n) && b < Pow2(n)
      ensures e(Xor(a, b)) == Xor(e(a), e(b))
    {
      EntryAdds(g, n, a, b);
    }
  }

  // ----- sixteen values spanned by those at the powers of two

  /** A function on four-bit indices that adds as they do. */
  ghost predicate Additive(e: nat -> nat) {
    forall a: nat, b: nat {:trigger e(Xor(a, b))} :: a < 16 && b < 16 ==> e(Xor(a, b)) == Xor(e(a), e(b))
  }

  /** A reading of words as numbers that turns one xor into the other. */
  ghost predicate Linear<W(!new)>(xor: (W, W) -> W, number: W -> nat) {
    forall x: W, y: W {:trigger xor(x, y)} :: number(xor(x, y)) == Xor(number(x), number(y))
  }

  predicate SpannedWords<W(==)>(xor: (W, W) -> W, r: seq<W>)
    requires |r| == 16
  {
    && r[3] == xor(r[2], r[1])
    && r[5] == xor(r[4], r[1]) && r[6] == xor(r[4], r[2]) && r[7] == xor(r[4], r[3])
    && r[9] == xor(r[8], r[1]) && r[10] == xor(r[8], r[2]) && r[11] == xor(r[8], r[3]) && r[12] == xor(r[8], r[4])
    && r[13] == xor(r[8], r[5]) && r[14] == xor(r[8], r[6]) && r[15] == xor(r[8], r[7])
  }

  /** The highest power of two in an index. */
  function Top(j: nat): nat
    requires 0 < j < 16
  {
    if j >= 8 then 8 else if j >= 4 then 4 else if j >= 2 then 2 else 1
  }

  predicate SpannedBy<W(==)>(xor: (W, W) -> W, r: seq<W>) {
    |r| == 16 && forall j {:trigger Top(j)} :: 0 < j < 16 && j != Top(j) ==> r[j] == xor(r[Top(j)], r[j - Top(j)])
  }

  lemma SpannedByWords<W(!new)>(xor: (W, W) -> W, r: seq<W>)
    requires |r| == 16 && SpannedWords(xor, r)
    ensures SpannedBy(xor, r)
  {
  }

  lemma TopJoins(j: nat)
    requires 0 < j < 16
    ensures Xor(Top(j), j - Top(j)) == j
  {
    var k := if j >= 8 then 3 else if j >= 4 then 2 else if j >= 2 then 1 else 0;
    ShlOne(k);
    XorDisjoint(1, j - Top(j), k);
  }

  lemma {:induction false} SpannedValue<W(!new)>(e: nat -> nat, xor: (W, W) -> W, number: W -> nat, r: seq<W>, j: nat)
    requires Additive(e) && e(0) == 0 && Linear(xor, number) && SpannedBy(xor, r) && j < 16
    requires number(r[0]) == e(0) && number(r[1]) == e(1) && number(r[2]) == e(2) && number(r[4]) == e(4) && number(r[8]) == e(8)
    ensures number(r[j]) == e(j)
    decreases j
  {
    if j > 0 && j != Top(j) {
      TopJoins(j);
      SpannedValue(e, xor, number, r, j - Top(j));
    }
  }

  // ----- sixteen rows

  predicate Shape<W>(rows: seq<seq<W>>) {
    |rows| == 16 && forall k :: 0 <= k < 16 ==> |rows[k]| == 16
  }

  /** A row that is another one with a word added throughout. */
  function Shifted<W>(xor: (W, W) -> W, h: W, r: seq<W>): (row: seq<W>)
    requires |r| == 16
    ensures |row| == 16
  {
    [xor(h, r[0]), xor(h, r[1]), xor(h, r[2]), xor(h, r[3]), xor(h, r[4]), xor(h, r[5]), xor(h, r[6]), xor(h, r[7]),
     xor(h, r[8]), xor(h, r[9]), xor(h, r[10]), xor(h, r[11]), xor(h, r[12]), xor(h, r[13]), xor(h, r[14]), xor(h, r[15])]
  }

  function Heads<W>(rows: seq<seq<W>>): seq<W>
    requires Shape(rows)
  {
    seq(16, i requires 0 <= i < 16 => rows[i][0])
  }

  lemma ShiftedNumber<W(!new)>(xor: (W, W) -> W, number: W -> nat, h: W, r: seq<W>, j: nat)
    requires Linear(xor, number) && |r| == 16 && j < 16
    ensures number(Shifted(xor, h, r)[j]) == Xor(number(h), number(r[j]))
  {
  }

  /** The first row and the heads of the rows are spanned, by the entries at powers of two. */
  ghost predicate Based<W(!new)>(e: nat -> nat, xor: (W, W) -> W, number: W -> nat, rows: seq<seq<W>>) {
    && Shape(rows) && Linear(xor, number) && number(rows[0][0]) == 0
    && SpannedBy(xor, rows[0]) && SpannedBy(xor, Heads(rows))
    && number(rows[0][1]) == e(1) && number(rows[0][2]) == e(2)
    && number(rows[0][4]) == e(4) && number(rows[0][8]) == e(8)
    && number(rows[1][0]) == e(16) && number(rows[2][0]) == e(32)
    && number(rows[4][0]) == e(64) && number(rows[8][0]) == e(128)
  }

  lemma FirstRow<W(!new)>(e: nat -> nat, xor: (W, W) -> W, number: W -> nat, rows: seq<seq<W>>, j: nat)
    requires Based(e, xor, number, rows) && Additive(e) && e(0) == 0 && j < 16
    ensures number(rows[0][j]) == e(j)
  {
    SpannedValue(e, xor, number, rows[0], j);
  }

  lemma HeadOf<W(!new)>(e: nat -> nat, f: nat -> nat, xor: (W, W) -> W, number: W -> nat, rows: seq<seq<W>>, i: nat)
    requires Based(e, xor, number, rows) && Additive(f) && f(0) == 0 && i < 16
    requires f(1) == e(16) && f(2) == e(32) && f(4) == e(64) && f(8) == e(128)
    ensures number(rows[i][0]) == f(i)
  {
    SpannedValue(f, xor, number, Heads(rows), i);
  }

  /** The entry in row i, column j. */
  lemma CellValue<W(!new)>(e: nat -> nat, xor: (W, W) -> W, number: W -> nat, rows: seq<seq<W>>, i: nat, j: nat, n: nat, k: nat)
    requires Based(e, xor, number, rows) && Adds(e, n) && Pow2(n) == 256 && Pow2(k) == 16 && i < 16 && j < 16
    requires rows[i][j] == Shifted(xor, rows[i][0], rows[0])[j]
    ensures number(rows[i][j]) == e(16 * i + j)
  {
    var f := (a: nat) => e(Shl(a, k));
    HeadsAdd(e, f, n, k);
    SmallAdds(e, n);
    FirstRow(e, xor, number, rows, j);
    HeadOf(e, f, xor, number, rows, i);
    ShiftedNumber(xor, number, rows[i][0], rows[0], j);
    CellSum(e, i, j, n, k);
  }

  lemma CellSum(e: nat -> nat, i: nat, j: nat, n: nat, k: nat)
    requires Adds(e, n) && Pow2(n) == 256 && Pow2(k) == 16 && i < 16 && j < 16
    ensures Xor(e(Shl(i, k)), e(j)) == e(16 * i + j)
  {
    SixteenFold(i, k);
    RowAndColumn(i, j, k);
    AddsAt(e, n, Shl(i, k), j);
  }

  lemma SmallAdds(e: nat -> nat, n: nat)
    requires Adds(e, n) && Pow2(n) == 256
    ensures Additive(e)
  {
  }

  lemma HeadsAdd(e: nat -> nat, f: nat -> nat, n: nat, k: nat)
    requires Adds(e, n) && Pow2(n) == 256 && Pow2(k) == 16 && f == ((a: nat) => e(Shl(a, k)))
    ensures Additive(f) && f(0) == 0
    ensures f(1) == e(16) && f(2) == e(32) && f(4) == e(64) && f(8) == e(128)
  {
    forall a: nat, b: nat | a < 16 && b < 16
      ensures f(Xor(a, b)) == Xor(f(a), f(b))
    {
      XorShl(a, b, k);
      SixteenFold(a, k);
      SixteenFold(b, k);
    }
    SixteenFold(0, k);
    SixteenFold(1, k);
    SixteenFold(2, k);
    SixteenFold(4, k);
    SixteenFold(8, k);
  }

  lemma SixteenFold(a: nat, k: nat)
    requires Pow2(k) == 16
    ensures Shl(a, k) == 16 * a
  {
    ShlIsProduct(a, k);
  }

  lemma RowAndColumn(i: nat, j: nat, k: nat)
    requires Pow2(k) == 16 && j < 16
    ensures Xor(Shl(i, k), j) == 16 * i + j
  {
    SixteenFold(i, k);
    XorDisjoint(i, j, k);
  }

  lemma AddsAt(e: nat -> nat, n: nat, a: nat, b: nat)
    requires Adds(e, n) && a < Pow2(n) && b < Pow2(n)
    ensures e(Xor(a, b)) == Xor(e(a), e(b))
  {
  }

  // ----- the entries at the powers of two

  ghost predicate DoublesNumber(a: nat, b: nat, d: nat) {
    b == 2 * a || b == Xor(2 * a, d)
  }

  lemma {:induction false} PowerEntry(g: Generator, n: nat, a: nat -> nat, i: nat)
    requires g.Valid() && i < n && a(0) == g.poly
    requires forall j: nat :: j <= i ==> a(j) < Pow2(g.width)
    requires forall j: nat :: j < i ==> DoublesNumber(a(j), a(j + 1), g.Divisor())
    ensures a(i) == TableEntry(g, n, Pow2(i))
  {
    if i == 0 {
      EntryOne(g, n);
    } else {
      PowerEntry(g, n, a, i - 1);
      Pow2Mono(i + 1, n);
      EntryTwice(g, n, Pow2(i - 1), a(i));
    }
  }

  function Powers<W>(rows: seq<seq<W>>): seq<W>
    requires Shape(rows)
  {
    [rows[0][1], rows[0][2], rows[0][4], rows[0][8], rows[1][0], rows[2][0], rows[4][0], rows[8][0]]
  }

  /** Eight numbers below the divisor, each the double of the one before. */
  ghost predicate DoublingNumbered<W(!new)>(g: Generator, number: W -> nat, x: seq<W>) {
    && |x| == 8 && number(x[0]) == g.poly
    && (forall j :: 0 <= j < 8 ==> number(x[j]) < Pow2(g.width))
    && (forall j :: 0 <= j < 7 ==> DoublesNumber(number(x[j]), number(x[j + 1]), g.Divisor()))
  }

  lemma PowerNumbers<W(!new)>(g: Generator, n: nat, number: W -> nat, x: seq<W>, i: nat)
    requires g.Valid() && i < 8 <= n && DoublingNumbered(g, number, x)
    ensures number(x[i]) == EntryOf(g, n)(Pow2(i))
  {
    var a := (j: nat) => if j < 8 then number(x[j]) else 0;
    forall j: nat | j < i
      ensures DoublesNumber(a(j), a(j + 1), g.Divisor())
    {
      assert DoublesNumber(number(x[j]), number(x[j + 1]), g.Divisor());
    }
    PowerEntry(g, n, a, i);
  }

  lemma PowersOfTwo()
    ensures Pow2(0) == 1 && Pow2(1) == 2 && Pow2(2) == 4 && Pow2(3) == 8
    ensures Pow2(4) == 16 && Pow2(5) == 32 && Pow2(6) == 64 && Pow2(7) == 128
  {
  }

  /** A table of words of which the first row and the heads of the rows are right. */
  ghost predicate WellBased<W(!new)>(g: Generator, xor: (W, W) -> W, number: W -> nat, rows: seq<seq<W>>) {
    && g.Valid() && Shape(rows) && Linear(xor, number) && number(rows[0][0]) == 0
    && SpannedBy(xor, rows[0]) && SpannedBy(xor, Heads(rows))
    && DoublingNumbered(g, number, Powers(rows))
  }

  lemma TableBased<W(!new)>(g: Generator, n: nat, xor: (W, W) -> W, number: W -> nat, rows: seq<seq<W>>)
    requires n >= 8 && WellBased(g, xor, number, rows)
    ensures Based(EntryOf(g, n), xor, number, rows)
  {
    var x := Powers(rows);
    PowersOfTwo();
    PowerNumbers(g, n, number, x, 0);
    PowerNumbers(g, n, number, x, 1);
    PowerNumbers(g, n, number, x, 2);
    PowerNumbers(g, n, number, x, 3);
    PowerNumbers(g, n, number, x, 4);
    PowerNumbers(g, n, number, x, 5);
    PowerNumbers(g, n, number, x, 6);
    PowerNumbers(g, n, number, x, 7);
  }

  // ----- whole tables

  predicate FourRows<W(==)>(xor: (W, W) -> W, rows: seq<seq<W>>, i: nat)
    requires Shape(rows) && i <= 12
  {
    && rows[i] == Shifted(xor, rows[i][0], rows[0])
    && rows[i + 1] == Shifted(xor, rows[i + 1][0], rows[0])
    && rows[i + 2] == Shifted(xor, rows[i + 2][0], rows[0])
    && rows[i + 3] == Shifted(xor, rows[i + 3][0], rows[0])
  }

  predicate EightRows<W(==)>(xor: (W, W) -> W, rows: seq<seq<W>>, i: nat)
    requires Shape(rows) && i <= 8
  {
    FourRows(xor, rows, i) && FourRows(xor, rows, i + 4)
  }

  /** Every row is its head added to the first row. */
  predicate Sums<W(==)>(xor: (W, W) -> W, rows: seq<seq<W>>) {
    Shape(rows) && forall i :: 0 <= i < 16 ==> rows[i] == Shifted(xor, rows[i][0], rows[0])
  }

  lemma RowsShifted<W(!new)>(xor: (W, W) -> W, rows: seq<seq<W>>)
    requires Shape(rows) && EightRows(xor, rows, 0) && EightRows(xor, rows, 8)
    ensures Sums(xor, rows)
  {
  }

  /** Every word of a complete table is right. */
  lemma AllCells<W(!new)>(e: nat -> nat, xor: (W, W) -> W, number: W -> nat, rows: seq<seq<W>>, n: nat, k: nat)
    requires Based(e, xor, number, rows) && Adds(e, n) && Pow2(n) == 256 && Pow2(k) == 16 && Sums(xor, rows)
    ensures Holds(e, number, rows)
  {
    forall i, j | 0 <= i < 16 && 0 <= j < 16
      ensures number(rows[i][j]) == e(16 * i + j)
    {
      CellValue(e, xor, number, rows, i, j, n, k);
    }
  }

  /** The words of a table are the values of e. */
  ghost predicate Holds<W(!new)>(e: nat -> nat, number: W -> nat, rows: seq<seq<W>>) {
    Shape(rows) && forall i, j :: 0 <= i < 16 && 0 <= j < 16 ==> number(rows[i][j]) == e(16 * i + j)
  }

  lemma BasedEntries<W(!new)>(g: Generator, n: nat, k: nat, xor: (W, W) -> W, number: W -> nat, rows: seq<seq<W>>)
    requires g.Valid() && n >= 8 && Pow2(n) == 256 && Pow2(k) == 16
    requires Based(EntryOf(g, n), xor, number, rows) && Sums(xor, rows)
    ensures Holds(EntryOf(g, n), number, rows)
  {
    EntriesAdd(g, n);
    AllCells(EntryOf(g, n), xor, number, rows, n, k);
  }

  lemma AllEntries<W(!new)>(g: Generator, n: nat, k: nat, xor: (W, W) -> W, number: W -> nat, rows: seq<seq<W>>)
    requires n >= 8 && Pow2(n) == 256 && Pow2(k) == 16 && WellBased(g, xor, number, rows) && Sums(xor, rows)
    ensures Holds(EntryOf(g, n), number, rows)
  {
    TableBased(g, n, xor, number, rows);
    BasedEntries(g, n, k, xor, number, rows);
  }

  /** Eight words, each the double of the one before, less the divisor if need be. */
  predicate DoublingWords<W>(double: (W, W) -> bool, x: seq<W>)
    requires |x| == 8
  {
    && double(x[0], x[1]) && double(x[1], x[2]) && double(x[2], x[3]) && double(x[3], x[4])
    && double(x[4], x[5]) && double(x[5], x[6]) && double(x[6], x[7])
  }

  ghost predicate Doubling<W(!new)>(double: (W, W) -> bool, number: W -> nat, d: nat) {
    forall x: W, y: W {:trigger double(x, y)} :: double(x, y) ==> DoublesNumber(number(x), number(y), d)
  }

  /** What a table of words satisfies. */
  ghost predicate Words<W(!new)>(xor: (W, W) -> W, double: (W, W) -> bool, rows: seq<seq<W>>) {
    && Sums(xor, rows) && SpannedBy(xor, rows[0]) && SpannedBy(xor, Heads(rows))
    && forall j :: 0 <= j < 7 ==> double(Powers(rows)[j], Powers(rows)[j + 1])
  }

  lemma WordsOf<W(!new)>(xor: (W, W) -> W, double: (W, W) -> bool, rows: seq<seq<W>>)
    requires Shape(rows) && SpannedWords(xor, rows[0]) && SpannedWords(xor, Heads(rows)) && DoublingWords(double, Powers(rows))
    requires EightRows(xor, rows, 0) && EightRows(xor, rows, 8)
    ensures Words(xor, double, rows)
  {
    SpannedByWords(xor, rows[0]);
    SpannedByWords(xor, Heads(rows));
    RowsShifted(xor, rows);
  }

  lemma Built<W(!new)>(g: Generator, n: nat, k: nat, xor: (W, W) -> W, number: W -> nat, double: (W, W) -> bool, rows: seq<seq<W>>)
    requires n >= 8 && Pow2(n) == 256 && Pow2(k) == 16
    requires g.Valid() && Linear(xor, number) && Doubling(double, number, g.Divisor()) && Words(xor, double, rows)
    requires number(rows[0][0]) == 0 && number(rows[0][1]) == g.poly && forall y: W :: number(y) < Pow2(g.width)
    ensures Holds(EntryOf(g, n), number, rows)
  {
    AllEntries(g, n, k, xor, number, rows);
  }
}
