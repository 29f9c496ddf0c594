/** What objects compute with the tables in ROM, at the right widths and at the others. */
module RomChecksums {
  import opened Machine
  import opened Gf2
  import opened CrcRegister
  import opened Mirroring
  import opened CrcSteps
  import opened MbedCrc
  import opened CrcTheorems
  import opened BitVectors
  import CrcTables
  import opened TableAlgebra
  import opened RomWords
  import opened RomTables
  import opened WrongEntries

  // ----- every width

  /** Two indexes with equal entries, but not with equal remainders: one of them spoils a message of
      one byte, however the remainder is reflected at the stop. */
  lemma EqualEntriesSpoil(c: Crc, u: nat, v: nat) returns (b: uint8)
    requires ByteTabled(c) && c.width >= 8 && u < 256 && v < 256
    requires Low(c.table.entries[u], c.width) == Low(c.table.entries[v], c.width)
    requires TableEntry(c.Gen(), 8, u) != TableEntry(c.Gen(), 8, v)
    ensures c.Checksum([b]) != c.(table := Null).Checksum([b])
  {
    var reg, plain := c.Held(c.initialValue), c.(table := Null);
    HeldInRange(c, c.initialValue);
    var x := LookingAt(c, reg, u, 8);
    var y := LookingAt(c, reg, v, 8);
    SameTurn(c, reg, x, y);
    OtherRemainder(c, reg, x, y, 8);
    c.FedInRange(reg, [x]);
    c.FedInRange(reg, [y]);
    ResultInjective(plain, c.Fed(reg, [x]), c.Fed(reg, [y]));
    b := if c.Checksum([x]) != plain.Checksum([x]) then x else y;
  }

  lemma SameTurn(c: Crc, reg: nat, x: uint8, y: uint8)
    requires ByteTabled(c) && c.width >= 8 && c.Index(reg, x) < 256 && c.Index(reg, y) < 256
    requires Low(c.table.entries[c.Index(reg, x)], c.width) == Low(c.table.entries[c.Index(reg, y)], c.width)
    ensures c.Ran(reg, [x]) == c.Ran(reg, [y])
  {
    OneByteRan(c, reg, x);
    OneByteRan(c, reg, y);
    Crc.ByteIndexed(c.Index(reg, x));
    Crc.ByteIndexed(c.Index(reg, y));
    var rest := Low(Shl(reg, 8), c.width);
    XorLow(c.LookedUp(reg, x), rest, c.width);
    XorLow(c.LookedUp(reg, y), rest, c.width);
  }

  lemma OtherRemainder(c: Crc, reg: nat, x: uint8, y: uint8, k: nat)
    requires ByteTabled(c) && c.width >= 8 && reg < Pow2(c.Gen().width) && k == 8
    requires TableEntry(c.Gen(), k, c.Index(reg, x)) != TableEntry(c.Gen(), k, c.Index(reg, y))
    ensures c.Fed(reg, [x]) != c.Fed(reg, [y])
  {
    c.GenValid();
    ByteFed(c, reg, x, k);
    ByteFed(c, reg, y, k);
    var rest := Low(Shl(reg, k), c.Gen().width);
    XorCancel(TableEntry(c.Gen(), k, c.Index(reg, x)), rest);
    XorCancel(TableEntry(c.Gen(), k, c.Index(reg, y)), rest);
  }

  lemma ByteFed(c: Crc, reg: nat, b: uint8, k: nat)
    requires ByteTabled(c) && reg < Pow2(c.Gen().width) && k == 8
    ensures c.Fed(reg, [b]) == Xor(TableEntry(c.Gen(), k, c.Index(reg, b)), Low(Shl(reg, k), c.Gen().width))
  {
    c.GenValid();
    OneByteFed(c, reg, b);
    c.ReflectedIsByte(b, k);
    RegisterByTable(c.Gen(), reg, c.Reflected(b), k);
  }

  /** The reversed CRC-32 polynomial at a width of the byte loops: the first two entries are read
      as 0. */
  lemma ReversedSpoils(c: Crc, beyond: nat -> uint8) returns (b: uint8)
    requires Constructed(c, beyond) && c.polynomial == POLY_32BIT_REV_ANSI && 8 <= c.width <= 16
    ensures c.Checksum([b]) != c.(table := Null).Checksum([b])
  {
    ConstructedExact(c, beyond);
    ReversedBegins(c, beyond);
    c.GenValid();
    EntryZero(c.Gen(), 8);
    EntryOne(c.Gen(), 8);
    LowNonzero(c.polynomial, c.width, 8);
    b := EqualEntriesSpoil(c, 0, 1);
  }

  lemma ReversedBegins(c: Crc, beyond: nat -> uint8)
    requires Constructed(c, beyond) && c.polynomial == POLY_32BIT_REV_ANSI && 8 <= c.width <= 16
    ensures c.TableMode() && |c.table.entries| == 256 && c.table.entries[0] == c.table.entries[1]
  {
    var e, read := StoredRom(c.polynomial).entries, ReadSize(c.width);
    StoredBegins(c.polynomial);
    ReadEntries(c, beyond);
    EntriesReadAs(c.table, e, 4, read, beyond, 0);
    EntriesReadAs(c.table, e, 4, read, beyond, 1);
    PartsRead(e, 4, read, beyond);
    FirstPartRead(e, 4, read, beyond);
  }

  lemma FirstPartRead(e: seq<uint32>, size: nat, read: nat, beyond: nat -> uint8)
    requires ReadSizes(read, size) && |e| >= 1 && e[0] == 0
    ensures ReadAt(e, size, beyond, read, 0) == 0
  {
    ZeroByte(e, size, beyond, 0);
    ZeroByte(e, size, beyond, 1);
  }

  /** As constructed, at any width from 8 on: the checksums of all messages are those of the bitwise
      mode if and only if there is no table for the polynomial, or the width is one of the right ones.
      The right-shifting loop is compared in CrcTheorems.RightShiftingAgrees. */
  lemma ConstructedChecksums(c: Crc, beyond: nat -> uint8)
    requires Constructed(c, beyond) && c.width >= 8 && !c.RightShifting()
    ensures (forall data: seq<uint8> :: c.Checksum(data) == c.(table := Null).Checksum(data))
       <==> c.table.Null? || RightWidth(c.polynomial, c.width)
  {
    if c.table.Null? {
      assert c == c.(table := Null);
    } else if c.Unreflected() {
      var b := ReversedSpoils(c, beyond);
    } else {
      ConstructedExact(c, beyond);
      EveryChecksum(c);
    }
  }

  /** A concrete object whose table is read at another size: CRC-8 at width 16. */
  lemma OtherWidthExample(c: Crc, beyond: nat -> uint8)
    requires Constructed(c, beyond) && c.polynomial == POLY_8BIT_CCITT && c.width == 16
    requires c.initialValue == 0 && !c.reflectData
    ensures c.Valid() && c.Checksum([0]) != c.(table := Null).Checksum([0])
  {
    StoredBegins(c.polynomial);
    ReadEntries(c, beyond);
    ByteTableBegins(8);
    FirstEntryRead(c, StoredRom(c.polynomial).entries, beyond);
    ConstructedExact(c, beyond);
    WrongFirstEntry(c, 8);
  }

  lemma ByteTableBegins(w: nat)
    requires w == 8
    ensures StoredRom(POLY_8BIT_CCITT).entries[1] == 7
  {
    Ccitt8Polynomial(w);
    Ccitt8First();
    RowEntry(w);
  }

  lemma RowEntry(w: nat)
    requires w == 8 && Word(0x07, w) == 7
    ensures Entries(CrcTables.CCITT_8BIT, w)[1] == 7
  {
    Ccitt8First();
    EntryInRow(CrcTables.CCITT_8BIT, w, 0, 1);
  }

  lemma FirstEntryRead(c: Crc, e: seq<uint32>, beyond: nat -> uint8)
    requires |e| >= 2 && e[0] == 0 && e[1] == 7 && ReadAs(c.table, e, 1, 2, beyond)
    ensures c.table.entries[0] == 0x0700
  {
  }

  lemma WrongFirstEntry(c: Crc, k: nat)
    requires Comparable(c) && c.width == 16 && c.initialValue == 0 && !c.reflectData && k == 8
    requires c.table.entries[0] == 0x0700
    ensures c.Checksum([0]) != c.(table := Null).Checksum([0])
  {
    c.GenValid();
    WordSizes();
    LowIs(0, c.width);
    LowIs(0x0700, c.width);
    EntryZero(c.Gen(), k);
    ZeroIndex(c, k);
    OneByte(c, 0, 0);
    ChecksumsDiffer(c, [0]);
  }

  lemma ZeroIndex(c: Crc, k: nat)
    requires c.TableMode() && !c.RightShifting() && c.width == 16 && !c.reflectData && k == 8
    ensures c.Index(0, 0) == 0
  {
    ShrZero(c.width - k);
    XorZero(0);
  }

  lemma {:induction false} ShrZero(n: nat)
    ensures Shr(0, n) == 0
  {
    if n > 0 {
      ShrZero(n - 1);
    }
  }

  // ----- CRC-16/IBM

  lemma IbmComparable(c: Crc)
    requires IsIbm(c)
    ensures Comparable(c) && c.Gen().poly % 2 == 1
  {
    IbmValid(c);
  }

  lemma IbmZeroFrom(c: Crc)
    requires IsIbm(c)
    ensures ZeroFrom(c, 252)
  {
    IbmValid(c);
    forall v: nat | v < 256
      ensures if v < 252 then c.RightAt(v) else c.table.entries[v] == 0
    {
      IbmIndex(c, 8, 4, v);
    }
  }

  /** The bytes of a message look at the entries below index m only. */
  ghost predicate LooksBelow(c: Crc, m: nat, reg: nat, data: seq<uint8>)
    requires c.TableMode() && !c.RightShifting()
  {
    forall i :: 0 <= i < |data| ==> c.Index(c.Fed(reg, data[..i]), data[i]) < m
  }

  lemma IbmLooks(c: Crc, reg: nat, data: seq<uint8>)
    requires IsIbm(c) && ByteTabled(c)
    ensures LooksRight(c, reg, data) <==> LooksBelow(c, 252, reg, data)
  {
    forall i | 0 <= i < |data|
      ensures LooksRightAt(c, reg, data, i) <==> c.Index(c.Fed(reg, data[..i]), data[i]) < 252
    {
      var index := c.Index(c.Fed(reg, data[..i]), data[i]);
      if index < 256 {
        IbmIndex(c, 8, 4, index);
      }
    }
  }

  /** CRC-16/IBM: the register is the ideal one all along exactly when no byte looks at one of the
      four missing entries, and then the checksum is that of the bitwise mode. */
  lemma IbmFollowsIdeal(c: Crc, data: seq<uint8>)
    requires IsIbm(c)
    ensures c.Valid() && c.TableMode() && !c.RightShifting()
    ensures FollowsIdeal(c, c.Held(c.initialValue), data) <==> LooksBelow(c, 252, c.Held(c.initialValue), data)
    ensures LooksBelow(c, 252, c.Held(c.initialValue), data) ==> c.Checksum(data) == c.(table := Null).Checksum(data)
  {
    var reg := c.Held(c.initialValue);
    IbmComparable(c);
    HeldInRange(c, c.initialValue);
    IbmLooks(c, reg, data);
    RightUntilWrongEntry(c, reg, data);
    if LooksBelow(c, 252, reg, data) {
      RightAfter(c, reg, data);
      ChecksumsDiffer(c, data);
    }
  }

  /** For every CRC-16/IBM object and message: the checksum is right if and only if the string of
      the indexes that the message misses is divisible by the divisor. */
  lemma IbmChecksum(c: Crc, data: seq<uint8>)
    requires IsIbm(c)
    ensures c.Valid() && c.TableMode() && !c.RightShifting()
    ensures c.Checksum(data) == c.(table := Null).Checksum(data)
       <==> Register(c.Gen(), 0, BitsOf(Missed(c, 252, c.Held(c.initialValue), data), false, 8)) == 0
  {
    IbmComparable(c);
    IbmZeroFrom(c);
    MissedDecide(c, 252, data);
  }

  /** As its default constructor leaves an object for CRC-16/IBM. */
  const IBM_DEFAULT: Crc := Crc(POLY_16BIT_IBM, 16, 0, 0, true, true, StoredRom(POLY_16BIT_IBM))

  /** The checksum of the byte 0x3F is wrong. */
  lemma IbmExample(c: Crc)
    requires c == IBM_DEFAULT
    ensures c.Valid() && c.Checksum([0x3F]) != c.(table := Null).Checksum([0x3F])
  {
    FromZero(c, 0x3F);
  }

  lemma FromZero(c: Crc, b: uint8)
    requires IsIbm(c) && c.initialValue == 0 && c.reflectData && b == 0x3F
    ensures c.Valid() && c.Checksum([b]) != c.(table := Null).Checksum([b])
  {
    IbmComparable(c);
    FirstIndex(c, b, 8);
    IbmIndex(c, 8, 4, 252);
    ByteMisses(c, b);
  }

  lemma ByteMisses(c: Crc, b: uint8)
    requires Comparable(c) && c.Index(c.Held(c.initialValue), b) < 256 && !c.RightAt(c.Index(c.Held(c.initialValue), b))
    ensures c.Checksum([b]) != c.(table := Null).Checksum([b])
  {
    HeldInRange(c, c.initialValue);
    OneByte(c, c.Held(c.initialValue), b);
    ChecksumsDiffer(c, [b]);
  }

  lemma FirstIndex(c: Crc, b: uint8, k: nat)
    requires c.TableMode() && !c.RightShifting() && c.width == 16 && c.initialValue == 0 && c.reflectData && b == 0x3F && k == 8
    ensures c.Index(c.Held(c.initialValue), b) == 252
  {
    MirroredByte(k);
    FromNothing(c, b, k);
  }

  lemma FromNothing(c: Crc, b: uint8, k: nat)
    requires c.TableMode() && !c.RightShifting() && c.width == 16 && c.initialValue == 0 && k == 8
    ensures c.Index(c.Held(c.initialValue), b) == c.Reflected(b)
  {
    LowBound(0, c.width);
    ShrZero(c.width - k);
    XorZero(c.Reflected(b));
  }

  /** Mirroring a number of ones and zeros from the top: the ones first. */
  lemma MirroredByte(k: nat)
    requires k == 8
    ensures Mirror(k, 0x3F) == 252
  {
    PowersOfTwo();
    MirrorOfOdd(k, 63, Pow2(7));
    MirrorOfOdd(k - 1, 31, Pow2(6));
    MirrorOfOdd(k - 2, 15, Pow2(5));
    MirroredNibble(k - 3);
  }

  lemma MirroredNibble(k: nat)
    requires k == 5
    ensures Mirror(k, 7) == 28
  {
    PowersOfTwo();
    MirrorOfOdd(k, 7, Pow2(4));
    MirrorOfOdd(k - 1, 3, Pow2(3));
    MirrorOfOdd(k - 2, 1, Pow2(2));
    MirrorZero(k - 3);
  }

  lemma MirrorOfOdd(w: nat, p: nat, v: nat)
    requires w >= 1 && p % 2 == 1 && v == Pow2(w - 1)
    ensures Mirror(w, p) == v + Mirror(w - 1, p / 2)
  {
    ShlOne(w - 1);
  }

  // ----- misses that cancel

  /** One byte more of a string, with the register and the entry taken apart into bytes. */
  lemma LeftByBytes(g: Generator, n: nat, bytes: seq<nat>, x: nat, hi: nat, lo: nat, th: nat, tl: nat)
    requires g.Valid() && g.width == n + n
    requires x < Pow2(n) && hi < Pow2(n) && lo < Pow2(n) && tl < Pow2(n)
    requires Left(g, bytes, n) == Shl(hi, n) + lo && TableEntry(g, n, Xor(x, hi)) == Shl(th, n) + tl
    ensures Left(g, bytes + [x], n) == Shl(Xor(th, lo), n) + tl
  {
    LeftOneMore(g, bytes, x, n);
    FedApart(g, n, Left(g, bytes, n), x, hi, lo, th, tl);
  }

  lemma FedApart(g: Generator, n: nat, reg: nat, x: nat, hi: nat, lo: nat, th: nat, tl: nat)
    requires g.Valid() && g.width == n + n && reg == Shl(hi, n) + lo
    requires x < Pow2(n) && hi < Pow2(n) && lo < Pow2(n) && tl < Pow2(n)
    requires TableEntry(g, n, Xor(x, hi)) == Shl(th, n) + tl
    ensures Register(g, reg, ToBits(x, n)) == Shl(Xor(th, lo), n) + tl
  {
    BytesApart(hi, lo, n, g.width);
    BytesFed(g, n, reg, x, hi, lo, th, tl);
  }

  lemma BytesFed(g: Generator, n: nat, reg: nat, x: nat, hi: nat, lo: nat, th: nat, tl: nat)
    requires g.Valid() && n <= g.width && reg < Pow2(g.width) && x < Pow2(n) && tl < Pow2(n)
    requires Shr(reg, g.width - n) == hi && Low(Shl(reg, n), g.width) == Shl(lo, n)
    requires TableEntry(g, n, Xor(x, hi)) == Shl(th, n) + tl
    ensures Register(g, reg, ToBits(x, n)) == Shl(Xor(th, lo), n) + tl
  {
    ByEntry(g, reg, x, n);
    BytesAdded(th, tl, lo, n);
  }

  lemma ByEntry(g: Generator, reg: nat, x: nat, n: nat)
    requires g.Valid() && reg < Pow2(g.width) && x < Pow2(n) && n <= g.width
    ensures Register(g, reg, ToBits(x, n)) == Xor(TableEntry(g, n, Xor(x, Shr(reg, g.width - n))), Low(Shl(reg, n), g.width))
  {
    RegisterByTable(g, reg, x, n);
  }

  lemma BytesAdded(th: nat, tl: nat, lo: nat, n: nat)
    requires tl < Pow2(n)
    ensures Xor(Shl(th, n) + tl, Shl(lo, n)) == Shl(Xor(th, lo), n) + tl
  {
    XorParts(th, tl, lo, 0, n);
    XorZero(tl);
  }

  lemma BytesApart(hi: nat, lo: nat, n: nat, w: nat)
    requires hi < Pow2(n) && lo < Pow2(n) && w == n + n
    ensures var reg := Shl(hi, n) + lo;
      reg < Pow2(w) && Shr(reg, w - n) == hi && Low(Shl(reg, n), w) == Shl(lo, n)
  {
    ShlBound(hi, n, n);
    Joined(hi, lo, n);
    MovedUp(Shl(hi, n) + lo, w, n);
  }

  lemma CancellingLow0()
    ensures Nat(0x820d, 8) == 0x0d
  {
  }

  lemma CancellingHigh0()
    ensures Nat(0x82, 8) == 0x82
  {
  }

  lemma CancellingLow1()
    ensures Nat(0x8101, 8) == 0x01
  {
  }

  lemma CancellingHigh1()
    ensures Nat(0x81, 8) == 0x81
  {
  }

  lemma CancellingLow2()
    ensures Nat(0x832b, 8) == 0x2b
  {
  }

  lemma CancellingHigh2()
    ensures Nat(0x83, 8) == 0x83
  {
  }

  lemma CancellingLow3()
    ensures Nat(0x01fe, 8) == 0xfe
  {
  }

  lemma CancellingHigh3()
    ensures Nat(0x01, 8) == 0x01
  {
  }

  lemma CancellingCells()
    ensures Shape(IBM_REPAIRED)
    ensures IBM_REPAIRED[15][13] == 0x820d && IBM_REPAIRED[7][15] == 0x8101
    ensures IBM_REPAIRED[8][12] == 0x832b && IBM_REPAIRED[5][5] == 0x01fe
  {
  }

  /** The right entries at four indexes, the first of which is missing in the table. */
  ghost predicate FourEntries(g: Generator, n: nat)
    requires g.width >= 1
  {
    && TableEntry(g, n, 0xFD) == Shl(0x82, n) + 0x0D && TableEntry(g, n, 0x7F) == Shl(0x81, n) + 0x01
    && TableEntry(g, n, 0x8C) == Shl(0x83, n) + 0x2B && TableEntry(g, n, 0x55) == Shl(0x01, n) + 0xFE
  }

  lemma EntryOfCell(g: Generator, n: nat, i: nat, j: nat, x: bv40, y: bv40, hi: nat, lo: nat)
    requires g.width == 16 && Holds(EntryOf(g, n), NumberOf(g.width), IBM_REPAIRED) && i < 16 && j < 16
    requires Shape(IBM_REPAIRED) && IBM_REPAIRED[i][j] == x && y == x >> 8 && Nat(x, 8) == lo && Nat(y, 8) == hi
    requires Pow2(n) == 256
    ensures TableEntry(g, n, 16 * i + j) == Shl(hi, n) + lo
  {
    HoldsEntry(g, n, IBM_REPAIRED, i, j);
    TwoBytes(x, y, 8, hi, lo);
    ShlIsProduct(hi, n);
  }

  lemma EntriesAre(g: Generator, n: nat, k: nat)
    requires n >= 8 && Pow2(n) == 256 && Pow2(k) == 16 && g.Valid() && g.width == 16 && g.poly == 0x8005
    ensures FourEntries(g, n)
  {
    IbmHolds(g, n, k);
    CancellingCells();
    CancellingLow0();
    CancellingHigh0();
    CancellingLow1();
    CancellingHigh1();
    CancellingLow2();
    CancellingHigh2();
    CancellingLow3();
    CancellingHigh3();
    EntryOfCell(g, n, 15, 13, 0x820d, 0x82, 0x82, 0x0d);
    EntryOfCell(g, n, 7, 15, 0x8101, 0x81, 0x81, 0x01);
    EntryOfCell(g, n, 8, 12, 0x832b, 0x83, 0x83, 0x2b);
    EntryOfCell(g, n, 5, 5, 0x01fe, 0x01, 0x01, 0xfe);
  }

  /** Bytes are added nibble by nibble. */
  lemma ByteSum(a: nat, b: nat, c: nat, d: nat, n: nat)
    requires b < 16 && d < 16 && n == 4
    ensures Xor(16 * a + b, 16 * c + d) == 16 * Xor(a, c) + Xor(b, d)
  {
    PowersOfTwo();
    SixteenFold(a, n);
    SixteenFold(c, n);
    SixteenFold(Xor(a, c), n);
    XorParts(a, b, c, d, n);
  }

  lemma NibbleSums()
    ensures Xor(0xF, 0x8) == 0x7 && Xor(0xD, 0x2) == 0xF && Xor(0x1, 0xD) == 0xC && Xor(0x3, 0x1) == 0x2
    ensures Xor(0x8, 0x2) == 0xA && Xor(0x1, 0xB) == 0xA && Xor(0xF, 0xA) == 0x5 && Xor(0x8, 0) == 0x8
  {
  }

  lemma ByteSums0()
    ensures Xor(0xFD, 0x82) == 0x7F && Xor(0x81, 0x0D) == 0x8C
  {
    NibbleSums();
    ByteSum(0xF, 0xD, 0x8, 0x2, 4);
    ByteSum(0x8, 0x1, 0x0, 0xD, 4);
  }

  lemma ByteSums1()
    ensures Xor(0x83, 0x01) == 0x82 && Xor(0x81, 0x2B) == 0xAA
  {
    NibbleSums();
    ByteSum(0x8, 0x3, 0x0, 0x1, 4);
    ByteSum(0x8, 0x1, 0x2, 0xB, 4);
  }

  lemma ByteSums2()
    ensures Xor(0xFF, 0xAA) == 0x55 && Xor(0x01, 0x01) == 0
  {
    NibbleSums();
    ByteSum(0xF, 0xF, 0xA, 0xA, 4);
    XorSelf(0x01);
  }

  /** Five missed indexes, and two bytes that miss none. */
  const CANCELLING: seq<nat> := [0xFD, 0xFD, 0, 0xFD, 0xFF, 0, 0xFE]

  lemma FirstThree(g: Generator, n: nat, none: seq<nat>)
    requires g.Valid() && g.width == n + n && Pow2(n) == 256 && FourEntries(g, n) && none == []
    ensures Left(g, none + [0xFD] + [0xFD] + [0], n) == Shl(0x82, n) + 0x2B
  {
    ByteSums0();
    ByteSums1();
    XorZero(0xFD);
    XorZero(0x82);
    XorZero(0x8C);
    ShlOne(n);
    LeftByBytes(g, n, none, 0xFD, 0, 0, 0x82, 0x0D);
    LeftByBytes(g, n, none + [0xFD], 0xFD, 0x82, 0x0D, 0x81, 0x01);
    LeftByBytes(g, n, none + [0xFD] + [0xFD], 0, 0x8C, 0x01, 0x83, 0x2B);
  }

  lemma NextTwo(g: Generator, n: nat, three: seq<nat>)
    requires g.Valid() && g.width == n + n && Pow2(n) == 256 && FourEntries(g, n)
    requires Left(g, three, n) == Shl(0x82, n) + 0x2B
    ensures Left(g, three + [0xFD] + [0xFF], n) == 0xFE
  {
    ByteSums0();
    ByteSums1();
    ByteSums2();
    ShlOne(n);
    LeftByBytes(g, n, three, 0xFD, 0x82, 0x2B, 0x81, 0x01);
    LeftByBytes(g, n, three + [0xFD], 0xFF, 0xAA, 0x01, 0x01, 0xFE);
  }

  lemma LastTwo(g: Generator, n: nat, five: seq<nat>)
    requires g.Valid() && g.width == n + n && Pow2(n) == 256 && Left(g, five, n) == 0xFE
    ensures Left(g, five + [0] + [0xFE], n) == 0
  {
    XorZero(0);
    XorZero(0xFE);
    XorSelf(0xFE);
    EntryZero(g, n);
    ShlOne(n);
    LeftByBytes(g, n, five, 0, 0, 0xFE, 0, 0);
    LeftByBytes(g, n, five + [0], 0xFE, 0xFE, 0, 0, 0);
  }

  lemma CancellingLeavesNothing(g: Generator, n: nat)
    requires g.Valid() && g.width == n + n && Pow2(n) == 256 && FourEntries(g, n)
    ensures Left(g, CANCELLING, n) == 0
  {
    var three: seq<nat> := [] + [0xFD] + [0xFD] + [0];
    var five := three + [0xFD] + [0xFF];
    FirstThree(g, n, []);
    NextTwo(g, n, three);
    LastTwo(g, n, five);
    assert CANCELLING == five + [0] + [0xFE];
  }

  lemma CancellingMissable(m: nat)
    requires m == 252
    ensures Missable(m, CANCELLING)
  {
    MissableMore(m, [], 0xFD);
    MissableMore(m, [] + [0xFD], 0xFD);
    MissableMore(m, [] + [0xFD] + [0xFD], 0);
    var three: seq<nat> := [] + [0xFD] + [0xFD] + [0];
    MissableMore(m, three, 0xFD);
    MissableMore(m, three + [0xFD], 0xFF);
    MissableMore(m, three + [0xFD] + [0xFF], 0);
    MissableMore(m, three + [0xFD] + [0xFF] + [0], 0xFE);
    assert CANCELLING == three + [0xFD] + [0xFF] + [0] + [0xFE];
  }

  /** Every CRC-16/IBM object has a message of seven bytes that misses five entries and yet gets the
      right checksum. */
  lemma MissesCancel(c: Crc) returns (data: seq<uint8>)
    requires IsIbm(c)
    ensures c.Valid() && c.TableMode() && !c.RightShifting()
    ensures Missed(c, 252, c.Held(c.initialValue), data) == CANCELLING
    ensures c.Checksum(data) == c.(table := Null).Checksum(data)
  {
    IbmZeroFrom(c);
    HeldInRange(c, c.initialValue);
    CancellingMissable(252);
    data := MissingMessage(c, 252, c.Held(c.initialValue), CANCELLING);
    IbmChecksum(c, data);
    CancellingDivisible(c, 8, 4);
  }

  lemma CancellingDivisible(c: Crc, n: nat, k: nat)
    requires IsIbm(c) && n == 8 && k == 4
    ensures Register(c.Gen(), 0, BitsOf(CANCELLING, false, n)) == 0
  {
    IbmValid(c);
    WordSizes();
    PowersOfTwo();
    EntriesAre(c.Gen(), n, k);
    CancellingLeavesNothing(c.Gen(), n);
    LeftIsRegister(c.Gen(), CANCELLING, n);
  }
}
