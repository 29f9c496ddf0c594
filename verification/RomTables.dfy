/** The table that the constructor picks, and what its objects compute with it. */
module RomTables {
  import opened Machine
  import opened Gf2
  import opened CrcRegister
  import opened Mirroring
  import opened CrcSteps
  import opened MbedCrc
  import opened CrcTheorems
  import opened CrcTables
  import opened TableAlgebra
  import opened ShortTables
  import opened RomWords

  const POLY_7BIT_SD: uint32 := 0x09
  const POLY_8BIT_CCITT: uint32 := 0x07
  const POLY_16BIT_CCITT: uint32 := 0x1021
  const POLY_16BIT_IBM: uint32 := 0x8005
  const POLY_32BIT_ANSI: uint32 := 0x04C11DB7

  /** The table that the ROM has for a polynomial. */
  function StoredRom(polynomial: uint32): CrcTable {
    if polynomial == POLY_32BIT_ANSI then Rom(Entries(ANSI_32BIT, 32))
    else if polynomial == POLY_32BIT_REV_ANSI then Rom(seq(16, v requires 0 <= v < 16 => Word(REV_ANSI[v], 32)))
    else if polynomial == POLY_8BIT_CCITT then Rom(Entries(CCITT_8BIT, 8))
    else if polynomial == POLY_7BIT_SD then Rom(Entries(SD_7BIT, 8))
    else if polynomial == POLY_16BIT_CCITT then Rom(Entries(CCITT_16BIT, 16))
    else if polynomial == POLY_16BIT_IBM then Rom(Entries(IBM_16BIT, 16))
    else Null
  }

  /** The width that the name of a tabled polynomial tells. */
  function NamedWidth(polynomial: uint32): nat {
    if polynomial == POLY_7BIT_SD then 7
    else if polynomial == POLY_8BIT_CCITT then 8
    else if polynomial == POLY_16BIT_CCITT || polynomial == POLY_16BIT_IBM then 16
    else 32
  }

  lemma LowIs(a: nat, w: nat)
    requires a < Pow2(w)
    ensures Low(a, w) == a
  {
    LowBound(a, w);
  }

  lemma WordSizes()
    ensures Pow2(8) == 256 && Pow2(16) == 0x1_0000
  {
    assert Pow2(8) == 256;
  }

  // ----- the table as the loop reads it

  /** The bytes of an entry of a table. */
  function EntrySize(polynomial: uint32): nat {
    if polynomial == POLY_7BIT_SD || polynomial == POLY_8BIT_CCITT then 1
    else if polynomial == POLY_16BIT_CCITT || polynomial == POLY_16BIT_IBM then 2
    else 4
  }

  /** The bytes of an entry as the loop for a width reads it. */
  function ReadSize(width: nat): nat {
    if width <= 8 then 1 else if width <= 16 then 2 else 4
  }

  function ByteOf(x: uint32, k: nat): uint8 {
    if k == 0 then x % 0x100 else ByteOf(x / 0x100, k - 1)
  }

  /** Byte i of a table in ROM, least significant byte of an entry first, or of what follows. */
  function RomByte(entries: seq<uint32>, size: nat, beyond: nat -> uint8, i: nat): uint8
    requires size > 0
  {
    if i / size < |entries| then ByteOf(entries[i / size], i % size) else beyond(i)
  }

  function ReadAt(entries: seq<uint32>, size: nat, beyond: nat -> uint8, read: nat, v: nat): uint32
    requires size > 0
  {
    if read == 1 then RomByte(entries, size, beyond, v)
    else if read == 2 then Word16(RomByte(entries, size, beyond, 2 * v + 1), RomByte(entries, size, beyond, 2 * v))
    else Word32(RomByte(entries, size, beyond, 4 * v + 3), RomByte(entries, size, beyond, 4 * v + 2),
                RomByte(entries, size, beyond, 4 * v + 1), RomByte(entries, size, beyond, 4 * v))
  }

  /** The table that the constructor picks by the polynomial alone, as the loop for the width of
      the object reads it. */
  function RomOf(polynomial: uint32, width: nat, beyond: nat -> uint8): CrcTable {
    var stored, size, read := StoredRom(polynomial), EntrySize(polynomial), ReadSize(width);
    if stored.Null? || read == size then stored
    else Rom(seq(256, v requires 0 <= v < 256 => ReadAt(stored.entries, size, beyond, read, v)))
  }

  /** As constructed, without hardware support. */
  predicate Constructed(c: Crc, beyond: nat -> uint8) {
    c.width <= 32 && c.table == RomOf(c.polynomial, c.width, beyond)
  }

  /** The widths at which the table for a polynomial, as it is read, is right: the one in the
      polynomial's name, unless it is CRC-16/IBM, and one more for CCITT-16 and for ANSI-32. The
      right-shifting loop has one and the same table at every width above 16. */
  predicate RightWidth(polynomial: uint32, width: nat) {
    if polynomial == POLY_32BIT_REV_ANSI then width > 16
    else
      || (width == NamedWidth(polynomial) && polynomial != POLY_16BIT_IBM)
      || (polynomial == POLY_16BIT_CCITT && width == 9)
      || (polynomial == POLY_32BIT_ANSI && width == 22)
  }

  // ----- at the width in the polynomial's name

  /** A byte table of an object, read at its own entry size. */
  predicate ReadWhole(c: Crc) {
    && c.TableMode() && !c.RightShifting() && c.width <= 32
    && c.table == StoredRom(c.polynomial) && ReadSize(c.width) == EntrySize(c.polynomial)
  }

  lemma Unread(c: Crc, beyond: nat -> uint8)
    requires Constructed(c, beyond) && c.TableMode() && !c.RightShifting() && ReadSize(c.width) == EntrySize(c.polynomial)
    ensures ReadWhole(c)
  {
  }

  /** The divisor of a byte table from width 8 on. */
  lemma WideGenerator(c: Crc)
    requires 8 <= c.width <= 32 && !c.RightShifting()
    ensures c.Gen() == Generator(c.width, Low(c.polynomial, c.width)) && c.Gen().Valid()
  {
    c.GenValid();
  }

  /** The divisor that a stored table is made for. */
  function MadeFor(polynomial: uint32): Generator {
    if polynomial == POLY_7BIT_SD then Generator(8, 0x12) else Generator(NamedWidth(polynomial), polynomial)
  }

  lemma MadeForValid(polynomial: uint32)
    requires StoredRom(polynomial).Rom? && polynomial != POLY_32BIT_REV_ANSI
    ensures MadeFor(polynomial).Valid() && 8 <= MadeFor(polynomial).width <= 32
    ensures EntrySize(polynomial) == 2 ==> Pow2(MadeFor(polynomial).width) == 0x1_0000
    ensures polynomial == POLY_32BIT_ANSI ==> Pow2(MadeFor(polynomial).width) == 0x1_0000_0000
  {
    WordSizes();
    WordSize();
  }

  /** At its own width an object divides by it. */
  lemma NamedGenerator(c: Crc, k: nat)
    requires ReadWhole(c) && c.width == NamedWidth(c.polynomial) && k == 8
    ensures c.Gen() == MadeFor(c.polynomial)
  {
    WordSizes();
    WordSize();
    if c.width == 7 {
      LowIs(0x12, k);
    } else {
      LowIs(c.polynomial, c.width);
    }
  }

  /** The stored entries are the remainders for that divisor. */
  ghost predicate Stores(c: Crc, n: nat)
    requires c.TableMode()
  {
    && |c.table.entries| == 256 && Pow2(n) == 256
    && forall v: nat :: v < 256 ==> c.table.entries[v] == TableEntry(MadeFor(c.polynomial), n, v)
  }

  lemma StoresRows(c: Crc, g: Generator, rows: seq<seq<bv40>>, n: nat)
    requires c.TableMode() && g == MadeFor(c.polynomial) && 1 <= g.width <= 32 && Pow2(n) == 256
    requires Holds(EntryOf(g, n), NumberOf(g.width), rows) && c.table == Rom(Entries(rows, g.width))
    ensures Stores(c, n)
  {
    HoldsEntries(g, n, rows);
  }

  lemma SdStores(c: Crc, n: nat, k: nat)
    requires ReadWhole(c) && c.polynomial == POLY_7BIT_SD && n == 8 && k == 4
    ensures Stores(c, n)
  {
    WordSizes();
    PowersOfTwo();
    MadeForValid(c.polynomial);
    SdHolds(MadeFor(c.polynomial), n, k);
    StoresRows(c, MadeFor(c.polynomial), SD_7BIT, n);
  }

  lemma Ccitt8Stores(c: Crc, n: nat, k: nat)
    requires ReadWhole(c) && c.polynomial == POLY_8BIT_CCITT && n == 8 && k == 4
    ensures Stores(c, n)
  {
    WordSizes();
    PowersOfTwo();
    MadeForValid(c.polynomial);
    Ccitt8Holds(MadeFor(c.polynomial), n, k);
    StoresRows(c, MadeFor(c.polynomial), CCITT_8BIT, n);
  }

  lemma Ccitt16Stores(c: Crc, n: nat, k: nat)
    requires ReadWhole(c) && c.polynomial == POLY_16BIT_CCITT && n == 8 && k == 4
    ensures Stores(c, n) && Holds(EntryOf(MadeFor(c.polynomial), n), NumberOf(16), CCITT_16BIT)
  {
    WordSizes();
    PowersOfTwo();
    MadeForValid(c.polynomial);
    Ccitt16Holds(MadeFor(c.polynomial), n, k);
    StoresRows(c, MadeFor(c.polynomial), CCITT_16BIT, n);
  }

  lemma AnsiStores(c: Crc, n: nat, k: nat)
    requires ReadWhole(c) && c.polynomial == POLY_32BIT_ANSI && n == 8 && k == 4
    ensures Stores(c, n) && Holds(EntryOf(MadeFor(c.polynomial), n), NumberOf(32), ANSI_32BIT)
  {
    WordSizes();
    PowersOfTwo();
    MadeForValid(c.polynomial);
    AnsiHolds(MadeFor(c.polynomial), n, k);
    StoresRows(c, MadeFor(c.polynomial), ANSI_32BIT, n);
  }

  lemma StoredExact(c: Crc, n: nat)
    requires ReadWhole(c) && Stores(c, n) && n == 8 && c.Gen() == MadeFor(c.polynomial)
    ensures c.Exact()
  {
    c.GenValid();
    forall v: nat | v < 256
      ensures c.RightAt(v)
    {
      EntryFits(c.Gen(), n, v);
    }
  }

  lemma NamedExact(c: Crc)
    requires ReadWhole(c) && c.width == NamedWidth(c.polynomial) && c.polynomial != POLY_16BIT_IBM
    ensures c.Exact()
  {
    if c.polynomial == POLY_7BIT_SD {
      SdStores(c, 8, 4);
    } else if c.polynomial == POLY_8BIT_CCITT {
      Ccitt8Stores(c, 8, 4);
    } else if c.polynomial == POLY_16BIT_CCITT {
      Ccitt16Stores(c, 8, 4);
    } else {
      AnsiStores(c, 8, 4);
    }
    NamedGenerator(c, 8);
    StoredExact(c, 8);
  }

  /** The table of the right-shifting loop. */
  lemma RevExact(c: Crc, w: nat, k: nat)
    requires c.width <= 32 && c.RightShifting() && c.table == StoredRom(c.polynomial) && w == 32 && k == 4
    ensures c.Exact()
  {
    RevEntries(c, w, k);
  }

  lemma RevEntries(c: Crc, w: nat, k: nat)
    requires c.RightShifting() && w == 32 && k == 4 && c.table == StoredRom(c.polynomial)
    ensures forall v: nat :: v < 16 ==> c.table.entries[v] == RightEntry(c.Gen(), k, v)
  {
    RevGenerator(c, w);
    forall v: nat | v < 16
      ensures c.table.entries[v] == RightEntry(c.Gen(), k, v)
    {
      RevHolds(w, k, v);
    }
  }

  lemma RevGenerator(c: Crc, w: nat)
    requires c.RightShifting() && w == 32
    ensures c.Gen().width == w && Mirror(w, c.Gen().poly) == POLY_32BIT_REV_ANSI
  {
    MirrorTwice(w, c.polynomial);
    WordSize();
    LowBound(c.polynomial, w);
  }

  // ----- CRC-16/IBM

  lemma EntryNonzero(g: Generator, n: nat, v: nat)
    requires g.Valid() && g.poly % 2 == 1 && n <= g.width && 0 < v < Pow2(n)
    ensures TableEntry(g, n, v) != 0
  {
    ValueOfBits(v, n);
    ValueOfBits(0, n);
    LowBound(v, n);
    LowBound(0, n);
    EntryZero(g, n);
    ShortStringsSeparated(g, 0, ToBits(v, n), ToBits(0, n));
  }

  predicate IsIbm(c: Crc) {
    c.polynomial == POLY_16BIT_IBM && c.width == 16 && c.table == StoredRom(c.polynomial)
  }

  lemma IbmValid(c: Crc)
    requires IsIbm(c)
    ensures c.Valid() && c.TableMode() && !c.RightShifting() && !c.Unreflected() && ReadWhole(c)
    ensures c.Gen() == MadeFor(c.polynomial) == Generator(16, POLY_16BIT_IBM) && c.Gen().Valid()
  {
    NamedGenerator(c, 8);
    c.GenValid();
  }

  /** Its entries from index 252 on are 0; just the others are right. */
  lemma IbmIndex(c: Crc, n: nat, k: nat, v: nat)
    requires IsIbm(c) && n == 8 && k == 4 && v < 256
    ensures c.TableMode() && !c.RightShifting() && |c.table.entries| == 256
    ensures c.table.entries[v] == if v < 252 then TableEntry(MadeFor(c.polynomial), n, v) else 0
    ensures c.RightAt(v) <==> v < 252
  {
    IbmValid(c);
    WordSizes();
    PowersOfTwo();
    IbmEntries(c.Gen(), n, k, v);
    if v < 252 {
      EntryFits(c.Gen(), n, v);
    } else {
      EntryNonzero(c.Gen(), n, v);
      LowBound(0, c.Gen().width);
    }
  }

  // ----- at another width, with entries of another size

  /** An exact byte table begins with 0 and the polynomial. */
  lemma ExactBegins(c: Crc, n: nat)
    requires c.Exact() && c.TableMode() && !c.RightShifting() && n == 8
    ensures Low(c.table.entries[0], c.Gen().width) == 0 && Low(c.table.entries[1], c.Gen().width) == c.Gen().poly
  {
    c.GenValid();
    EntryZero(c.Gen(), n);
    EntryOne(c.Gen(), n);
    assert c.RightAt(0) && c.RightAt(1);
  }

  /** ... and with a polynomial of no terms, all of it is 0 at the first powers of two. */
  lemma ExactNothing(c: Crc, n: nat)
    requires c.Exact() && c.TableMode() && !c.RightShifting() && n == 8 && c.Gen().poly == 0
    ensures Low(c.table.entries[2], c.Gen().width) == 0 && Low(c.table.entries[4], c.Gen().width) == 0
  {
    c.GenValid();
    WordSizes();
    NothingDoubled(c.Gen(), n);
    assert c.RightAt(2) && c.RightAt(4);
  }

  lemma NothingDoubled(g: Generator, n: nat)
    requires g.Valid() && g.poly == 0 && Pow2(n) == 256
    ensures TableEntry(g, n, 2) == 0 && TableEntry(g, n, 4) == 0
  {
    EntryOne(g, n);
    EntryTwice(g, n, 1, 0);
    EntryTwice(g, n, 2, 0);
  }

  predicate ReadSizes(size: nat, read: nat) {
    (size == 1 && (read == 2 || read == 4)) || (size == 2 && read == 4)
  }

  /** The entries in one of another size. */
  function Ratio(large: nat, small: nat): nat {
    if large == 4 && small == 1 then 4 else 2
  }

  lemma ByteOfLow(x: nat, w: nat, k: nat)
    requires w >= k == 8
    ensures Low(x, w) % 0x100 == x % 0x100
  {
    ByteIsLow8(x, k);
    ByteIsLow8(Low(x, w), k);
    LowLow(x, k, w);
  }

  /** Entries read two or four at once: the low byte of the second one is that of a later entry,
      and not that of the polynomial. */
  lemma WideInexact(c: Crc, e: seq<uint32>, size: nat, read: nat, beyond: nat -> uint8)
    requires ReadSizes(size, read)
    requires |e| > 4 && Unlike(c.polynomial, e, Ratio(read, size)) && c.width >= 8
    requires c.TableMode() && !c.RightShifting() && |c.table.entries| == 256
    requires c.table.entries[1] == ReadAt(e, size, beyond, read, 1)
    ensures !c.Exact()
  {
    SecondRead(e, size, read, beyond);
    if c.Exact() {
      ExactBegins(c, 8);
      ByteOfLow(c.table.entries[1], c.width, 8);
      ByteOfLow(c.polynomial, c.width, 8);
      assert false;
    }
  }

  lemma LowestByte(e: seq<uint32>, size: nat, beyond: nat -> uint8, i: nat, v: nat)
    requires (size == 1 && i == v) || (size == 2 && i == 2 * v)
    requires v < |e|
    ensures RomByte(e, size, beyond, i) == e[v] % 0x100
  {
    Lowest(v);
  }

  lemma Lowest(v: nat)
    ensures v / 1 == v && v % 1 == 0 && 2 * v / 2 == v && 2 * v % 2 == 0
  {
  }

  lemma LowByteOf16(hi: uint8, lo: uint8)
    ensures Word16(hi, lo) % 0x100 == lo
  {
  }

  lemma LowByteOf32(b3: uint8, b2: uint8, b1: uint8, b0: uint8)
    ensures Word32(b3, b2, b1, b0) % 0x100 == b0
  {
    LowByteOf16(b1, b0);
    assert Word32(b3, b2, b1, b0) == 0x100 * (Word16(b3, b2) * 0x100 + b1) + b0;
  }

  lemma SecondRead(e: seq<uint32>, size: nat, read: nat, beyond: nat -> uint8)
    requires ReadSizes(size, read)
    requires |e| > 4
    ensures ReadAt(e, size, beyond, read, 1) % 0x100 == e[Ratio(read, size)] % 0x100
  {
    LowestByte(e, size, beyond, read, Ratio(read, size));
    if read == 2 {
      LowByteOf16(RomByte(e, size, beyond, 3), RomByte(e, size, beyond, 2));
    } else {
      LowByteOf32(RomByte(e, size, beyond, 7), RomByte(e, size, beyond, 6), RomByte(e, size, beyond, 5), RomByte(e, size, beyond, 4));
    }
  }

  lemma {:induction false} ByteOfZero(k: nat)
    ensures ByteOf(0, k) == 0
  {
    if k > 0 {
      ByteOfZero(k - 1);
    }
  }

  /** Entries read in parts: the second part is 0 as the first entry is, and the one after that
      entry is not. */
  lemma PartsRead(e: seq<uint32>, size: nat, read: nat, beyond: nat -> uint8)
    requires ReadSizes(read, size) && |e| >= 2 && e[0] == 0
    ensures ReadAt(e, size, beyond, read, 1) == 0
    ensures ReadAt(e, size, beyond, read, Ratio(size, read)) % 0x100 == e[1] % 0x100
  {
    FirstByte(e, size, beyond);
    if read == 2 {
      PairsRead(e, beyond);
    } else {
      ZeroByte(e, size, beyond, read);
    }
  }

  lemma PairsRead(e: seq<uint32>, beyond: nat -> uint8)
    requires |e| >= 2 && e[0] == 0 && RomByte(e, 4, beyond, 4) == e[1] % 0x100
    ensures ReadAt(e, 4, beyond, 2, 1) == 0
    ensures ReadAt(e, 4, beyond, 2, 2) % 0x100 == e[1] % 0x100
  {
    ZeroByte(e, 4, beyond, 2);
    ZeroByte(e, 4, beyond, 3);
    LowOfPair(RomByte(e, 4, beyond, 5), RomByte(e, 4, beyond, 4));
  }

  lemma LowOfPair(hi: uint8, lo: uint8)
    ensures Word16(hi, lo) % 0x100 == lo
  {
  }

  lemma ZeroByte(e: seq<uint32>, size: nat, beyond: nat -> uint8, i: nat)
    requires i < size && |e| >= 1 && e[0] == 0
    ensures RomByte(e, size, beyond, i) == 0
  {
    ByteOfZero(i);
  }

  lemma FirstByte(e: seq<uint32>, size: nat, beyond: nat -> uint8)
    requires size > 0 && |e| >= 2
    ensures RomByte(e, size, beyond, size) == e[1] % 0x100
  {
  }

  lemma NarrowInexact(c: Crc, v: nat)
    requires c.TableMode() && !c.RightShifting() && |c.table.entries| == 256 && c.Gen().width >= 8
    requires c.table.entries[1] == 0 && (v == 2 || v == 4) && c.table.entries[v] % 0x100 != 0
    ensures !c.Exact()
  {
    if c.Exact() {
      ExactBegins(c, 8);
      LowOfZero(c.Gen().width);
      ExactNothing(c, 8);
      ByteOfLow(c.table.entries[v], c.Gen().width, 8);
      assert false;
    }
  }

  /** The low byte of an entry is not that of the polynomial. */
  predicate Unlike(polynomial: uint32, e: seq<uint32>, v: nat) {
    v < |e| && e[v] % 0x100 != polynomial % 0x100
  }

  /** How a stored table begins. */
  predicate StoredAs(polynomial: uint32, e: seq<uint32>) {
    && |e| > 4 && e[0] == 0 && e[1] % 0x100 != 0
    && (polynomial == POLY_7BIT_SD ==> e[1] % 0x100 == 0x12)
    && (polynomial == POLY_8BIT_CCITT ==> e[1] % 0x100 == POLY_8BIT_CCITT)
    && (EntrySize(polynomial) < 4 ==> Unlike(polynomial, e, 2))
    && (EntrySize(polynomial) < 2 ==> Unlike(polynomial, e, 4))
  }

  predicate LowByteAt(e: seq<uint32>, v: nat, low: nat) {
    v < |e| && e[v] % 0x100 == low
  }

  predicate Begins(e: seq<uint32>, second: nat) {
    |e| > 4 && e[0] == 0 && LowByteAt(e, 1, second)
  }

  predicate FirstWords(row: seq<bv40>, a: bv40, b: bv40, c: bv40) {
    |row| == 16 && row[0] == 0 && row[1] == a && row[2] == b && row[4] == c
  }

  lemma TableBegins(rows: seq<seq<bv40>>, w: nat, a: bv40, b: bv40, c: bv40)
    requires Shape(rows) && w <= 32 && FirstWords(rows[0], a, b, c)
    ensures Begins(Entries(rows, w), Word(a, w) % 0x100)
    ensures LowByteAt(Entries(rows, w), 2, Word(b, w) % 0x100) && LowByteAt(Entries(rows, w), 4, Word(c, w) % 0x100)
  {
    WordZero(w);
    EntryInRow(rows, w, 0, 0);
    EntryInRow(rows, w, 0, 1);
    EntryInRow(rows, w, 0, 2);
    EntryInRow(rows, w, 0, 4);
  }

  lemma SdFirst()
    ensures Shape(SD_7BIT) && FirstWords(SD_7BIT[0], 0x12, 0x24, 0x48)
  {
  }

  lemma SdStored(w: nat)
    requires 8 <= w <= 32
    ensures Begins(Entries(SD_7BIT, w), 0x12)
  {
    SdFirst();
    SdBytes(w);
    TableBegins(SD_7BIT, w, 0x12, 0x24, 0x48);
  }

  lemma SdGoesOn(w: nat)
    requires 8 <= w <= 32
    ensures LowByteAt(Entries(SD_7BIT, w), 2, 0x24) && LowByteAt(Entries(SD_7BIT, w), 4, 0x48)
  {
    SdFirst();
    SdNext(w);
    TableBegins(SD_7BIT, w, 0x12, 0x24, 0x48);
  }

  lemma Ccitt8First()
    ensures Shape(CCITT_8BIT) && FirstWords(CCITT_8BIT[0], 0x07, 0x0e, 0x1c)
  {
  }

  lemma Ccitt8Stored(w: nat)
    requires 8 <= w <= 32
    ensures Begins(Entries(CCITT_8BIT, w), 0x07)
  {
    Ccitt8First();
    Ccitt8Bytes(w);
    TableBegins(CCITT_8BIT, w, 0x07, 0x0e, 0x1c);
  }

  lemma Ccitt8GoesOn(w: nat)
    requires 8 <= w <= 32
    ensures LowByteAt(Entries(CCITT_8BIT, w), 2, 0x0e) && LowByteAt(Entries(CCITT_8BIT, w), 4, 0x1c)
  {
    Ccitt8First();
    Ccitt8Next(w);
    TableBegins(CCITT_8BIT, w, 0x07, 0x0e, 0x1c);
  }

  lemma Ccitt16First()
    ensures Shape(CCITT_16BIT) && FirstWords(CCITT_16BIT[0], 0x1021, 0x2042, 0x4084)
  {
  }

  lemma Ccitt16Stored(w: nat)
    requires 8 <= w <= 32
    ensures Begins(Entries(CCITT_16BIT, w), 0x21)
  {
    Ccitt16First();
    Ccitt16Bytes(w);
    TableBegins(CCITT_16BIT, w, 0x1021, 0x2042, 0x4084);
  }

  lemma Ccitt16GoesOn(w: nat)
    requires 8 <= w <= 32
    ensures LowByteAt(Entries(CCITT_16BIT, w), 2, 0x42)
  {
    Ccitt16First();
    Ccitt16Next(w);
    TableBegins(CCITT_16BIT, w, 0x1021, 0x2042, 0x4084);
  }

  lemma IbmFirst()
    ensures Shape(IBM_16BIT) && FirstWords(IBM_16BIT[0], 0x8005, 0x800f, 0x801b)
  {
  }

  lemma IbmStored(w: nat)
    requires 8 <= w <= 32
    ensures Begins(Entries(IBM_16BIT, w), 0x05)
  {
    IbmFirst();
    IbmBytes(w);
    TableBegins(IBM_16BIT, w, 0x8005, 0x800f, 0x801b);
  }

  lemma IbmGoesOn(w: nat)
    requires 8 <= w <= 32
    ensures LowByteAt(Entries(IBM_16BIT, w), 2, 0x0f)
  {
    IbmFirst();
    IbmNext(w);
    TableBegins(IBM_16BIT, w, 0x8005, 0x800f, 0x801b);
  }

  lemma AnsiFirst()
    ensures Shape(ANSI_32BIT) && FirstWords(ANSI_32BIT[0], 0x04c1_1db7, 0x0982_3b6e, 0x1304_76dc)
  {
  }

  lemma AnsiStored(w: nat)
    requires 8 <= w <= 32
    ensures Begins(Entries(ANSI_32BIT, w), 0xb7)
  {
    AnsiFirst();
    AnsiBytes(w);
    TableBegins(ANSI_32BIT, w, 0x04c1_1db7, 0x0982_3b6e, 0x1304_76dc);
  }

  lemma RevStored(w: nat)
    requires w == 32
    ensures StoredAs(POLY_32BIT_REV_ANSI, StoredRom(POLY_32BIT_REV_ANSI).entries)
  {
    WordZero(w);
    RevSecond(w);
  }

  lemma SdBegins()
    ensures StoredAs(POLY_7BIT_SD, StoredRom(POLY_7BIT_SD).entries)
  {
    SdStored(8);
    SdGoesOn(8);
  }

  lemma Ccitt8Begins()
    ensures StoredAs(POLY_8BIT_CCITT, StoredRom(POLY_8BIT_CCITT).entries)
  {
    Ccitt8Stored(8);
    Ccitt8GoesOn(8);
  }

  lemma Ccitt16Begins()
    ensures StoredAs(POLY_16BIT_CCITT, StoredRom(POLY_16BIT_CCITT).entries)
  {
    Ccitt16Stored(16);
    Ccitt16GoesOn(16);
  }

  lemma IbmBegins()
    ensures StoredAs(POLY_16BIT_IBM, StoredRom(POLY_16BIT_IBM).entries)
  {
    IbmStored(16);
    IbmGoesOn(16);
  }

  lemma AnsiBegins()
    ensures StoredAs(POLY_32BIT_ANSI, StoredRom(POLY_32BIT_ANSI).entries)
  {
    AnsiStored(32);
  }

  lemma StoredBegins(polynomial: uint32)
    requires StoredRom(polynomial).Rom?
    ensures StoredAs(polynomial, StoredRom(polynomial).entries)
  {
    if polynomial == POLY_7BIT_SD {
      SdBegins();
    } else if polynomial == POLY_8BIT_CCITT {
      Ccitt8Begins();
    } else if polynomial == POLY_16BIT_CCITT {
      Ccitt16Begins();
    } else if polynomial == POLY_16BIT_IBM {
      IbmBegins();
    } else if polynomial == POLY_32BIT_ANSI {
      AnsiBegins();
    } else {
      RevStored(32);
    }
  }

  predicate ReadAs(table: CrcTable, entries: seq<uint32>, size: nat, read: nat, beyond: nat -> uint8)
    requires size > 0
  {
    && table.Rom? && |table.entries| == 256
    && forall v :: 0 <= v < 256 ==> table.entries[v] == ReadAt(entries, size, beyond, read, v)
  }

  lemma ReadEntries(c: Crc, beyond: nat -> uint8)
    requires Constructed(c, beyond) && c.TableMode() && ReadSize(c.width) != EntrySize(c.polynomial)
    ensures ReadAs(c.table, StoredRom(c.polynomial).entries, EntrySize(c.polynomial), ReadSize(c.width), beyond)
    ensures !c.RightShifting()
  {
  }

  lemma ReadTogether(c: Crc, e: seq<uint32>, size: nat, read: nat, beyond: nat -> uint8)
    requires !c.RightShifting() && ReadSizes(size, read) && |e| > 4 && ReadAs(c.table, e, size, read, beyond)
    requires c.width >= 8 && Unlike(c.polynomial, e, Ratio(read, size))
    ensures !c.Exact()
  {
    EntriesReadAs(c.table, e, size, read, beyond, 1);
    WideInexact(c, e, size, read, beyond);
  }

  lemma ReadInParts(c: Crc, e: seq<uint32>, size: nat, read: nat, beyond: nat -> uint8)
    requires !c.RightShifting() && ReadSizes(read, size) && |e| > 4 && ReadAs(c.table, e, size, read, beyond)
    requires c.Gen().width >= 8 && e[0] == 0 && e[1] % 0x100 != 0
    ensures !c.Exact()
  {
    EntriesReadAs(c.table, e, size, read, beyond, 1);
    EntriesReadAs(c.table, e, size, read, beyond, Ratio(size, read));
    PartsRead(e, size, read, beyond);
    NarrowInexact(c, Ratio(size, read));
  }

  lemma EntriesReadAs(table: CrcTable, e: seq<uint32>, size: nat, read: nat, beyond: nat -> uint8, v: nat)
    requires size > 0 && ReadAs(table, e, size, read, beyond) && v < 256
    ensures table.entries[v] == ReadAt(e, size, beyond, read, v)
  {
  }

  /** A table whose entries are read at another size. */
  lemma OtherSize(c: Crc, beyond: nat -> uint8)
    requires Constructed(c, beyond) && c.TableMode() && ReadSize(c.width) != EntrySize(c.polynomial)
    ensures !c.Exact()
  {
    StoredBegins(c.polynomial);
    ReadEntries(c, beyond);
    var e, size, read := StoredRom(c.polynomial).entries, EntrySize(c.polynomial), ReadSize(c.width);
    if size < read {
      ReadTogether(c, e, size, read, beyond);
    } else {
      ReadInParts(c, e, size, read, beyond);
    }
  }

  // ----- at another width, with entries of the right size

  /** A byte table read at its own size, but divided by x^8 with another polynomial. */
  lemma ByteTableInexact(c: Crc, k: nat)
    requires c.width <= 8 && c.TableMode() && !c.RightShifting() && |c.table.entries| == 256 && k == 8
    requires (c.polynomial == POLY_7BIT_SD && c.width != 7 && c.table.entries[1] % 0x100 == 0x12)
          || (c.polynomial == POLY_8BIT_CCITT && c.width != 8 && c.table.entries[1] % 0x100 == POLY_8BIT_CCITT)
    ensures !c.Exact()
  {
    if c.Exact() {
      ExactBegins(c, k);
      ByteIsLow8(c.table.entries[1], k);
      OtherPolynomial(c, k);
      assert false;
    }
  }

  lemma OtherPolynomial(c: Crc, k: nat)
    requires c.width <= 8 && c.TableMode() && !c.RightShifting() && k == 8
    requires c.polynomial == POLY_7BIT_SD || c.polynomial == POLY_8BIT_CCITT
    ensures c.polynomial == POLY_7BIT_SD && c.width != 7 ==> c.Gen().poly != 0x12
    ensures c.polynomial == POLY_8BIT_CCITT && c.width != 8 ==> c.Gen().poly != POLY_8BIT_CCITT
  {
    WordSizes();
    if c.width == 8 {
      LowIs(c.polynomial, k);
    } else {
      ByteIsLow8(Shl(c.polynomial, k - c.width), k);
      ShlIsProduct(c.polynomial, k - c.width);
      MovedPolynomial(k - c.width);
    }
  }

  lemma MovedPolynomial(e: nat)
    requires 1 <= e <= 8
    ensures e != 1 ==> (POLY_7BIT_SD * Pow2(e)) % 256 != 0x12
    ensures (POLY_8BIT_CCITT * Pow2(e)) % 256 != POLY_8BIT_CCITT
  {
    PowersOfTwo();
    WordSizes();
  }

  lemma ByteIsLow8(a: nat, k: nat)
    requires k == 8
    ensures Low(a, k) == a % 256
  {
    WordSizes();
    ByteIsLow(a, k);
  }

  /** Below the width that a table is made for it serves the divisor of the object or it does not. */
  lemma ShortExact(c: Crc, n: nat)
    requires ReadWhole(c) && Stores(c, n) && n == 8 && MadeFor(c.polynomial).width >= c.width >= 8
    requires MadeFor(c.polynomial).poly == c.polynomial
    ensures c.Exact() <==> Serves(MadeFor(c.polynomial), c.width, n)
  {
    WideGenerator(c);
    assert c.Gen() == Narrowed(MadeFor(c.polynomial), c.width);
    if c.Exact() {
      forall v: nat | v < Pow2(n)
        ensures Low(TableEntry(MadeFor(c.polynomial), n, v), c.width) == TableEntry(c.Gen(), n, v)
      {
        assert c.RightAt(v);
      }
    }
  }

  lemma LowNonzero(p: nat, w: nat, k: nat)
    requires w >= k == 8 && p % 0x100 != 0
    ensures Low(p, w) != 0
  {
    ByteOfLow(p, w, k);
  }

  /** The powers of two in a table decide that it serves a narrower register. */
  lemma TopsServe(g: Generator, n: nat, rows: seq<seq<bv40>>, w: nat)
    requires g.Valid() && 8 <= w <= g.width <= 32 && g.poly % 0x100 != 0 && n <= 8
    requires Holds(EntryOf(g, n), NumberOf(g.width), rows)
    requires forall i :: 0 <= i < 7 ==> SameBit(Powers(rows)[i], w - 1, g.width - 1)
    ensures Serves(g, w, n)
  {
    LowNonzero(g.poly, w, 8);
    TopsOfWords(g, n, rows, w);
    ServesExactly(g, w, n);
  }

  /** A bit of an early entry that leaves the narrow register before any leaves the wide one. */
  ghost predicate Leaving(g: Generator, n: nat, w: nat, j: nat, b: nat) {
    && g.Valid() && 8 <= w <= g.width && g.poly % 0x100 != 0 && b < w && j + w - b < n
    && Shl(TableEntry(g, n, Pow2(j)), w - b) < Pow2(g.width) && Bit(TableEntry(g, n, Pow2(j)), b)
  }

  lemma LeavingSpoils(g: Generator, n: nat, w: nat, j: nat, b: nat)
    requires Leaving(g, n, w, j, b)
    ensures !Serves(g, w, n)
  {
    LowNonzero(g.poly, w, 8);
    LeavesEarly(g, w, n, j, w - 1 - b, TableEntry(g, n, Pow2(j)));
  }

  lemma LeavingIs(g: Generator, n: nat, w: nat, j: nat, b: nat, x: nat)
    requires g.Valid() && 8 <= w <= g.width && g.poly % 0x100 != 0 && b < w && j + w - b < n
    requires x == TableEntry(g, n, Pow2(j)) && Shl(x, w - b) < Pow2(g.width) && Bit(x, b)
    ensures Leaving(g, n, w, j, b)
  {
  }

  lemma FirstPower(g: Generator, n: nat)
    requires g.Valid() && n >= 1
    ensures TableEntry(g, n, Pow2(0)) == g.poly
  {
    EntryOne(g, n);
  }

  /** At widths 13 to 15 the leading bit of the polynomial leaves early. */
  lemma Ccitt16High(g: Generator, n: nat, w: nat)
    requires g.Valid() && g.poly == POLY_16BIT_CCITT && Pow2(g.width) == 0x1_0000 && w <= g.width && n >= 8 && 13 <= w <= 15
    ensures Leaving(g, n, w, 0, 12)
  {
    LeadingBit(w - 12, 12, g.width);
    FirstPower(g, n);
    LeavingIs(g, n, w, 0, 12, g.poly);
  }

  /** At widths 10 to 12 a bit of the fifth power does. */
  lemma Ccitt16Low(g: Generator, n: nat, w: nat)
    requires g.Valid() && g.poly == POLY_16BIT_CCITT && Pow2(g.width) == 0x1_0000 && w <= g.width && n >= 8 && 10 <= w <= 12
    requires TableEntry(g, n, Pow2(4)) == 0x1231
    ensures Leaving(g, n, w, 4, 9)
  {
    FifthBit(0x1231, w - 9, 9, g.width);
    LeavingIs(g, n, w, 4, 9, 0x1231);
  }

  lemma LeadingBit(i: nat, k: nat, m: nat)
    requires 1 <= i <= 3 && k == 12
    requires Pow2(m) == 0x1_0000
    ensures Bit(POLY_16BIT_CCITT, k) && Shl(POLY_16BIT_CCITT, i) < Pow2(m)
  {
    SmallPowers(8, 4);
    BitIs(POLY_16BIT_CCITT, k, 1, 0x21, 0x1000);
    ShlIsProduct(POLY_16BIT_CCITT, i);
    PowersOfTwo();
  }

  lemma FifthPower(g: Generator, n: nat, i: nat)
    requires g == MadeFor(POLY_16BIT_CCITT) && i == 4 && Holds(EntryOf(g, n), NumberOf(g.width), CCITT_16BIT)
    ensures TableEntry(g, n, Pow2(i)) == 0x1231
  {
    HoldsPower(g, n, CCITT_16BIT, i);
    Ccitt16Fourth(g.width);
    FifthWord();
  }

  lemma FifthWord()
    ensures Powers(CCITT_16BIT)[4] == 0x1231
  {
  }

  lemma FifthBit(x: nat, i: nat, k: nat, m: nat)
    requires 1 <= i <= 3 && k == 9 && x == 0x1231
    requires Pow2(m) == 0x1_0000
    ensures Bit(x, k) && Shl(x, i) < Pow2(m)
  {
    SmallPowers(8, 4);
    BitIs(x, k, 9, 0x31, 0x200);
    ShlIsProduct(x, i);
    PowersOfTwo();
  }

  lemma Ccitt16Wrong(g: Generator, n: nat, w: nat)
    requires g.Valid() && g.poly == POLY_16BIT_CCITT && Pow2(g.width) == 0x1_0000 && w <= g.width && n >= 8 && 10 <= w <= 15
    requires w < 13 ==> TableEntry(g, n, Pow2(4)) == 0x1231
    ensures !Serves(g, w, n)
  {
    if w >= 13 {
      Ccitt16High(g, n, w);
      LeavingSpoils(g, n, w, 0, 12);
    } else {
      Ccitt16Low(g, n, w);
      LeavingSpoils(g, n, w, 4, 9);
    }
  }

  /** The 16-bit CCITT table below its width: right at width 9 and nowhere else. */
  lemma Ccitt16Short(c: Crc, n: nat)
    requires ReadWhole(c) && c.polynomial == POLY_16BIT_CCITT && c.width < 16 && n == 8
    ensures c.Exact() <==> c.width == 9
  {
    Ccitt16Stores(c, n, 4);
    ShortExact(c, n);
    if c.width == 9 {
      MadeForValid(c.polynomial);
      Ccitt16Tops(16);
      TopsServe(MadeFor(c.polynomial), n, CCITT_16BIT, 9);
    } else {
      MadeForValid(c.polynomial);
      FifthPower(MadeFor(c.polynomial), n, 4);
      Ccitt16Wrong(MadeFor(c.polynomial), n, c.width);
    }
  }

  /** At the other widths a bit of the polynomial leaves early. */
  lemma AnsiLeaving(g: Generator, n: nat, w: nat, b: nat)
    requires g.Valid() && g.poly == POLY_32BIT_ANSI && Pow2(g.width) == 0x1_0000_0000 && w <= g.width
    requires n >= 8 && b < w <= b + 5 && 8 <= w && Bit(g.poly, b)
    ensures Leaving(g, n, w, 0, b)
  {
    FiveUp(w - b, g.width);
    FirstPower(g, n);
    LeavingIs(g, n, w, 0, b, g.poly);
  }

  lemma FiveUp(i: nat, m: nat)
    requires 1 <= i <= 5 && Pow2(m) == 0x1_0000_0000
    ensures Shl(POLY_32BIT_ANSI, i) < Pow2(m)
  {
    ShlIsProduct(POLY_32BIT_ANSI, i);
    PowersOfTwo();
  }

  lemma AnsiBits(k: nat)
    requires k == 16
    ensures Bit(POLY_32BIT_ANSI, k) && Bit(POLY_32BIT_ANSI, k + 6) && Bit(POLY_32BIT_ANSI, k + 7) && Bit(POLY_32BIT_ANSI, k + 10)
  {
    WordSizes();
    PowersFrom(k);
    BitIs(POLY_32BIT_ANSI, k, 0x04C1, 0x1DB7, 0x1_0000);
    BitIs(POLY_32BIT_ANSI, k + 6, 0x13, 0x1_1DB7, 0x40_0000);
    BitIs(POLY_32BIT_ANSI, k + 7, 0x9, 0x41_1DB7, 0x80_0000);
    BitIs(POLY_32BIT_ANSI, k + 10, 1, 0xC1_1DB7, 0x400_0000);
  }

  lemma PowersFrom(k: nat)
    requires Pow2(k) == 0x1_0000
    ensures Pow2(k + 6) == 0x40_0000 && Pow2(k + 7) == 0x80_0000 && Pow2(k + 10) == 0x400_0000
  {
    assert Pow2(k + 2) == 0x4_0000;
    assert Pow2(k + 4) == 0x10_0000;
    assert Pow2(k + 6) == 0x40_0000;
    assert Pow2(k + 8) == 0x100_0000;
  }

  lemma AnsiWrong(g: Generator, n: nat, w: nat)
    requires g.Valid() && g.poly == POLY_32BIT_ANSI && Pow2(g.width) == 0x1_0000_0000 && w <= g.width
    requires n >= 8 && 17 <= w <= 31 && w != 22
    ensures !Serves(g, w, n)
  {
    AnsiBits(16);
    var b := if w <= 21 then 16 else if w == 23 then 22 else if w <= 27 then 23 else 26;
    AnsiLeaving(g, n, w, b);
    LeavingSpoils(g, n, w, 0, b);
  }

  /** The 32-bit ANSI table below its width: right at width 22 and nowhere else. */
  lemma AnsiShort(c: Crc, n: nat)
    requires ReadWhole(c) && c.polynomial == POLY_32BIT_ANSI && c.width < 32 && n == 8
    ensures c.Exact() <==> c.width == 22
  {
    AnsiStores(c, n, 4);
    ShortExact(c, n);
    if c.width == 22 {
      MadeForValid(c.polynomial);
      AnsiTops(32);
      TopsServe(MadeFor(c.polynomial), n, ANSI_32BIT, 22);
    } else {
      MadeForValid(c.polynomial);
      AnsiWrong(MadeFor(c.polynomial), n, c.width);
    }
  }

  /** The CRC-16/IBM table is wrong below its width already at index 2: its polynomial has no bit
      between the first three and the last. */
  lemma IbmShort(c: Crc, n: nat)
    requires ReadWhole(c) && c.polynomial == POLY_16BIT_IBM && c.width < 16 && n == 8
    ensures !c.Exact()
  {
    var g, w := MadeFor(c.polynomial), c.width;
    MadeForValid(c.polynomial);
    WideGenerator(c);
    LowNonzero(g.poly, w, 8);
    EntryOne(g, n);
    EntryOne(Narrowed(g, w), n);
    IbmTops(w);
    IbmSecond(c, n, 4);
    OneStepMore(g, w, n, 0);
    assert c.Exact() ==> c.RightAt(2);
  }

  lemma IbmSecond(c: Crc, n: nat, k: nat)
    requires ReadWhole(c) && c.polynomial == POLY_16BIT_IBM && n == 8 && k == 4
    ensures c.table.entries[2] == TableEntry(MadeFor(c.polynomial), n, 2)
  {
    MadeForValid(c.polynomial);
    WordSizes();
    PowersOfTwo();
    IbmEntries(MadeFor(c.polynomial), n, k, 2);
  }

  lemma IbmTops(w: nat)
    requires 9 <= w <= 15
    ensures !Bit(POLY_16BIT_IBM, w - 1) && Bit(POLY_16BIT_IBM, 15)
  {
    SmallPowers(8, 4);
    WordSizes();
    BitIs(POLY_16BIT_IBM, 15, 1, 5, 0x8000);
    BitIs(POLY_16BIT_IBM, w - 1, 0x8000 / Pow2(w - 1), 5, Pow2(w - 1));
  }

  lemma SmallPowers(n: nat, k: nat)
    requires n == 8 && k == 4
    ensures Pow2(n) == 0x100 && Pow2(n + 1) == 0x200 && Pow2(n + 2) == 0x400 && Pow2(n + 3) == 0x800
    ensures Pow2(n + k) == 0x1000 && Pow2(n + k + 1) == 0x2000 && Pow2(n + k + 2) == 0x4000 && Pow2(n + k + 3) == 0x8000
  {
    WordSizes();
    assert Pow2(n + 2) == 0x400;
    assert Pow2(n + k) == 0x1000;
    assert Pow2(n + k + 2) == 0x4000;
  }

  // ----- every width

  /** Whatever the width of an object, its table is right exactly when it needs none or has one of
      the right widths. */
  lemma ConstructedExact(c: Crc, beyond: nat -> uint8)
    requires Constructed(c, beyond)
    ensures c.Valid()
    ensures c.Exact() <==> c.table.Null? || RightWidth(c.polynomial, c.width)
  {
    if c.table.Rom? {
      if c.RightShifting() {
        RevExact(c, 32, 4);
      } else if ReadSize(c.width) != EntrySize(c.polynomial) {
        ReadEntries(c, beyond);
        OtherSize(c, beyond);
      } else {
        Unread(c, beyond);
        WholeExact(c);
      }
    }
  }

  lemma WholeExact(c: Crc)
    requires ReadWhole(c)
    ensures c.Valid()
    ensures c.Exact() <==> RightWidth(c.polynomial, c.width)
  {
    if c.polynomial == POLY_16BIT_IBM {
      IbmInexact(c);
    } else if c.width == NamedWidth(c.polynomial) {
      NamedExact(c);
    } else if EntrySize(c.polynomial) == 1 {
      StoredBegins(c.polynomial);
      ByteTableInexact(c, 8);
    } else if c.polynomial == POLY_16BIT_CCITT {
      Ccitt16Short(c, 8);
    } else {
      AnsiShort(c, 8);
    }
  }

  lemma IbmInexact(c: Crc)
    requires ReadWhole(c) && c.polynomial == POLY_16BIT_IBM
    ensures c.Valid() && !c.Exact()
  {
    if c.width == 16 {
      IbmIndex(c, 8, 4, 252);
    } else {
      IbmShort(c, 8);
    }
  }
}
