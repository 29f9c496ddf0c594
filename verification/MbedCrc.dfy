/** The software CRC driver: its loops on 32-bit words, and the register they implement. */
module MbedCrc {
  import opened Gf2
  import opened CrcRegister
  import opened Mirroring
  import opened CrcSteps
  import opened Machine

  const POLY_32BIT_REV_ANSI: uint32 := 0xEDB88320

  /** The bits of one item of k bits, most significant first or mirrored. */
  function ItemBits(b: nat, mirrored: bool, k: nat): seq<bool> {
    ToBits(if mirrored then Mirror(k, b) else b, k)
  }

  /** The bits of a message in the order in which they enter the division. */
  function BitsOf(data: seq<nat>, mirrored: bool, k: nat): seq<bool> {
    if data == [] then []
    else BitsOf(data[..|data| - 1], mirrored, k) + ItemBits(data[|data| - 1], mirrored, k)
  }

  lemma {:induction false} BitsOfLength(data: seq<nat>, mirrored: bool, k: nat)
    ensures |BitsOf(data, mirrored, k)| == k * |data|
    decreases |data|
  {
    if data != [] {
      BitsOfLength(data[..|data| - 1], mirrored, k);
      assert k * (|data| - 1) + k == k * |data|;
    }
  }

  lemma {:induction false} BitsOfConcat(a: seq<nat>, b: seq<nat>, mirrored: bool, k: nat)
    ensures BitsOf(a + b, mirrored, k) == BitsOf(a, mirrored, k) + BitsOf(b, mirrored, k)
    decreases |b|
  {
    if b == [] {
      assert a + b == a;
    } else {
      var front, last := b[..|b| - 1], b[|b| - 1];
      BitsOfConcat(a, front, mirrored, k);
      assert b == front + [last];
      BitsOfSnoc(a + front, last, mirrored, k);
      BitsOfSnoc(front, last, mirrored, k);
      assert a + b == a + front + [last];
      Associate(BitsOf(a, mirrored, k), BitsOf(front, mirrored, k), ItemBits(last, mirrored, k));
    }
  }

  lemma Associate(a: seq<bool>, b: seq<bool>, c: seq<bool>)
    ensures a + b + c == a + (b + c)
  {
  }

  lemma BitsOfSnoc(a: seq<nat>, x: nat, mirrored: bool, k: nat)
    ensures BitsOf(a + [x], mirrored, k) == BitsOf(a, mirrored, k) + ItemBits(x, mirrored, k)
  {
    assert (a + [x])[..|a|] == a;
  }

  lemma BitsOfOneMore(data: seq<nat>, mirrored: bool, k: nat, i: nat)
    requires i < |data|
    ensures BitsOf(data[..i + 1], mirrored, k) == BitsOf(data[..i], mirrored, k) + ItemBits(data[i], mirrored, k)
  {
    assert data[..i + 1][..i] == data[..i];
  }

  /** _crc_table: null, or the entries of a ROM table whatever their C width. */
  datatype CrcTable = Null | Rom(entries: seq<uint32>)

  lemma WordSize()
    ensures Pow2(8) == 256 && Pow2(32) == 0x1_0000_0000
  {
    assert Pow2(8) == 256;
    assert Pow2(16) == 0x1_0000;
    assert Pow2(24) == 0x100_0000;
  }

  lemma WordKeepsLow(a: nat, w: nat)
    requires w <= 32
    ensures Low(a % 0x1_0000_0000, w) == Low(a, w)
  {
    WordSize();
    TruncationKeepsLow(a, w, 32);
  }

  lemma WordXor(a: nat, b: nat)
    requires a < 0x1_0000_0000 && b < 0x1_0000_0000
    ensures Xor(a, b) < 0x1_0000_0000
  {
    WordSize();
    XorBound(a, b, 32);
  }

  /** The template arguments and the fields fixed by the constructor. */
  datatype Crc = Crc(
    polynomial: uint32,
    width: nat,
    initialValue: uint32,
    finalXor: uint32,
    reflectData: bool,
    reflectRemainder: bool,
    table: CrcTable)
  {
    /** TABLE mode rather than BITWISE */
    predicate TableMode() {
      table.Rom?
    }

    /** The remainder of this polynomial's table form is not reflected at the stop. */
    predicate Unreflected() {
      TableMode() && polynomial == POLY_32BIT_REV_ANSI
    }

    /** The right-shifting loop; below width 17 the table loops do not look at the polynomial. */
    predicate RightShifting() {
      Unreflected() && width > 16
    }

    function MaskBits(): nat {
      if width < 8 then 8 else width
    }

    /** The divisor of the loop that this object runs. Below width 8 the bitwise loop tests a
        fixed bit, so it divides by x^7 + polynomial; the tables are left aligned in a byte. */
    function Gen(): Generator {
      if RightShifting() then Generator(32, Mirror(32, polynomial))
      else if width >= 8 then Generator(width, Low(polynomial, width))
      else if TableMode() then Generator(8, Low(Shl(polynomial, 8 - width), 8))
      else Generator(7, Low(polynomial, 7))
    }

    ghost predicate ValidTable()
      requires TableMode()
    {
      if RightShifting() then
        && |table.entries| == 16
        && forall v: nat :: v < 16 ==> table.entries[v] == RightEntry(Gen(), 4, v)
      else
        && |table.entries| == 256
        && forall v: nat :: v < 256 ==> RightAt(v)
    }

    /** Entry v of a byte table, as far as the register of this object can hold it, is the
        remainder that it stands for. */
    predicate RightAt(v: nat)
      requires TableMode() && !RightShifting() && |table.entries| == 256 && v < 256
    {
      Low(table.entries[v], Gen().width) == TableEntry(Gen(), 8, v)
    }

    /** What the loops rely on: a table of the right size, and for the right-shifting loop,
        whose polynomial is fixed, the right table. */
    ghost predicate Valid() {
      && width <= 32
      && (RightShifting() ==> ValidTable())
      && (TableMode() && !RightShifting() ==> |table.entries| == 256)
    }

    /** Without a table, or with the right one. */
    ghost predicate Exact() {
      Valid() && (TableMode() ==> ValidTable())
    }

    lemma GenValid()
      requires width <= 32
      ensures Gen().Valid() && Gen().width <= 32
    {
      if RightShifting() {
        MirrorBound(32, polynomial);
      } else if width >= 8 {
        LowBound(polynomial, width);
      } else if TableMode() {
        LowBound(Shl(polynomial, 8 - width), 8);
      } else {
        LowBound(polynomial, 7);
      }
    }

    predicate Mirrored() {
      reflectData || RightShifting()
    }

    function ByteBits(b: uint8): seq<bool> {
      ItemBits(b, Mirrored(), 8)
    }

    function MessageBits(data: seq<uint8>): (bits: seq<bool>)
      ensures |bits| == 8 * |data|
    {
      BitsOfLength(data, Mirrored(), 8);
      BitsOf(data, Mirrored(), 8)
    }

    /** The ideal register held in *crc: unused high bits dropped, mirrored back if need be. */
    function Held(crc: uint32): nat {
      if RightShifting() then Mirror(32, crc) else Low(crc, Gen().width)
    }

    /** The ideal register after some data. */
    function Fed(reg: nat, data: seq<uint8>): nat {
      Register(Gen(), reg, MessageBits(data))
    }

    // ----- the byte tables, whatever is in them

    function Reflected(b: uint8): nat {
      if reflectData then Mirror(8, b) else b
    }

    /** Where the next byte looks. */
    function Index(reg: nat, b: uint8): nat
      requires TableMode() && !RightShifting()
    {
      Xor(Reflected(b), Shr(reg, Gen().width - 8))
    }

    function LookedUp(reg: nat, b: uint8): nat
      requires TableMode() && !RightShifting() && |table.entries| == 256
    {
      table.entries[Index(reg, b) % 256]
    }

    /** The register after some data has gone through the table. */
    function TableFed(reg: nat, data: seq<uint8>): nat
      requires TableMode() && !RightShifting() && |table.entries| == 256
    {
      if data == [] then reg
      else
        var r, b := TableFed(reg, data[..|data| - 1]), data[|data| - 1];
        TableTurn(LookedUp(r, b), r, 8, Gen().width)
    }

    /** The register after some data, in the mode of this object. */
    function Ran(reg: nat, data: seq<uint8>): nat
      requires TableMode() && !RightShifting() ==> |table.entries| == 256
    {
      if TableMode() && !RightShifting() then TableFed(reg, data) else Fed(reg, data)
    }

    lemma {:induction false} TableFedConcat(reg: nat, a: seq<uint8>, b: seq<uint8>)
      requires TableMode() && !RightShifting() && |table.entries| == 256
      ensures TableFed(reg, a + b) == TableFed(TableFed(reg, a), b)
      decreases |b|
    {
      if b == [] {
        assert a + b == a;
      } else {
        var front, last := b[..|b| - 1], b[|b| - 1];
        TableFedConcat(reg, a, front);
        assert b == front + [last] && a + b == a + front + [last];
        TableFedOneMore(reg, a + front, last);
        TableFedOneMore(TableFed(reg, a), front, last);
      }
    }

    lemma TableFedOneMore(reg: nat, front: seq<uint8>, last: uint8)
      requires TableMode() && !RightShifting() && |table.entries| == 256
      ensures TableFed(reg, front + [last])
           == TableTurn(LookedUp(TableFed(reg, front), last), TableFed(reg, front), 8, Gen().width)
    {
      assert (front + [last])[..|front|] == front;
    }

    /** With the right entry a turn of the table loop is eight division steps, and only then. */
    lemma TurnExact(reg: nat, b: uint8)
      requires Valid() && TableMode() && !RightShifting() && reg < Pow2(Gen().width)
      ensures Index(reg, b) < 256
      ensures TableTurn(LookedUp(reg, b), reg, 8, Gen().width) == Register(Gen(), reg, ByteBits(b)) <==> RightAt(Index(reg, b))
    {
      GenValid();
      ReflectedIsByte(b, 8);
      TableTurnExact(Gen(), LookedUp(reg, b), reg, Reflected(b), 8);
      ByteIndexed(Index(reg, b));
    }

    static lemma ByteIndexed(index: nat)
      requires index < 256
      ensures index % 256 == index
    {
    }

    lemma ReflectedIsByte(b: uint8, k: nat)
      requires k == 8
      ensures Pow2(k) == 256 && Reflected(b) < Pow2(k)
    {
      WordSize();
      MirrorBound(k, b);
    }

    /** A valid table gives the ideal register. */
    lemma {:induction false} RanIsFed(reg: nat, data: seq<uint8>)
      requires Exact() && reg < Pow2(Gen().width)
      ensures Ran(reg, data) == Fed(reg, data)
      decreases |data|
    {
      if TableMode() && !RightShifting() && data != [] {
        var n := |data| - 1;
        RanIsFed(reg, data[..n]);
        FedInRange(reg, data[..n]);
        assert data[..n + 1] == data;
        FedOneMore(reg, data, n);
        ExactTurn(Fed(reg, data[..n]), data[n]);
      }
    }

    lemma ExactTurn(reg: nat, b: uint8)
      requires Exact() && TableMode() && !RightShifting() && reg < Pow2(Gen().width)
      ensures TableTurn(LookedUp(reg, b), reg, 8, Gen().width) == Register(Gen(), reg, ByteBits(b))
    {
      TurnExact(reg, b);
    }

    lemma FedOneMore(reg: nat, data: seq<uint8>, i: nat)
      requires i < |data|
      ensures Fed(reg, data[..i + 1]) == Register(Gen(), Fed(reg, data[..i]), ByteBits(data[i]))
    {
      BitsOfOneMore(data, Mirrored(), 8, i);
      RegisterConcat(Gen(), reg, MessageBits(data[..i]), ByteBits(data[i]));
    }

    lemma FedInRange(reg: nat, data: seq<uint8>)
      requires width <= 32 && reg < Pow2(Gen().width)
      ensures Fed(reg, data) < Pow2(Gen().width)
    {
      GenValid();
      RegisterIsRemainder(Gen(), reg, MessageBits(data));
    }

    method ReflectBytes(data: uint8) returns (r: uint8)
      ensures r == if reflectData then Mirror(8, data) else data
    {
      if reflectData {
        r := ReflectLoop(data, 8);
      } else {
        r := data;
      }
    }

    method ReflectRemainder(data: uint32) returns (r: uint32)
      requires width <= 32
      ensures r == if reflectRemainder then Mirror(MaskBits(), data) else data
    {
      if reflectRemainder {
        WordSize();
        Pow2Mono(MaskBits(), 32);
        r := ReflectLoop(data, MaskBits());
      } else {
        r := data;
      }
    }

    /** The bit loop that reflect_bytes and reflect_remainder share. */
    static method ReflectLoop(data: uint32, nBits: nat) returns (reflection: nat)
      ensures reflection == Mirror(nBits, data) < Pow2(nBits)
    {
      MirrorBound(nBits, data);
      reflection := 0;
      var rest: nat := data;
      var bit := 0;
      ShlOne(nBits);
      while bit < nBits
        invariant bit <= nBits
        invariant rest == Shr(data, bit)
        invariant reflection == Shl(Mirror(bit, data), nBits - bit)
      {
        ReflectStep(data, bit, nBits);
        if rest % 2 == 1 {
          reflection := Or(reflection, Shl(1, nBits - 1 - bit));
        }
        rest := rest / 2;
        bit := bit + 1;
      }
    }

    static lemma ReflectStep(data: nat, bit: nat, nBits: nat)
      requires bit < nBits
      ensures Shr(data, bit) / 2 == Shr(data, bit + 1)
      ensures Shl(Mirror(bit + 1, data), nBits - (bit + 1))
           == if Shr(data, bit) % 2 == 1
              then Or(Shl(Mirror(bit, data), nBits - bit), Shl(1, nBits - 1 - bit))
              else Shl(Mirror(bit, data), nBits - bit)
    {
      var m, k := Mirror(bit, data), nBits - 1 - bit;
      ShrAdd(data, bit, 1);
      assert Shr(Shr(data, bit), 1) == Shr(Shr(data, bit) / 2, 0);
      MirrorOneMore(bit, data);
      ShlTwice(m, k);
      ShlSum(2 * m, 1, k);
      ShlOne(k);
      OrDisjoint(m, Shl(1, k), k + 1);
    }

    // ----- bitwise_compute_partial

    /** The modulo-2 division of the byte loop, nBits turns of it. */
    method DivideByte(start: uint32, nBits: nat, ghost g: Generator, ghost c: nat, ghost v: nat) returns (p: uint32)
      requires g.Valid() && g.width == width <= 32 && g.poly == Low(polynomial, width)
      requires nBits <= width && Dividing(g, c, v, nBits, nBits, start)
      ensures Low(p, width) == Register(g, c, ToBits(v, nBits))
    {
      p := start;
      var bit := nBits;
      while bit > 0
        invariant 0 <= bit <= nBits
        invariant Dividing(g, c, v, nBits, bit, p)
      {
        var shifted := 2 * p % 0x1_0000_0000;
        WordKeepsLow(2 * p, width);
        DividingGoesOn(g, c, v, nBits, bit, p, polynomial, shifted);
        WordXor(shifted, polynomial);
        if Bit(p, width - 1) {
          p := Xor(shifted, polynomial);
        } else {
          p := shifted;
        }
        bit := bit - 1;
      }
      DividingEnds(g, c, v, nBits, p);
    }

    /** The serial loop for widths below 8. */
    method SerialByte(start: uint32, first: uint8, nBits: nat, ghost g: Generator, ghost c: nat) returns (p: uint32)
      requires g.Valid() && nBits == g.width + 1 <= 32 && Pow2(nBits) == 256 && g.poly == Low(polynomial, g.width)
      requires Serial(g, c, first, nBits, nBits, start, first)
      ensures Low(p, g.width) == Register(g, c, ToBits(first, nBits))
    {
      p := start;
      var dataByte := first;
      var bit := nBits;
      while bit > 0
        invariant 0 <= bit <= nBits
        invariant Serial(g, c, first, nBits, bit, p, dataByte)
      {
        p, dataByte := SerialTurn(p, dataByte, nBits, g, c, first, bit);
        bit := bit - 1;
      }
      SerialEnds(g, c, first, nBits, p, dataByte);
    }

    /** One turn of it: the top bit of the byte meets the bit leaving the register. */
    method SerialTurn(p: uint32, dataByte: uint8, nBits: nat, ghost g: Generator, ghost c: nat, ghost v: nat, ghost j: nat)
      returns (q: uint32, nextByte: uint8)
      requires g.Valid() && nBits == g.width + 1 <= 32 && Pow2(nBits) == 256 && g.poly == Low(polynomial, g.width)
      requires 1 <= j <= nBits && Serial(g, c, v, nBits, j, p, dataByte)
      ensures Serial(g, c, v, nBits, j - 1, q, nextByte)
    {
      var shifted := 2 * p % 0x1_0000_0000;
      WordKeepsLow(2 * p, nBits);
      SerialGoesOn(g, c, v, nBits, j, p, dataByte, polynomial, shifted);
      ByteIsLow(2 * dataByte, nBits);
      WordXor(shifted, polynomial);
      q := if Bit(Xor(dataByte, shifted), nBits - 1) then Xor(shifted, polynomial) else shifted;
      nextByte := 2 * dataByte % 256;
    }

    /** The body of the byte loop for widths below 8. */
    method BitwiseNarrow(p: uint32, b: uint8) returns (q: uint32)
      requires Valid() && !TableMode() && width < 8
      ensures Held(q) == Register(Gen(), Held(p), ByteBits(b))
    {
      GenValid();
      WordSize();
      var v := ReflectBytes(b);
      SerialStarts(Gen(), v, 8, p);
      q := SerialByte(p, v, 8, Gen(), Low(p, Gen().width));
    }

    /** The body of the byte loop for the other widths. */
    method BitwiseWide(p: uint32, b: uint8) returns (q: uint32)
      requires Valid() && !TableMode() && width >= 8
      ensures Held(q) == Register(Gen(), Held(p), ByteBits(b))
    {
      GenValid();
      WordSize();
      var v := ReflectBytes(b);
      TopByte(v);
      DividingStarts(Gen(), v, 8, p);
      WordXor(p, Shl(v, width - 8));
      q := DivideByte(Xor(p, Shl(v, width - 8)), 8, Gen(), Low(p, width), v);
    }

    method BitwiseComputePartial(data: seq<uint8>, crc: uint32) returns (status: int, out: uint32)
      requires Valid() && !TableMode()
      ensures status == 0 && Held(out) == Fed(Held(crc), data)
    {
      var p := crc;
      var i := 0;
      assert data[..0] == [];
      while i < |data|
        invariant i <= |data|
        invariant Held(p) == Fed(Held(crc), data[..i])
      {
        FedOneMore(Held(crc), data, i);
        if width < 8 {
          p := BitwiseNarrow(p, data[i]);
        } else {
          p := BitwiseWide(p, data[i]);
        }
        i := i + 1;
      }
      assert data[..|data|] == data;
      MaskCuts(p);
      status, out := 0, Masked(p);
    }

    /** reflect_bytes(data) << (width - 8) loses no bit. */
    lemma TopByte(v: uint8)
      requires 8 <= width <= 32
      ensures Shl(v, width - 8) < 0x1_0000_0000
    {
      WordSize();
      ShlBound(v, 8, width - 8);
      Pow2Mono(width, 32);
    }

    /** p_crc & get_crc_mask() */
    function Masked(p: uint32): uint32
      requires width <= 32
    {
      LowBound(p, MaskBits());
      WordSize();
      Pow2Mono(MaskBits(), 32);
      Low(p, MaskBits())
    }

    /** The right-shifting loop keeps the register in all 32 bits, so between 17 and 31 the mask
        at the end of a chunk spoils it. */
    lemma MaskHarmless()
      requires RightShifting() && width <= 32
      ensures (forall p: uint32 :: Held(Masked(p)) == Held(p)) <==> width == 32
    {
      if width == 32 {
        forall p: uint32
          ensures Held(Masked(p)) == Held(p)
        {
          MirrorLow(32, p);
        }
      } else {
        WordSize();
        Pow2Less(width, 32);
        var p: uint32 := Pow2(width);
        BitDropped(width, 32);
        assert Masked(p) == 0;
        assert Held(Masked(p)) != Held(p);
      }
    }

    /** The bit just above w is dropped with the bits above w, and it is seen in the mirror. */
    static lemma BitDropped(w: nat, n: nat)
      requires w < n
      ensures Low(Pow2(w), w) == 0 && Mirror(n, Pow2(w)) != Mirror(n, 0)
    {
      ShlOne(w);
      Joined(1, 0, w);
      Pow2Less(w, n);
      MirrorTwice(n, Pow2(w));
      MirrorTwice(n, 0);
      LowBound(Pow2(w), n);
      LowBound(0, n);
    }

    static lemma Pow2Less(a: nat, b: nat)
      requires a < b
      ensures Pow2(a) < Pow2(b)
    {
      Pow2Mono(a + 1, b);
    }

    /** The mask drops nothing that the loop keeps. */
    predicate Seamless() {
      !RightShifting() || width == 32
    }

    /** What the mask at the end of a chunk leaves of the register: without its lowest 32 - width
        bits, which the right-shifting loop keeps at the top of the word. */
    function Cut(reg: nat): nat
      requires width <= 32
    {
      if RightShifting() then TopOf(reg, width, 32) else reg
    }

    static function TopOf(reg: nat, w: nat, n: nat): nat
      requires w <= n
    {
      Shl(Shr(reg, n - w), n - w)
    }

    lemma MaskCuts(p: uint32)
      requires Valid()
      ensures Held(Masked(p)) == Cut(Held(p))
    {
      if RightShifting() {
        WordSize();
        MirrorCut(p, width, 32);
      } else {
        LowLow(p, Gen().width, MaskBits());
      }
    }

    static lemma MirrorCut(p: nat, w: nat, n: nat)
      requires w <= n && p < Pow2(n)
      ensures Mirror(n, Low(p, w)) == TopOf(Mirror(n, p), w, n)
    {
      LowBound(p, w);
      MirrorOfHigh(n, Low(p, w), n - w);
      MirrorLow(w, p);
      MirrorSplits(n, p, w);
    }

    /** The mask at the stop drops these bits anyway. */
    lemma ResultOfCut(reg: nat)
      requires width <= 32
      ensures Result(Cut(reg)) == Result(reg)
    {
      if RightShifting() {
        MirroredTop(reg, width, 32);
        DeliveredOfLow(Mirror(32, Cut(reg)), Mirror(32, reg));
      }
    }

    static lemma MirroredTop(reg: nat, w: nat, n: nat)
      requires w <= n
      ensures Low(Mirror(n, TopOf(reg, w, n)), w) == Low(Mirror(n, reg), w)
    {
      Split(reg, n - w);
      LowBound(reg, n - w);
      LowOfMirror(Shr(reg, n - w), Low(reg, n - w), w, n - w);
      LowOfMirror(Shr(reg, n - w), 0, w, n - w);
    }

    static lemma LowOfMirror(hi: nat, lo: nat, w: nat, k: nat)
      requires lo < Pow2(k)
      ensures Low(Mirror(w + k, Shl(hi, k) + lo), w) == Mirror(w, hi)
    {
      MirrorJoin(w, hi, k, lo);
      MirrorBound(w, hi);
      Joined(Mirror(k, lo), Mirror(w, hi), w);
    }

    // ----- table_compute_partial

    /** The table loop for widths up to 8: the whole register joins the index. */
    method NarrowTableTurn(p: uint32, b: uint8) returns (q: uint32)
      requires Valid() && TableMode() && !RightShifting() && width <= 8
      ensures Held(q) == TableTurn(LookedUp(Held(p), b), Held(p), 8, 8)
    {
      var v := ReflectBytes(b);
      var dataByte := Xor(v, p) % 256;
      NarrowIndex(v, p, 8);
      q := table.entries[dataByte];
      NothingStays(q, Held(p), 8);
    }

    static lemma NarrowIndex(v: uint8, p: uint32, k: nat)
      requires Pow2(k) == 256
      ensures Xor(v, p) % 256 == Xor(v, Shr(Low(p, k), 0)) % 256
    {
      ByteIsLow(Xor(v, p), k);
      ByteIsLow(Xor(v, Low(p, k)), k);
      XorLow(v, p, k);
      XorLow(v, Low(p, k), k);
      LowLow(p, k, k);
    }

    static lemma NothingStays(entry: nat, reg: nat, k: nat)
      ensures TableTurn(entry, reg, k, k) == Low(entry, k)
    {
      Joined(reg, 0, k);
      XorZero(entry);
    }

    /** The other byte tables. */
    method WideTableTurn(p: uint32, b: uint8, k: nat) returns (q: uint32)
      requires Pow2(k) == 256 && k <= width <= 32 && TableMode() && |table.entries| == 256
      ensures Low(q, width)
           == TableTurn(table.entries[Xor(Reflected(b), Shr(Low(p, width), width - k)) % 256], Low(p, width), k, width)
    {
      var v := ReflectBytes(b);
      assert v == Reflected(b);
      var dataByte := WideIndex(p, v, k);
      q := WideLookUp(p, table.entries[dataByte], k);
    }

    /** (p_crc >> (width - 8)) ^ data_byte, cut to a byte */
    method WideIndex(p: uint32, v: uint8, k: nat) returns (dataByte: uint8)
      requires Pow2(k) == 256 && k <= width <= 32
      ensures dataByte == Xor(v, Shr(Low(p, width), width - k)) % 256
    {
      dataByte := Xor(v, Shr(p, width - k)) % 256;
      ByteIndex(p, v, width, k);
    }

    /** crc_table[data_byte] ^ (p_crc << 8) */
    method WideLookUp(p: uint32, entry: uint32, k: nat) returns (q: uint32)
      requires Pow2(k) == 256 && k <= width <= 32
      ensures Low(q, width) == TableTurn(entry, Low(p, width), k, width)
    {
      var shifted := 256 * p % 0x1_0000_0000;
      WordKeepsLow(256 * p, width);
      ShlIsProduct(p, k);
      TableWord(width, k, p, entry, shifted);
      WordXor(entry, shifted);
      q := Xor(entry, shifted);
    }

    /** One line of the loop for the reversed CRC-32 polynomial. */
    method RightTurn(p: uint32, d: uint8, k: nat, ghost g: Generator) returns (q: uint32)
      requires Pow2(k) == 16 && k <= g.width && Pow2(g.width) == 0x1_0000_0000 && g.Valid() && TableMode()
      requires |table.entries| == 16 && forall v: nat :: v < 16 ==> table.entries[v] == RightEntry(g, k, v)
      ensures Mirror(g.width, q) == Register(g, Mirror(g.width, p), ToBits(Mirror(k, d), k))
    {
      LowBound(Xor(p, d), k);
      RightTableStepMirrors(g, k, p, d);
      q := Xor(Shr(p, k), table.entries[Low(Xor(p, d), k)]);
    }

    /** Both of them: the low nibble of the byte first. */
    method RightTurns(p: uint32, b: uint8) returns (q: uint32)
      requires Valid() && RightShifting()
      ensures Held(q) == Register(Gen(), Held(p), ByteBits(b))
    {
      GenValid();
      WordSize();
      HighNibble(b, 4);
      MirroredHalves(b, 4);
      var r := RightTurn(p, b, 4, Gen());
      q := RightTurn(r, Shr(b, 4), 4, Gen());
      RegisterConcat(Gen(), Held(p), ToBits(Mirror(4, b), 4), ToBits(Mirror(4, Shr(b, 4)), 4));
    }

    static lemma HighNibble(b: uint8, k: nat)
      requires Pow2(k) == 16
      ensures Shr(b, k) < 16
    {
      ShiftsAreArithmetic(b, k);
    }

    /** One byte more, in table mode. */
    function NextRan(reg: nat, b: uint8): nat
      requires Valid() && TableMode()
    {
      if RightShifting() then Register(Gen(), reg, ByteBits(b))
      else TableTurn(LookedUp(reg, b), reg, 8, Gen().width)
    }

    lemma RanOneMore(reg: nat, data: seq<uint8>, i: nat)
      requires Valid() && TableMode() && i < |data|
      ensures Ran(reg, data[..i + 1]) == NextRan(Ran(reg, data[..i]), data[i])
    {
      if RightShifting() {
        FedOneMore(reg, data, i);
      } else {
        assert data[..i + 1][..i] == data[..i];
      }
    }

    /** The body of the byte loop in table mode. */
    method TableByte(p: uint32, b: uint8) returns (q: uint32)
      requires Valid() && TableMode()
      ensures Held(q) == NextRan(Held(p), b)
    {
      if RightShifting() {
        q := RightTurns(p, b);
      } else if width <= 8 {
        q := NarrowTableTurn(p, b);
      } else {
        WordSize();
        q := WideTableTurn(p, b, 8);
      }
    }

    method TableComputePartial(data: seq<uint8>, crc: uint32) returns (status: int, out: uint32)
      requires Valid() && TableMode()
      ensures status == 0 && Held(out) == Cut(Ran(Held(crc), data))
    {
      var p := crc;
      var i := 0;
      assert data[..0] == [];
      while i < |data|
        invariant i <= |data|
        invariant Held(p) == Ran(Held(crc), data[..i])
      {
        RanOneMore(Held(crc), data, i);
        p := TableByte(p, data[i]);
        i := i + 1;
      }
      assert data[..|data|] == data;
      MaskCuts(p);
      status, out := 0, Masked(p);
    }

    // ----- the partial protocol

    method ComputePartialStart() returns (status: int, crc: uint32)
      ensures status == 0 && Held(crc) == Held(initialValue)
    {
      status, crc := 0, initialValue;
    }

    method ComputePartial(data: seq<uint8>, crc: uint32) returns (status: int, out: uint32)
      requires Valid()
      ensures status == 0 && Held(out) == Cut(Ran(Held(crc), data))
    {
      if TableMode() {
        status, out := TableComputePartial(data, crc);
      } else {
        status, out := BitwiseComputePartial(data, crc);
      }
    }

    /** The register as the left-aligned number that is delivered. */
    function Aligned(reg: nat): nat {
      if width < 8 && !TableMode() then Shl(Low(reg, width), 8 - width) else reg
    }

    function Delivered(value: nat): nat {
      Low(Xor(value, finalXor), MaskBits())
    }

    /** The checksum that a register stands for. */
    function Result(reg: nat): nat {
      if RightShifting() then Delivered(Mirror(32, reg))
      else if reflectRemainder && !Unreflected() then Delivered(Mirror(MaskBits(), Aligned(reg)))
      else Delivered(Aligned(reg))
    }

    lemma DeliveredOfLow(x: nat, y: nat)
      requires Low(x, MaskBits()) == Low(y, MaskBits())
      ensures Delivered(x) == Delivered(y) && Mirror(MaskBits(), x) == Mirror(MaskBits(), y)
    {
      XorLow(x, finalXor, MaskBits());
      XorLow(y, finalXor, MaskBits());
      MirrorLow(MaskBits(), x);
      MirrorLow(MaskBits(), y);
    }

    lemma HeldIsLow(crc: uint32)
      requires Valid() && !RightShifting() && (width >= 8 || TableMode())
      ensures Low(Held(crc), MaskBits()) == Low(crc, MaskBits())
    {
      LowLow(crc, MaskBits(), MaskBits());
    }

    lemma AlignedByShift(crc: nat, k: nat, shifted: nat)
      requires width < 8 && width <= k && Low(shifted, 8) == Low(Shl(crc, 8 - width), 8)
      ensures Low(shifted, 8) == Low(Shl(Low(Low(crc, k), width), 8 - width), 8)
    {
      LowLow(crc, width, k);
      LowOfShl(crc, 8 - width, width);
      LowOfShl(Low(crc, width), 8 - width, width);
      LowLow(crc, width, width);
    }

    lemma StoppedUnreflected(crc: uint32)
      requires Valid() && Unreflected()
      ensures Result(Held(crc)) == Delivered(crc)
    {
      if RightShifting() {
        MirrorTwice(32, crc);
        WordSize();
        LowBound(crc, 32);
      } else {
        HeldIsLow(crc);
        DeliveredOfLow(crc, Held(crc));
      }
    }

    lemma StoppedReflected(crc: uint32, p: uint32)
      requires Valid() && !Unreflected()
      requires if width < 8 && table.Null? then Low(p, 8) == Low(Shl(Low(Low(crc, 7), width), 8 - width), 8) else p == crc
      ensures Result(Held(crc)) == if reflectRemainder then Delivered(Mirror(MaskBits(), p)) else Delivered(p)
    {
      if width >= 8 || TableMode() {
        HeldIsLow(crc);
      }
      DeliveredOfLow(p, Aligned(Held(crc)));
    }

    method ComputePartialStop(crc: uint32) returns (status: int, out: uint32)
      requires Valid()
      ensures status == 0 && out == Result(Held(crc))
    {
      status := 0;
      var p := crc;
      if width < 8 && table.Null? {
        p := Shl(p, 8 - width) % 0x1_0000_0000;
        WordKeepsLow(Shl(crc, 8 - width), 8);
        AlignedByShift(crc, 7, p);
      }
      if Unreflected() {
        StoppedUnreflected(crc);
        WordXor(p, finalXor);
        out := Masked(Xor(p, finalXor));
      } else {
        StoppedReflected(crc, p);
        var reflected := ReflectRemainder(p);
        WordXor(reflected, finalXor);
        out := Masked(Xor(reflected, finalXor));
      }
    }

    /** The checksum of a message. */
    function Checksum(data: seq<uint8>): nat
      requires TableMode() && !RightShifting() ==> |table.entries| == 256
    {
      Result(Ran(Held(initialValue), data))
    }

    /** The error returns between the three calls belong to the hardware mode. */
    method Compute(buffer: seq<uint8>) returns (status: int, crc: uint32)
      requires Valid()
      ensures status == 0 && crc == Checksum(buffer)
    {
      status, crc := ComputePartialStart();
      status, crc := ComputePartial(buffer, crc);
      ResultOfCut(Ran(Held(initialValue), buffer));
      status, crc := ComputePartialStop(crc);
    }

    function Together(chunks: seq<seq<uint8>>): seq<uint8> {
      if chunks == [] then [] else Together(chunks[..|chunks| - 1]) + chunks[|chunks| - 1]
    }

    lemma FedConcat(reg: nat, a: seq<uint8>, b: seq<uint8>)
      requires width <= 32
      ensures Fed(reg, a + b) == Fed(Fed(reg, a), b)
    {
      GenValid();
      BitsOfConcat(a, b, Mirrored(), 8);
      RegisterConcat(Gen(), reg, MessageBits(a), MessageBits(b));
    }

    lemma RanConcat(reg: nat, a: seq<uint8>, b: seq<uint8>)
      requires Valid()
      ensures Ran(reg, a + b) == Ran(Ran(reg, a), b)
    {
      if TableMode() && !RightShifting() {
        TableFedConcat(reg, a, b);
      } else {
        FedConcat(reg, a, b);
      }
    }

    /** The register after some chunks, each of which ends with the mask. */
    function RanInParts(reg: nat, chunks: seq<seq<uint8>>): nat
      requires width <= 32 && (TableMode() && !RightShifting() ==> |table.entries| == 256)
    {
      if chunks == [] then reg
      else Cut(Ran(RanInParts(reg, chunks[..|chunks| - 1]), chunks[|chunks| - 1]))
    }

    lemma {:induction false} SeamlessParts(reg: nat, chunks: seq<seq<uint8>>)
      requires Valid() && Seamless()
      ensures RanInParts(reg, chunks) == Ran(reg, Together(chunks))
      decreases |chunks|
    {
      if chunks == [] {
        NothingRan(reg);
      } else {
        SeamlessParts(reg, chunks[..|chunks| - 1]);
        RanConcat(reg, Together(chunks[..|chunks| - 1]), chunks[|chunks| - 1]);
      }
    }

    lemma NothingRan(reg: nat)
      requires Valid()
      ensures Ran(reg, []) == reg
    {
    }

    /** The checksum of a message computed in parts. */
    function PartsChecksum(chunks: seq<seq<uint8>>): nat
      requires width <= 32 && (TableMode() && !RightShifting() ==> |table.entries| == 256)
    {
      Result(RanInParts(Held(initialValue), chunks))
    }

    /** Start, any number of partial computations, stop: the documented use in parts. */
    method ComputeInParts(chunks: seq<seq<uint8>>) returns (status: int, crc: uint32)
      requires Valid()
      ensures status == 0 && crc == PartsChecksum(chunks)
      ensures Seamless() ==> crc == Checksum(Together(chunks))
    {
      status, crc := ComputePartialStart();
      var i := 0;
      assert chunks[..0] == [];
      while i < |chunks|
        invariant i <= |chunks|
        invariant Held(crc) == RanInParts(Held(initialValue), chunks[..i])
      {
        assert chunks[..i + 1][..i] == chunks[..i];
        status, crc := ComputePartial(chunks[i], crc);
        i := i + 1;
      }
      assert chunks[..|chunks|] == chunks;
      if Seamless() {
        SeamlessParts(Held(initialValue), chunks);
      }
      status, crc := ComputePartialStop(crc);
    }
  }
}
