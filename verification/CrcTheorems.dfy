/** What the checksums delivered by the driver are, and how its modes agree. */
module CrcTheorems {
  import opened Gf2
  import opened CrcRegister
  import opened Mirroring
  import opened CrcSteps
  import opened MbedCrc
  import opened Machine

  /** What is divided: the initial value above the 8n message bits, and the message above the
      register (see Dividend). */
  function MessagePolynomial(c: Crc, data: seq<uint8>): nat {
    Dividend(c.Gen(), c.Held(c.initialValue), c.MessageBits(data))
  }

  lemma HeldInRange(c: Crc, crc: uint32)
    requires c.width <= 32
    ensures c.Held(crc) < Pow2(c.Gen().width)
  {
    LowBound(crc, c.Gen().width);
    MirrorBound(32, crc);
  }

  /** The register before the stop. */
  function Final(c: Crc, data: seq<uint8>): nat {
    c.Fed(c.Held(c.initialValue), data)
  }

  lemma FinalIsRemainder(c: Crc, data: seq<uint8>)
    requires c.width <= 32
    ensures Final(c, data) < Pow2(c.Gen().width)
    ensures forall r: nat :: IsRemainder(MessagePolynomial(c, data), c.Gen().Divisor(), c.Gen().width, r) <==> r == Final(c, data)
  {
    c.GenValid();
    HeldInRange(c, c.initialValue);
    RegisterIsRemainder(c.Gen(), c.Held(c.initialValue), c.MessageBits(data));
  }

  lemma OneByteFed(c: Crc, reg: nat, b: uint8)
    ensures c.Fed(reg, [b]) == Register(c.Gen(), reg, c.ByteBits(b))
  {
    c.FedOneMore(reg, [b], 0);
    assert [b][..0] == [] && [b][..1] == [b];
  }

  /** With the right table, or none, the checksum is read off the ideal register. */
  lemma ChecksumOf(c: Crc, data: seq<uint8>)
    requires c.Exact()
    ensures c.Checksum(data) == c.Result(Final(c, data))
  {
    HeldInRange(c, c.initialValue);
    c.RanIsFed(c.Held(c.initialValue), data);
  }

  /** What is delivered is the register with its bits in reverse order. */
  predicate TurnedRound(c: Crc) {
    c.RightShifting() || (c.reflectRemainder && !c.Unreflected())
  }

  /** For every object that keeps its whole register, whatever it reflects and whatever it xors in
      at the end: a number is the remainder of init * x^(8n) + M * x^width by x^width + polynomial
      if and only if the checksum is that number, mirrored if so asked, with the final xor. */
  lemma ChecksumIsRemainder(c: Crc, data: seq<uint8>, r: nat)
    requires c.Exact() && c.Seamless() && (c.width >= 8 || c.TableMode()) && r < Pow2(c.MaskBits())
    ensures c.Gen().width == c.MaskBits()
    ensures c.width >= 8 && !c.RightShifting() ==> c.Gen().Divisor() == Pow2(c.width) + Low(c.polynomial, c.width)
    ensures IsRemainder(MessagePolynomial(c, data), c.Gen().Divisor(), c.MaskBits(), r)
       <==> c.Checksum(data) == Low(Xor(if TurnedRound(c) then Mirror(c.MaskBits(), r) else r, c.finalXor), c.MaskBits())
  {
    ChecksumOf(c, data);
    FinalIsRemainder(c, data);
    DeliveryInjective(c, Final(c, data), r);
  }

  /** Below width 8 the bitwise loop divides by x^7 + polynomial whatever the width, and delivers
      the low width bits of that remainder, left aligned in a byte, mirrored over the byte if so
      asked, with the final xor. */
  lemma NarrowChecksum(c: Crc, data: seq<uint8>, r: nat)
    requires c.Valid() && c.width < 8 && !c.TableMode()
    requires IsRemainder(MessagePolynomial(c, data), c.Gen().Divisor(), c.Gen().width, r)
    ensures c.Gen() == Generator(7, Low(c.polynomial, 7))
    ensures var aligned := Shl(Low(r, c.width), 8 - c.width);
      c.Checksum(data) == Low(Xor(if c.reflectRemainder then Mirror(8, aligned) else aligned, c.finalXor), 8)
  {
    FinalIsRemainder(c, data);
  }

  /** The final xor is applied to every checksum, in every mode and at every width. */
  lemma FinalXorApplied(c: Crc, data: seq<uint8>)
    requires c.Valid()
    ensures c.Checksum(data) == Xor(c.(finalXor := 0).Checksum(data), Low(c.finalXor, c.MaskBits()))
  {
    var plain := c.(finalXor := 0);
    SameRun(c, plain, c.Held(c.initialValue), data);
    var value := Undelivered(c, c.Ran(c.Held(c.initialValue), data));
    XorZero(value);
    XorLow(value, c.finalXor, c.MaskBits());
  }

  /** The register as it is delivered, before the final xor. */
  function Undelivered(c: Crc, reg: nat): (value: nat)
    ensures c.Result(reg) == c.Delivered(value)
    ensures c.(finalXor := 0).Result(reg) == c.(finalXor := 0).Delivered(value)
  {
    if c.RightShifting() then Mirror(32, reg) else if TurnedRound(c) then Mirror(c.MaskBits(), c.Aligned(reg)) else c.Aligned(reg)
  }

  /** The run does not look at the final xor. */
  lemma {:induction false} SameRun(c: Crc, d: Crc, reg: nat, data: seq<uint8>)
    requires d == c.(finalXor := d.finalXor) && c.Valid()
    ensures c.Ran(reg, data) == d.Ran(reg, data)
    decreases |data|
  {
    if c.TableMode() && !c.RightShifting() && data != [] {
      SameRun(c, d, reg, data[..|data| - 1]);
    }
  }

  /** Of an empty message the initial value is delivered. */
  lemma EmptyMessage(c: Crc)
    requires c.Valid() && c.width >= 8
    ensures c.Checksum([])
         == Low(Xor(if c.reflectRemainder && !c.Unreflected() then Mirror(c.width, c.initialValue) else c.initialValue, c.finalXor), c.width)
  {
    c.NothingRan(c.Held(c.initialValue));
    if c.Unreflected() {
      c.StoppedUnreflected(c.initialValue);
    } else {
      c.StoppedReflected(c.initialValue, c.initialValue);
    }
  }

  lemma {:induction false} MirrorOfOnes(k: nat)
    ensures Mirror(k, Pow2(k) - 1) == Pow2(k) - 1
  {
    if k > 0 {
      MirrorOfOnes(k - 1);
      ShlOne(k - 1);
      assert (Pow2(k) - 1) / 2 == Pow2(k - 1) - 1 && (Pow2(k) - 1) % 2 == 1;
    }
  }

  /** CRC-32 with all ones before and after, reflected or not, in every mode: the checksum of an
      empty message is 0. */
  lemma EmptyIsZero(c: Crc)
    requires c.Valid() && c.width == 32 && c.initialValue == 0xFFFF_FFFF && c.finalXor == 0xFFFF_FFFF
    ensures c.Checksum([]) == 0
  {
    EmptyMessage(c);
    WordSize();
    MirrorOfOnes(32);
    XorSelf(c.finalXor);
    LowBound(0, 32);
  }

  /** A valid byte table changes nothing. */
  lemma TableModeAgrees(c: Crc, data: seq<uint8>)
    requires c.Exact() && c.TableMode() && !c.Unreflected() && c.width >= 8
    ensures c.Checksum(data) == c.(table := Null).Checksum(data)
  {
    ChecksumOf(c, data);
    assert Final(c, data) == Final(c.(table := Null), data);
    assert c.Result(Final(c, data)) == c.(table := Null).Result(Final(c, data));
  }

  /** Same for every width below 8 that the bitwise loop handles, that is 7: the two modes
      agree on every message exactly when the table mode starts from the initial value of the
      other moved up by one bit. */
  lemma WidthSevenAgrees(bitwise: Crc, table: Crc)
    requires bitwise.Valid() && table.Exact() && bitwise.width == 7
    requires !bitwise.TableMode() && table.TableMode() && !table.Unreflected()
    requires table == bitwise.(table := table.table, initialValue := table.initialValue)
    ensures (forall data: seq<uint8> :: bitwise.Checksum(data) == table.Checksum(data))
       <==> Low(table.initialValue, 8) == Low(Shl(bitwise.initialValue, 1), 8)
  {
    if Low(table.initialValue, 8) == Low(Shl(bitwise.initialValue, 1), 8) {
      forall data: seq<uint8>
        ensures bitwise.Checksum(data) == table.Checksum(data)
      {
        WidthSevenRegisters(bitwise, table, data);
      }
    }
    if forall data: seq<uint8> :: bitwise.Checksum(data) == table.Checksum(data) {
      assert bitwise.Checksum([]) == table.Checksum([]);
      var x, y := Shl(Low(bitwise.initialValue, 7), 1), Low(table.initialValue, 8);
      WidthSevenEmpty(bitwise, table);
      LowOfShl(bitwise.initialValue, 1, 7);
    }
  }

  lemma WidthSevenRegisters(bitwise: Crc, table: Crc, data: seq<uint8>)
    requires bitwise.width == 7 && table.Exact()
    requires !bitwise.TableMode() && table.TableMode() && !table.Unreflected()
    requires table == bitwise.(table := table.table, initialValue := table.initialValue)
    requires Low(table.initialValue, 8) == Low(Shl(bitwise.initialValue, 1), 8)
    ensures bitwise.Checksum(data) == table.Checksum(data)
  {
    ChecksumOf(table, data);
    WidthSevenFed(bitwise, table, data);
    WidthSevenResults(bitwise, table, Final(bitwise, data), 7);
  }

  lemma WidthSevenFed(bitwise: Crc, table: Crc, data: seq<uint8>)
    requires bitwise.width == 7 && table.width == 7
    requires !bitwise.TableMode() && table.TableMode() && !table.Unreflected()
    requires table == bitwise.(table := table.table, initialValue := table.initialValue)
    requires Low(table.initialValue, 8) == Low(Shl(bitwise.initialValue, 1), 8)
    ensures Final(bitwise, data) < Pow2(7)
    ensures Final(table, data) == Shl(Final(bitwise, data), 1)
  {
    var reg := bitwise.Held(bitwise.initialValue);
    WidthSevenAligned(bitwise, table);
    bitwise.GenValid();
    HeldInRange(bitwise, bitwise.initialValue);
    bitwise.FedInRange(reg, data);
    MovedUpByOne(bitwise.Gen(), reg, bitwise.MessageBits(data), table.Gen());
  }

  lemma MovedUpByOne(g: Generator, reg: nat, bits: seq<bool>, up: Generator)
    requires g.Valid() && reg < Pow2(g.width) && up == Generator(g.width + 1, Shl(g.poly, 1))
    ensures Register(up, Shl(reg, 1), bits) == Shl(Register(g, reg, bits), 1)
  {
    RegisterMovedUp(g, reg, bits, 1);
  }

  lemma WidthSevenAligned(bitwise: Crc, table: Crc)
    requires bitwise.width == 7 && table.width == 7
    requires !bitwise.TableMode() && table.TableMode() && !table.Unreflected()
    requires table.polynomial == bitwise.polynomial
    requires Low(table.initialValue, 8) == Low(Shl(bitwise.initialValue, 1), 8)
    ensures table.Gen() == Generator(bitwise.Gen().width + 1, Shl(bitwise.Gen().poly, 1))
    ensures table.Held(table.initialValue) == Shl(bitwise.Held(bitwise.initialValue), 1)
  {
    LowOfShl(bitwise.polynomial, 1, 7);
    LowOfShl(bitwise.initialValue, 1, 7);
  }

  lemma WidthSevenResults(bitwise: Crc, table: Crc, reg: nat, k: nat)
    requires bitwise.width == 7 && k == 7 && reg < Pow2(k)
    requires !bitwise.TableMode() && table.TableMode() && !table.Unreflected()
    requires table == bitwise.(table := table.table, initialValue := table.initialValue)
    ensures bitwise.Result(reg) == table.Result(Shl(reg, 1))
  {
    LowBound(reg, k);
  }

  lemma WidthSevenEmpty(bitwise: Crc, table: Crc)
    requires bitwise.width == 7 && table.Valid()
    requires !bitwise.TableMode() && table.TableMode() && !table.Unreflected()
    requires table == bitwise.(table := table.table, initialValue := table.initialValue)
    requires bitwise.Checksum([]) == table.Checksum([])
    ensures Shl(Low(bitwise.initialValue, 7), 1) == Low(table.initialValue, 8)
  {
    SevenAndEight(bitwise, Low(bitwise.initialValue, 7), Low(table.initialValue, 8), 7);
    LowBound(bitwise.initialValue, 7);
    LowBound(table.initialValue, 8);
    assert bitwise.Checksum([]) == bitwise.Result(Low(bitwise.initialValue, 7));
    assert table.Checksum([]) == table.Result(Low(table.initialValue, 8));
  }

  /** The results of the empty message tell the starting registers apart. */
  lemma SevenAndEight(bitwise: Crc, x: nat, y: nat, k: nat)
    requires bitwise.width == k == 7 && !bitwise.TableMode() && x < Pow2(k) && y < Pow2(k + 1)
    ensures bitwise.Result(x) == (if bitwise.reflectRemainder then bitwise.Delivered(Mirror(k + 1, y)) else bitwise.Delivered(y))
       <==> Shl(x, 1) == y
  {
    LowBound(x, k);
    ShlBound(x, k, 1);
    DeliveryInjective(bitwise, Shl(x, 1), y);
  }

  /** What is delivered tells the aligned registers apart. */
  lemma DeliveryInjective(c: Crc, x: nat, y: nat)
    requires c.width <= 32 && x < Pow2(c.MaskBits()) && y < Pow2(c.MaskBits())
    ensures c.Delivered(x) == c.Delivered(y) <==> x == y
    ensures c.Delivered(Mirror(c.MaskBits(), x)) == c.Delivered(Mirror(c.MaskBits(), y)) <==> x == y
  {
    var m := c.MaskBits();
    MirrorBound(m, x);
    MirrorBound(m, y);
    PlainDeliveryInjective(c, x, y);
    PlainDeliveryInjective(c, Mirror(m, x), Mirror(m, y));
    MirrorTwice(m, x);
    MirrorTwice(m, y);
    LowBound(x, m);
    LowBound(y, m);
  }

  lemma PlainDeliveryInjective(c: Crc, x: nat, y: nat)
    requires c.width <= 32 && x < Pow2(c.MaskBits()) && y < Pow2(c.MaskBits())
    ensures c.Delivered(x) == c.Delivered(y) <==> x == y
  {
    var m := c.MaskBits();
    XorLow(x, c.finalXor, m);
    XorLow(y, c.finalXor, m);
    LowBound(x, m);
    LowBound(y, m);
    XorCancel(x, Low(c.finalXor, m));
    XorCancel(y, Low(c.finalXor, m));
  }

  lemma ResultInjective(c: Crc, r: nat, s: nat)
    requires c.width <= 32 && c.Seamless() && c.width >= 8 && r < Pow2(c.width) && s < Pow2(c.width)
    ensures c.Result(r) == c.Result(s) <==> r == s
  {
    DeliveryInjective(c, r, s);
  }

  /** The right-shifting loop on the mirrored polynomial, stopped without reflection, delivers
      what the bitwise loop on the polynomial delivers with every reflection switched on: all 32
      bits of it, or as many as the width says. */
  lemma RightShiftingAgrees(c: Crc, data: seq<uint8>)
    requires c.Valid() && c.RightShifting()
    ensures c.Checksum(data) == Low(Forward(c).Checksum(data), c.width)
    ensures c.width == 32 ==> c.Checksum(data) == Forward(c).Checksum(data)
  {
    ForwardAgrees(c);
    assert Final(c, data) == Final(Forward(c), data);
    LowLow(Xor(Mirror(32, Final(c, data)), c.finalXor), c.width, 32);
  }

  /** The bitwise object for the mirrored polynomial and initial value. */
  function Forward(c: Crc): Crc {
    Crc(AsWord(Mirror(32, c.polynomial)), 32, AsWord(Mirror(32, c.initialValue)), c.finalXor, true, true, Null)
  }

  lemma ForwardAgrees(c: Crc)
    requires c.RightShifting()
    ensures c.Gen() == Forward(c).Gen()
    ensures c.Held(c.initialValue) == Forward(c).Held(Forward(c).initialValue)
    ensures c.Mirrored() && Forward(c).Mirrored()
  {
    WordSize();
    MirrorIsWord(c.polynomial, 32);
    MirrorIsWord(c.initialValue, 32);
  }

  lemma MirrorIsWord(a: nat, k: nat)
    requires Pow2(k) == 0x1_0000_0000
    ensures AsWord(Mirror(k, a)) == Mirror(k, a) == Low(AsWord(Mirror(k, a)), k)
  {
    MirrorBound(k, a);
    LowBound(Mirror(k, a), k);
  }

  function AsWord(a: nat): uint32 {
    a % 0x1_0000_0000
  }

  /** Two messages of one length that differ only inside a window of at most width bits, in
      processing order, never share a checksum. */
  lemma BurstDetected(c: Crc, a: seq<uint8>, b: seq<uint8>, s: nat)
    requires c.Exact() && c.Seamless() && c.width >= 8 && c.Gen().poly % 2 == 1
    requires |a| == |b| && a != b
    requires forall i :: 0 <= i < 8 * |a| && !(s <= i < s + c.width) ==> c.MessageBits(a)[i] == c.MessageBits(b)[i]
    ensures c.Checksum(a) != c.Checksum(b)
  {
    ChecksumOf(c, a);
    ChecksumOf(c, b);
    c.GenValid();
    HeldInRange(c, c.initialValue);
    MessageBitsInjective(c, a, b);
    BurstSeparated(c.Gen(), c.Held(c.initialValue), c.MessageBits(a), c.MessageBits(b), s);
    FinalIsRemainder(c, a);
    FinalIsRemainder(c, b);
    ResultInjective(c, Final(c, a), Final(c, b));
  }

  /** Different bytes are different bits. */
  lemma MessageBitsInjective(c: Crc, a: seq<uint8>, b: seq<uint8>)
    requires |a| == |b|
    ensures c.MessageBits(a) == c.MessageBits(b) <==> a == b
  {
    ItemsInjective(a, b, c.Mirrored(), 8);
  }

  lemma {:induction false} ItemsInjective(a: seq<nat>, b: seq<nat>, mirrored: bool, k: nat)
    requires |a| == |b| && Pow2(k) == 256
    requires forall i :: 0 <= i < |a| ==> a[i] < 256 && b[i] < 256
    ensures BitsOf(a, mirrored, k) == BitsOf(b, mirrored, k) <==> a == b
    decreases |a|
  {
    if BitsOf(a, mirrored, k) == BitsOf(b, mirrored, k) && a != [] {
      var n := |a| - 1;
      var x, y := BitsOf(a[..n], mirrored, k), BitsOf(b[..n], mirrored, k);
      var p, q := ItemBits(a[n], mirrored, k), ItemBits(b[n], mirrored, k);
      assert (x + p)[..|x|] == x && (y + q)[..|y|] == y;
      assert (x + p)[|x|..] == p && (y + q)[|y|..] == q;
      ItemsInjective(a[..n], b[..n], mirrored, k);
      ItemInjective(a[n], b[n], mirrored, k);
      assert a == a[..n] + [a[n]] && b == b[..n] + [b[n]];
    }
  }

  lemma ItemInjective(x: nat, y: nat, mirrored: bool, k: nat)
    requires x < Pow2(k) && y < Pow2(k) && ItemBits(x, mirrored, k) == ItemBits(y, mirrored, k)
    ensures x == y
  {
    var v, w := if mirrored then Mirror(k, x) else x, if mirrored then Mirror(k, y) else y;
    MirrorBound(k, x);
    MirrorBound(k, y);
    ValueOfBits(v, k);
    ValueOfBits(w, k);
    LowBound(v, k);
    LowBound(w, k);
    LowBound(x, k);
    LowBound(y, k);
    MirrorTwice(k, x);
    MirrorTwice(k, y);
  }

  // ----- the residue

  /** v in n items of k bits, most significant item first. */
  function BigEndian(v: nat, n: nat, k: nat): (items: seq<nat>)
    ensures |items| == n
    decreases n
  {
    if n == 0 then [] else BigEndian(Shr(v, k), n - 1, k) + [Low(v, k)]
  }

  lemma {:induction false} BigEndianBits(v: nat, n: nat, k: nat)
    ensures BitsOf(BigEndian(v, n, k), false, k) == ToBits(v, k * n)
    decreases n
  {
    if n > 0 {
      var high, low := Shr(v, k), Low(v, k);
      BigEndianBits(high, n - 1, k);
      assert BigEndian(v, n, k)[..n - 1] == BigEndian(high, n - 1, k);
      Split(v, k);
      LowBound(v, k);
      BitsConcat(high, k * (n - 1), low, k);
      OneItemMore(k, n);
    }
  }

  lemma OneItemMore(k: nat, n: nat)
    requires n > 0
    ensures k * (n - 1) + k == k * n
  {
  }

  lemma {:induction false} BigEndianItems(v: nat, n: nat, k: nat, i: nat)
    requires i < n
    ensures BigEndian(v, n, k)[i] < Pow2(k)
    decreases n
  {
    LowBound(v, k);
    if i < n - 1 {
      BigEndianItems(Shr(v, k), n - 1, k, i);
    }
  }

  /** v in n items of k bits, least significant item first. */
  function LittleEndian(v: nat, n: nat, k: nat): (items: seq<nat>)
    ensures |items| == n
    decreases n
  {
    if n == 0 then [] else [Low(v, k)] + LittleEndian(Shr(v, k), n - 1, k)
  }

  lemma {:induction false} LittleEndianItems(v: nat, n: nat, k: nat, i: nat)
    requires i < n
    ensures LittleEndian(v, n, k)[i] < Pow2(k)
    decreases n
  {
    LowBound(v, k);
    if i > 0 {
      LittleEndianItems(Shr(v, k), n - 1, k, i - 1);
    }
  }

  lemma {:induction false} LittleEndianBits(v: nat, n: nat, k: nat)
    ensures BitsOf(LittleEndian(v, n, k), true, k) == ToBits(Mirror(k * n, v), k * n)
    decreases n
  {
    if n > 0 {
      LittleEndianBits(Shr(v, k), n - 1, k);
      OneItemFirst(v, LittleEndian(Shr(v, k), n - 1, k), k, k * (n - 1));
      OneItemMore(k, n);
    }
  }

  lemma OneItemFirst(v: nat, rest: seq<nat>, k: nat, j: nat)
    requires BitsOf(rest, true, k) == ToBits(Mirror(j, Shr(v, k)), j)
    ensures BitsOf([Low(v, k)] + rest, true, k) == ToBits(Mirror(j + k, v), j + k)
  {
    BitsOfConcat([Low(v, k)], rest, true, k);
    OneItem(Low(v, k), true, k);
    MirroredParts(v, j, k);
  }

  lemma MirroredParts(v: nat, j: nat, k: nat)
    ensures ToBits(Mirror(j + k, v), j + k) == ToBits(Mirror(k, Low(v, k)), k) + ToBits(Mirror(j, Shr(v, k)), j)
  {
    Split(v, k);
    LowBound(v, k);
    MirrorJoin(j, Shr(v, k), k, Low(v, k));
    MirrorBound(j, Shr(v, k));
    BitsConcat(Mirror(k, Low(v, k)), k, Mirror(j, Shr(v, k)), j);
  }

  lemma OneItem(x: nat, mirrored: bool, k: nat)
    ensures BitsOf([x], mirrored, k) == ItemBits(x, mirrored, k)
  {
    assert [x][..0] == [];
  }

  /** A checksum as bytes in the order of the message bits: least significant first where bytes
      are mirrored, most significant first where they are not. */
  function Trailer(c: Crc, t: nat): (bytes: seq<uint8>)
    ensures bytes == if c.Mirrored() then LittleEndian(t, c.width / 8, 8) else BigEndian(t, c.width / 8, 8)
  {
    var items := if c.Mirrored() then LittleEndian(t, c.width / 8, 8) else BigEndian(t, c.width / 8, 8);
    WordSize();
    assert forall i :: 0 <= i < |items| ==> items[i] < 256 by {
      forall i | 0 <= i < |items| ensures items[i] < 256 {
        BigEndianItems(t, c.width / 8, 8, i);
        LittleEndianItems(t, c.width / 8, 8, i);
      }
    }
    items
  }

  /** The number whose bits the trailer feeds. */
  function InOrder(c: Crc, t: nat): nat {
    if c.Mirrored() then Mirror(c.width, t) else t
  }

  lemma TrailerBits(c: Crc, t: nat)
    requires c.width % 8 == 0
    ensures c.MessageBits(Trailer(c, t)) == ToBits(InOrder(c, t), c.width)
  {
    BigEndianBits(t, c.width / 8, 8);
    LittleEndianBits(t, c.width / 8, 8);
  }

  /** Objects whose trailers can be checked: of whole bytes, that mirror the remainder if and only
      if they mirror the bytes. */
  ghost predicate Checkable(c: Crc) {
    c.Exact() && c.Seamless() && c.width >= 8 && c.width % 8 == 0 && (c.Mirrored() <==> TurnedRound(c))
  }

  /** What the trailer of any message leaves behind; for no message at all, to be definite. */
  function Residue(c: Crc): nat
    requires c.TableMode() && !c.RightShifting() ==> |c.table.entries| == 256
  {
    c.Checksum(Trailer(c, c.Checksum([])))
  }

  /** A message followed by its checksum has the same checksum as any other such message, 0 if
      there is no final xor; with a constant term in the divisor no other trailer gives that. */
  lemma TrailerVerifies(c: Crc, data: seq<uint8>, t: nat)
    requires Checkable(c) && t < Pow2(c.width)
    ensures t == c.Checksum(data) ==> c.Checksum(data + Trailer(c, t)) == Residue(c)
    ensures c.Gen().poly % 2 == 1 && c.Checksum(data + Trailer(c, t)) == Residue(c) ==> t == c.Checksum(data)
    ensures c.finalXor == 0 ==> Residue(c) == 0
  {
    TrailerLeaves(c, data, t);
    ResidueLeft(c);
    if c.finalXor == 0 {
      NothingLeft(c);
    }
  }

  /** The register that is left, whatever the message. */
  function LeftOver(c: Crc): nat
    requires c.Gen().width >= 1
  {
    Register(c.Gen(), 0, ToBits(InOrder(c, Low(c.finalXor, c.width)), c.width))
  }

  lemma ResidueLeft(c: Crc)
    requires Checkable(c)
    ensures Residue(c) == c.Result(LeftOver(c))
  {
    assert [] + Trailer(c, c.Checksum([])) == Trailer(c, c.Checksum([]));
    ChecksumInRange(c, []);
    TrailerLeaves(c, [], c.Checksum([]));
  }

  lemma ChecksumInRange(c: Crc, data: seq<uint8>)
    requires c.Valid() && c.width >= 8
    ensures c.Checksum(data) < Pow2(c.width)
  {
    var value := Undelivered(c, c.Ran(c.Held(c.initialValue), data));
    LowBound(Xor(value, c.finalXor), c.width);
  }

  lemma TrailerLeaves(c: Crc, data: seq<uint8>, t: nat)
    requires Checkable(c) && t < Pow2(c.width)
    ensures t == c.Checksum(data) ==> c.Checksum(data + Trailer(c, t)) == c.Result(LeftOver(c))
    ensures c.Gen().poly % 2 == 1 && c.Checksum(data + Trailer(c, t)) == c.Result(LeftOver(c)) ==> t == c.Checksum(data)
  {
    TrailerRegister(c, data, t);
    LeftInRange(c);
    FinalIsRemainder(c, data + Trailer(c, t));
    ResultInjective(c, Final(c, data + Trailer(c, t)), LeftOver(c));
    EndsInLeft(c, data, t);
  }

  lemma LeftInRange(c: Crc)
    requires Checkable(c)
    ensures LeftOver(c) < Pow2(c.width) && c.Gen().width == c.width
  {
    c.GenValid();
    RegisterIsRemainder(c.Gen(), 0, ToBits(InOrder(c, Low(c.finalXor, c.width)), c.width));
  }

  lemma EndsInLeft(c: Crc, data: seq<uint8>, t: nat)
    requires Checkable(c) && t < Pow2(c.width)
    ensures t == c.Checksum(data) ==> Final(c, data + Trailer(c, t)) == LeftOver(c)
    ensures c.Gen().poly % 2 == 1 && Final(c, data + Trailer(c, t)) == LeftOver(c) ==> t == c.Checksum(data)
  {
    c.GenValid();
    TrailerRegister(c, data, t);
    InOrderChecksum(c, data, t);
    FinalIsRemainder(c, data);
    LowBound(c.finalXor, c.width);
    InOrderBound(c, t);
    InOrderBound(c, Low(c.finalXor, c.width));
    SameEnd(c.Gen(), Final(c, data), InOrder(c, t), InOrder(c, Low(c.finalXor, c.width)));
  }

  lemma InOrderBound(c: Crc, t: nat)
    requires t < Pow2(c.width)
    ensures InOrder(c, t) < Pow2(c.width)
  {
    MirrorBound(c.width, t);
  }

  lemma TrailerRegister(c: Crc, data: seq<uint8>, t: nat)
    requires Checkable(c)
    ensures c.Gen().Valid() && c.Gen().width == c.width
    ensures c.Checksum(data + Trailer(c, t)) == c.Result(Final(c, data + Trailer(c, t)))
    ensures Final(c, data + Trailer(c, t)) == Register(c.Gen(), Final(c, data), ToBits(InOrder(c, t), c.width))
  {
    c.GenValid();
    ChecksumOf(c, data + Trailer(c, t));
    c.FedConcat(c.Held(c.initialValue), data, Trailer(c, t));
    TrailerBits(c, t);
  }

  /** In the order of the bits the checksum is the register with the final xor. */
  lemma InOrderChecksum(c: Crc, data: seq<uint8>, t: nat)
    requires Checkable(c) && t < Pow2(c.width)
    ensures t == c.Checksum(data) <==> InOrder(c, t) == Xor(Final(c, data), InOrder(c, Low(c.finalXor, c.width)))
  {
    ChecksumRead(c, data);
    FinalIsRemainder(c, data);
    LowBound(c.finalXor, c.width);
    if c.Mirrored() {
      MirroredSum(c.width, Final(c, data), t, Low(c.finalXor, c.width));
    }
  }

  lemma ChecksumRead(c: Crc, data: seq<uint8>)
    requires Checkable(c)
    ensures c.Gen().width == c.width
    ensures c.Checksum(data) == Xor(InOrder(c, Final(c, data)), Low(c.finalXor, c.width))
  {
    ChecksumOf(c, data);
    FinalIsRemainder(c, data);
    InOrderBound(c, Final(c, data));
    XorLow(InOrder(c, Final(c, data)), c.finalXor, c.width);
    LowBound(InOrder(c, Final(c, data)), c.width);
  }

  lemma MirroredSum(w: nat, reg: nat, t: nat, f: nat)
    requires reg < Pow2(w) && t < Pow2(w) && f < Pow2(w)
    ensures t == Xor(Mirror(w, reg), f) <==> Mirror(w, t) == Xor(reg, Mirror(w, f))
  {
    var s := Xor(Mirror(w, reg), f);
    MirrorXor(w, Mirror(w, reg), f);
    MirrorTwice(w, reg);
    LowBound(reg, w);
    MirrorBound(w, reg);
    XorBound(Mirror(w, reg), f, w);
    LowBound(t, w);
    LowBound(s, w);
    MirrorTwice(w, t);
    MirrorTwice(w, s);
  }

  /** Two strings of a register's length end in the same register from two starts if and only if
      what they add to their starts is the same. */
  lemma SameEnd(g: Generator, c: nat, y: nat, x: nat)
    requires g.Valid() && c < Pow2(g.width) && y < Pow2(g.width) && x < Pow2(g.width)
    ensures y == Xor(c, x) ==> Register(g, c, ToBits(y, g.width)) == Register(g, 0, ToBits(x, g.width))
    ensures g.poly % 2 == 1 && Register(g, c, ToBits(y, g.width)) == Register(g, 0, ToBits(x, g.width)) ==> y == Xor(c, x)
  {
    var w := g.width;
    SumOfRegisters(g, c, y, 0, x, w);
    RegisterCleared(g, c, Xor(y, x));
    XorZero(c);
    XorEqZero(Register(g, c, ToBits(y, w)), Register(g, 0, ToBits(x, w)));
    XorCancel(c, x);
    XorCancel(y, x);
  }

  lemma NothingLeft(c: Crc)
    requires Checkable(c) && c.finalXor == 0
    ensures c.Result(LeftOver(c)) == 0
  {
    c.GenValid();
    LowBound(0, c.width);
    MirrorZero(c.width);
    RegisterCleared(c.Gen(), 0, 0);
    XorZero(0);
  }
}
