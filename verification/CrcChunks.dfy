/** Whether it can be seen in a checksum that a message was computed in parts. */
module CrcChunks {
  import opened Gf2
  import opened CrcRegister
  import opened Mirroring
  import opened CrcSteps
  import opened MbedCrc
  import opened CrcTheorems
  import opened TableAlgebra
  import opened Machine

  /** The bits that the mask drops, moved up by two bytes, come out at the top of the register. */
  lemma SeamMovesUp(g: Generator, f: nat, w: nat, n: nat, bits: seq<bool>)
    requires g.Valid() && g.width == n && 16 < w < n <= 32 && f < Pow2(n) && |bits| == 16
    requires Low(f, n - w) != 0
    ensures Crc.TopOf(f, w, n) < Pow2(n)
    ensures Shr(Register(g, f, bits), n - w) != Shr(Register(g, Crc.TopOf(f, w, n), bits), n - w)
  {
    var k, d, top := n - w, Low(f, n - w), Crc.TopOf(f, w, n);
    Dropped(f, w, n);
    RegisterAdds(g, f, bits, top, bits);
    XorSelf(Value(bits));
    ShlOne(g.width);
    XorZero(Shl(d, |bits|));
    LowBound(f, k);
    Above(d, k, |bits|, n);
    var x, y := Register(g, f, bits), Register(g, top, bits);
    SmallRemainder(g, Shl(d, |bits|));
    DivisorRange(g);
    RemainderUnique(Shl(d, |bits|), g.Divisor(), n, Xor(x, y), Shl(d, |bits|));
    XorShr(x, y, k);
    XorSelf(Shr(x, k));
  }

  lemma Dropped(f: nat, w: nat, n: nat)
    requires w <= n && f < Pow2(n)
    ensures Crc.TopOf(f, w, n) < Pow2(n) && Xor(f, Crc.TopOf(f, w, n)) == Low(f, n - w)
  {
    var k, top := n - w, Crc.TopOf(f, w, n);
    Split(f, k);
    LowBound(f, k);
    XorDisjoint(Shr(f, k), Low(f, k), k);
    XorComm(top, Low(f, k));
    XorCancel(Low(f, k), top);
  }

  lemma Above(d: nat, k: nat, m: nat, n: nat)
    requires 0 < d < Pow2(k) && k <= m && k + m <= n
    ensures Shl(d, m) < Pow2(n) && Shr(Shl(d, m), k) != 0
  {
    ShlBound(d, k, m);
    Pow2Mono(k + m, n);
    ShlIsProduct(d, m);
    AtLeast(d, Pow2(m));
    Pow2Mono(k, m);
    ShrBound(Shl(d, m), k);
  }

  lemma AtLeast(d: nat, p: nat)
    requires d > 0
    ensures d * p >= p
  {
  }

  /** Different top bits give different results. */
  lemma TopsDelivered(c: Crc, x: nat, y: nat, n: nat)
    requires c.RightShifting() && c.width <= n == 32 && x < Pow2(n) && y < Pow2(n)
    requires Shr(x, n - c.width) != Shr(y, n - c.width)
    ensures c.Result(x) != c.Result(y)
  {
    var w := c.width;
    MirroredTops(x, w, n);
    MirroredTops(y, w, n);
    LowBound(Mirror(n, x), w);
    LowBound(Mirror(n, y), w);
    PlainDeliveryInjective(c, Low(Mirror(n, x), w), Low(Mirror(n, y), w));
    DeliveredLow(c, Mirror(n, x));
    DeliveredLow(c, Mirror(n, y));
  }

  lemma DeliveredLow(c: Crc, x: nat)
    ensures c.Delivered(Low(x, c.MaskBits())) == c.Delivered(x)
  {
    LowLow(x, c.MaskBits(), c.MaskBits());
    c.DeliveredOfLow(Low(x, c.MaskBits()), x);
  }

  lemma MirroredTops(x: nat, w: nat, n: nat)
    requires w <= n && x < Pow2(n)
    ensures Mirror(w, Low(Mirror(n, x), w)) == Shr(x, n - w)
  {
    Split(x, n - w);
    LowBound(x, n - w);
    Crc.LowOfMirror(Shr(x, n - w), Low(x, n - w), w, n - w);
    MirrorTwice(w, Shr(x, n - w));
    ShrBelow(x, n - w, w);
    LowBound(Shr(x, n - w), w);
  }

  /** A chunk that leaves one of the dropped bits set, and two bytes more. */
  lemma SeamSeen(c: Crc, a: seq<uint8>, b: seq<uint8>, n: nat)
    requires c.Valid() && c.RightShifting() && c.width < n == 32 && |b| == 2
    requires Low(Final(c, a), n - c.width) != 0
    ensures c.PartsChecksum([a, b]) != c.Checksum(a + b)
  {
    FinalIsRemainder(c, a);
    CutSeen(c, Final(c, a), b, n);
    c.FedConcat(c.Held(c.initialValue), a, b);
    TwoParts(c, a, b);
  }

  lemma CutSeen(c: Crc, f: nat, b: seq<uint8>, n: nat)
    requires c.Valid() && c.RightShifting() && c.width < n == 32 && |b| == 2
    requires f < Pow2(n) && Low(f, n - c.width) != 0
    ensures c.Result(c.Fed(f, b)) != c.Result(c.Fed(c.Cut(f), b))
  {
    c.GenValid();
    SeamMovesUp(c.Gen(), f, c.width, n, c.MessageBits(b));
    c.FedInRange(f, b);
    c.FedInRange(c.Cut(f), b);
    TopsDelivered(c, c.Fed(f, b), c.Fed(c.Cut(f), b), n);
  }

  lemma TwoParts(c: Crc, a: seq<uint8>, b: seq<uint8>)
    requires c.Valid()
    ensures c.PartsChecksum([a, b]) == c.Result(c.Ran(c.Cut(c.Ran(c.Held(c.initialValue), a)), b))
  {
    var r := c.Held(c.initialValue);
    assert [a, b][..1] == [a] && [a][..0] == [];
    assert c.RanInParts(r, [a]) == c.Cut(c.Ran(r, a));
    c.ResultOfCut(c.Ran(c.RanInParts(r, [a]), b));
  }

  /** Some chunk of at most one byte leaves the last bit of the register set, or another one of
      those dropped. */
  lemma Stained(c: Crc, n: nat) returns (a: seq<uint8>)
    requires c.Valid() && c.RightShifting() && c.width < n == 32
    ensures Low(Final(c, a), n - c.width) != 0
  {
    var r := c.Held(c.initialValue);
    a := [];
    assert Final(c, a) == r;
    if Low(r, n - c.width) == 0 {
      HeldInRange(c, c.initialValue);
      var b := LookingAt(c, r, 1, 8, n);
      a := [b];
      OddAfter(c, r, b, 8, n);
      OddLow(Final(c, a), n - c.width);
    }
  }

  lemma OddAfter(c: Crc, r: nat, b: uint8, k: nat, n: nat)
    requires c.Valid() && c.RightShifting() && k == 8 && n == 32
    requires Register(c.Gen(), r, c.ByteBits(b)) == Xor(TableEntry(c.Gen(), k, 1), Low(Shl(r, k), n))
    ensures c.Fed(r, [b]) % 2 == 1
  {
    OneByteFed(c, r, b);
    c.GenValid();
    OddPolynomial(c, n);
    FirstEntryOdd(c.Gen(), k);
    OddSum(TableEntry(c.Gen(), k, 1), Low(Shl(r, k), n), n, r);
  }

  lemma FirstEntryOdd(g: Generator, k: nat)
    requires g.Valid() && k >= 1 && g.poly % 2 == 1
    ensures TableEntry(g, k, 1) % 2 == 1
  {
    EntryOne(g, k);
  }

  /** A byte that brings a given index into the register. */
  lemma LookingAt(c: Crc, r: nat, index: nat, k: nat, n: nat) returns (b: uint8)
    requires c.Valid() && c.RightShifting() && k == 8 && n == 32 && r < Pow2(n) && index < 256
    ensures Register(c.Gen(), r, c.ByteBits(b)) == Xor(TableEntry(c.Gen(), k, index), Low(Shl(r, k), n))
  {
    WordSize();
    c.GenValid();
    var top := Shr(r, n - k);
    ShrBelow(r, n - k, k);
    XorBound(index, top, k);
    var v := Xor(index, top);
    MirrorBound(k, v);
    MirrorTwice(k, v);
    LowBound(v, k);
    b := Mirror(k, v);
    XorCancel(index, top);
    RegisterByTable(c.Gen(), r, v, k);
  }

  lemma OddPolynomial(c: Crc, n: nat)
    requires c.RightShifting() && n == 32
    ensures c.Gen().poly % 2 == 1
  {
    WordSize();
    OddMirror(n, c.polynomial);
  }

  lemma OddMirror(n: nat, p: nat)
    requires n >= 1 && Pow2(n - 1) <= p < Pow2(n)
    ensures Mirror(n, p) % 2 == 1
  {
    MirrorOneMore(n - 1, p);
    ShrBound(p, n - 1);
    ShrBelow(p, n - 1, 1);
  }

  lemma OddSum(p: nat, q: nat, n: nat, r: nat)
    requires p % 2 == 1 && n > 8 && q == Low(Shl(r, 8), n)
    ensures Xor(p, q) % 2 == 1
  {
    XorStep(p, q);
    assert Shl(r, 8) == 2 * Shl(r, 7);
  }

  lemma OddLow(a: nat, k: nat)
    requires a % 2 == 1 && k > 0
    ensures Low(a, k) != 0
  {
  }

  /** Computing in parts is invisible, for every division into parts, exactly when the mask drops
      nothing: only the right-shifting loop at a width below 32 shows it. */
  lemma ChunkingInvisible(c: Crc)
    requires c.Valid()
    ensures (forall chunks: seq<seq<uint8>> :: c.PartsChecksum(chunks) == c.Checksum(c.Together(chunks))) <==> c.Seamless()
  {
    if c.Seamless() {
      forall chunks: seq<seq<uint8>>
        ensures c.PartsChecksum(chunks) == c.Checksum(c.Together(chunks))
      {
        c.SeamlessParts(c.Held(c.initialValue), chunks);
      }
    } else {
      var a, b := SeamFound(c, 32);
      TogetherTwo(c, a, b);
    }
  }

  lemma SeamFound(c: Crc, n: nat) returns (a: seq<uint8>, b: seq<uint8>)
    requires c.Valid() && c.RightShifting() && c.width < n == 32
    ensures c.PartsChecksum([a, b]) != c.Checksum(a + b)
  {
    a := Stained(c, n);
    b := [0, 0];
    SeamSeen(c, a, b, n);
  }

  lemma TogetherTwo(c: Crc, a: seq<uint8>, b: seq<uint8>)
    ensures c.Together([a, b]) == a + b
  {
    assert [a, b][..1] == [a] && [a][..0] == [];
    assert c.Together([a]) == [] + a == a;
  }

  /** Even an empty chunk in front of two bytes is seen, exactly when the initial value has a bit
      above the width. */
  lemma EmptyChunkSeen(c: Crc, data: seq<uint8>)
    requires c.Valid() && c.RightShifting() && c.width < 32 && |data| == 2
    ensures c.PartsChecksum([[], data]) != c.Checksum(data) <==> c.initialValue >= Pow2(c.width)
  {
    HeldHigh(c, 32);
    if c.initialValue >= Pow2(c.width) {
      SeamAtStart(c, data, 32);
    } else {
      NoSeamAtStart(c, data, 32);
    }
  }

  lemma HeldHigh(c: Crc, n: nat)
    requires c.RightShifting() && c.width < n == 32
    ensures Low(c.Held(c.initialValue), n - c.width) == 0 <==> c.initialValue < Pow2(c.width)
  {
    WordSize();
    HighPart(c.initialValue, c.width, n);
  }

  lemma NoSeamAtStart(c: Crc, data: seq<uint8>, n: nat)
    requires c.Valid() && c.RightShifting() && c.width < n == 32
    requires Low(c.Held(c.initialValue), n - c.width) == 0
    ensures c.PartsChecksum([[], data]) == c.Checksum(data)
  {
    CutNothing(c, c.Held(c.initialValue), n);
    EmptyChunk(c, data);
  }

  lemma CutNothing(c: Crc, reg: nat, n: nat)
    requires c.width < n == 32 && Low(reg, n - c.width) == 0
    ensures c.Cut(reg) == reg
  {
    NothingCut(reg, c.width, n);
  }

  lemma SeamAtStart(c: Crc, data: seq<uint8>, n: nat)
    requires c.Valid() && c.RightShifting() && c.width < n == 32 && |data| == 2
    requires Low(c.Held(c.initialValue), n - c.width) != 0
    ensures c.PartsChecksum([[], data]) != c.Checksum(data)
  {
    assert Final(c, []) == c.Held(c.initialValue);
    SeamSeen(c, [], data, n);
    assert [] + data == data;
  }

  lemma NothingCut(reg: nat, w: nat, n: nat)
    requires w <= n && Low(reg, n - w) == 0
    ensures Crc.TopOf(reg, w, n) == reg
  {
    Split(reg, n - w);
  }

  lemma EmptyChunk(c: Crc, data: seq<uint8>)
    requires c.Valid()
    ensures Final(c, []) == c.Held(c.initialValue) && c.Ran(c.Held(c.initialValue), []) == c.Held(c.initialValue)
    ensures c.PartsChecksum([[], data]) == c.Result(c.Ran(c.Cut(c.Held(c.initialValue)), data))
  {
    TwoParts(c, [], data);
  }

  lemma HighPart(p: nat, w: nat, n: nat)
    requires w <= n && p < Pow2(n)
    ensures Low(Mirror(n, p), n - w) == 0 <==> p < Pow2(w)
  {
    HighOfMirror(p, w, n - w);
    ShrBelow(p, w, n - w);
    ShrBound(p, w);
    MirrorOfNothing(Shr(p, w), n - w);
  }

  lemma HighOfMirror(p: nat, w: nat, k: nat)
    ensures Low(Mirror(k + w, p), k) == Mirror(k, Shr(p, w))
  {
    Split(p, w);
    LowBound(p, w);
    Crc.LowOfMirror(Shr(p, w), Low(p, w), k, w);
  }

  lemma MirrorOfNothing(a: nat, k: nat)
    requires a < Pow2(k)
    ensures Mirror(k, a) == 0 <==> a == 0
  {
    MirrorTwice(k, a);
    LowBound(a, k);
    MirrorZero(k);
  }

  /** With all ones to start from, at every width below 32. */
  lemma OnesExample(c: Crc, data: seq<uint8>)
    requires c.Valid() && c.polynomial == POLY_32BIT_REV_ANSI && c.TableMode() && 16 < c.width < 32
    requires c.initialValue == 0xFFFF_FFFF && |data| == 2
    ensures c.PartsChecksum([[], data]) != c.Checksum(data)
  {
    WordSize();
    Crc.Pow2Less(c.width, 32);
    EmptyChunkSeen(c, data);
  }
}
