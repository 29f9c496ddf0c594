/** What an object computes with a byte table of which some entries are wrong. */
module WrongEntries {
  import opened Machine
  import opened Gf2
  import opened CrcRegister
  import opened Mirroring
  import opened CrcSteps
  import opened MbedCrc
  import opened CrcTheorems
  import opened TableAlgebra

  ghost predicate ByteTabled(c: Crc) {
    c.Valid() && c.TableMode() && !c.RightShifting()
  }

  /** ... with the register of its width, and stopped as the bitwise mode is. */
  ghost predicate Comparable(c: Crc) {
    ByteTabled(c) && c.width >= 8 && !c.Unreflected()
  }

  lemma RanInRange(c: Crc, reg: nat, data: seq<uint8>)
    requires ByteTabled(c) && reg < Pow2(c.Gen().width)
    ensures c.Ran(reg, data) < Pow2(c.Gen().width)
  {
    if data != [] {
      var r, b := c.TableFed(reg, data[..|data| - 1]), data[|data| - 1];
      LowBound(Xor(c.LookedUp(r, b), Low(Shl(r, 8), c.Gen().width)), c.Gen().width);
    }
  }

  lemma SameResult(c: Crc, reg: nat)
    requires Comparable(c)
    ensures c.(table := Null).Result(reg) == c.Result(reg)
  {
  }

  /** Equal checksums are equal registers. */
  lemma ChecksumsDiffer(c: Crc, data: seq<uint8>)
    requires Comparable(c)
    ensures c.Checksum(data) == c.(table := Null).Checksum(data)
       <==> c.Ran(c.Held(c.initialValue), data) == c.Fed(c.Held(c.initialValue), data)
  {
    var reg := c.Held(c.initialValue);
    HeldInRange(c, c.initialValue);
    c.FedInRange(reg, data);
    RanInRange(c, reg, data);
    ResultInjective(c, c.Ran(reg, data), c.Fed(reg, data));
    SameResult(c, c.Fed(reg, data));
  }

  // ----- bytes that look where one likes

  lemma LookingAt(c: Crc, reg: nat, index: nat, k: nat) returns (b: uint8)
    requires ByteTabled(c) && reg < Pow2(c.Gen().width) && index < 256 && k == 8
    ensures c.Index(reg, b) == index
  {
    WordSize();
    c.GenValid();
    var top := Shr(reg, c.Gen().width - k);
    ShrBelow(reg, c.Gen().width - k, k);
    XorBound(index, top, k);
    b := Unreflecting(c, Xor(index, top), k);
    XorCancel(index, top);
  }

  lemma Unreflecting(c: Crc, v: nat, k: nat) returns (b: uint8)
    requires k == 8 && Pow2(k) == 256 && v < 256
    ensures c.Reflected(b) == v
  {
    b := v;
    if c.reflectData {
      MirrorBound(k, v);
      MirrorTwice(k, v);
      LowBound(v, k);
      b := Mirror(k, v);
    }
  }

  // ----- messages of one byte

  lemma OneByteRan(c: Crc, reg: nat, b: uint8)
    requires ByteTabled(c)
    ensures c.Ran(reg, [b]) == TableTurn(c.LookedUp(reg, b), reg, 8, c.Gen().width)
  {
    assert [b][..0] == [];
    assert c.TableFed(reg, []) == reg;
  }

  /** One byte is right exactly when its entry is. */
  lemma OneByte(c: Crc, reg: nat, b: uint8)
    requires ByteTabled(c) && reg < Pow2(c.Gen().width)
    ensures c.Index(reg, b) < 256
    ensures c.Ran(reg, [b]) == c.Fed(reg, [b]) <==> c.RightAt(c.Index(reg, b))
  {
    OneByteRan(c, reg, b);
    OneByteFed(c, reg, b);
    c.TurnExact(reg, b);
  }

  /** The checksums of all messages are those of the bitwise mode if and only if every entry, as
      far as the register can hold it, is right. */
  lemma EveryChecksum(c: Crc)
    requires Comparable(c)
    ensures (forall data: seq<uint8> :: c.Checksum(data) == c.(table := Null).Checksum(data)) <==> c.Exact()
  {
    if c.Exact() {
      forall data: seq<uint8>
        ensures c.Checksum(data) == c.(table := Null).Checksum(data)
      {
        TableModeAgrees(c, data);
      }
    } else {
      var v: nat :| v < 256 && !c.RightAt(v);
      var b := ByteSpoiled(c, v);
    }
  }

  lemma ByteSpoiled(c: Crc, v: nat) returns (b: uint8)
    requires Comparable(c) && v < 256 && !c.RightAt(v)
    ensures c.Checksum([b]) != c.(table := Null).Checksum([b])
  {
    HeldInRange(c, c.initialValue);
    b := LookingAt(c, c.Held(c.initialValue), v, 8);
    OneByte(c, c.Held(c.initialValue), b);
    ChecksumsDiffer(c, [b]);
  }

  // ----- messages that look at right entries

  /** One turn further from the ideal register. */
  lemma NextTurn(c: Crc, reg: nat, data: seq<uint8>, i: nat)
    requires ByteTabled(c) && reg < Pow2(c.Gen().width) && i < |data|
    requires c.Ran(reg, data[..i]) == c.Fed(reg, data[..i])
    ensures c.Index(c.Fed(reg, data[..i]), data[i]) < 256
    ensures c.Ran(reg, data[..i + 1]) == c.Fed(reg, data[..i + 1]) <==> c.RightAt(c.Index(c.Fed(reg, data[..i]), data[i]))
  {
    c.FedInRange(reg, data[..i]);
    c.FedOneMore(reg, data, i);
    c.RanOneMore(reg, data, i);
    c.TurnExact(c.Fed(reg, data[..i]), data[i]);
  }

  /** Byte i of a message, if the register is ideal, looks at a right entry. */
  predicate LooksRightAt(c: Crc, reg: nat, data: seq<uint8>, i: nat)
    requires c.TableMode() && !c.RightShifting() && |c.table.entries| == 256 && i < |data|
  {
    var index := c.Index(c.Fed(reg, data[..i]), data[i]);
    index < 256 && c.RightAt(index)
  }

  ghost predicate LooksRight(c: Crc, reg: nat, data: seq<uint8>)
    requires ByteTabled(c)
  {
    forall i :: 0 <= i < |data| ==> LooksRightAt(c, reg, data, i)
  }

  ghost predicate FollowsIdeal(c: Crc, reg: nat, data: seq<uint8>)
    requires c.Valid()
  {
    forall i :: 0 <= i <= |data| ==> c.Ran(reg, data[..i]) == c.Fed(reg, data[..i])
  }

  lemma {:induction false} RightSoFar(c: Crc, reg: nat, data: seq<uint8>, i: nat)
    requires ByteTabled(c) && reg < Pow2(c.Gen().width) && i <= |data| && LooksRight(c, reg, data)
    ensures c.Ran(reg, data[..i]) == c.Fed(reg, data[..i])
  {
    if i > 0 {
      RightSoFar(c, reg, data, i - 1);
      assert LooksRightAt(c, reg, data, i - 1);
      NextTurn(c, reg, data, i - 1);
    }
  }

  /** The register is the ideal one all along exactly when no byte looks at a wrong entry. */
  lemma RightUntilWrongEntry(c: Crc, reg: nat, data: seq<uint8>)
    requires ByteTabled(c) && reg < Pow2(c.Gen().width)
    ensures FollowsIdeal(c, reg, data) <==> LooksRight(c, reg, data)
  {
    if LooksRight(c, reg, data) {
      forall i | 0 <= i <= |data|
        ensures c.Ran(reg, data[..i]) == c.Fed(reg, data[..i])
      {
        RightSoFar(c, reg, data, i);
      }
    }
    if FollowsIdeal(c, reg, data) {
      forall i | 0 <= i < |data|
        ensures LooksRightAt(c, reg, data, i)
      {
        NextTurn(c, reg, data, i);
        assert c.Ran(reg, data[..i + 1]) == c.Fed(reg, data[..i + 1]);
      }
    }
  }

  lemma RightAfter(c: Crc, reg: nat, data: seq<uint8>)
    requires ByteTabled(c) && reg < Pow2(c.Gen().width) && LooksRight(c, reg, data)
    ensures c.Ran(reg, data) == c.Fed(reg, data)
  {
    RightSoFar(c, reg, data, |data|);
    assert data[..|data|] == data;
  }

  lemma WrongThen(c: Crc, reg: nat, a: seq<uint8>, b: uint8)
    requires ByteTabled(c) && reg < Pow2(c.Gen().width) && LooksRight(c, reg, a)
    ensures c.Index(c.Fed(reg, a), b) < 256
    ensures c.Ran(reg, a + [b]) == c.Fed(reg, a + [b]) <==> c.RightAt(c.Index(c.Fed(reg, a), b))
  {
    var ab := a + [b];
    RightAfter(c, reg, a);
    assert ab[..|a|] == a && ab[..|a| + 1] == ab;
    NextTurn(c, reg, ab, |a|);
  }

  /** At most one wrong look-up in a message: the checksum is right exactly when there is none,
      wherever it is. The bytes before it look at right entries, and so do those after it, from
      the register that it left. */
  lemma OneWrongLookUp(c: Crc, a: seq<uint8>, b: uint8, s: seq<uint8>)
    requires Comparable(c) && c.Gen().poly % 2 == 1
    requires LooksRight(c, c.Held(c.initialValue), a)
    requires LooksRight(c, c.Ran(c.Held(c.initialValue), a + [b]), s)
    ensures c.Index(c.Fed(c.Held(c.initialValue), a), b) < 256
    ensures c.Checksum(a + [b] + s) == c.(table := Null).Checksum(a + [b] + s)
       <==> c.RightAt(c.Index(c.Fed(c.Held(c.initialValue), a), b))
  {
    var reg, ab := c.Held(c.initialValue), a + [b];
    HeldInRange(c, c.initialValue);
    WrongThen(c, reg, a, b);
    c.FedInRange(reg, ab);
    RanInRange(c, reg, ab);
    RightAfter(c, c.Ran(reg, ab), s);
    c.RanConcat(reg, ab, s);
    c.FedConcat(reg, ab, s);
    c.GenValid();
    RegisterInjective(c.Gen(), c.Ran(reg, ab), c.Fed(reg, ab), c.MessageBits(s));
    ChecksumsDiffer(c, ab + s);
  }

  // ----- any number of wrong look-ups

  /** What is wrong with an entry: 0 exactly for a right one. */
  function Defect(c: Crc, index: nat): nat
    requires c.TableMode() && !c.RightShifting() && |c.table.entries| == 256
  {
    Xor(Low(c.table.entries[index % 256], c.Gen().width), TableEntry(c.Gen(), 8, index))
  }

  /** What the look-ups of a message leave wrong, read off the ideal register: an error is shifted
      with the register, takes part in the index, and has the defect of the entry added. */
  function Error(c: Crc, reg: nat, data: seq<uint8>): nat
    requires c.TableMode() && !c.RightShifting() && |c.table.entries| == 256
  {
    if data == [] then 0
    else
      var front, b := data[..|data| - 1], data[|data| - 1];
      var e := Error(c, reg, front);
      Xor(Register(c.Gen(), e, ToBits(0, 8)), Defect(c, c.Index(Xor(c.Fed(reg, front), e), b)))
  }

  /** A turn is eight division steps and the defect of the entry. */
  lemma TurnOff(c: Crc, reg: nat, b: uint8)
    requires ByteTabled(c) && reg < Pow2(c.Gen().width)
    ensures TableTurn(c.LookedUp(reg, b), reg, 8, c.Gen().width)
         == Xor(Register(c.Gen(), reg, c.ByteBits(b)), Defect(c, c.Index(reg, b)))
  {
    c.GenValid();
    c.ReflectedIsByte(b, 8);
    EntryOff(c.Gen(), c.LookedUp(reg, b), reg, c.Reflected(b), 8);
  }

  lemma EntryOff(g: Generator, entry: nat, reg: nat, v: nat, k: nat)
    requires g.Valid() && reg < Pow2(g.width) && v < Pow2(k) && k <= g.width
    ensures TableTurn(entry, reg, k, g.width)
         == Xor(Register(g, reg, ToBits(v, k)), Xor(Low(entry, g.width), TableEntry(g, k, Xor(v, Shr(reg, g.width - k)))))
  {
    var w, e, rest := g.width, TableEntry(g, k, Xor(v, Shr(reg, g.width - k))), Low(Shl(reg, k), g.width);
    RegisterByTable(g, reg, v, k);
    XorLow(entry, rest, w);
    LowLow(Shl(reg, k), w, w);
    Exchanged(e, rest, Low(entry, w));
  }

  lemma Exchanged(e: nat, rest: nat, entry: nat)
    ensures Xor(Xor(e, rest), Xor(entry, e)) == Xor(entry, rest)
  {
    XorComm(entry, e);
    XorSwap(e, rest, e, entry);
    XorSelf(e);
    XorZero(Xor(rest, entry));
    XorComm(rest, entry);
  }

  lemma DefectInRange(c: Crc, index: nat)
    requires ByteTabled(c)
    ensures Defect(c, index) < Pow2(c.Gen().width)
  {
    c.GenValid();
    LowBound(c.table.entries[index % 256], c.Gen().width);
    RegisterIsRemainder(c.Gen(), 0, ToBits(index, 8));
    XorBound(Low(c.table.entries[index % 256], c.Gen().width), TableEntry(c.Gen(), 8, index), c.Gen().width);
  }

  /** The register is the ideal one, off by the error. */
  lemma {:induction false} ErrorAdds(c: Crc, reg: nat, data: seq<uint8>)
    requires ByteTabled(c) && reg < Pow2(c.Gen().width)
    ensures Error(c, reg, data) < Pow2(c.Gen().width)
    ensures c.Ran(reg, data) == Xor(c.Fed(reg, data), Error(c, reg, data))
    decreases |data|
  {
    if data == [] {
      XorZero(reg);
      assert c.Ran(reg, []) == reg == c.Fed(reg, []);
    } else {
      var front, b := data[..|data| - 1], data[|data| - 1];
      assert data == front + [b];
      ErrorAdds(c, reg, front);
      c.FedInRange(reg, front);
      ByteEnters(c, reg, front, b);
      ErrorOneMore(c, c.Fed(reg, front), Error(c, reg, front), b);
    }
  }

  lemma ByteEnters(c: Crc, reg: nat, front: seq<uint8>, b: uint8)
    requires ByteTabled(c)
    ensures c.Ran(reg, front + [b]) == TableTurn(c.LookedUp(c.Ran(reg, front), b), c.Ran(reg, front), 8, c.Gen().width)
    ensures c.Fed(reg, front + [b]) == Register(c.Gen(), c.Fed(reg, front), c.ByteBits(b))
  {
    var data := front + [b];
    assert data[..|front|] == front && data[..|front| + 1] == data;
    c.RanOneMore(reg, data, |front|);
    c.FedOneMore(reg, data, |front|);
  }

  lemma ErrorOneMore(c: Crc, f: nat, e: nat, b: uint8)
    requires ByteTabled(c) && f < Pow2(c.Gen().width) && e < Pow2(c.Gen().width)
    ensures var next := Xor(Register(c.Gen(), e, ToBits(0, 8)), Defect(c, c.Index(Xor(f, e), b)));
      && next < Pow2(c.Gen().width)
      && TableTurn(c.LookedUp(Xor(f, e), b), Xor(f, e), 8, c.Gen().width) == Xor(Register(c.Gen(), f, c.ByteBits(b)), next)
  {
    XorBound(f, e, c.Gen().width);
    TurnOff(c, Xor(f, e), b);
    BothShifted(c, f, e, b, 8);
    DefectInRange(c, c.Index(Xor(f, e), b));
    OffBy(Register(c.Gen(), f, c.ByteBits(b)), Register(c.Gen(), e, ToBits(0, 8)), Defect(c, c.Index(Xor(f, e), b)), c.Gen().width);
  }

  lemma OffBy(f: nat, e: nat, d: nat, w: nat)
    requires e < Pow2(w) && d < Pow2(w)
    ensures Xor(e, d) < Pow2(w) && Xor(Xor(f, e), d) == Xor(f, Xor(e, d))
  {
    XorBound(e, d, w);
    XorAssoc(f, e, d);
  }

  lemma BothShifted(c: Crc, f: nat, e: nat, b: uint8, k: nat)
    requires ByteTabled(c) && f < Pow2(c.Gen().width) && e < Pow2(c.Gen().width) && k == 8
    ensures Register(c.Gen(), e, ToBits(0, k)) < Pow2(c.Gen().width)
    ensures Register(c.Gen(), Xor(f, e), c.ByteBits(b)) == Xor(Register(c.Gen(), f, c.ByteBits(b)), Register(c.Gen(), e, ToBits(0, k)))
  {
    c.ReflectedIsByte(b, k);
    ErrorShifted(c, f, e, c.Reflected(b), k);
  }

  lemma ErrorShifted(c: Crc, f: nat, e: nat, v: nat, k: nat)
    requires ByteTabled(c) && f < Pow2(c.Gen().width) && e < Pow2(c.Gen().width) && v < 256 && k == 8
    ensures Register(c.Gen(), e, ToBits(0, k)) < Pow2(c.Gen().width)
    ensures Register(c.Gen(), Xor(f, e), ToBits(v, k)) == Xor(Register(c.Gen(), f, ToBits(v, k)), Register(c.Gen(), e, ToBits(0, k)))
  {
    WordSize();
    c.GenValid();
    SumOfRegisters(c.Gen(), f, v, e, 0, k);
    XorZero(v);
    RegisterIsRemainder(c.Gen(), e, ToBits(0, k));
  }

  /** Whatever the table: the checksum of a message is right if and only if its look-ups leave no
      error in the register. */
  lemma ErrorDecides(c: Crc, data: seq<uint8>)
    requires Comparable(c)
    ensures c.Checksum(data) == c.(table := Null).Checksum(data) <==> Error(c, c.Held(c.initialValue), data) == 0
  {
    var reg := c.Held(c.initialValue);
    HeldInRange(c, c.initialValue);
    ErrorAdds(c, reg, data);
    ChecksumsDiffer(c, data);
    XorZero(c.Fed(reg, data));
    XorCancel(Error(c, reg, data), c.Fed(reg, data));
    XorSelf(c.Fed(reg, data));
  }

  // ----- missing entries

  /** A table with the right entries below m, and 0 in place of the others. */
  ghost predicate ZeroFrom(c: Crc, m: nat) {
    && ByteTabled(c) && 0 < m
    && forall v: nat :: v < 256 ==> if v < m then c.RightAt(v) else c.table.entries[v] == 0
  }

  /** What a string of bytes of k bits leaves in an empty register. */
  function Left(g: Generator, bytes: seq<nat>, k: nat): nat
    requires g.width >= 1
  {
    if bytes == [] then 0 else Register(g, Left(g, bytes[..|bytes| - 1], k), ToBits(bytes[|bytes| - 1], k))
  }

  /** ... is its remainder. */
  lemma {:induction false} LeftIsRegister(g: Generator, bytes: seq<nat>, k: nat)
    requires g.width >= 1
    ensures Left(g, bytes, k) == Register(g, 0, BitsOf(bytes, false, k))
    decreases |bytes|
  {
    if bytes != [] {
      LeftIsRegister(g, bytes[..|bytes| - 1], k);
      RegisterConcat(g, 0, BitsOf(bytes[..|bytes| - 1], false, k), ToBits(bytes[|bytes| - 1], k));
    }
  }

  /** The index that a byte misses, or 0. */
  function MissedAt(m: nat, index: nat): nat {
    if index < m then 0 else index
  }

  /** The indexes that a message misses, byte by byte, read off the ideal register: what the ones
      missed so far leave is added to it. */
  function Missed(c: Crc, m: nat, reg: nat, data: seq<uint8>): seq<nat>
    requires c.TableMode() && !c.RightShifting()
  {
    if data == [] then []
    else
      var front, b := data[..|data| - 1], data[|data| - 1];
      var missed := Missed(c, m, reg, front);
      missed + [MissedAt(m, c.Index(Xor(c.Fed(reg, front), Left(c.Gen(), missed, 8)), b))]
  }

  lemma {:induction false} MissedIsError(c: Crc, m: nat, reg: nat, data: seq<uint8>)
    requires ZeroFrom(c, m) && reg < Pow2(c.Gen().width)
    ensures Left(c.Gen(), Missed(c, m, reg, data), 8) == Error(c, reg, data)
    decreases |data|
  {
    if data != [] {
      var front, b := data[..|data| - 1], data[|data| - 1];
      MissedIsError(c, m, reg, front);
      ErrorAdds(c, reg, front);
      c.FedInRange(reg, front);
      var e, missed := Error(c, reg, front), Missed(c, m, reg, front);
      var index := c.Index(Xor(c.Fed(reg, front), e), b);
      LeftOneMore(c.Gen(), missed, MissedAt(m, index), 8);
      MissedEnters(c, m, c.Fed(reg, front), e, b, 8);
    }
  }

  lemma LeftOneMore(g: Generator, bytes: seq<nat>, x: nat, k: nat)
    requires g.width >= 1
    ensures Left(g, bytes + [x], k) == Register(g, Left(g, bytes, k), ToBits(x, k))
  {
    assert (bytes + [x])[..|bytes|] == bytes;
  }

  lemma MissedEnters(c: Crc, m: nat, f: nat, e: nat, b: uint8, k: nat)
    requires ZeroFrom(c, m) && f < Pow2(c.Gen().width) && e < Pow2(c.Gen().width) && k == 8
    ensures var index := c.Index(Xor(f, e), b);
      Register(c.Gen(), e, ToBits(MissedAt(m, index), k)) == Xor(Register(c.Gen(), e, ToBits(0, k)), Defect(c, index))
  {
    c.GenValid();
    XorBound(f, e, c.Gen().width);
    c.TurnExact(Xor(f, e), b);
    var index := c.Index(Xor(f, e), b);
    DefectOfMissed(c, m, index);
    if index < m {
      XorZero(Register(c.Gen(), e, ToBits(0, k)));
    } else {
      IndexAdds(c.Gen(), e, index, k);
    }
  }

  lemma DefectOfMissed(c: Crc, m: nat, index: nat)
    requires ZeroFrom(c, m) && index < 256
    ensures Defect(c, index) == if index < m then 0 else TableEntry(c.Gen(), 8, index)
  {
    Crc.ByteIndexed(index);
    if index < m {
      assert c.RightAt(index);
      XorSelf(TableEntry(c.Gen(), 8, index));
    } else {
      LowBound(0, c.Gen().width);
      XorZero(TableEntry(c.Gen(), 8, index));
    }
  }

  lemma IndexAdds(g: Generator, e: nat, index: nat, k: nat)
    requires g.Valid() && e < Pow2(g.width) && index < 256 && k == 8
    ensures Register(g, e, ToBits(index, k)) == Xor(Register(g, e, ToBits(0, k)), TableEntry(g, k, index))
  {
    WordSize();
    SumOfRegisters(g, e, 0, 0, index, k);
    XorZero(e);
    XorZero(index);
  }

  /** The checksum of a message is right exactly when the string of the indexes that it misses is
      itself divisible by the divisor: in particular when it misses none. */
  lemma MissedDecide(c: Crc, m: nat, data: seq<uint8>)
    requires ZeroFrom(c, m) && Comparable(c)
    ensures c.Checksum(data) == c.(table := Null).Checksum(data)
       <==> Register(c.Gen(), 0, BitsOf(Missed(c, m, c.Held(c.initialValue), data), false, 8)) == 0
  {
    HeldInRange(c, c.initialValue);
    c.GenValid();
    MissedIsError(c, m, c.Held(c.initialValue), data);
    LeftIsRegister(c.Gen(), Missed(c, m, c.Held(c.initialValue), data), 8);
    ErrorDecides(c, data);
  }

  predicate CanMiss(m: nat, x: nat) {
    x == 0 || m <= x < 256
  }

  /** A string of indexes that can be missed, with 0 where none is. */
  predicate Missable(m: nat, bytes: seq<nat>) {
    bytes == [] || (Missable(m, bytes[..|bytes| - 1]) && CanMiss(m, bytes[|bytes| - 1]))
  }

  lemma MissableMore(m: nat, bytes: seq<nat>, x: nat)
    requires Missable(m, bytes) && CanMiss(m, x)
    ensures Missable(m, bytes + [x])
  {
    assert (bytes + [x])[..|bytes|] == bytes;
  }

  /** Each of them is missed by some message. */
  lemma {:induction false} MissingMessage(c: Crc, m: nat, reg: nat, bytes: seq<nat>) returns (data: seq<uint8>)
    requires ZeroFrom(c, m) && reg < Pow2(c.Gen().width) && Missable(m, bytes)
    ensures Missed(c, m, reg, data) == bytes
    decreases |bytes|
  {
    if bytes == [] {
      data := [];
    } else {
      var before := MissingMessage(c, m, reg, bytes[..|bytes| - 1]);
      data := MissingByte(c, m, reg, before, bytes);
    }
  }

  lemma MissingByte(c: Crc, m: nat, reg: nat, before: seq<uint8>, bytes: seq<nat>) returns (data: seq<uint8>)
    requires ZeroFrom(c, m) && reg < Pow2(c.Gen().width) && bytes != [] && CanMiss(m, bytes[|bytes| - 1])
    requires Missed(c, m, reg, before) == bytes[..|bytes| - 1]
    ensures Missed(c, m, reg, data) == bytes
  {
    MissedInRange(c, m, reg, before);
    var b := LookingAt(c, Xor(c.Fed(reg, before), Left(c.Gen(), Missed(c, m, reg, before), 8)), bytes[|bytes| - 1], 8);
    data := before + [b];
    MissedOneMore(c, m, reg, before, b, bytes);
  }

  lemma MissedInRange(c: Crc, m: nat, reg: nat, data: seq<uint8>)
    requires ZeroFrom(c, m) && reg < Pow2(c.Gen().width)
    ensures Xor(c.Fed(reg, data), Left(c.Gen(), Missed(c, m, reg, data), 8)) < Pow2(c.Gen().width)
  {
    MissedIsError(c, m, reg, data);
    ErrorAdds(c, reg, data);
    c.FedInRange(reg, data);
    XorBound(c.Fed(reg, data), Error(c, reg, data), c.Gen().width);
  }

  lemma MissedOneMore(c: Crc, m: nat, reg: nat, front: seq<uint8>, b: uint8, bytes: seq<nat>)
    requires c.TableMode() && !c.RightShifting() && 0 < m && bytes != [] && CanMiss(m, bytes[|bytes| - 1])
    requires Missed(c, m, reg, front) == bytes[..|bytes| - 1]
    requires c.Index(Xor(c.Fed(reg, front), Left(c.Gen(), Missed(c, m, reg, front), 8)), b) == bytes[|bytes| - 1]
    ensures Missed(c, m, reg, front + [b]) == bytes
  {
    MissedGrows(c, m, reg, front, b);
    LastAgain(bytes);
  }

  lemma MissedGrows(c: Crc, m: nat, reg: nat, front: seq<uint8>, b: uint8)
    requires c.TableMode() && !c.RightShifting()
    ensures Missed(c, m, reg, front + [b])
         == Missed(c, m, reg, front) + [MissedAt(m, c.Index(Xor(c.Fed(reg, front), Left(c.Gen(), Missed(c, m, reg, front), 8)), b))]
  {
    assert (front + [b])[..|front|] == front;
  }

  lemma LastAgain<T>(s: seq<T>)
    requires s != []
    ensures s == s[..|s| - 1] + [s[|s| - 1]]
  {
  }
}
