/** Storing and loading back: the byte memory and the load value extraction are inverse. */
module RoundTrip {
  import opened Pipeline
  import opened Memory

  // ---- Sign extension

  /** The weight of the top bit of a field of this width. */
  function TopBit(bits: bv8): bv64
    requires 0 < bits <= 64
  {
    (1 as bv64) << (bits - 1)
  }

  predicate PowerOfTwo(m: bv64) { m != 0 && m & (m - 1) == 0 }

  predicate Negative(v: bv64, m: bv64) { v & m != 0 }

  function MinusTwice(v: bv64, m: bv64): bv64 { Minus(Minus(v, m), m) }

  /** Two's-complement reading of a field with sign bit `m`: a set sign bit subtracts the range. */
  function Signed(v: bv64, m: bv64): bv64 { if Negative(v, m) then MinusTwice(v, m) else v }

  lemma FlipClear(v: bv64, m: bv64)
    requires PowerOfTwo(m) && !Negative(v, m)
    ensures FlipSubtract(v, m) == v
  {
    assert (v ^ m) - m == v;
  }

  lemma FlipSet(v: bv64, m: bv64)
    requires PowerOfTwo(m) && Negative(v, m)
    ensures Flip(v, m) == Minus(v, m)
  {
    HasBit(v, m);
    Flipped(v, m);
    DisjointSum(Flip(v, m), m);
    hide Flip, Minus, PowerOfTwo, Negative, Plus;
    PlusMinus(Flip(v, m), m);
    assert Plus(m, Flip(v, m)) == v;
  }

  lemma HasBit(v: bv64, m: bv64)
    requires PowerOfTwo(m) && Negative(v, m)
    ensures v & m == m
  {
  }

  lemma Flipped(v: bv64, m: bv64)
    requires v & m == m
    ensures Flip(v, m) & m == 0 && Flip(v, m) | m == v
  {
  }

  lemma DisjointSum(x: bv64, m: bv64)
    requires x & m == 0
    ensures Plus(m, x) == x | m
  {
  }

  lemma FlipIsSigned(v: bv64, m: bv64)
    requires PowerOfTwo(m)
    ensures FlipSubtract(v, m) == Signed(v, m)
  {
    hide Flip, Minus, PowerOfTwo, Negative;
    if Negative(v, m) {
      FlipSet(v, m);
    } else {
      FlipClear(v, m);
    }
  }

  lemma TopBitIsPower(bits: bv8)
    requires 0 < bits <= 64
    ensures PowerOfTwo(TopBit(bits)) && (bits == 64 ==> TopBit(bits) == 0x8000_0000_0000_0000)
  {
  }

  lemma FullWidth(v: bv64)
    ensures Signed(v, 0x8000_0000_0000_0000) == v
  {
  }

  /** Two's-complement extension, at every width. */
  lemma SignExtendIsTwosComplement(value: bv64, bits: bv8)
    requires 0 < bits <= 64
    ensures SignExtend(value, bits) == Signed(value, TopBit(bits))
  {
    TopBitIsPower(bits);
    FullWidth(value);
    hide FlipSubtract, Signed, PowerOfTwo;
    FlipIsSigned(value, TopBit(bits));
  }

  // ---- Loads

  /** The bits of an access of `1 << size` bytes. */
  function WidthMask(size: bv8): bv64 {
    if size == 0 then 0xFF else if size == 1 then 0xFFFF else if size == 2 then 0xFFFF_FFFF else 0xFFFF_FFFF_FFFF_FFFF
  }

  function SignBit(size: bv8): bv64 {
    if size == 0 then 0x80 else if size == 1 then 0x8000 else if size == 2 then 0x8000_0000 else 0x8000_0000_0000_0000
  }

  /** The part of a lane an access takes. */
  function Field(lane: bv64, size: bv8): bv64 { Masked(lane, WidthMask(size)) }

  /** The low bytes of a datum, sign- or zero-extended: what a load of that width should give. */
  function Extended(data: bv64, size: bv8, signed: bool): bv64 {
    if signed then Signed(Field(data, size), SignBit(size)) else Field(data, size)
  }

  lemma WidthTable(size: bv8)
    requires size <= 3
    ensures LowOnes(BitsForSize(size)) == WidthMask(size)
    ensures BitsForSize(size) <= 64 && TopBit(BitsForSize(size)) == SignBit(size)
  {
  }

  lemma LoadIs(x: bv64, addr: bv64, size: bv8, signed: bool)
    requires size <= 3
    ensures LoadValue(x, addr, size, signed) == Extended(Lane(x, addr & 0x7), size, signed)
  {
    WidthTable(size);
    hide Lane, SignExtend, Signed, Masked, LowOnes, BitsForSize, WidthMask, SignBit, TopBit;
    SignExtendIsTwosComplement(Field(Lane(x, addr & 0x7), size), BitsForSize(size));
  }

  // ---- Bytes of a lane

  function Shr8(v: bv64): bv64 { v >> 8 }
  function Under8(low: bv64, rest: bv64): bv64 { low | (rest << 8) }
  function Widened(b: bv8): bv64 { b as bv64 }

  /** The n low bytes. */
  function BytesMask(n: nat): bv64 {
    if n == 1 then 0xFF else if n == 2 then 0xFFFF else if n == 3 then 0xFF_FFFF else if n == 4 then 0xFFFF_FFFF
    else if n == 5 then 0xFF_FFFF_FFFF else if n == 6 then 0xFFFF_FFFF_FFFF else if n == 7 then 0xFF_FFFF_FFFF_FFFF
    else 0xFFFF_FFFF_FFFF_FFFF
  }

  lemma LanesNext(x: bv64, o: bv64)
    requires o < 7
    ensures Shr8(Lane(x, o)) == Lane(x, o + 1)
  {
  }

  lemma LaneNext(x: bv64, k: nat)
    requires k < 7
    ensures Shr8(Lane(x, Word(k))) == Lane(x, Word(k + 1))
  {
    assert Word(k) < 7 && Word(k + 1) == Word(k) + 1;
    hide Lane, Shr8, Word;
    LanesNext(x, Word(k));
  }

  lemma MaskUnder(v: bv64, rest: bv64)
    ensures Masked(v, Under8(0xFF, rest)) == Under8(Masked(v, 0xFF), Masked(Shr8(v), rest))
  {
  }

  lemma MaskSplit(v: bv64, n: nat)
    requires 2 <= n <= 8
    ensures Masked(v, BytesMask(n)) == Under8(Masked(v, 0xFF), Masked(Shr8(v), BytesMask(n - 1)))
  {
    assert BytesMask(n) == Under8(0xFF, BytesMask(n - 1));
    hide BytesMask, Masked, Shr8, Under8;
    MaskUnder(v, BytesMask(n - 1));
  }

  lemma LowByte(v: bv64)
    ensures Widened((v & 0xFF) as bv8) == Masked(v, 0xFF)
  {
  }

  /** The i-th byte from byte `from` on. */
  function NthByte(x: bv64, from: nat, i: nat): bv8
    requires from + i < 8
  {
    ByteOf(x, from + i)
  }

  /** The n low bytes of a lane. */
  function LowBytes(x: bv64, k: nat, n: nat): bv64
    requires k < 8
  {
    Masked(Lane(x, Word(k)), BytesMask(n))
  }

  lemma LowBytesOne(x: bv64, k: nat)
    requires k < 8
    ensures LowBytes(x, k, 1) == Widened(NthByte(x, k, 0))
  {
    hide Lane, Masked, Widened, Word;
    LowByte(Lane(x, Word(k)));
  }

  lemma LowBytesMore(x: bv64, k: nat, n: nat)
    requires 2 <= n && k + n <= 8
    ensures LowBytes(x, k, n) == Under8(Widened(NthByte(x, k, 0)), LowBytes(x, k + 1, n - 1))
  {
    LowBytesOne(x, k);
    LaneNext(x, k);
    MaskSplit(Lane(x, Word(k)), n);
    assert BytesMask(1) == 0xFF;
    hide Lane, Masked, Widened, Word, BytesMask, Shr8, Under8, NthByte;
  }

  /** The two words agree on n bytes, from byte j of one and byte k of the other on. */
  ghost predicate Agree(x: bv64, j: nat, y: bv64, k: nat, n: nat)
    requires j + n <= 8 && k + n <= 8
  {
    forall i: nat :: i < n ==> NthByte(x, j, i) == NthByte(y, k, i)
  }

  lemma AgreeNext(x: bv64, j: nat, y: bv64, k: nat, n: nat)
    requires 2 <= n && j + n <= 8 && k + n <= 8 && Agree(x, j, y, k, n)
    ensures Agree(x, j + 1, y, k + 1, n - 1)
  {
    hide ByteOf;
    var j', k' := j + 1, k + 1;
    forall i: nat | i < n - 1
      ensures NthByte(x, j', i) == NthByte(y, k', i)
    {
      assert NthByte(x, j, i + 1) == NthByte(y, k, i + 1);
    }
  }

  lemma {:induction false} SameLowBytes(x: bv64, j: nat, y: bv64, k: nat, n: nat)
    requires 1 <= n && j + n <= 8 && k + n <= 8 && Agree(x, j, y, k, n)
    ensures LowBytes(x, j, n) == LowBytes(y, k, n)
    decreases n
  {
    hide NthByte, LowBytes, Widened, Under8;
    assert NthByte(x, j, 0) == NthByte(y, k, 0);
    LowBytesOne(x, j);
    LowBytesOne(y, k);
    if n > 1 {
      LowBytesMore(x, j, n);
      LowBytesMore(y, k, n);
      AgreeNext(x, j, y, k, n);
      SameLowBytes(x, j + 1, y, k + 1, n - 1);
    }
  }

  // ---- The round trip

  /** The place of an address within its beat. */
  function Place(addr: bv64): (k: nat)
    ensures k < 8 && Word(k) == BeatOffset(addr)
  {
    var o := BeatOffset(addr);
    if o == 0 then 0 else if o == 1 then 1 else if o == 2 then 2 else if o == 3 then 3
    else if o == 4 then 4 else if o == 5 then 5 else if o == 6 then 6 else 7
  }

  /** The access lies within one beat. */
  predicate WithinBeat(addr: bv64, size: bv8) { Place(addr) + BytesToWrite(size) <= 8 }

  lemma BeatBytes(b0: bv8, b1: bv8, b2: bv8, b3: bv8, b4: bv8, b5: bv8, b6: bv8, b7: bv8)
    ensures var x := Join(b0, b1, b2, b3, b4, b5, b6, b7);
            && ByteOf(x, 0) == b0 && ByteOf(x, 1) == b1 && ByteOf(x, 2) == b2 && ByteOf(x, 3) == b3
            && ByteOf(x, 4) == b4 && ByteOf(x, 5) == b5 && ByteOf(x, 6) == b6 && ByteOf(x, 7) == b7
  {
  }

  /** Byte k of a beat is the byte at its k-th address. */
  lemma BeatByte(m: Mem, addr: bv64, k: nat)
    requires k < 8
    ensures ByteOf(ReadBeat(m, addr), k) == ReadByte(m, ByteAddr(BeatBase(addr), k))
  {
    hide Join, ReadByte, ByteAddr, ByteOf, BeatBase;
    var b := BeatBase(addr);
    BeatBytes(ReadByte(m, ByteAddr(b, 0)), ReadByte(m, ByteAddr(b, 1)), ReadByte(m, ByteAddr(b, 2)), ReadByte(m, ByteAddr(b, 3)),
              ReadByte(m, ByteAddr(b, 4)), ReadByte(m, ByteAddr(b, 5)), ReadByte(m, ByteAddr(b, 6)), ReadByte(m, ByteAddr(b, 7)));
  }

  lemma BeatSplit(addr: bv64)
    ensures addr == Plus(BeatBase(addr), BeatOffset(addr))
  {
    BeatSplitRaw(addr);
    assert BeatBase(addr) == addr & 0xFFFF_FFFF_FFFF_FFF8 && BeatOffset(addr) == addr & 0x7;
    hide Plus, BeatBase, BeatOffset;
  }

  lemma BeatSplitRaw(addr: bv64)
    ensures Plus(addr & 0xFFFF_FFFF_FFFF_FFF8, addr & 0x7) == addr
  {
  }

  lemma AssocRaw(a: bv64, b: bv64, c: bv64)
    ensures Plus(a + b, c) == Plus(a, b + c)
  {
    assert (a + b) + c == a + (b + c);
  }

  lemma PlusAssoc(a: bv64, b: bv64, c: bv64)
    ensures Plus(Plus(a, b), c) == Plus(a, Plus(b, c))
  {
    assert Plus(a, b) == a + b && Plus(b, c) == b + c;
    hide Plus;
    AssocRaw(a, b, c);
  }

  lemma WordNext(k: nat)
    requires k < 7
    ensures Plus(Word(k), 1) == Word(k + 1)
  {
  }

  lemma {:induction false} WordPlus(j: nat, k: nat)
    requires j + k < 8
    ensures Plus(Word(j), Word(k)) == Word(j + k)
  {
    if k > 0 {
      hide Plus, Word;
      WordPlus(j, k - 1);
      WordNext(k - 1);
      WordNext(j + (k - 1));
      PlusAssoc(Word(j), Word(k - 1), 1);
    }
  }

  lemma NoWrap(base: bv64, addr: bv64, k: nat, i: nat)
    requires k + i < 8 && Word(k) == BeatOffset(addr) && !Below(addr, base)
    ensures !Below(Plus(addr, Word(i)), base)
  {
    NoWrapRaw(base, addr, Word(k), Word(i));
  }

  lemma NoWrapRaw(base: bv64, addr: bv64, place: bv64, o: bv64)
    requires addr >= base && place == addr & 7 && place + o < 8 && o < 8
    ensures addr + o >= base
  {
  }

  /** The bytes of an access within a beat are bytes of that beat, and none is below the base. */
  lemma AccessByte(base: bv64, addr: bv64, size: bv8, i: nat)
    requires WithinBeat(addr, size) && i < BytesToWrite(size) && !Below(addr, base)
    ensures ByteAddr(BeatBase(addr), Place(addr) + i) == ByteAddr(addr, i) && !Below(ByteAddr(addr, i), base)
  {
    hide Plus, Word, BeatBase, BeatOffset, Below, Place;
    BeatSplit(addr);
    WordPlus(Place(addr), i);
    NoWrap(base, addr, Place(addr), i);
    PlusAssoc(BeatBase(addr), BeatOffset(addr), Word(i));
  }

  lemma FieldIsLow(x: bv64, size: bv8, k: nat)
    requires size <= 3 && k < 8
    ensures Field(Lane(x, Word(k)), size) == LowBytes(x, k, BytesToWrite(size))
  {
    hide Lane, Masked, Word;
  }

  lemma WholeLane(x: bv64)
    ensures Lane(x, 0) == x
  {
  }

  /** After a store, the beat's bytes at the store's address are the datum's. */
  lemma StoredAgrees(m: Mem, addr: bv64, data: bv64, size: bv8)
    requires size <= 3 && !Below(addr, m.base) && WithinBeat(addr, size)
    ensures Agree(ReadBeat(Write(m, addr, data, size), addr), Place(addr), data, 0, BytesToWrite(size))
  {
    hide ReadBeat, ReadByte, WriteBytes, ByteOf, ByteAddr, BeatBase, Below, Place;
    var x := ReadBeat(Write(m, addr, data, size), addr);
    forall i: nat | i < BytesToWrite(size)
      ensures NthByte(x, Place(addr), i) == NthByte(data, 0, i)
    {
      AccessByte(m.base, addr, size, i);
      BeatByte(Write(m, addr, data, size), addr, Place(addr) + i);
      InsideWritten(m, addr, data, BytesToWrite(size), i);
    }
  }

  /** Loading after a store of the same width at the same address gives back the stored low bytes, sign-
      or zero-extended as the load asks, for every address at or above the base, every datum and every
      width that stays within a beat. */
  lemma LoadAfterStore(m: Mem, addr: bv64, data: bv64, size: bv8, signed: bool)
    requires size <= 3 && !Below(addr, m.base) && WithinBeat(addr, size)
    ensures LoadValue(ReadBeat(Write(m, addr, data, size), addr), addr, size, signed) == Extended(data, size, signed)
  {
    hide ReadBeat, Write, LoadValue, Below, Lane, Masked, WidthMask, SignBit, Signed, LowBytes, Agree;
    var x := ReadBeat(Write(m, addr, data, size), addr);
    LoadIs(x, addr, size, signed);
    StoredAgrees(m, addr, data, size);
    SameLowBytes(x, Place(addr), data, 0, BytesToWrite(size));
    FieldIsLow(x, size, Place(addr));
    FieldIsLow(data, size, 0);
    WholeLane(data);
    assert Lane(x, addr & 0x7) == Lane(x, Word(Place(addr)));
  }

  /** The eight bytes from an address on, as a little-endian word. */
  function BytesAt(m: Mem, addr: bv64): bv64 {
    Join(ReadByte(m, ByteAddr(addr, 0)), ReadByte(m, ByteAddr(addr, 1)), ReadByte(m, ByteAddr(addr, 2)), ReadByte(m, ByteAddr(addr, 3)),
         ReadByte(m, ByteAddr(addr, 4)), ReadByte(m, ByteAddr(addr, 5)), ReadByte(m, ByteAddr(addr, 6)), ReadByte(m, ByteAddr(addr, 7)))
  }

  lemma ByteAt(m: Mem, addr: bv64, k: nat)
    requires k < 8
    ensures ByteOf(BytesAt(m, addr), k) == ReadByte(m, ByteAddr(addr, k))
  {
    hide Join, ReadByte, ByteAddr, ByteOf;
    BeatBytes(ReadByte(m, ByteAddr(addr, 0)), ReadByte(m, ByteAddr(addr, 1)), ReadByte(m, ByteAddr(addr, 2)), ReadByte(m, ByteAddr(addr, 3)),
              ReadByte(m, ByteAddr(addr, 4)), ReadByte(m, ByteAddr(addr, 5)), ReadByte(m, ByteAddr(addr, 6)), ReadByte(m, ByteAddr(addr, 7)));
  }

  /** A load within a beat returns the bytes at its own address, sign- or zero-extended. */
  lemma LoadReadsBytes(m: Mem, addr: bv64, size: bv8, signed: bool)
    requires size <= 3 && !Below(addr, m.base) && WithinBeat(addr, size)
    ensures LoadValue(ReadBeat(m, addr), addr, size, signed) == Extended(BytesAt(m, addr), size, signed)
  {
    hide ReadBeat, BytesAt, LoadValue, Below, Lane, Masked, WidthMask, SignBit, Signed, LowBytes, ByteOf, ReadByte,
         ByteAddr, BeatBase, Place;
    var x, y := ReadBeat(m, addr), BytesAt(m, addr);
    LoadIs(x, addr, size, signed);
    forall i: nat | i < BytesToWrite(size)
      ensures NthByte(x, Place(addr), i) == NthByte(y, 0, i)
    {
      AccessByte(m.base, addr, size, i);
      BeatByte(m, addr, Place(addr) + i);
      ByteAt(m, addr, i);
    }
    SameLowBytes(x, Place(addr), y, 0, BytesToWrite(size));
    FieldIsLow(x, size, Place(addr));
    FieldIsLow(y, size, 0);
    WholeLane(y);
    assert Lane(x, addr & 0x7) == Lane(x, Word(Place(addr)));
  }
}
