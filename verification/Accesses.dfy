/** Loads and stores, byte by byte: the machine's step on an encoded load or store has the effect on the bytes
    of memory that the instruction set gives it, as long as a load stays within one aligned doubleword. */
module Accesses {
  import opened Pipeline
  import opened InstructionSet
  import opened RoundTrip
  import M = Memory

  /** A number of bytes. */
  function Num(n: nat): (b: bv64)
    requires n <= 8
    ensures b <= 8
  {
    if n == 8 then 8 else M.Word(n)
  }

  lemma SizeIs(w: Width)
    ensures SizeCode(w) <= 3 && Bytes(w) == Num(M.BytesToWrite(SizeCode(w)))
  {
  }

  // ---- The bytes of a load

  lemma NumNext(n: nat)
    requires 0 < n <= 8
    ensures Num(n) != 0 && Num(n) - 1 == Num(n - 1)
  {
  }

  lemma LittleEndianNext(m: M.Mem, addr: bv64, n: nat)
    requires 0 < n <= 8
    ensures LittleEndian(m, addr, Num(n)) == Under8(Widened(M.ReadByte(m, addr)), LittleEndian(m, M.Plus(addr, 1), Num(n - 1)))
  {
    NumNext(n);
    LittleEndianRaw(m, addr, Num(n));
    assert M.Plus(addr, 1) == addr + 1;
    hide M.ReadByte, M.Plus, Num, Under8, Widened, LittleEndian;
  }

  lemma LittleEndianRaw(m: M.Mem, addr: bv64, n: bv64)
    requires n != 0
    ensures LittleEndian(m, addr, n) == Under8(Widened(M.ReadByte(m, addr)), LittleEndian(m, addr + 1, n - 1))
  {
    hide M.ReadByte;
  }

  lemma LittleEndianNone(m: M.Mem, addr: bv64)
    ensures LittleEndian(m, addr, Num(0)) == 0
  {
  }

  lemma Under8Nothing(b: bv64)
    ensures Under8(b, 0) == b
  {
  }

  lemma NextByteAddr(first: bv64, k: nat)
    requires k < 7
    ensures M.Plus(M.ByteAddr(first, k), 1) == M.ByteAddr(first, k + 1)
  {
    WordNext(k);
    hide M.Plus, M.Word;
    PlusAssoc(first, M.Word(k), 1);
  }

  /** The bytes of the beat from place k on are the bytes of memory from there on. */
  lemma {:induction false} BeatIsBytes(m: M.Mem, addr: bv64, k: nat, n: nat)
    requires 0 < n && k + n <= 8
    ensures LowBytes(M.ReadBeat(m, addr), k, n) == LittleEndian(m, M.ByteAddr(M.BeatBase(addr), k), Num(n))
    decreases n
  {
    hide M.ReadBeat, M.ReadByte, M.ByteAddr, M.BeatBase, M.ByteOf, LowBytes, Widened, Under8, Num, LittleEndian, M.Plus;
    var x, first := M.ReadBeat(m, addr), M.BeatBase(addr);
    LowBytesOne(x, k);
    BeatByte(m, addr, k);
    LittleEndianNext(m, M.ByteAddr(first, k), n);
    if n == 1 {
      LittleEndianNone(m, M.Plus(M.ByteAddr(first, k), 1));
      Under8Nothing(Widened(M.ReadByte(m, M.ByteAddr(first, k))));
    } else {
      LowBytesMore(x, k, n);
      NextByteAddr(first, k);
      BeatIsBytes(m, addr, k + 1, n - 1);
    }
  }

  lemma MaskShifts(v: bv64, rest: bv64)
    requires Masked(v, Under8(0xFF, rest)) == v
    ensures Masked(Shr8(v), rest) == Shr8(v)
  {
  }

  /** A lane has no more bytes than are left in the word. */
  lemma {:induction false} LaneTop(x: bv64, k: nat)
    requires k < 8
    ensures LowBytes(x, k, 8 - k) == Lane(x, M.Word(k))
  {
    if k == 0 {
      WholeLane(x);
    } else {
      LaneTop(x, k - 1);
      LaneNext(x, k - 1);
      assert BytesMask(9 - k) == Under8(0xFF, BytesMask(8 - k));
      hide Lane, Masked, M.Word, BytesMask, Shr8, Under8;
      MaskShifts(Lane(x, M.Word(k - 1)), BytesMask(8 - k));
    }
  }

  lemma MaskMore(v: bv64, m: nat, n: nat)
    requires 0 < m <= n <= 8 && Masked(v, BytesMask(m)) == v
    ensures Masked(v, BytesMask(n)) == v
  {
  }

  /** Beyond the beat a lane holds nothing. */
  lemma LowBytesBeyond(x: bv64, k: nat, n: nat)
    requires k < 8 && n <= 8 < k + n
    ensures LowBytes(x, k, n) == LowBytes(x, k, 8 - k)
  {
    LaneTop(x, k);
    MaskMore(Lane(x, M.Word(k)), 8 - k, n);
    hide Lane, Masked, BytesMask, M.Word;
  }

  /** How many of n bytes from place k on are in the beat. */
  function InBeat(k: nat, n: nat): (r: nat)
    requires k < 8 && 0 < n <= 8
    ensures 0 < r <= n && k + r <= 8
  {
    if k + n <= 8 then n else 8 - k
  }

  /** What a load extends. */
  lemma FieldIsBytes(m: M.Mem, addr: bv64, size: bv8)
    requires size <= 3
    ensures Field(Lane(M.ReadBeat(m, addr), addr & 0x7), size)
         == LittleEndian(m, addr, Num(InBeat(Place(addr), M.BytesToWrite(size))))
  {
    hide M.ReadBeat, M.BeatBase, Lane, Field, LowBytes, Num, LittleEndian, M.ReadByte, Place, M.Plus;
    var x, k, n := M.ReadBeat(m, addr), Place(addr), M.BytesToWrite(size);
    FieldIsLow(x, size, k);
    assert Lane(x, addr & 0x7) == Lane(x, M.Word(k));
    if k + n > 8 {
      LowBytesBeyond(x, k, n);
    }
    BeatIsBytes(m, addr, k, InBeat(k, n));
    BeatSplit(addr);
  }

  lemma ExtendIs(w: Width, signed: bool, v: bv64)
    requires Field(v, SizeCode(w)) == v
    ensures Extend(w, signed, v) == if signed then Signed(v, SignBit(SizeCode(w))) else v
  {
    hide Signed, Field;
    match w {
      case Byte => ExtendByte(v);
      case Half => ExtendHalf(v);
      case Word => ExtendWord(v);
      case Double => FullWidth(v);
    }
  }

  lemma ExtendByte(v: bv64)
    requires Field(v, 0) == v
    ensures Signed(v, 0x80) == if v & 0x80 != 0 then v | 0xFFFF_FFFF_FFFF_FF00 else v
  {
  }

  lemma ExtendHalf(v: bv64)
    requires Field(v, 1) == v
    ensures Signed(v, 0x8000) == if v & 0x8000 != 0 then v | 0xFFFF_FFFF_FFFF_0000 else v
  {
  }

  lemma ExtendWord(v: bv64)
    requires Field(v, 2) == v
    ensures Signed(v, 0x8000_0000) == if v & 0x8000_0000 != 0 then v | 0xFFFF_FFFF_0000_0000 else v
  {
  }

  lemma FieldTwice(v: bv64, size: bv8)
    ensures Field(Field(v, size), size) == Field(v, size)
  {
  }

  /** What a load takes from memory, whatever its address: the bytes from there on that lie in the same aligned
      doubleword, extended. */
  lemma LoadTakes(m: M.Mem, addr: bv64, w: Width, signed: bool)
    ensures LoadValue(M.ReadBeat(m, addr), addr, SizeCode(w), signed)
         == Extend(w, signed, LittleEndian(m, addr, Num(InBeat(Place(addr), M.BytesToWrite(SizeCode(w))))))
  {
    SizeIs(w);
    hide M.ReadBeat, Lane, Field, LittleEndian, Extend, Signed, SignBit, Place, InBeat, Num, LoadValue;
    var x, size := M.ReadBeat(m, addr), SizeCode(w);
    LoadIs(x, addr, size, signed);
    FieldIsBytes(m, addr, size);
    FieldTwice(Lane(x, addr & 0x7), size);
    ExtendIs(w, signed, Field(Lane(x, addr & 0x7), size));
  }

  // ---- Loads that leave their doubleword

  /** The address is one from the k-th to before the n-th from `addr` on. */
  predicate Later(addr: bv64, k: bv64, n: bv64, x: bv64) { k <= Difference(x, addr) < n }

  /** The bytes there are zero. */
  ghost predicate ZeroBetween(m: M.Mem, addr: bv64, k: bv64, n: bv64) {
    forall x: bv64 :: Later(addr, k, n, x) ==> M.ReadByte(m, x) == 0
  }

  /** A number of this many bytes. */
  predicate Holds(v: bv64, n: bv64)
    requires n <= 8
  {
    n == 8 || v >> (n << 3) == 0
  }

  lemma HoldsMore(b: bv8, v: bv64, n: bv64)
    requires 0 < n <= 8 && Holds(v, n - 1)
    ensures Holds(Under8(Widened(b), v), n)
  {
  }

  lemma {:induction false} LittleEndianHolds(m: M.Mem, addr: bv64, n: bv64)
    requires n <= 8
    ensures Holds(LittleEndian(m, addr, n), n)
    decreases n
  {
    if n != 0 {
      LittleEndianRaw(m, addr, n);
      LittleEndianHolds(m, addr + 1, n - 1);
      hide Holds, LittleEndian, Under8, Widened, M.ReadByte;
      HoldsMore(M.ReadByte(m, addr), LittleEndian(m, addr + 1, n - 1), n);
    }
  }

  lemma Under8Injective(b: bv8, v: bv64, v': bv64)
    requires Holds(v, 7) && Holds(v', 7)
    ensures Under8(Widened(b), v) == Under8(Widened(b), v') <==> v == v'
    ensures Under8(Widened(b), v) == 0 <==> b == 0 && v == 0
  {
  }

  lemma HoldsSeven(v: bv64, n: bv64)
    requires n <= 7 && Holds(v, n)
    ensures Holds(v, 7)
  {
  }

  /** Places from the next address on. */
  lemma PlaceShifts(addr: bv64, x: bv64, k: bv64, n: bv64)
    requires 0 < k <= n <= 8
    ensures Later(addr, k, n, x) <==> Later(addr + 1, k - 1, n - 1, x)
  {
    hide Difference;
    OneLess(x, addr);
    OneOff(Difference(x, addr), k, n);
  }

  function Before(d: bv64): bv64 { d - 1 }

  lemma OneLessRaw(x: bv64, addr: bv64)
    ensures Difference(x, addr + 1) == Before(x - addr)
  {
  }

  lemma OneLess(x: bv64, addr: bv64)
    ensures Difference(x, addr + 1) == Before(Difference(x, addr))
  {
    OneLessRaw(x, addr);
    assert Difference(x, addr) == x - addr;
    hide Difference, Before;
  }

  lemma OneOff(d: bv64, k: bv64, n: bv64)
    requires 0 < k <= n <= 8
    ensures k <= d < n <==> k - 1 <= Before(d) < n - 1
  {
  }

  lemma FirstPlace(addr: bv64, x: bv64, n: bv64)
    requires 0 < n <= 8
    ensures Later(addr, 0, n, x) <==> x == addr || Later(addr, 1, n, x)
  {
    hide Difference;
    SameAddress(addr, x);
    OnePlace(Difference(x, addr), n);
  }

  lemma OnePlace(d: bv64, n: bv64)
    requires 0 < n <= 8
    ensures d < n <==> d == 0 || 1 <= d < n
  {
  }

  lemma SameAddress(addr: bv64, x: bv64)
    ensures Difference(x, addr) == 0 <==> x == addr
  {
    PlusDifference(x, addr);
    PlusDifference(0, addr);
    assert M.Plus(addr, 0) == addr && M.Plus(0, addr) == addr;
    hide M.Plus, Difference;
  }

  lemma ZeroShifts(m: M.Mem, addr: bv64, k: bv64, n: bv64)
    requires 0 < k <= n <= 8
    ensures ZeroBetween(m, addr, k, n) <==> ZeroBetween(m, addr + 1, k - 1, n - 1)
  {
    hide M.ReadByte;
    hide Later;
    forall x: bv64
      ensures Later(addr, k, n, x) <==> Later(addr + 1, k - 1, n - 1, x)
    {
      PlaceShifts(addr, x, k, n);
    }
  }

  lemma ZeroFirst(m: M.Mem, addr: bv64, n: bv64)
    requires 0 < n <= 8
    ensures ZeroBetween(m, addr, 0, n) <==> M.ReadByte(m, addr) == 0 && ZeroBetween(m, addr, 1, n)
  {
    hide M.ReadByte;
    hide Later;
    forall x: bv64
      ensures Later(addr, 0, n, x) <==> x == addr || Later(addr, 1, n, x)
    {
      FirstPlace(addr, x, n);
    }
  }

  /** The first k of n bytes make the same number just when the others are zero. */
  lemma {:induction false} BytesAgree(m: M.Mem, addr: bv64, k: bv64, n: bv64)
    requires k <= n <= 8
    ensures LittleEndian(m, addr, k) == LittleEndian(m, addr, n) <==> ZeroBetween(m, addr, k, n)
    decreases n
  {
    if n != 0 {
      var b, rest := M.ReadByte(m, addr), LittleEndian(m, addr + 1, n - 1);
      LittleEndianRaw(m, addr, n);
      LittleEndianHolds(m, addr + 1, n - 1);
      HoldsSeven(rest, n - 1);
      if k == 0 {
        ZeroFirst(m, addr, n);
        ZeroShifts(m, addr, 1, n);
        BytesAgree(m, addr + 1, 0, n - 1);
        Under8Injective(b, rest, rest);
      } else {
        ZeroShifts(m, addr, k, n);
        BytesAgree(m, addr + 1, k - 1, n - 1);
        LittleEndianRaw(m, addr, k);
        LittleEndianHolds(m, addr + 1, k - 1);
        HoldsSeven(LittleEndian(m, addr + 1, k - 1), k - 1);
        Under8Injective(b, rest, LittleEndian(m, addr + 1, k - 1));
      }
      hide LittleEndian, ZeroBetween, Holds, Under8, Widened, M.ReadByte;
    }
  }

  /** How many of n bytes lie in the aligned doubleword of their address. */
  function Nearby(addr: bv64, n: bv64): (r: bv64)
    requires n <= 8
    ensures r <= n
  {
    if (addr & 7) + n <= 8 then n else 8 - (addr & 7)
  }

  lemma PlacesLeft(k: nat, n: nat)
    requires k < 8 && 0 < n <= 8
    ensures M.Word(k) + Num(n) <= 8 <==> k + n <= 8
    ensures Num(8 - k) == 8 - M.Word(k)
  {
  }

  lemma NearbyIs(addr: bv64, n: nat)
    requires 0 < n <= 8
    ensures Num(InBeat(Place(addr), n)) == Nearby(addr, Num(n))
  {
    PlacesLeft(Place(addr), n);
    assert M.Word(Place(addr)) == addr & 7;
    hide Num, M.Word, Place;
  }

  lemma BeyondKept(addr: bv64, x: bv64, n: bv64)
    requires 0 < n <= 8
    ensures InRange(addr, n, x) && !SameDoubleword(x, addr) <==> Later(addr, Nearby(addr, n), n, x)
  {
    hide Difference, M.Plus, SameDoubleword, Later, InRange, Nearby;
    PlacesIn(addr, x, n);
    PlusDifference(x, addr);
    BeyondPlace(addr, x, n, Difference(x, addr));
  }

  lemma BeyondPlace(addr: bv64, x: bv64, n: bv64, d: bv64)
    requires 0 < n <= 8 && x == M.Plus(d, addr) && (InRange(addr, n, x) <==> d < n)
    requires Later(addr, Nearby(addr, n), n, x) <==> Nearby(addr, n) <= d < n
    ensures InRange(addr, n, x) && !SameDoubleword(x, addr) <==> Later(addr, Nearby(addr, n), n, x)
  {
    hide M.Plus, SameDoubleword, Later, InRange, Nearby, Crosses;
    if d < 8 {
      Carries(addr, d);
      NearbyBytes(addr, d, n);
    }
  }

  lemma PlacesIn(addr: bv64, x: bv64, n: bv64)
    requires n <= 8
    ensures InRange(addr, n, x) <==> Difference(x, addr) < n
    ensures Later(addr, Nearby(addr, n), n, x) <==> Nearby(addr, n) <= Difference(x, addr) < n
  {
    hide Nearby, Difference;
  }

  /** The d-th byte from the address on is beyond its doubleword. */
  predicate Crosses(addr: bv64, d: bv64) { (addr & 7) + d >= 8 }

  lemma NearbyBytes(addr: bv64, d: bv64, n: bv64)
    requires 0 < n <= 8 && d < 8
    ensures d < n && Crosses(addr, d) <==> Nearby(addr, n) <= d < n
  {
  }

  lemma Carries(addr: bv64, d: bv64)
    requires d < 8
    ensures !SameDoubleword(M.Plus(d, addr), addr) <==> Crosses(addr, d)
  {
  }

  lemma ExtendInjective(w: Width, signed: bool, v: bv64, v': bv64)
    requires Holds(v, Bytes(w)) && Holds(v', Bytes(w))
    ensures Extend(w, signed, v) == Extend(w, signed, v') <==> v == v'
  {
    ExtendKeeps(w, signed, v);
    ExtendKeeps(w, signed, v');
    hide Extend, Masked, Holds;
  }

  lemma ExtendKeeps(w: Width, signed: bool, v: bv64)
    requires Holds(v, Bytes(w))
    ensures Field(Extend(w, signed, v), SizeCode(w)) == v
  {
    HoldsField(v, w);
    hide Extend, Masked, Holds;
    match w {
      case Byte => ByteKept(signed, v);
      case Half => HalfKept(signed, v);
      case Word => WordKept(signed, v);
      case Double => DoubleKept(signed, v);
    }
  }

  lemma HoldsField(v: bv64, w: Width)
    requires Holds(v, Bytes(w))
    ensures Field(v, SizeCode(w)) == v
  {
    hide Masked, Holds;
    match w {
      case Byte => HoldsOne(v);
      case Half => HoldsTwo(v);
      case Word => HoldsFour(v);
      case Double => FullMask(v);
    }
  }

  lemma HoldsOne(v: bv64)
    requires Holds(v, 1)
    ensures Masked(v, 0xFF) == v
  {
  }

  lemma HoldsTwo(v: bv64)
    requires Holds(v, 2)
    ensures Masked(v, 0xFFFF) == v
  {
  }

  lemma HoldsFour(v: bv64)
    requires Holds(v, 4)
    ensures Masked(v, 0xFFFF_FFFF) == v
  {
  }

  lemma FullMask(v: bv64)
    ensures Masked(v, 0xFFFF_FFFF_FFFF_FFFF) == v
  {
  }

  lemma ByteKept(signed: bool, v: bv64)
    requires Masked(v, 0xFF) == v
    ensures Masked(Extend(Byte, signed, v), 0xFF) == v
  {
  }

  lemma HalfKept(signed: bool, v: bv64)
    requires Masked(v, 0xFFFF) == v
    ensures Masked(Extend(Half, signed, v), 0xFFFF) == v
  {
  }

  lemma WordKept(signed: bool, v: bv64)
    requires Masked(v, 0xFFFF_FFFF) == v
    ensures Masked(Extend(Word, signed, v), 0xFFFF_FFFF) == v
  {
  }

  lemma DoubleKept(signed: bool, v: bv64)
    ensures Masked(Extend(Double, signed, v), 0xFFFF_FFFF_FFFF_FFFF) == v
  {
  }

  lemma HoldsWider(v: bv64, n: bv64, n': bv64)
    requires n <= n' <= 8 && Holds(v, n)
    ensures Holds(v, n')
  {
  }

  lemma BeyondIsZero(m: M.Mem, addr: bv64, n: bv64)
    requires 0 < n <= 8
    ensures ZeroBetween(m, addr, Nearby(addr, n), n)
            <==> forall x: bv64 :: InRange(addr, n, x) && !SameDoubleword(x, addr) ==> M.ReadByte(m, x) == 0
  {
    hide Later, InRange, SameDoubleword, Nearby, M.ReadByte;
    forall x: bv64
      ensures InRange(addr, n, x) && !SameDoubleword(x, addr) <==> Later(addr, Nearby(addr, n), n, x)
    {
      BeyondKept(addr, x, n);
    }
  }

  /** A load gives what the instruction set says just when the bytes it takes from beyond its doubleword are zero. */
  lemma LoadExact(m: M.Mem, addr: bv64, w: Width, signed: bool)
    ensures LoadValue(M.ReadBeat(m, addr), addr, SizeCode(w), signed) == Extend(w, signed, LittleEndian(m, addr, Bytes(w)))
            <==> ZeroBetween(m, addr, Nearby(addr, Bytes(w)), Bytes(w))
  {
    SizeIs(w);
    hide M.ReadBeat, LoadValue, LittleEndian, Extend, ZeroBetween, Place, InBeat, Num, Nearby, Holds, Bytes, SizeCode;
    var n := Bytes(w);
    LoadTakes(m, addr, w, signed);
    NearbyIs(addr, M.BytesToWrite(SizeCode(w)));
    BytesAgree(m, addr, Nearby(addr, n), n);
    LittleEndianHolds(m, addr, n);
    LittleEndianHolds(m, addr, Nearby(addr, n));
    HoldsWider(LittleEndian(m, addr, Nearby(addr, n)), Nearby(addr, n), n);
    ExtendInjective(w, signed, LittleEndian(m, addr, Nearby(addr, n)), LittleEndian(m, addr, n));
  }

  // ---- The bytes of a store

  /** The place of an address among the eight from another on. */
  function PlaceFrom(addr: bv64, x: bv64): (k: nat)
    requires Difference(x, addr) < 8
    ensures k < 8 && M.Word(k) == Difference(x, addr)
  {
    var o := Difference(x, addr);
    if o == 0 then 0 else if o == 1 then 1 else if o == 2 then 2 else if o == 3 then 3
    else if o == 4 then 4 else if o == 5 then 5 else if o == 6 then 6 else 7
  }

  lemma ByteIs(v: bv64, k: nat)
    requires k < 8
    ensures DataByte(v, M.Word(k)) == M.ByteOf(v, k)
  {
  }

  lemma WordLess(j: nat, n: nat)
    requires j < 8 && n <= 8
    ensures M.Word(j) < Num(n) <==> j < n
  {
  }

  lemma PlusCommutes(a: bv64, b: bv64)
    ensures M.Plus(a, b) == M.Plus(b, a)
  {
  }

  lemma DifferenceIs(x: bv64, y: bv64)
    ensures Difference(x, y) == Minus(x, y)
  {
  }

  lemma PlusDifference(x: bv64, y: bv64)
    ensures M.Plus(Difference(x, y), y) == x && Difference(M.Plus(y, x), y) == x
  {
    hide Difference, Minus, M.Plus;
    DifferenceIs(x, y);
    DifferenceIs(M.Plus(y, x), y);
    M.PlusMinus(x, y);
  }

  lemma InsideAddress(addr: bv64, x: bv64, n: nat)
    requires n <= 8 && InRange(addr, Num(n), x)
    ensures Difference(x, addr) < 8 && PlaceFrom(addr, x) < n && M.ByteAddr(addr, PlaceFrom(addr, x)) == x
  {
    hide Difference, M.Plus, M.Word, Num, PlaceFrom;
    PlusDifference(x, addr);
    WordLess(PlaceFrom(addr, x), n);
    PlusCommutes(addr, Difference(x, addr));
  }

  lemma OutsideAddress(addr: bv64, x: bv64, n: nat)
    requires n <= 8 && !InRange(addr, Num(n), x)
    ensures M.Outside(addr, n, x)
  {
    hide Difference, M.Plus, M.Word, Num;
    forall k: nat | k < n
      ensures x != M.ByteAddr(addr, k)
    {
      PlusDifference(M.Word(k), addr);
      WordLess(k, n);
    }
  }

  lemma BelowIsZero(m: M.Mem, x: bv64)
    requires M.Below(x, m.base)
    ensures M.ReadByte(m, x) == 0
  {
  }

  lemma ByteAfterInside(m: M.Mem, addr: bv64, n: bv64, v: bv64, x: bv64)
    requires n <= 8 && InRange(addr, n, x)
    ensures Difference(x, addr) < 8
    ensures ByteAfter(m, addr, n, v, x) == if M.Below(x, m.base) then M.ReadByte(m, x) else DataByte(v, Difference(x, addr))
  {
    InRangeSmall(addr, n, x);
    if M.Below(x, m.base) {
      ByteAfterBelow(m, addr, n, v, x);
    } else {
      ByteAfterAbove(m, addr, n, v, x);
    }
    hide M.ReadByte, DataByte, Difference, InRange, ByteAfter, M.Below;
  }

  lemma InRangeSmall(addr: bv64, n: bv64, x: bv64)
    requires n <= 8 && InRange(addr, n, x)
    ensures Difference(x, addr) < 8
  {
    hide Difference;
  }

  lemma ByteAfterBelow(m: M.Mem, addr: bv64, n: bv64, v: bv64, x: bv64)
    requires n <= 8 && M.Below(x, m.base)
    ensures ByteAfter(m, addr, n, v, x) == M.ReadByte(m, x)
  {
    hide M.ReadByte, DataByte, Difference, InRange;
  }

  lemma ByteAfterAbove(m: M.Mem, addr: bv64, n: bv64, v: bv64, x: bv64)
    requires n <= 8 && InRange(addr, n, x) && !M.Below(x, m.base) && Difference(x, addr) < 8
    ensures ByteAfter(m, addr, n, v, x) == DataByte(v, Difference(x, addr))
  {
    hide M.ReadByte, DataByte, Difference, InRange;
  }

  lemma StoredInside(m: M.Mem, addr: bv64, v: bv64, n: nat, x: bv64)
    requires 0 < n <= 8 && InRange(addr, Num(n), x)
    ensures M.ReadByte(M.WriteBytes(m, addr, v, n), x) == ByteAfter(m, addr, Num(n), v, x)
  {
    hide InRange, Difference, Num, PlaceFrom, M.Below, M.ReadByte, M.WriteBytes, M.ByteAddr, M.ByteOf, DataByte, ByteAfter, M.Word;
    ByteAfterInside(m, addr, Num(n), v, x);
    InsideAddress(addr, x, n);
    M.BaseKept(m, addr, v, n);
    if M.Below(x, m.base) {
      BelowIsZero(m, x);
      BelowIsZero(M.WriteBytes(m, addr, v, n), x);
    } else {
      M.InsideWritten(m, addr, v, n, PlaceFrom(addr, x));
      ByteIs(v, PlaceFrom(addr, x));
    }
  }

  lemma StoredOutside(m: M.Mem, addr: bv64, v: bv64, n: nat, x: bv64)
    requires n <= 8 && !InRange(addr, Num(n), x)
    ensures M.ReadByte(M.WriteBytes(m, addr, v, n), x) == ByteAfter(m, addr, Num(n), v, x)
  {
    hide InRange, M.ReadByte, M.WriteBytes, M.Outside, Num;
    OutsideAddress(addr, x, n);
    M.OutsideUnchanged(m, addr, v, n, x);
  }

  lemma StoredAt(m: M.Mem, addr: bv64, v: bv64, w: Width, x: bv64)
    ensures M.ReadByte(M.Write(m, addr, v, SizeCode(w)), x) == ByteAfter(m, addr, Bytes(w), v, x)
  {
    SizeIs(w);
    hide Num, InRange, ByteAfter, M.ReadByte, M.WriteBytes, Bytes, SizeCode;
    var n := M.BytesToWrite(SizeCode(w));
    if InRange(addr, Num(n), x) {
      StoredInside(m, addr, v, n, x);
    } else {
      StoredOutside(m, addr, v, n, x);
    }
  }

  /** A store puts the datum's low bytes where the instruction set says, and changes nothing else. */
  lemma StoreWrites(m: M.Mem, addr: bv64, v: bv64, w: Width)
    ensures Overwrites(m, addr, Bytes(w), v, M.Write(m, addr, v, SizeCode(w)))
  {
    M.BaseKept(m, addr, v, M.BytesToWrite(SizeCode(w)));
    hide M.ReadByte, M.WriteBytes, ByteAfter, Bytes, SizeCode;
    forall x: bv64
      ensures M.ReadByte(M.Write(m, addr, v, SizeCode(w)), x) == ByteAfter(m, addr, Bytes(w), v, x)
    {
      StoredAt(m, addr, v, w, x);
    }
  }
}
