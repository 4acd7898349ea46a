/** The ideal byte memory that loads and stores are measured against. */
module Memory {
  import opened Pipeline

  /** The bytes from address `base` on; the vector grows as bytes are written. */
  datatype Mem = Mem(base: bv64, bytes: seq<bv8>)

  function IntOf(x: bv64): nat { x as nat }
  function Plus(a: bv64, b: bv64): bv64 { a + b }
  predicate Below(a: bv64, b: bv64) { a < b }

  /** A byte number as an address offset. */
  function Word(k: nat): (o: bv64)
    requires k < 8
    ensures o < 8
  {
    if k == 0 then 0 else if k == 1 then 1 else if k == 2 then 2 else if k == 3 then 3
    else if k == 4 then 4 else if k == 5 then 5 else if k == 6 then 6 else 7
  }

  /** The address k bytes on, modulo 2^64. */
  function ByteAddr(addr: bv64, k: nat): bv64
    requires k < 8
  {
    Plus(addr, Word(k))
  }

  /** The index of an address in the byte vector. */
  function Offset(base: bv64, addr: bv64): nat { IntOf(Minus(addr, base)) }

  /** A byte of the vector; past its end all bytes are zero. */
  function Peek(bytes: seq<bv8>, k: nat): bv8 { if k < |bytes| then bytes[k] else 0 }

  function Resized(bytes: seq<bv8>, n: nat): (r: seq<bv8>)
    ensures |r| >= n && |r| >= |bytes|
  {
    if |bytes| >= n then bytes else bytes + seq(n - |bytes|, _ => 0)
  }

  function Poke(bytes: seq<bv8>, k: nat, value: bv8): seq<bv8> { Resized(bytes, k + 1)[k := value] }

  function ReadByte(m: Mem, addr: bv64): bv8 { if Below(addr, m.base) then 0 else Peek(m.bytes, Offset(m.base, addr)) }

  /** Eight bytes as a little-endian word. */
  function Join(b0: bv8, b1: bv8, b2: bv8, b3: bv8, b4: bv8, b5: bv8, b6: bv8, b7: bv8): bv64 {
    (b0 as bv64) | ((b1 as bv64) << 8) | ((b2 as bv64) << 16) | ((b3 as bv64) << 24)
    | ((b4 as bv64) << 32) | ((b5 as bv64) << 40) | ((b6 as bv64) << 48) | ((b7 as bv64) << 56)
  }

  /** A byte in its place within a word. */
  function Placed(b: bv8, k: nat): bv64
    requires k < 8
  {
    if k == 0 then b as bv64 else if k == 1 then (b as bv64) << 8 else if k == 2 then (b as bv64) << 16
    else if k == 3 then (b as bv64) << 24 else if k == 4 then (b as bv64) << 32 else if k == 5 then (b as bv64) << 40
    else if k == 6 then (b as bv64) << 48 else (b as bv64) << 56
  }

  function Or(a: bv64, b: bv64): bv64 { a | b }

  /** The first n of eight bytes as a little-endian word, one byte at a time. */
  function JoinFirst(b: seq<bv8>, n: nat): bv64
    requires |b| == 8 && n <= 8
  {
    if n == 0 then 0 else Or(JoinFirst(b, n - 1), Placed(b[n - 1], n - 1))
  }

  lemma JoinPlaced(b0: bv8, b1: bv8, b2: bv8, b3: bv8, b4: bv8, b5: bv8, b6: bv8, b7: bv8)
    ensures Join(b0, b1, b2, b3, b4, b5, b6, b7)
         == Placed(b0, 0) | Placed(b1, 1) | Placed(b2, 2) | Placed(b3, 3) | Placed(b4, 4) | Placed(b5, 5) | Placed(b6, 6) | Placed(b7, 7)
  {
  }

  lemma JoinIsOr(p0: bv64, p1: bv64, p2: bv64, p3: bv64, p4: bv64, p5: bv64, p6: bv64, p7: bv64)
    ensures Or(Or(Or(Or(Or(Or(Or(Or(0, p0), p1), p2), p3), p4), p5), p6), p7) == p0 | p1 | p2 | p3 | p4 | p5 | p6 | p7
  {
  }

  lemma JoinFirstAll(b: seq<bv8>)
    requires |b| == 8
    ensures JoinFirst(b, 8) == Or(Or(Or(Or(Or(Or(Or(Or(0, Placed(b[0], 0)), Placed(b[1], 1)), Placed(b[2], 2)), Placed(b[3], 3)),
                                           Placed(b[4], 4)), Placed(b[5], 5)), Placed(b[6], 6)), Placed(b[7], 7))
  {
    hide Or, Placed;
    assert JoinFirst(b, 0 + 1) == Or(0, Placed(b[0], 0));
    assert JoinFirst(b, 1 + 1) == Or(JoinFirst(b, 1), Placed(b[1], 1));
    assert JoinFirst(b, 2 + 1) == Or(JoinFirst(b, 2), Placed(b[2], 2));
    assert JoinFirst(b, 3 + 1) == Or(JoinFirst(b, 3), Placed(b[3], 3));
    assert JoinFirst(b, 4 + 1) == Or(JoinFirst(b, 4), Placed(b[4], 4));
    assert JoinFirst(b, 5 + 1) == Or(JoinFirst(b, 5), Placed(b[5], 5));
    assert JoinFirst(b, 6 + 1) == Or(JoinFirst(b, 6), Placed(b[6], 6));
  }

  /** All eight bytes joined. */
  lemma JoinAll(b: seq<bv8>)
    requires |b| == 8
    ensures JoinFirst(b, 8) == Join(b[0], b[1], b[2], b[3], b[4], b[5], b[6], b[7])
  {
    JoinPlaced(b[0], b[1], b[2], b[3], b[4], b[5], b[6], b[7]);
    hide Join, Or, Placed, JoinFirst;
    JoinIsOr(Placed(b[0], 0), Placed(b[1], 1), Placed(b[2], 2), Placed(b[3], 3), Placed(b[4], 4), Placed(b[5], 5), Placed(b[6], 6), Placed(b[7], 7));
    JoinFirstAll(b);
  }

  function BeatBase(addr: bv64): bv64 { addr & 0xFFFF_FFFF_FFFF_FFF8 }
  function BeatOffset(addr: bv64): bv64 { addr & 0x7 }

  /** The eight bytes of a beat. */
  function BeatOf(m: Mem, first: bv64): (b: seq<bv8>)
    ensures |b| == 8
  {
    seq(8, k requires 0 <= k < 8 => ReadByte(m, ByteAddr(first, k)))
  }

  /** The aligned 8-byte beat around an address. */
  function ReadBeat(m: Mem, addr: bv64): bv64 {
    var b := BeatBase(addr);
    Join(ReadByte(m, ByteAddr(b, 0)), ReadByte(m, ByteAddr(b, 1)), ReadByte(m, ByteAddr(b, 2)), ReadByte(m, ByteAddr(b, 3)),
         ReadByte(m, ByteAddr(b, 4)), ReadByte(m, ByteAddr(b, 5)), ReadByte(m, ByteAddr(b, 6)), ReadByte(m, ByteAddr(b, 7)))
  }

  function WriteByte(m: Mem, addr: bv64, value: bv8): Mem {
    if Below(addr, m.base) then m else m.(bytes := Poke(m.bytes, Offset(m.base, addr), value))
  }

  /** The k-th byte of a word. */
  function ByteOf(data: bv64, k: nat): bv8
    requires k < 8
  {
    (Lane(data, Word(k)) & 0xFF) as bv8
  }

  function WriteBytes(m: Mem, addr: bv64, data: bv64, n: nat): Mem
    requires n <= 8
  {
    if n == 0 then m else WriteByte(WriteBytes(m, addr, data, n - 1), ByteAddr(addr, n - 1), ByteOf(data, n - 1))
  }

  function BytesToWrite(size: bv8): (n: nat)
    ensures 1 <= n <= 8
  {
    if size >= 3 then 8 else if size == 2 then 4 else if size == 1 then 2 else 1
  }

  function Write(m: Mem, addr: bv64, data: bv64, size: bv8): Mem { WriteBytes(m, addr, data, BytesToWrite(size)) }

  // ---- The layout

  lemma FromBase(base: bv64, image: seq<bv8>, k: bv64)
    requires base <= base + k
    ensures ReadByte(Mem(base, image), base + k) == Peek(image, IntOf(k))
  {
    PlusMinus(k, base);
    assert Plus(base, k) == base + k;
    hide Plus, Minus;
  }

  /** The image lies from the base on: its k-th byte is at base + k. All bytes past its end are zero, and so
      are those below the base, which are the ones that base + k wraps around to. */
  lemma ImageLayout(base: bv64, image: seq<bv8>, k: bv64)
    ensures k as nat < |image| && base <= base + k ==> ReadByte(Mem(base, image), base + k) == image[k as nat]
    ensures k as nat >= |image| || base + k < base ==> ReadByte(Mem(base, image), base + k) == 0
  {
    if base <= base + k {
      FromBase(base, image, k);
      assert IntOf(k) == k as nat;
      hide IntOf, ReadByte;
    }
  }

  // ---- Single bytes

  /** The address is none of the n from `addr` on. */
  ghost predicate Outside(addr: bv64, n: nat, a: bv64)
    requires n <= 8
  {
    forall k: nat :: k < n ==> a != ByteAddr(addr, k)
  }

  lemma IntInjective(x: bv64, y: bv64)
    requires IntOf(x) == IntOf(y)
    ensures x == y
  {
    assert (x as int) as bv64 == (y as int) as bv64;
  }

  lemma SubAdd(a: bv64, b: bv64)
    ensures Plus(a - b, b) == a
  {
    assert (a - b) + b == a;
  }

  lemma AddSub(a: bv64, b: bv64)
    ensures Minus(b + a, b) == a
  {
    assert (b + a) - b == a;
  }

  lemma PlusMinus(a: bv64, b: bv64)
    ensures Plus(Minus(a, b), b) == a && Minus(Plus(b, a), b) == a
  {
    assert Minus(a, b) == a - b && Plus(b, a) == b + a;
    hide Plus, Minus;
    SubAdd(a, b);
    AddSub(a, b);
  }

  /** Different addresses have different places in the vector. */
  lemma OffsetInjective(base: bv64, a: bv64, b: bv64)
    requires Offset(base, a) == Offset(base, b)
    ensures a == b
  {
    hide IntOf, Minus, Plus;
    IntInjective(Minus(a, base), Minus(b, base));
    PlusMinus(a, base);
    PlusMinus(b, base);
  }

  lemma ByteAddrInjective(addr: bv64, j: nat, k: nat)
    requires j < 8 && k < 8 && ByteAddr(addr, j) == ByteAddr(addr, k)
    ensures j == k
  {
    hide Minus, Plus;
    PlusMinus(Word(j), addr);
    PlusMinus(Word(k), addr);
  }

  lemma PeekPoke(bytes: seq<bv8>, k: nat, value: bv8, j: nat)
    ensures Peek(Poke(bytes, k, value), j) == if j == k then value else Peek(bytes, j)
  {
  }

  lemma ByteWritten(m: Mem, addr: bv64, value: bv8, a: bv64)
    ensures WriteByte(m, addr, value).base == m.base
    ensures ReadByte(WriteByte(m, addr, value), a) == if a == addr && !Below(addr, m.base) then value else ReadByte(m, a)
  {
    hide Offset, Peek, Poke, Below;
    PeekPoke(m.bytes, Offset(m.base, addr), value, Offset(m.base, a));
    if Offset(m.base, a) == Offset(m.base, addr) {
      OffsetInjective(m.base, a, addr);
    }
  }

  /** A write changes no byte outside its range, wherever it lies. */
  lemma {:induction false} OutsideUnchanged(m: Mem, addr: bv64, data: bv64, n: nat, a: bv64)
    requires n <= 8 && Outside(addr, n, a)
    ensures WriteBytes(m, addr, data, n).base == m.base
    ensures ReadByte(WriteBytes(m, addr, data, n), a) == ReadByte(m, a)
  {
    hide ReadByte, WriteByte, ByteOf, ByteAddr;
    if n != 0 {
      assert a != ByteAddr(addr, n - 1);
      OutsideUnchanged(m, addr, data, n - 1, a);
      ByteWritten(WriteBytes(m, addr, data, n - 1), ByteAddr(addr, n - 1), ByteOf(data, n - 1), a);
    }
  }

  lemma OtherBytesUnchanged(m: Mem, addr: bv64, data: bv64, size: bv8, a: bv64)
    requires Outside(addr, BytesToWrite(size), a)
    ensures ReadByte(Write(m, addr, data, size), a) == ReadByte(m, a)
  {
    hide ReadByte, WriteBytes;
    OutsideUnchanged(m, addr, data, BytesToWrite(size), a);
  }

  /** Within the range, the k-th byte written is the k-th byte of the datum. */
  lemma {:induction false} InsideWritten(m: Mem, addr: bv64, data: bv64, n: nat, k: nat)
    requires k < n <= 8 && !Below(ByteAddr(addr, k), m.base)
    ensures ReadByte(WriteBytes(m, addr, data, n), ByteAddr(addr, k)) == ByteOf(data, k)
  {
    hide ReadByte, WriteByte, ByteOf, ByteAddr, Below;
    BaseKept(m, addr, data, n - 1);
    ByteWritten(WriteBytes(m, addr, data, n - 1), ByteAddr(addr, n - 1), ByteOf(data, n - 1), ByteAddr(addr, k));
    if k < n - 1 {
      InsideWritten(m, addr, data, n - 1, k);
      if ByteAddr(addr, k) == ByteAddr(addr, n - 1) {
        ByteAddrInjective(addr, k, n - 1);
      }
    }
  }

  lemma {:induction false} BaseKept(m: Mem, addr: bv64, data: bv64, n: nat)
    requires n <= 8
    ensures WriteBytes(m, addr, data, n).base == m.base
  {
    hide ByteOf, ByteAddr, Below, Poke, Offset;
    if n != 0 {
      BaseKept(m, addr, data, n - 1);
    }
  }
}
