/** The byte vector behind the memory, updated in place. */
module IdealMem {
  import opened Memory

  class ByteVector {
    const base: bv64
    var bytes: seq<bv8>

    ghost function Contents(): Mem
      reads this
    {
      Mem(base, bytes)
    }

    constructor (base: bv64, image: seq<bv8>)
      ensures Contents() == Mem(base, image)
    {
      this.base, bytes := base, image;
    }

    method LoadByte(addr: bv64) returns (value: bv8)
      ensures value == ReadByte(Contents(), addr)
    {
      if Below(addr, base) {
        return 0;
      }
      var offset := Offset(base, addr);
      if offset >= |bytes| {
        return 0;
      }
      return bytes[offset];
    }

    method LoadBeat(addr: bv64) returns (value: bv64)
      ensures value == ReadBeat(Contents(), addr)
    {
      hide Join, Placed, Or, ByteAddr, BeatBase, ReadByte;
      var first := BeatBase(addr);
      ghost var b := BeatOf(Contents(), first);
      value := 0;
      for i := 0 to 8
        invariant value == JoinFirst(b, i)
      {
        var byte := LoadByte(ByteAddr(first, i));
        value := Or(value, Placed(byte, i));
      }
      JoinAll(b);
    }

    method StoreByte(addr: bv64, value: bv8)
      modifies this
      ensures Contents() == WriteByte(old(Contents()), addr, value)
    {
      hide Below, Offset;
      if Below(addr, base) {
        return;
      }
      var offset := Offset(base, addr);
      bytes := Resized(bytes, offset + 1)[offset := value];
    }

    method Store(addr: bv64, data: bv64, size: bv8)
      modifies this
      ensures Contents() == Write(old(Contents()), addr, data, size)
    {
      hide WriteByte, ByteAddr, ByteOf;
      var n := BytesToWrite(size);
      for i := 0 to n
        invariant Contents() == WriteBytes(old(Contents()), addr, data, i)
      {
        StoreByte(ByteAddr(addr, i), ByteOf(data, i));
      }
    }
  }
}
