/** The burst memory as the runner keeps it: queues, burst counters and a byte map updated in place. */
module SimpleMemory {
  import opened Memory
  import opened AxiMemory

  /** Filling further lanes with zero bytes changes nothing. */
  lemma {:induction false} ZeroLanes(b: seq<bv8>, n: nat, m: nat)
    requires |b| == 8 && n <= m <= 8 && forall k :: n <= k < 8 ==> b[k] == 0
    ensures JoinFirst(b, m) == JoinFirst(b, n)
  {
    hide Or, Placed;
    if n < m {
      ZeroLanes(b, n, m - 1);
      OrZero(JoinFirst(b, m - 1), m - 1);
    }
  }

  lemma OrZero(x: bv64, k: nat)
    requires k < 8
    ensures Or(x, Placed(0, k)) == x
  {
  }

  class SimpleMemory {
    const size: nat
    const word: nat
    var inflight: bool
    var storeAddr: nat
    var storeId: nat
    var storeWidth: nat
    var storeCount: nat
    var rresp: seq<ReadResp>
    var bresp: seq<nat>
    var bytes: map<nat, bv8>
    var tohost: Tohost

    ghost function Snap(): Axi
      reads this
    {
      Axi(size, word, inflight, storeAddr, storeId, storeWidth, storeCount, rresp, bresp, bytes, tohost)
    }

    constructor (size: nat, word: nat, image: map<nat, bv8>, tohostAddr: nat)
      requires word > 0
      ensures Idle(Snap()) && bytes == image && this.size == size && this.word == word
    {
      this.size, this.word := size, word;
      inflight, storeAddr, storeId, storeWidth, storeCount := false, 0, 0, 0, 0;
      rresp, bresp, bytes := [], [], image;
      tohost := Tohost(tohostAddr != 0, tohostAddr, false, 0);
    }

    method ReadWord(addr: nat) returns (value: bv64)
      requires word > 0
      ensures value == ReadLanes(bytes, size, addr, LaneCount(word))
    {
      hide Or, Placed, Wrap;
      ghost var b := Lanes(bytes, size, addr, LaneCount(word));
      value := 0;
      for i := 0 to word
        invariant value == JoinFirst(b, if i < 8 then i else 8)
      {
        var byte := Lookup(bytes, Wrap(size, addr + i));
        if i < 8 {
          value := Or(value, Placed(byte, i));
        }
      }
      ZeroLanes(b, LaneCount(word), 8);
    }

    method ReadDouble(addr: nat) returns (value: bv64)
      ensures value == ReadLanes(bytes, size, addr, 8)
    {
      hide Or, Placed, Wrap;
      ghost var b := Lanes(bytes, size, addr, 8);
      value := 0;
      for i := 0 to 8
        invariant value == JoinFirst(b, i)
      {
        var byte := Lookup(bytes, Wrap(size, addr + i));
        value := Or(value, Placed(byte, i));
      }
    }

    method UpdateTohost(base: nat)
      requires word > 0
      modifies this`tohost
      ensures tohost == WatchTohost(old(tohost), bytes, size, word, base)
    {
      hide ReadLanes;
      if tohost.enabled && base <= tohost.addr < (base + word) % WORD64 {
        var value := ReadDouble(tohost.addr);
        if value != 0 {
          tohost := tohost.(seen := true, value := value);
        }
      }
    }

    method WriteWord(b: StoreBeat)
      requires word > 0
      modifies this`bytes, this`tohost
      ensures bytes == WriteBeat(old(bytes), size, word, b)
      ensures tohost == WatchTohost(old(tohost), bytes, size, word, AlignDown(b.addr, word))
      ensures Fits(b, size, word) ==> forall x: nat :: Stores(b, word, x) ==> Lookup(bytes, Cell(size, x)) == ByteOf(b.data, x % word)
    {
      hide ByteOf, LaneAddr, Enabled, WatchTohost, Stores, Cell, Fits;
      if Fits(b, size, word) {
        StoredCells(bytes, size, word, b);
      }
      for i := 0 to LaneCount(word)
        invariant bytes == WriteLanes(old(bytes), size, word, b, i) && tohost == old(tohost)
      {
        if Enabled(b, word, i) {
          bytes := bytes[LaneAddr(b, size, word, i) := ByteOf(b.data, i)];
        }
      }
      UpdateTohost(AlignDown(b.addr, word));
    }

    method PushBurst(addr: nat, id: nat, len: nat)
      requires word > 0
      modifies this`rresp
      ensures rresp == old(rresp) + Burst(bytes, size, word, addr, id, len)
    {
      hide ReadLanes;
      var start := AlignDown(addr, word);
      ghost var burst := Burst(bytes, size, word, addr, id, len);
      for beat := 0 to len + 1
        invariant rresp == old(rresp) + burst[..beat]
      {
        var data := ReadWord(start + beat * word);
        rresp := rresp + [ReadResp(id, data, beat == len)];
        assert burst[..beat + 1] == burst[..beat] + [burst[beat]];
      }
      assert burst[..len + 1] == burst;
    }

    method TakeAddress(p: Port)
      requires p.awValid && !inflight
      modifies this
      ensures Snap() == AcceptWrite(old(Snap()), p)
    {
      storeAddr, storeId, storeCount := p.awAddr, p.awId, p.awLen + 1;
      storeWidth := WidthOf(p.awSize);
      inflight := true;
    }

    method TakeBeat(p: Port)
      requires word > 0
      modifies this
      ensures Snap() == AcceptData(old(Snap()), p)
    {
      hide WriteBeat, WatchTohost;
      WriteWord(StoreBeat(storeAddr, p.wData, p.wStrb, storeWidth));
      storeAddr := (storeAddr + storeWidth) % WORD64;
      if storeCount > 0 {
        storeCount := storeCount - 1;
      }
      if storeCount == 0 {
        inflight := false;
        bresp := bresp + [storeId];
      }
    }

    method TakeIn(p: Port)
      requires word > 0
      modifies this
      ensures Snap() == Accept(old(Snap()), p)
    {
      hide AcceptData, Burst;
      var awFire, wFire := p.awValid && !inflight, p.wValid && inflight;
      if p.arValid {
        PushBurst(p.arAddr, p.arId, p.arLen);
      }
      if awFire {
        TakeAddress(p);
      }
      if wFire {
        TakeBeat(p);
      }
    }

    method Step(p: Port)
      requires word > 0
      modifies this
      ensures Snap() == Tick(old(Snap()), p)
    {
      hide Accept;
      if p.reset {
        rresp, bresp, inflight := [], [], false;
        tohost := tohost.(seen := false, value := 0);
        return;
      }
      var rFire, bFire := rresp != [] && p.rReady, bresp != [] && p.bReady;
      TakeIn(p);
      if rFire {
        rresp := rresp[1..];
      }
      if bFire {
        bresp := bresp[1..];
      }
    }
  }
}
