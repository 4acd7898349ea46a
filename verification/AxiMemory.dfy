/** The burst memory behind the AXI port of the trace runner: one store burst at a time, read bursts
    answered in order from the bytes held when they are accepted. */
module AxiMemory {
  import opened BoomTypes
  import opened Memory
  import opened RoundTrip

  const WORD64: nat := 0x1_0000_0000_0000_0000

  datatype ReadResp = ReadResp(id: nat, data: bv64, last: bool)

  /** The state of the memory; `size` 0 means no wrapping, `word` is the bus width in bytes. */
  datatype Axi = Axi(
    size: nat, word: nat, inflight: bool, storeAddr: nat, storeId: nat, storeWidth: nat, storeCount: nat,
    rresp: seq<ReadResp>, bresp: seq<nat>, bytes: map<nat, bv8>, tohost: Tohost)

  datatype Tohost = Tohost(enabled: bool, addr: nat, seen: bool, value: bv64)

  /** The inputs of one tick; the outputs are functions of the state. */
  datatype Port = Port(
    reset: bool, arValid: bool, arAddr: nat, arId: nat, arLen: nat,
    awValid: bool, awAddr: nat, awId: nat, awSize: nat, awLen: nat,
    wValid: bool, wStrb: bv64, wData: bv64, rReady: bool, bReady: bool)

  // ---- Bytes

  function Wrap(size: nat, addr: nat): nat { if size == 0 then addr % WORD64 else (addr % WORD64) % size }

  function Lookup(bytes: map<nat, bv8>, a: nat): bv8 { if a in bytes then bytes[a] else 0 }

  /** The first n bytes of a bus word, zero-filled to eight lanes. */
  function Lanes(bytes: map<nat, bv8>, size: nat, addr: nat, n: nat): (b: seq<bv8>)
    ensures |b| == 8
  {
    seq(8, k requires 0 <= k < 8 => if k < n then Lookup(bytes, Wrap(size, addr + k)) else 0)
  }

  function ReadLanes(bytes: map<nat, bv8>, size: nat, addr: nat, n: nat): bv64 { JoinFirst(Lanes(bytes, size, addr, n), 8) }

  /** Whether bit i of the write strobe is set. */
  predicate StrobeBit(strb: bv64, i: nat)
    requires i < 8
  {
    strb & (if i == 0 then 1 else if i == 1 then 2 else if i == 2 then 4 else if i == 3 then 8
            else if i == 4 then 16 else if i == 5 then 32 else if i == 6 then 64 else 128) != 0
  }

  /** One data beat of a store burst. */
  datatype StoreBeat = StoreBeat(addr: nat, data: bv64, strb: bv64, width: nat)

  function AlignDown(addr: nat, word: nat): nat
    requires word > 0
  {
    (addr / word) * word
  }

  /** Lane i takes part in the beat: its strobe is set and it lies in the beat's width at its offset. */
  predicate Enabled(b: StoreBeat, word: nat, i: nat)
    requires i < 8 && word > 0
  {
    StrobeBit(b.strb, i) && b.addr % word <= i < b.addr % word + b.width
  }

  function LaneAddr(b: StoreBeat, size: nat, word: nat, i: nat): nat
    requires word > 0
  {
    Wrap(size, AlignDown(b.addr, word) + i)
  }

  /** The first n lanes of a beat written. */
  function WriteLanes(bytes: map<nat, bv8>, size: nat, word: nat, b: StoreBeat, n: nat): map<nat, bv8>
    requires word > 0 && n <= 8
  {
    if n == 0 then bytes
    else
      var m := WriteLanes(bytes, size, word, b, n - 1);
      if Enabled(b, word, n - 1) then m[LaneAddr(b, size, word, n - 1) := ByteOf(b.data, n - 1)] else m
  }

  function LaneCount(word: nat): (n: nat)
    ensures n <= 8 && n <= word
  {
    if word < 8 then word else 8
  }

  function WriteBeat(bytes: map<nat, bv8>, size: nat, word: nat, b: StoreBeat): map<nat, bv8>
    requires word > 0
  {
    WriteLanes(bytes, size, word, b, LaneCount(word))
  }

  function WatchTohost(t: Tohost, bytes: map<nat, bv8>, size: nat, word: nat, base: nat): Tohost {
    if t.enabled && base <= t.addr < (base + word) % WORD64 then
      var value := ReadLanes(bytes, size, t.addr, 8);
      if value != 0 then t.(seen := true, value := value) else t
    else t
  }

  // ---- One tick

  /** The beats of a read burst. */
  function Burst(bytes: map<nat, bv8>, size: nat, word: nat, addr: nat, id: nat, len: nat): seq<ReadResp>
    requires word > 0
  {
    seq(len + 1, k requires 0 <= k < len + 1 => BurstBeat(bytes, size, word, addr, id, len, k))
  }

  function BurstBeat(bytes: map<nat, bv8>, size: nat, word: nat, addr: nat, id: nat, len: nat, k: nat): ReadResp
    requires word > 0
  {
    ReadResp(id, ReadLanes(bytes, size, AlignDown(addr, word) + k * word, LaneCount(word)), k == len)
  }

  predicate ArFires(s: Axi, p: Port) { p.arValid }
  predicate AwFires(s: Axi, p: Port) { p.awValid && !s.inflight }
  predicate WFires(s: Axi, p: Port) { p.wValid && s.inflight }
  predicate RFires(s: Axi, p: Port) { s.rresp != [] && p.rReady }
  predicate BFires(s: Axi, p: Port) { s.bresp != [] && p.bReady }

  function WidthOf(size: nat): nat { if size == 0 then 1 else if size == 1 then 2 else if size == 2 then 4 else 8 }

  function AcceptRead(s: Axi, p: Port): Axi
    requires s.word > 0
  {
    if ArFires(s, p) then s.(rresp := s.rresp + Burst(s.bytes, s.size, s.word, p.arAddr, p.arId, p.arLen)) else s
  }

  function AcceptWrite(s: Axi, p: Port): Axi {
    if AwFires(s, p) then
      s.(inflight := true, storeAddr := p.awAddr, storeId := p.awId, storeCount := p.awLen + 1, storeWidth := WidthOf(p.awSize))
    else s
  }

  function CurrentBeat(s: Axi, p: Port): StoreBeat { StoreBeat(s.storeAddr, p.wData, p.wStrb, s.storeWidth) }

  function AcceptData(s: Axi, p: Port): Axi
    requires s.word > 0
  {
    var bytes := WriteBeat(s.bytes, s.size, s.word, CurrentBeat(s, p));
    var count := if s.storeCount > 0 then s.storeCount - 1 else 0;
    s.(bytes := bytes, tohost := WatchTohost(s.tohost, bytes, s.size, s.word, AlignDown(s.storeAddr, s.word)),
       storeAddr := (s.storeAddr + s.storeWidth) % WORD64, storeCount := count,
       inflight := s.inflight && count > 0, bresp := if count == 0 then s.bresp + [s.storeId] else s.bresp)
  }

  /** What a tick takes in; nothing leaves the queues. */
  function Accept(s: Axi, p: Port): (d: Axi)
    requires s.word > 0
    ensures s.rresp <= d.rresp && s.bresp <= d.bresp
  {
    var a := AcceptWrite(AcceptRead(s, p), p);
    if WFires(s, p) then AcceptData(a, p) else a
  }

  function Tick(s: Axi, p: Port): Axi
    requires s.word > 0
  {
    if p.reset then s.(rresp := [], bresp := [], inflight := false, tohost := s.tohost.(seen := false, value := 0))
    else
      var d := Accept(s, p);
      d.(rresp := if RFires(s, p) then d.rresp[1..] else d.rresp, bresp := if BFires(s, p) then d.bresp[1..] else d.bresp)
  }

  // ---- History

  /** An accepted read and how many store beats had been written when it was accepted. */
  datatype Read = Read(addr: nat, id: nat, len: nat, seen: nat)

  /** An accepted write address: len + 1 data beats of `1 << size` bytes each, at most 8. */
  datatype Write = Write(addr: nat, id: nat, size: nat, len: nat)

  /** What has happened since the last reset; `initial` is the memory then. */
  datatype Log = Log(
    initial: map<nat, bv8>, stores: seq<StoreBeat>, accepted: seq<Read>, rPushed: seq<ReadResp>, rPopped: seq<ReadResp>,
    writes: seq<Write>, bPushed: seq<nat>, bPopped: seq<nat>)

  function Fresh(s: Axi): Log { Log(s.bytes, [], [], [], [], [], [], []) }

  function TickLog(s: Axi, g: Log, p: Port): Log
    requires s.word > 0
  {
    if p.reset then Fresh(Tick(s, p))
    else
      g.(accepted := if ArFires(s, p) then g.accepted + [Read(p.arAddr, p.arId, p.arLen, |g.stores|)] else g.accepted,
         rPushed := if ArFires(s, p) then g.rPushed + Burst(s.bytes, s.size, s.word, p.arAddr, p.arId, p.arLen) else g.rPushed,
         rPopped := if RFires(s, p) then g.rPopped + [s.rresp[0]] else g.rPopped,
         writes := if AwFires(s, p) then g.writes + [Write(p.awAddr, p.awId, p.awSize, p.awLen)] else g.writes,
         stores := if WFires(s, p) then g.stores + [CurrentBeat(s, p)] else g.stores,
         bPushed := if WFires(s, p) && s.storeCount <= 1 then g.bPushed + [s.storeId] else g.bPushed,
         bPopped := if BFires(s, p) then g.bPopped + [s.bresp[0]] else g.bPopped)
  }

  /** A memory just built: any bytes, no traffic. */
  predicate Idle(s: Axi) { s.word > 0 && !s.inflight && s.rresp == [] && s.bresp == [] }

  /** The memory and its history after some ticks. */
  function RunTicks(s0: Axi, ps: seq<Port>): (r: (Axi, Log))
    requires Idle(s0)
    ensures r.0.word == s0.word && r.0.size == s0.size
  {
    if ps == [] then (s0, Fresh(s0))
    else
      var (s, g) := RunTicks(s0, ps[..|ps| - 1]);
      (Tick(s, ps[|ps| - 1]), TickLog(s, g, ps[|ps| - 1]))
  }

  /** The bytes after some store beats. */
  function BytesAfter(initial: map<nat, bv8>, size: nat, word: nat, stores: seq<StoreBeat>): map<nat, bv8>
    requires word > 0
  {
    if stores == [] then initial
    else WriteBeat(BytesAfter(initial, size, word, stores[..|stores| - 1]), size, word, stores[|stores| - 1])
  }

  /** The beats due for the accepted reads, in order: each burst from the bytes after the stores before it. */
  function Due(g: Log, size: nat, word: nat, n: nat): seq<ReadResp>
    requires word > 0 && n <= |g.accepted| && forall k :: 0 <= k < |g.accepted| ==> g.accepted[k].seen <= |g.stores|
  {
    if n == 0 then []
    else
      var r := g.accepted[n - 1];
      Due(g, size, word, n - 1) + Burst(BytesAfter(g.initial, size, word, g.stores[..r.seen]), size, word, r.addr, r.id, r.len)
  }

  // ---- Write bursts

  function Exp2(n: nat): nat { if n == 0 then 1 else 2 * Exp2(n - 1) }

  /** The bytes of a beat: a power of two, at most eight. */
  function Width(size: nat): nat { Exp2(if size < 3 then size else 3) }

  /** Where a data beat goes, and how wide it is. */
  datatype BeatPlace = BeatPlace(addr: nat, width: nat)

  /** The place j beats further on, modulo 2^64. */
  function Further(p: BeatPlace, j: nat): BeatPlace { if j == 0 then p else p.(addr := (p.addr + j * p.width) % WORD64) }

  /** n beats, each behind the one before. */
  function Beats(p: BeatPlace, n: nat): seq<BeatPlace> { seq(n, j requires 0 <= j < n => Further(p, j)) }

  /** The beats that some accepted writes announce, in order. */
  function Announced(writes: seq<Write>): seq<BeatPlace> {
    if writes == [] then []
    else
      var w := writes[|writes| - 1];
      Announced(writes[..|writes| - 1]) + Beats(BeatPlace(w.addr, Width(w.size)), w.len + 1)
  }

  function Places(stores: seq<StoreBeat>): seq<BeatPlace> {
    seq(|stores|, i requires 0 <= i < |stores| => BeatPlace(stores[i].addr, stores[i].width))
  }

  function Ids(writes: seq<Write>): seq<nat> { seq(|writes|, i requires 0 <= i < |writes| => writes[i].id) }

  /** The beats of the write in flight that are still to come. */
  function ToCome(s: Axi): seq<BeatPlace> { if s.inflight then Beats(BeatPlace(s.storeAddr, s.storeWidth), s.storeCount) else [] }

  // ---- Conservation

  ghost predicate Conserved(s: Axi, g: Log) {
    && s.word > 0
    && s.bytes == BytesAfter(g.initial, s.size, s.word, g.stores)
    && (forall k :: 0 <= k < |g.accepted| ==> g.accepted[k].seen <= |g.stores|)
    && g.rPushed == Due(g, s.size, s.word, |g.accepted|) && g.rPushed == g.rPopped + s.rresp
    && Ids(g.writes) == g.bPushed + (if s.inflight then [s.storeId] else []) && g.bPushed == g.bPopped + s.bresp
    && (s.inflight ==> s.storeCount > 0)
    && Announced(g.writes) == Places(g.stores) + ToCome(s)
  }

  /** Earlier beats do not depend on later stores or reads. */
  lemma {:induction false} DueExtends(g: Log, g': Log, size: nat, word: nat, n: nat)
    requires word > 0 && n <= |g.accepted| && g.initial == g'.initial && g.stores <= g'.stores && g.accepted <= g'.accepted
    requires forall k :: 0 <= k < |g.accepted| ==> g.accepted[k].seen <= |g.stores|
    requires forall k :: 0 <= k < |g'.accepted| ==> g'.accepted[k].seen <= |g'.stores|
    ensures Due(g', size, word, n) == Due(g, size, word, n)
  {
    hide Burst, BytesAfter;
    if n > 0 {
      DueExtends(g, g', size, word, n - 1);
      assert g'.stores[..g.accepted[n - 1].seen] == g.stores[..g.accepted[n - 1].seen];
    }
  }

  lemma StoredBytes(initial: map<nat, bv8>, size: nat, word: nat, stores: seq<StoreBeat>, b: StoreBeat)
    requires word > 0
    ensures BytesAfter(initial, size, word, stores + [b]) == WriteBeat(BytesAfter(initial, size, word, stores), size, word, b)
  {
    hide WriteBeat;
    assert (stores + [b])[..|stores|] == stores;
  }

  lemma TickConserves(s: Axi, g: Log, p: Port)
    requires Conserved(s, g)
    ensures Conserved(Tick(s, p), TickLog(s, g, p))
  {
    hide Burst, WriteBeat, WatchTohost, BytesAfter;
    if p.reset {
      NoStores(s.bytes, s.size, s.word);
    } else {
      QueueMoves(s, g, p);
      BytesMove(s, g, p);
      PlacesMove(s, g, p);
      BeatsMove(s, g, p);
    }
  }

  /** The bytes and the counters follow the data beats. */
  lemma BytesMove(s: Axi, g: Log, p: Port)
    requires !p.reset && Conserved(s, g)
    ensures var s', g' := Tick(s, p), TickLog(s, g, p);
            && s'.bytes == BytesAfter(g'.initial, s'.size, s'.word, g'.stores)
            && (s'.inflight ==> s'.storeCount > 0)
  {
    hide Burst, WriteBeat, WatchTohost, BytesAfter, Due;
    StoredBytes(g.initial, s.size, s.word, g.stores, CurrentBeat(s, p));
  }

  lemma WidthIs(size: nat)
    ensures WidthOf(size) == Width(size)
  {
    assert Exp2(3) == 8 && Exp2(2) == 4 && Exp2(1) == 2;
  }

  lemma AnnouncedOne(writes: seq<Write>, w: Write)
    ensures Announced(writes + [w]) == Announced(writes) + Beats(BeatPlace(w.addr, Width(w.size)), w.len + 1)
  {
    assert (writes + [w])[..|writes|] == writes;
  }

  lemma NextBeat(p: BeatPlace, j: nat)
    ensures Further(Further(p, 1), j) == Further(p, j + 1)
  {
    assert j * p.width + p.width == (j + 1) * p.width;
    assert (p.addr + p.width) % WORD64 == (p.addr + 1 * p.width) % WORD64;
    WrapsOnce(p.addr + p.width, j * p.width);
  }

  lemma WrapsOnce(a: nat, b: nat)
    ensures (a % WORD64 + b) % WORD64 == (a + b) % WORD64
  {
    var q := a / WORD64;
    assert a + b == a % WORD64 + b + q * WORD64;
    WholeWraps(a % WORD64 + b, q);
  }

  lemma {:induction false} WholeWraps(a: nat, q: nat)
    ensures (a + q * WORD64) % WORD64 == a % WORD64
  {
    if q > 0 {
      WholeWraps(a, q - 1);
      assert a + q * WORD64 == (a + (q - 1) * WORD64) + WORD64;
    }
  }

  lemma BeatsShift(p: BeatPlace, n: nat)
    requires n > 0
    ensures Beats(p, n) == [p] + Beats(Further(p, 1), n - 1)
  {
    hide Further;
    assert Further(p, 0) == p by { FurtherNone(p); }
    forall j: nat | j < n - 1
      ensures Further(Further(p, 1), j) == Further(p, j + 1)
    {
      NextBeat(p, j);
    }
  }

  lemma FurtherNone(p: BeatPlace)
    ensures Further(p, 0) == p
  {
  }

  lemma PlacesOne(stores: seq<StoreBeat>, b: StoreBeat)
    ensures Places(stores + [b]) == Places(stores) + [BeatPlace(b.addr, b.width)]
  {
  }

  /** The data beats go where the accepted writes announce them. */
  lemma PlacesMove(s: Axi, g: Log, p: Port)
    requires !p.reset && s.word > 0 && (s.inflight ==> s.storeCount > 0) && Announced(g.writes) == Places(g.stores) + ToCome(s)
    ensures var s', g' := Tick(s, p), TickLog(s, g, p); Announced(g'.writes) == Places(g'.stores) + ToCome(s')
  {
    hide Burst, WriteBeat, WatchTohost, Announced, Places, Beats, WidthOf, Width;
    if AwFires(s, p) {
      AnnouncedOne(g.writes, Write(p.awAddr, p.awId, p.awSize, p.awLen));
      WidthIs(p.awSize);
    }
    if WFires(s, p) {
      PlacesOne(g.stores, CurrentBeat(s, p));
      BeatsShift(BeatPlace(s.storeAddr, s.storeWidth), s.storeCount);
      FurtherOne(s.storeAddr, s.storeWidth);
      NoBeats(Further(BeatPlace(s.storeAddr, s.storeWidth), 1));
    }
  }

  lemma FurtherOne(a: nat, width: nat)
    ensures Further(BeatPlace(a, width), 1) == BeatPlace((a + width) % WORD64, width)
  {
  }

  lemma NoBeats(p: BeatPlace)
    ensures Beats(p, 0) == []
  {
  }

  /** The beats due follow the accepted reads. */
  lemma BeatsMove(s: Axi, g: Log, p: Port)
    requires !p.reset && Conserved(s, g)
    ensures var g' := TickLog(s, g, p);
            && (forall k :: 0 <= k < |g'.accepted| ==> g'.accepted[k].seen <= |g'.stores|)
            && g'.rPushed == Due(g', s.size, s.word, |g'.accepted|)
  {
    hide Burst, BytesAfter;
    var g' := TickLog(s, g, p);
    DueExtends(g, g', s.size, s.word, |g.accepted|);
    assert g'.stores[..|g.stores|] == g.stores;
  }

  lemma NoStores(initial: map<nat, bv8>, size: nat, word: nat)
    requires word > 0
    ensures BytesAfter(initial, size, word, []) == initial
  {
  }

  /** What the queues hold is what was put in and not yet taken out. */
  lemma QueueMoves(s: Axi, g: Log, p: Port)
    requires !p.reset && s.word > 0 && (s.inflight ==> s.storeCount > 0)
    requires g.rPushed == g.rPopped + s.rresp && g.bPushed == g.bPopped + s.bresp
    requires Ids(g.writes) == g.bPushed + (if s.inflight then [s.storeId] else [])
    ensures var s', g' := Tick(s, p), TickLog(s, g, p);
            && g'.rPushed == g'.rPopped + s'.rresp && g'.bPushed == g'.bPopped + s'.bresp
            && Ids(g'.writes) == g'.bPushed + (if s'.inflight then [s'.storeId] else [])
  {
    hide Burst, WriteBeat, WatchTohost, Ids;
    IdsOne(g.writes, Write(p.awAddr, p.awId, p.awSize, p.awLen));
  }

  lemma IdsOne(writes: seq<Write>, w: Write)
    ensures Ids(writes + [w]) == Ids(writes) + [w.id]
  {
  }

  lemma {:induction false} RunConserves(s0: Axi, ps: seq<Port>)
    requires Idle(s0)
    ensures Conserved(RunTicks(s0, ps).0, RunTicks(s0, ps).1)
  {
    hide Tick, TickLog;
    if ps == [] {
      NoStores(s0.bytes, s0.size, s0.word);
    } else {
      RunConserves(s0, ps[..|ps| - 1]);
      var r := RunTicks(s0, ps[..|ps| - 1]);
      TickConserves(r.0, r.1, ps[|ps| - 1]);
    }
  }

  // ---- The latest bytes

  /** The i-th byte of the bus word around an address. */
  function WordByte(addr: nat, word: nat, i: nat): (x: nat)
    requires i < word
    ensures x / word == addr / word && x % word == i
  {
    InWord(addr, word, i);
    addr - addr % word + i
  }

  lemma InWord(addr: nat, word: nat, i: nat)
    requires i < word
    ensures var x := addr - addr % word + i; x / word == addr / word && x % word == i
  {
    var x, q := addr - addr % word + i, addr / word;
    assert x == q * word + i;
    DivMod(x, word, q, i);
  }

  /** Quotient and remainder are unique. */
  lemma DivMod(x: nat, word: nat, q: nat, i: nat)
    requires i < word && x == q * word + i
    ensures x / word == q && x % word == i
  {
    var d := x / word - q;
    assert x == (x / word) * word + x % word;
    assert d * word == i - x % word;
    Multiples(d, word);
  }

  lemma Multiples(d: int, word: nat)
    ensures d >= 1 ==> d * word >= word
    ensures d <= -1 ==> d * word + word <= 0
  {
  }

  lemma LaneIsByte(b: StoreBeat, size: nat, word: nat, i: nat)
    requires i < word
    ensures LaneAddr(b, size, word, i) == Wrap(size, WordByte(b.addr, word, i))
  {
    assert AlignDown(b.addr, word) == b.addr - b.addr % word;
    hide Wrap;
  }

  /** The highest of the first n lanes of a beat that writes address a. */
  function LaneFor(b: StoreBeat, size: nat, word: nat, a: nat, n: nat): (r: Option<nat>)
    requires n <= 8 && n <= word
    ensures r.Some? ==> r.value < n
  {
    if n == 0 then None
    else if Enabled(b, word, n - 1) && Wrap(size, WordByte(b.addr, word, n - 1)) == a then Some(n - 1)
    else LaneFor(b, size, word, a, n - 1)
  }

  /** The byte the youngest store to an address put there. */
  function Latest(initial: map<nat, bv8>, size: nat, word: nat, stores: seq<StoreBeat>, a: nat): bv8
    requires word > 0
  {
    if stores == [] then Lookup(initial, a)
    else
      var b := stores[|stores| - 1];
      match LaneFor(b, size, word, a, LaneCount(word))
      case Some(i) => ByteOf(b.data, i)
      case None => Latest(initial, size, word, stores[..|stores| - 1], a)
  }

  lemma {:induction false} LanesWritten(bytes: map<nat, bv8>, size: nat, word: nat, b: StoreBeat, n: nat, a: nat)
    requires word > 0 && n <= 8 && n <= word
    ensures Lookup(WriteLanes(bytes, size, word, b, n), a)
         == match LaneFor(b, size, word, a, n) case Some(i) => ByteOf(b.data, i) case None => Lookup(bytes, a)
  {
    hide ByteOf, Enabled, LaneAddr, Wrap;
    if n > 0 {
      LaneIsByte(b, size, word, n - 1);
      LanesWritten(bytes, size, word, b, n - 1, a);
    }
  }

  lemma {:induction false} BytesAreLatest(initial: map<nat, bv8>, size: nat, word: nat, stores: seq<StoreBeat>, a: nat)
    requires word > 0
    ensures Lookup(BytesAfter(initial, size, word, stores), a) == Latest(initial, size, word, stores, a)
  {
    hide ByteOf, LaneFor, WriteLanes, Lookup;
    if stores != [] {
      var before := stores[..|stores| - 1];
      BytesAreLatest(initial, size, word, before, a);
      LanesWritten(BytesAfter(initial, size, word, before), size, word, stores[|stores| - 1], LaneCount(word), a);
    }
  }

  lemma LaneByte(bytes: map<nat, bv8>, size: nat, addr: nat, n: nat, j: nat)
    requires j < 8
    ensures ByteOf(ReadLanes(bytes, size, addr, n), j) == if j < n then Lookup(bytes, Wrap(size, addr + j)) else 0
  {
    hide ByteOf, Join, JoinFirst, Lookup, Wrap;
    var b := Lanes(bytes, size, addr, n);
    JoinAll(b);
    BeatBytes(b[0], b[1], b[2], b[3], b[4], b[5], b[6], b[7]);
  }

  // ---- The main results

  /** Write addresses, data beats and responses balance, in order: the accepted writes are those answered,
      then the one in flight; the data beats taken, then those still to come, are those announced, each at its
      address and of its width. */
  ghost predicate WritesBalance(s: Axi, g: Log) {
    && |g.writes| == |g.bPushed| + (if s.inflight then 1 else 0)
    && g.bPushed == Ids(g.writes)[..|g.bPushed|] && g.bPushed == g.bPopped + s.bresp
    && Places(g.stores) + ToCome(s) == Announced(g.writes)
  }

  lemma WritesAreConserved(s0: Axi, ps: seq<Port>)
    requires Idle(s0)
    ensures WritesBalance(RunTicks(s0, ps).0, RunTicks(s0, ps).1)
  {
    hide RunTicks, BytesAfter, Due;
    RunConserves(s0, ps);
  }

  /** The k-th beat of the n-th accepted read: its id, whether it is the last, and the latest bytes
      stored before the read was accepted, each byte of the bus word in the lane of its place. */
  ghost predicate BeatIsDue(s: Axi, g: Log, n: nat, k: nat, beat: ReadResp)
    requires s.word > 0 && n < |g.accepted| && g.accepted[n].seen <= |g.stores|
  {
    var r := g.accepted[n];
    && beat.id == r.id && (beat.last <==> k == r.len)
    && (forall x: nat :: x / s.word == r.addr / s.word + k && x % s.word < 8 ==>
          ByteOf(beat.data, x % s.word) == Latest(g.initial, s.size, s.word, g.stores[..r.seen], Wrap(s.size, x)))
    && (forall j: nat :: s.word <= j < 8 ==> ByteOf(beat.data, j) == 0)
  }

  /** The byte that a lane of a read beat is taken from. */
  lemma BeatByteAddress(addr: nat, word: nat, k: nat, x: nat)
    requires word > 0 && x / word == addr / word + k
    ensures AlignDown(addr, word) + k * word + x % word == x && x % word < word
  {
    assert (addr / word + k) * word == (addr / word) * word + k * word;
    assert x == (x / word) * word + x % word;
  }

  lemma BurstIsDue(s: Axi, g: Log, n: nat, k: nat)
    requires s.word > 0 && n < |g.accepted| && g.accepted[n].seen <= |g.stores| && k <= g.accepted[n].len
    ensures var r := g.accepted[n];
            BeatIsDue(s, g, n, k, BurstBeat(BytesAfter(g.initial, s.size, s.word, g.stores[..r.seen]), s.size, s.word, r.addr, r.id, r.len, k))
  {
    hide ByteOf, Lookup, Wrap, Latest, BytesAfter, ReadLanes;
    var r := g.accepted[n];
    var bytes, addr := BytesAfter(g.initial, s.size, s.word, g.stores[..r.seen]), AlignDown(r.addr, s.word) + k * s.word;
    forall j: nat | j < 8
      ensures ByteOf(ReadLanes(bytes, s.size, addr, LaneCount(s.word)), j)
           == if j < LaneCount(s.word) then Latest(g.initial, s.size, s.word, g.stores[..r.seen], Wrap(s.size, addr + j)) else 0
    {
      LaneByte(bytes, s.size, addr, LaneCount(s.word), j);
      BytesAreLatest(g.initial, s.size, s.word, g.stores[..r.seen], Wrap(s.size, addr + j));
    }
    forall x: nat | x / s.word == r.addr / s.word + k && x % s.word < 8
      ensures x % s.word < LaneCount(s.word) && addr + x % s.word == x
    {
      BeatByteAddress(r.addr, s.word, k, x);
    }
  }

  /** Where the n-th read's beats start among all beats. */
  lemma {:induction false} DueAt(g: Log, size: nat, word: nat, n: nat, m: nat, k: nat)
    requires word > 0 && n < m <= |g.accepted| && forall i :: 0 <= i < |g.accepted| ==> g.accepted[i].seen <= |g.stores|
    requires k <= g.accepted[n].len
    ensures var r, at := g.accepted[n], |Due(g, size, word, n)| + k;
            && at < |Due(g, size, word, m)|
            && Due(g, size, word, m)[at] == BurstBeat(BytesAfter(g.initial, size, word, g.stores[..r.seen]), size, word, r.addr, r.id, r.len, k)
  {
    hide BurstBeat, BytesAfter;
    if n < m - 1 {
      DueAt(g, size, word, n, m - 1, k);
    }
  }

  /** Every accepted read enqueues exactly its len + 1 beats, reads in order of acceptance and `last` only
      on the final beat, each holding the latest strobed bytes at acceptance. */
  lemma ReadsHoldLatestBytes(s0: Axi, ps: seq<Port>, n: nat, k: nat)
    requires Idle(s0) && n < |RunTicks(s0, ps).1.accepted| && k <= RunTicks(s0, ps).1.accepted[n].len
    ensures var (s, g) := RunTicks(s0, ps);
            && g.accepted[n].seen <= |g.stores|
            && g.rPushed == g.rPopped + s.rresp && Conserved(s, g)
            && var at := |Due(g, s.size, s.word, n)| + k;
            && at < |g.rPushed| && BeatIsDue(s, g, n, k, g.rPushed[at])
            && |Due(g, s.size, s.word, n + 1)| == |Due(g, s.size, s.word, n)| + g.accepted[n].len + 1
  {
    hide RunTicks, BytesAfter, BurstBeat, BeatIsDue;
    RunConserves(s0, ps);
    var (s, g) := RunTicks(s0, ps);
    DueAt(g, s.size, s.word, n, |g.accepted|, k);
    BurstIsDue(s, g, n, k);
  }

  // ---- Byte addresses

  /** The byte of a memory of this size that an address below 2^64 stands for. */
  function Cell(size: nat, x: nat): nat { if size == 0 then x else x % size }

  predicate Strobed(strb: bv64, i: nat)
    requires i < 8
  {
    (strb >> Word(i)) & 1 == 1
  }

  /** The beat stores the byte at this address: it lies in its range and its bus word, in a lane with its strobe set. */
  predicate Stores(b: StoreBeat, word: nat, x: nat)
    requires word > 0
  {
    b.addr <= x < b.addr + b.width && x / word == b.addr / word && x % word < 8 && Strobed(b.strb, x % word)
  }

  /** The byte addresses of a beat are distinct bytes of the memory: they lie below 2^64 and in a memory no
      smaller than a bus word. */
  predicate Fits(b: StoreBeat, size: nat, word: nat) { (size == 0 || size >= word) && b.addr + b.width <= WORD64 }

  lemma StrobeIs(strb: bv64, i: nat)
    requires i < 8
    ensures StrobeBit(strb, i) <==> Strobed(strb, i)
  {
  }

  lemma WrapIs(size: nat, x: nat)
    requires x < WORD64
    ensures Wrap(size, x) == Cell(size, x)
  {
  }

  /** The lane of a beat with a given byte address takes part just when the beat stores that byte. */
  lemma EnabledIs(b: StoreBeat, word: nat, i: nat)
    requires i < 8 && i < word
    ensures Enabled(b, word, i) <==> Stores(b, word, WordByte(b.addr, word, i))
  {
    hide StrobeBit, Strobed;
    StrobeIs(b.strb, i);
  }

  lemma LaneForIs(b: StoreBeat, size: nat, word: nat, a: nat, n: nat)
    requires n <= 8 && n <= word
    ensures var r := LaneFor(b, size, word, a, n);
            if r.Some? then Enabled(b, word, r.value) && Wrap(size, WordByte(b.addr, word, r.value)) == a
            else forall i: nat :: i < n && Enabled(b, word, i) ==> Wrap(size, WordByte(b.addr, word, i)) != a
  {
    hide Enabled, Wrap, WordByte;
  }

  /** Two bytes of one bus word are different bytes of a memory no smaller than that. */
  lemma CellsApart(size: nat, word: nat, x: nat, z: nat)
    requires word > 0 && (size == 0 || size >= word) && x / word == z / word && Cell(size, x) == Cell(size, z)
    ensures x == z
  {
    assert x == (x / word) * word + x % word && z == (z / word) * word + z % word;
    if size > 0 {
      assert x == (x / size) * size + x % size && z == (z / size) * size + z % size;
      var d := x / size - z / size;
      assert d * size == x - z;
      Multiples(d, size);
    }
  }

  /** Byte i of the bus word of an address in that word. */
  lemma PlaceInWord(addr: nat, word: nat, x: nat)
    requires word > 0 && x / word == addr / word
    ensures x % word < word && WordByte(addr, word, x % word) == x
  {
    assert x == (x / word) * word + x % word && addr == (addr / word) * word + addr % word;
  }

  /** A read beat holds, in the lane of its place, every byte of its bus word: the one kept, or zero. */
  lemma ReadLane(bytes: map<nat, bv8>, size: nat, word: nat, addr: nat, id: nat, len: nat, k: nat, y: nat)
    requires word > 0 && k <= len && y < WORD64 && y / word == addr / word + k && y % word < 8
    ensures var c := Cell(size, y);
            ByteOf(Burst(bytes, size, word, addr, id, len)[k].data, y % word) == if c in bytes then bytes[c] else 0
  {
    BeatByteAddress(addr, word, k, y);
    hide ByteOf, ReadLanes, Cell, Wrap;
    WrapIs(size, y);
    LaneByte(bytes, size, AlignDown(addr, word) + k * word, LaneCount(word), y % word);
  }

  /** A store beat and a read at byte addresses: the read returns the byte of the datum in the lane of the address
      stored, if the beat stores that byte, and otherwise what it returned before. */
  lemma ReadAfterStore(bytes: map<nat, bv8>, size: nat, word: nat, b: StoreBeat, addr: nat, id: nat, len: nat, k: nat, y: nat)
    requires word > 0 && Fits(b, size, word)
    requires k <= len && y < WORD64 && y / word == addr / word + k && y % word < 8
    ensures var before, after := Burst(bytes, size, word, addr, id, len), Burst(WriteBeat(bytes, size, word, b), size, word, addr, id, len);
            && (forall x: nat :: Stores(b, word, x) && Cell(size, x) == Cell(size, y) ==>
                  ByteOf(after[k].data, y % word) == ByteOf(b.data, x % word))
            && ((forall x: nat :: Stores(b, word, x) ==> Cell(size, x) != Cell(size, y)) ==>
                  ByteOf(after[k].data, y % word) == ByteOf(before[k].data, y % word))
  {
    hide ByteOf, Burst, Cell, Wrap, Enabled, Stores, LaneFor, WriteLanes;
    ReadLane(bytes, size, word, addr, id, len, k, y);
    ReadLane(WriteBeat(bytes, size, word, b), size, word, addr, id, len, k, y);
    WrapIs(size, y);
    var n, c := LaneCount(word), Cell(size, y);
    LanesWritten(bytes, size, word, b, n, c);
    LaneForIs(b, size, word, c, n);
    forall x: nat | Stores(b, word, x) && Cell(size, x) == c
      ensures LaneFor(b, size, word, c, n) == Some(x % word)
    {
      LaneFound(b, size, word, c, x);
    }
    if LaneFor(b, size, word, c, n).Some? {
      LaneStores(b, size, word, LaneFor(b, size, word, c, n).value);
    }
  }

  /** An enabled lane stores its byte. */
  lemma LaneStores(b: StoreBeat, size: nat, word: nat, i: nat)
    requires i < 8 && i < word && Enabled(b, word, i) && b.addr + b.width <= WORD64
    ensures var z := WordByte(b.addr, word, i); Stores(b, word, z) && z < WORD64 && Wrap(size, z) == Cell(size, z)
  {
    EnabledIs(b, word, i);
    hide Enabled, Wrap, Cell, Strobed;
    WrapIs(size, WordByte(b.addr, word, i));
  }

  lemma LaneFound(b: StoreBeat, size: nat, word: nat, c: nat, x: nat)
    requires word > 0 && Fits(b, size, word)
    requires Stores(b, word, x) && Cell(size, x) == c
    ensures LaneFor(b, size, word, c, LaneCount(word)) == Some(x % word)
  {
    hide Cell, Wrap, Enabled, LaneFor, Strobed;
    var n, i := LaneCount(word), x % word;
    PlaceInWord(b.addr, word, x);
    EnabledIs(b, word, i);
    WrapIs(size, x);
    LaneForIs(b, size, word, c, n);
    var j := LaneFor(b, size, word, c, n).value;
    LaneStores(b, size, word, j);
    CellsApart(size, word, x, WordByte(b.addr, word, j));
  }

  lemma StoredCells(bytes: map<nat, bv8>, size: nat, word: nat, b: StoreBeat)
    requires word > 0 && Fits(b, size, word)
    ensures forall x: nat :: Stores(b, word, x) ==> Lookup(WriteBeat(bytes, size, word, b), Cell(size, x)) == ByteOf(b.data, x % word)
  {
    hide ByteOf, Lookup, Cell, Strobed, LaneFor, WriteLanes;
    forall x: nat | Stores(b, word, x)
      ensures Lookup(WriteBeat(bytes, size, word, b), Cell(size, x)) == ByteOf(b.data, x % word)
    {
      LaneFound(b, size, word, Cell(size, x), x);
      LanesWritten(bytes, size, word, b, LaneCount(word), Cell(size, x));
    }
  }

  // ---- The watched doubleword

  /** Byte j of the watched doubleword. */
  function WatchedByte(t: Tohost, bytes: map<nat, bv8>, size: nat, j: nat): bv8 { Lookup(bytes, Wrap(size, t.addr + j)) }

  lemma NoBytes()
    ensures forall j: nat :: j < 8 ==> ByteOf(0, j) == 0
    ensures LowBytes(0, 0, 8) == 0
  {
  }

  lemma AllBytes(x: bv64)
    ensures LowBytes(x, 0, 8) == x
  {
  }

  /** A word is zero just when all its bytes are. */
  lemma ZeroBytes(x: bv64)
    ensures x == 0 <==> forall j: nat :: j < 8 ==> ByteOf(x, j) == 0
  {
    NoBytes();
    AllBytes(x);
    hide ByteOf, LowBytes;
    if forall j: nat :: j < 8 ==> ByteOf(x, j) == 0 {
      SameLowBytes(x, 0, 0, 0, 8);
    }
  }

  /** A store beat into the watched bus word that leaves any byte of the watched doubleword nonzero has it
      recorded, byte by byte; nothing else touches the record. */
  lemma WatchRecords(t: Tohost, bytes: map<nat, bv8>, size: nat, word: nat, base: nat)
    ensures var r := WatchTohost(t, bytes, size, word, base);
            var hit := t.enabled && base <= t.addr < (base + word) % WORD64;
            if hit && exists j: nat :: j < 8 && WatchedByte(t, bytes, size, j) != 0 then
              r == t.(seen := true, value := r.value) && forall j: nat :: j < 8 ==> ByteOf(r.value, j) == WatchedByte(t, bytes, size, j)
            else r == t
  {
    hide ByteOf, ReadLanes, WatchedByte;
    var value := ReadLanes(bytes, size, t.addr, 8);
    ZeroBytes(value);
    forall j: nat | j < 8
      ensures ByteOf(value, j) == WatchedByte(t, bytes, size, j)
    {
      WatchedLane(t, bytes, size, j);
    }
  }

  lemma WatchedLane(t: Tohost, bytes: map<nat, bv8>, size: nat, j: nat)
    requires j < 8
    ensures ByteOf(ReadLanes(bytes, size, t.addr, 8), j) == WatchedByte(t, bytes, size, j)
  {
    hide ByteOf, ReadLanes, Wrap;
    LaneByte(bytes, size, t.addr, 8, j);
  }
}
