/** The register maps and the free list: the speculative map is the committed one overlaid with the
    destinations in flight, and no physical register is lost or used twice. */
module RenameMaps {
  import opened BoomTypes
  import opened Decode
  import opened Execute
  import opened Pipeline
  import opened Frames
  import opened RobWindow
  import opened IssueQueue
  import opened History
  import opened Residency
  import opened Flow
  import opened RobFifo

  // ---- Maps

  /** A map after one uop's destination. */
  function Mapped(t: seq<nat>, n: RenameInfo): (r: seq<nat>)
    ensures |r| == |t|
  {
    if n.pdst != 0 then Put(t, n.ldst, n.pdst) else t
  }

  /** A map overlaid, oldest to youngest, with the destinations of some uops. */
  function Overlay(t: seq<nat>, rs: seq<AluResult>): (r: seq<nat>)
    ensures |r| == |t|
  {
    if rs == [] then t else Mapped(Overlay(t, rs[..|rs| - 1]), rs[|rs| - 1].uop.rename)
  }

  lemma {:induction false} OverlayOldest(t: seq<nat>, rs: seq<AluResult>)
    requires rs != []
    ensures Overlay(t, rs) == Overlay(Mapped(t, rs[0].uop.rename), rs[1..])
  {
    var n := |rs| - 1;
    if n == 0 {
      assert rs[..n] == [] && rs[1..] == [];
    } else {
      OverlayOldest(t, rs[..n]);
      assert rs[..n][1..] == rs[1..][..n - 1] && rs[1..][n - 1] == rs[n];
    }
  }

  /** Destinations are logical registers other than x0, and ECALL has none. */
  ghost predicate DestinationOk(u: MicroOp) {
    && (u.rename.pdst != 0 ==> 0 < u.rename.ldst < LOGICAL_REG_COUNT && u.rename.dst == DstInt)
    && (u.uopc == UOPC_ECALL ==> u.rename.pdst == 0)
  }

  /** Each uop in flight remembers the mapping it replaced. */
  ghost predicate StaleOk(committed: seq<nat>, rs: seq<AluResult>) {
    forall k :: 0 <= k < |rs| && rs[k].uop.rename.pdst != 0 ==>
      rs[k].uop.rename.stalePdst == At(Overlay(committed, rs[..k]), rs[k].uop.rename.ldst)
  }

  ghost predicate MapsOk(ren: Rename, rs: seq<AluResult>) {
    && |ren.table| == |ren.committed| == LOGICAL_REG_COUNT
    && At(ren.committed, 0) == 0
    && (forall k :: 0 <= k < |rs| ==> DestinationOk(rs[k].uop))
    && ren.table == Overlay(ren.committed, rs)
    && StaleOk(ren.committed, rs)
  }

  /** A new uop in flight. */
  lemma MapsAdd(ren: Rename, rs: seq<AluResult>, r: AluResult)
    requires MapsOk(ren, rs) && DestinationOk(r.uop)
    requires r.uop.rename.pdst != 0 ==> r.uop.rename.stalePdst == At(ren.table, r.uop.rename.ldst)
    ensures MapsOk(ren.(table := Mapped(ren.table, r.uop.rename)), rs + [r])
  {
    var all := rs + [r];
    assert all[..|rs|] == rs;
    assert forall k :: 0 <= k < |rs| ==> all[..k] == rs[..k];
  }

  /** The oldest uop commits: its destination becomes architectural. */
  lemma MapsCommit(ren: Rename, rs: seq<AluResult>)
    requires MapsOk(ren, rs) && rs != []
    ensures MapsOk(ren.(committed := Mapped(ren.committed, rs[0].uop.rename)), rs[1..])
    ensures rs[0].uop.rename.pdst != 0 ==> rs[0].uop.rename.stalePdst == At(ren.committed, rs[0].uop.rename.ldst)
  {
    var c := Mapped(ren.committed, rs[0].uop.rename);
    OverlayOldest(ren.committed, rs);
    assert rs[..0] == [];
    forall k | 0 <= k < |rs| - 1
      ensures Overlay(c, rs[1..][..k]) == Overlay(ren.committed, rs[..k + 1])
    {
      OverlayOldest(ren.committed, rs[..k + 1]);
      assert rs[..k + 1][1..] == rs[1..][..k];
    }
    assert forall k :: 0 <= k < |rs| - 1 ==> rs[1..][k] == rs[k + 1];
  }

  // ---- The free list

  ghost predicate FreeListOk(ren: Rename) {
    && |ren.freeList| == INT_PHYS_REGS && ren.head < INT_PHYS_REGS && ren.tail < INT_PHYS_REGS
    && 1 <= ren.count < INT_PHYS_REGS
    && ren.tail == FreeSlot(ren, ren.count - 1)
  }

  function FreeSlot(ren: Rename, k: nat): nat {
    if ren.head + k < INT_PHYS_REGS then ren.head + k else ren.head + k - INT_PHYS_REGS
  }

  /** The registers on the free list; the slot at the tail counts but holds none. */
  function Free(ren: Rename): seq<nat>
    requires FreeListOk(ren)
  {
    seq(ren.count - 1, k requires 0 <= k < ren.count - 1 => ren.freeList[FreeSlot(ren, k)])
  }

  function Taken(ren: Rename): Rename { ren.(head := NextPreg(ren.head), count := if ren.count > 0 then ren.count - 1 else 0) }

  /** Taking a register takes the first free one. */
  lemma FreeTake(ren: Rename)
    requires FreeListOk(ren) && ren.count >= 2
    ensures FreeListOk(Taken(ren)) && Free(Taken(ren)) == Free(ren)[1..] && Free(ren)[0] == At(ren.freeList, ren.head)
  {
    var t := Taken(ren);
    assert FreeSlot(ren, 0) == ren.head;
    assert forall k: nat :: k < ren.count - 1 ==> FreeSlot(t, k) == FreeSlot(ren, k + 1);
  }

  /** Releasing a register puts it behind the others. */
  lemma FreeRelease(ren: Rename, p: nat)
    requires FreeListOk(ren) && ren.count < INT_PHYS_REGS - 1 && 0 < p < INT_PHYS_REGS
    ensures FreeListOk(Release(ren, p)) && Free(Release(ren, p)) == Free(ren) + [p]
    ensures Release(ren, p).committed == ren.committed && Release(ren, p).table == ren.table
  {
    var r := Release(ren, p);
    assert forall k: nat :: k < ren.count - 1 ==> FreeSlot(ren, k) != ren.tail;
  }

  // ---- Conservation

  function Single(p: nat): multiset<nat> { if p != 0 then multiset{p} else multiset{} }

  /** The physical registers a map mentions. */
  function Regs(t: seq<nat>): multiset<nat> { multiset(t)[0 := 0] }

  lemma RegsUpdate(t: seq<nat>, l: nat, p: nat)
    requires l < |t|
    ensures Regs(t[l := p]) + Single(t[l]) == Regs(t) + Single(p)
  {
    assert t == t[..l] + [t[l]] + t[l + 1..];
    assert t[l := p] == t[..l] + [p] + t[l + 1..];
    assert multiset(t[l := p]) + multiset{t[l]} == multiset(t) + multiset{p};
  }

  /** The registers 1 to 50. The reset free list also holds 51, in the slot at its tail: it is
      overwritten by the first release and never handed out while two or more slots count as free. */
  function Pool(): multiset<nat> { multiset(seq(50, k => k + 1)) }

  ghost predicate Conserved(ren: Rename, rs: seq<AluResult>, dead: multiset<nat>) {
    && FreeListOk(ren)
    && multiset(Free(ren)) + Regs(ren.committed) + Pdsts(rs) + dead == Pool()
  }

  lemma {:induction false} PdstsAdd(rs: seq<AluResult>, r: AluResult)
    ensures Pdsts(rs + [r]) == Pdsts(rs) + Single(r.uop.rename.pdst)
  {
    if rs == [] {
      assert rs + [r] == [r] && [r][1..] == [];
    } else {
      assert (rs + [r])[1..] == rs[1..] + [r];
      PdstsAdd(rs[1..], r);
    }
  }

  /** Renaming moves the first free register in flight. */
  lemma ConservedTake(ren: Rename, rs: seq<AluResult>, dead: multiset<nat>, r: AluResult)
    requires Conserved(ren, rs, dead) && ren.count >= 2 && r.uop.rename.pdst == At(ren.freeList, ren.head)
    ensures Conserved(Taken(ren), rs + [r], dead) && 0 < r.uop.rename.pdst < INT_PHYS_REGS - 1
    ensures r.uop.rename.pdst !in Regs(ren.committed) && r.uop.rename.pdst !in Pdsts(rs)
  {
    FreeTake(ren);
    PdstsAdd(rs, r);
    var p := r.uop.rename.pdst;
    assert Free(ren) == [p] + Free(Taken(ren));
    assert p in multiset(Free(ren)) && p in Pool();
    PoolIsSet(p);
    assert Single(p) == multiset{p};
  }

  lemma PoolIsSet(p: nat)
    ensures Pool()[p] <= 1 && (p in Pool() <==> 0 < p < INT_PHYS_REGS - 1)
  {
    var s := seq(INT_PHYS_REGS - 2, k => k + 1);
    if 0 < p < INT_PHYS_REGS - 1 {
      assert s == s[..p - 1] + [p] + s[p..];
      assert p !in s[..p - 1] && p !in s[p..];
      assert s[p - 1] == p;
    } else {
      assert p !in s;
    }
  }

  lemma PoolSize()
    ensures |Pool()| == INT_PHYS_REGS - 2
  {
  }

  /** A register that left every other place can be released. */
  lemma ReleaseConserves(ren: Rename, p: nat, others: multiset<nat>)
    requires FreeListOk(ren) && multiset(Free(ren)) + multiset{p} + others == Pool()
    ensures 0 < p < INT_PHYS_REGS - 1
    ensures FreeListOk(Release(ren, p)) && multiset(Free(Release(ren, p))) + others == Pool()
    ensures Release(ren, p).committed == ren.committed && Release(ren, p).table == ren.table
  {
    assert p in Pool();
    PoolIsSet(p);
    PoolSize();
    assert |multiset(Free(ren))| == ren.count - 1;
    assert |multiset(Free(ren)) + multiset{p} + others| == ren.count + |others|;
    FreeRelease(ren, p);
  }

  /** Commit moves the destination from flight into the committed map, and the register it replaces
      from there to the free list. */
  lemma ConservedCommit(ren: Rename, rs: seq<AluResult>, dead: multiset<nat>)
    requires Conserved(ren, rs, dead) && rs != [] && |ren.committed| == LOGICAL_REG_COUNT
    requires DestinationOk(rs[0].uop)
    requires rs[0].uop.rename.pdst != 0 ==> rs[0].uop.rename.stalePdst == At(ren.committed, rs[0].uop.rename.ldst)
    ensures Conserved(CommitMapping(ren, rs[0].uop.rename), rs[1..], dead)
    ensures CommitMapping(ren, rs[0].uop.rename).committed == Mapped(ren.committed, rs[0].uop.rename)
    ensures CommitMapping(ren, rs[0].uop.rename).table == ren.table
  {
    hide Release, Pool, Regs, Free, FreeListOk, Pdsts;
    var n := rs[0].uop.rename;
    assert Pdsts(rs) == Single(n.pdst) + Pdsts(rs[1..]) by { PdstsHead(rs); }
    if n.pdst != 0 {
      var c := ren.(committed := Put(ren.committed, n.ldst, n.pdst));
      SameFree(ren, c);
      RegsUpdate(ren.committed, n.ldst, n.pdst);
      Exchange(multiset(Free(ren)), Regs(ren.committed), Regs(c.committed), Single(n.stalePdst), Single(n.pdst),
               Pdsts(rs[1..]), dead, Pool());
      if n.stalePdst != 0 {
        ReleaseConserves(c, n.stalePdst, Regs(c.committed) + Pdsts(rs[1..]) + dead);
        Regroup(multiset(Free(Release(c, n.stalePdst))), Regs(c.committed), Pdsts(rs[1..]), dead);
      } else {
        ReleaseNothing(c);
        Regroup(multiset(Free(c)), Regs(c.committed), Pdsts(rs[1..]), dead);
      }
    }
  }

  lemma PdstsHead(rs: seq<AluResult>)
    requires rs != []
    ensures Pdsts(rs) == Single(rs[0].uop.rename.pdst) + Pdsts(rs[1..])
  {
  }

  lemma SameFree(a: Rename, b: Rename)
    requires a.freeList == b.freeList && a.head == b.head && a.tail == b.tail && a.count == b.count
    ensures FreeListOk(a) <==> FreeListOk(b)
    ensures FreeListOk(a) ==> Free(a) == Free(b)
  {
  }

  lemma Exchange(free: multiset<nat>, regs: multiset<nat>, regs': multiset<nat>, leaving: multiset<nat>, arriving: multiset<nat>,
                 flight: multiset<nat>, dead: multiset<nat>, pool: multiset<nat>)
    requires free + regs + (arriving + flight) + dead == pool && regs' + leaving == regs + arriving
    ensures free + leaving + (regs' + flight + dead) == pool
  {
    forall x: nat
      ensures (free + leaving + (regs' + flight + dead))[x] == pool[x]
    {
      assert (regs' + leaving)[x] == (regs + arriving)[x];
      assert (free + regs + (arriving + flight) + dead)[x] == pool[x];
    }
  }

  lemma ReleaseNothing(ren: Rename)
    ensures Release(ren, 0) == ren
  {
  }

  lemma Regroup(a: multiset<nat>, b: multiset<nat>, c: multiset<nat>, d: multiset<nat>)
    ensures a + (b + c + d) == a + b + c + d
  {
  }

  /** A uop without a destination changes neither the free list nor what is in flight. */
  lemma ConservedAddNone(ren: Rename, rs: seq<AluResult>, dead: multiset<nat>, r: AluResult)
    requires Conserved(ren, rs, dead) && r.uop.rename.pdst == 0
    ensures Conserved(ren, rs + [r], dead)
  {
    PdstsAdd(rs, r);
  }

  // ---- The stages

  ghost predicate RenameOk(ren: Rename, rs: seq<AluResult>, dead: multiset<nat>) {
    MapsOk(ren, rs) && Conserved(ren, rs, dead)
  }

  /** The step brings a packet whose uop takes a register. */
  predicate TakesRegister(s: Core, i: StepIn) {
    Fetched(s, i).packetValid && NeedsRegister(DecodeInst(Fetched(s, i).packetPc, Fetched(s, i).packetInst).rename)
  }

  /** Such a packet finds a free entry and two slots of the free list counted. */
  predicate RoomyStep(s: Core, i: StepIn) { TakesRegister(s, i) ==> !RobFull(s.rob) && s.ren.count >= 2 }

  /** The side conditions of a step: that, and no packet arrives with a redirect. */
  ghost predicate SafeStep(s: Core, i: StepIn) { RoomyStep(s, i) && (Fetched(s, i).packetValid ==> !Redirecting(s)) }

  /** What renaming one decoded uop does to the maps and the free list. */
  lemma RenameEffect(ren: Rename, pc: bv64, inst: bv32)
    requires |ren.table| == LOGICAL_REG_COUNT && (NeedsRegister(DecodeInst(pc, inst).rename) ==> ren.count > 0)
    ensures var d, r := DecodeInst(pc, inst).rename, RenameUop(ren, DecodeInst(pc, inst));
            && r.uop == DecodeInst(pc, inst).(rename := r.uop.rename)
            && (r.uop.rename.pdst != 0 ==> NeedsRegister(d) && r.uop.rename.ldst == d.ldst && DestinationOk(r.uop))
            && (r.uop.rename.pdst != 0 ==> r.uop.rename.stalePdst == At(ren.table, r.uop.rename.ldst))
            && (NeedsRegister(d) ==> r.uop.rename.pdst == At(ren.freeList, ren.head) && r.table == Put(ren.table, d.ldst, r.uop.rename.pdst)
                                     && r == Taken(ren).(table := r.table, valid := true, uop := r.uop))
            && (!NeedsRegister(d) ==> r.uop.rename.pdst == 0 && r == ren.(valid := true, uop := r.uop))
            && (r.uop.uopc == UOPC_ECALL ==> r.uop.rename.pdst == 0)
            && r.uop.rename.prs1 == At(ren.table, d.lrs1) && r.uop.rename.prs2 == At(ren.table, d.lrs2)
            && r.uop.rename.dst == d.dst
  {
    hide DecodeInst, Put, At;
  }

  /** The maps and the free list do not depend on the rename stage's output. */
  lemma SameRename(a: Rename, b: Rename, rs: seq<AluResult>, dead: multiset<nat>)
    requires a.table == b.table && a.committed == b.committed
    requires a.freeList == b.freeList && a.head == b.head && a.tail == b.tail && a.count == b.count
    ensures RenameOk(a, rs, dead) <==> RenameOk(b, rs, dead)
  {
    SameFree(a, b);
  }

  /** Renaming and allocating one uop. */
  lemma RenameKeeps(ren: Rename, rs: seq<AluResult>, dead: multiset<nat>, pc: bv64, inst: bv32, r: AluResult)
    requires RenameOk(ren, rs, dead) && (NeedsRegister(DecodeInst(pc, inst).rename) ==> ren.count >= 2)
    requires r.uop.rename == RenameUop(ren, DecodeInst(pc, inst)).uop.rename && r.uop.uopc == DecodeInst(pc, inst).uopc
    ensures RenameOk(RenameUop(ren, DecodeInst(pc, inst)), rs + [r], dead)
    ensures r.uop.rename.pdst != 0 ==>
              r.uop.rename.pdst < INT_PHYS_REGS && r.uop.rename.pdst !in Regs(ren.committed) && r.uop.rename.pdst !in Pdsts(rs)
    ensures NeedsRegister(DecodeInst(pc, inst).rename) <==> r.uop.rename.pdst != 0
  {
    hide DecodeInst, RenameUop, Conserved, StaleOk, Overlay;
    var q := RenameUop(ren, DecodeInst(pc, inst));
    RenameEffect(ren, pc, inst);
    if NeedsRegister(DecodeInst(pc, inst).rename) {
      ConservedTake(ren, rs, dead, r);
    } else {
      ConservedAddNone(ren, rs, dead, r);
    }
    MapsAdd(ren, rs, r);
    hide MapsOk;
    var t := ren.(table := Mapped(ren.table, r.uop.rename));
    if NeedsRegister(DecodeInst(pc, inst).rename) {
      MapsOnly(t, q, rs + [r]);
      ConservedOnly(Taken(ren), q, rs + [r], dead);
    } else {
      MapsOnly(t, q, rs + [r]);
      ConservedOnly(ren, q, rs + [r], dead);
    }
  }

  lemma MapsOnly(a: Rename, b: Rename, rs: seq<AluResult>)
    requires MapsOk(a, rs) && a.table == b.table && a.committed == b.committed
    ensures MapsOk(b, rs)
  {
  }

  lemma ConservedOnly(a: Rename, b: Rename, rs: seq<AluResult>, dead: multiset<nat>)
    requires Conserved(a, rs, dead) && a.committed == b.committed
    requires a.freeList == b.freeList && a.head == b.head && a.tail == b.tail && a.count == b.count
    ensures Conserved(b, rs, dead)
  {
    SameFree(a, b);
  }

  /** The window is gone from the maps but not yet from the buffer. */
  ghost predicate RecoveredOk(ren: Rename, rs: seq<AluResult>, dead: multiset<nat>) {
    && Conserved(ren, rs, dead)
    && |ren.committed| == LOGICAL_REG_COUNT && At(ren.committed, 0) == 0 && ren.table == ren.committed
  }

  lemma MiddleRename(y: Sys, i: StepIn)
    requires ResidentsOk(y.core.rob, y.hist, false) && !y.core.globalFlush && QueueEmpty(y.core.iss)
    requires SafeStep(y.core, i) && RenameOk(y.core.ren, Residents(y.hist), y.hist.dead)
    ensures var m := MiddleSys(y, i);
            && |m.hist.fates| <= |m.hist.alloc|
            && if Redirecting(y.core) then RecoveredOk(m.core.ren, Residents(m.hist), m.hist.dead)
               else RenameOk(m.core.ren, Residents(m.hist), m.hist.dead)
  {
    hide ResidentsOk, RenameOk, RecoveredOk, Middle, Packed, FrontendStage, RenameUop, ResultOf, Allocates,
         NeedsRegister, DecodeInst;
    assert |y.hist.fates| <= |y.hist.alloc| by { ResidentsBound(y.core.rob, y.hist, false); }
    MiddleKeeps(y, i);
    if !Fetched(y.core, i).packetValid {
      IdleMiddle(y.core, i);
      RecoverKeeps(y.core, Residents(y.hist), y.hist.dead);
    } else if RobFull(y.core.rob) {
      DroppedMiddle(y.core, i);
      DroppedRename(y.core, i, Residents(y.hist), y.hist.dead);
    } else {
      PacketRename(y.core, i, Residents(y.hist), y.hist.dead);
      FlowThrough(y.core, i);
      assert Residents(MiddleSys(y, i).hist) == Residents(y.hist) + [ResultOf(y.core, PlacedUop(y.core, i))];
    }
  }

  /** A packet dropped at a full buffer leaves the maps alone if it takes no register. */
  lemma DroppedRename(s: Core, i: StepIn, rs: seq<AluResult>, dead: multiset<nat>)
    requires Fetched(s, i).packetValid && !TakesRegister(s, i) && !Redirecting(s) && RenameOk(s.ren, rs, dead)
    ensures RenameOk(RenamedUop(s, i).(valid := false), rs, dead)
  {
    hide RenameOk, FrontendStage, DecodeInst, At, Put;
    SameRename(s.ren, RenamedUop(s, i).(valid := false), rs, dead);
  }

  /** The uop a packet brings takes its registers. */
  lemma PacketRename(s: Core, i: StepIn, rs: seq<AluResult>, dead: multiset<nat>)
    requires Fetched(s, i).packetValid && SafeStep(s, i) && RenameOk(s.ren, rs, dead)
    ensures RenameOk(RenamedUop(s, i).(uop := PlacedUop(s, i)), rs + [ResultOf(s, PlacedUop(s, i))], dead)
    ensures var n := PlacedUop(s, i).rename;
            && (n.pdst != 0 ==> n.pdst < INT_PHYS_REGS && n.pdst !in Regs(s.ren.committed) && n.pdst !in Pdsts(rs))
            && (NeedsRegister(DecodeInst(Fetched(s, i).packetPc, Fetched(s, i).packetInst).rename) <==> n.pdst != 0)
  {
    hide RenameOk, FrontendStage, RenameUop, NeedsRegister, DecodeInst, AluValue, MaskForSize, RedirectTarget,
         Mispredicts, Regs, Pdsts;
    var pc, inst := Fetched(s, i).packetPc, Fetched(s, i).packetInst;
    var r := ResultOf(s, PlacedUop(s, i));
    SameRename(s.ren, Recovered(s), rs, dead);
    RenamedReady(Recovered(s), pc, inst);
    assert r.uop == PlacedUop(s, i);
    RenameKeeps(Recovered(s), rs, dead, pc, inst, r);
    SameRename(RenamedUop(s, i), RenamedUop(s, i).(uop := PlacedUop(s, i)), rs + [r], dead);
  }

  // ---- The room is needed

  /** Taking a register with fewer than two slots counted, or for a uop that is not allocated, breaks the free
      list or loses the register. */
  lemma TakenIsLost(ren: Rename, rs: seq<AluResult>, dead: multiset<nat>)
    requires Conserved(ren, rs, dead)
    ensures !Conserved(Taken(ren), rs, dead) && (ren.count < 2 ==> !FreeListOk(Taken(ren)))
  {
    if ren.count >= 2 {
      FreeTake(ren);
      assert |multiset(Free(Taken(ren))) + Regs(ren.committed) + Pdsts(rs) + dead|
          == |multiset(Free(ren)) + Regs(ren.committed) + Pdsts(rs) + dead| - 1;
    }
  }

  /** For a packet that takes a register the room is necessary, too: what renaming leaves is sound exactly if
      the packet finds it. */
  lemma RoomIsNeeded(y: Sys, i: StepIn)
    requires ResidentsOk(y.core.rob, y.hist, false) && !y.core.globalFlush && QueueEmpty(y.core.iss) && !Redirecting(y.core)
    requires RenameOk(y.core.ren, Residents(y.hist), y.hist.dead) && TakesRegister(y.core, i)
    ensures var m := MiddleSys(y, i);
            |m.hist.fates| <= |m.hist.alloc| && (RenameOk(m.core.ren, Residents(m.hist), m.hist.dead) <==> RoomyStep(y.core, i))
  {
    hide ResidentsOk, RenameOk, Middle, Packed, FrontendStage, RenameUop, ResultOf, Allocates, NeedsRegister,
         DecodeInst;
    ResidentsBound(y.core.rob, y.hist, false);
    if RoomyStep(y.core, i) {
      MiddleRename(y, i);
    } else {
      MiddleKeeps(y, i);
      if RobFull(y.core.rob) {
        DroppedMiddle(y.core, i);
        UnsoundRename(y.core, i, Residents(y.hist), y.hist.dead, NO_RESULT);
      } else {
        FlowThrough(y.core, i);
        UnsoundRename(y.core, i, Residents(y.hist), y.hist.dead, ResultOf(y.core, PlacedUop(y.core, i)));
      }
    }
  }

  lemma UnsoundRename(s: Core, i: StepIn, rs: seq<AluResult>, dead: multiset<nat>, r: AluResult)
    requires TakesRegister(s, i) && !Redirecting(s) && RenameOk(s.ren, rs, dead)
    ensures var q := RenamedUop(s, i);
            && !RenameOk(q.(valid := false), rs, dead)
            && (s.ren.count < 2 ==> forall u, rs' :: !RenameOk(q.(uop := u), rs', dead))
  {
    hide FrontendStage, DecodeInst, At, Put, Free, Regs, Pdsts, Pool, MapsOk;
    TakenIsLost(s.ren, rs, dead);
    var q := RenamedUop(s, i);
    SameFree(Taken(s.ren), q);
    if Conserved(q.(valid := false), rs, dead) {
      ConservedOnly(q.(valid := false), Taken(s.ren), rs, dead);
    }
  }

  lemma ResidentsBound(rob: Rob, h: Hist, raw: bool)
    requires ResidentsOk(rob, h, raw)
    ensures |h.fates| <= |h.alloc|
  {
  }

  lemma RecoverKeeps(s: Core, rs: seq<AluResult>, dead: multiset<nat>)
    requires RenameOk(s.ren, rs, dead)
    ensures if Redirecting(s) then RecoveredOk(Recovered(s), rs, dead) else RenameOk(Recovered(s), rs, dead)
  {
    hide StaleOk, Conserved;
    SameRename(s.ren, s.ren.(valid := false, uop := NO_UOP), rs, dead);
    ConservedOnly(s.ren, Recovered(s), rs, dead);
  }

  /** A redirect discards the residents' destinations. */
  lemma FlushRename(ren: Rename, h: Hist)
    requires |h.fates| <= |h.alloc| && RecoveredOk(ren, Residents(h), h.dead)
    ensures RenameOk(ren, Residents(FlushHist(h)), FlushHist(h).dead)
  {
    assert Residents(FlushHist(h)) == [];
  }

  /** Only a committing uop changes the rename state at commit. */
  lemma CommitHeadRename(b: Core, i: StepIn)
    ensures var a := HeadActionOf(b, i);
            CommitHead(b, i).ren == if a.Retires? || a.SendsStore? then CommitMapping(b.ren, EntryAt(b.rob, b.rob.head).uop.rename)
                                    else b.ren
  {
    hide HeadActionOf, PopHead, CommitRecord, CommitMapping, StoreRequest;
    if HeadActionOf(b, i).SendsStore? {
      assert EntryAt(SendStore(b).rob, b.rob.head).uop == EntryAt(b.rob, b.rob.head).uop;
    }
  }

  lemma CommitMaps(ren: Rename, rs: seq<AluResult>, dead: multiset<nat>)
    requires RenameOk(ren, rs, dead) && rs != []
    ensures RenameOk(CommitMapping(ren, rs[0].uop.rename), rs[1..], dead)
  {
    hide Overlay, CommitMapping;
    MapsCommit(ren, rs);
    ConservedCommit(ren, rs, dead);
    hide Conserved;
    MapsOnly(ren.(committed := Mapped(ren.committed, rs[0].uop.rename)), CommitMapping(ren, rs[0].uop.rename), rs[1..]);
  }

  /** An ECALL leaves without a trace in the maps. */
  lemma EcallMaps(ren: Rename, rs: seq<AluResult>, dead: multiset<nat>)
    requires RenameOk(ren, rs, dead) && rs != [] && rs[0].uop.uopc == UOPC_ECALL
    ensures RenameOk(ren, rs[1..], dead)
  {
    hide Overlay;
    assert DestinationOk(rs[0].uop);
    MapsCommit(ren, rs);
    assert Pdsts(rs) == Pdsts(rs[1..]) by { PdstsHead(rs); }
  }

  lemma CommitHeadKeepsRename(b: Core, h: Hist, i: StepIn, raw: bool, ce: CommitEntry)
    requires ResidentsOk(b.rob, h, raw) && RenameOk(b.ren, Residents(h), h.dead)
    ensures var h' := RetireHist(b, h, i, ce); |h'.fates| <= |h'.alloc| && RenameOk(CommitHead(b, i).ren, Residents(h'), h'.dead)
  {
    hide RobOk, WindowOk, ResultOk, Window, RenameOk, CommitHead, HeadActionOf, CommitMapping, StoreEvent;
    CommitHeadRename(b, i);
    if Leaves(HeadActionOf(b, i)) {
      HeadCases(b, h, i, raw);
      var rs, h' := Residents(h), RetireHist(b, h, i, ce);
      assert Residents(h') == rs[1..];
      if HeadActionOf(b, i).RetiresEcall? {
        EcallMaps(b.ren, rs, h.dead);
      } else {
        CommitMaps(b.ren, rs, h.dead);
        SameRegisters(EntryAt(b.rob, b.rob.head), rs[0]);
      }
    }
  }

  lemma SameRegisters(e: RobEntry, r: AluResult)
    requires SettledEntry(e, r)
    ensures e.uop.rename == r.uop.rename
  {
  }

  // ---- Every run

  /** Every step of the run meets the side conditions. */
  ghost predicate SafeRun(run: Run, n: nat) {
    forall k :: 0 <= k < n ==> SafeStep(AtFetch(run(k).sys, run(k).input).core, run(k).input)
  }

  ghost predicate RenameSound(y: Sys) { |y.hist.fates| <= |y.hist.alloc| && RenameOk(y.core.ren, Residents(y.hist), y.hist.dead) }

  lemma AtFetchRename(y: Sys, i: StepIn)
    ensures AtFetch(y, i).core.ren == y.core.ren && AtFetch(y, i).hist.dead == y.hist.dead
    ensures Redirecting(AtFetch(y, i).core) <==> WantsRedirect(y.core.alu)
    ensures AtFetch(y, i).core.br.target == AfterBranch(y.core).br.target
  {
    hide AfterBranch, LsuRespond, LsuEnqueue, LsuIssue, IssuesLoad, LoadEvent, FirstLoad;
    var a := AfterBranch(y.core);
    BranchFrame(y.core);
    RespondFrame(a, i.dmemResp);
    EnqueueFrame(LsuRespond(a, i.dmemResp));
    LsuIssueFrame(LsuReady(a, i), i);
  }

  lemma StepRename(y: Sys, i: StepIn)
    requires Sound(y) && RenameSound(y) && SafeStep(AtFetch(y, i).core, i)
    ensures RenameSound(SysStep(y, i))
  {
    hide ResidentsOk, IsYoungest, Packed, AtFetch, Middle, Allocates, Complete, CommitHead, SafeStep, RenameOk,
         RecoveredOk, RetireHist, FlushHist;
    var l := AtFetch(y, i);
    LsuKeeps(y, i);
    AtFetchRename(y, i);
    assert Residents(l.hist) == Residents(y.hist);
    MiddleKeeps(l, i);
    MiddleRename(l, i);
    MiddleFrame(l.core, i);
    var m := MiddleSys(l, i);
    CommitFrame(m.core, i);
    if Redirecting(l.core) {
      FlushRename(m.core.ren, m.hist);
      FlushKeeps(m.core.rob, m.hist, m.core.alu.valid, false);
    } else {
      CompleteKeeps(m.core, m.hist);
      CompleteFrame(m.core.(rob := m.core.rob.(commitValid := false)));
      CommitHeadKeepsRename(BeforeCommitHead(m.core), m.hist, i, Unsettled(m.core.alu), CommitStage(m.core, i).rob.lastCommit);
    }
  }

  lemma {:induction false} RunIsRenameSound(run: Run, n: nat)
    requires SafeRun(run, n)
    ensures RenameSound(run(n).sys)
  {
    hide SysStep, RenameSound, Sound, SafeStep, AtFetch, Reset;
    if n == 0 {
      RunStart(run);
      assert RenameSound(Reset()) by { ResetRenameSound(); }
    } else {
      RunStep(run, n - 1);
      RunIsRenameSound(run, n - 1);
      RunIsSound(run, n - 1);
      StepRename(run(n - 1).sys, run(n - 1).input);
    }
  }

  lemma ResetRenameSound()
    ensures RenameSound(Reset())
  {
    var ren := ResetRename();
    assert Free(ren) == seq(INT_PHYS_REGS - 2, k => k + 1);
    assert Regs(ren.committed) == multiset{} by {
      assert forall p :: p in ren.committed ==> p == 0;
    }
  }

  // ---- The main results

  /** No two registers are mapped to the same physical register. */
  ghost predicate Injective(t: seq<nat>) {
    forall a, b :: 0 <= a < b < |t| && t[a] != 0 ==> t[a] != t[b]
  }

  lemma Twice(t: seq<nat>, a: nat, b: nat)
    requires a < b < |t| && t[a] == t[b]
    ensures multiset(t)[t[a]] >= 2
  {
    assert t == t[..a] + [t[a]] + t[a + 1..b] + [t[b]] + t[b + 1..];
  }

  lemma OnceInjective(t: seq<nat>)
    requires Regs(t) <= Pool()
    ensures Injective(t)
  {
    forall a, b | 0 <= a < b < |t| && t[a] != 0
      ensures t[a] != t[b]
    {
      PoolIsSet(t[a]);
      assert Regs(t)[t[a]] == multiset(t)[t[a]] <= 1;
      if t[a] == t[b] {
        Twice(t, a, b);
      }
    }
  }

  /** The overlaid map mentions only committed registers and destinations in flight. */
  lemma {:induction false} OverlayRegs(t: seq<nat>, rs: seq<AluResult>)
    requires |t| == LOGICAL_REG_COUNT && forall k :: 0 <= k < |rs| ==> DestinationOk(rs[k].uop)
    ensures Regs(Overlay(t, rs)) <= Regs(t) + Pdsts(rs)
  {
    if rs != [] {
      var n := |rs| - 1;
      OverlayRegs(t, rs[..n]);
      assert rs == rs[..n] + [rs[n]];
      PdstsAdd(rs[..n], rs[n]);
      var o, u := Overlay(t, rs[..n]), rs[n].uop.rename;
      if u.pdst != 0 {
        RegsUpdate(o, u.ldst, u.pdst);
        assert Regs(Overlay(t, rs)) <= Regs(o) + Single(u.pdst);
      }
    }
  }

  /** At every step boundary of a run within the side conditions: the speculative map is the committed
      map overlaid with the destinations in flight, each uop in flight remembers the mapping just
      before it, both maps are injective, the free list's tail trails its head and count by one, and the
      free, committed, in-flight and discarded registers together are 1 to 50, each once. */
  ghost predicate RenamingSound(y: Sys) {
    && |y.hist.fates| <= |y.hist.alloc|
    && var ren, rs := y.core.ren, Residents(y.hist);
    && ren.table == Overlay(ren.committed, rs) && StaleOk(ren.committed, rs)
    && Injective(ren.table) && Injective(ren.committed)
    && FreeListOk(ren) && ren.tail == (ren.head + ren.count - 1) % INT_PHYS_REGS
    && multiset(Free(ren)) + Regs(ren.committed) + Pdsts(rs) + y.hist.dead == Pool()
    && ren.count == 1 + |Pool()| - |Regs(ren.committed)| - |Pdsts(rs)| - |y.hist.dead|
  }

  lemma RenamingIsSound(run: Run, n: nat)
    requires SafeRun(run, n)
    ensures RenamingSound(run(n).sys)
  {
    hide SafeRun, Pool, Regs, StaleOk;
    RunIsRenameSound(run, n);
    var ren, rs, dead := run(n).sys.core.ren, Residents(run(n).sys.hist), run(n).sys.hist.dead;
    OverlayRegs(ren.committed, rs);
    assert Regs(ren.committed) + Pdsts(rs) <= multiset(Free(ren)) + Regs(ren.committed) + Pdsts(rs) + dead;
    OnceInjective(ren.committed);
    OnceInjective(ren.table);
    PoolSize();
    assert |multiset(Free(ren)) + Regs(ren.committed) + Pdsts(rs) + dead| == (ren.count - 1) + |Regs(ren.committed)| + |Pdsts(rs)| + |dead|;
  }

  lemma RedirectEmpties(y: Sys, i: StepIn)
    requires Sound(y) && WantsRedirect(y.core.alu)
    ensures RobEmpty(SysStep(y, i).core.rob) && |SysStep(y, i).hist.fates| == |SysStep(y, i).hist.alloc|
  {
    hide ResidentsOk, IsYoungest, Packed, AtFetch, Middle, Allocates, RetireHist, FlushHist;
    LsuKeeps(y, i);
    AtFetchRename(y, i);
    var l := AtFetch(y, i);
    MiddleKeeps(l, i);
    MiddleFrame(l.core, i);
    var m := MiddleSys(l, i);
    FlushKeeps(m.core.rob, m.hist, m.core.alu.valid, false);
  }

  // ---- The committed map in every run

  /** The map of a core that has committed nothing. */
  function NoneMapped(): seq<nat> { seq(LOGICAL_REG_COUNT, _ => 0) }

  /** The committed map is the overlay, in program order, of the destinations of the committed uops. */
  ghost predicate CommittedIs(ren: Rename, h: Hist) {
    |h.fates| <= |h.alloc| && ren.committed == Overlay(NoneMapped(), CommittedUops(h.alloc, h.fates))
  }

  lemma OverlayOne(t: seq<nat>, rs: seq<AluResult>, r: AluResult)
    ensures Overlay(t, rs + [r]) == Mapped(Overlay(t, rs), r.uop.rename)
  {
    assert (rs + [r])[..|rs|] == rs;
  }

  /** Fetch to execute touches only the speculative map. */
  lemma MiddleCommitted(s: Core, i: StepIn)
    requires !s.globalFlush && QueueEmpty(s.iss)
    ensures Middle(s, i).ren.committed == s.ren.committed
  {
    hide Packed, Middle, FrontendStage, RenamedUop, ResultOf, PlacedUop, FreshEntry, WrittenBack;
    RenameKeepsCommitted(s, i);
    if !Fetched(s, i).packetValid {
      IdleMiddle(s, i);
    } else if RobFull(s.rob) {
      DroppedMiddle(s, i);
    } else {
      FlowThrough(s, i);
    }
  }

  lemma RenameKeepsCommitted(s: Core, i: StepIn)
    ensures RenamedUop(s, i).committed == s.ren.committed
  {
    hide DecodeInst, FrontendStage, At, Put;
  }

  lemma CommittedAfter(ren: Rename, n: RenameInfo)
    ensures CommitMapping(ren, n).committed == Mapped(ren.committed, n)
  {
  }

  lemma HeadCommits(b: Core, h: Hist, i: StepIn, raw: bool, ce: CommitEntry)
    requires ResidentsOk(b.rob, h, raw) && CommittedIs(b.ren, h)
    ensures CommittedIs(CommitHead(b, i).ren, RetireHist(b, h, i, ce))
  {
    hide RobOk, WindowOk, ResultOk, Window, CommitHead, HeadActionOf, CommitMapping, StoreEvent, Overlay, Mapped,
         CommittedUops, SettledEntry, EntryAt;
    CommitHeadRename(b, i);
    ResidentsBound(b.rob, h, raw);
    if Leaves(HeadActionOf(b, i)) {
      HeadCases(b, h, i, raw);
      var r, e := h.alloc[|h.fates|], EntryAt(b.rob, b.rob.head);
      assert r == Residents(h)[0];
      if HeadActionOf(b, i).RetiresEcall? {
        OneMoreFate(h.alloc, h.fates, EcallRetired);
        assert CommittedUops(h.alloc, h.fates) + [] == CommittedUops(h.alloc, h.fates);
      } else {
        SameRegisters(e, r);
        OneMoreFate(h.alloc, h.fates, Committed);
        OverlayOne(NoneMapped(), CommittedUops(h.alloc, h.fates), r);
        CommittedAfter(b.ren, e.uop.rename);
      }
    }
  }

  lemma FlushCommitted(ren: Rename, h: Hist)
    requires CommittedIs(ren, h)
    ensures CommittedIs(ren, FlushHist(h))
  {
    hide Overlay, Pdsts;
    FlushedAddNone(h.alloc, h.fates, |h.alloc| - |h.fates|);
  }

  lemma StepCommitted(y: Sys, i: StepIn)
    requires Sound(y) && CommittedIs(y.core.ren, y.hist)
    ensures CommittedIs(SysStep(y, i).core.ren, SysStep(y, i).hist)
  {
    hide ResidentsOk, IsYoungest, Packed, AtFetch, Middle, Allocates, Complete, CommitHead, RetireHist, FlushHist,
         Overlay, CommittedUops;
    var l := AtFetch(y, i);
    LsuKeeps(y, i);
    AtFetchRename(y, i);
    MiddleKeeps(l, i);
    MiddleCommitted(l.core, i);
    var m := MiddleSys(l, i);
    CommittedUopsExtend(l.hist.alloc, [m.core.alu], l.hist.fates);
    CommitFrame(m.core, i);
    if Redirecting(m.core) {
      FlushCommitted(m.core.ren, m.hist);
    } else {
      CompleteKeeps(m.core, m.hist);
      CompleteFrame(m.core.(rob := m.core.rob.(commitValid := false)));
      HeadCommits(BeforeCommitHead(m.core), m.hist, i, Unsettled(m.core.alu), CommitStage(m.core, i).rob.lastCommit);
    }
  }

  lemma ResetCommitted()
    ensures CommittedIs(Reset().core.ren, Reset().hist)
  {
    assert CommittedUops([], []) == [];
  }

  /** In every run, whatever was dropped, flushed or discarded, the committed map is what the committed
      uops alone have made of it, in program order. */
  lemma {:induction false} CommittedMapIsHistory(run: Run, n: nat)
    ensures CommittedIs(run(n).sys.core.ren, run(n).sys.hist)
  {
    hide SysStep, Sound, CommittedIs, Reset;
    if n == 0 {
      RunStart(run);
      ResetCommitted();
    } else {
      RunStep(run, n - 1);
      CommittedMapIsHistory(run, n - 1);
      RunIsSound(run, n - 1);
      StepCommitted(run(n - 1).sys, run(n - 1).input);
    }
  }
}
