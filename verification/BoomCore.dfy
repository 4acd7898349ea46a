/** The core as its modules update it in place: one method per module, called in turn by the step, each
    proved to be the stage function it implements. */
module BoomCore {
  import opened BoomTypes
  import opened Decode
  import opened Execute
  import opened Pipeline
  import opened CoreParts
  import opened History

  /** The streams the core writes, as everything written so far. */
  class PipeSignals {
    var imem: seq<ImemRequest>
    var dmem: seq<DmemRequest>
    var trace: seq<CommitEntry>

    constructor ()
      ensures imem == [] && dmem == [] && trace == []
    {
      imem, dmem, trace := [], [], [];
    }
  }

  /** The frontend stage, inside and outside an exception. */
  lemma FrontendCases(s: Core, i: StepIn)
    ensures s.rob.state == RobException ==>
              FrontendStage(s, i) == s.(fe := FetchRedirect(s.fe, s.br, s.globalFlush).(packetValid := false),
                                        globalFlush := s.globalFlush && !(s.br.valid && s.br.mispredict))
    ensures s.rob.state != RobException ==>
              var f1 := FetchRedirect(s.fe, s.br, s.globalFlush);
              var f2 := FetchFlush(f1, s.br);
              FrontendStage(s, i) == s.(fe := FetchPacket(FetchAccept(FetchRequest(f2, i.imemRoom), i.imemResp)),
                                        globalFlush := s.globalFlush && !(s.br.valid && s.br.mispredict) && !f1.flush,
                                        imemLog := if !f2.requestSent && i.imemRoom then s.imemLog + [ImemRequest(f2.pc, f2.fetchId)] else s.imemLog)
  {
    hide FetchRedirect, FetchFlush, FetchRequest, FetchAccept, FetchPacket;
  }

  class BoomCoreState {
    const maps: RegisterMaps
    const queue: IssueUnit
    const rob: ReorderBuffer
    const pipe: PipeSignals
    const rf: array<bv64>
    var fe: Frontend
    var dec: Decoded
    var alu: AluResult
    var lsu: Lsu
    var br: BranchUpdate
    var globalFlush: bool
    var ioSuccess: bool
    var ioTrap: bool
    var cycle: nat
    var instret: nat
    var tohost: bv64

    ghost predicate Valid()
      reads this, maps, queue, rob
    {
      maps.Valid() && queue.Valid() && rob.Valid() && rf.Length == INT_PHYS_REGS && Separate()
    }

    /** The arrays do not overlap. */
    ghost predicate Separate() {
      && (rf as object) != rob.entries && (rf as object) != queue.slots
      && (rf as object) != maps.mapTable && (rf as object) != maps.committedMap && (rf as object) != maps.freeList
    }

    ghost function Regs(): seq<bv64>
      reads rf
    {
      rf[..]
    }

    /** The abstract state. */
    ghost function Snap(): Core
      reads this, maps, maps.mapTable, maps.committedMap, maps.freeList, queue, queue.slots, rob, rob.entries, pipe, rf
    {
      Core(fe, dec, maps.Snap(), queue.Snap(), alu, rob.Snap(), lsu, Regs(), br,
           globalFlush, ioSuccess, ioTrap, cycle, instret, tohost, pipe.imem, pipe.dmem, pipe.trace)
    }

    constructor ()
      ensures Valid() && Snap() == ResetCore()
      ensures fresh(maps) && fresh(maps.mapTable) && fresh(maps.committedMap) && fresh(maps.freeList)
      ensures fresh(queue) && fresh(queue.slots) && fresh(rob) && fresh(rob.entries) && fresh(pipe) && fresh(rf)
    {
      maps := new RegisterMaps();
      queue := new IssueUnit();
      rob := new ReorderBuffer();
      pipe := new PipeSignals();
      rf := new bv64[INT_PHYS_REGS](_ => 0);
      fe := Frontend(RESET_VECTOR, false, false, 0, 0, false, 0, 0, false, false, 0, 0);
      dec, alu, lsu, br := Decoded(false, NO_UOP), NO_RESULT, Lsu(1, false, 0, 0), BranchUpdate(false, false, 0);
      globalFlush, ioSuccess, ioTrap, cycle, instret, tohost := false, false, false, 0, 0, 0;
    }

    // ---- Register file

    method ReadRf(p: nat) returns (v: bv64)
      ensures v == ReadReg(Regs(), p)
    {
      v := if p != 0 && p < rf.Length then rf[p] else 0;
    }

    method WriteRf(p: nat, v: bv64)
      modifies rf
      ensures Regs() == WriteReg(old(Regs()), p, v)
    {
      if p != 0 && p < rf.Length {
        rf[p] := v;
      }
    }

    // ---- Start of step, counters, branch

    method ClearFlags()
      modifies `globalFlush, `ioSuccess, `ioTrap, `br
      ensures Snap() == BeginStep(old(Snap()))
    {
      hide Regs, RegisterMaps.Snap, IssueUnit.Snap, ReorderBuffer.Snap;
      globalFlush, ioSuccess, ioTrap, br := false, false, false, br.(valid := false, mispredict := false);
    }

    method CsrModule()
      modifies `cycle
      ensures Snap() == CsrStage(old(Snap()))
    {
      hide Regs, RegisterMaps.Snap, IssueUnit.Snap, ReorderBuffer.Snap;
      cycle := cycle + 1;
    }

    method BranchModule()
      modifies `br
      ensures Snap() == BranchStage(old(Snap()))
    {
      hide Regs, RegisterMaps.Snap, IssueUnit.Snap, ReorderBuffer.Snap;
      if alu.valid {
        if alu.mispredict && (alu.uop.branch.isBr || alu.uop.branch.isJal || alu.uop.branch.isJalr) {
          br := BranchUpdate(true, true, alu.redirectPc);
        }
      }
    }

    // ---- Load/store unit

    /** Hands an answer to the waiting entry. */
    method Deliver(idx: nat, e: RobEntry, resp: DmemResponse)
      requires Valid()
      modifies rob.entries, rf
      ensures Valid() && rob.Snap() == SetEntry(old(rob.Snap()), idx, DeliveredEntry(e, resp))
      ensures Regs() == if resp.exception then old(Regs()) else WriteReg(old(Regs()), e.uop.rename.pdst, LoadedValue(e, resp))
    {
      hide Regs, ReorderBuffer.Snap, LoadValue, WriteReg, SetEntry;
      if resp.exception {
        rob.Set(idx, e.(exception := true, uop := e.uop.(exception := true), completed := true, busy := false));
      } else {
        var data := if resp.readData != 0 then resp.readData else resp.data;
        var value := LoadValue(data, e.address, e.size, e.signedLoad);
        WriteRf(e.uop.rename.pdst, value);
        rob.Set(idx, e.(data := value, completed := true, busy := false));
      }
    }

    method Respond(resp: Option<DmemResponse>)
      requires Valid()
      modifies `lsu, rob.entries, rf
      ensures Valid() && Snap() == LsuRespond(old(Snap()), resp)
    {
      hide Regs, RegisterMaps.Snap, IssueUnit.Snap, ReorderBuffer.Snap, LoadedValue, DeliveredEntry, WriteReg,
           SetEntry, EntryAt;
      if resp.Some? && lsu.pending && resp.value.txId == lsu.pendingTx {
        var e := rob.Get(lsu.pendingIdx);
        if e.valid && e.isLoad && e.requestSent {
          Deliver(lsu.pendingIdx, e, resp.value);
        }
        lsu := lsu.(pending := false, pendingTx := 0);
      }
    }

    method Enqueue()
      requires Valid()
      modifies rob.entries
      ensures Valid() && Snap() == LsuEnqueue(old(Snap()))
    {
      hide Regs, RegisterMaps.Snap, IssueUnit.Snap, ReorderBuffer.Snap, SetEntry, EntryAt;
      var idx := alu.uop.robIdx;
      var e := rob.Get(idx);
      if !alu.valid || !alu.memoryValid || idx >= ROB_DEPTH || !e.valid {
        return;
      }
      if alu.isStore {
        rob.Set(idx, e.(memoryValid := true, isStore := true, isLoad := false, completed := true,
                        address := alu.address, data := alu.storeData, mask := alu.mask, size := alu.size, busy := false));
      } else if alu.isLoad {
        rob.Set(idx, e.(memoryValid := true, isLoad := true, isStore := false, signedLoad := alu.signedLoad,
                        address := alu.address, mask := alu.mask, size := alu.size));
      }
    }

    method TryIssueLoad(idx: nat, room: bool) returns (issued: bool)
      requires Valid() && idx < ROB_DEPTH
      modifies `lsu, pipe`dmem, rob.entries
      ensures Valid() && issued == (!old(lsu.pending) && room && CanIssueLoad(old(rob.Snap()), idx))
      ensures Snap() == if issued then IssueLoad(old(Snap()), idx) else old(Snap())
      ensures lsu.pending == (old(lsu.pending) || issued)
    {
      hide Regs, RegisterMaps.Snap, IssueUnit.Snap, ReorderBuffer.Snap, SetEntry, EntryAt, OlderStoreInRob;
      issued := false;
      var e := rob.Get(idx);
      if !e.valid || !e.isLoad || !e.memoryValid || e.requestSent {
        return;
      }
      var older := rob.HasOlderStore(idx);
      if lsu.pending || older || !room {
        return;
      }
      var tx := lsu.nextTx;
      var req := DmemRequest(tx, idx, false, false, e.signedLoad, e.address, 0, e.size, e.mask);
      pipe.dmem := pipe.dmem + [req];
      rob.Set(idx, e.(requestSent := true, txId := tx));
      lsu := Lsu(tx + 1, true, tx, idx);
      issued := true;
    }

    method IssueLoads(i: StepIn)
      requires Valid()
      modifies `lsu, pipe`dmem, rob.entries
      ensures Valid() && Snap() == LsuIssue(old(Snap()), i)
    {
      hide Regs, RegisterMaps.Snap, IssueUnit.Snap, CanIssueLoad, FirstLoad, IssueLoad;
      ghost var r := rob.Snap();
      for k := 0 to ROB_DEPTH
        invariant Valid() && Snap() == old(Snap())
        invariant k > 0 ==> !lsu.pending
        invariant i.loadRoom ==> forall j :: 0 <= j < k ==> !CanIssueLoad(r, NthSlot(r, j))
      {
        var idx := (rob.head + k) % ROB_DEPTH;
        assert idx == NthSlot(r, k);
        var issued := TryIssueLoad(idx, i.loadRoom);
        if issued {
          FirstLoadIs(r, k);
        }
        if lsu.pending {
          return;
        }
      }
      if i.loadRoom {
        FirstLoadIs(r, ROB_DEPTH);
      }
    }

    method LsuModule(i: StepIn)
      requires Valid()
      modifies `lsu, pipe`dmem, rob.entries, rf
      ensures Valid() && Snap() == LsuStage(old(Snap()), i)
    {
      hide Regs, RegisterMaps.Snap, IssueUnit.Snap, ReorderBuffer.Snap, LsuRespond, LsuEnqueue, LsuIssue;
      if globalFlush {
        lsu := lsu.(pending := false, pendingTx := 0, pendingIdx := 0);
        return;
      }
      Respond(i.dmemResp);
      Enqueue();
      IssueLoads(i);
    }
  
    // ---- Frontend

    /** Reset and redirect. */
    method Redirected() returns (f: Frontend)
      ensures f == FetchRedirect(fe, br, globalFlush)
    {
      hide Align4;
      f := fe;
      if globalFlush {
        f := f.(flush := true, requestSent := false, packetValid := false);
      }
      if !f.resetDone {
        f := f.(pc := RESET_VECTOR, fetchId := 0, resetDone := true, requestSent := false);
      }
      if br.valid && br.mispredict {
        f := f.(pc := Align4(br.target), requestSent := false, responseReceived := false, packetValid := false, flush := false);
      }
    }

    /** A pending flush, and the retirement of the packet handed over before. */
    method Unflushed(f0: Frontend) returns (f: Frontend)
      ensures f == FetchFlush(f0, br)
    {
      hide Align4;
      f := f0;
      if f.flush {
        f := f.(pc := if br.valid then Align4(br.target) else f.pc, requestSent := false, responseReceived := false,
                packetValid := false, flush := false);
      }
      if !f.requestSent && f.packetValid {
        f := f.(responseReceived := false, packetValid := false);
      }
    }

    method Request(f0: Frontend, room: bool) returns (f: Frontend)
      modifies pipe`imem
      ensures f == FetchRequest(f0, room)
      ensures pipe.imem == if !f0.requestSent && room then old(pipe.imem) + [ImemRequest(f0.pc, f0.fetchId)] else old(pipe.imem)
    {
      f := f0;
      if !f.requestSent && room {
        pipe.imem := pipe.imem + [ImemRequest(f.pc, f.fetchId)];
        f := f.(pendingId := f.fetchId, fetchId := f.fetchId + 1, requestSent := true);
      }
    }

    method Receive(f0: Frontend, resp: Option<ImemResponse>) returns (f: Frontend)
      ensures f == FetchAccept(f0, resp)
    {
      f := f0;
      if resp.Some? && f.requestSent && resp.value.fetchId == f.pendingId {
        f := f.(respAddress := resp.value.address, respInst := resp.value.instruction, responseReceived := true, requestSent := false);
      }
    }

    method HandOver(f0: Frontend) returns (f: Frontend)
      ensures f == FetchPacket(f0)
    {
      hide Plus4;
      f := f0.(packetValid := false);
      if f.responseReceived && !f.requestSent {
        f := f.(packetPc := f.respAddress, packetInst := f.respInst, packetValid := true, pc := Plus4(f.respAddress), responseReceived := false);
      }
    }

    /** Flush, request, response and packet. */
    method Fetch(f0: Frontend, i: StepIn) returns (f: Frontend)
      modifies pipe`imem
      ensures f == FetchPacket(FetchAccept(FetchRequest(FetchFlush(f0, br), i.imemRoom), i.imemResp))
      ensures var f2 := FetchFlush(f0, br);
              pipe.imem == if !f2.requestSent && i.imemRoom then old(pipe.imem) + [ImemRequest(f2.pc, f2.fetchId)] else old(pipe.imem)
    {
      hide FetchFlush, FetchRequest, FetchAccept, FetchPacket;
      f := Unflushed(f0);
      f := Request(f, i.imemRoom);
      f := Receive(f, i.imemResp);
      f := HandOver(f);
    }

    /** The rest of the frontend's work outside an exception. */
    method FetchNormally(f0: Frontend, i: StepIn)
      modifies `fe, `globalFlush, pipe`imem
      ensures var s := old(Snap()); var f2 := FetchFlush(f0, s.br);
              Snap() == s.(fe := FetchPacket(FetchAccept(FetchRequest(f2, i.imemRoom), i.imemResp)),
                           globalFlush := s.globalFlush && !(s.br.valid && s.br.mispredict) && !f0.flush,
                           imemLog := if !f2.requestSent && i.imemRoom then s.imemLog + [ImemRequest(f2.pc, f2.fetchId)] else s.imemLog)
    {
      hide Regs, RegisterMaps.Snap, IssueUnit.Snap, ReorderBuffer.Snap, FetchFlush, FetchRequest, FetchAccept,
           FetchPacket;
      SettleFlush(f0.flush);
      fe := Fetch(f0, i);
    }

    /** A redirect, or the frontend's own flush, takes up a pending global one. */
    method SettleFlush(flushed: bool)
      modifies `globalFlush
      ensures var s := old(Snap()); Snap() == s.(globalFlush := s.globalFlush && !(s.br.valid && s.br.mispredict) && !flushed)
    {
      hide Regs, RegisterMaps.Snap, IssueUnit.Snap, ReorderBuffer.Snap;
      globalFlush := globalFlush && !(br.valid && br.mispredict) && !flushed;
    }

    /** A trapped core fetches nothing. */
    method FetchNothing(f0: Frontend)
      modifies `fe, `globalFlush
      ensures var s := old(Snap());
              Snap() == s.(fe := f0.(packetValid := false), globalFlush := s.globalFlush && !(s.br.valid && s.br.mispredict))
    {
      hide Regs, RegisterMaps.Snap, IssueUnit.Snap, ReorderBuffer.Snap;
      SettleFlush(false);
      fe := f0.(packetValid := false);
    }

    method FrontendModule(i: StepIn)
      modifies `fe, `globalFlush, pipe`imem
      ensures Snap() == FrontendStage(old(Snap()), i)
    {
      rob.Fields();
      hide Regs, RegisterMaps.Snap, IssueUnit.Snap, ReorderBuffer.Snap, FetchRedirect, FetchFlush, FetchRequest,
           FetchAccept, FetchPacket, FrontendStage;
      ghost var s := Snap();
      FrontendCases(s, i);
      var f := Redirected();
      if rob.state == RobException {
        FetchNothing(f);
      } else {
        FetchNormally(f, i);
      }
    }

    // ---- Decode, rename, allocation

    method DecodeModule()
      modifies `dec
      ensures Snap() == DecodeStage(old(Snap()))
    {
      hide Regs, RegisterMaps.Snap, IssueUnit.Snap, ReorderBuffer.Snap, DecodeInst;
      var d := dec.(valid := false);
      if !globalFlush && fe.packetValid {
        d := Decoded(true, DecodeInst(fe.packetPc, fe.packetInst));
      }
      dec := d;
    }

    method RenameModule()
      requires Valid()
      modifies maps, maps.mapTable
      ensures Valid() && Snap() == RenameStage(old(Snap()))
    {
      hide Regs, RegisterMaps.Snap, IssueUnit.Snap, ReorderBuffer.Snap, RenameUop;
      maps.Clear();
      if globalFlush {
        return;
      }
      if br.valid && br.mispredict {
        maps.Recover();
      }
      if dec.valid {
        maps.RenameOne(dec.uop);
      }
    }

    /** The renamed uop gets the slot at the tail. */
    method Allocate()
      requires Valid()
      modifies maps`uop, rob`tail, rob`maybeFull, rob.entries
      ensures Valid()
      ensures var u := old(maps.uop).(robIdx := old(rob.tail));
              rob.Snap() == PushEntry(old(rob.Snap()), FreshEntry(u)) && maps.Snap() == old(maps.Snap()).(uop := u)
    {
      hide RegisterMaps.Snap, ReorderBuffer.Snap, PushEntry;
      var u := maps.uop.(robIdx := rob.tail);
      maps.Place(rob.tail);
      rob.Push(RobEntry(true, true, u.exception, u, false, false, false, false, false, false, 0, 0, 0, 0, 0));
    }

    method StartRob()
      requires Valid()
      modifies rob`state
      ensures var s := old(Snap()); Valid() && Snap() == s.(rob := if s.rob.state == RobInit then s.rob.(state := RobNormal) else s.rob)
    {
      hide Regs, RegisterMaps.Snap, IssueUnit.Snap, ReorderBuffer.Snap;
      rob.Start();
    }

    method RobAllocate()
      requires Valid()
      modifies maps`valid, maps`uop, rob`state, rob`tail, rob`maybeFull, rob.entries
      ensures Valid() && Snap() == AllocateStage(old(Snap()))
    {
      hide Regs, RegisterMaps.Snap, IssueUnit.Snap, ReorderBuffer.Snap, PushEntry, FreshEntry;
      StartRob();
      maps.Fields();
      rob.Fields();
      if globalFlush || !maps.valid {
      } else if rob.head == rob.tail && rob.maybeFull {
        maps.Drop();
      } else if maps.uop.uopc != 0 {
        Allocate();
      }
    }

    // ---- Issue and execute

    method IssueModule()
      requires Valid()
      modifies queue, queue.slots
      ensures Valid() && Snap() == IssueStage(old(Snap()))
    {
      hide Regs, RegisterMaps.Snap, IssueUnit.Snap, ReorderBuffer.Snap, Compact, Select, Dispatch, ClearSlots;
      maps.Fields();
      queue.Step(globalFlush, maps.valid, maps.uop, maps.Snap());
    }

    /** The result of the issued uop, written back unless it is a load. */
    method Evaluate(u: MicroOp) returns (r: AluResult)
      requires Valid()
      modifies rf
      ensures r == ExecUop(u, ReadReg(old(Regs()), u.rename.prs1), ReadReg(old(Regs()), u.rename.prs2))
      ensures Regs() == if WritesRegister(r) then WriteReg(old(Regs()), u.rename.pdst, r.result) else old(Regs())
    {
      hide Regs, ExecUop, WriteReg, ReadReg;
      var rs1 := ReadRf(u.rename.prs1);
      var rs2 := ReadRf(u.rename.prs2);
      r := ExecUop(u, rs1, rs2);
      if !r.isLoad && r.uop.rename.dst == DstInt && r.uop.rename.pdst != 0 {
        WriteRf(u.rename.pdst, r.result);
      }
    }

    method ExecuteModule()
      requires Valid()
      modifies `alu, rf
      ensures Valid() && Snap() == ExecuteStage(old(Snap()))
    {
      hide Regs, RegisterMaps.Snap, IssueUnit.Snap, ReorderBuffer.Snap, ExecUop, WriteReg, ReadReg, WritesRegister;
      queue.Fields();
      if queue.valid {
        alu := Evaluate(queue.uop);
      } else {
        alu := NO_RESULT;
      }
    }

    // ---- Commit

    /** A result that touches no memory completes its entry. */
    method CompleteResult()
      requires Valid()
      modifies rob.entries
      ensures Valid() && Snap() == Complete(old(Snap()))
    {
      hide Regs, RegisterMaps.Snap, IssueUnit.Snap, ReorderBuffer.Snap, SetEntry, EntryAt;
      if !alu.valid || alu.memoryValid || alu.isLoad || alu.isStore || alu.uop.ctrl.isLoad || alu.uop.ctrl.isSta {
        return;
      }
      var idx := alu.uop.robIdx;
      var e := rob.Get(idx);
      if idx < ROB_DEPTH && e.valid {
        rob.Set(idx, e.(busy := false, exception := e.exception || alu.exception));
      }
    }

    /** ECALL: success is told from a0, read through the speculative map. */
    method RetireCall()
      requires Valid()
      modifies `ioSuccess, `ioTrap, rob, rob.entries
      ensures Valid() && Snap() == RetireEcall(old(Snap()))
    {
      hide Regs, RegisterMaps.Snap, IssueUnit.Snap, ReorderBuffer.Snap, PopHead, ReadReg, At;
      var p := maps.Mapping(10);
      var value := ReadRf(p);
      rob.Pop();
      if value == 0 {
        ioSuccess := true;
      } else {
        ioTrap := true;
      }
    }

    /** Sends the store at the head. */
    method Send()
      requires Valid()
      modifies `lsu, `tohost, pipe`dmem, rob.entries
      ensures Valid() && Snap() == SendStore(old(Snap()))
    {
      rob.Fields();
      hide Regs, RegisterMaps.Snap, IssueUnit.Snap, ReorderBuffer.Snap, SetEntry, EntryAt, StoreRequest;
      var e := rob.Get(rob.head);
      Emit(e);
      rob.Set(rob.head, e.(requestSent := true, completed := true));
    }

    method Emit(e: RobEntry)
      modifies `lsu, `tohost, pipe`dmem
      ensures var s := old(Snap());
              Snap() == s.(lsu := s.lsu.(nextTx := s.lsu.nextTx + 1), dmemLog := s.dmemLog + [StoreRequest(e, s.lsu.nextTx)], tohost := e.data)
    {
      hide Regs, RegisterMaps.Snap, IssueUnit.Snap, ReorderBuffer.Snap;
      var req := DmemRequest(lsu.nextTx, e.uop.robIdx, true, true, false, e.address, e.data, e.size, e.mask);
      pipe.dmem := pipe.dmem + [req];
      lsu, tohost := lsu.(nextTx := lsu.nextTx + 1), e.data;
    }

    /** The commit record of an entry. */
    method Describe(e: RobEntry) returns (ce: CommitEntry)
      ensures ce == CommitRecord(Snap(), e)
    {
      hide Regs, RegisterMaps.Snap, IssueUnit.Snap, ReorderBuffer.Snap, ReadReg;
      var n := e.uop.rename;
      var rdValid := n.dst == DstInt && n.pdst != 0;
      var value := ReadRf(n.pdst);
      ce := CommitEntry(e.uop.pc, e.uop.inst, rdValid, n.ldst, if rdValid then value else 0,
                        e.memoryValid, e.isStore, e.address, e.data, e.mask);
    }

    method Count(ce: CommitEntry, room: bool)
      modifies `instret, pipe`trace
      ensures var s := old(Snap()); Snap() == s.(instret := s.instret + 1, trace := if room then s.trace + [ce] else s.trace)
    {
      hide Regs, RegisterMaps.Snap, IssueUnit.Snap, ReorderBuffer.Snap;
      instret := instret + 1;
      if room {
        pipe.trace := pipe.trace + [ce];
      }
    }

    method Retire(i: StepIn)
      requires Valid()
      modifies `instret, pipe`trace, maps, maps.committedMap, maps.freeList, rob, rob.entries
      ensures Valid() && Snap() == RetireHead(old(Snap()), i)
    {
      rob.Fields();
      hide Regs, RegisterMaps.Snap, IssueUnit.Snap, ReorderBuffer.Snap, EntryAt, CommitRecord, CommitMapping, PopHead;
      var e := rob.Get(rob.head);
      var ce := Describe(e);
      Count(ce, i.traceRoom);
      Leave(e.uop.rename, ce);
    }

    /** The mapping becomes architectural and the head leaves. */
    method Leave(n: RenameInfo, ce: CommitEntry)
      requires Valid()
      modifies maps, maps.committedMap, maps.freeList, rob, rob.entries
      ensures var s := old(Snap());
              Valid() && Snap() == s.(ren := CommitMapping(s.ren, n), rob := PopHead(s.rob).(lastCommit := ce, commitValid := true))
    {
      hide Regs, RegisterMaps.Snap, IssueUnit.Snap, ReorderBuffer.Snap, CommitMapping, PopHead;
      maps.Commit(n);
      rob.Retire(ce);
    }

    /** What the head of the reorder buffer does. */
    method Choose(i: StepIn) returns (action: HeadAction)
      requires Valid()
      ensures action == HeadActionOf(Snap(), i)
    {
      rob.Fields();
      hide Regs, RegisterMaps.Snap, IssueUnit.Snap, ReorderBuffer.Snap, EntryAt;
      var e := rob.Get(rob.head);
      if (rob.head == rob.tail && !rob.maybeFull) || !e.valid || e.busy {
        return Waits;
      }
      if e.exception {
        return if e.uop.uopc == UOPC_ECALL then RetiresEcall else Traps;
      }
      if (e.uop.ctrl.isLoad || e.isLoad) && !e.completed {
        return Waits;
      }
      if e.uop.ctrl.isSta || e.isStore {
        if !e.memoryValid {
          return Waits;
        }
        if !e.requestSent {
          return if i.storeRoom then SendsStore else Waits;
        }
      }
      return Retires;
    }

    method Trap()
      requires Valid()
      modifies `ioTrap, rob`state
      ensures Valid() && Snap() == old(Snap()).(rob := old(rob.Snap()).(state := RobException), ioTrap := true)
    {
      hide Regs, RegisterMaps.Snap, IssueUnit.Snap, ReorderBuffer.Snap;
      rob.Enter(RobException);
      ioTrap := true;
    }

    method HeadModule(i: StepIn)
      requires Valid()
      modifies `lsu, `tohost, `instret, `ioSuccess, `ioTrap, pipe`dmem, pipe`trace, maps, maps.committedMap, maps.freeList, rob, rob.entries
      ensures Valid() && Snap() == CommitHead(old(Snap()), i)
    {
      hide Regs, RegisterMaps.Snap, IssueUnit.Snap, ReorderBuffer.Snap, HeadActionOf, RetireEcall, RetireHead,
           SendStore;
      var action := Choose(i);
      match action {
        case Waits =>
        case Traps => Trap();
        case RetiresEcall => RetireCall();
        case SendsStore =>
          Send();
          Retire(i);
        case Retires => Retire(i);
      }
    }

    method RobCommitModule(i: StepIn)
      requires Valid()
      modifies `lsu, `tohost, `instret, `ioSuccess, `ioTrap, `globalFlush, pipe`dmem, pipe`trace,
               maps, maps.committedMap, maps.freeList, rob, rob.entries
      ensures Valid() && Snap() == CommitStage(old(Snap()), i)
    {
      hide Regs, RegisterMaps.Snap, IssueUnit.Snap, ReorderBuffer.Snap, FlushRob, Complete, CommitHead;
      if br.valid && br.mispredict {
        rob.Flush();
        globalFlush := true;
        return;
      }
      rob.Withdraw();
      CompleteResult();
      HeadModule(i);
    }

    /** One step: the modules in order. */
    method Advance(i: StepIn)
      requires Valid()
      modifies this, pipe, rf, maps, maps.mapTable, maps.committedMap, maps.freeList, queue, queue.slots, rob, rob.entries
      ensures Valid() && Snap() == Step(old(Snap()), i)
    {
      hide Regs, RegisterMaps.Snap, IssueUnit.Snap, ReorderBuffer.Snap, BeginStep, CsrStage, BranchStage, LsuStage,
           FrontendStage, DecodeStage, RenameStage, AllocateStage, IssueStage, ExecuteStage, CommitStage;
      ClearFlags();
      CsrModule();
      BranchModule();
      LsuModule(i);
      FrontendModule(i);
      DecodeModule();
      RenameModule();
      RobAllocate();
      IssueModule();
      ExecuteModule();
      RobCommitModule(i);
    }

    /** Any number of steps from reset: the core is in the state the runs of the other modules pass through. */
    method AdvanceAll(ins: seq<StepIn>)
      requires Valid() && Snap() == ResetCore()
      modifies this, pipe, rf, maps, maps.mapTable, maps.committedMap, maps.freeList, queue, queue.slots, rob, rob.entries
      ensures Valid() && Snap() == StateAfter(ins).core
    {
      hide BoomCoreState.Snap, Step, ResetCore, StateAfter, SysStep;
      assert ins[..0] == [] && StateAfter([]).core == ResetCore() by { RunStarts(); }
      for k := 0 to |ins|
        invariant Valid() && Snap() == StateAfter(ins[..k]).core
      {
        Advance(ins[k]);
        StepIsSysStep(StateAfter(ins[..k]), ins[k]);
        StateAfterOne(ins, k);
      }
      assert ins[..|ins|] == ins;
    }
  }

  /** A simulation from reset: the core built and stepped through all its inputs. */
  method Simulate(ins: seq<StepIn>) returns (core: BoomCoreState)
    ensures fresh(core) && core.Valid() && core.Snap() == StateAfter(ins).core
  {
    hide BoomCoreState.Snap, ResetCore, StateAfter;
    core := new BoomCoreState();
    core.AdvanceAll(ins);
  }

  lemma RunStarts()
    ensures StateAfter([]).core == ResetCore()
  {
  }
}
