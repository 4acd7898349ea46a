/** One step of the core as a composition of stage functions, one per module, in the order the
    step calls them. Every stage maps a whole core state to a whole core state. */
module Pipeline {
  import opened BoomTypes
  import opened Decode
  import opened Execute

  /** Array reads and writes. Every index met in a run is in range; out of range a read gives the
      default and a write does nothing. */
  function At(t: seq<nat>, i: nat): nat { if i < |t| then t[i] else 0 }
  function Put(t: seq<nat>, i: nat, v: nat): (r: seq<nat>)
    ensures |r| == |t|
  {
    if i < |t| then t[i := v] else t
  }

  function ReadReg(rf: seq<bv64>, p: nat): bv64 { if p != 0 && p < |rf| then rf[p] else 0 }
  function WriteReg(rf: seq<bv64>, p: nat, v: bv64): (r: seq<bv64>)
    ensures |r| == |rf|
  {
    if p != 0 && p < |rf| then rf[p := v] else rf
  }

  function EntryAt(rob: Rob, i: nat): RobEntry { if i < |rob.entries| then rob.entries[i] else NO_ENTRY }
  function SetEntry(rob: Rob, i: nat, e: RobEntry): Rob {
    if i < |rob.entries| then rob.(entries := rob.entries[i := e]) else rob
  }

  function NextRob(i: nat): nat { (i + 1) % ROB_DEPTH }
  function NextPreg(i: nat): nat { (i + 1) % INT_PHYS_REGS }

  predicate RobFull(rob: Rob) { rob.head == rob.tail && rob.maybeFull }
  predicate RobEmpty(rob: Rob) { rob.head == rob.tail && !rob.maybeFull }
  predicate Redirecting(s: Core) { s.br.valid && s.br.mispredict }

  // ---- Reset state

  function ResetRename(): Rename {
    Rename(seq(LOGICAL_REG_COUNT, _ => 0), seq(LOGICAL_REG_COUNT, _ => 0),
           seq(INT_PHYS_REGS, i => i), 1, INT_PHYS_REGS - 1, INT_PHYS_REGS - 1, false, NO_UOP)
  }

  function ResetCore(): Core {
    Core(Frontend(RESET_VECTOR, false, false, 0, 0, false, 0, 0, false, false, 0, 0),
         Decoded(false, NO_UOP), ResetRename(),
         Issue(seq(ISSUE_QUEUE_DEPTH, _ => NO_SLOT), 0, 0, false, NO_UOP), NO_RESULT,
         Rob(seq(ROB_DEPTH, _ => NO_ENTRY), 0, 0, false, RobInit, false, NO_COMMIT),
         Lsu(1, false, 0, 0), seq(INT_PHYS_REGS, _ => 0), BranchUpdate(false, false, 0),
         false, false, false, 0, 0, 0, [], [], [])
  }

  // ---- Start of step, counters, branch resolution

  function BeginStep(s: Core): Core {
    s.(globalFlush := false, ioSuccess := false, ioTrap := false,
       br := s.br.(valid := false, mispredict := false))
  }

  function CsrStage(s: Core): Core { s.(cycle := s.cycle + 1) }

  /** The previous step's result asks for a redirect. */
  predicate WantsRedirect(r: AluResult) {
    r.valid && r.mispredict && (r.uop.branch.isBr || r.uop.branch.isJal || r.uop.branch.isJalr)
  }

  function BranchStage(s: Core): Core {
    if WantsRedirect(s.alu) then s.(br := BranchUpdate(true, true, s.alu.redirectPc)) else s
  }

  // ---- Load/store unit

  function BytesForSize(size: bv8): bv8 { (1 as bv8) << (size & 0x3) }

  function Minus(a: bv64, b: bv64): bv64 { a - b }
  function Flip(a: bv64, b: bv64): bv64 { a ^ b }
  function FlipSubtract(value: bv64, mask: bv64): bv64 { Minus(Flip(value, mask), mask) }

  function SignExtend(value: bv64, bits: bv8): bv64
    requires bits > 0
  {
    if bits >= 64 then value else FlipSubtract(value, (1 as bv64) << (bits - 1))
  }

  /** A beat shifted down by whole bytes. */
  function Lane(data: bv64, offset: bv64): bv64
    requires offset < 8
  {
    data >> (offset * 8)
  }

  function LowOnes(bits: bv8): bv64 { if bits >= 64 then 0xFFFF_FFFF_FFFF_FFFF else ((1 as bv64) << bits) - 1 }

  function Masked(value: bv64, mask: bv64): bv64 { value & mask }

  function BitsForSize(size: bv8): (bits: bv8)
    ensures bits > 0
  {
    BytesForSize(size) * 8
  }

  /** The bytes a load of this size takes out of the 8-byte beat around its address. */
  function LoadValue(data: bv64, address: bv64, size: bv8, signed: bool): bv64 {
    var value := Masked(Lane(data, address & 0x7), LowOnes(BitsForSize(size)));
    if signed then SignExtend(value, BitsForSize(size)) else value
  }

  function ResponseData(resp: DmemResponse): bv64 { if resp.readData != 0 then resp.readData else resp.data }

  predicate AcceptsResponse(lsu: Lsu, resp: Option<DmemResponse>) {
    resp.Some? && lsu.pending && resp.value.txId == lsu.pendingTx
  }

  /** The entry the outstanding load would be delivered to still waits for it. */
  predicate AwaitsData(e: RobEntry) { e.valid && e.isLoad && e.requestSent }

  function LoadedValue(e: RobEntry, resp: DmemResponse): bv64 {
    LoadValue(ResponseData(resp), e.address, e.size, e.signedLoad)
  }

  function DeliveredEntry(e: RobEntry, resp: DmemResponse): (d: RobEntry)
    ensures d.completed && d.requestSent == e.requestSent && d.exception == (e.exception || resp.exception)
  {
    if resp.exception then e.(exception := true, uop := e.uop.(exception := true), completed := true, busy := false)
    else e.(data := LoadedValue(e, resp), completed := true, busy := false)
  }

  function LsuRespond(s: Core, resp: Option<DmemResponse>): Core {
    if AcceptsResponse(s.lsu, resp) then
      var idle := s.lsu.(pending := false, pendingTx := 0);
      var e := EntryAt(s.rob, s.lsu.pendingIdx);
      if AwaitsData(e) then
        s.(lsu := idle, rob := SetEntry(s.rob, s.lsu.pendingIdx, DeliveredEntry(e, resp.value)),
           rf := if resp.value.exception then s.rf
                 else WriteReg(s.rf, e.uop.rename.pdst, LoadedValue(e, resp.value)))
      else s.(lsu := idle)
    else s
  }

  function QueuedStore(e: RobEntry, r: AluResult): RobEntry {
    e.(memoryValid := true, isStore := true, isLoad := false, completed := true,
       address := r.address, data := r.storeData, mask := r.mask, size := r.size, busy := false)
  }

  function QueuedLoad(e: RobEntry, r: AluResult): RobEntry {
    e.(memoryValid := true, isLoad := true, isStore := false, signedLoad := r.signedLoad,
       address := r.address, mask := r.mask, size := r.size)
  }

  function LsuEnqueue(s: Core): Core {
    var r := s.alu;
    var idx := r.uop.robIdx;
    if r.valid && r.memoryValid && idx < ROB_DEPTH && EntryAt(s.rob, idx).valid then
      if r.isStore then s.(rob := SetEntry(s.rob, idx, QueuedStore(EntryAt(s.rob, idx), r)))
      else if r.isLoad then s.(rob := SetEntry(s.rob, idx, QueuedLoad(EntryAt(s.rob, idx), r)))
      else s
    else s
  }

  /** The search for a valid store from slot `idx` up to, but not including, slot `target`. */
  predicate StoreBefore(rob: Rob, idx: nat, target: nat, steps: nat)
    decreases steps
  {
    steps > 0 && idx != target
    && ((EntryAt(rob, idx).valid && EntryAt(rob, idx).uop.ctrl.isSta) || StoreBefore(rob, NextRob(idx), target, steps - 1))
  }

  predicate OlderStoreInRob(rob: Rob, idx: nat) { StoreBefore(rob, rob.head, idx, ROB_DEPTH) }

  /** A load entry whose address is known and whose request has not been sent. */
  predicate UnsentLoad(e: RobEntry) { e.valid && e.isLoad && e.memoryValid && !e.requestSent }

  predicate CanIssueLoad(rob: Rob, idx: nat) { UnsentLoad(EntryAt(rob, idx)) && !OlderStoreInRob(rob, idx) }

  /** The slot k places after the head. */
  function NthSlot(rob: Rob, k: nat): nat { (rob.head + k) % ROB_DEPTH }

  /** The position, counted from the head, of the first load that can be issued; ROB_DEPTH if none. */
  function FirstLoad(rob: Rob, from: nat): nat
    decreases ROB_DEPTH - from
  {
    if from >= ROB_DEPTH then ROB_DEPTH
    else if CanIssueLoad(rob, NthSlot(rob, from)) then from
    else FirstLoad(rob, from + 1)
  }

  function LoadRequest(e: RobEntry, idx: nat, tx: nat): DmemRequest {
    DmemRequest(tx, idx, false, false, e.signedLoad, e.address, 0, e.size, e.mask)
  }

  function IssueLoad(s: Core, idx: nat): Core {
    var e := EntryAt(s.rob, idx);
    var tx := s.lsu.nextTx;
    s.(rob := SetEntry(s.rob, idx, e.(requestSent := true, txId := tx)),
       lsu := Lsu(tx + 1, true, tx, idx),
       dmemLog := s.dmemLog + [LoadRequest(e, idx, tx)])
  }

  /** A load is issued in this step. */
  predicate IssuesLoad(s: Core, i: StepIn) { !s.lsu.pending && i.loadRoom && FirstLoad(s.rob, 0) < ROB_DEPTH }

  function LsuIssue(s: Core, i: StepIn): Core {
    if IssuesLoad(s, i) then IssueLoad(s, NthSlot(s.rob, FirstLoad(s.rob, 0))) else s
  }

  function LsuStage(s: Core, i: StepIn): Core {
    if s.globalFlush then s.(lsu := s.lsu.(pending := false, pendingTx := 0, pendingIdx := 0))
    else LsuIssue(LsuEnqueue(LsuRespond(s, i.dmemResp)), i)
  }

  // ---- Frontend

  function Align4(a: bv64): bv64 { a & 0xFFFF_FFFF_FFFF_FFFC }
  function Plus4(a: bv64): bv64 { a + 4 }

  /** The address after an instruction at `pc`: its redirect target, word-aligned, if it redirects. */
  function Successor(pc: bv64, r: AluResult): bv64 { if WantsRedirect(r) then Align4(r.redirectPc) else Plus4(pc) }

  /** Reset and redirect, before the request logic. */
  function FetchRedirect(f: Frontend, br: BranchUpdate, globalFlush: bool): Frontend {
    var f1 := if globalFlush then f.(flush := true, requestSent := false, packetValid := false) else f;
    var f2 := if f1.resetDone then f1 else f1.(pc := RESET_VECTOR, fetchId := 0, resetDone := true, requestSent := false);
    if br.valid && br.mispredict then
      f2.(pc := Align4(br.target), requestSent := false, responseReceived := false, packetValid := false, flush := false)
    else f2
  }

  /** A pending flush, and the retirement of the packet handed over in the previous step. */
  function FetchFlush(f: Frontend, br: BranchUpdate): Frontend {
    var f1 := if f.flush then
                f.(pc := if br.valid then Align4(br.target) else f.pc, requestSent := false,
                   responseReceived := false, packetValid := false, flush := false)
              else f;
    if !f1.requestSent && f1.packetValid then f1.(responseReceived := false, packetValid := false) else f1
  }

  function FetchRequest(f: Frontend, room: bool): Frontend {
    if !f.requestSent && room then f.(pendingId := f.fetchId, fetchId := f.fetchId + 1, requestSent := true) else f
  }

  function FetchAccept(f: Frontend, resp: Option<ImemResponse>): Frontend {
    if resp.Some? && f.requestSent && resp.value.fetchId == f.pendingId then
      f.(respAddress := resp.value.address, respInst := resp.value.instruction,
         responseReceived := true, requestSent := false)
    else f
  }

  function FetchPacket(f: Frontend): Frontend {
    if f.responseReceived && !f.requestSent then
      f.(packetPc := f.respAddress, packetInst := f.respInst, packetValid := true,
         pc := Plus4(f.respAddress), responseReceived := false)
    else f.(packetValid := false)
  }

  function FrontendStage(s: Core, i: StepIn): Core {
    var f1 := FetchRedirect(s.fe, s.br, s.globalFlush);
    var g1 := s.globalFlush && !Redirecting(s);
    if s.rob.state == RobException then s.(fe := f1.(packetValid := false), globalFlush := g1)
    else
      var f2 := FetchFlush(f1, s.br);
      s.(fe := FetchPacket(FetchAccept(FetchRequest(f2, i.imemRoom), i.imemResp)),
         globalFlush := g1 && !f1.flush,
         imemLog := if !f2.requestSent && i.imemRoom then s.imemLog + [ImemRequest(f2.pc, f2.fetchId)] else s.imemLog)
  }

  // ---- Decode and rename

  function DecodeStage(s: Core): Core {
    if s.globalFlush || !s.fe.packetValid then s.(dec := s.dec.(valid := false))
    else s.(dec := Decoded(true, DecodeInst(s.fe.packetPc, s.fe.packetInst)))
  }

  predicate NeedsRegister(r: RenameInfo) { r.dst == DstInt && r.ldst != 0 }

  function Sources(r: RenameInfo, table: seq<nat>): RenameInfo {
    r.(prs1 := At(table, r.lrs1), prs2 := At(table, r.lrs2), stalePdst := At(table, r.ldst),
       prs1Busy := false, prs2Busy := false)
  }

  function RenameUop(r: Rename, u: MicroOp): Rename {
    var src := Sources(u.rename, r.table);
    if !NeedsRegister(src) then
      r.(valid := true, uop := u.(rename := src.(pdst := 0, ldst := 0)))
    else if r.count > 0 then
      var p := At(r.freeList, r.head);
      r.(valid := true, uop := u.(rename := src.(pdst := p)), head := NextPreg(r.head), count := r.count - 1,
         table := Put(r.table, src.ldst, p))
    else r.(valid := true, uop := u.(rename := src))
  }

  function RenameStage(s: Core): Core {
    var r := s.ren.(valid := false, uop := NO_UOP);
    if s.globalFlush then s.(ren := r)
    else
      var r1 := if Redirecting(s) then r.(table := r.committed) else r;
      s.(ren := if s.dec.valid then RenameUop(r1, s.dec.uop) else r1)
  }

  // ---- ROB allocation

  function FreshEntry(u: MicroOp): RobEntry { NO_ENTRY.(valid := true, busy := true, exception := u.exception, uop := u) }

  function PushEntry(rob: Rob, e: RobEntry): Rob {
    var tail := NextRob(rob.tail);
    SetEntry(rob, rob.tail, e).(tail := tail, maybeFull := rob.maybeFull || tail == rob.head)
  }

  function AllocateStage(s: Core): Core {
    var rob := if s.rob.state == RobInit then s.rob.(state := RobNormal) else s.rob;
    if s.globalFlush || !s.ren.valid then s.(rob := rob)
    else if RobFull(rob) then s.(rob := rob, ren := s.ren.(valid := false))
    else if s.ren.uop.uopc == 0 then s.(rob := rob)
    else
      var u := s.ren.uop.(robIdx := rob.tail);
      s.(rob := PushEntry(rob, FreshEntry(u)), ren := s.ren.(uop := u))
  }

  // ---- Issue queue

  function DispatchedSlot(u: MicroOp): IssueSlot {
    NO_SLOT.(valid := true, request := true, prs1Busy := u.rename.prs1Busy, prs2Busy := u.rename.prs2Busy, uop := u)
  }

  predicate Dispatches(iss: Issue, ren: Rename) { ren.valid && iss.count < ISSUE_QUEUE_DEPTH && ren.uop.iqType != IqFpu }

  function Dispatch(iss: Issue, ren: Rename): Issue {
    if Dispatches(iss, ren) && iss.tail < |iss.slots| then
      iss.(slots := iss.slots[iss.tail := DispatchedSlot(ren.uop)],
           tail := (iss.tail + 1) % ISSUE_QUEUE_DEPTH, count := iss.count + 1)
    else iss
  }

  predicate Ready(e: IssueSlot) {
    e.valid && e.request && !e.killed && !e.prs1Busy && !e.prs2Busy && !e.pdstBusy
  }

  /** The index of the first ready slot; the length if none is ready. */
  function FirstReady(slots: seq<IssueSlot>): nat {
    if slots == [] then 0 else if Ready(slots[0]) then 0 else 1 + FirstReady(slots[1..])
  }

  function Select(iss: Issue): Issue {
    var k := FirstReady(iss.slots);
    if k < |iss.slots| then
      iss.(slots := iss.slots[k := iss.slots[k].(granted := true, request := false)], valid := true, uop := iss.slots[k].uop)
    else iss
  }

  predicate Stays(e: IssueSlot) { e.valid && !e.granted }

  /** The slots that survive compaction, in order. */
  function Kept(slots: seq<IssueSlot>): (r: seq<IssueSlot>)
    ensures |r| <= |slots|
  {
    if slots == [] then [] else if Stays(slots[0]) then [slots[0]] + Kept(slots[1..]) else Kept(slots[1..])
  }

  function Padded(slots: seq<IssueSlot>, depth: nat): seq<IssueSlot> {
    if |slots| >= depth then slots else slots + seq(depth - |slots|, _ => NO_SLOT)
  }

  function Compact(iss: Issue): Issue {
    var kept := Kept(iss.slots);
    iss.(slots := Padded(kept, |iss.slots|), tail := |kept| % ISSUE_QUEUE_DEPTH, count := |kept|)
  }

  function ClearSlots(slots: seq<IssueSlot>): seq<IssueSlot> {
    seq(|slots|, i requires 0 <= i < |slots| => slots[i].(valid := false))
  }

  function IssueStage(s: Core): Core {
    var iss := s.iss.(valid := false, uop := NO_UOP);
    if s.globalFlush then s.(iss := iss.(slots := ClearSlots(iss.slots), tail := 0, count := 0))
    else s.(iss := Compact(Select(Dispatch(iss, s.ren))))
  }

  // ---- Execute

  predicate WritesRegister(r: AluResult) { !r.isLoad && r.uop.rename.dst == DstInt && r.uop.rename.pdst != 0 }

  function ExecuteStage(s: Core): Core {
    if !s.iss.valid then s.(alu := NO_RESULT)
    else
      var n := s.iss.uop.rename;
      var r := ExecUop(s.iss.uop, ReadReg(s.rf, n.prs1), ReadReg(s.rf, n.prs2));
      s.(alu := r, rf := if WritesRegister(r) then WriteReg(s.rf, n.pdst, r.result) else s.rf)
  }

  // ---- Commit

  function FlushedEntry(e: RobEntry): RobEntry { if e.valid then e.(valid := false, busy := false) else e }

  function FlushRob(rob: Rob): Rob {
    rob.(entries := seq(|rob.entries|, i requires 0 <= i < |rob.entries| => FlushedEntry(rob.entries[i])),
         head := 0, tail := 0, maybeFull := false, state := RobNormal, commitValid := false)
  }

  predicate MemoryUop(r: AluResult) {
    r.memoryValid || r.isLoad || r.isStore || r.uop.ctrl.isLoad || r.uop.ctrl.isSta
  }

  /** The result of a uop that does not touch memory completes its entry in the same step. */
  function Complete(s: Core): Core {
    var r := s.alu;
    var idx := r.uop.robIdx;
    if r.valid && !MemoryUop(r) && idx < ROB_DEPTH && EntryAt(s.rob, idx).valid then
      var e := EntryAt(s.rob, idx);
      s.(rob := SetEntry(s.rob, idx, e.(busy := false, exception := e.exception || r.exception)))
    else s
  }

  function PopHead(rob: Rob): Rob {
    SetEntry(rob, rob.head, EntryAt(rob, rob.head).(valid := false)).(head := NextRob(rob.head), maybeFull := false)
  }

  function RetireEcall(s: Core): Core {
    var success := ReadReg(s.rf, At(s.ren.table, 10)) == 0;
    s.(rob := PopHead(s.rob), ioSuccess := success || s.ioSuccess, ioTrap := !success || s.ioTrap)
  }

  function StoreRequest(e: RobEntry, tx: nat): DmemRequest {
    DmemRequest(tx, e.uop.robIdx, true, true, false, e.address, e.data, e.size, e.mask)
  }

  function SendStore(s: Core): Core {
    var e := EntryAt(s.rob, s.rob.head);
    s.(rob := SetEntry(s.rob, s.rob.head, e.(requestSent := true, completed := true)),
       lsu := s.lsu.(nextTx := s.lsu.nextTx + 1),
       dmemLog := s.dmemLog + [StoreRequest(e, s.lsu.nextTx)], tohost := e.data)
  }

  function CommitRecord(s: Core, e: RobEntry): CommitEntry {
    var n := e.uop.rename;
    var rdValid := n.dst == DstInt && n.pdst != 0;
    CommitEntry(e.uop.pc, e.uop.inst, rdValid, n.ldst, if rdValid then ReadReg(s.rf, n.pdst) else 0,
                e.memoryValid, e.isStore, e.address, e.data, e.mask)
  }

  function Release(r: Rename, p: nat): Rename {
    if p != 0 && p < INT_PHYS_REGS && r.count < INT_PHYS_REGS then
      r.(freeList := Put(r.freeList, r.tail, p), tail := NextPreg(r.tail), count := r.count + 1)
    else r
  }

  function CommitMapping(r: Rename, n: RenameInfo): Rename {
    if n.pdst != 0 then Release(r.(committed := Put(r.committed, n.ldst, n.pdst)), n.stalePdst) else r
  }

  function RetireHead(s: Core, i: StepIn): Core {
    var e := EntryAt(s.rob, s.rob.head);
    var ce := CommitRecord(s, e);
    s.(instret := s.instret + 1, ren := CommitMapping(s.ren, e.uop.rename),
       trace := if i.traceRoom then s.trace + [ce] else s.trace,
       rob := PopHead(s.rob).(lastCommit := ce, commitValid := true))
  }

  datatype HeadAction = Waits | Traps | RetiresEcall | SendsStore | Retires

  /** What commit does with the ROB head. */
  function HeadActionOf(s: Core, i: StepIn): HeadAction {
    var e := EntryAt(s.rob, s.rob.head);
    if RobEmpty(s.rob) || !e.valid || e.busy then Waits
    else if e.exception then if e.uop.uopc == UOPC_ECALL then RetiresEcall else Traps
    else if (e.uop.ctrl.isLoad || e.isLoad) && !e.completed then Waits
    else if e.uop.ctrl.isSta || e.isStore then
      if !e.memoryValid then Waits
      else if e.requestSent then Retires
      else if i.storeRoom then SendsStore else Waits
    else Retires
  }

  function CommitHead(s: Core, i: StepIn): Core {
    match HeadActionOf(s, i)
    case Waits => s
    case Traps => s.(rob := s.rob.(state := RobException), ioTrap := true)
    case RetiresEcall => RetireEcall(s)
    case SendsStore => RetireHead(SendStore(s), i)
    case Retires => RetireHead(s, i)
  }

  function CommitStage(s: Core, i: StepIn): Core {
    if Redirecting(s) then s.(rob := FlushRob(s.rob), globalFlush := true)
    else CommitHead(Complete(s.(rob := s.rob.(commitValid := false))), i)
  }

  // ---- The step

  function AfterBranch(s: Core): Core { BranchStage(CsrStage(BeginStep(s))) }
  function AfterLsu(s: Core, i: StepIn): Core { LsuStage(AfterBranch(s), i) }
  function AfterFetch(s: Core, i: StepIn): Core { FrontendStage(AfterLsu(s, i), i) }
  function AfterRename(s: Core, i: StepIn): Core { RenameStage(DecodeStage(AfterFetch(s, i))) }
  function AfterAllocate(s: Core, i: StepIn): Core { AllocateStage(AfterRename(s, i)) }
  function AfterExecute(s: Core, i: StepIn): Core { ExecuteStage(IssueStage(AfterAllocate(s, i))) }
  function Step(s: Core, i: StepIn): Core { CommitStage(AfterExecute(s, i), i) }
}
