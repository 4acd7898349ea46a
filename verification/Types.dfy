/** Constants and value types of the core: micro-ops, queue entries, stream
    messages and the state structs that one cycle of the pipeline reads and writes. */
module BoomTypes {

  const ROB_DEPTH: nat := 32
  const INT_PHYS_REGS: nat := 52
  const LOGICAL_REG_COUNT: nat := 32
  const ISSUE_QUEUE_DEPTH: nat := 8
  const RESET_VECTOR: bv64 := 0x10040

  const UOPC_JAL: nat := 29
  const UOPC_JALR: nat := 30
  const UOPC_ECALL: nat := 65
  const UOPC_ILLEGAL: nat := 255

  /** A program: the instruction word at each address. */
  type Program = bv64 -> bv32

  datatype Option<+T> = None | Some(value: T)

  datatype IqType = IqMem | IqAlu | IqFpu
  datatype Op1Sel = Op1Rs1 | Op1Imu | Op1Pc | Op1X0
  datatype Op2Sel = Op2Rs2 | Op2Imm | Op2Imu | Op2Imz | Op2X0
  datatype DstType = DstInt | DstFp | DstX0 | DstNone
  datatype RobState = RobInit | RobNormal | RobException

  datatype DecodeControl = DecodeControl(op1Sel: Op1Sel, op2Sel: Op2Sel, isLoad: bool, isSta: bool)
  datatype BranchInfo = BranchInfo(isBr: bool, isJal: bool, isJalr: bool)
  datatype MemoryInfo = MemoryInfo(size: bv8, signed: bool)
  datatype RenameInfo = RenameInfo(
    ldst: nat, lrs1: nat, lrs2: nat, dst: DstType,
    pdst: nat, prs1: nat, prs2: nat, stalePdst: nat, prs1Busy: bool, prs2Busy: bool)

  datatype MicroOp = MicroOp(
    uopc: nat, inst: bv32, pc: bv64, iqType: IqType, ctrl: DecodeControl, branch: BranchInfo,
    imm: bv32, robIdx: nat, rename: RenameInfo, exception: bool, mem: MemoryInfo)

  const NO_CTRL: DecodeControl := DecodeControl(Op1Rs1, Op2Rs2, false, false)
  const NO_BRANCH: BranchInfo := BranchInfo(false, false, false)
  const NO_MEM: MemoryInfo := MemoryInfo(0, false)
  const NO_RENAME: RenameInfo := RenameInfo(0, 0, 0, DstInt, 0, 0, 0, 0, false, false)

  /** The default-constructed micro-op. */
  const NO_UOP: MicroOp := MicroOp(0, 0, 0, IqMem, NO_CTRL, NO_BRANCH, 0, 0, NO_RENAME, false, NO_MEM)

  datatype AluResult = AluResult(
    valid: bool, uop: MicroOp, result: bv64, exception: bool, mispredict: bool, redirectPc: bv64,
    memoryValid: bool, isLoad: bool, isStore: bool, signedLoad: bool,
    address: bv64, storeData: bv64, mask: bv8, size: bv8)

  const NO_RESULT: AluResult := AluResult(false, NO_UOP, 0, false, false, 0, false, false, false, false, 0, 0, 0, 0)

  datatype RobEntry = RobEntry(
    valid: bool, busy: bool, exception: bool, uop: MicroOp,
    memoryValid: bool, isLoad: bool, isStore: bool, signedLoad: bool, requestSent: bool, completed: bool,
    address: bv64, data: bv64, mask: bv8, size: bv8, txId: nat)

  const NO_ENTRY: RobEntry := RobEntry(false, false, false, NO_UOP, false, false, false, false, false, false, 0, 0, 0, 0, 0)

  datatype IssueSlot = IssueSlot(
    valid: bool, request: bool, granted: bool, killed: bool,
    pdstBusy: bool, prs1Busy: bool, prs2Busy: bool, uop: MicroOp)

  const NO_SLOT: IssueSlot := IssueSlot(false, false, false, false, false, false, false, NO_UOP)

  datatype ImemRequest = ImemRequest(address: bv64, fetchId: nat)
  datatype ImemResponse = ImemResponse(address: bv64, fetchId: nat, instruction: bv32)
  datatype DmemRequest = DmemRequest(
    txId: nat, robIdx: nat, isStore: bool, committed: bool, signedLoad: bool,
    address: bv64, data: bv64, size: bv8, mask: bv8)
  datatype DmemResponse = DmemResponse(txId: nat, data: bv64, readData: bv64, exception: bool)

  datatype CommitEntry = CommitEntry(
    pc: bv64, inst: bv32, rdValid: bool, rd: nat, rdValue: bv64,
    memoryValid: bool, isStore: bool, address: bv64, data: bv64, mask: bv8)

  const NO_COMMIT: CommitEntry := CommitEntry(0, 0, false, 0, 0, false, false, 0, 0, 0)

  // The state structs.

  datatype Frontend = Frontend(
    pc: bv64, resetDone: bool, requestSent: bool, fetchId: nat, pendingId: nat,
    responseReceived: bool, respAddress: bv64, respInst: bv32, flush: bool,
    packetValid: bool, packetPc: bv64, packetInst: bv32)

  datatype Decoded = Decoded(valid: bool, uop: MicroOp)

  datatype Rename = Rename(
    table: seq<nat>, committed: seq<nat>,
    freeList: seq<nat>, head: nat, tail: nat, count: nat,
    valid: bool, uop: MicroOp)

  datatype Issue = Issue(slots: seq<IssueSlot>, tail: nat, count: nat, valid: bool, uop: MicroOp)

  datatype Rob = Rob(
    entries: seq<RobEntry>, head: nat, tail: nat, maybeFull: bool, state: RobState,
    commitValid: bool, lastCommit: CommitEntry)

  datatype Lsu = Lsu(nextTx: nat, pending: bool, pendingTx: nat, pendingIdx: nat)

  datatype BranchUpdate = BranchUpdate(valid: bool, mispredict: bool, target: bv64)

  /** The whole core state, with everything it has written to its three output streams so far. */
  datatype Core = Core(
    fe: Frontend, dec: Decoded, ren: Rename, iss: Issue, alu: AluResult, rob: Rob, lsu: Lsu,
    rf: seq<bv64>, br: BranchUpdate, globalFlush: bool, ioSuccess: bool, ioTrap: bool,
    cycle: nat, instret: nat, tohost: bv64,
    imemLog: seq<ImemRequest>, dmemLog: seq<DmemRequest>, trace: seq<CommitEntry>)

  /** What the streams offer during one step: room for each write the step may attempt, and the
      response, if any, at the head of each input stream. */
  datatype StepIn = StepIn(
    imemResp: Option<ImemResponse>, dmemResp: Option<DmemResponse>,
    imemRoom: bool, loadRoom: bool, storeRoom: bool, traceRoom: bool)
}
