/** The decoder: immediate extraction and the opcode switch. */
module Decode {
  import opened BoomTypes

  function ImmI(inst: bv32): bv32 {
    if inst & 0x8000_0000 != 0 then (inst >> 20) | 0xFFFF_F000 else inst >> 20
  }

  function ImmS(inst: bv32): bv32 {
    var v := (ImmI(inst) & 0xFFF_FFE0) | ((inst >> 7) & 0x1F);
    if v & 0x800 != 0 then v | 0xFFFF_F000 else v
  }

  function ImmB(inst: bv32): bv32 {
    var v := (((inst >> 8) & 0xF) << 1) | (((inst >> 25) & 0x3F) << 5)
             | (((inst >> 7) & 0x1) << 11) | (((inst >> 31) & 0x1) << 12);
    if v & 0x1000 != 0 then v | 0xFFFF_E000 else v
  }

  function ImmU(inst: bv32): bv32 { inst & 0xFFFF_F000 }

  /** The scattered bits of the jump offset. */
  function GatherJ(inst: bv32): bv32 {
    (((inst >> 21) & 0x3FF) << 1) | (((inst >> 20) & 0x1) << 11)
    | (((inst >> 12) & 0xFF) << 12) | (((inst >> 31) & 0x1) << 20)
  }

  function ImmJ(inst: bv32): bv32 {
    var v := GatherJ(inst);
    if v & 0x10_0000 != 0 then v | 0xFFE0_0000 else v
  }

  function Opcode(inst: bv32): bv32 { inst & 0x7F }
  function Funct3(inst: bv32): bv32 { (inst >> 12) & 0x7 }
  function Funct7(inst: bv32): bv32 { (inst >> 25) & 0x7F }
  function RdField(inst: bv32): (r: nat)
    ensures r < LOGICAL_REG_COUNT
  {
    ((inst >> 7) & 0x1F) as nat
  }

  function Rs1Field(inst: bv32): (r: nat)
    ensures r < LOGICAL_REG_COUNT
  {
    ((inst >> 15) & 0x1F) as nat
  }

  function Rs2Field(inst: bv32): (r: nat)
    ensures r < LOGICAL_REG_COUNT
  {
    ((inst >> 20) & 0x1F) as nat
  }

  /** The register fields of a word, before renaming, with the destination kind of its opcode. */
  function Registers(inst: bv32, dst: DstType): RenameInfo {
    NO_RENAME.(ldst := RdField(inst), lrs1 := Rs1Field(inst), lrs2 := Rs2Field(inst), dst := dst)
  }

  function JumpDst(inst: bv32): DstType { if RdField(inst) != 0 then DstInt else DstX0 }

  predicate LoadUopc(c: nat) { 39 <= c <= 45 }
  predicate StoreUopc(c: nat) { 46 <= c <= 49 }
  predicate RedirectUopc(c: nat) { 29 <= c <= 36 }
  predicate IsControl(b: BranchInfo) { b.isBr || b.isJal || b.isJalr }

  ghost predicate WellFormedRegisters(r: RenameInfo) {
    && r.ldst < LOGICAL_REG_COUNT && r.lrs1 < LOGICAL_REG_COUNT && r.lrs2 < LOGICAL_REG_COUNT
    && r.pdst == r.prs1 == r.prs2 == r.stalePdst == 0 && !r.prs1Busy && !r.prs2Busy
  }

  /** What the rest of the pipeline may rely on about any decoded micro-op. */
  ghost predicate WellDecoded(u: MicroOp) {
    && u.robIdx == 0
    && WellFormedRegisters(u.rename)
    && (u.exception <==> u.uopc == UOPC_ECALL || u.uopc == UOPC_ILLEGAL)
    && (u.uopc == UOPC_ECALL ==> u.rename.ldst == 0)
    && WellClassified(u.uopc, u.iqType, u.ctrl, u.branch, u.rename.dst)
  }

  /** The opcode and the flags agree. */
  ghost predicate WellClassified(uopc: nat, iqType: IqType, ctrl: DecodeControl, branch: BranchInfo, dst: DstType) {
    && uopc != 0 && iqType != IqFpu
    && (ctrl.isLoad <==> LoadUopc(uopc) || (uopc == UOPC_ILLEGAL && ctrl.isLoad))
    && (ctrl.isSta <==> StoreUopc(uopc) || (uopc == UOPC_ILLEGAL && ctrl.isSta))
    && (LoadUopc(uopc) ==> dst == DstInt)
    && (StoreUopc(uopc) ==> dst == DstNone)
    && (RedirectUopc(uopc) ==> IsControl(branch))
    && !(ctrl.isLoad && ctrl.isSta)
  }

  /** A uop with this opcode; the illegal opcode and ECALL raise an exception. */
  function Uop(pc: bv64, inst: bv32, uopc: nat, iqType: IqType, ctrl: DecodeControl, branch: BranchInfo,
               imm: bv32, dst: DstType, mem: MemoryInfo): (u: MicroOp)
    requires WellClassified(uopc, iqType, ctrl, branch, dst)
    requires uopc == UOPC_ECALL ==> RdField(inst) == 0
    ensures WellDecoded(u)
  {
    MicroOp(uopc, inst, pc, iqType, ctrl, branch, imm, 0, Registers(inst, dst),
            uopc == UOPC_ILLEGAL || uopc == UOPC_ECALL, mem)
  }

  function BranchCode(f3: bv32): (c: nat)
    ensures 31 <= c <= 36 || c == UOPC_ILLEGAL
  {
    if f3 == 0 then 31 else if f3 == 1 then 32 else if f3 == 4 then 33
    else if f3 == 5 then 34 else if f3 == 6 then 35 else if f3 == 7 then 36
    else UOPC_ILLEGAL
  }

  function LoadCode(f3: bv32): (c: nat)
    ensures 39 <= c <= 45 || c == UOPC_ILLEGAL
  {
    if f3 == 0 then 39 else if f3 == 1 then 40 else if f3 == 2 then 41 else if f3 == 3 then 42
    else if f3 == 4 then 43 else if f3 == 5 then 44 else if f3 == 6 then 45
    else UOPC_ILLEGAL
  }

  function StoreCode(f3: bv32): (c: nat)
    ensures 46 <= c <= 49 || c == UOPC_ILLEGAL
  {
    if f3 == 0 then 46 else if f3 == 1 then 47 else if f3 == 2 then 48 else if f3 == 3 then 49
    else UOPC_ILLEGAL
  }

  function OpImmCode(f3: bv32, f7: bv32): (c: nat)
    ensures 50 <= c <= 58
  {
    if f3 == 0 then 50 else if f3 == 1 then 51 else if f3 == 2 then 52 else if f3 == 3 then 53
    else if f3 == 4 then 54 else if f3 == 5 then (if f7 == 0 then 55 else 56)
    else if f3 == 6 then 57 else 58
  }

  function OpImm32Code(f3: bv32, f7: bv32): (c: nat)
    ensures 59 <= c <= 62 || c == UOPC_ILLEGAL
  {
    if f3 == 0 then 59 else if f3 == 1 then 60
    else if f3 == 5 then (if f7 == 0 then 61 else 62)
    else UOPC_ILLEGAL
  }

  function OpCode(f3: bv32, f7: bv32): (c: nat)
    ensures 1 <= c <= 16 || c == UOPC_ILLEGAL
  {
    if f7 == 1 then (if f3 == 0 then 16 else UOPC_ILLEGAL)
    else if f3 == 0 then (if f7 == 0x20 then 2 else 1)
    else if f3 == 1 then 3 else if f3 == 2 then 4 else if f3 == 3 then 5 else if f3 == 4 then 6
    else if f3 == 5 then (if f7 == 0x20 then 8 else 7)
    else if f3 == 6 then 9 else 10
  }

  function Op32Code(f3: bv32, f7: bv32): (c: nat)
    ensures 11 <= c <= 15 || c == UOPC_ILLEGAL
  {
    if f3 == 0 then (if f7 == 0x20 then 12 else 11)
    else if f3 == 1 then 13
    else if f3 == 5 then (if f7 == 0x20 then 15 else 14)
    else UOPC_ILLEGAL
  }

  function CsrCode(f3: bv32): (c: nat)
    ensures 67 <= c <= 72 || c == UOPC_ILLEGAL
  {
    if f3 == 1 then 67 else if f3 == 2 then 68 else if f3 == 3 then 69
    else if f3 == 5 then 70 else if f3 == 6 then 71 else if f3 == 7 then 72
    else UOPC_ILLEGAL
  }

  function LoadSize(f3: bv32): bv8 {
    if f3 == 1 || f3 == 5 then 1 else if f3 == 2 || f3 == 6 then 2 else if f3 == 3 then 3 else 0
  }

  function StoreSize(f3: bv32): bv8 {
    if f3 == 1 then 1 else if f3 == 2 then 2 else if f3 == 3 then 3 else 0
  }

  /** The micro-op the decoder makes of an instruction word fetched at `pc`. Whatever the word,
      the decoder never emits opcode 0, never leaves the two implemented issue queues, flags
      memory and control uops consistently, and raises an exception only for ECALL and illegal words. */
  function DecodeInst(pc: bv64, inst: bv32): (u: MicroOp)
    ensures WellDecoded(u) && u.pc == pc && u.inst == inst
  {
    var op, f3, f7 := Opcode(inst), Funct3(inst), Funct7(inst);
    if op == 0x37 then
      Uop(pc, inst, 37, IqAlu, DecodeControl(Op1X0, Op2Imu, false, false), NO_BRANCH, ImmU(inst), DstInt, NO_MEM)
    else if op == 0x17 then
      Uop(pc, inst, 38, IqAlu, DecodeControl(Op1Pc, Op2Imu, false, false), NO_BRANCH, ImmU(inst), DstInt, NO_MEM)
    else if op == 0x6F then
      Uop(pc, inst, UOPC_JAL, IqAlu, DecodeControl(Op1Pc, Op2Imm, false, false),
          BranchInfo(false, true, false), ImmJ(inst), JumpDst(inst), NO_MEM)
    else if op == 0x67 then
      Uop(pc, inst, UOPC_JALR, IqAlu, DecodeControl(Op1Rs1, Op2Imm, false, false),
          BranchInfo(false, false, true), ImmI(inst), JumpDst(inst), NO_MEM)
    else if op == 0x63 then
      Uop(pc, inst, BranchCode(f3), IqAlu, NO_CTRL, BranchInfo(true, false, false), ImmB(inst), DstNone, NO_MEM)
    else if op == 0x03 then
      Uop(pc, inst, LoadCode(f3), IqMem, DecodeControl(Op1Rs1, Op2Imm, true, false), NO_BRANCH,
          ImmI(inst), DstInt, MemoryInfo(LoadSize(f3), f3 != 4 && f3 != 5 && f3 != 6))
    else if op == 0x23 then
      Uop(pc, inst, StoreCode(f3), IqMem, DecodeControl(Op1Rs1, Op2Rs2, false, true), NO_BRANCH,
          ImmS(inst), DstNone, MemoryInfo(StoreSize(f3), false))
    else if op == 0x13 then
      Uop(pc, inst, OpImmCode(f3, f7), IqAlu, DecodeControl(Op1Rs1, Op2Imm, false, false), NO_BRANCH, ImmI(inst), DstInt, NO_MEM)
    else if op == 0x1B then
      Uop(pc, inst, OpImm32Code(f3, f7), IqAlu, DecodeControl(Op1Rs1, Op2Imm, false, false), NO_BRANCH, ImmI(inst), DstInt, NO_MEM)
    else if op == 0x33 then
      Uop(pc, inst, OpCode(f3, f7), IqAlu, NO_CTRL, NO_BRANCH, 0, DstInt, NO_MEM)
    else if op == 0x3B then
      Uop(pc, inst, Op32Code(f3, f7), IqAlu, NO_CTRL, NO_BRANCH, 0, DstInt, NO_MEM)
    else if op == 0x0F then
      Uop(pc, inst, 63, IqMem, NO_CTRL, NO_BRANCH, 0, DstNone, NO_MEM)
    else if op == 0x73 then
      if f3 != 0 then
        Uop(pc, inst, CsrCode(f3), IqAlu, DecodeControl(Op1Rs1, Op2Imz, false, false), NO_BRANCH, 0, DstInt, NO_MEM)
      else if RdField(inst) == 0 && inst >> 20 == 0 then
        Uop(pc, inst, UOPC_ECALL, IqAlu, NO_CTRL, NO_BRANCH, 0, DstInt, NO_MEM)
      else
        Uop(pc, inst, 118, IqAlu, NO_CTRL, NO_BRANCH, 0, DstNone, NO_MEM)
    else
      Uop(pc, inst, UOPC_ILLEGAL, IqAlu, NO_CTRL, NO_BRANCH, 0, DstInt, NO_MEM)
  }
}
