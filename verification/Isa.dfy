/** Computations, jumps and branches: decoding and executing an encoded instruction has the effect that the
    instruction set gives it. */
module Isa {
  import opened BoomTypes
  import opened Decode
  import opened Execute
  import opened Pipeline
  import opened Reference
  import opened InstructionSet

  // ---- Arithmetic

  lemma SignedLessIs(a: bv64, b: bv64)
    ensures SignedLess(a, b) <==> LessSigned(a, b)
  {
  }

  lemma ApplySum(a: bv64, b: bv64)
    ensures Apply(Add, a, b) == Add64(a, b) && Apply(Sub, a, b) == Sub64(a, b)
  {
  }

  lemma ApplyShifts(a: bv64, b: bv64)
    ensures Apply(Sll, a, b) == Shl64(a, b & 0x3F) && Apply(Srl, a, b) == Shr64(a, b & 0x3F)
  {
  }

  lemma ApplySigned(a: bv64, b: bv64)
    ensures Apply(Sra, a, b) == ShiftSigned(a, b & 0x3F)
  {
    hide ShiftSigned;
  }

  lemma ApplyBits(a: bv64, b: bv64)
    ensures Apply(Xor, a, b) == Xor64(a, b) && Apply(Or, a, b) == Or64(a, b) && Apply(And, a, b) == And64(a, b)
  {
  }

  lemma ApplyLess(a: bv64, b: bv64)
    ensures Apply(Slt, a, b) == (if LessSigned(a, b) then 1 else 0) && Apply(Sltu, a, b) == (if Less64(a, b) then 1 else 0)
  {
  }

  /** What the operations of the instruction set are called in the execute stage. */
  lemma ApplyIs(op: AluOp, a: bv64, b: bv64)
    ensures Apply(op, a, b)
         == match op
            case Add => Add64(a, b) case Sub => Sub64(a, b)
            case Sll => Shl64(a, Low6(b)) case Srl => Shr64(a, Low6(b)) case Sra => ShiftSigned(a, Low6(b))
            case Slt => (if LessSigned(a, b) then 1 else 0) case Sltu => (if Less64(a, b) then 1 else 0)
            case Xor => Xor64(a, b) case Or => Or64(a, b) case And => And64(a, b)
  {
    assert Low6(b) == b & 0x3F;
    hide Add64, Sub64, Shl64, Shr64, Low6, ShiftSigned, LessSigned, Less64, Xor64, Or64, And64, Apply;
    ApplySum(a, b);
    ApplyShifts(a, b);
    ApplySigned(a, b);
    ApplyBits(a, b);
    ApplyLess(a, b);
  }

  lemma ApplyWSum(a: bv64, b: bv64)
    ensures ApplyW(Add, a, b) == Word32(Add64(a, b))
  {
    SumIs(a, b);
    hide Word32, Sum, Add64, ShiftSigned;
  }

  lemma ApplyWShift(a: bv64, b: bv64)
    ensures ApplyW(Sll, a, b) == Word32(Shl64(a, b & 0x1F))
  {
    hide Word32, Sum, ShiftSigned;
  }

  lemma ApplyWSigned(a: bv64, b: bv64)
    ensures ApplyW(Sra, a, b) == ShiftSigned(Word32(a), b & 0x1F)
  {
    hide Word32, Sum, ShiftSigned;
  }

  lemma DecidesIs(c: Condition, a: bv64, b: bv64)
    ensures Decides(c, a, b)
         <==> match c
              case Eq => a == b case Ne => a != b
              case Lt => SignedLess(a, b) case Ge => !SignedLess(a, b)
              case Ltu => Less64(a, b) case Geu => !Less64(a, b)
  {
    SignedLessIs(a, b);
    hide SignedLess, LessSigned;
  }

  lemma ShiftOdd(x: bv64, k: bv64)
    requires 0 < k < 64 && k & 1 != 0
    ensures x >> k == (x >> (k - 1)) >> 1
  {
  }

  lemma ShiftTwo(x: bv64, k: bv64)
    requires 0 < k < 64 && k & 3 == 2
    ensures x >> k == (x >> (k - 1)) >> 1
  {
  }

  lemma ShiftFour(x: bv64, k: bv64)
    requires 0 < k < 64 && k & 3 == 0
    ensures x >> k == (x >> (k - 1)) >> 1
  {
  }

  function Half(x: bv64): bv64 { x >> 1 }

  lemma LastBits(k: bv64)
    ensures k & 1 != 0 || k & 3 == 2 || k & 3 == 0
  {
  }

  lemma ShiftNext(x: bv64, k: bv64)
    requires 0 < k < 64
    ensures Shr64(x, k) == Half(Shr64(x, k - 1))
  {
    LastBits(k);
    if k & 1 != 0 {
      ShiftOdd(x, k);
    } else if k & 3 == 2 {
      ShiftTwo(x, k);
    } else {
      ShiftFour(x, k);
    }
    assert Shr64(x, k) == x >> k && Half(Shr64(x, k - 1)) == (x >> (k - 1)) >> 1;
  }

  lemma NotHalf(y: bv64)
    requires !Neg64(y)
    ensures Not64(Half(y)) == HalfSigned(Not64(y)) && Half(y) == HalfSigned(y) && !Neg64(Half(y))
  {
  }

  lemma ShiftedPositive(y: bv64, k: bv64)
    requires !Neg64(y) && k < 64
    ensures !Neg64(Shr64(y, k))
  {
  }

  lemma NotNegates(y: bv64)
    ensures Neg64(Not64(y)) <==> !Neg64(y)
    ensures Not64(Not64(y)) == y && Shr64(y, 0) == y
  {
  }

  lemma {:induction false} Sra64Is(a: bv64, k: bv64)
    requires k < 64
    ensures Sra64(a, k) == ShiftSigned(a, k)
  {
    NotNegates(a);
    NotNegates(Not64(a));
    hide Neg64, Not64, Shr64, Half, HalfSigned;
    if k != 0 {
      Sra64Is(a, k - 1);
      var x := if Neg64(a) then Not64(a) else a;
      ShiftNext(x, k);
      ShiftedPositive(x, k - 1);
      NotHalf(Shr64(x, k - 1));
    }
  }

  lemma SextRaw(a: bv64)
    ensures Sext32((a & 0xFFFF_FFFF) as bv32) == Word32(a)
  {
  }

  lemma Sext32Is(a: bv64)
    ensures Sext32(Low32(a)) == Word32(a)
  {
    SextRaw(a);
    hide Sext32, Word32;
  }

  lemma AddRaw(a: bv64, b: bv64)
    ensures Low32(a + b) == Add32((a & 0xFFFF_FFFF) as bv32, (b & 0xFFFF_FFFF) as bv32)
    ensures Low32(a - b) == Sub32((a & 0xFFFF_FFFF) as bv32, (b & 0xFFFF_FFFF) as bv32)
  {
  }

  /** 32-bit addition and subtraction are the low words of the 64-bit ones. */
  lemma AddLow(a: bv64, b: bv64)
    ensures Low32(Add64(a, b)) == Add32(Low32(a), Low32(b)) && Low32(Sub64(a, b)) == Sub32(Low32(a), Low32(b))
  {
    AddRaw(a, b);
    assert Add64(a, b) == a + b && Sub64(a, b) == a - b;
    hide Add64, Sub64;
    assert Low32(a) == (a & 0xFFFF_FFFF) as bv32 && Low32(b) == (b & 0xFFFF_FFFF) as bv32;
    hide Low32, Add32, Sub32;
  }

  lemma ShlRaw(a: bv64, k: bv32)
    requires k < 32
    ensures Low32(a << (k as bv64)) == Shl32((a & 0xFFFF_FFFF) as bv32, k)
  {
  }

  lemma ShlLow(a: bv64, k: bv32)
    requires k < 32
    ensures Low32(Shl64(a, k as bv64)) == Shl32(Low32(a), k)
  {
    ShlRaw(a, k);
    assert Shl64(a, k as bv64) == a << (k as bv64);
    hide Shl64;
    assert Low32(a) == (a & 0xFFFF_FFFF) as bv32;
    hide Low32, Shl32;
  }

  function HalfSigned32(a: bv32): bv32 { (a >> 1) | (a & 0x8000_0000) }
  function Half32(x: bv32): bv32 { x >> 1 }

  lemma ShiftNext32(x: bv32, k: bv32)
    requires 0 < k < 32
    ensures Shr32(x, k) == Half32(Shr32(x, k - 1))
  {
  }

  lemma NotHalf32(y: bv32)
    requires !Neg32(y)
    ensures Not32(Half32(y)) == HalfSigned32(Not32(y)) && Half32(y) == HalfSigned32(y) && !Neg32(Half32(y))
  {
  }

  lemma ShiftedPositive32(y: bv32, k: bv32)
    requires !Neg32(y) && k < 32
    ensures !Neg32(Shr32(y, k))
  {
  }

  lemma NotNegates32(y: bv32)
    ensures Neg32(Not32(y)) <==> !Neg32(y)
    ensures Not32(Not32(y)) == y && Shr32(y, 0) == y
  {
  }

  lemma Sra32Next(a: bv32, k: bv32)
    requires 0 < k < 32
    ensures Sra32(a, k) == HalfSigned32(Sra32(a, k - 1))
  {
    NotNegates32(a);
    hide Neg32, Not32, Shr32, Half32, HalfSigned32;
    var x := if Neg32(a) then Not32(a) else a;
    ShiftNext32(x, k);
    ShiftedPositive32(x, k - 1);
    NotHalf32(Shr32(x, k - 1));
  }

  lemma SextHalf(y: bv32)
    ensures Sext32(HalfSigned32(y)) == HalfSigned(Sext32(y))
  {
    SextHalfRaw(y);
    if Neg32(y) {
      assert Sext32(y) == (y as bv64) | 0xFFFF_FFFF_0000_0000;
    } else {
      assert Sext32(y) == y as bv64;
    }
    hide Sext32, HalfSigned32, HalfSigned;
  }

  lemma SextHalfRaw(y: bv32)
    ensures Neg32(y) ==> Sext32(HalfSigned32(y)) == HalfSigned((y as bv64) | 0xFFFF_FFFF_0000_0000)
    ensures !Neg32(y) ==> Sext32(HalfSigned32(y)) == HalfSigned(y as bv64)
  {
    SextHalfBits(y);
    assert HalfSigned32(y) == (y >> 1) | (y & 0x8000_0000);
    hide HalfSigned32;
  }

  lemma SextHalfBits(y: bv32)
    ensures Neg32(y) ==> Sext32((y >> 1) | (y & 0x8000_0000)) == HalfSigned((y as bv64) | 0xFFFF_FFFF_0000_0000)
    ensures !Neg32(y) ==> Sext32((y >> 1) | (y & 0x8000_0000)) == HalfSigned(y as bv64)
  {
  }

  lemma Widen32(k: bv32)
    requires 0 < k < 32
    ensures k as bv64 != 0 && (k as bv64) - 1 == (k - 1) as bv64
  {
  }

  /** The 32-bit arithmetic shift is the 64-bit one of the sign-extended word. */
  lemma {:induction false} SraLow(a: bv64, k: bv32)
    requires k < 32
    ensures Sext32(Sra32(Low32(a), k)) == ShiftSigned(Word32(a), k as bv64)
  {
    Sext32Is(a);
    if k == 0 {
      NotNegates32(Low32(a));
      NotNegates32(Not32(Low32(a)));
      hide Neg32, Not32, Shr32, Sext32, Low32, Word32;
    } else {
      Widen32(k);
      hide Sra32, Sext32, Low32, Word32, HalfSigned, HalfSigned32;
      SraLow(a, k - 1);
      Sra32Next(Low32(a), k);
      SextHalf(Sra32(Low32(a), k - 1));
    }
  }

  // ---- Fields of an encoded word

  function RdBits(w: bv32): bv32 { (w >> 7) & 0x1F }
  function Rs1Bits(w: bv32): bv32 { (w >> 15) & 0x1F }
  function Rs2Bits(w: bv32): bv32 { (w >> 20) & 0x1F }

  lemma IFields(imm12: bv32, rs1: bv32, f3: bv32, rd: bv32, op: bv32)
    requires imm12 < 0x1000 && Register(rs1) && f3 < 8 && Register(rd) && op < 0x80
    ensures var w := IWord(imm12, rs1, f3, rd, op);
            && Opcode(w) == op && Funct3(w) == f3 && Funct7(w) == imm12 >> 5 && RdBits(w) == rd && Rs1Bits(w) == rs1
  {
  }

  lemma IImmediate(imm12: bv32, rs1: bv32, f3: bv32, rd: bv32, op: bv32)
    requires imm12 < 0x1000 && Register(rs1) && f3 < 8 && Register(rd) && op < 0x80
    ensures ImmI(IWord(imm12, rs1, f3, rd, op)) == if imm12 & 0x800 != 0 then imm12 | 0xFFFF_F000 else imm12
  {
    var w := IWord(imm12, rs1, f3, rd, op);
    assert w >> 20 == imm12 && (w & 0x8000_0000 != 0 <==> imm12 & 0x800 != 0);
    hide IWord;
  }

  lemma RFields(f7: bv32, rs2: bv32, rs1: bv32, f3: bv32, rd: bv32, op: bv32)
    requires f7 < 0x80 && Register(rs2) && Register(rs1) && f3 < 8 && Register(rd) && op < 0x80
    ensures var w := RWord(f7, rs2, rs1, f3, rd, op);
            && Opcode(w) == op && Funct3(w) == f3 && Funct7(w) == f7 && RdBits(w) == rd && Rs1Bits(w) == rs1 && Rs2Bits(w) == rs2
  {
  }

  lemma BFields(offset: bv32, rs2: bv32, rs1: bv32, f3: bv32)
    requires offset < 0x2000 && offset & 1 == 0 && Register(rs2) && Register(rs1) && f3 < 8
    ensures var w := BWord(offset, rs2, rs1, f3);
            && Opcode(w) == 0x63 && Funct3(w) == f3 && Rs1Bits(w) == rs1 && Rs2Bits(w) == rs2
            && ImmB(w) == if offset & 0x1000 != 0 then offset | 0xFFFF_E000 else offset
  {
  }

  lemma SFields(imm12: bv32, rs2: bv32, rs1: bv32, f3: bv32)
    requires imm12 < 0x1000 && Register(rs2) && Register(rs1) && f3 < 8
    ensures var w := SWord(imm12, rs2, rs1, f3);
            && Opcode(w) == 0x23 && Funct3(w) == f3 && Rs1Bits(w) == rs1 && Rs2Bits(w) == rs2
  {
  }

  lemma SImmediate(imm12: bv32, rs2: bv32, rs1: bv32, f3: bv32)
    requires imm12 < 0x1000 && Register(rs2) && Register(rs1) && f3 < 8
    ensures ImmS(SWord(imm12, rs2, rs1, f3)) == if imm12 & 0x800 != 0 then imm12 | 0xFFFF_F000 else imm12
  {
  }

  lemma JFields(offset: bv32, rd: bv32)
    requires offset < 0x20_0000 && offset & 1 == 0 && Register(rd)
    ensures Opcode(JWord(offset, rd)) == 0x6F && RdBits(JWord(offset, rd)) == rd
  {
  }

  lemma JImmediate(offset: bv32, rd: bv32)
    requires offset < 0x20_0000 && offset & 1 == 0 && Register(rd)
    ensures ImmJ(JWord(offset, rd)) == if offset & 0x10_0000 != 0 then offset | 0xFFE0_0000 else offset
  {
    JGather(offset, rd);
    hide JWord, GatherJ;
  }

  lemma JGather(offset: bv32, rd: bv32)
    requires offset < 0x20_0000 && offset & 1 == 0 && Register(rd)
    ensures GatherJ(JWord(offset, rd)) == offset
  {
  }

  /** Sign extension from 12, 13 and 21 bits gives back a value that fits. */
  lemma SextImm12(v: bv64)
    requires Fits(v, 0x800)
    ensures Sext32(if Low12(v) & 0x800 != 0 then Low12(v) | 0xFFFF_F000 else Low12(v)) == v && Low12(v) < 0x1000
  {
    Sext12Raw(v);
    assert Low12(v) == (v & 0xFFF) as bv32;
    hide Low12, Sext32;
  }

  lemma Sext12Raw(v: bv64)
    requires Fits(v, 0x800)
    ensures (v & 0xFFF) as bv32 & 0x800 != 0 ==> Sext32((v & 0xFFF) as bv32 | 0xFFFF_F000) == v
    ensures (v & 0xFFF) as bv32 & 0x800 == 0 ==> Sext32((v & 0xFFF) as bv32) == v
    ensures (v & 0xFFF) as bv32 < 0x1000
  {
  }

  lemma SextOffset13(v: bv64)
    requires Fits(v, 0x1000) && v & 1 == 0
    ensures Sext32(if Low13(v) & 0x1000 != 0 then Low13(v) | 0xFFFF_E000 else Low13(v)) == v && Low13(v) < 0x2000 && Low13(v) & 1 == 0
  {
    Sext13Raw(v);
    assert Low13(v) == (v & 0x1FFF) as bv32;
    hide Low13, Sext32;
  }

  lemma Sext13Raw(v: bv64)
    requires Fits(v, 0x1000) && v & 1 == 0
    ensures (v & 0x1FFF) as bv32 & 0x1000 != 0 ==> Sext32((v & 0x1FFF) as bv32 | 0xFFFF_E000) == v
    ensures (v & 0x1FFF) as bv32 & 0x1000 == 0 ==> Sext32((v & 0x1FFF) as bv32) == v
    ensures (v & 0x1FFF) as bv32 < 0x2000 && (v & 0x1FFF) as bv32 & 1 == 0
  {
  }

  lemma SextOffset21(v: bv64)
    requires Fits(v, 0x10_0000) && v & 1 == 0
    ensures Sext32(if Low21(v) & 0x10_0000 != 0 then Low21(v) | 0xFFE0_0000 else Low21(v)) == v && Low21(v) < 0x20_0000 && Low21(v) & 1 == 0
  {
    Sext21Raw(v);
    assert Low21(v) == (v & 0x1F_FFFF) as bv32;
    hide Low21, Sext32;
  }

  lemma Sext21Raw(v: bv64)
    requires Fits(v, 0x10_0000) && v & 1 == 0
    ensures (v & 0x1F_FFFF) as bv32 & 0x10_0000 != 0 ==> Sext32((v & 0x1F_FFFF) as bv32 | 0xFFE0_0000) == v
    ensures (v & 0x1F_FFFF) as bv32 & 0x10_0000 == 0 ==> Sext32((v & 0x1F_FFFF) as bv32) == v
    ensures (v & 0x1F_FFFF) as bv32 < 0x20_0000 && (v & 0x1F_FFFF) as bv32 & 1 == 0
  {
  }

  // ---- From the word to the machine's step

  /** The outcome that writes `v` to rd, reports it, and continues at `pc`. */
  function Effect(a: Arch, w: bv32, rd: bv32, v: bv64, pc: bv64): Outcome {
    Commits(a.(pc := pc, regs := SetX(a.regs, rd, v)),
            CommitEntry(a.pc, w, rd != 0, rd as nat, if rd != 0 then v else 0, false, false, 0, 0, 0))
  }

  /** The step of the sequential machine on a uop that touches no memory. */
  lemma ComputedOutcome(prog: Program, a: Arch)
    requires var d := NextUop(prog, a); !d.exception && !LoadUopc(d.uopc) && !StoreUopc(d.uopc)
    ensures var d, q := NextUop(prog, a), NextResult(prog, a);
            NextOutcome(prog, a)
            == if NeedsRegister(d.rename) then
                 Commits(Arch(Successor(a.pc, q), SetReg(a.regs, d.rename.ldst, q.result), a.mem),
                         CommitEntry(a.pc, prog(a.pc), true, d.rename.ldst, q.result, false, false, 0, 0, 0))
               else
                 Commits(Arch(Successor(a.pc, q), a.regs, a.mem), CommitEntry(a.pc, prog(a.pc), false, 0, 0, false, false, 0, 0, 0))
  {
    hide DecodeInst, AluValue, Mispredicts, RedirectTarget, Operand1, Operand2, Successor;
  }

  lemma ResultIs(prog: Program, a: Arch)
    ensures var d, q := NextUop(prog, a), NextResult(prog, a);
            var x1, x2 := Reg(a.regs, d.rename.lrs1), Reg(a.regs, d.rename.lrs2);
            && q.result == AluValue(d.uopc, d.pc, d.imm, Operand1(d.ctrl.op1Sel, d.pc, x1), Operand2(d.ctrl.op2Sel, d.imm, x2), x1, x2)
            && q.valid && q.mispredict == Mispredicts(d.uopc, x1, x2) && q.redirectPc == RedirectTarget(d.uopc, d.pc, d.imm, x1)
            && q.uop == d && d.pc == a.pc
  {
    hide DecodeInst, AluValue, Mispredicts, RedirectTarget, Operand1, Operand2, AccessAddress, MaskForSize;
  }

  /** The decoded uop of a word that computes, jumps or branches. */
  ghost predicate DecodesTo(d: MicroOp, w: bv32, uopc: nat, ctrl: DecodeControl, branch: BranchInfo, imm: bv32, dst: DstType) {
    && d.uopc == uopc && d.ctrl == ctrl && d.branch == branch && d.imm == imm && !d.exception
    && d.rename == Registers(w, dst)
  }

  const IMM_CTRL: DecodeControl := DecodeControl(Op1Rs1, Op2Imm, false, false)

  lemma DecodeOpImm(pc: bv64, w: bv32)
    requires Opcode(w) == 0x13
    ensures DecodesTo(DecodeInst(pc, w), w, OpImmCode(Funct3(w), Funct7(w)), IMM_CTRL, NO_BRANCH, ImmI(w), DstInt)
  {
    hide Opcode, Funct3, Funct7, ImmI, Registers, OpImmCode;
  }

  lemma DecodeOpImmW(pc: bv64, w: bv32)
    requires Opcode(w) == 0x1B && OpImm32Code(Funct3(w), Funct7(w)) != UOPC_ILLEGAL
    ensures DecodesTo(DecodeInst(pc, w), w, OpImm32Code(Funct3(w), Funct7(w)), IMM_CTRL, NO_BRANCH, ImmI(w), DstInt)
  {
    hide Opcode, Funct3, Funct7, ImmI, Registers, OpImm32Code;
  }

  lemma DecodeOp(pc: bv64, w: bv32)
    requires Opcode(w) == 0x33 && OpCode(Funct3(w), Funct7(w)) != UOPC_ILLEGAL
    ensures DecodesTo(DecodeInst(pc, w), w, OpCode(Funct3(w), Funct7(w)), NO_CTRL, NO_BRANCH, 0, DstInt)
  {
    hide Opcode, Funct3, Funct7, Registers, OpCode;
  }

  lemma DecodeOpW(pc: bv64, w: bv32)
    requires Opcode(w) == 0x3B && Op32Code(Funct3(w), Funct7(w)) != UOPC_ILLEGAL
    ensures DecodesTo(DecodeInst(pc, w), w, Op32Code(Funct3(w), Funct7(w)), NO_CTRL, NO_BRANCH, 0, DstInt)
  {
    hide Opcode, Funct3, Funct7, Registers, Op32Code;
  }

  lemma DecodeJumps(pc: bv64, w: bv32)
    ensures Opcode(w) == 0x6F ==>
              DecodesTo(DecodeInst(pc, w), w, UOPC_JAL, DecodeControl(Op1Pc, Op2Imm, false, false), BranchInfo(false, true, false), ImmJ(w), JumpDst(w))
    ensures Opcode(w) == 0x67 ==>
              DecodesTo(DecodeInst(pc, w), w, UOPC_JALR, IMM_CTRL, BranchInfo(false, false, true), ImmI(w), JumpDst(w))
    ensures Opcode(w) == 0x63 && BranchCode(Funct3(w)) != UOPC_ILLEGAL ==>
              DecodesTo(DecodeInst(pc, w), w, BranchCode(Funct3(w)), NO_CTRL, BranchInfo(true, false, false), ImmB(w), DstNone)
  {
    hide Opcode, Funct3, Funct7, Registers, BranchCode, ImmI, ImmJ, ImmB, JumpDst;
  }

  /** The registers a decoded uop names. */
  lemma NamedRegisters(w: bv32, dst: DstType)
    ensures Registers(w, dst).ldst == RdBits(w) as nat && Registers(w, dst).lrs1 == Rs1Bits(w) as nat
    ensures Registers(w, dst).lrs2 == Rs2Bits(w) as nat && Registers(w, dst).dst == dst
    ensures Registers(w, DstInt).ldst != 0 <==> RdBits(w) != 0
    ensures RdField(w) == RdBits(w) as nat
  {
  }

  // ---- Values

  /** The opcode of a register operation; the immediate forms follow 49 places later. */
  function UopcOf(op: AluOp): nat {
    match op
    case Add => 1 case Sub => 2 case Sll => 3 case Slt => 4 case Sltu => 5
    case Xor => 6 case Srl => 7 case Sra => 8 case Or => 9 case And => 10
  }

  lemma OpCodeIs(op: AluOp)
    ensures OpCode(OpFunct3(op), OpFunct7(op)) == UopcOf(op)
  {
  }

  lemma Sums(pc: bv64, imm: bv32, a: bv64, b: bv64, x: bv64, y: bv64)
    ensures AluValue(1, pc, imm, a, b, x, y) == AluValue(50, pc, imm, a, b, x, y) == Add64(a, b)
    ensures AluValue(2, pc, imm, a, b, x, y) == Sub64(a, b)
  {
    hide SignedLess, Sra64, Add64, Sub64, Shl64, Shr64, Xor64, Or64, And64, Less64, Low6, Sext32, Low32, Add32,
         Sub32, Shl32, Sra32, MulLow, Low5;
  }

  lemma Shifts(pc: bv64, imm: bv32, a: bv64, b: bv64, x: bv64, y: bv64)
    ensures AluValue(3, pc, imm, a, b, x, y) == AluValue(51, pc, imm, a, b, x, y) == Shl64(a, Low6(b))
    ensures AluValue(7, pc, imm, a, b, x, y) == AluValue(55, pc, imm, a, b, x, y) == Shr64(x, Low6(b))
  {
    hide SignedLess, Sra64, Add64, Sub64, Shl64, Shr64, Xor64, Or64, And64, Less64, Low6, Sext32, Low32, Add32,
         Sub32, Shl32, Sra32, MulLow, Low5;
  }

  lemma SignedShifts(pc: bv64, imm: bv32, a: bv64, b: bv64, x: bv64, y: bv64)
    ensures AluValue(8, pc, imm, a, b, x, y) == AluValue(56, pc, imm, a, b, x, y) == Sra64(a, Low6(b))
  {
    hide SignedLess, Sra64, Add64, Sub64, Shl64, Shr64, Xor64, Or64, And64, Less64, Low6, Sext32, Low32, Add32,
         Sub32, Shl32, Sra32, MulLow, Low5;
  }

  lemma Comparisons(pc: bv64, imm: bv32, a: bv64, b: bv64, x: bv64, y: bv64)
    ensures AluValue(4, pc, imm, a, b, x, y) == AluValue(52, pc, imm, a, b, x, y) == (if SignedLess(a, b) then 1 else 0)
    ensures AluValue(5, pc, imm, a, b, x, y) == (if Less64(x, y) then 1 else 0)
  {
    hide SignedLess, Sra64, Add64, Sub64, Shl64, Shr64, Xor64, Or64, And64, Less64, Low6, Sext32, Low32, Add32,
         Sub32, Shl32, Sra32, MulLow, Low5;
  }

  lemma Bitwise(pc: bv64, imm: bv32, a: bv64, b: bv64, x: bv64, y: bv64)
    ensures AluValue(6, pc, imm, a, b, x, y) == AluValue(54, pc, imm, a, b, x, y) == Xor64(a, b)
  {
    hide SignedLess, Sra64, Add64, Sub64, Shl64, Shr64, Xor64, Or64, And64, Less64, Low6, Sext32, Low32, Add32,
         Sub32, Shl32, Sra32, MulLow, Low5;
  }

  lemma BitwiseAndOr(pc: bv64, imm: bv32, a: bv64, b: bv64, x: bv64, y: bv64)
    ensures AluValue(9, pc, imm, a, b, x, y) == AluValue(57, pc, imm, a, b, x, y) == Or64(a, b)
    ensures AluValue(10, pc, imm, a, b, x, y) == AluValue(58, pc, imm, a, b, x, y) == And64(a, b)
  {
    hide SignedLess, Sra64, Add64, Sub64, Shl64, Shr64, Xor64, Or64, And64, Less64, Low6, Sext32, Low32, Add32,
         Sub32, Shl32, Sra32, MulLow, Low5;
  }

  lemma WordSums(pc: bv64, imm: bv32, a: bv64, b: bv64, x: bv64, y: bv64)
    ensures AluValue(59, pc, imm, a, b, x, y) == Sext32(Add32(Low32(x), imm))
    ensures AluValue(12, pc, imm, a, b, x, y) == Sext32(Sub32(Low32(x), Low32(y)))
  {
    hide SignedLess, Sra64, Add64, Sub64, Shl64, Shr64, Xor64, Or64, And64, Less64, Low6, Sext32, Low32, Add32,
         Sub32, Shl32, Sra32, MulLow, Low5;
  }

  lemma WordShifts(pc: bv64, imm: bv32, a: bv64, b: bv64, x: bv64, y: bv64)
    ensures AluValue(60, pc, imm, a, b, x, y) == Sext32(Shl32(Low32(x), Low5(imm)))
    ensures AluValue(62, pc, imm, a, b, x, y) == Sext32(Sra32(Low32(x), Low5(imm)))
  {
    hide SignedLess, Sra64, Add64, Sub64, Shl64, Shr64, Xor64, Or64, And64, Less64, Low6, Sext32, Low32, Add32,
         Sub32, Shl32, Sra32, MulLow, Low5;
  }

  lemma Links(pc: bv64, imm: bv32, a: bv64, b: bv64, x: bv64, y: bv64)
    ensures AluValue(29, pc, imm, a, b, x, y) == Add64(pc, 4)
    ensures AluValue(30, pc, imm, a, b, x, y) == Add64(pc, 4)
  {
    hide SignedLess, Sra64, Add64, Sub64, Shl64, Shr64, Xor64, Or64, And64, Less64, Low6, Sext32, Low32, Add32,
         Sub32, Shl32, Sra32, MulLow, Low5;
  }

  /** Register operations. */
  lemma OpValue(op: AluOp, pc: bv64, imm: bv32, a: bv64, b: bv64)
    ensures AluValue(UopcOf(op), pc, imm, a, b, a, b) == Apply(op, a, b)
  {
    SignedLessIs(a, b);
    Sra64Is(a, Low6(b));
    ApplyIs(op, a, b);
    hide AluValue, SignedLess, LessSigned, Sra64, ShiftSigned, Add64, Sub64, Shl64, Shr64, Xor64, Or64, And64,
         Less64, Low6, Apply;
    match op {
      case Add => Sums(pc, imm, a, b, a, b);
      case Sub => Sums(pc, imm, a, b, a, b);
      case Sll => Shifts(pc, imm, a, b, a, b);
      case Srl => Shifts(pc, imm, a, b, a, b);
      case Sra => SignedShifts(pc, imm, a, b, a, b);
      case Slt => Comparisons(pc, imm, a, b, a, b);
      case Sltu => Comparisons(pc, imm, a, b, a, b);
      case Xor => Bitwise(pc, imm, a, b, a, b);
      case Or => BitwiseAndOr(pc, imm, a, b, a, b);
      case And => BitwiseAndOr(pc, imm, a, b, a, b);
    }
  }

  /** The opcode of an immediate operation. */
  function ImmUopc(op: AluOp): nat
    requires op != Sub && op != Sltu
  {
    match op
    case Add => 50 case Sll => 51 case Slt => 52 case Xor => 54 case Srl => 55 case Sra => 56 case Or => 57 case And => 58
  }

  lemma ImmCodeIs(op: AluOp, f7: bv32)
    requires op != Sub && op != Sltu && (op == Srl ==> f7 == 0) && (op == Sra ==> f7 != 0)
    ensures OpImmCode(OpFunct3(op), f7) == ImmUopc(op)
  {
  }

  /** Immediate operations: the second source register plays no part. */
  lemma ImmValue(op: AluOp, pc: bv64, imm: bv32, a: bv64, b: bv64, y: bv64)
    requires op != Sub && op != Sltu
    ensures AluValue(ImmUopc(op), pc, imm, a, b, a, y) == Apply(op, a, b)
  {
    SignedLessIs(a, b);
    Sra64Is(a, Low6(b));
    ApplyIs(op, a, b);
    hide AluValue, SignedLess, LessSigned, Sra64, ShiftSigned, Add64, Sub64, Shl64, Shr64, Xor64, Or64, And64,
         Less64, Low6, Apply;
    match op {
      case Add => Sums(pc, imm, a, b, a, y);
      case Sll => Shifts(pc, imm, a, b, a, y);
      case Srl => Shifts(pc, imm, a, b, a, y);
      case Sra => SignedShifts(pc, imm, a, b, a, y);
      case Slt => Comparisons(pc, imm, a, b, a, y);
      case Xor => Bitwise(pc, imm, a, b, a, y);
      case Or => BitwiseAndOr(pc, imm, a, b, a, y);
      case And => BitwiseAndOr(pc, imm, a, b, a, y);
    }
  }

  // ---- The instructions

  lemma NoRedirect(c: nat, x: bv64, y: bv64)
    requires !RedirectUopc(c)
    ensures !Mispredicts(c, x, y)
  {
  }

  lemma NextInOrder(pc: bv64, r: AluResult)
    requires !r.mispredict
    ensures Successor(pc, r) == Plus4(pc)
  {
  }

  /** A uop that only computes: its value goes to rd, unless that is x0, and control goes on. */
  lemma ComputesInto(prog: Program, a: Arch, w: bv32, rd: bv32, v: bv64)
    requires w == prog(a.pc) && RdBits(w) == rd
    requires var d := NextUop(prog, a);
             && d.rename == Registers(w, DstInt) && !d.exception && !LoadUopc(d.uopc) && !StoreUopc(d.uopc) && !RedirectUopc(d.uopc)
    requires NextResult(prog, a).result == v
    ensures NextOutcome(prog, a) == Effect(a, w, rd, v, Plus4(a.pc))
  {
    hide NextUop, NextResult, AluValue, Mispredicts, RedirectTarget, Operand1, Operand2, Successor, NextOutcome,
         Registers, RdBits, Plus4;
    ComputedOutcome(prog, a);
    ResultIs(prog, a);
    NamedRegisters(w, DstInt);
    NoRedirect(NextUop(prog, a).uopc, Reg(a.regs, NextUop(prog, a).rename.lrs1), Reg(a.regs, NextUop(prog, a).rename.lrs2));
    NextInOrder(a.pc, NextResult(prog, a));
  }

  /** The second source as a register number, used or not. */
  function Rs2Value(a: Arch, w: bv32): bv64 { X(a, Rs2Bits(w)) }

  /** A register-register word. */
  lemma RegisterForm(prog: Program, a: Arch, w: bv32, c: nat, rd: bv32, v: bv64)
    requires w == prog(a.pc) && RdBits(w) == rd && DecodesTo(NextUop(prog, a), w, c, NO_CTRL, NO_BRANCH, 0, DstInt)
    requires !LoadUopc(c) && !StoreUopc(c) && !RedirectUopc(c)
    requires AluValue(c, a.pc, 0, X(a, Rs1Bits(w)), Rs2Value(a, w), X(a, Rs1Bits(w)), Rs2Value(a, w)) == v
    ensures NextOutcome(prog, a) == Effect(a, w, rd, v, Plus4(a.pc))
  {
    hide NextUop, NextResult, AluValue, Mispredicts, RedirectTarget, NextOutcome, Registers, RdBits, Rs1Bits,
         Rs2Bits, Plus4, Reg, SetX, Sext32;
    ResultIs(prog, a);
    NamedRegisters(w, DstInt);
    ComputesInto(prog, a, w, rd, v);
  }

  /** A register-immediate word. */
  lemma ImmediateForm(prog: Program, a: Arch, w: bv32, c: nat, rd: bv32, v: bv64)
    requires w == prog(a.pc) && RdBits(w) == rd && DecodesTo(NextUop(prog, a), w, c, IMM_CTRL, NO_BRANCH, ImmI(w), DstInt)
    requires !LoadUopc(c) && !StoreUopc(c) && !RedirectUopc(c)
    requires AluValue(c, a.pc, ImmI(w), X(a, Rs1Bits(w)), Sext32(ImmI(w)), X(a, Rs1Bits(w)), Rs2Value(a, w)) == v
    ensures NextOutcome(prog, a) == Effect(a, w, rd, v, Plus4(a.pc))
  {
    hide NextUop, NextResult, AluValue, Mispredicts, RedirectTarget, NextOutcome, Registers, RdBits, Rs1Bits,
         Rs2Bits, Plus4, Reg, SetX, Sext32, ImmI;
    ResultIs(prog, a);
    NamedRegisters(w, DstInt);
    ComputesInto(prog, a, w, rd, v);
  }

  lemma OpExecutes(prog: Program, a: Arch, op: AluOp, rd: bv32, rs1: bv32, rs2: bv32)
    requires Register(rd) && Register(rs1) && Register(rs2) && prog(a.pc) == RWord(OpFunct7(op), rs2, rs1, OpFunct3(op), rd, 0x33)
    ensures NextOutcome(prog, a) == Effect(a, prog(a.pc), rd, Apply(op, X(a, rs1), X(a, rs2)), Plus4(a.pc))
  {
    hide RWord, DecodeInst, NextResult, NextOutcome, AluValue, Registers, OpCode, Apply, RdBits, Rs1Bits, Rs2Bits,
         Opcode, Funct3, Funct7, Reg, SetX, Plus4;
    var w := prog(a.pc);
    RFields(OpFunct7(op), rs2, rs1, OpFunct3(op), rd, 0x33);
    OpCodeIs(op);
    DecodeOp(a.pc, w);
    OpValue(op, a.pc, 0, X(a, rs1), X(a, rs2));
    RegisterForm(prog, a, w, UopcOf(op), rd, Apply(op, X(a, rs1), X(a, rs2)));
  }

  /** What a shift takes from its immediate. */
  lemma ShiftAmount(op: AluOp, imm: bv64)
    requires (op == Sll || op == Srl || op == Sra) && imm < 64
    ensures ImmField(op, imm) < 0x1000 && ImmField(op, imm) & 0x800 == 0
    ensures Low6(Sext32(ImmField(op, imm))) == Low6(imm)
    ensures imm < 32 && op != Sra ==> ImmField(op, imm) >> 5 == 0
    ensures op == Sra ==> ImmField(op, imm) >> 5 != 0
  {
  }

  lemma ApplyShift(op: AluOp, a: bv64, b: bv64, b': bv64)
    requires (op == Sll || op == Srl || op == Sra) && Low6(b) == Low6(b')
    ensures Apply(op, a, b) == Apply(op, a, b')
  {
    ApplyIs(op, a, b);
    ApplyIs(op, a, b');
    hide Apply, Shl64, Shr64, ShiftSigned, Low6, LessSigned, Less64;
  }

  lemma ShiftImmediate(op: AluOp, imm: bv64, a: bv64, rs1: bv32, rd: bv32)
    requires Valid(OpImm(op, rd, rs1, imm)) && (op == Sll || op == Srl || op == Sra)
    ensures var w := IWord(ImmField(op, imm), rs1, OpFunct3(op), rd, 0x13);
            (op == Srl ==> Funct7(w) == 0) && (op == Sra ==> Funct7(w) != 0) && Apply(op, a, Sext32(ImmI(w))) == Apply(op, a, imm)
  {
    ShiftAmount(op, imm);
    hide IWord, ImmI, Opcode, Funct3, Funct7, RdBits, Rs1Bits, Apply, Sext32, Low6, ImmField, OpFunct3;
    var f := ImmField(op, imm);
    assert OpFunct3(op) < 8 by { Funct3Bound(op); }
    IFields(f, rs1, OpFunct3(op), rd, 0x13);
    IImmediate(f, rs1, OpFunct3(op), rd, 0x13);
    ApplyShift(op, a, Sext32(ImmI(IWord(f, rs1, OpFunct3(op), rd, 0x13))), imm);
  }

  lemma Funct3Bound(op: AluOp)
    ensures OpFunct3(op) < 8
  {
  }

  lemma FieldBound(op: AluOp, imm: bv64, rd: bv32, rs1: bv32)
    requires Valid(OpImm(op, rd, rs1, imm))
    ensures ImmField(op, imm) < 0x1000 && Register(rd) && Register(rs1)
    ensures op != Sll && op != Srl && op != Sra ==> ImmField(op, imm) == Low12(imm) && Fits(imm, 0x800)
  {
  }

  /** The sign-extended immediate of an immediate operation stands for the immediate. */
  lemma ImmediateIs(op: AluOp, imm: bv64, a: bv64, rs1: bv32, rd: bv32)
    requires Valid(OpImm(op, rd, rs1, imm))
    ensures var w := IWord(ImmField(op, imm), rs1, OpFunct3(op), rd, 0x13);
            && Opcode(w) == 0x13 && Funct3(w) == OpFunct3(op) && RdBits(w) == rd && Rs1Bits(w) == rs1
            && (op == Srl ==> Funct7(w) == 0) && (op == Sra ==> Funct7(w) != 0)
            && Apply(op, a, Sext32(ImmI(w))) == Apply(op, a, imm)
  {
    FieldBound(op, imm, rd, rs1);
    Funct3Bound(op);
    hide IWord, ImmI, Opcode, Funct3, Funct7, RdBits, Rs1Bits, Apply, Sext32, Low12, ImmField, OpFunct3, Fits,
         Register;
    var f := ImmField(op, imm);
    IFields(f, rs1, OpFunct3(op), rd, 0x13);
    if op == Sll || op == Srl || op == Sra {
      ShiftImmediate(op, imm, a, rs1, rd);
    } else {
      SextImm12(imm);
      IImmediate(f, rs1, OpFunct3(op), rd, 0x13);
    }
  }

  lemma OpImmExecutes(prog: Program, a: Arch, op: AluOp, rd: bv32, rs1: bv32, imm: bv64)
    requires Valid(OpImm(op, rd, rs1, imm)) && prog(a.pc) == IWord(ImmField(op, imm), rs1, OpFunct3(op), rd, 0x13)
    ensures NextOutcome(prog, a) == Effect(a, prog(a.pc), rd, Apply(op, X(a, rs1), imm), Plus4(a.pc))
  {
    ImmediateIs(op, imm, X(a, rs1), rs1, rd);
    hide IWord, DecodeInst, NextResult, NextOutcome, AluValue, Registers, OpImmCode, Apply, RdBits, Rs1Bits,
         Rs2Bits, Opcode, Funct3, Funct7, Reg, SetX, Plus4, Fits, ImmI, Sext32, ImmField, OpFunct3;
    var w := prog(a.pc);
    ImmCodeIs(op, Funct7(w));
    DecodeOpImm(a.pc, w);
    ImmValue(op, a.pc, ImmI(w), X(a, rs1), Sext32(ImmI(w)), Rs2Value(a, w));
    ImmediateForm(prog, a, w, ImmUopc(op), rd, Apply(op, X(a, rs1), imm));
  }

  // ---- Word instructions

  lemma LowSext(y: bv32)
    ensures Low32(Sext32(y)) == y
  {
    assert Low32((y as bv64) | 0xFFFF_FFFF_0000_0000) == y && Low32(y as bv64) == y;
    assert Sext32(y) == if Neg32(y) then (y as bv64) | 0xFFFF_FFFF_0000_0000 else y as bv64;
    hide Low32, Sext32;
  }

  lemma WordAmount(op: AluOp, imm: bv64)
    requires (op == Sll || op == Sra) && imm < 32
    ensures ImmField(op, imm) < 0x1000 && ImmField(op, imm) & 0x800 == 0
    ensures Low5(ImmField(op, imm)) as bv64 == imm & 0x1F
    ensures op == Sra ==> ImmField(op, imm) >> 5 != 0
  {
  }

  lemma WordCode(op: AluOp, f7: bv32)
    requires op == Add || op == Sll || (op == Sra && f7 != 0)
    ensures OpImm32Code(OpFunct3(op), f7) == if op == Add then 59 else if op == Sll then 60 else 62
  {
  }

  /** The value of a 32-bit immediate operation. */
  lemma WordValue(op: AluOp, rd: bv32, rs1: bv32, imm: bv64, pc: bv64, x: bv64, y: bv64)
    requires Valid(OpImmW(op, rd, rs1, imm))
    ensures var w := IWord(ImmField(op, imm), rs1, OpFunct3(op), rd, 0x1B);
            && Opcode(w) == 0x1B && Funct3(w) == OpFunct3(op) && RdBits(w) == rd && Rs1Bits(w) == rs1
            && (op == Sra ==> Funct7(w) != 0)
            && AluValue(if op == Add then 59 else if op == Sll then 60 else 62, pc, ImmI(w), x, Sext32(ImmI(w)), x, y) == ApplyW(op, x, imm)
  {
    hide IWord, ImmI, Opcode, Funct3, Funct7, RdBits, Rs1Bits, Apply, Sext32, Low6, Low12, Low5, Low32, Word32,
         Add64, Sub64, Shl64, Add32, Sub32, Shl32, Sra32, ShiftSigned, AluValue, ApplyW;
    var f := ImmField(op, imm);
    var w := IWord(f, rs1, OpFunct3(op), rd, 0x1B);
    ApplyWSum(x, imm);
    ApplyWShift(x, imm);
    ApplyWSigned(x, imm);
    WordSums(pc, ImmI(w), x, Sext32(ImmI(w)), x, y);
    WordShifts(pc, ImmI(w), x, Sext32(ImmI(w)), x, y);
    if op == Add {
      SextImm12(imm);
      IFields(f, rs1, OpFunct3(op), rd, 0x1B);
      IImmediate(f, rs1, OpFunct3(op), rd, 0x1B);
      LowSext(ImmI(w));
      AddLow(x, imm);
      Sext32Is(Add64(x, imm));
    } else {
      WordAmount(op, imm);
      IFields(f, rs1, OpFunct3(op), rd, 0x1B);
      IImmediate(f, rs1, OpFunct3(op), rd, 0x1B);
      var k := Low5(f);
      ShlLow(x, k);
      Sext32Is(Shl64(x, k as bv64));
      SraLow(x, k);
    }
  }

  lemma OpImmWExecutes(prog: Program, a: Arch, op: AluOp, rd: bv32, rs1: bv32, imm: bv64)
    requires Valid(OpImmW(op, rd, rs1, imm)) && prog(a.pc) == IWord(ImmField(op, imm), rs1, OpFunct3(op), rd, 0x1B)
    ensures NextOutcome(prog, a) == Effect(a, prog(a.pc), rd, ApplyW(op, X(a, rs1), imm), Plus4(a.pc))
  {
    var w := prog(a.pc);
    WordValue(op, rd, rs1, imm, a.pc, X(a, rs1), Rs2Value(a, w));
    hide IWord, DecodeInst, NextResult, NextOutcome, AluValue, Registers, OpImm32Code, ApplyW, RdBits, Rs1Bits,
         Rs2Bits, Opcode, Funct3, Funct7, Reg, SetX, Plus4, Fits, ImmI, Sext32, ImmField, OpFunct3;
    WordCode(op, Funct7(w));
    DecodeOpImmW(a.pc, w);
    ImmediateForm(prog, a, w, if op == Add then 59 else if op == Sll then 60 else 62, rd, ApplyW(op, X(a, rs1), imm));
  }

  lemma SubWExecutes(prog: Program, a: Arch, rd: bv32, rs1: bv32, rs2: bv32)
    requires Valid(SubW(rd, rs1, rs2)) && prog(a.pc) == RWord(0x20, rs2, rs1, 0, rd, 0x3B)
    ensures NextOutcome(prog, a) == Effect(a, prog(a.pc), rd, Word32(Sub64(X(a, rs1), X(a, rs2))), Plus4(a.pc))
  {
    hide RWord, DecodeInst, NextResult, NextOutcome, AluValue, Registers, RdBits, Rs1Bits, Rs2Bits, Opcode, Funct3,
         Funct7, Reg, SetX, Plus4, Word32, Sub64, Sext32, Low32, Sub32, Add64, Add32;
    var w, x, y := prog(a.pc), X(a, rs1), X(a, rs2);
    RFields(0x20, rs2, rs1, 0, rd, 0x3B);
    assert Op32Code(0, 0x20) == 12;
    DecodeOpW(a.pc, w);
    WordSums(a.pc, 0, x, y, x, y);
    AddLow(x, y);
    Sext32Is(Sub64(x, y));
    RegisterForm(prog, a, w, 12, rd, Word32(Sub64(x, y)));
  }

  // ---- Jumps and branches

  lemma LinkIs(pc: bv64)
    ensures Add64(pc, 4) == Plus4(pc)
  {
  }

  lemma Taken(pc: bv64, r: AluResult)
    requires r.valid && IsControl(r.uop.branch)
    ensures Successor(pc, r) == if r.mispredict then Align4(r.redirectPc) else Plus4(pc)
  {
    hide Align4, Plus4;
  }

  lemma JumpTargets(pc: bv64, imm: bv32, x: bv64, y: bv64)
    ensures RedirectTarget(29, pc, imm, x) == Add64(pc, Sext32(imm))
    ensures RedirectTarget(30, pc, imm, x) == And64(Add64(x, Sext32(imm)), 0xFFFF_FFFF_FFFF_FFFE)
    ensures Mispredicts(29, x, y) && Mispredicts(30, x, y)
  {
    hide Sext32, Add64, And64, SignedLess, Less64;
  }

  lemma BranchTargets(c: Condition, pc: bv64, imm: bv32, x: bv64, y: bv64)
    ensures 31 <= BranchCode(CondFunct3(c)) <= 36
    ensures RedirectTarget(BranchCode(CondFunct3(c)), pc, imm, x) == Add64(pc, Sext32(imm))
    ensures Mispredicts(BranchCode(CondFunct3(c)), x, y) <==> Decides(c, x, y)
  {
    DecidesIs(c, x, y);
    hide Sext32, Add64, And64, SignedLess, Less64, Decides;
  }

  lemma LinkValue(c: nat, pc: bv64, imm: bv32, a: bv64, b: bv64, x: bv64, y: bv64)
    requires c == 29 || c == 30
    ensures AluValue(c, pc, imm, a, b, x, y) == Plus4(pc)
  {
    hide AluValue, Add64, Plus4;
    Links(pc, imm, a, b, x, y);
    LinkIs(pc);
  }

  /** What a jump's result holds. */
  lemma JumpResult(prog: Program, a: Arch, c: nat)
    requires (c == 29 || c == 30) && NextUop(prog, a).uopc == c && IsControl(NextUop(prog, a).branch)
    ensures var d, q := NextUop(prog, a), NextResult(prog, a);
            q.result == Plus4(a.pc) && Successor(a.pc, q) == Align4(RedirectTarget(c, a.pc, d.imm, Reg(a.regs, d.rename.lrs1)))
  {
    hide NextUop, NextResult, AluValue, Mispredicts, RedirectTarget, Plus4, Align4, Successor, Operand1, Operand2;
    var d := NextUop(prog, a);
    var x, y := Reg(a.regs, d.rename.lrs1), Reg(a.regs, d.rename.lrs2);
    ResultIs(prog, a);
    JumpTargets(a.pc, d.imm, x, y);
    Taken(a.pc, NextResult(prog, a));
    LinkValue(c, a.pc, d.imm, Operand1(d.ctrl.op1Sel, d.pc, x), Operand2(d.ctrl.op2Sel, d.imm, y), x, y);
  }

  /** A jump: the link goes to rd, unless that is x0, and control to the target without its low two bits. */
  lemma JumpForm(prog: Program, a: Arch, w: bv32, c: nat, rd: bv32, ctrl: DecodeControl, branch: BranchInfo, imm: bv32, target: bv64)
    requires w == prog(a.pc) && RdBits(w) == rd && DecodesTo(NextUop(prog, a), w, c, ctrl, branch, imm, JumpDst(w)) && IsControl(branch)
    requires (c == 29 || c == 30) && RedirectTarget(c, a.pc, imm, X(a, Rs1Bits(w))) == target
    ensures NextOutcome(prog, a) == Effect(a, w, rd, Plus4(a.pc), Align4(target))
  {
    NamedRegisters(w, JumpDst(w));
    NamedRegisters(w, DstInt);
    hide NextUop, NextResult, RedirectTarget, NextOutcome, Registers, RdBits, Rs1Bits, Plus4, Align4, Successor, Reg;
    JumpResult(prog, a, c);
    ComputedOutcome(prog, a);
  }

  lemma JalWord(rd: bv32, offset: bv64)
    requires Valid(Jal(rd, offset))
    ensures var w := JWord(Low21(offset), rd); Opcode(w) == 0x6F && RdBits(w) == rd && Sext32(ImmJ(w)) == offset
  {
    SextOffset21(offset);
    hide JWord, Opcode, RdBits, ImmJ, Sext32, Low21;
    JFields(Low21(offset), rd);
    JImmediate(Low21(offset), rd);
  }

  lemma JalExecutes(prog: Program, a: Arch, rd: bv32, offset: bv64)
    requires Valid(Jal(rd, offset)) && prog(a.pc) == JWord(Low21(offset), rd)
    ensures NextOutcome(prog, a) == Effect(a, prog(a.pc), rd, Plus4(a.pc), Align4(Add64(a.pc, offset)))
  {
    hide JWord, DecodeInst, NextResult, NextOutcome, Registers, RdBits, Rs1Bits, Opcode, Reg, SetX, Plus4, Valid,
         ImmJ, ImmI, ImmB, Sext32, Align4, Add64, Low21, JumpDst, RedirectTarget, BranchCode;
    var w := prog(a.pc);
    JalWord(rd, offset);
    DecodeJumps(a.pc, w);
    JumpTargets(a.pc, ImmJ(w), X(a, Rs1Bits(w)), 0);
    JumpForm(prog, a, w, 29, rd, DecodeControl(Op1Pc, Op2Imm, false, false), BranchInfo(false, true, false), ImmJ(w), Add64(a.pc, offset));
  }

  lemma JalrWord(rd: bv32, rs1: bv32, imm: bv64)
    requires Valid(Jalr(rd, rs1, imm))
    ensures var w := IWord(Low12(imm), rs1, 0, rd, 0x67);
            Opcode(w) == 0x67 && RdBits(w) == rd && Rs1Bits(w) == rs1 && Sext32(ImmI(w)) == imm
  {
    SextImm12(imm);
    hide IWord, Opcode, RdBits, Rs1Bits, ImmI, Sext32, Low12;
    IFields(Low12(imm), rs1, 0, rd, 0x67);
    IImmediate(Low12(imm), rs1, 0, rd, 0x67);
  }

  lemma JalrExecutes(prog: Program, a: Arch, rd: bv32, rs1: bv32, imm: bv64)
    requires Valid(Jalr(rd, rs1, imm)) && prog(a.pc) == IWord(Low12(imm), rs1, 0, rd, 0x67)
    ensures NextOutcome(prog, a) == Effect(a, prog(a.pc), rd, Plus4(a.pc), Align4(And64(Add64(X(a, rs1), imm), 0xFFFF_FFFF_FFFF_FFFE)))
  {
    hide IWord, DecodeInst, NextResult, NextOutcome, Registers, RdBits, Rs1Bits, Opcode, Reg, SetX, Plus4, Valid,
         ImmJ, ImmI, ImmB, Sext32, Align4, Add64, And64, Low12, JumpDst, RedirectTarget, BranchCode;
    var w := prog(a.pc);
    JalrWord(rd, rs1, imm);
    DecodeJumps(a.pc, w);
    JumpTargets(a.pc, ImmI(w), X(a, rs1), 0);
    JumpForm(prog, a, w, 30, rd, IMM_CTRL, BranchInfo(false, false, true), ImmI(w),
             And64(Add64(X(a, rs1), imm), 0xFFFF_FFFF_FFFF_FFFE));
  }

  lemma BranchForm(prog: Program, a: Arch, w: bv32, c: Condition, offset: bv64)
    requires w == prog(a.pc) && Sext32(ImmB(w)) == offset
    requires DecodesTo(NextUop(prog, a), w, BranchCode(CondFunct3(c)), NO_CTRL, BranchInfo(true, false, false), ImmB(w), DstNone)
    ensures NextOutcome(prog, a)
         == Effect(a, w, 0, 0, if Decides(c, X(a, Rs1Bits(w)), X(a, Rs2Bits(w))) then Align4(Add64(a.pc, offset)) else Plus4(a.pc))
  {
    BranchTargets(c, a.pc, ImmB(w), X(a, Rs1Bits(w)), X(a, Rs2Bits(w)));
    NamedRegisters(w, DstNone);
    hide NextUop, NextResult, AluValue, Mispredicts, RedirectTarget, NextOutcome, Registers, RdBits, Rs1Bits,
         Rs2Bits, Plus4, Align4, Successor, Reg, Operand1, Operand2, Add64, Sext32, ImmB, Decides, BranchCode,
         CondFunct3;
    ResultIs(prog, a);
    ComputedOutcome(prog, a);
    Taken(a.pc, NextResult(prog, a));
  }

  lemma BranchWord(c: Condition, rs1: bv32, rs2: bv32, offset: bv64)
    requires Valid(Branch(c, rs1, rs2, offset))
    ensures var w := BWord(Low13(offset), rs2, rs1, CondFunct3(c));
            Opcode(w) == 0x63 && Funct3(w) == CondFunct3(c) && Rs1Bits(w) == rs1 && Rs2Bits(w) == rs2 && Sext32(ImmB(w)) == offset
  {
    SextOffset13(offset);
    hide BWord, Opcode, Funct3, Rs1Bits, Rs2Bits, ImmB, Sext32, Low13;
    BFields(Low13(offset), rs2, rs1, CondFunct3(c));
  }

  lemma BranchExecutes(prog: Program, a: Arch, c: Condition, rs1: bv32, rs2: bv32, offset: bv64)
    requires Valid(Branch(c, rs1, rs2, offset)) && prog(a.pc) == BWord(Low13(offset), rs2, rs1, CondFunct3(c))
    ensures NextOutcome(prog, a)
         == Effect(a, prog(a.pc), 0, 0, if Decides(c, X(a, rs1), X(a, rs2)) then Align4(Add64(a.pc, offset)) else Plus4(a.pc))
  {
    hide BWord, DecodeInst, NextResult, NextOutcome, Registers, Rs1Bits, Rs2Bits, Opcode, Funct3, Reg, Plus4,
         Valid, ImmJ, ImmI, ImmB, Sext32, Align4, Add64, Low13, JumpDst, RedirectTarget, BranchCode, Decides,
         CondFunct3;
    var w := prog(a.pc);
    BranchWord(c, rs1, rs2, offset);
    BranchTargets(c, a.pc, 0, 0, 0);
    DecodeJumps(a.pc, w);
    BranchForm(prog, a, w, c, offset);
  }

  // ---- All of them

  lemma RegisterOperands(op: AluOp, rd: bv32, rs1: bv32, rs2: bv32)
    requires Valid(Op(op, rd, rs1, rs2))
    ensures Register(rd) && Register(rs1) && Register(rs2)
  {
  }

  lemma SumIs(x: bv64, y: bv64)
    ensures Sum(x, y) == Add64(x, y) && Difference(x, y) == Sub64(x, y)
  {
  }

  lemma EvenIs(x: bv64)
    ensures Even(x) == And64(x, 0xFFFF_FFFF_FFFF_FFFE)
  {
  }

  lemma FollowingIs(pc: bv64)
    ensures Sum(pc, 4) == Plus4(pc)
  {
  }

  /** Every encoded computation, jump and branch, with any operands, writes what the instruction set says and
      continues where it says, at the word the target lies in. */
  lemma Stepped(prog: Program, a: Arch, i: Instr)
    requires Valid(i) && prog(a.pc) == Encoding(i) && !i.Load? && !i.Store?
    ensures NextOutcome(prog, a)
         == Effect(a, Encoding(i), Destination(i), Result(i, a), if Transfers(i, a) then Align4(Target(i, a)) else Target(i, a))
  {
    hide Valid, IWord, RWord, JWord, BWord, ImmField, Low12, Low13, Low21, Align4, Decides, Effect, NextOutcome,
         Apply, ApplyW, Word32, Add64, Sub64, And64, Plus4, X, Sum, Difference, Even, Extend, LittleEndian;
    FollowingIs(a.pc);
    match i {
      case OpImm(op, rd, rs1, imm) => OpImmExecutes(prog, a, op, rd, rs1, imm);
      case Op(op, rd, rs1, rs2) => RegisterOperands(op, rd, rs1, rs2); OpExecutes(prog, a, op, rd, rs1, rs2);
      case OpImmW(op, rd, rs1, imm) => OpImmWExecutes(prog, a, op, rd, rs1, imm);
      case SubW(rd, rs1, rs2) => SumIs(X(a, rs1), X(a, rs2)); SubWExecutes(prog, a, rd, rs1, rs2);
      case Jal(rd, offset) => SumIs(a.pc, offset); JalExecutes(prog, a, rd, offset);
      case Jalr(rd, rs1, imm) => SumIs(X(a, rs1), imm); EvenIs(Sum(X(a, rs1), imm)); JalrExecutes(prog, a, rd, rs1, imm);
      case Branch(c, rs1, rs2, offset) => SumIs(a.pc, offset); BranchExecutes(prog, a, c, rs1, rs2, offset);
    }
  }
}
