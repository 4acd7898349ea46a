/** Instructions the core executes as the instruction set says only on some operands: exactly which. */
module Deviations {
  import opened BoomTypes
  import opened Decode
  import opened Execute
  import opened Pipeline
  import opened Reference
  import opened InstructionSet
  import opened Isa

  /** The machine's next step writes `v` to rd, unless that is x0, and goes on. */
  ghost predicate Writes(prog: Program, a: Arch, rd: bv32, v: bv64) {
    && NextOutcome(prog, a).Commits?
    && NextOutcome(prog, a).next == a.(pc := Sum(a.pc, 4), regs := SetX(a.regs, rd, v))
  }

  lemma EffectWrites(prog: Program, a: Arch, w: bv32, rd: bv32, v: bv64)
    requires NextOutcome(prog, a) == Effect(a, w, rd, v, Plus4(a.pc))
    ensures Writes(prog, a, rd, v)
  {
    FollowingIs(a.pc);
    hide NextOutcome, SetX, Plus4, Sum;
  }

  /** Two writes to the same register agree just when the values do, or the register is x0. */
  lemma SameWrite(regs: seq<bv64>, rd: bv32, v: bv64, v': bv64)
    requires |regs| == LOGICAL_REG_COUNT && Register(rd)
    ensures SetX(regs, rd, v) == SetX(regs, rd, v') <==> rd == 0 || v == v'
  {
    if rd != 0 && SetX(regs, rd, v) == SetX(regs, rd, v') {
      assert Reg(SetX(regs, rd, v), rd as nat) == v;
      assert Reg(SetX(regs, rd, v'), rd as nat) == v';
    }
  }

  /** A machine that writes one value writes another just when they agree. */
  lemma WritesOnly(prog: Program, a: Arch, rd: bv32, v: bv64, v': bv64)
    requires Writes(prog, a, rd, v) && |a.regs| == LOGICAL_REG_COUNT && Register(rd)
    ensures Writes(prog, a, rd, v') <==> rd == 0 || v == v'
  {
    hide NextOutcome, SetX, Sum;
    SameWrite(a.regs, rd, v, v');
  }

  // ---- SRLI

  lemma LongShiftField(imm: bv64)
    requires imm < 64
    ensures Low12(imm) < 0x1000 && Low12(imm) & 0x800 == 0 && Low6(Sext32(Low12(imm))) == Low6(imm)
    ensures Low12(imm) >> 5 == 0 <==> imm < 32
    ensures Low6(imm) == imm
  {
  }

  lemma SignedShiftDiffers(x: bv64, k: bv64)
    requires 0 < k < 64
    ensures Sra64(x, k) == Shr64(x, k) <==> !Neg64(x)
  {
    NotNegates(x);
    if Neg64(x) {
      ShiftedPositive(Not64(x), k);
      NotNegates(Shr64(Not64(x), k));
      ShiftedClear(x, k);
    }
    hide Not64, Shr64, Neg64;
  }

  lemma ShiftedClear(x: bv64, k: bv64)
    requires 0 < k < 64
    ensures !Neg64(Shr64(x, k))
  {
  }

  lemma ShiftIs(x: bv64, k: bv64)
    requires k < 64
    ensures Apply(Srl, x, k) == Shr64(x, k) && (Negative64(x) <==> Neg64(x))
  {
    LongShiftField(k);
    hide ShiftSigned, Shr64, Low6;
    ApplyIs(Srl, x, k);
  }

  /** What the decoder makes of a logical right shift by `imm`. */
  lemma ShiftRightWord(imm: bv64, rs1: bv32, rd: bv32)
    requires imm < 64 && Register(rs1) && Register(rd)
    ensures var w := IWord(Low12(imm), rs1, 5, rd, 0x13);
            && Opcode(w) == 0x13 && Funct3(w) == 5 && RdBits(w) == rd && Rs1Bits(w) == rs1
            && (Funct7(w) == 0 <==> imm < 32) && Low6(Sext32(ImmI(w))) == imm
  {
    LongShiftField(imm);
    hide IWord, Opcode, Funct3, Funct7, RdBits, Rs1Bits, ImmI, Low12, Sext32, Low6;
    IFields(Low12(imm), rs1, 5, rd, 0x13);
    IImmediate(Low12(imm), rs1, 5, rd, 0x13);
  }

  /** A logical right shift by an immediate is right for every amount below 32, and beyond that, where
      the decoder takes it for an arithmetic shift, exactly when the operand is not negative or x0 is
      the destination. */
  lemma ShiftRightImmediate(prog: Program, a: Arch, rd: bv32, rs1: bv32, imm: bv64)
    requires imm < 64 && Register(rd) && Register(rs1) && |a.regs| == LOGICAL_REG_COUNT
    requires prog(a.pc) == IWord(Low12(imm), rs1, 5, rd, 0x13)
    ensures Writes(prog, a, rd, Apply(Srl, X(a, rs1), imm)) <==> rd == 0 || imm < 32 || !Negative64(X(a, rs1))
  {
    ShiftIs(X(a, rs1), imm);
    hide Writes, Effect, Apply, Negative64, IWord, DecodeInst, NextResult, NextOutcome, AluValue, Registers, RdBits, Rs1Bits, Rs2Bits, Opcode, Funct3,
         Funct7, Reg, SetX, Plus4, ImmI, Sext32, Low12, Low6, Shr64, Sra64, Neg64;
    var w, x := prog(a.pc), X(a, rs1);
    ShiftRightWord(imm, rs1, rd);
    DecodeOpImm(a.pc, w);
    Shifts(a.pc, ImmI(w), x, Sext32(ImmI(w)), x, Rs2Value(a, w));
    SignedShifts(a.pc, ImmI(w), x, Sext32(ImmI(w)), x, Rs2Value(a, w));
    if imm < 32 {
      ImmediateForm(prog, a, w, 55, rd, Shr64(x, imm));
      EffectWrites(prog, a, w, rd, Shr64(x, imm));
    } else {
      ImmediateForm(prog, a, w, 56, rd, Sra64(x, imm));
      EffectWrites(prog, a, w, rd, Sra64(x, imm));
      WritesOnly(prog, a, rd, Sra64(x, imm), Shr64(x, imm));
      SignedShiftDiffers(x, imm);
    }
  }

  // ---- LUI and AUIPC

  lemma UFields(upper: bv32, rd: bv32, op: bv32)
    requires upper & 0xFFF == 0 && Register(rd) && op < 0x80
    ensures var w := UWord(upper, rd, op); Opcode(w) == op && RdBits(w) == rd && ImmU(w) == upper
  {
  }

  lemma DecodeUpper(pc: bv64, w: bv32)
    ensures Opcode(w) == 0x37 ==>
              DecodesTo(DecodeInst(pc, w), w, 37, DecodeControl(Op1X0, Op2Imu, false, false), NO_BRANCH, ImmU(w), DstInt)
    ensures Opcode(w) == 0x17 ==>
              DecodesTo(DecodeInst(pc, w), w, 38, DecodeControl(Op1Pc, Op2Imu, false, false), NO_BRANCH, ImmU(w), DstInt)
  {
    hide Opcode, Funct3, Funct7, Registers, ImmU;
  }

  function Widen(x: bv32): bv64 { x as bv64 }

  lemma UpperValues(pc: bv64, imm: bv32, a: bv64, b: bv64, x: bv64, y: bv64)
    ensures AluValue(37, pc, imm, a, b, x, y) == Widen(imm) && AluValue(38, pc, imm, a, b, x, y) == Add64(pc, Widen(imm))
  {
    hide SignedLess, Sra64, Add64, Sub64, Shl64, Shr64, Xor64, Or64, And64, Less64, Low6, Sext32, Low32, Add32,
         Sub32, Shl32, Sra32, MulLow, Low5;
  }

  lemma UpperForm(prog: Program, a: Arch, upper: bv32, rd: bv32, op: bv32)
    requires upper & 0xFFF == 0 && Register(rd) && (op == 0x37 || op == 0x17) && prog(a.pc) == UWord(upper, rd, op)
    ensures Writes(prog, a, rd, if op == 0x37 then Widen(upper) else Add64(a.pc, Widen(upper)))
  {
    hide Writes, Effect, UWord, DecodeInst, NextResult, NextOutcome, AluValue, Registers, RdBits, Opcode, Reg, SetX, Plus4, ImmU,
         Widen, Add64, Operand1, Operand2;
    var w, d := prog(a.pc), NextUop(prog, a);
    UFields(upper, rd, op);
    DecodeUpper(a.pc, w);
    ResultIs(prog, a);
    var x, y := Reg(a.regs, d.rename.lrs1), Reg(a.regs, d.rename.lrs2);
    UpperValues(a.pc, upper, Operand1(d.ctrl.op1Sel, d.pc, x), Operand2(d.ctrl.op2Sel, d.imm, y), x, y);
    ComputesInto(prog, a, w, rd, if op == 0x37 then Widen(upper) else Add64(a.pc, Widen(upper)));
    EffectWrites(prog, a, w, rd, if op == 0x37 then Widen(upper) else Add64(a.pc, Widen(upper)));
  }

  lemma AddCancels(p: bv64, x: bv64, y: bv64)
    ensures Add64(p, x) == Add64(p, y) <==> x == y
  {
    CancelRaw(p, x);
    CancelRaw(p, y);
    assert Add64(p, x) == p + x && Add64(p, y) == p + y;
    hide Add64, Sub64;
  }

  lemma CancelRaw(p: bv64, x: bv64)
    ensures Sub64(p + x, p) == x
  {
    assert (p + x) - p == x;
  }

  lemma SignedWordIs(x: bv32)
    ensures SignedWord(x) == Sext32(x) && (Widen(x) == Sext32(x) <==> x & 0x8000_0000 == 0)
  {
  }

  /** The upper immediate is sign-extended only by the instruction set: LUI and AUIPC are right exactly
      when bit 31 of the immediate is clear or x0 is the destination. */
  lemma UpperImmediate(prog: Program, a: Arch, rd: bv32, upper: bv32)
    requires upper & 0xFFF == 0 && Register(rd) && |a.regs| == LOGICAL_REG_COUNT
    ensures prog(a.pc) == UWord(upper, rd, 0x37) ==> (Writes(prog, a, rd, SignedWord(upper)) <==> rd == 0 || upper & 0x8000_0000 == 0)
    ensures prog(a.pc) == UWord(upper, rd, 0x17) ==>
              (Writes(prog, a, rd, Sum(a.pc, SignedWord(upper))) <==> rd == 0 || upper & 0x8000_0000 == 0)
  {
    SignedWordIs(upper);
    SumIs(a.pc, SignedWord(upper));
    hide UWord, Writes, Widen, Sext32, Add64, Sub64, Sum, Difference, SignedWord;
    AddCancels(a.pc, Widen(upper), SignedWord(upper));
    if prog(a.pc) == UWord(upper, rd, 0x37) {
      UpperForm(prog, a, upper, rd, 0x37);
      WritesOnly(prog, a, rd, Widen(upper), SignedWord(upper));
    }
    if prog(a.pc) == UWord(upper, rd, 0x17) {
      UpperForm(prog, a, upper, rd, 0x17);
      WritesOnly(prog, a, rd, Add64(a.pc, Widen(upper)), Sum(a.pc, SignedWord(upper)));
    }
  }

  // ---- ADDW and SLLW

  function LowWord(x: bv64): bv64 { x & 0xFFFF_FFFF }

  /** The amount of a 32-bit shift. */
  function Amount(x: bv64): (k: bv64)
    ensures k < 32
  {
    x & 0x1F
  }

  lemma LowWordIs(x: bv64)
    ensures LowWord(x) == Widen(Low32(x)) && (LowWord(x) == 0 <==> Low32(x) == 0) && (LowWord(x) == 0xFFFF_FFFF <==> Low32(x) == 0xFFFF_FFFF)
  {
  }

  lemma SmallAmount(k: bv32)
    requires k < 32
    ensures Amount(k as bv64) == k as bv64
  {
  }

  lemma AmountIs(x: bv64)
    ensures Amount(x) == x & 0x1F && Amount(x) == Low5(Low32(x)) as bv64 && (Amount(x) == 0 <==> Low5(Low32(x)) == 0)
  {
  }

  lemma WordRegisterValues(pc: bv64, imm: bv32, a: bv64, b: bv64, x: bv64, y: bv64)
    ensures AluValue(11, pc, imm, a, b, x, y) == Sext32(Add32(Low32(x), imm))
    ensures AluValue(13, pc, imm, a, b, x, y) == Sext32(Shl32(Low32(x), Low5(imm)))
  {
    hide SignedLess, Sra64, Add64, Sub64, Shl64, Shr64, Xor64, Or64, And64, Less64, Low6, Sext32, Low32, Add32,
         Sub32, Shl32, Sra32, MulLow, Low5;
  }

  /** The code of a register-register word instruction adds or shifts by its immediate, which is zero. */
  lemma ZeroOperand(x: bv32)
    ensures Add32(x, 0) == x && Low5(0) == 0 && Shl32(x, 0) == x
  {
  }

  lemma WordForm(prog: Program, a: Arch, rd: bv32, rs1: bv32, rs2: bv32, f3: bv32)
    requires Register(rd) && Register(rs1) && Register(rs2) && (f3 == 0 || f3 == 1) && prog(a.pc) == RWord(0, rs2, rs1, f3, rd, 0x3B)
    ensures Writes(prog, a, rd, Sext32(Low32(X(a, rs1))))
  {
    hide Writes, Effect, RWord, DecodeInst, NextResult, NextOutcome, AluValue, Registers, RdBits, Rs1Bits, Rs2Bits, Opcode, Funct3,
         Funct7, Reg, SetX, Plus4, Low32, Sext32, Add32, Shl32, Low5;
    var w := prog(a.pc);
    RFields(0, rs2, rs1, f3, rd, 0x3B);
    assert Op32Code(f3, 0) == if f3 == 0 then 11 else 13;
    DecodeOpW(a.pc, w);
    WordRegisterValues(a.pc, 0, X(a, rs1), X(a, rs2), X(a, rs1), X(a, rs2));
    ZeroOperand(Low32(X(a, rs1)));
    RegisterForm(prog, a, w, if f3 == 0 then 11 else 13, rd, Sext32(Low32(X(a, rs1))));
    EffectWrites(prog, a, w, rd, Sext32(Low32(X(a, rs1))));
  }

  lemma SextInjective(x: bv32, y: bv32)
    ensures Sext32(x) == Sext32(y) <==> x == y
  {
    LowSext(x);
    LowSext(y);
    hide Sext32, Low32;
  }

  lemma AddFixes(x: bv32, y: bv32)
    ensures Add32(x, y) == x <==> y == 0
  {
  }

  lemma ShlFixes(x: bv32, k: bv32)
    requires k < 32
    ensures Shl32(x, k) == x <==> k == 0 || x == 0
  {
  }

  /** ADDW ignores its second operand: it is right exactly when that operand's low word is zero or x0
      is the destination. */
  lemma AddWord(prog: Program, a: Arch, rd: bv32, rs1: bv32, rs2: bv32)
    requires Register(rd) && Register(rs1) && Register(rs2) && |a.regs| == LOGICAL_REG_COUNT
    requires prog(a.pc) == RWord(0, rs2, rs1, 0, rd, 0x3B)
    ensures Writes(prog, a, rd, ApplyW(Add, X(a, rs1), X(a, rs2))) <==> rd == 0 || LowWord(X(a, rs2)) == 0
  {
    hide RWord, Writes, Reg, Low32, Sext32, Add32, Add64, Word32, ApplyW, LowWord;
    var x, y := X(a, rs1), X(a, rs2);
    ApplyWSum(x, y);
    LowWordIs(y);
    WordForm(prog, a, rd, rs1, rs2, 0);
    AddLow(x, y);
    Sext32Is(Add64(x, y));
    SextInjective(Low32(x), Low32(Add64(x, y)));
    AddFixes(Low32(x), Low32(y));
    WritesOnly(prog, a, rd, Sext32(Low32(x)), Word32(Add64(x, y)));
  }

  /** SLLW ignores it too: it is right exactly when the shift amount is zero, or the low word shifted
      is, or x0 is the destination. */
  lemma ShiftLeftWord(prog: Program, a: Arch, rd: bv32, rs1: bv32, rs2: bv32)
    requires Register(rd) && Register(rs1) && Register(rs2) && |a.regs| == LOGICAL_REG_COUNT
    requires prog(a.pc) == RWord(0, rs2, rs1, 1, rd, 0x3B)
    ensures Writes(prog, a, rd, ApplyW(Sll, X(a, rs1), X(a, rs2))) <==> rd == 0 || Amount(X(a, rs2)) == 0 || LowWord(X(a, rs1)) == 0
  {
    hide RWord, Writes, Reg, Low32, Sext32, Shl32, Shl64, Word32, Low5, ApplyW, Amount, LowWord;
    var x, k := X(a, rs1), Low5(Low32(X(a, rs2)));
    ApplyWShift(x, X(a, rs2));
    LowWordIs(x);
    AmountIs(X(a, rs2));
    WordForm(prog, a, rd, rs1, rs2, 1);
    ShlLow(x, k);
    Sext32Is(Shl64(x, k as bv64));
    SextInjective(Low32(x), Low32(Shl64(x, k as bv64)));
    ShlFixes(Low32(x), k);
    WritesOnly(prog, a, rd, Sext32(Low32(x)), Word32(Shl64(x, k as bv64)));
  }

  // ---- SRAW, SRLW and SRLIW

  lemma WordShiftValues(pc: bv64, imm: bv32, a: bv64, b: bv64, x: bv64, y: bv64)
    ensures AluValue(15, pc, imm, a, b, x, y) == Sext32(Sra32(Low32(x), Low5(imm)))
  {
    hide SignedLess, Sra64, Add64, Sub64, Shl64, Shr64, Xor64, Or64, And64, Less64, Low6, Sext32, Low32, Add32,
         Sub32, Shl32, Sra32, MulLow, Low5;
  }

  lemma NoWordShift(pc: bv64, imm: bv32, a: bv64, b: bv64, x: bv64, y: bv64)
    ensures AluValue(14, pc, imm, a, b, x, y) == AluValue(61, pc, imm, a, b, x, y) == 0
  {
    hide SignedLess, Sra64, Add64, Sub64, Shl64, Shr64, Xor64, Or64, And64, Less64, Low6, Sext32, Low32, Add32,
         Sub32, Shl32, Sra32, MulLow, Low5;
  }

  lemma SraFixes(x: bv32, k: bv32)
    requires k < 32
    ensures Sra32(x, k) == x <==> k == 0 || x == 0 || x == 0xFFFF_FFFF
    ensures Low5(0) == 0
  {
  }

  /** Shifting right by k places leaves nothing of the word. */
  predicate ShiftsOut(x: bv32, k: bv32)
    requires k < 32
  {
    x < Shl32(1, k)
  }

  lemma ShrClears(x: bv32, k: bv32)
    requires k < 32
    ensures Shr32(x, k) == 0 <==> ShiftsOut(x, k)
  {
  }

  lemma ZeroWord()
    ensures Sext32(0) == 0
  {
  }

  lemma ShiftedOut(x: bv32, k: bv32)
    requires k < 32
    ensures Sext32(Shr32(x, k)) == 0 <==> ShiftsOut(x, k)
  {
    hide Sext32, Shr32, ShiftsOut;
    ShrClears(x, k);
    ZeroWord();
    SextInjective(Shr32(x, k), 0);
  }

  /** The low word shifted right, as a 32-bit result. */
  function ShiftedWord(low: bv64, k: bv64): bv64
    requires k < 32
  {
    Word32(low >> k)
  }

  /** Nothing is left of it. */
  predicate ShiftedAway(low: bv64, k: bv64)
    requires k < 32
  {
    low < 1 << k
  }

  lemma WideShift(w: bv32, k: bv32)
    requires k < 32
    ensures Word32((w as bv64) >> (k as bv64)) == Sext32(Shr32(w, k))
  {
    WideShiftRaw(w, k);
    SignedWordIs(Shr32(w, k));
    assert Widen(Shr32(w, k)) == Shr32(w, k) as bv64;
    hide Word32, Sext32, Shr32, Widen;
  }

  lemma WideShiftRaw(w: bv32, k: bv32)
    requires k < 32
    ensures (w as bv64) >> (k as bv64) == Widen(Shr32(w, k))
  {
  }

  lemma WideAway(w: bv32, k: bv32)
    requires k < 32
    ensures (w as bv64) < 1 << (k as bv64) <==> w < 1 << k
  {
  }

  lemma ShiftedWordIs(w: bv32, k: bv32)
    requires k < 32
    ensures k as bv64 < 32 && ShiftedWord(Widen(w), k as bv64) == Sext32(Shr32(w, k))
    ensures ShiftedAway(Widen(w), k as bv64) <==> ShiftsOut(w, k)
  {
    WideShift(w, k);
    WideAway(w, k);
    hide Word32, Sext32;
  }

  /** SRAW ignores its amount as well: it is right exactly when the amount is zero, or the low word is
      all zeros or all ones, or x0 is the destination. */
  lemma ShiftRightSignedWord(prog: Program, a: Arch, rd: bv32, rs1: bv32, rs2: bv32)
    requires Register(rd) && Register(rs1) && Register(rs2) && |a.regs| == LOGICAL_REG_COUNT
    requires prog(a.pc) == RWord(0x20, rs2, rs1, 5, rd, 0x3B)
    ensures Writes(prog, a, rd, ApplyW(Sra, X(a, rs1), X(a, rs2)))
            <==> rd == 0 || Amount(X(a, rs2)) == 0 || LowWord(X(a, rs1)) == 0 || LowWord(X(a, rs1)) == 0xFFFF_FFFF
  {
    LowWordIs(X(a, rs1));
    AmountIs(X(a, rs2));
    ApplyWSigned(X(a, rs1), X(a, rs2));
    hide ApplyW, Amount, LowWord;
    hide Writes, Effect, RWord, DecodeInst, NextResult, NextOutcome, AluValue, Registers, RdBits, Rs1Bits, Rs2Bits, Opcode, Funct3,
         Funct7, Reg, SetX, Plus4, Low32, Sext32, Sra32, Low5, Word32, ShiftSigned;
    var w, x, k := prog(a.pc), X(a, rs1), Low5(Low32(X(a, rs2)));
    RFields(0x20, rs2, rs1, 5, rd, 0x3B);
    assert Op32Code(5, 0x20) == 15;
    DecodeOpW(a.pc, w);
    WordShiftValues(a.pc, 0, x, X(a, rs2), x, X(a, rs2));
    SraFixes(Low32(x), 0);
    SraFixes(Low32(x), k);
    SraLow(x, k);
    SextInjective(Low32(x), Sra32(Low32(x), k));
    RegisterForm(prog, a, w, 15, rd, Sext32(Low32(x)));
    EffectWrites(prog, a, w, rd, Sext32(Low32(x)));
    WritesOnly(prog, a, rd, Sext32(Low32(x)), ShiftSigned(Word32(x), k as bv64));
  }

  /** The execute stage has no case for a 32-bit logical right shift and gives zero: SRLW and SRLIW are
      right exactly when the whole low word is shifted out, or x0 is the destination. */
  lemma ShiftRightWordRegister(prog: Program, a: Arch, rd: bv32, rs1: bv32, rs2: bv32)
    requires Register(rd) && Register(rs1) && Register(rs2) && |a.regs| == LOGICAL_REG_COUNT
    requires prog(a.pc) == RWord(0, rs2, rs1, 5, rd, 0x3B)
    ensures var low, k := LowWord(X(a, rs1)), Amount(X(a, rs2));
            Writes(prog, a, rd, ShiftedWord(low, k)) <==> rd == 0 || ShiftedAway(low, k)
  {
    ShiftedWordIs(Low32(X(a, rs1)), Low5(Low32(X(a, rs2))));
    AmountIs(X(a, rs2));
    LowWordIs(X(a, rs1));
    hide ShiftedWord, ShiftedAway, LowWord, Amount, Widen;
    hide Writes, Effect, RWord, DecodeInst, NextResult, NextOutcome, AluValue, Registers, RdBits, Rs1Bits, Rs2Bits, Opcode, Funct3,
         Funct7, Reg, SetX, Plus4, Low32, Sext32, Shr32, Low5, ShiftsOut;
    var w, x, k := prog(a.pc), X(a, rs1), Low5(Low32(X(a, rs2)));
    RFields(0, rs2, rs1, 5, rd, 0x3B);
    assert Op32Code(5, 0) == 14;
    DecodeOpW(a.pc, w);
    NoWordShift(a.pc, 0, x, X(a, rs2), x, X(a, rs2));
    ShiftedOut(Low32(x), k);
    RegisterForm(prog, a, w, 14, rd, 0);
    EffectWrites(prog, a, w, rd, 0);
    WritesOnly(prog, a, rd, 0, Sext32(Shr32(Low32(x), k)));
  }

  lemma ShiftRightWordImmediate(prog: Program, a: Arch, rd: bv32, rs1: bv32, amount: bv32)
    requires amount < 32 && Register(rd) && Register(rs1) && |a.regs| == LOGICAL_REG_COUNT
    requires prog(a.pc) == IWord(amount, rs1, 5, rd, 0x1B)
    ensures var low, k := LowWord(X(a, rs1)), Amount(amount as bv64);
            Writes(prog, a, rd, ShiftedWord(low, k)) <==> rd == 0 || ShiftedAway(low, k)
  {
    ShiftedWordIs(Low32(X(a, rs1)), amount);
    LowWordIs(X(a, rs1));
    SmallAmount(amount);
    hide ShiftedWord, ShiftedAway, LowWord, Widen, Amount;
    hide Writes, Effect, IWord, DecodeInst, NextResult, NextOutcome, AluValue, Registers, RdBits, Rs1Bits, Rs2Bits, Opcode, Funct3,
         Funct7, Reg, SetX, Plus4, ImmI, Low32, Sext32, Shr32, ShiftsOut;
    var w, x := prog(a.pc), X(a, rs1);
    IFields(amount, rs1, 5, rd, 0x1B);
    assert OpImm32Code(5, amount >> 5) == 61 by { assert amount >> 5 == 0; }
    DecodeOpImmW(a.pc, w);
    NoWordShift(a.pc, ImmI(w), x, Sext32(ImmI(w)), x, Rs2Value(a, w));
    ShiftedOut(Low32(x), amount);
    ImmediateForm(prog, a, w, 61, rd, 0);
    EffectWrites(prog, a, w, rd, 0);
    WritesOnly(prog, a, rd, 0, Sext32(Shr32(Low32(x), amount)));
  }

  // ---- SLTIU

  /** The value lies from one bound up to, but not including, the other. */
  predicate Between(x: bv64, p: bv64, q: bv64) { (p <= x < q) || (q <= x < p) }

  lemma ComparesDiffer(x: bv64, p: bv64, q: bv64)
    ensures Less64(x, p) == Less64(x, q) <==> !Between(x, p, q)
  {
  }

  lemma UnsignedImmediateValue(pc: bv64, imm: bv32, a: bv64, b: bv64, x: bv64, y: bv64)
    ensures AluValue(53, pc, imm, a, b, x, y) == (if Less64(x, y) then 1 else 0)
  {
    hide SignedLess, Sra64, Add64, Sub64, Shl64, Shr64, Xor64, Or64, And64, Less64, Low6, Sext32, Low32, Add32,
         Sub32, Shl32, Sra32, MulLow, Low5;
  }

  /** The register that the low five bits of an immediate field name. */
  function Named(imm12: bv32): bv32 { imm12 & 0x1F }

  lemma SourceField(imm12: bv32, rs1: bv32, f3: bv32, rd: bv32, op: bv32)
    requires imm12 < 0x1000 && Register(rs1) && f3 < 8 && Register(rd) && op < 0x80
    ensures Rs2Bits(IWord(imm12, rs1, f3, rd, op)) == Named(imm12)
  {
  }

  /** SLTIU compares with the register its immediate happens to name: it is right exactly when the
      operand does not lie between that register and the immediate, or x0 is the destination. */
  lemma CompareUnsignedImmediate(prog: Program, a: Arch, rd: bv32, rs1: bv32, imm: bv64)
    requires Fits(imm, 0x800) && Register(rd) && Register(rs1) && |a.regs| == LOGICAL_REG_COUNT
    requires prog(a.pc) == IWord(Low12(imm), rs1, 3, rd, 0x13)
    ensures var x := X(a, rs1);
            Writes(prog, a, rd, Apply(Sltu, x, imm)) <==> rd == 0 || !Between(x, X(a, Named(Low12(imm))), imm)
  {
    ApplyLess(X(a, rs1), imm);
    hide Apply, LessSigned;
    hide Writes, Effect, IWord, DecodeInst, NextResult, NextOutcome, AluValue, Registers, RdBits, Rs1Bits, Rs2Bits, Opcode, Funct3,
         Funct7, Reg, SetX, Plus4, ImmI, Low12, Sext32, Less64, Between, Named, Fits;
    var w, x, y := prog(a.pc), X(a, rs1), X(a, Named(Low12(imm)));
    SextImm12(imm);
    IFields(Low12(imm), rs1, 3, rd, 0x13);
    SourceField(Low12(imm), rs1, 3, rd, 0x13);
    assert OpImmCode(3, Funct7(w)) == 53;
    DecodeOpImm(a.pc, w);
    UnsignedImmediateValue(a.pc, ImmI(w), x, Sext32(ImmI(w)), x, y);
    ComparesDiffer(x, y, imm);
    ImmediateForm(prog, a, w, 53, rd, if Less64(x, y) then 1 else 0);
    EffectWrites(prog, a, w, rd, if Less64(x, y) then 1 else 0);
    WritesOnly(prog, a, rd, if Less64(x, y) then 1 else 0, if Less64(x, imm) then 1 else 0);
  }

  // ---- MUL

  /** What the truncation of an operand to a signed 32-bit word takes away, in units of 2^32. */
  function Dropped(x: bv64): bv64 { (x >> 32) + (if x & 0x8000_0000 != 0 then 1 else 0) }

  function Scaled(x: bv64): bv64 { x * 0x1_0000_0000 }

  /** The products of what is dropped of one operand with the other. */
  function CrossTerms(x: bv64, y: bv64): bv64 { Sum(Product(Dropped(x), y), Product(Word32(x), Dropped(y))) }

  lemma SumOf(a: bv64, b: bv64)
    ensures Sum(a, b) == a + b
  {
  }

  lemma ProductOf(a: bv64, b: bv64)
    ensures Product(a, b) == a * b && Product(b, a) == a * b
  {
  }

  lemma ScaledOf(a: bv64)
    ensures Scaled(a) == a * 0x1_0000_0000
  {
  }

  lemma DistributesRaw(a: bv64, b: bv64, c: bv64)
    ensures Product(a + b, c) == Sum(a * c, b * c)
  {
  }

  lemma Distributes(a: bv64, b: bv64, c: bv64)
    ensures Product(Sum(a, b), c) == Sum(Product(a, c), Product(b, c))
  {
    DistributesRaw(a, b, c);
    ProductOf(a, c);
    ProductOf(b, c);
    SumOf(a, b);
    hide Product, Sum;
  }

  lemma ScalesRaw(h: bv64, y: bv64)
    ensures Product(h * 0x1_0000_0000, y) == Scaled(h * y)
  {
  }

  lemma Scales(h: bv64, y: bv64)
    ensures Product(Scaled(h), y) == Scaled(Product(h, y))
  {
    ScalesRaw(h, y);
    ProductOf(h, y);
    ScaledOf(h);
    hide Product, Scaled;
  }

  lemma Commutes(a: bv64, b: bv64)
    ensures Product(a, b) == Product(b, a)
  {
    ProductOf(a, b);
    hide Product;
  }

  lemma ScaledSumRaw(t: bv64, s: bv64)
    ensures Scaled(t + s) == Sum(t * 0x1_0000_0000, s * 0x1_0000_0000)
  {
  }

  lemma ScaledSum(t: bv64, s: bv64)
    ensures Scaled(Sum(t, s)) == Sum(Scaled(t), Scaled(s))
  {
    ScaledSumRaw(t, s);
    ScaledOf(t);
    ScaledOf(s);
    SumOf(t, s);
    hide Scaled, Sum;
  }

  lemma AssociatesRaw(a: bv64, b: bv64, c: bv64)
    ensures Sum(a + b, c) == Sum(a, b + c)
  {
  }

  lemma Associates(a: bv64, b: bv64, c: bv64)
    ensures Sum(Sum(a, b), c) == Sum(a, Sum(b, c))
  {
    AssociatesRaw(a, b, c);
    SumOf(a, b);
    SumOf(b, c);
    hide Sum;
  }

  lemma SumCommutes(a: bv64, b: bv64)
    ensures Sum(a, b) == Sum(b, a)
  {
  }

  lemma DroppedClear(x: bv64)
    requires x & 0x8000_0000 == 0
    ensures x == (x & 0xFFFF_FFFF) + (x >> 32) * 0x1_0000_0000
    ensures Word32(x) == x & 0xFFFF_FFFF && Dropped(x) == x >> 32
  {
  }

  lemma DroppedSet(x: bv64)
    requires x & 0x8000_0000 != 0
    ensures x == (x | 0xFFFF_FFFF_0000_0000) + ((x >> 32) + 1) * 0x1_0000_0000
  {
  }

  lemma DroppedSetIs(x: bv64)
    requires x & 0x8000_0000 != 0
    ensures Word32(x) == x | 0xFFFF_FFFF_0000_0000 && Dropped(x) == (x >> 32) + 1
  {
  }

  lemma DroppedIs(x: bv64)
    ensures x == Sum(Word32(x), Scaled(Dropped(x)))
  {
    if x & 0x8000_0000 == 0 {
      DroppedClear(x);
      ScaledOf(x >> 32);
      SumOf(x & 0xFFFF_FFFF, (x >> 32) * 0x1_0000_0000);
    } else {
      DroppedSet(x);
      DroppedSetIs(x);
      ScaledOf((x >> 32) + 1);
      SumOf(x | 0xFFFF_FFFF_0000_0000, ((x >> 32) + 1) * 0x1_0000_0000);
    }
    hide Word32, Dropped, Scaled, Sum;
  }

  lemma ProductIs(x: bv64, y: bv64)
    ensures Product(x, y) == Sum(Product(Word32(x), Word32(y)), Scaled(CrossTerms(x, y)))
  {
    hide Word32, Scaled, Dropped, Product, Sum;
    DroppedIs(x);
    DroppedIs(y);
    var sx, hx, sy, hy := Word32(x), Dropped(x), Word32(y), Dropped(y);
    Distributes(sx, Scaled(hx), y);
    Scales(hx, y);
    Commutes(sx, y);
    Distributes(sy, Scaled(hy), sx);
    Scales(hy, sx);
    Commutes(sx, sy);
    Commutes(hy, sx);
    Associates(Product(sx, sy), Scaled(Product(sx, hy)), Scaled(Product(hx, y)));
    SumCommutes(Scaled(Product(sx, hy)), Scaled(Product(hx, y)));
    ScaledSum(Product(hx, y), Product(sx, hy));
  }

  lemma ScaledVanishes(p: bv64, t: bv64)
    ensures Sum(p, Scaled(t)) == p <==> LowWord(t) == 0
  {
  }

  lemma MulValue(pc: bv64, imm: bv32, a: bv64, b: bv64, x: bv64, y: bv64)
    ensures AluValue(16, pc, imm, a, b, x, y) == MulLow(x, y)
  {
    hide SignedLess, Sra64, Add64, Sub64, Shl64, Shr64, Xor64, Or64, And64, Less64, Low6, Sext32, Low32, Add32,
         Sub32, Shl32, Sra32, MulLow, Low5;
  }

  lemma MulLowRaw(x: bv64, y: bv64)
    ensures MulLow(x, y) == Product(Sext32(Low32(x)), Sext32(Low32(y)))
  {
    hide Sext32, Low32;
  }

  lemma MulLowIs(x: bv64, y: bv64)
    ensures MulLow(x, y) == Product(Word32(x), Word32(y))
  {
    MulLowRaw(x, y);
    Sext32Is(x);
    Sext32Is(y);
    hide MulLow, Product, Sext32, Low32, Word32;
  }

  /** MUL multiplies the operands truncated to signed 32-bit words: it is right exactly when the products with
      what is dropped cancel modulo 2^32, or x0 is the destination. */
  lemma Multiply(prog: Program, a: Arch, rd: bv32, rs1: bv32, rs2: bv32)
    requires Register(rd) && Register(rs1) && Register(rs2) && |a.regs| == LOGICAL_REG_COUNT
    requires prog(a.pc) == RWord(1, rs2, rs1, 0, rd, 0x33)
    ensures Writes(prog, a, rd, Product(Word32(X(a, rs1)), Word32(X(a, rs2))))
    ensures Writes(prog, a, rd, Product(X(a, rs1), X(a, rs2))) <==> rd == 0 || LowWord(CrossTerms(X(a, rs1), X(a, rs2))) == 0
  {
    hide Writes, Effect, RWord, DecodeInst, NextResult, NextOutcome, AluValue, Registers, OpCode, RdBits, Rs1Bits, Rs2Bits,
         Opcode, Funct3, Funct7, X, SetX, Plus4, Product, Word32, MulLow, CrossTerms, LowWord, Scaled, Sum;
    var w, x, y := prog(a.pc), X(a, rs1), X(a, rs2);
    RFields(1, rs2, rs1, 0, rd, 0x33);
    MulCode();
    DecodeOp(a.pc, w);
    MulValue(a.pc, 0, x, y, x, y);
    MulLowIs(x, y);
    RegisterForm(prog, a, w, 16, rd, MulLow(x, y));
    EffectWrites(prog, a, w, rd, MulLow(x, y));
    ProductIs(x, y);
    ScaledVanishes(Product(Word32(x), Word32(y)), CrossTerms(x, y));
    WritesOnly(prog, a, rd, MulLow(x, y), Product(x, y));
  }

  lemma MulCode()
    ensures OpCode(0, 1) == 16
  {
  }
}
