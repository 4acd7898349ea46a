/** Every instruction word: the encoded instructions of the instruction set, the fences and system words, and the
    words the decoder rejects. */
module Instructions {
  import opened BoomTypes
  import opened Decode
  import opened Execute
  import opened Pipeline
  import opened Reference
  import opened InstructionSet
  import opened Isa
  import opened Accesses
  import M = Memory

  // ---- Loads and stores

  lemma DecodeLoad(pc: bv64, w: bv32)
    requires Opcode(w) == 0x03 && LoadCode(Funct3(w)) != UOPC_ILLEGAL
    ensures DecodesTo(DecodeInst(pc, w), w, LoadCode(Funct3(w)), DecodeControl(Op1Rs1, Op2Imm, true, false), NO_BRANCH, ImmI(w), DstInt)
    ensures DecodeInst(pc, w).mem == MemoryInfo(LoadSize(Funct3(w)), Funct3(w) != 4 && Funct3(w) != 5 && Funct3(w) != 6)
  {
    hide Opcode, Funct3, Funct7, ImmI, Registers, LoadCode, LoadSize;
  }

  lemma DecodeStore(pc: bv64, w: bv32)
    requires Opcode(w) == 0x23 && StoreCode(Funct3(w)) != UOPC_ILLEGAL
    ensures DecodesTo(DecodeInst(pc, w), w, StoreCode(Funct3(w)), DecodeControl(Op1Rs1, Op2Rs2, false, true), NO_BRANCH, ImmS(w), DstNone)
    ensures DecodeInst(pc, w).mem == MemoryInfo(StoreSize(Funct3(w)), false)
  {
    hide Opcode, Funct3, Funct7, ImmS, Registers, StoreCode, StoreSize;
  }

  lemma LoadFormat(w: Width, signed: bool)
    requires w == Double ==> signed
    ensures var f3 := LoadFunct3(w, signed);
            f3 < 8 && LoadUopc(LoadCode(f3)) && LoadSize(f3) == SizeCode(w) && (f3 != 4 && f3 != 5 && f3 != 6 <==> signed)
  {
  }

  lemma StoreFormat(w: Width)
    ensures var f3 := WidthFunct3(w); f3 < 8 && StoreUopc(StoreCode(f3)) && StoreSize(f3) == SizeCode(w)
  {
  }

  lemma MaskIs(w: Width)
    ensures MaskForSize(SizeCode(w)) == ByteMask(w)
  {
  }

  lemma AccessValue(c: nat, pc: bv64, imm: bv32, a: bv64, b: bv64, x: bv64, y: bv64)
    requires LoadUopc(c) || StoreUopc(c)
    ensures AluValue(c, pc, imm, a, b, x, y) == AccessAddress(x, imm)
  {
    hide SignedLess, Sra64, Add64, Sub64, Shl64, Shr64, Xor64, Or64, And64, Less64, Low6, Sext32,
         Low32, Add32, Sub32, Shl32, Sra32, MulLow, Low5;
  }

  /** What the execute stage makes of a load or store. */
  lemma AccessResult(prog: Program, a: Arch)
    requires var d := NextUop(prog, a); (LoadUopc(d.uopc) || StoreUopc(d.uopc)) && !d.exception
    ensures var d, q := NextUop(prog, a), NextResult(prog, a);
            var addr := AccessAddress(Reg(a.regs, d.rename.lrs1), d.imm);
            && q.memoryValid && q.isLoad == LoadUopc(d.uopc) && q.isStore == StoreUopc(d.uopc)
            && q.signedLoad == (LoadUopc(d.uopc) && d.mem.signed) && q.address == q.result == addr
            && q.mask == MaskForSize(d.mem.size) && q.size == d.mem.size
            && q.storeData == (if StoreUopc(d.uopc) then Reg(a.regs, d.rename.lrs2) else 0)
            && q.uop == d && d.pc == a.pc && d.inst == prog(a.pc) && q.valid && !q.mispredict
  {
    hide DecodeInst, MaskForSize, Operand1, Operand2, RedirectTarget, Reg, AccessAddress, AluValue, Mispredicts;
    var d := NextUop(prog, a);
    var x, y := Reg(a.regs, d.rename.lrs1), Reg(a.regs, d.rename.lrs2);
    NoRedirect(d.uopc, x, y);
    AccessValue(d.uopc, d.pc, d.imm, Operand1(d.ctrl.op1Sel, d.pc, x), Operand2(d.ctrl.op2Sel, d.imm, y), x, y);
  }

  lemma AddressIs(x: bv64, imm: bv32)
    ensures AccessAddress(x, imm) == Sum(x, Sext32(imm))
  {
    hide Sext32;
  }

  lemma ValidAccess(i: Instr)
    requires Valid(i)
    ensures i.Load? ==> Register(i.rd) && Register(i.rs1) && Fits(i.imm, 0x800) && (i.width == Double ==> i.signed)
    ensures i.Store? ==> Register(i.rs1) && Register(i.rs2) && Fits(i.imm, 0x800)
  {
    hide Register, Fits;
  }

  /** The word of a load, decoded. */
  lemma LoadWord(w: Width, signed: bool, rd: bv32, rs1: bv32, imm: bv64)
    requires Valid(Load(w, signed, rd, rs1, imm))
    ensures var word := IWord(Low12(imm), rs1, LoadFunct3(w, signed), rd, 0x03);
            && Opcode(word) == 0x03 && Funct3(word) == LoadFunct3(w, signed) && RdBits(word) == rd && Rs1Bits(word) == rs1
            && Sext32(ImmI(word)) == imm && (w == Double ==> signed)
  {
    ValidAccess(Load(w, signed, rd, rs1, imm));
    SextImm12(imm);
    LoadFormat(w, signed);
    hide Valid, Fits, IWord, Opcode, Funct3, RdBits, Rs1Bits, ImmI, Sext32, Low12, LoadFunct3, LoadCode, LoadSize;
    IFields(Low12(imm), rs1, LoadFunct3(w, signed), rd, 0x03);
    IImmediate(Low12(imm), rs1, LoadFunct3(w, signed), rd, 0x03);
  }

  lemma StoreWord(w: Width, rs1: bv32, rs2: bv32, imm: bv64)
    requires Valid(Store(w, rs1, rs2, imm))
    ensures var word := SWord(Low12(imm), rs2, rs1, WidthFunct3(w));
            && Opcode(word) == 0x23 && Funct3(word) == WidthFunct3(w) && Rs1Bits(word) == rs1 && Rs2Bits(word) == rs2
            && Sext32(ImmS(word)) == imm
  {
    ValidAccess(Store(w, rs1, rs2, imm));
    SextImm12(imm);
    StoreFormat(w);
    hide Valid, Fits, SWord, Opcode, Funct3, Rs1Bits, Rs2Bits, ImmS, Sext32, Low12, WidthFunct3, StoreCode, StoreSize;
    SFields(Low12(imm), rs2, rs1, WidthFunct3(w));
    SImmediate(Low12(imm), rs2, rs1, WidthFunct3(w));
  }

  /** The request of an encoded load or store: its address, width, extension and datum. */
  lemma AccessRequested(prog: Program, a: Arch, i: Instr)
    requires Valid(i) && prog(a.pc) == Encoding(i) && (i.Load? || i.Store?)
    ensures Asks(i, a, NextResult(prog, a))
  {
    hide Valid, IWord, SWord, DecodeInst, NextResult, Registers, RdBits, Rs1Bits, Rs2Bits, Opcode, Funct3, Reg,
         ImmI, ImmS, Sext32, Low12, LoadFunct3, WidthFunct3, LoadCode, StoreCode, LoadSize, StoreSize,
         MaskForSize, AccessAddress, Sum, SizeCode, ByteMask;
    var w, d := prog(a.pc), NextUop(prog, a);
    NamedRegisters(w, DstInt);
    NamedRegisters(w, DstNone);
    MaskIs(i.width);
    if i.Load? {
      LoadWord(i.width, i.signed, i.rd, i.rs1, i.imm);
      LoadFormat(i.width, i.signed);
      DecodeLoad(a.pc, w);
    } else {
      StoreWord(i.width, i.rs1, i.rs2, i.imm);
      StoreFormat(i.width);
      DecodeStore(a.pc, w);
    }
    AccessResult(prog, a);
    AddressIs(X(a, i.rs1), d.imm);
  }

  lemma LoadOutcome(prog: Program, a: Arch)
    requires var d := NextUop(prog, a); LoadUopc(d.uopc) && !d.exception && d.rename.dst == DstInt
    ensures var rd, q := NextUop(prog, a).rename.ldst, NextResult(prog, a);
            var v := Loaded(q, a.mem);
            NextOutcome(prog, a)
            == if rd != 0 then
                 Commits(Arch(Plus4(a.pc), SetReg(a.regs, rd, v), a.mem),
                         CommitEntry(a.pc, prog(a.pc), true, rd, v, true, false, q.address, v, q.mask))
               else
                 Commits(Arch(Plus4(a.pc), a.regs, a.mem),
                         CommitEntry(a.pc, prog(a.pc), false, 0, 0, true, false, q.address, v, q.mask))
  {
    AccessResult(prog, a);
    NextInOrder(a.pc, NextResult(prog, a));
    hide NextUop, NextResult, Loaded, AccessAddress, MaskForSize, Successor, Plus4;
  }

  lemma StoreOutcome(prog: Program, a: Arch)
    requires var d := NextUop(prog, a); StoreUopc(d.uopc) && !d.exception && d.rename.dst == DstNone
    ensures var q := NextResult(prog, a);
            NextOutcome(prog, a)
            == Commits(Arch(Plus4(a.pc), a.regs, M.Write(a.mem, q.address, q.storeData, q.size)),
                       CommitEntry(a.pc, prog(a.pc), false, 0, 0, true, true, q.address, q.storeData, q.mask))
  {
    AccessResult(prog, a);
    NextInOrder(a.pc, NextResult(prog, a));
    hide NextUop, NextResult, AccessAddress, MaskForSize, Successor, Plus4, M.Write;
  }

  // ---- The instructions

  /** The machine's next step is the instruction: it has its effect and reports it. */
  ghost predicate Performs(prog: Program, a: Arch, i: Instr) {
    var o := NextOutcome(prog, a);
    o.Commits? && o.record == Report(i, a) && Means(i, a, o.next)
  }

  lemma WordOfIs(t: bv64)
    ensures Align4(t) == WordOf(t) && (WordOf(t) == t <==> MultipleOfFour(t))
  {
  }

  lemma LoadedValueIs(prog: Program, a: Arch, i: Instr)
    requires Valid(i) && prog(a.pc) == Encoding(i) && i.Load?
    ensures Loaded(NextResult(prog, a), a.mem)
         == LoadValue(M.ReadBeat(a.mem, Accessed(i, a)), Accessed(i, a), SizeCode(i.width), i.signed)
  {
    AccessRequested(prog, a, i);
    hide Valid, Encoding, NextResult, SizeCode, ByteMask, M.ReadBeat, LoadValue, Accessed;
  }

  lemma NothingBeyondIs(i: Instr, a: Arch)
    requires i.Load?
    ensures NothingBeyond(i, a) <==> ZeroBetween(a.mem, Accessed(i, a), Nearby(Accessed(i, a), Bytes(i.width)), Bytes(i.width))
  {
    SizeIs(i.width);
    hide Bytes, SizeCode, M.ReadByte, ZeroBetween, Nearby, InRange, SameDoubleword, Accessed;
    BeyondIsZero(a.mem, Accessed(i, a), Bytes(i.width));
  }

  lemma LoadedIs(prog: Program, a: Arch, i: Instr)
    requires Valid(i) && prog(a.pc) == Encoding(i) && i.Load?
    ensures Loaded(NextResult(prog, a), a.mem) == Result(i, a) <==> NothingBeyond(i, a)
  {
    hide Valid, Encoding, NextResult, SizeCode, Bytes, M.ReadBeat, LoadValue, LittleEndian, Extend, ZeroBetween,
         Nearby, Accessed, Loaded, NothingBeyond;
    LoadedValueIs(prog, a, i);
    NothingBeyondIs(i, a);
    LoadExact(a.mem, Accessed(i, a), i.width, i.signed);
  }

  /** The outcome of a load of this value. */
  function LoadEffect(i: Instr, a: Arch, v: bv64): Outcome
    requires i.Load?
  {
    Commits(a.(pc := Sum(a.pc, 4), regs := SetX(a.regs, i.rd, v)),
            CommitEntry(a.pc, Encoding(i), i.rd != 0, i.rd as nat, if i.rd != 0 then v else 0,
                        true, false, Accessed(i, a), v, ByteMask(i.width)))
  }

  lemma LoadCommits(prog: Program, a: Arch, i: Instr)
    requires Valid(i) && prog(a.pc) == Encoding(i) && i.Load?
    ensures NextOutcome(prog, a) == LoadEffect(i, a, Loaded(NextResult(prog, a), a.mem))
  {
    LoadDecoded(prog, a, i);
    AccessRequested(prog, a, i);
    FollowingIs(a.pc);
    hide Valid, Encoding, NextUop, NextResult, NextOutcome, Plus4, Sum, SizeCode, ByteMask, Accessed, Loaded;
    LoadOutcome(prog, a);
  }

  lemma LoadEffectIs(i: Instr, a: Arch, v: bv64)
    requires i.Load?
    ensures LoadEffect(i, a, v).next.pc == Target(i, a)
    ensures LoadEffect(i, a, v).record == Report(i, a) && Means(i, a, LoadEffect(i, a, v).next) <==> v == Result(i, a)
  {
    hide Encoding, Sum, SizeCode, ByteMask, Accessed, Result, SetX;
  }

  lemma LoadPerforms(prog: Program, a: Arch, i: Instr)
    requires Valid(i) && prog(a.pc) == Encoding(i) && i.Load?
    ensures NextOutcome(prog, a).Commits? && NextOutcome(prog, a).next.pc == Target(i, a)
    ensures Performs(prog, a, i) <==> NothingBeyond(i, a)
  {
    hide Valid, Encoding, NextResult, NextOutcome, Loaded, NothingBeyond, Result, Means, Report, Target;
    LoadCommits(prog, a, i);
    LoadEffectIs(i, a, Loaded(NextResult(prog, a), a.mem));
    LoadedIs(prog, a, i);
  }

  lemma LoadDecoded(prog: Program, a: Arch, i: Instr)
    requires Valid(i) && prog(a.pc) == Encoding(i) && i.Load?
    ensures var d := NextUop(prog, a);
            && LoadUopc(d.uopc) && !d.exception && d.rename.dst == DstInt
            && d.rename.ldst == i.rd as nat && (d.rename.ldst != 0 <==> i.rd != 0)
  {
    LoadWord(i.width, i.signed, i.rd, i.rs1, i.imm);
    LoadFormat(i.width, i.signed);
    hide Valid, IWord, DecodeInst, Registers, RdBits, Rs1Bits, Opcode, Funct3, ImmI, Sext32, Low12, LoadFunct3,
         LoadCode, LoadSize, SizeCode;
    DecodeLoad(a.pc, prog(a.pc));
    NamedRegisters(prog(a.pc), DstInt);
  }

  lemma StoreDecoded(prog: Program, a: Arch, i: Instr)
    requires Valid(i) && prog(a.pc) == Encoding(i) && i.Store?
    ensures var d := NextUop(prog, a); StoreUopc(d.uopc) && !d.exception && d.rename.dst == DstNone
  {
    StoreWord(i.width, i.rs1, i.rs2, i.imm);
    StoreFormat(i.width);
    hide Valid, SWord, DecodeInst, Registers, Rs1Bits, Rs2Bits, Opcode, Funct3, ImmS, Sext32, Low12, WidthFunct3,
         StoreCode, StoreSize, SizeCode;
    DecodeStore(a.pc, prog(a.pc));
    NamedRegisters(prog(a.pc), DstNone);
  }

  lemma StorePerforms(prog: Program, a: Arch, i: Instr)
    requires Valid(i) && prog(a.pc) == Encoding(i) && i.Store?
    ensures Performs(prog, a, i) && NextOutcome(prog, a).Commits? && NextOutcome(prog, a).next.pc == Target(i, a)
  {
    StoreDecoded(prog, a, i);
    AccessRequested(prog, a, i);
    FollowingIs(a.pc);
    hide Valid, Encoding, NextUop, NextResult, NextOutcome, Plus4, Sum, Reg, SizeCode, ByteMask, Bytes, M.Write,
         Overwrites, Accessed;
    StoreOutcome(prog, a);
    StoreWrites(a.mem, Accessed(i, a), X(a, i.rs2), i.width);
  }

  /** An effect is the instruction's just when it continues at its target. */
  lemma EffectMeans(i: Instr, a: Arch, pc: bv64)
    requires !i.Load? && !i.Store?
    ensures var o := Effect(a, Encoding(i), Destination(i), Result(i, a), pc);
            && o.next.pc == pc && o.record == Report(i, a) && (Means(i, a, o.next) <==> pc == Target(i, a))
  {
    hide Encoding, Destination, Result, Target, SetX, Overwrites, LittleEndian, Extend;
  }

  lemma ComputationPerforms(prog: Program, a: Arch, i: Instr)
    requires Valid(i) && prog(a.pc) == Encoding(i) && !i.Load? && !i.Store?
    ensures NextOutcome(prog, a).Commits? && NextOutcome(prog, a).next.pc == Destined(i, a)
    ensures Performs(prog, a, i) <==> AlignedTarget(i, a)
  {
    Stepped(prog, a, i);
    WordOfIs(Target(i, a));
    hide Valid, Encoding, NextOutcome, Align4, WordOf, MultipleOfFour, Target, Result, Destination, Transfers, Effect, Report, Means;
    EffectMeans(i, a, Destined(i, a));
  }

  /** Every encoded instruction of the instruction set, with any operands, steps the sequential machine exactly as
      the instruction set says, memory and commit record included, unless it transfers control to an address that
      is no multiple of four or loads something other than zeros from beyond its doubleword. Whatever it does, it
      commits, and control goes to the word its target lies in. */
  lemma InstructionExecutes(prog: Program, a: Arch, i: Instr)
    requires Valid(i) && prog(a.pc) == Encoding(i)
    ensures NextOutcome(prog, a).Commits? && NextOutcome(prog, a).next.pc == Destined(i, a)
    ensures Performs(prog, a, i) <==> AlignedTarget(i, a) && NothingBeyond(i, a)
  {
    hide Valid, Encoding, Performs, NextOutcome, MultipleOfFour, Target;
    if i.Load? {
      LoadPerforms(prog, a, i);
    } else if i.Store? {
      StorePerforms(prog, a, i);
    } else {
      ComputationPerforms(prog, a, i);
    }
  }

  /** A step of the machine on one of these instructions is its meaning. */
  lemma MachineFollowsMeaning(prog: Program, mem: M.Mem, n: nat, i: Instr)
    requires var s := After(prog, mem, n); !s.stopped && Valid(i) && prog(s.arch.pc) == Encoding(i)
    requires var s := After(prog, mem, n); AlignedTarget(i, s.arch) && NothingBeyond(i, s.arch)
    ensures var s, s' := After(prog, mem, n), After(prog, mem, n + 1);
            Means(i, s.arch, s'.arch) && s'.trace == s.trace + [Report(i, s.arch)] && !s'.stopped
  {
    hide OutcomeOf, NextResult, Valid, Encoding, AlignedTarget, NothingBeyond, Means, Report, Target;
    InstructionExecutes(prog, After(prog, mem, n).arch, i);
    assert After(prog, mem, n + 1) == Advance(After(prog, mem, n), NextResult(prog, After(prog, mem, n).arch));
  }

  // ---- Other words

  /** The fields the decoder rejects: unknown opcodes and reserved function codes. */
  predicate Reserved(op: bv32, f3: bv32, f7: bv32) {
    if op == 0x63 then f3 == 2 || f3 == 3
    else if op == 0x03 then f3 == 7
    else if op == 0x23 then f3 > 3
    else if op == 0x1B || op == 0x3B then f3 != 0 && f3 != 1 && f3 != 5
    else if op == 0x33 then f7 == 1 && f3 != 0
    else if op == 0x73 then f3 == 4
    else op != 0x37 && op != 0x17 && op != 0x6F && op != 0x67 && op != 0x13 && op != 0x0F
  }

  predicate IllegalWord(w: bv32) { Reserved(w & 0x7F, (w >> 12) & 0x7, w >> 25) }

  /** ECALL: SYSTEM with everything but the ignored rs1 field zero. */
  predicate EcallWord(w: bv32) { w & 0xFFF0_7FFF == 0x73 }

  predicate FenceWord(w: bv32) { w & 0x7F == 0x0F }
  predicate PrivilegedWord(w: bv32) { w & 0x707F == 0x73 && !EcallWord(w) }
  predicate CsrWord(w: bv32) { w & 0x7F == 0x73 && w & 0x7000 != 0 && w & 0x7000 != 0x4000 }

  lemma WordFields(w: bv32)
    ensures Opcode(w) == w & 0x7F && Funct3(w) == (w >> 12) & 0x7 && Funct7(w) == w >> 25 && Funct3(w) < 8
  {
  }

  lemma SystemFields(w: bv32)
    ensures EcallWord(w) <==> Opcode(w) == 0x73 && Funct3(w) == 0 && RdField(w) == 0 && w >> 20 == 0
    ensures CsrWord(w) <==> Opcode(w) == 0x73 && Funct3(w) != 0 && Funct3(w) != 4
    ensures PrivilegedWord(w) <==> Opcode(w) == 0x73 && Funct3(w) == 0 && !EcallWord(w)
    ensures FenceWord(w) <==> Opcode(w) == 0x0F
  {
  }

  lemma DecodedCode(pc: bv64, w: bv32)
    ensures DecodeInst(pc, w).uopc == UOPC_ILLEGAL <==> IllegalWord(w)
    ensures DecodeInst(pc, w).uopc == UOPC_ECALL <==> EcallWord(w)
  {
    WordFields(w);
    SystemFields(w);
    hide Opcode, Funct3, Funct7, IllegalWord, EcallWord, Registers, ImmI, ImmS, ImmB, ImmJ, ImmU, RdField, LoadSize, StoreSize;
    DecodedFields(pc, w);
    IllegalIs(w);
  }

  lemma IllegalIs(w: bv32)
    ensures IllegalWord(w) <==> Reserved(Opcode(w), Funct3(w), Funct7(w))
  {
    WordFields(w);
    hide Opcode, Funct3, Funct7, Reserved;
  }

  lemma DecodedFields(pc: bv64, w: bv32)
    ensures DecodeInst(pc, w).uopc == UOPC_ILLEGAL <==> Reserved(Opcode(w), Funct3(w), Funct7(w))
    ensures DecodeInst(pc, w).uopc == UOPC_ECALL <==> Opcode(w) == 0x73 && Funct3(w) == 0 && RdField(w) == 0 && w >> 20 == 0
  {
    WordFields(w);
    hide Opcode, Funct3, Funct7, Registers, ImmI, ImmS, ImmB, ImmJ, ImmU, RdField, LoadSize, StoreSize;
  }

  lemma StopsOrPasses(prog: Program, a: Arch)
    ensures NextOutcome(prog, a).Stops? <==> NextUop(prog, a).uopc == UOPC_ILLEGAL
    ensures NextOutcome(prog, a).Passes? <==> NextUop(prog, a).uopc == UOPC_ECALL
    ensures NextOutcome(prog, a).Passes? ==> NextOutcome(prog, a) == Passes(a.(pc := Plus4(a.pc)))
  {
    hide DecodeInst, AluValue, RedirectTarget, Operand1, Operand2, AccessAddress, MaskForSize, Plus4, Align4,
         Record, Written, Stored, SignedLess, Less64;
  }

  lemma DecodeSystem(pc: bv64, w: bv32)
    ensures FenceWord(w) ==> DecodesTo(DecodeInst(pc, w), w, 63, NO_CTRL, NO_BRANCH, 0, DstNone)
    ensures PrivilegedWord(w) ==> DecodesTo(DecodeInst(pc, w), w, 118, NO_CTRL, NO_BRANCH, 0, DstNone)
    ensures CsrWord(w) ==>
              DecodesTo(DecodeInst(pc, w), w, CsrCode(Funct3(w)), DecodeControl(Op1Rs1, Op2Imz, false, false), NO_BRANCH, 0, DstInt)
              && 67 <= CsrCode(Funct3(w)) <= 72
  {
    SystemFields(w);
    WordFields(w);
    hide Opcode, Funct3, Funct7, Registers, RdField, FenceWord, PrivilegedWord, CsrWord, EcallWord;
  }

  lemma NothingWritten(prog: Program, a: Arch, c: nat)
    requires DecodesTo(NextUop(prog, a), prog(a.pc), c, NO_CTRL, NO_BRANCH, 0, DstNone) && (c == 63 || c == 118)
    ensures NextOutcome(prog, a) == Effect(a, prog(a.pc), 0, 0, Plus4(a.pc))
  {
    hide NextUop, NextResult, AluValue, Mispredicts, RedirectTarget, Operand1, Operand2, Successor, NextOutcome, Plus4;
    var d := NextUop(prog, a);
    ComputedOutcome(prog, a);
    ResultIs(prog, a);
    NoRedirect(c, Reg(a.regs, d.rename.lrs1), Reg(a.regs, d.rename.lrs2));
    NextInOrder(a.pc, NextResult(prog, a));
  }

  lemma CsrValue(c: nat, pc: bv64, imm: bv32, a: bv64, b: bv64, x: bv64, y: bv64)
    requires 67 <= c <= 72
    ensures AluValue(c, pc, imm, a, b, x, y) == 0
  {
    hide SignedLess, Sra64, Add64, Sub64, Shl64, Shr64, Xor64, Or64, And64, Less64, Low6, Sext32, Low32, Add32,
         Sub32, Shl32, Sra32, MulLow, Low5;
  }

  lemma CsrExecutes(prog: Program, a: Arch)
    requires CsrWord(prog(a.pc))
    ensures NextOutcome(prog, a) == Effect(a, prog(a.pc), RdBits(prog(a.pc)), 0, Plus4(a.pc))
  {
    hide DecodeInst, NextResult, NextOutcome, AluValue, Registers, RdBits, Reg, Plus4, Operand1, Operand2, CsrWord, CsrCode, Effect;
    var w, d := prog(a.pc), NextUop(prog, a);
    DecodeSystem(a.pc, w);
    ResultIs(prog, a);
    var x, y := Reg(a.regs, d.rename.lrs1), Reg(a.regs, d.rename.lrs2);
    CsrValue(d.uopc, d.pc, d.imm, Operand1(d.ctrl.op1Sel, d.pc, x), Operand2(d.ctrl.op2Sel, d.imm, y), x, y);
    ComputesInto(prog, a, w, RdBits(w), 0);
  }

  /** The other words: the machine stops at exactly the illegal ones and passes exactly the ECALLs; fences and
      the privileged instructions do nothing, and reading a control register gives zero. */
  lemma OtherWordsExecute(prog: Program, a: Arch)
    ensures NextOutcome(prog, a).Stops? <==> IllegalWord(prog(a.pc))
    ensures NextOutcome(prog, a).Passes? <==> EcallWord(prog(a.pc))
    ensures EcallWord(prog(a.pc)) ==> NextOutcome(prog, a) == Passes(a.(pc := Sum(a.pc, 4)))
    ensures FenceWord(prog(a.pc)) || PrivilegedWord(prog(a.pc)) ==> NextOutcome(prog, a) == Effect(a, prog(a.pc), 0, 0, Sum(a.pc, 4))
    ensures CsrWord(prog(a.pc)) ==> NextOutcome(prog, a) == Effect(a, prog(a.pc), RdBits(prog(a.pc)), 0, Sum(a.pc, 4))
  {
    hide DecodeInst, NextResult, NextOutcome, RdBits, Plus4, Sum, CsrWord, PrivilegedWord, FenceWord, EcallWord,
         IllegalWord, Effect, DecodesTo;
    var w := prog(a.pc);
    FollowingIs(a.pc);
    DecodedCode(a.pc, w);
    StopsOrPasses(prog, a);
    DecodeSystem(a.pc, w);
    if CsrWord(w) {
      CsrExecutes(prog, a);
    }
    if FenceWord(w) {
      NothingWritten(prog, a, 63);
    }
    if PrivilegedWord(w) {
      NothingWritten(prog, a, 118);
    }
  }

  // ---- Flags

  /** The queue and the flags of a uop are those of its word's opcode field. */
  lemma DecodedFlags(pc: bv64, w: bv32)
    ensures var u, op := DecodeInst(pc, w), w & 0x7F;
            && u.iqType == (if op == 0x03 || op == 0x23 || op == 0x0F then IqMem else IqAlu)
            && (u.ctrl.isLoad <==> op == 0x03) && (u.ctrl.isSta <==> op == 0x23)
            && (u.branch.isBr <==> op == 0x63) && (u.branch.isJal <==> op == 0x6F) && (u.branch.isJalr <==> op == 0x67)
  {
    WordFields(w);
    hide Opcode, Funct3, Funct7, Registers, ImmI, ImmS, ImmB, ImmJ, ImmU, RdField, LoadSize, StoreSize,
         BranchCode, LoadCode, StoreCode, OpImmCode, OpImm32Code, OpCode, Op32Code, CsrCode, JumpDst;
    assert Opcode(w) == w & 0x7F;
  }

  // ---- Function codes the instruction set leaves undefined

  /** The decoder looks at funct7 only to tell SUB, SRA and MUL from the rest: any other value acts like zero. */
  lemma OtherFunct7(prog: Program, prog': Program, a: Arch, f7: bv32, rs2: bv32, rs1: bv32, f3: bv32, rd: bv32, op: bv32)
    requires Register(rd) && Register(rs1) && Register(rs2) && f3 < 8 && f7 < 0x80 && f7 != 0x20
    requires (op == 0x33 && f7 != 1) || op == 0x3B
    requires prog(a.pc) == RWord(f7, rs2, rs1, f3, rd, op) && prog'(a.pc) == RWord(0, rs2, rs1, f3, rd, op)
    ensures NextResult(prog, a) == NextResult(prog', a).(uop := NextUop(prog, a))
    ensures NextUop(prog, a) == NextUop(prog', a).(inst := prog(a.pc))
  {
    RFields(f7, rs2, rs1, f3, rd, op);
    RFields(0, rs2, rs1, f3, rd, op);
    SameRegisters(prog(a.pc), prog'(a.pc));
    SameCode(f3, f7);
    hide RWord, Registers, Opcode, Funct3, Funct7, RdBits, Rs1Bits, Rs2Bits, DecodeInst, OpCode, Op32Code;
    SameDecode(a.pc, prog(a.pc), prog'(a.pc));
    SameResult(NextUop(prog, a), NextUop(prog', a), Reg(a.regs, NextUop(prog, a).rename.lrs1), Reg(a.regs, NextUop(prog, a).rename.lrs2));
  }

  lemma SameDecode(pc: bv64, w: bv32, w': bv32)
    requires Opcode(w) == Opcode(w') && Registers(w, DstInt) == Registers(w', DstInt)
    requires (Opcode(w) == 0x33 && OpCode(Funct3(w), Funct7(w)) == OpCode(Funct3(w'), Funct7(w')))
             || (Opcode(w) == 0x3B && Op32Code(Funct3(w), Funct7(w)) == Op32Code(Funct3(w'), Funct7(w')))
    ensures DecodeInst(pc, w) == DecodeInst(pc, w').(inst := w)
  {
    hide Opcode, Funct3, Funct7, Registers, OpCode, Op32Code, BranchCode, LoadCode, StoreCode, OpImmCode, OpImm32Code,
         CsrCode, RdField, ImmI, ImmS, ImmB, ImmJ, ImmU;
  }

  lemma SameResult(u: MicroOp, v: MicroOp, x: bv64, y: bv64)
    requires u == v.(inst := u.inst)
    ensures ExecUop(u, x, y) == ExecUop(v, x, y).(uop := u)
  {
    hide AluValue, Mispredicts, RedirectTarget, Operand1, Operand2, AccessAddress, MaskForSize;
  }

  lemma SameRegisters(w: bv32, w': bv32)
    requires RdBits(w) == RdBits(w') && Rs1Bits(w) == Rs1Bits(w') && Rs2Bits(w) == Rs2Bits(w')
    ensures Registers(w, DstInt) == Registers(w', DstInt)
  {
    NamedRegisters(w, DstInt);
    NamedRegisters(w', DstInt);
    hide RdBits, Rs1Bits, Rs2Bits;
  }

  lemma SameCode(f3: bv32, f7: bv32)
    requires f3 < 8 && f7 < 0x80 && f7 != 0x20
    ensures f7 != 1 ==> OpCode(f3, f7) == OpCode(f3, 0)
    ensures Op32Code(f3, f7) == Op32Code(f3, 0)
  {
  }

  /** Every right shift by an immediate with a nonzero upper part is arithmetic. */
  lemma OtherShiftRight(prog: Program, a: Arch, imm12: bv32, rs1: bv32, rd: bv32)
    requires imm12 < 0x1000 && imm12 >> 5 != 0 && Register(rs1) && Register(rd)
    ensures prog(a.pc) == IWord(imm12, rs1, 5, rd, 0x13) ==>
              NextOutcome(prog, a) == Effect(a, prog(a.pc), rd, Apply(Sra, X(a, rs1), imm12 as bv64), Sum(a.pc, 4))
    ensures prog(a.pc) == IWord(imm12, rs1, 5, rd, 0x1B) ==>
              NextOutcome(prog, a) == Effect(a, prog(a.pc), rd, ApplyW(Sra, X(a, rs1), imm12 as bv64), Sum(a.pc, 4))
  {
    hide IWord, NextOutcome, Effect, Apply, ApplyW, X, Sum;
    if prog(a.pc) == IWord(imm12, rs1, 5, rd, 0x13) {
      ShiftRight64(prog, a, imm12, rs1, rd);
    }
    if prog(a.pc) == IWord(imm12, rs1, 5, rd, 0x1B) {
      ShiftRight32(prog, a, imm12, rs1, rd);
    }
  }

  lemma ShiftAmounts(imm12: bv32)
    requires imm12 < 0x1000
    ensures Low6(Sext32(if imm12 & 0x800 != 0 then imm12 | 0xFFFF_F000 else imm12)) == imm12 as bv64 & 0x3F
    ensures Low5(if imm12 & 0x800 != 0 then imm12 | 0xFFFF_F000 else imm12) as bv64 == imm12 as bv64 & 0x1F
  {
  }

  lemma ShiftRight64(prog: Program, a: Arch, imm12: bv32, rs1: bv32, rd: bv32)
    requires imm12 < 0x1000 && imm12 >> 5 != 0 && Register(rs1) && Register(rd) && prog(a.pc) == IWord(imm12, rs1, 5, rd, 0x13)
    ensures NextOutcome(prog, a) == Effect(a, prog(a.pc), rd, Apply(Sra, X(a, rs1), imm12 as bv64), Sum(a.pc, 4))
  {
    hide IWord, DecodeInst, NextResult, NextOutcome, AluValue, Registers, OpImmCode, Apply, RdBits, Rs1Bits, Rs2Bits,
         Opcode, Funct3, Funct7, Reg, SetX, Plus4, Sum, ImmI, Sext32, Low6, Sra64, ShiftSigned, Effect;
    var w, x := prog(a.pc), X(a, rs1);
    IFields(imm12, rs1, 5, rd, 0x13);
    IImmediate(imm12, rs1, 5, rd, 0x13);
    ShiftAmounts(imm12);
    ArithmeticCode(Funct7(w));
    DecodeOpImm(a.pc, w);
    SignedShifts(a.pc, ImmI(w), x, Sext32(ImmI(w)), x, Rs2Value(a, w));
    Sra64Is(x, Low6(Sext32(ImmI(w))));
    ApplySigned(x, imm12 as bv64);
    ImmediateForm(prog, a, w, 56, rd, Apply(Sra, x, imm12 as bv64));
    FollowingIs(a.pc);
  }

  lemma ArithmeticCode(f7: bv32)
    requires f7 != 0
    ensures OpImmCode(5, f7) == 56 && OpImm32Code(5, f7) == 62
  {
  }

  lemma ShiftRight32(prog: Program, a: Arch, imm12: bv32, rs1: bv32, rd: bv32)
    requires imm12 < 0x1000 && imm12 >> 5 != 0 && Register(rs1) && Register(rd) && prog(a.pc) == IWord(imm12, rs1, 5, rd, 0x1B)
    ensures NextOutcome(prog, a) == Effect(a, prog(a.pc), rd, ApplyW(Sra, X(a, rs1), imm12 as bv64), Sum(a.pc, 4))
  {
    hide IWord, DecodeInst, NextResult, NextOutcome, AluValue, Registers, OpImm32Code, ApplyW, RdBits, Rs1Bits, Rs2Bits,
         Opcode, Funct3, Funct7, Reg, SetX, Plus4, Sum, ImmI, Sext32, Low5, Low32, Sra32, ShiftSigned, Word32, Effect;
    var w, x := prog(a.pc), X(a, rs1);
    IFields(imm12, rs1, 5, rd, 0x1B);
    IImmediate(imm12, rs1, 5, rd, 0x1B);
    ShiftAmounts(imm12);
    ArithmeticCode(Funct7(w));
    DecodeOpImmW(a.pc, w);
    WordShifts(a.pc, ImmI(w), x, Sext32(ImmI(w)), x, Rs2Value(a, w));
    SraLow(x, Low5(ImmI(w)));
    ApplyWSigned(x, imm12 as bv64);
    ImmediateForm(prog, a, w, 62, rd, ApplyW(Sra, x, imm12 as bv64));
    FollowingIs(a.pc);
  }
}
