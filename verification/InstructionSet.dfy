/** The part of the RISC-V Unprivileged ISA (version 20191213, sections 2.3 to 2.6, 5.2 and 5.3) that the core
    implements: the effect and the encoding of each instruction, in machine operators and bytes only. */
module InstructionSet {
  import opened BoomTypes
  import opened Reference
  import Memory

  datatype AluOp = Add | Sub | Sll | Slt | Sltu | Xor | Srl | Sra | Or | And
  datatype Condition = Eq | Ne | Lt | Ge | Ltu | Geu
  datatype Width = Byte | Half | Word | Double

  /** Instructions with their register numbers and their immediates as 64-bit signed values. */
  datatype Instr =
    | OpImm(op: AluOp, rd: bv32, rs1: bv32, imm: bv64)
    | Op(op: AluOp, rd: bv32, rs1: bv32, rs2: bv32)
    | OpImmW(op: AluOp, rd: bv32, rs1: bv32, imm: bv64)
    | SubW(rd: bv32, rs1: bv32, rs2: bv32)
    | Jal(rd: bv32, offset: bv64)
    | Jalr(rd: bv32, rs1: bv32, imm: bv64)
    | Branch(cond: Condition, rs1: bv32, rs2: bv32, offset: bv64)
    | Load(width: Width, signed: bool, rd: bv32, rs1: bv32, imm: bv64)
    | Store(width: Width, rs1: bv32, rs2: bv32, imm: bv64)

  // ---- Arithmetic

  // Arithmetic modulo 2^64.
  function Sum(a: bv64, b: bv64): bv64 { a + b }
  function Difference(a: bv64, b: bv64): bv64 { a - b }
  function Product(a: bv64, b: bv64): bv64 { a * b }

  /** The address without its last bit. */
  function Even(a: bv64): bv64 { a & 0xFFFF_FFFF_FFFF_FFFE }

  predicate Negative64(a: bv64) { a & 0x8000_0000_0000_0000 != 0 }

  predicate LessSigned(a: bv64, b: bv64) { if Negative64(a) != Negative64(b) then Negative64(a) else a < b }

  /** One place to the right, keeping the sign. */
  function HalfSigned(a: bv64): bv64 { (a >> 1) | (a & 0x8000_0000_0000_0000) }

  /** Shift right, one place at a time, keeping the sign. */
  function ShiftSigned(a: bv64, k: bv64): bv64 { if k == 0 then a else HalfSigned(ShiftSigned(a, k - 1)) }

  /** The low 32 bits, sign-extended. */
  function Word32(a: bv64): bv64 { if a & 0x8000_0000 != 0 then a | 0xFFFF_FFFF_0000_0000 else a & 0xFFFF_FFFF }

  /** A 32-bit word, sign-extended. */
  function SignedWord(w: bv32): bv64 { Word32(w as bv64) }

  function Apply(op: AluOp, a: bv64, b: bv64): bv64 {
    match op
    case Add => a + b
    case Sub => a - b
    case Sll => a << (b & 0x3F)
    case Slt => if LessSigned(a, b) then 1 else 0
    case Sltu => if a < b then 1 else 0
    case Xor => a ^ b
    case Srl => a >> (b & 0x3F)
    case Sra => ShiftSigned(a, b & 0x3F)
    case Or => a | b
    case And => a & b
  }

  function ApplyW(op: AluOp, a: bv64, b: bv64): bv64 {
    match op
    case Sll => Word32(a << (b & 0x1F))
    case Sra => ShiftSigned(Word32(a), b & 0x1F)
    case _ => Word32(Sum(a, b))
  }

  predicate Decides(c: Condition, a: bv64, b: bv64) {
    match c
    case Eq => a == b
    case Ne => a != b
    case Lt => LessSigned(a, b)
    case Ge => !LessSigned(a, b)
    case Ltu => a < b
    case Geu => a >= b
  }

  // ---- Memory

  function Bytes(w: Width): (n: bv64)
    ensures n <= 8
  {
    match w
    case Byte => 1 case Half => 2 case Word => 4 case Double => 8
  }

  /** The n bytes from an address on, the lowest first. */
  function LittleEndian(m: Memory.Mem, addr: bv64, n: bv64): bv64
    decreases n
  {
    if n == 0 then 0 else (Memory.ReadByte(m, addr) as bv64) | (LittleEndian(m, addr + 1, n - 1) << 8)
  }

  /** A value of this width in a register. */
  function Extend(w: Width, signed: bool, v: bv64): bv64 {
    match w
    case Byte => if signed && v & 0x80 != 0 then v | 0xFFFF_FFFF_FFFF_FF00 else v
    case Half => if signed && v & 0x8000 != 0 then v | 0xFFFF_FFFF_FFFF_0000 else v
    case Word => if signed && v & 0x8000_0000 != 0 then v | 0xFFFF_FFFF_0000_0000 else v
    case Double => v
  }

  /** The address is one of the n from `addr` on, modulo 2^64. */
  predicate InRange(addr: bv64, n: bv64, x: bv64) { Difference(x, addr) < n }

  function DataByte(v: bv64, o: bv64): bv8
    requires o < 8
  {
    ((v >> (o << 3)) & 0xFF) as bv8
  }

  /** The byte at `x` once the n low bytes of a datum have been written from `addr` on. Nothing is kept below the
      base of the memory. */
  function ByteAfter(m: Memory.Mem, addr: bv64, n: bv64, v: bv64, x: bv64): bv8
    requires n <= 8
  {
    if InRange(addr, n, x) && x >= m.base then DataByte(v, Difference(x, addr)) else Memory.ReadByte(m, x)
  }

  /** Those bytes are written, and nothing else. */
  ghost predicate Overwrites(m: Memory.Mem, addr: bv64, n: bv64, v: bv64, m': Memory.Mem)
    requires n <= 8
  {
    m'.base == m.base && forall x: bv64 :: Memory.ReadByte(m', x) == ByteAfter(m, addr, n, v, x)
  }

  // ---- Meaning

  function X(a: Arch, r: bv32): bv64 { Reg(a.regs, r as nat) }

  /** The registers after a write; x0 ignores writes. */
  function SetX(regs: seq<bv64>, rd: bv32, v: bv64): seq<bv64> { if rd == 0 then regs else SetReg(regs, rd as nat, v) }

  /** The address a load or store accesses. */
  function Accessed(i: Instr, a: Arch): bv64 {
    match i
    case Load(_, _, _, rs1, imm) => Sum(X(a, rs1), imm)
    case Store(_, rs1, _, imm) => Sum(X(a, rs1), imm)
    case _ => 0
  }

  /** Where control goes; the address after the instruction unless it jumps or branches. */
  function Target(i: Instr, a: Arch): bv64 {
    match i
    case Jal(_, offset) => Sum(a.pc, offset)
    case Jalr(_, rs1, imm) => Even(Sum(X(a, rs1), imm))
    case Branch(c, rs1, rs2, offset) => if Decides(c, X(a, rs1), X(a, rs2)) then Sum(a.pc, offset) else Sum(a.pc, 4)
    case _ => Sum(a.pc, 4)
  }

  /** The destination register, x0 if there is none. */
  function Destination(i: Instr): bv32 { if i.Branch? || i.Store? then 0 else i.rd }

  /** The value for it. */
  function Result(i: Instr, a: Arch): bv64 {
    match i
    case OpImm(op, _, rs1, imm) => Apply(op, X(a, rs1), imm)
    case Op(op, _, rs1, rs2) => Apply(op, X(a, rs1), X(a, rs2))
    case OpImmW(op, _, rs1, imm) => ApplyW(op, X(a, rs1), imm)
    case SubW(_, rs1, rs2) => Word32(Difference(X(a, rs1), X(a, rs2)))
    case Jal(_, _) => Sum(a.pc, 4)
    case Jalr(_, _, _) => Sum(a.pc, 4)
    case Branch(_, _, _, _) => 0
    case Load(w, signed, _, _, _) => Extend(w, signed, LittleEndian(a.mem, Accessed(i, a), Bytes(w)))
    case Store(_, _, _, _) => 0
  }

  /** What the instruction makes of the architectural state. */
  ghost predicate Means(i: Instr, a: Arch, b: Arch) {
    && b.pc == Target(i, a) && b.regs == SetX(a.regs, Destination(i), Result(i, a))
    && if i.Store? then Overwrites(a.mem, Accessed(i, a), Bytes(i.width), X(a, i.rs2), b.mem) else b.mem == a.mem
  }

  /** One bit per byte accessed. */
  function ByteMask(w: Width): bv8 {
    match w
    case Byte => 0x01 case Half => 0x03 case Word => 0x0F case Double => 0xFF
  }

  /** The commit record: address, word, register written, memory access. */
  function Report(i: Instr, a: Arch): CommitEntry {
    var rd := Destination(i);
    CommitEntry(a.pc, Encoding(i), rd != 0, rd as nat, if rd != 0 then Result(i, a) else 0, i.Load? || i.Store?, i.Store?, Accessed(i, a),
                if i.Load? then Result(i, a) else if i.Store? then X(a, i.rs2) else 0,
                if i.Load? || i.Store? then ByteMask(i.width) else 0)
  }

  // ---- Encoding

  /** The value lies between -half and half - 1. */
  predicate Fits(v: bv64, half: bv64) { v + half < half + half }

  predicate Register(r: bv32) { r < 32 }

  predicate Valid(i: Instr) {
    match i
    case OpImm(op, rd, rs1, imm) =>
      Register(rd) && Register(rs1) && op != Sub && op != Sltu
      && (if op == Sll || op == Sra then imm < 64 else if op == Srl then imm < 32 else Fits(imm, 0x800))
    case Op(_, rd, rs1, rs2) => Register(rd) && Register(rs1) && Register(rs2)
    case OpImmW(op, rd, rs1, imm) =>
      Register(rd) && Register(rs1) && (if op == Sll || op == Sra then imm < 32 else op == Add && Fits(imm, 0x800))
    case SubW(rd, rs1, rs2) => Register(rd) && Register(rs1) && Register(rs2)
    case Jal(rd, offset) => Register(rd) && Fits(offset, 0x10_0000) && offset & 1 == 0
    case Jalr(rd, rs1, imm) => Register(rd) && Register(rs1) && Fits(imm, 0x800)
    case Branch(_, rs1, rs2, offset) => Register(rs1) && Register(rs2) && Fits(offset, 0x1000) && offset & 1 == 0
    case Load(w, signed, rd, rs1, imm) => Register(rd) && Register(rs1) && Fits(imm, 0x800) && (w == Double ==> signed)
    case Store(_, rs1, rs2, imm) => Register(rs1) && Register(rs2) && Fits(imm, 0x800)
  }

  function Low12(v: bv64): bv32 { (v & 0xFFF) as bv32 }
  function Low13(v: bv64): bv32 { (v & 0x1FFF) as bv32 }
  function Low21(v: bv64): bv32 { (v & 0x1F_FFFF) as bv32 }

  function IWord(imm12: bv32, rs1: bv32, f3: bv32, rd: bv32, op: bv32): bv32 {
    (imm12 << 20) | (rs1 << 15) | (f3 << 12) | (rd << 7) | op
  }

  function RWord(f7: bv32, rs2: bv32, rs1: bv32, f3: bv32, rd: bv32, op: bv32): bv32 {
    (f7 << 25) | (rs2 << 20) | (rs1 << 15) | (f3 << 12) | (rd << 7) | op
  }

  function UWord(upper: bv32, rd: bv32, op: bv32): bv32 { upper | (rd << 7) | op }

  /** A store's offset around its registers: bits 11 to 5 and 4 to 0. */
  function SWord(imm12: bv32, rs2: bv32, rs1: bv32, f3: bv32): bv32 {
    ((imm12 >> 5) << 25) | (rs2 << 20) | (rs1 << 15) | (f3 << 12) | ((imm12 & 0x1F) << 7) | 0x23
  }

  /** `offset` as the branch format scatters it: bits 12, 10 to 5, 4 to 1 and 11. */
  function BWord(offset: bv32, rs2: bv32, rs1: bv32, f3: bv32): bv32 {
    (((offset >> 12) & 0x1) << 31) | (((offset >> 5) & 0x3F) << 25) | (rs2 << 20) | (rs1 << 15) | (f3 << 12)
    | (((offset >> 1) & 0xF) << 8) | (((offset >> 11) & 0x1) << 7) | 0x63
  }

  /** `offset` as the jump format scatters it: bits 20, 10 to 1, 11 and 19 to 12. */
  function JWord(offset: bv32, rd: bv32): bv32 {
    (((offset >> 20) & 0x1) << 31) | (((offset >> 1) & 0x3FF) << 21) | (((offset >> 11) & 0x1) << 20)
    | (((offset >> 12) & 0xFF) << 12) | (rd << 7) | 0x6F
  }

  function OpFunct3(op: AluOp): bv32 {
    match op
    case Add => 0 case Sub => 0 case Sll => 1 case Slt => 2 case Sltu => 3
    case Xor => 4 case Srl => 5 case Sra => 5 case Or => 6 case And => 7
  }

  function CondFunct3(c: Condition): bv32 {
    match c
    case Eq => 0 case Ne => 1 case Lt => 4 case Ge => 5 case Ltu => 6 case Geu => 7
  }

  function WidthFunct3(w: Width): bv32 {
    match w
    case Byte => 0 case Half => 1 case Word => 2 case Double => 3
  }

  function LoadFunct3(w: Width, signed: bool): bv32 { if signed then WidthFunct3(w) else WidthFunct3(w) + 4 }

  function OpFunct7(op: AluOp): bv32 { if op == Sub || op == Sra then 0x20 else 0 }

  /** The 12-bit immediate field; a shift carries its kind above its amount. */
  function ImmField(op: AluOp, imm: bv64): bv32 { if op == Sra then Low12(imm) | 0x400 else Low12(imm) }

  function Encoding(i: Instr): bv32 {
    match i
    case OpImm(op, rd, rs1, imm) => IWord(ImmField(op, imm), rs1, OpFunct3(op), rd, 0x13)
    case Op(op, rd, rs1, rs2) => RWord(OpFunct7(op), rs2, rs1, OpFunct3(op), rd, 0x33)
    case OpImmW(op, rd, rs1, imm) => IWord(ImmField(op, imm), rs1, OpFunct3(op), rd, 0x1B)
    case SubW(rd, rs1, rs2) => RWord(0x20, rs2, rs1, 0, rd, 0x3B)
    case Jal(rd, offset) => JWord(Low21(offset), rd)
    case Jalr(rd, rs1, imm) => IWord(Low12(imm), rs1, 0, rd, 0x67)
    case Branch(c, rs1, rs2, offset) => BWord(Low13(offset), rs2, rs1, CondFunct3(c))
    case Load(w, signed, rd, rs1, imm) => IWord(Low12(imm), rs1, LoadFunct3(w, signed), rd, 0x03)
    case Store(w, rs1, rs2, imm) => SWord(Low12(imm), rs2, rs1, WidthFunct3(w))
  }

  /** The size field of a memory request: the logarithm of the number of bytes. */
  function SizeCode(w: Width): bv8 {
    match w
    case Byte => 0 case Half => 1 case Word => 2 case Double => 3
  }

  /** The memory access a load or store asks for. */
  ghost predicate Asks(i: Instr, a: Arch, q: AluResult)
    requires i.Load? || i.Store?
  {
    && q.valid && q.memoryValid && q.isLoad == i.Load? && q.isStore == i.Store? && q.signedLoad == (i.Load? && i.signed)
    && q.address == q.result == Accessed(i, a) && q.size == SizeCode(i.width) && q.mask == ByteMask(i.width)
    && q.storeData == (if i.Store? then X(a, i.rs2) else 0) && !q.mispredict && !q.uop.exception
  }

  // ---- When the core follows it

  /** Control leaves the sequence of instructions. */
  predicate Transfers(i: Instr, a: Arch) {
    match i
    case Jal(_, _) => true
    case Jalr(_, _, _) => true
    case Branch(c, rs1, rs2, _) => Decides(c, X(a, rs1), X(a, rs2))
    case _ => false
  }

  predicate MultipleOfFour(a: bv64) { a & 3 == 0 }

  /** The target of a taken transfer is a multiple of four, as it must be without compressed instructions. */
  predicate AlignedTarget(i: Instr, a: Arch) { Transfers(i, a) ==> MultipleOfFour(Target(i, a)) }

  /** The address without its last two bits. */
  function WordOf(a: bv64): bv64 { (a >> 2) << 2 }

  /** Where the core goes: a transfer leads to the word its target lies in. */
  function Destined(i: Instr, a: Arch): bv64 { if Transfers(i, a) then WordOf(Target(i, a)) else Target(i, a) }

  predicate SameDoubleword(x: bv64, y: bv64) { x >> 3 == y >> 3 }

  /** The bytes that a load takes from beyond the aligned doubleword of its address are zero. */
  ghost predicate NothingBeyond(i: Instr, a: Arch) {
    i.Load? ==>
      forall x: bv64 :: InRange(Accessed(i, a), Bytes(i.width), x) && !SameDoubleword(x, Accessed(i, a)) ==> Memory.ReadByte(a.mem, x) == 0
  }
}
