/** The per-uop result function of the execute stage. */
module Execute {
  import opened BoomTypes
  import opened Decode

  // The word operations of the host language, named.
  function Add64(x: bv64, y: bv64): bv64 { x + y }
  function Sub64(x: bv64, y: bv64): bv64 { x - y }
  function Xor64(x: bv64, y: bv64): bv64 { x ^ y }
  function Or64(x: bv64, y: bv64): bv64 { x | y }
  function And64(x: bv64, y: bv64): bv64 { x & y }
  predicate Less64(x: bv64, y: bv64) { x < y }
  function Low6(x: bv64): (k: bv64)
    ensures k < 64
  {
    x & 0x3F
  }
  function Low5(x: bv32): (k: bv32)
    ensures k < 32
  {
    x & 0x1F
  }
  function Shl64(x: bv64, k: bv64): bv64
    requires k < 64
  {
    x << k
  }

  predicate Neg64(x: bv64) { x & 0x8000_0000_0000_0000 != 0 }
  predicate Neg32(x: bv32) { x & 0x8000_0000 != 0 }
  function Not64(x: bv64): bv64 { !x }
  function Not32(x: bv32): bv32 { !x }
  function Shr64(x: bv64, k: bv64): bv64
    requires k < 64
  {
    x >> k
  }
  function Shr32(x: bv32, k: bv32): bv32
    requires k < 32
  {
    x >> k
  }
  function Shl32(x: bv32, k: bv32): bv32
    requires k < 32
  {
    x << k
  }
  function Add32(x: bv32, y: bv32): bv32 { x + y }
  function Sub32(x: bv32, y: bv32): bv32 { x - y }

  /** The low 32 bits, as a cast to a 32-bit integer keeps them. */
  function Low32(x: bv64): bv32 { (x & 0xFFFF_FFFF) as bv32 }

  /** A 32-bit integer sign-extended to 64 bits. */
  function Sext32(x: bv32): bv64 { if Neg32(x) then (x as bv64) | 0xFFFF_FFFF_0000_0000 else x as bv64 }

  /** Signed comparison of two 64-bit words. */
  predicate SignedLess(a: bv64, b: bv64) {
    (a ^ 0x8000_0000_0000_0000) < (b ^ 0x8000_0000_0000_0000)
  }

  /** Arithmetic right shift. */
  function Sra64(x: bv64, k: bv64): bv64
    requires k < 64
  {
    if Neg64(x) then Not64(Shr64(Not64(x), k)) else Shr64(x, k)
  }

  function Sra32(x: bv32, k: bv32): bv32
    requires k < 32
  {
    if Neg32(x) then Not32(Shr32(Not32(x), k)) else Shr32(x, k)
  }

  function MulLow(a: bv64, b: bv64): bv64 { Sext32(Low32(a)) * Sext32(Low32(b)) }

  /** One bit per byte of an access of `1 << size` bytes. */
  function MaskForSize(size: bv8): bv8 {
    if size >= 3 then 0xFF else ((1 as bv8) << ((1 as bv8) << size)) - 1
  }

  function Operand1(sel: Op1Sel, pc: bv64, rs1: bv64): bv64 { if sel == Op1Pc then pc else rs1 }

  function Operand2(sel: Op2Sel, imm: bv32, rs2: bv64): bv64 {
    if sel == Op2Imm || sel == Op2Imz then Sext32(imm) else if sel == Op2Imu then imm as bv64 else rs2
  }

  /** The value opcode `c` writes to the destination register. */
  function AluValue(c: nat, pc: bv64, imm: bv32, op1: bv64, op2: bv64, rs1: bv64, rs2: bv64): bv64 {
    if c == 1 || c == 50 then Add64(op1, op2)
    else if c == 2 then Sub64(op1, op2)
    else if c == 3 || c == 51 then Shl64(op1, Low6(op2))
    else if c == 4 || c == 52 then if SignedLess(op1, op2) then 1 else 0
    else if c == 5 || c == 53 then if Less64(rs1, rs2) then 1 else 0
    else if c == 6 || c == 54 then Xor64(op1, op2)
    else if c == 7 || c == 55 then Shr64(rs1, Low6(op2))
    else if c == 8 || c == 56 then Sra64(op1, Low6(op2))
    else if c == 9 || c == 57 then Or64(op1, op2)
    else if c == 10 || c == 58 then And64(op1, op2)
    else if c == 11 || c == 59 then Sext32(Add32(Low32(rs1), imm))
    else if c == 12 then Sext32(Sub32(Low32(rs1), Low32(rs2)))
    else if c == 13 || c == 60 then Sext32(Shl32(Low32(rs1), Low5(imm)))
    else if c == 15 || c == 62 then Sext32(Sra32(Low32(rs1), Low5(imm)))
    else if c == 16 then MulLow(rs1, rs2)
    else if c == 29 || c == 30 then Add64(pc, 4)
    else if c == 37 then imm as bv64
    else if c == 38 then Add64(pc, imm as bv64)
    else if 39 <= c <= 49 then Add64(rs1, Sext32(imm))
    else 0
  }

  /** Whether opcode `c` redirects the frontend. */
  predicate Mispredicts(c: nat, rs1: bv64, rs2: bv64) {
    if c == 29 || c == 30 then true
    else if c == 31 then rs1 == rs2
    else if c == 32 then rs1 != rs2
    else if c == 33 then SignedLess(rs1, rs2)
    else if c == 34 then !SignedLess(rs1, rs2)
    else if c == 35 then Less64(rs1, rs2)
    else if c == 36 then !Less64(rs1, rs2)
    else false
  }

  function RedirectTarget(c: nat, pc: bv64, imm: bv32, rs1: bv64): bv64 {
    if c == 30 then And64(Add64(rs1, Sext32(imm)), 0xFFFF_FFFF_FFFF_FFFE)
    else if 29 <= c <= 36 then Add64(pc, Sext32(imm))
    else 0
  }

  function AccessAddress(rs1: bv64, imm: bv32): bv64 { Add64(rs1, Sext32(imm)) }

  /** The result the execute stage produces for a uop with these source values. */
  function ExecUop(u: MicroOp, rs1: bv64, rs2: bv64): (r: AluResult) {
    var isLoad, isStore := LoadUopc(u.uopc), StoreUopc(u.uopc);
    AluResult(
      true, u,
      AluValue(u.uopc, u.pc, u.imm, Operand1(u.ctrl.op1Sel, u.pc, rs1), Operand2(u.ctrl.op2Sel, u.imm, rs2), rs1, rs2),
      u.exception, Mispredicts(u.uopc, rs1, rs2), RedirectTarget(u.uopc, u.pc, u.imm, rs1),
      isLoad || isStore, isLoad, isStore, isLoad && u.mem.signed,
      if isLoad || isStore then AccessAddress(rs1, u.imm) else 0,
      if isStore then rs2 else 0,
      if isLoad || isStore then MaskForSize(u.mem.size) else 0,
      if isLoad || isStore then u.mem.size else 0)
  }
}
