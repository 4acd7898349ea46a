/** The sequential machine the pipeline is measured against: one instruction at a time, on
    architectural registers and a byte memory, with the core's own per-uop result function. */
module Reference {
  import opened BoomTypes
  import opened Decode
  import opened Execute
  import opened Pipeline
  import opened Memory

  datatype Arch = Arch(pc: bv64, regs: seq<bv64>, mem: Mem)

  /** An instruction commits with a record, retires without one (ECALL), or stops the machine. */
  datatype Outcome = Commits(next: Arch, record: CommitEntry) | Passes(next: Arch) | Stops

  /** The machine with the records of what it has committed. */
  datatype Machine = Machine(arch: Arch, trace: seq<CommitEntry>, stopped: bool)

  function Reg(regs: seq<bv64>, l: nat): bv64 { if l < |regs| then regs[l] else 0 }
  function SetReg(regs: seq<bv64>, l: nat, v: bv64): (r: seq<bv64>)
    ensures |r| == |regs|
  {
    if l < |regs| then regs[l := v] else regs
  }

  function NextUop(prog: Program, a: Arch): MicroOp { DecodeInst(a.pc, prog(a.pc)) }

  /** What executing the next instruction computes. */
  function NextResult(prog: Program, a: Arch): AluResult {
    var u := NextUop(prog, a);
    ExecUop(u, Reg(a.regs, u.rename.lrs1), Reg(a.regs, u.rename.lrs2))
  }

  /** What a load of this result reads. */
  function Loaded(r: AluResult, mem: Mem): bv64 { LoadValue(ReadBeat(mem, r.address), r.address, r.size, r.signedLoad) }

  /** The value for the destination register. */
  function ResultValue(r: AluResult, mem: Mem): bv64 { if r.isLoad then Loaded(r, mem) else r.result }

  function Stored(r: AluResult, mem: Mem): Mem { if r.isStore then Write(mem, r.address, r.storeData, r.size) else mem }

  function Written(r: AluResult, a: Arch): seq<bv64> {
    var d := r.uop.rename;
    if NeedsRegister(d) then SetReg(a.regs, d.ldst, ResultValue(r, a.mem)) else a.regs
  }

  /** The record of a committed instruction. */
  function Record(r: AluResult, mem: Mem): CommitEntry {
    var d := r.uop.rename;
    var v := ResultValue(r, mem);
    CommitEntry(r.uop.pc, r.uop.inst, NeedsRegister(d), if NeedsRegister(d) then d.ldst else 0,
                if NeedsRegister(d) then v else 0,
                r.memoryValid, r.isStore, r.address, if r.isLoad then v else r.storeData, r.mask)
  }

  /** What becomes of an instruction with this result. */
  function OutcomeOf(a: Arch, r: AluResult): Outcome {
    if !r.uop.exception then Commits(Arch(Successor(a.pc, r), Written(r, a), Stored(r, a.mem)), Record(r, a.mem))
    else if r.uop.uopc == UOPC_ECALL then Passes(a.(pc := Successor(a.pc, r)))
    else Stops
  }

  /** What becomes of the next instruction. */
  function NextOutcome(prog: Program, a: Arch): Outcome { OutcomeOf(a, NextResult(prog, a)) }

  function Start(mem: Mem): Machine {
    Machine(Arch(RESET_VECTOR, seq(LOGICAL_REG_COUNT, _ => 0), mem), [], false)
  }

  function Advance(s: Machine, r: AluResult): Machine {
    if s.stopped then s
    else
      match OutcomeOf(s.arch, r)
      case Commits(next, record) => s.(arch := next, trace := s.trace + [record])
      case Passes(next) => s.(arch := next)
      case Stops => s.(stopped := true)
  }

  /** The machine after n instructions. */
  function After(prog: Program, mem: Mem, n: nat): Machine {
    if n == 0 then Start(mem)
    else
      var s := After(prog, mem, n - 1);
      Advance(s, NextResult(prog, s.arch))
  }

  // ---- The course of a machine

  /** The machine before an instruction, and what executing that instruction computes. */
  datatype Instant = Instant(machine: Machine, next: AluResult)

  /** A result that is no memory access carries no address, data or mask, and its uop names one of the registers. */
  predicate WellFormed(q: AluResult) {
    && (!q.memoryValid ==> q.address == 0 && q.mask == 0 && !q.isStore && !q.isLoad) && (!q.isStore ==> q.storeData == 0)
    && q.uop.rename.ldst < LOGICAL_REG_COUNT
  }

  /** The machine goes from the n-th instant to the next by the result there. */
  predicate Continues(c: nat -> Instant, n: nat) {
    && c(n + 1).machine == Advance(c(n).machine, c(n).next) && WellFormed(c(n).next)
    && |c(n).machine.arch.regs| == LOGICAL_REG_COUNT
  }

  const IDLE: Instant := Instant(Machine(Arch(0, seq(LOGICAL_REG_COUNT, _ => 0), Mem(0, [])), [], true), NO_RESULT)

  /** A machine over time, whatever gives it its results. */
  type Course = c: nat -> Instant | forall n: nat :: Continues(c, n) witness ((n: nat) => IDLE)

  /** The memory it starts with. */
  function Origin(course: Course): Mem { course(0).machine.arch.mem }

  predicate Obeys(prog: Program, course: Course, n: nat) { course(n).next == NextResult(prog, course(n).machine.arch) }

  /** The course of the program from reset. */
  ghost predicate Executes(prog: Program, course: Course) {
    course(0).machine == Start(Origin(course)) && forall n: nat :: Obeys(prog, course, n)
  }

  function InstantAt(prog: Program, mem: Mem, n: nat): Instant {
    Instant(After(prog, mem, n), NextResult(prog, After(prog, mem, n).arch))
  }

  lemma NextIsWellFormed(prog: Program, a: Arch)
    ensures WellFormed(NextResult(prog, a))
  {
    hide AluValue, Mispredicts, RedirectTarget, Operand1, Operand2, AccessAddress, MaskForSize, DecodeInst;
  }

  lemma AdvanceRegs(s: Machine, r: AluResult)
    ensures |Advance(s, r).arch.regs| == |s.arch.regs|
  {
    hide ResultValue, Record, Stored, Successor;
  }

  lemma {:induction false} RegsCount(prog: Program, mem: Mem, n: nat)
    ensures |After(prog, mem, n).arch.regs| == LOGICAL_REG_COUNT
  {
    hide Advance, NextResult;
    if n > 0 {
      RegsCount(prog, mem, n - 1);
      AdvanceRegs(After(prog, mem, n - 1), NextResult(prog, After(prog, mem, n - 1).arch));
    }
  }

  lemma AfterContinues(prog: Program, mem: Mem, n: nat)
    ensures Continues((k: nat) => InstantAt(prog, mem, k), n)
  {
    hide Advance, NextResult, WellFormed;
    RegsCount(prog, mem, n);
    NextIsWellFormed(prog, After(prog, mem, n).arch);
  }

  /** The course of the program with this memory. */
  function CourseOf(prog: Program, mem: Mem): Course {
    var c := (n: nat) => InstantAt(prog, mem, n);
    assert forall n: nat :: Continues(c, n) by {
      forall n: nat ensures Continues(c, n) { AfterContinues(prog, mem, n); }
    }
    c
  }

  lemma CourseOfExecutes(prog: Program, mem: Mem)
    ensures Executes(prog, CourseOf(prog, mem)) && Origin(CourseOf(prog, mem)) == mem
  {
    hide NextResult, Advance;
  }

  /** The memory after the stores among some requests, in order: loads leave no trace. */
  function MemAfter(mem: Mem, log: seq<DmemRequest>): Mem {
    if log == [] then mem
    else
      var q, before := log[|log| - 1], MemAfter(mem, log[..|log| - 1]);
      if q.isStore then Write(before, q.address, q.data, q.size) else before
  }

  lemma MemAfterOne(mem: Mem, log: seq<DmemRequest>, q: DmemRequest)
    ensures MemAfter(mem, log + [q]) == if q.isStore then Write(MemAfter(mem, log), q.address, q.data, q.size) else MemAfter(mem, log)
  {
    hide Write;
    assert (log + [q])[..|log|] == log;
  }

  lemma AdvanceTrace(s: Machine, r: AluResult)
    ensures s.trace <= Advance(s, r).trace
  {
    hide Record, Written, Stored, Successor;
  }

  /** The record trace only grows. */
  lemma {:induction false} TraceGrows(course: Course, m: nat, n: nat)
    requires m <= n
    ensures course(m).machine.trace <= course(n).machine.trace
  {
    hide Advance, WellFormed;
    if m < n {
      TraceGrows(course, m, n - 1);
      assert Continues(course, n - 1);
      AdvanceTrace(course(n - 1).machine, course(n - 1).next);
    }
  }
}
