/** The refinement with any number of uops in flight: in every honest run without hazards that the core does
    not guard against, what has committed is what the sequential machine has executed. */
module HazardFree {
  import opened BoomTypes
  import opened Decode
  import opened Execute
  import opened Pipeline
  import opened RobWindow
  import opened IssueQueue
  import opened History
  import opened Flow
  import opened Residency
  import opened MemOrder
  import opened RenameMaps
  import opened Fetch
  import opened Memory
  import opened Reference
  import opened Refinement

  ghost predicate HonestStep(prog: Program, m0: Mem, y: Sys, i: StepIn) {
    HonestResponse(prog, y.core.imemLog, i.imemResp) && HonestData(m0, y.core.dmemLog, i.dmemResp)
  }

  /** Every instruction-memory and data-memory response in the first n steps is honest. */
  ghost predicate HonestRun(prog: Program, m0: Mem, run: Run, n: nat) {
    forall k :: 0 <= k < n ==> HonestStep(prog, m0, run(k).sys, run(k).input)
  }

  /** What the core leaves to its environment: a packet finds room in the buffer, and a register if it takes
      one; it depends on no register that an unanswered load has yet to write; and no redirect is taken
      with uops still in the buffer. */
  ghost predicate HazardFreeStep(y: Sys, i: StepIn) {
    && FindsEntry(AtFetch(y, i).core, i) && RoomyStep(AtFetch(y, i).core, i) && Independent(AtFetch(y, i).core, i)
    && (WantsRedirect(y.core.alu) ==> RobEmpty(y.core.rob))
  }

  ghost predicate HazardFreeRun(run: Run, n: nat) { forall k :: 0 <= k < n ==> HazardFreeStep(run(k).sys, run(k).input) }

  /** Everything known at the step boundary of such a run. */
  ghost predicate Coherent(prog: Program, course: Course, y: Sys) {
    Executes(prog, course) && Sound(y) && MemSound(y) && RenameSound(y) && FetchOk(prog, y) && CoreAligned(course, y)
  }

  lemma LsuRename(y: Sys, i: StepIn)
    requires Sound(y) && RenameSound(y)
    ensures RenameSound(AtFetch(y, i))
  {
    hide ResidentsOk, IsYoungest, Packed, AtFetch, RenameOk;
    LsuKeeps(y, i);
    AtFetchRename(y, i);
    assert Residents(AtFetch(y, i).hist) == Residents(y.hist);
  }

  /** The agreement before commit. */
  lemma MiddleOfStep(prog: Program, course: Course, y: Sys, i: StepIn)
    requires Coherent(prog, course, y) && HonestStep(prog, Origin(course), y, i) && HazardFreeStep(y, i)
    ensures CoreAligned(course, MiddleSys(AtFetch(y, i), i)) && SafeStep(AtFetch(y, i).core, i)
  {
    hide Sound, MemSound, RenameSound, FetchOk, CoreAligned, HonestResponse, HonestData, FindsEntry, RoomyStep,
         Independent, AtFetch, MiddleSys, ResidentsOk, IsYoungest, Packed, Fetched, WantsRedirect;
    StepFetch(prog, y, i);
    LsuKeeps(y, i);
    LsuAligned(course, y, i);
    LsuRename(y, i);
    AtFetchFrontend(y, i);
    MiddleAligned(prog, course, AtFetch(y, i), i);
  }

  lemma MiddleRedirect(l: Sys, i: StepIn)
    requires !l.core.globalFlush && QueueEmpty(l.core.iss)
    ensures Redirecting(MiddleSys(l, i).core) == Redirecting(l.core)
  {
    hide Middle, Packed;
    MiddleFrame(l.core, i);
  }

  /** Without a packet nothing is allocated. */
  lemma RedirectEmpty(l: Sys, i: StepIn)
    requires ResidentsOk(l.core.rob, l.hist, false) && !l.core.globalFlush && QueueEmpty(l.core.iss)
    requires |l.hist.fates| == |l.hist.alloc| && !Fetched(l.core, i).packetValid
    ensures |MiddleSys(l, i).hist.fates| == |MiddleSys(l, i).hist.alloc|
  {
    hide Middle, Packed, ResidentsOk, FrontendStage, Allocates;
    IdleMiddle(l.core, i);
  }

  /** A redirect step with an empty buffer discards nothing. */
  lemma NothingDiscarded(y: Sys, i: StepIn)
    requires Sound(y) && WantsRedirect(y.core.alu) && RobEmpty(y.core.rob) && !Fetched(AtFetch(y, i).core, i).packetValid
    ensures var m := MiddleSys(AtFetch(y, i), i).hist; |m.fates| == |m.alloc|
  {
    hide ResidentsOk, IsYoungest, Packed, AtFetch, MiddleSys, Fetched, WantsRedirect;
    LsuKeeps(y, i);
    EmptyCount(y);
    RedirectEmpty(AtFetch(y, i), i);
  }

  lemma EmptyCount(y: Sys)
    requires ResidentsOk(y.core.rob, y.hist, Unsettled(y.core.alu)) && RobEmpty(y.core.rob)
    ensures |y.hist.fates| == |y.hist.alloc|
  {
  }

  lemma StepAligned(prog: Program, course: Course, y: Sys, i: StepIn)
    requires Coherent(prog, course, y) && HonestStep(prog, Origin(course), y, i) && HazardFreeStep(y, i)
    ensures CoreAligned(course, SysStep(y, i))
  {
    hide Sound, MemSound, RenameSound, FetchOk, CoreAligned, HonestResponse, HonestData, RoomyStep, Independent,
         SafeStep, AtFetch, MiddleSys, CommitSys, ResidentsOk, IsYoungest, Packed, Fetched, WantsRedirect;
    var l := AtFetch(y, i);
    MiddleOfStep(prog, course, y, i);
    StepFetch(prog, y, i);
    LsuKeeps(y, i);
    AtFetchRename(y, i);
    MiddleKeeps(l, i);
    MiddleRedirect(l, i);
    if Redirecting(l.core) {
      NothingDiscarded(y, i);
      FlushAligned(course, MiddleSys(l, i), i);
    } else {
      CommitAligned(course, MiddleSys(l, i), i);
    }
  }

  /** One honest hazard-free step. */
  lemma StepCoherent(prog: Program, course: Course, y: Sys, i: StepIn)
    requires Coherent(prog, course, y) && HonestStep(prog, Origin(course), y, i) && HazardFreeStep(y, i)
    ensures Coherent(prog, course, SysStep(y, i)) && SafeStep(AtFetch(y, i).core, i)
  {
    hide Sound, MemSound, RenameSound, FetchOk, CoreAligned, HonestResponse, HonestData, HazardFreeStep, SafeStep,
         SysStep, AtFetch;
    MiddleOfStep(prog, course, y, i);
    StepKeeps(y, i);
    StepMem(y, i);
    StepRename(y, i);
    StepFetch(prog, y, i);
    StepAligned(prog, course, y, i);
  }

  lemma ResetCoherent(prog: Program, course: Course)
    requires Executes(prog, course)
    ensures Coherent(prog, course, Reset())
  {
    hide Sound, MemSound, RenameSound, FetchOk, CoreAligned;
    ResetIsSound();
    ResetMem();
    ResetRenameSound();
    ResetFetches(prog);
    ResetAligned(course);
  }

  lemma ResetAligned(course: Course)
    requires course(0).machine == Start(Origin(course))
    ensures CoreAligned(course, Reset())
  {
    assert Window(Reset().core.rob) == [];
    var rf, t := seq(INT_PHYS_REGS, _ => 0 as bv64), seq(LOGICAL_REG_COUNT, _ => 0 as nat);
    assert forall l: nat :: l < LOGICAL_REG_COUNT ==> At(t, l) == 0;
  }

  lemma {:induction false} RunCoherent(prog: Program, course: Course, run: Run, n: nat)
    requires Executes(prog, course) && HonestRun(prog, Origin(course), run, n) && HazardFreeRun(run, n)
    ensures Coherent(prog, course, run(n).sys) && SafeRun(run, n)
  {
    hide SysStep, Coherent, SafeStep, HonestStep, HazardFreeStep, AtFetch, Reset, Executes;
    if n == 0 {
      RunStart(run);
      ResetCoherent(prog, course);
    } else {
      RunStep(run, n - 1);
      RunCoherent(prog, course, run, n - 1);
      StepCoherent(prog, course, run(n - 1).sys, run(n - 1).input);
    }
  }

  /** The oldest uop in flight is the machine's next instruction. */
  lemma OldestInFlight(course: Course, y: Sys)
    requires CoreAligned(course, y) && |y.hist.fates| < |y.hist.alloc|
    ensures InFlight(course(|y.hist.fates|).next, y.hist.alloc[|y.hist.fates|])
  {
    hide FlightOk, PathOk, ArchOk, InFlight, ValueReady, Window, Expected;
    var w, rs := Window(y.core.rob), Residents(y.hist);
    SameLength(course, y.core.rf, w, rs, |y.hist.fates|);
    Oldest(course, y.core.rf, w, rs, |y.hist.fates|);
  }

  // ---- Which sources matter

  /** JAL, LUI, AUIPC, ECALL and words that are no instruction; and SRLW and SRLIW, whose value is always zero. */
  predicate NoOperand(c: nat) { c == 14 || c == UOPC_JAL || c == 37 || c == 38 || c == 61 || c == UOPC_ECALL || c == UOPC_ILLEGAL }

  /** Loads, JALR, and operations on an immediate except SLTIU; ADDW, SLLW and SRAW are computed as if they were. */
  predicate OneOperand(c: nat, sel: Op2Sel) {
    || LoadUopc(c) || c == 11 || c == 13 || c == 15 || c == UOPC_JALR || 59 <= c <= 62
    || (50 <= c <= 58 && c != 53 && sel == Op2Imm)
  }

  /** The former depend on no register, the latter on one. */
  lemma IgnoredSources(d: MicroOp)
    ensures NoOperand(d.uopc) ==> IgnoresFirst(d) && IgnoresSecond(d)
    ensures OneOperand(d.uopc, d.ctrl.op2Sel) ==> IgnoresSecond(d)
  {
    hide ExecUop;
    forall a: bv64, a': bv64, b: bv64, b': bv64
      ensures NoOperand(d.uopc) ==> ExecUop(d, a, b) == ExecUop(d, a', b')
      ensures OneOperand(d.uopc, d.ctrl.op2Sel) ==> ExecUop(d, a, b) == ExecUop(d, a, b')
    {
      SameResult(d, a, b, a', b');
    }
  }

  lemma SameResult(d: MicroOp, a: bv64, b: bv64, a': bv64, b': bv64)
    ensures NoOperand(d.uopc) ==> ExecUop(d, a, b) == ExecUop(d, a', b')
    ensures OneOperand(d.uopc, d.ctrl.op2Sel) ==> ExecUop(d, a, b) == ExecUop(d, a, b')
  {
    hide AluValue, Mispredicts, RedirectTarget, Operand1, Sext32, Add64, MaskForSize, AccessAddress;
    var x, x' := Operand1(d.ctrl.op1Sel, d.pc, a), Operand1(d.ctrl.op1Sel, d.pc, a');
    var y, y' := Operand2(d.ctrl.op2Sel, d.imm, b), Operand2(d.ctrl.op2Sel, d.imm, b');
    if NoOperand(d.uopc) {
      NoOperandSame(d.uopc, d.pc, d.imm, x, y, a, b, x', y', a', b');
    }
    if OneOperand(d.uopc, d.ctrl.op2Sel) {
      OneOperandValue(d.uopc, d.ctrl.op2Sel, d.pc, d.imm, x, y, a, b, y', b');
    }
  }

  lemma NoOperandValue(c: nat, pc: bv64, imm: bv32, x: bv64, y: bv64, a: bv64, b: bv64)
    requires NoOperand(c)
    ensures AluValue(c, pc, imm, x, y, a, b)
         == if c == UOPC_JAL then Add64(pc, 4) else if c == 37 then imm as bv64 else if c == 38 then Add64(pc, imm as bv64) else 0
    ensures Mispredicts(c, a, b) == (c == UOPC_JAL)
    ensures RedirectTarget(c, pc, imm, a) == if c == UOPC_JAL then Add64(pc, Sext32(imm)) else 0
  {
    hide SignedLess, Sra64, Add64, Sub64, Shl64, Shr64, Xor64, Or64, And64, Less64, Low6, Sext32, Low32, Add32,
         Sub32, Shl32, Sra32, MulLow, Low5;
  }

  lemma NoOperandSame(c: nat, pc: bv64, imm: bv32, x: bv64, y: bv64, a: bv64, b: bv64, x': bv64, y': bv64, a': bv64, b': bv64)
    requires NoOperand(c)
    ensures AluValue(c, pc, imm, x, y, a, b) == AluValue(c, pc, imm, x', y', a', b')
    ensures Mispredicts(c, a, b) == Mispredicts(c, a', b') && RedirectTarget(c, pc, imm, a) == RedirectTarget(c, pc, imm, a')
  {
    hide AluValue, Mispredicts, RedirectTarget, Add64, Sext32;
    NoOperandValue(c, pc, imm, x, y, a, b);
    NoOperandValue(c, pc, imm, x', y', a', b');
  }

  lemma OneOperandValue(c: nat, sel: Op2Sel, pc: bv64, imm: bv32, x: bv64, y: bv64, a: bv64, b: bv64, y': bv64, b': bv64)
    requires OneOperand(c, sel) && (sel == Op2Imm ==> y == y')
    ensures AluValue(c, pc, imm, x, y, a, b) == AluValue(c, pc, imm, x, y', a, b') && Mispredicts(c, a, b) == Mispredicts(c, a, b')
  {
    if 50 <= c <= 58 {
      ImmediateValue(c, pc, imm, x, y, a, b, b');
    } else {
      OtherValue(c, pc, imm, x, y, a, b, y', b');
    }
    hide AluValue, Mispredicts, LoadUopc;
  }

  lemma ImmediateValue(c: nat, pc: bv64, imm: bv32, x: bv64, y: bv64, a: bv64, b: bv64, b': bv64)
    requires 50 <= c <= 58 && c != 53
    ensures AluValue(c, pc, imm, x, y, a, b) == AluValue(c, pc, imm, x, y, a, b') && Mispredicts(c, a, b) == Mispredicts(c, a, b')
  {
    hide SignedLess, Sra64, Add64, Sub64, Shl64, Shr64, Xor64, Or64, And64, Less64, Low6, Sext32, Low32, Add32,
         Sub32, Shl32, Sra32, MulLow, Low5;
  }

  lemma OtherValue(c: nat, pc: bv64, imm: bv32, x: bv64, y: bv64, a: bv64, b: bv64, y': bv64, b': bv64)
    requires LoadUopc(c) || c == 11 || c == 13 || c == 15 || c == UOPC_JALR || 59 <= c <= 62
    ensures AluValue(c, pc, imm, x, y, a, b) == AluValue(c, pc, imm, x, y', a, b') && Mispredicts(c, a, b) == Mispredicts(c, a, b')
  {
    hide SignedLess, Sra64, Add64, Sub64, Shl64, Shr64, Xor64, Or64, And64, Less64, Low6, Sext32, Low32, Add32,
         Sub32, Shl32, Sra32, MulLow, Low5;
  }

  // ---- The main result

  /** The committed records are those of the machine after as many instructions as have left the reorder
      buffer; the architectural registers and the memory behind the request stream agree; each resident with
      nothing stopped before it computes what the machine's instruction at its place does, and if nothing is
      stopped the next address to fetch is the machine's after all of them. */
  ghost predicate Agrees(prog: Program, m0: Mem, y: Sys) {
    && Pointers(y.core.rob) && |y.hist.alloc| == |y.hist.fates| + Count(y.core.rob)
    && var s, w, rs := After(prog, m0, |y.hist.fates|), Window(y.core.rob), Residents(y.hist);
    && !s.stopped && y.hist.commits == s.trace
    && RegsMatch(y.core.rf, y.core.ren.committed, s.arch.regs)
    && MemAfter(m0, y.core.dmemLog) == s.arch.mem
    && (forall k :: 0 <= k < |w| && Live(w, rs, k) ==> InFlight(NextResult(prog, After(prog, m0, |y.hist.fates| + k).arch), rs[k]))
    && (Live(w, rs, |w|) ==> Expected(y.hist.fetched) == After(prog, m0, |y.hist.alloc|).arch.pc)
  }

  /** A course that executes the program from reset is the machine's. */
  lemma {:induction false} SameCourse(prog: Program, course: Course, n: nat)
    requires Executes(prog, course)
    ensures course(n) == InstantAt(prog, Origin(course), n)
  {
    hide Advance, NextResult;
    assert Obeys(prog, course, n);
    if n > 0 {
      SameCourse(prog, course, n - 1);
      assert Continues(course, n - 1);
    }
  }

  lemma CoherentAgrees(prog: Program, course: Course, y: Sys)
    requires Coherent(prog, course, y)
    ensures Agrees(prog, Origin(course), y)
  {
    hide MemSound, RenameSound, FetchOk, RobOk, WindowOk, ResultsOk, Window, RegsMatch, After, MemAfter, Expected,
         InFlight, ValueReady, Live, NextResult, Executes;
    var w, base := Window(y.core.rob), |y.hist.fates|;
    SameCourse(prog, course, base);
    SameCourse(prog, course, |y.hist.alloc|);
    forall k: nat
      ensures course(k) == InstantAt(prog, Origin(course), k)
    {
      SameCourse(prog, course, k);
    }
  }

  /** The pipeline refines the sequential machine with any number of uops in flight: whatever the latencies,
      faults included, an honest run without those hazards has committed exactly what the machine has executed. */
  lemma HazardFreeRefinesMachine(prog: Program, m0: Mem, run: Run, n: nat)
    requires HonestRun(prog, m0, run, n) && HazardFreeRun(run, n)
    ensures Agrees(prog, m0, run(n).sys) && RenamingSound(run(n).sys) && run(n).sys.hist.dead == multiset{}
  {
    hide HonestStep, HazardFreeStep, Sound, MemSound, RenameSound, FetchOk, SafeRun, Agrees, RegsMatch, FlightOk,
         PathOk, After, MemAfter, RenamingSound, Executes;
    var course := CourseOf(prog, m0);
    CourseOfExecutes(prog, m0);
    RunCoherent(prog, course, run, n);
    CoherentAgrees(prog, course, run(n).sys);
    RenamingIsSound(run, n);
  }
}
