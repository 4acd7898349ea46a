/** Why no uop may depend on a load that has not been answered: the core keeps no record of which registers
    are ready, and such a uop executes at once on whatever the register held before. */
module Operands {
  import opened BoomTypes
  import opened Decode
  import opened Execute
  import opened Pipeline
  import opened RobWindow
  import opened IssueQueue
  import opened History
  import opened Flow
  import opened Residency
  import opened MemOrder
  import opened RenameMaps
  import opened Fetch
  import opened Memory
  import opened Reference
  import opened Refinement
  import opened HazardFree
  import opened DrainedRuns
  import opened Traps
  import opened Steps
  import opened Progress
  import opened Environment
  import opened Undrained
  import Instructions
  import Isa

  /** LW x1, 0(x0); and ADDI x2, x1, 0 everywhere else. */
  function Dependent(a: bv64): bv32 { if a == 0x10040 then 0x0000_2083 else 0x0000_8113 }

  lemma ZeroReads(rf: seq<bv64>, p: nat)
    requires AllZero(rf)
    ensures ReadReg(rf, p) == 0
  {
  }

  // ---- The two instructions

  lemma LoadsDependent()
    ensures LoadsFirst(Dependent)
  {
  }

  lemma AddDecodes()
    ensures var d := DecodeInst(0x10044, Dependent(0x10044));
            && d.uopc == 50 && d.imm == 0 && d.ctrl.op1Sel == Op1Rs1 && d.ctrl.op2Sel == Op2Imm && d.rename.lrs1 == 1
            && !d.exception && d.pc == 0x10044
  {
    hide ImmJ;
  }

  lemma SumWithZero(v: bv64)
    ensures Add64(v, Sext32(0)) == v
  {
  }

  /** The result of ADDI with immediate zero is its operand. */
  lemma AddResult(u: MicroOp, a: bv64, b: bv64)
    requires u.uopc == 50 && u.imm == 0 && u.ctrl.op1Sel == Op1Rs1 && u.ctrl.op2Sel == Op2Imm
    ensures ExecUop(u, a, b).result == a
  {
    hide AluValue, Mispredicts, RedirectTarget, AccessAddress, MaskForSize, Add64, Sext32;
    Isa.Sums(u.pc, u.imm, a, Sext32(0), a, b);
    SumWithZero(a);
  }

  lemma StandsDecoded(r: AluResult)
    requires Stands(Dependent, r, 0x10044)
    ensures r.uop.uopc == 50 && r.uop.imm == 0 && r.uop.ctrl.op1Sel == Op1Rs1 && r.uop.ctrl.op2Sel == Op2Imm
  {
    hide AluValue, Mispredicts, RedirectTarget, Operand1, Operand2, AccessAddress, MaskForSize, DecodeInst, Dependent;
    AddDecodes();
  }

  // ---- The machine

  /** The word the load reads. */
  function FirstWord(m0: Mem): bv64 { LoadValue(ReadBeat(m0, 0), 0, 2, true) }

  lemma LoadDecodes()
    ensures var d := DecodeInst(0x10040, Dependent(0x10040));
            && d.uopc == 41 && d.imm == 0 && d.rename.ldst == 1 && d.rename.dst == DstInt && d.rename.lrs1 == 0 && !d.exception
            && d.mem == MemoryInfo(2, true)
  {
    hide ImmJ;
  }

  lemma FirstAddress()
    ensures AccessAddress(0, 0) == 0 && Plus4(0x10040) == 0x10044
  {
  }

  lemma FirstLoads(a: Arch)
    requires a.pc == 0x10040 && |a.regs| == LOGICAL_REG_COUNT && a.regs[0] == 0
    ensures NextOutcome(Dependent, a).Commits?
    ensures NextOutcome(Dependent, a).next == Arch(0x10044, a.regs[1 := FirstWord(a.mem)], a.mem)
  {
    hide DecodeInst, NextResult, NextOutcome, Dependent, LoadValue, ReadBeat, AccessAddress, Plus4, MaskForSize;
    LoadDecodes();
    FirstAddress();
    Instructions.AccessResult(Dependent, a);
    Instructions.LoadOutcome(Dependent, a);
  }

  lemma MachineLoads(course: Course)
    requires Executes(Dependent, course)
    ensures var s := course(1).machine;
            !s.stopped && s.arch.pc == 0x10044 && |s.arch.regs| == LOGICAL_REG_COUNT && s.arch.regs[1] == FirstWord(Origin(course))
  {
    hide NextResult, OutcomeOf, FirstWord, Dependent;
    assert Obeys(Dependent, course, 0) && Continues(course, 0);
    FirstLoads(course(0).machine.arch);
  }

  lemma SecondAdds(a: Arch)
    requires a.pc == 0x10044 && |a.regs| == LOGICAL_REG_COUNT
    ensures NextResult(Dependent, a).result == a.regs[1]
  {
    hide DecodeInst, Dependent, ExecUop;
    AddDecodes();
    AddResult(NextUop(Dependent, a), Reg(a.regs, 1), Reg(a.regs, NextUop(Dependent, a).rename.lrs2));
  }

  lemma MachineAdds(course: Course)
    requires Executes(Dependent, course)
    ensures course(1).next.result == FirstWord(Origin(course))
  {
    hide NextResult, FirstWord, Dependent;
    MachineLoads(course);
    assert Obeys(Dependent, course, 1);
    SecondAdds(course(1).machine.arch);
  }

  // ---- The dependent instruction executes

  /** The load is in flight, sent and unanswered, and the dependent instruction is requested. */
  ghost predicate AddRequested(course: Course, y: Sys) {
    LoadAlone(Dependent, course, y) && y.core.lsu.pending && y.core.fe.requestSent && y.core.alu == NO_RESULT
  }

  /** It executes on a register that is still zero. */
  lemma AddExecutes(course: Course, y: Sys, i: StepIn)
    requires AddRequested(course, y) && Serves(Dependent, y, i)
    ensures var z := SysStep(y, i);
            && Sound(z) && |z.hist.alloc| == 2 && z.hist.fates == [] && z.hist.alloc[0] == y.hist.alloc[0] && z.hist.alloc[1].result == 0
            && LoadFirst(z)
  {
    hide SysStep, Sound, MemSound, RenameSound, FetchOk, CoreAligned, Fetches, AllZero, WantsRedirect, Answerable,
         Executes, Stands, Expected, Dependent, HeadTrapped, Window, ExecUop, ReadReg;
    NoResult();
    StepKeeps(y, i);
    StepExecutes(Dependent, y, i);
    HeadLoadWaits(y);
    LoadStep(y, i, y.core.lsu.pendingTx, true);
    StepRegisters(y, i);
    var r := SysStep(y, i).core.alu;
    ZeroReads(y.core.rf, r.uop.rename.prs1);
    ZeroReads(y.core.rf, r.uop.rename.prs2);
    StandsDecoded(r);
    AddResult(r.uop, 0, 0);
  }

  /** The unanswered load at the head is live. */
  lemma HeadGoes(y: Sys)
    requires Sound(y) && LoadFirst(y) && !y.hist.alloc[|y.hist.fates|].uop.exception
    ensures Goes(Window(y.core.rob)[0], y.hist.alloc[|y.hist.fates|])
  {
    hide RobOk, ResultsOk, WindowOk, Packed, Window, EntryOk, ResultOk;
    FirstOk(y.core.rob, y.hist, Unsettled(y.core.alu));
    assert Residents(y.hist)[0] == y.hist.alloc[|y.hist.fates|];
    Clean(Window(y.core.rob)[0], y.hist.alloc[|y.hist.fates|], Unsettled(y.core.alu) && Count(y.core.rob) == 1);
  }

  lemma Clean(e: RobEntry, r: AluResult, raw: bool)
    requires EntryOk(e, r, raw) && ResultOk(r) && r.isLoad && !r.uop.exception && !e.completed
    ensures !e.exception
  {
  }

  /** There is room for the dependent instruction. */
  lemma AddIsRoomy(course: Course, y: Sys, i: StepIn)
    requires AddRequested(course, y)
    ensures FindsEntry(AtFetch(y, i).core, i) && RoomyStep(AtFetch(y, i).core, i)
  {
    hide AtFetch, Fetched, ResidentsOk, IsYoungest, Packed, MemSound, FetchOk, CoreAligned, NeedsRegister, DecodeInst,
         Stands, RenameOk, Expected, AllZero, Answerable, LoadFirst, Executes;
    LsuKeeps(y, i);
    Roomy(AtFetch(y, i).core.rob, AtFetch(y, i).hist);
    AtFetchRename(y, i);
    NoneDead(course, y);
    PlentyLeft(y);
  }

  lemma PlentyLeft(y: Sys)
    requires RenameSound(y) && |y.hist.alloc| == |y.hist.fates| + 1 && y.hist.dead == multiset{}
    ensures y.core.ren.count >= 19
  {
    hide Pool, StaleOk, Overlay, Regs;
    var ren := y.core.ren;
    PoolSize();
    MapCount(y);
    FlightCount(y);
    assert |multiset(Free(ren)) + Regs(ren.committed) + Pdsts(Residents(y.hist))|
        == (ren.count - 1) + |Regs(ren.committed)| + |Pdsts(Residents(y.hist))|;
  }

  /** What agreement would say of the second uop in flight. */
  lemma SecondAgrees(prog: Program, m0: Mem, y: Sys)
    requires Agrees(prog, m0, y) && |y.hist.alloc| == 2 && y.hist.fates == [] && Goes(Window(y.core.rob)[0], y.hist.alloc[0])
    ensures y.hist.alloc[1].result == NextResult(prog, After(prog, m0, 1).arch).result
  {
    hide RegsMatch, MemAfter, After, Window, Expected, Goes, NextResult, Renames;
    var w, rs := Window(y.core.rob), Residents(y.hist);
    assert rs[1] == y.hist.alloc[1] && Live(w, rs, 1);
    assert InFlight(NextResult(prog, After(prog, m0, |y.hist.fates| + 1).arch), rs[1]);
  }

  /** Without the dependence the step would have no hazard. */
  lemma IndependentAgrees(course: Course, y: Sys, i: StepIn)
    requires AddRequested(course, y) && Serves(Dependent, y, i) && Independent(AtFetch(y, i).core, i)
    ensures Agrees(Dependent, Origin(course), SysStep(y, i))
  {
    hide SysStep, AtFetch, Sound, MemSound, RenameSound, FetchOk, Fetches, AllZero, WantsRedirect, Answerable, Stands,
         Expected, Dependent, Executes, Independent, RoomyStep, FindsEntry, CoreAligned, Agrees, LoadFirst;
    AddIsRoomy(course, y, i);
    NoResult();
    ServesHonestly(Dependent, Origin(course), y, i);
    StepCoherent(Dependent, course, y, i);
    CoherentAgrees(Dependent, course, SysStep(y, i));
  }

  lemma AddDisagrees(course: Course, y: Sys, i: StepIn)
    requires AddRequested(course, y) && Serves(Dependent, y, i)
    ensures FirstWord(Origin(course)) != 0 ==>
              !Agrees(Dependent, Origin(course), SysStep(y, i)) && !Independent(AtFetch(y, i).core, i)
  {
    hide SysStep, AtFetch, Sound, MemSound, RenameSound, FetchOk, Fetches, AllZero, WantsRedirect, Answerable, Stands,
         Expected, Dependent, Window, FirstWord, Executes, Independent, Goes, RoomyStep, CoreAligned, Agrees,
         NextResult, After;
    var z := SysStep(y, i);
    AddExecutes(course, y, i);
    MachineAdds(course);
    SameCourse(Dependent, course, 1);
    LoadsDependent();
    LoadFacts(Dependent, y.hist.alloc[0]);
    HeadGoes(z);
    if Agrees(Dependent, Origin(course), z) {
      SecondAgrees(Dependent, Origin(course), z);
    }
    if Independent(AtFetch(y, i).core, i) {
      IndependentAgrees(course, y, i);
    }
  }

  // ---- The result

  /** The prompt run of this program. */
  lemma DependentRun(course: Course, run: Run)
    requires Executes(Dependent, course) && Prompted(Dependent, run)
    ensures HazardFreeRun(run, 3) && AddRequested(course, run(3).sys) && Serves(Dependent, run(3).sys, run(3).input)
  {
    hide SysStep, Serves, HonestStep, HazardFreeStep, Executes, LoadAlone, LoadsFirst, Prompted;
    LoadsDependent();
    forall n | 0 <= n < 4
      ensures Serves(Dependent, run(n).sys, run(n).input)
    {
      PromptRunServes(Dependent, Origin(course), run, n);
    }
    LoadIsSent(Dependent, course, run);
  }

  /** The operand hypothesis cannot be dropped: of this run of four steps only the last has a hazard, and only
      because its uop reads the destination of the unanswered load; and unless that load happens to read
      zero, the uop is then not the machine's instruction. */
  lemma OperandsMatter(m0: Mem, run: Run)
    requires Prompted(Dependent, run)
    ensures HonestRun(Dependent, m0, run, 4) && HazardFreeRun(run, 3)
    ensures FindsEntry(AtFetch(run(3).sys, run(3).input).core, run(3).input)
    ensures RoomyStep(AtFetch(run(3).sys, run(3).input).core, run(3).input)
    ensures !WantsRedirect(run(3).sys.core.alu)
    ensures FirstWord(m0) != 0 ==>
              !Independent(AtFetch(run(3).sys, run(3).input).core, run(3).input) && !Agrees(Dependent, m0, run(4).sys)
  {
    hide AtFetch, SysStep, HonestStep, HazardFreeStep, RoomyStep, FindsEntry, Independent, WantsRedirect, FirstWord,
         Serves, LoadAlone, Dependent, Agrees, Executes, CourseOf, Prompted;
    CourseOfExecutes(Dependent, m0);
    var course := CourseOf(Dependent, m0);
    DependentRun(course, run);
    forall n | 0 <= n < 4
      ensures HonestStep(Dependent, m0, run(n).sys, run(n).input)
    {
      PromptRunServes(Dependent, m0, run, n);
    }
    NoResult();
    RunStep(run, 3);
    AddIsRoomy(course, run(3).sys, run(3).input);
    AddDisagrees(course, run(3).sys, run(3).input);
  }
}
