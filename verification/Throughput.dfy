/** Exact throughput of programs that only compute and branch: one instruction every two cycles,
    taken branches included, when every fetch is answered in the next step. */
module Throughput {
  import opened BoomTypes
  import opened Decode
  import opened Execute
  import opened Pipeline
  import opened Frames
  import opened RobWindow
  import opened IssueQueue
  import opened History
  import opened Flow
  import opened Residency
  import opened RobFifo
  import opened MemOrder
  import opened RenameMaps
  import opened Fetch
  import opened Memory
  import opened Reference
  import opened Refinement
  import opened HazardFree
  import opened DrainedRuns
  import opened Traps
  import opened Steps
  import opened LoadFree

  /** The uop touches no memory and raises no exception. */
  predicate Computes(u: MicroOp) { !u.ctrl.isLoad && !u.ctrl.isSta && !u.exception && !LoadUopc(u.uopc) && !StoreUopc(u.uopc) }

  /** Every word of the program computes, branches or jumps. */
  ghost predicate OnlyComputes(prog: Program) { forall a: bv64 :: Computes(DecodeInst(a, prog(a))) }

  /** The request stream has room, and a request outstanding at the start of a step is answered in it. */
  ghost predicate PromptStep(s: Core, i: StepIn) {
    i.imemRoom && (s.fe.requestSent ==> i.imemResp.Some? && i.imemResp.value.fetchId == s.fe.pendingId)
  }

  ghost predicate Prompt(run: Run, n: nat) { forall k :: 0 <= k < n ==> PromptStep(run(k).sys.core, run(k).input) }

  // ---- Cycles

  lemma StepCycle(y: Sys, i: StepIn)
    requires Sound(y)
    ensures SysStep(y, i).core.cycle == y.core.cycle + 1
  {
    hide ResidentsOk, IsYoungest, Packed, AfterBranch, LsuRespond, LsuEnqueue, LsuIssue, LsuHist, Middle,
         CommitStage, MiddleHist, CommitHist;
    LsuKeeps(y, i);
    BranchFrame(y.core);
    var a := AfterBranch(y.core);
    RespondFrame(a, i.dmemResp);
    EnqueueFrame(LsuRespond(a, i.dmemResp));
    LsuIssueFrame(LsuReady(a, i), i);
    MiddleFrame(AtFetch(y, i).core, i);
    CommitFrame(MiddleSys(AtFetch(y, i), i).core, i);
  }

  // ---- Fetch

  lemma IdleFetchRequests(f: Frontend, br: BranchUpdate, i: StepIn)
    requires !f.flush && !f.responseReceived && !f.requestSent && i.imemRoom && (!f.resetDone ==> f.fetchId == 0)
    requires i.imemResp.Some? ==> i.imemResp.value.fetchId != f.fetchId
    ensures FetchStep(f, br, i).requestSent && !FetchStep(f, br, i).packetValid
  {
    hide Align4, Plus4;
  }

  lemma AnswerBecomesPacket(f: Frontend, br: BranchUpdate, i: StepIn)
    requires f.requestSent && f.resetDone && !f.flush && !(br.valid && br.mispredict)
    requires i.imemResp.Some? && i.imemResp.value.fetchId == f.pendingId
    ensures FetchStep(f, br, i).packetValid && !FetchStep(f, br, i).requestSent
  {
    hide Align4, Plus4;
  }

  /** An idle frontend sends its request, which nothing can answer yet. */
  lemma FetchRequests(prog: Program, s: Core, i: StepIn, expected: bv64)
    requires !s.globalFlush && FrontendOk(s.fe, s.imemLog, expected, Redirecting(s)) && HonestResponse(prog, s.imemLog, i.imemResp)
    requires !s.fe.requestSent && s.rob.state != RobException && i.imemRoom
    ensures Fetched(s, i).requestSent && !Fetched(s, i).packetValid
  {
    hide FetchStep, FrontendStage, Redirecting;
    FetchStepIs(s, i);
    IdleFetchRequests(s.fe, s.br, i);
  }

  /** The answer to an outstanding request becomes a packet at once. */
  lemma FetchAnswered(s: Core, i: StepIn, expected: bv64)
    requires !s.globalFlush && FrontendOk(s.fe, s.imemLog, expected, Redirecting(s)) && !Redirecting(s)
    requires s.fe.requestSent && s.rob.state != RobException
    requires i.imemResp.Some? && i.imemResp.value.fetchId == s.fe.pendingId
    ensures Fetched(s, i).packetValid && !Fetched(s, i).requestSent
  {
    hide FetchStep, FrontendStage;
    FetchStepIs(s, i);
    AnswerBecomesPacket(s.fe, s.br, i);
  }

  // ---- Every step

  /** At every step boundary nothing is in flight and no memory request has been made. */
  ghost predicate Tight(prog: Program, course: Course, y: Sys) {
    Refines(prog, course, y) && |y.hist.fates| == |y.hist.alloc| && y.core.dmemLog == [] && y.core.rob.state != RobException
  }

  /** The machine's next instruction computes, branches or jumps. */
  ghost predicate NextComputes(course: Course, y: Sys) {
    Computes(course(|y.hist.fates|).next.uop)
  }

  lemma TightHonest(prog: Program, course: Course, y: Sys, i: StepIn)
    requires Tight(prog, course, y) && HonestResponse(prog, y.core.imemLog, i.imemResp)
    ensures HonestStep(prog, Origin(course), y, i) && DrainedStep(y, i)
  {
    hide Fetched, AtFetch, MemSound, RenameSound, FetchOk, CoreAligned, HonestResponse, IsYoungest, Packed,
         ResidentsOk;
    NothingToAnswer(Origin(course), y.core.dmemLog, i.dmemResp);
    EmptyRob(y.core.rob, y.hist, Unsettled(y.core.alu));
  }

  /** A step allocates what it decodes, and leaves nothing in flight. */
  lemma StepTight(prog: Program, course: Course, y: Sys, i: StepIn)
    requires Tight(prog, course, y) && NextComputes(course, y) && HonestResponse(prog, y.core.imemLog, i.imemResp)
    ensures var z, f := SysStep(y, i), Fetched(AtFetch(y, i).core, i);
            && Tight(prog, course, z) && z.core.fe == f
            && |z.hist.fates| == |y.hist.fates| + (if f.packetValid then 1 else 0)
            && (!f.packetValid ==> z.core.alu == NO_RESULT)
  {
    hide MemSound, RenameSound, FetchOk, CoreAligned, HonestStep, HonestResponse, DrainedStep, HazardFreeStep,
         SafeStep, AtFetch, SysStep, Acts, Before, Window, WantsRedirect, HeadTrapped, ResidentsOk, IsYoungest,
         Packed, Fetched, Computes, Quiet, Executes, CompletedEntry, MiddleSys, ResultOk;
    var z := SysStep(y, i);
    TightHonest(prog, course, y, i);
    StepRefines(prog, course, y, i);
    NoLoadIssued(y, i);
    StepExecuted(y, i);
    RoomForPacket(course, y, i);
    if WantsRedirect(y.core.alu) {
      StepFlushes(y, i);
      StepFetch(prog, y, i);
      AtFetchFrontend(y, i);
    } else {
      StepMoves(y, i);
      NewestActs(y, i);
      if z.core.alu.valid {
        StepComputes(prog, course, y, i);
      }
    }
  }

  /** The uop a step executes is the machine's instruction. */
  lemma StepComputes(prog: Program, course: Course, y: Sys, i: StepIn)
    requires Tight(prog, course, y) && NextComputes(course, y) && HonestStep(prog, Origin(course), y, i) && HazardFreeStep(y, i)
    requires !WantsRedirect(y.core.alu) && |y.hist.fates| < |SysStep(y, i).hist.alloc|
    ensures var r := SysStep(y, i).hist.alloc[|y.hist.fates|];
            !r.memoryValid && !r.isStore && !r.isLoad && !r.uop.exception && !r.uop.ctrl.isLoad && !r.uop.ctrl.isSta
  {
    hide Sound, MemSound, RenameSound, FetchOk, CoreAligned, HonestStep, HazardFreeStep, AtFetch, SysStep, MiddleSys,
         Before, WantsRedirect, ResidentsOk, Executes, Computes, SafeStep, ResultOk, Quiet;
    StepReachesCommit(y, i);
    MiddleOfStep(prog, course, y, i);
    var m := MiddleSys(AtFetch(y, i), i);
    OldestInFlight(course, m);
    AllocatedComputes(Before(y, i).rob, m.hist, Unsettled(m.core.alu), |y.hist.fates|, course(|y.hist.fates|).next);
  }

  lemma RoomForPacket(course: Course, y: Sys, i: StepIn)
    requires Sound(y) && RenameSound(y) && CoreAligned(course, y) && DrainedStep(y, i)
    ensures Fetched(AtFetch(y, i).core, i).packetValid ==> !RobFull(AtFetch(y, i).core.rob)
  {
    hide Sound, RenameSound, CoreAligned, AtFetch, Fetched, DrainedStep, RoomyStep, Independent;
    DrainedIsRoomy(course, y, i);
  }

  lemma AllocatedComputes(rob: Rob, h: Hist, raw: bool, n: nat, q: AluResult)
    requires ResidentsOk(rob, h, raw) && n < |h.alloc| && InFlight(q, h.alloc[n]) && Computes(q.uop)
    ensures var r := h.alloc[n];
            !r.memoryValid && !r.isStore && !r.isLoad && !r.uop.exception && !r.uop.ctrl.isLoad && !r.uop.ctrl.isSta
  {
    assert ResultOk(h.alloc[n]);
  }

  /** The phase of the two-step rhythm after an even or an odd number of steps. */
  ghost predicate Rhythm(prog: Program, course: Course, y: Sys, steps: nat) {
    && Tight(prog, course, y) && y.core.cycle == steps && |y.hist.fates| == steps / 2
    && (y.core.fe.requestSent <==> steps % 2 == 1) && (steps % 2 == 1 ==> !WantsRedirect(y.core.alu))
  }

  lemma StepRhythm(prog: Program, course: Course, y: Sys, i: StepIn, steps: nat)
    requires Rhythm(prog, course, y, steps) && NextComputes(course, y) && HonestResponse(prog, y.core.imemLog, i.imemResp)
    requires PromptStep(y.core, i)
    ensures Rhythm(prog, course, SysStep(y, i), steps + 1)
  {
    hide Sound, MemSound, RenameSound, CoreAligned, HonestResponse, AtFetch, SysStep, NextComputes, Quiet, Fetched,
         FrontendOk, Expected, OnPath, WantsRedirect;
    StepTight(prog, course, y, i);
    StepCycle(y, i);
    var l := AtFetch(y, i);
    AtFetchFrontend(y, i);
    if steps % 2 == 0 {
      FetchRequests(prog, l.core, i, Expected(y.hist.fetched));
      NoResult();
    } else {
      FetchAnswered(l.core, i, Expected(y.hist.fetched));
    }
  }

  lemma {:induction false} RunRhythm(prog: Program, course: Course, run: Run, n: nat)
    requires Executes(prog, course) && OnlyComputes(prog) && HonestImem(prog, run, n) && Prompt(run, n)
    ensures Rhythm(prog, course, run(n).sys, n)
  {
    hide SysStep, Rhythm, HonestResponse, OnlyComputes, NextComputes, PromptStep, Reset, Executes;
    if n == 0 {
      RunStart(run);
      ResetRhythm(prog, course);
    } else {
      RunStep(run, n - 1);
      RunRhythm(prog, course, run, n - 1);
      AllCompute(prog, course, run(n - 1).sys);
      StepRhythm(prog, course, run(n - 1).sys, run(n - 1).input, n - 1);
    }
  }

  lemma AllCompute(prog: Program, course: Course, y: Sys)
    requires Executes(prog, course) && OnlyComputes(prog)
    ensures NextComputes(course, y)
  {
    hide DecodeInst, Computes;
    assert Obeys(prog, course, |y.hist.fates|);
    ExecutedUop(prog, course(|y.hist.fates|).machine.arch);
  }

  lemma ExecutedUop(prog: Program, a: Arch)
    ensures NextResult(prog, a).uop == DecodeInst(a.pc, prog(a.pc))
  {
    hide AluValue, Mispredicts, RedirectTarget, Operand1, Operand2, AccessAddress, MaskForSize, DecodeInst;
  }

  lemma ResetRhythm(prog: Program, course: Course)
    requires Executes(prog, course)
    ensures Rhythm(prog, course, Reset(), 0)
  {
    hide Refines;
    ResetRefines(prog, course);
  }

  /** On such a program the machine commits every instruction. */
  lemma {:induction false} EveryInstructionCommits(prog: Program, course: Course, n: nat)
    requires Executes(prog, course) && OnlyComputes(prog)
    ensures |course(n).machine.trace| == n && !course(n).machine.stopped
  {
    hide DecodeInst, NextResult, Record, Written, Stored, Successor;
    if n > 0 {
      EveryInstructionCommits(prog, course, n - 1);
      var a := course(n - 1).machine.arch;
      assert Computes(DecodeInst(a.pc, prog(a.pc)));
      assert Obeys(prog, course, n - 1) && Continues(course, n - 1);
      ExecutedUop(prog, a);
    }
  }

  /** After any number of steps the cycle counter is that number and exactly half as many instructions,
      rounded down, have retired: two cycles for each, taken branches and jumps included. */
  lemma TwoCyclesPerInstruction(prog: Program, run: Run, n: nat)
    requires OnlyComputes(prog) && HonestImem(prog, run, n) && Prompt(run, n)
    ensures run(n).sys.core.cycle == n && run(n).sys.core.instret == n / 2
  {
    hide HonestResponse, PromptStep, OnlyComputes, Sound, MemSound, RenameSound, FetchOk, Quiet, RegsMatch, MemAfter,
         Expected, InFlight, ValueReady, RecordsOk, WantsRedirect, Executes, CourseOf;
    var course := CourseOf(prog, Mem(0, []));
    CourseOfExecutes(prog, Mem(0, []));
    RunRhythm(prog, course, run, n);
    RunCommits(run, n);
    EveryInstructionCommits(prog, course, n / 2);
  }
}
