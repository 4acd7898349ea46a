/** One program with a jump behind a load, three ways: the two in flight together without a hazard; the jump
    discarding the unanswered load, after which what commits is not what the sequential machine executes; and
    the jump bringing back a core whose load has trapped. */
module Undrained {
  import opened BoomTypes
  import opened Decode
  import opened Execute
  import opened Pipeline
  import opened RobWindow
  import opened IssueQueue
  import opened History
  import opened Flow
  import opened Residency
  import opened RobFifo
  import opened MemOrder
  import opened RenameMaps
  import opened Fetch
  import opened Memory
  import opened Reference
  import opened Refinement
  import opened HazardFree
  import opened DrainedRuns
  import opened Traps
  import opened Steps
  import opened Progress
  import opened Throughput
  import opened Environment

  // ---- A load that is alone in flight

  /** LW x1, 0(x0) at the reset vector. */
  predicate LoadsFirst(prog: Program) { prog(0x10040) == 0x0000_2083 }

  lemma LoadFacts(prog: Program, r: AluResult)
    requires LoadsFirst(prog) && Stands(prog, r, 0x10040)
    ensures r.isLoad && r.memoryValid && !r.uop.exception && !WantsRedirect(r) && !WritesRegister(r)
  {
    hide ImmI, ImmJ, Operand1, Operand2, AluValue, RedirectTarget, AccessAddress, MaskForSize;
  }

  ghost predicate AllZero(rf: seq<bv64>) { forall p :: 0 <= p < |rf| ==> rf[p] == 0 }

  /** Only that load has been fetched, and it is in flight without an answer. */
  ghost predicate LoadAlone(prog: Program, course: Course, y: Sys) {
    && Coherent(prog, course, y) && Answerable(y) && y.core.rob.state != RobException
    && |y.hist.alloc| == 1 && y.hist.fates == [] && Stands(prog, y.hist.alloc[0], 0x10040)
    && Expected(y.hist.fetched) == 0x10044 && LoadFirst(y) && AllZero(y.core.rf) && !WantsRedirect(y.core.alu)
  }

  /** A step without a packet and without a redirect has no hazards. */
  lemma IdleIsHazardFree(y: Sys, i: StepIn)
    requires !Fetched(AtFetch(y, i).core, i).packetValid && !WantsRedirect(y.core.alu)
    ensures HazardFreeStep(y, i)
  {
    hide AtFetch, Fetched, WantsRedirect, NotAwaited, IgnoresFirst, IgnoresSecond, DecodeInst, NeedsRegister;
  }

  /** Nor has a step into an empty pipeline. */
  lemma EmptyIsHazardFree(prog: Program, course: Course, y: Sys, i: StepIn)
    requires Coherent(prog, course, y) && |y.hist.fates| == |y.hist.alloc| && !WantsRedirect(y.core.alu)
    ensures HazardFreeStep(y, i)
  {
    hide MemSound, RenameSound, FetchOk, CoreAligned, AtFetch, Fetched, RoomyStep, Independent, WantsRedirect,
         Executes, ResidentsOk, Packed, IsYoungest;
    EmptyRob(y.core.rob, y.hist, Unsettled(y.core.alu));
    DrainedIsRoomy(course, y, i);
  }

  /** Nothing is in flight, trapped or about to redirect. */
  ghost predicate Resting(y: Sys) {
    |y.hist.fates| == |y.hist.alloc| && y.core.rob.state != RobException && !WantsRedirect(y.core.alu)
  }

  /** A step that requests an instruction with nothing in flight changes nothing else. */
  lemma RestingRequests(prog: Program, y: Sys, i: StepIn)
    requires Sound(y) && FetchOk(prog, y) && Resting(y) && !y.core.fe.requestSent && Serves(prog, y, i)
    ensures var z := SysStep(y, i);
            && Resting(z) && z.core.fe.requestSent && z.core.alu == NO_RESULT && z.core.rf == y.core.rf
            && z.hist.alloc == y.hist.alloc && z.hist.fates == y.hist.fates && z.hist.fetched == y.hist.fetched
    ensures HazardFreeStep(y, i)
  {
    hide SysStep, Sound, FetchOk, Fetches, Fetched, AtFetch, HazardFreeStep, WantsRedirect, Acts, HeadTrapped, Window;
    NoResult();
    NoResultIsInvalid();
    StepRequests(prog, y, i);
    IdleIsHazardFree(y, i);
    NewestActs(y, i);
    StepMoves(y, i);
    StepRegisters(y, i);
  }

  /** What the first step finds. */
  lemma AtReset(prog: Program, course: Course)
    requires Executes(prog, course)
    ensures var y := Reset();
            && Coherent(prog, course, y) && Answerable(y) && Resting(y) && !y.core.fe.requestSent && AllZero(y.core.rf)
            && y.hist.alloc == [] && y.hist.fates == [] && y.hist.fetched == []
  {
    hide Coherent, Executes;
    ResetCoherent(prog, course);
  }

  ghost predicate FirstRequested(prog: Program, course: Course, y: Sys) {
    && Coherent(prog, course, y) && Answerable(y) && Resting(y) && y.core.fe.requestSent && AllZero(y.core.rf)
    && y.hist.alloc == [] && y.hist.fates == [] && y.hist.fetched == []
  }

  /** A load that has just executed with nothing else in flight has not been sent. */
  lemma JustExecuted(y: Sys)
    requires Sound(y) && |y.hist.alloc| == |y.hist.fates| + 1 && y.core.alu.valid && y.core.alu.isLoad
    ensures LoadFirst(y) && !Window(y.core.rob)[0].requestSent
  {
    hide RobOk, Window, ResultOk, Packed, FreshEntry;
    FirstOk(y.core.rob, y.hist, Unsettled(y.core.alu));
    LoadsAccess(y.core.alu);
    FreshIsUnsent(y.core.alu.uop);
  }

  lemma LoadsAccess(r: AluResult)
    ensures ResultOk(r) && r.isLoad ==> r.memoryValid
  {
  }

  lemma FreshIsUnsent(u: MicroOp)
    ensures !FreshEntry(u).requestSent && !FreshEntry(u).completed
  {
  }

  lemma ExpectedAfter(ps: seq<Packet>, p: Packet)
    ensures Expected(ps + [p]) == if WantsRedirect(p.outcome) then Align4(p.outcome.redirectPc) else Plus4(p.pc)
  {
    hide WantsRedirect;
  }

  lemma AfterFirst()
    ensures Expected([]) == 0x10040 && Plus4(0x10040) == 0x10044
  {
  }

  lemma LoadEnters(prog: Program, course: Course, y: Sys, i: StepIn)
    requires LoadsFirst(prog) && FirstRequested(prog, course, y) && Serves(prog, y, i)
    ensures LoadAlone(prog, course, SysStep(y, i)) && !SysStep(y, i).core.lsu.pending && !SysStep(y, i).core.fe.requestSent
    ensures HazardFreeStep(y, i)
  {
    hide SysStep, Sound, MemSound, RenameSound, FetchOk, CoreAligned, Fetches, Fetched, AtFetch, AllZero,
         HazardFreeStep, WantsRedirect, HonestStep, Acts, Answerable, Executes, Stands, Expected, Plus4, Align4,
         LoadsFirst, LoadFirst, HeadTrapped, WritesRegister, CompletedEntry;
    EmptyIsHazardFree(prog, course, y, i);
    ServesHonestly(prog, Origin(course), y, i);
    StepCoherent(prog, course, y, i);
    StepAnswerable(y, i);
    StepExecutes(prog, y, i);
    AfterFirst();
    LoadFacts(prog, SysStep(y, i).core.alu);
    ExpectedAfter([], Packet(0x10040, prog(0x10040), SysStep(y, i).core.alu));
    NewestActs(y, i);
    StepMoves(y, i);
    StepRegisters(y, i);
    JustExecuted(SysStep(y, i));
    HeadLoadWaits(SysStep(y, i));
  }

  /** Then the step that requests the next instruction sends the load. */
  lemma LoadGoesOut(prog: Program, course: Course, y: Sys, i: StepIn)
    requires LoadAlone(prog, course, y) && !y.core.lsu.pending && !y.core.fe.requestSent && Serves(prog, y, i)
    ensures var z := SysStep(y, i);
            && LoadAlone(prog, course, z) && z.core.lsu.pending && z.core.fe.requestSent && z.core.alu == NO_RESULT
            && z.hist.alloc == y.hist.alloc
    ensures HazardFreeStep(y, i)
  {
    hide SysStep, Sound, MemSound, RenameSound, FetchOk, CoreAligned, Fetches, Fetched, AtFetch, AllZero,
         HazardFreeStep, WantsRedirect, HonestStep, Acts, Answerable, Executes, Stands, Expected, HeadTrapped, Window;
    NoResult();
    NoResultIsInvalid();
    StepRequests(prog, y, i);
    IdleIsHazardFree(y, i);
    ServesHonestly(prog, Origin(course), y, i);
    StepCoherent(prog, course, y, i);
    StepAnswerable(y, i);
    HeadLoadWaits(y);
    LoadStep(y, i, y.core.lsu.nextTx, false);
    StepMoves(y, i);
    StepRegisters(y, i);
  }

  lemma FirstStep(prog: Program, course: Course, y: Sys, i: StepIn)
    requires Executes(prog, course) && y == Reset() && Serves(prog, y, i)
    ensures FirstRequested(prog, course, SysStep(y, i)) && HazardFreeStep(y, i)
  {
    AtReset(prog, course);
    hide Reset, SysStep, Sound, MemSound, RenameSound, FetchOk, CoreAligned, Fetches, AllZero, HazardFreeStep,
         WantsRedirect, HonestStep, Answerable, Executes;
    RestingRequests(prog, y, i);
    ServesHonestly(prog, Origin(course), y, i);
    StepCoherent(prog, course, y, i);
    StepAnswerable(y, i);
  }

  /** The load executes in the second step and is sent in the third, of any environment that serves them. */
  lemma LoadIsSent(prog: Program, course: Course, run: Run)
    requires LoadsFirst(prog) && Executes(prog, course) && forall n :: 0 <= n < 3 ==> Serves(prog, run(n).sys, run(n).input)
    ensures LoadAlone(prog, course, run(2).sys) && LoadAlone(prog, course, run(3).sys)
    ensures run(3).sys.core.lsu.pending && run(3).sys.core.fe.requestSent && run(3).sys.core.alu == NO_RESULT
    ensures forall n :: 0 <= n < 3 ==> HazardFreeStep(run(n).sys, run(n).input)
  {
    hide Reset, SysStep, Serves, HazardFreeStep, Executes, LoadsFirst, FirstRequested, LoadAlone;
    RunStart(run);
    RunStep(run, 0);
    RunStep(run, 1);
    RunStep(run, 2);
    FirstStep(prog, course, run(0).sys, run(0).input);
    LoadEnters(prog, course, run(1).sys, run(1).input);
    LoadGoesOut(prog, course, run(2).sys, run(2).input);
  }

  // ---- The example

  /** LW x1, 0(x0); JAL x0, +8; and ADDI x2, x0, 7 everywhere else. */
  function Example(a: bv64): bv32 { if a == 0x10040 then 0x0000_2083 else if a == 0x10044 then 0x0080_006F else 0x0070_0113 }

  lemma JumpFacts(r: AluResult)
    requires Stands(Example, r, 0x10044)
    ensures WantsRedirect(r) && Align4(r.redirectPc) == 0x1004C
  {
    hide Operand1, Operand2, AluValue, AccessAddress, MaskForSize;
    assert Sext32(ImmJ(0x0080_006F)) == 8;
    assert Align4(Add64(0x10044, 8)) == 0x1004C;
    hide ImmJ, Sext32, Add64, Align4;
  }

  lemma AddFacts(r: AluResult)
    requires Stands(Example, r, 0x1004C)
    ensures Computes(r.uop) && !WantsRedirect(r) && r.uop.pc == 0x1004C && r.uop.uopc == 50
  {
    hide ImmI, ImmJ, Operand1, Operand2, AluValue, RedirectTarget, AccessAddress, MaskForSize;
  }

  /** The load has been sent and the fetch of the jump requested. */
  ghost predicate JumpRequested(course: Course, y: Sys) {
    LoadAlone(Example, course, y) && y.core.lsu.pending && y.core.fe.requestSent && y.core.alu == NO_RESULT
  }

  /** The load and the jump are in flight, and the jump is about to redirect. */
  ghost predicate JumpExecuted(y: Sys) {
    && Sound(y) && FetchOk(Example, y) && |y.hist.alloc| == 2 && y.hist.fates == [] && WantsRedirect(y.core.alu)
    && Expected(y.hist.fetched) == 0x1004C && !y.core.fe.requestSent
  }

  /** The jump executes behind the load; if an exception answers the load in the same step, its head traps. */
  lemma JumpExecutes(course: Course, y: Sys, i: StepIn)
    requires JumpRequested(course, y) && Fetches(Example, y, i)
    requires i.dmemResp.Some? ==> Answers(i, y.core.lsu.pendingTx) && i.dmemResp.value.exception
    ensures JumpExecuted(SysStep(y, i)) && (SysStep(y, i).core.rob.state == RobException <==> i.dmemResp.Some?)
  {
    hide SysStep, Sound, MemSound, RenameSound, FetchOk, CoreAligned, Fetches, AllZero, WantsRedirect, Answerable,
         Executes, Stands, Expected, Align4, Plus4, Example, LoadFirst, HeadTrapped, Window;
    NoResult();
    FetchesHonestly(Example, y, i);
    StepKeeps(y, i);
    StepFetch(Example, y, i);
    StepExecutes(Example, y, i);
    JumpFacts(SysStep(y, i).core.alu);
    ExpectedAfter(y.hist.fetched, Packet(0x10044, Example(0x10044), SysStep(y, i).core.alu));
    HeadLoadWaits(y);
    LoadStep(y, i, y.core.lsu.pendingTx, true);
  }

  /** The load and the jump are gone, and the instruction at the jump's target is expected. */
  ghost predicate Discarded(y: Sys) {
    && Sound(y) && FetchOk(Example, y) && Resting(y) && |y.hist.alloc| == 2 && y.hist.fates == [Flushed, Flushed]
    && Expected(y.hist.fetched) == 0x1004C
  }

  /** The redirect discards both; a core that was not in an exception requests the target's instruction at once. */
  lemma RedirectDiscards(y: Sys, i: StepIn)
    requires JumpExecuted(y) && Fetches(Example, y, i)
    ensures Discarded(SysStep(y, i)) && (SysStep(y, i).core.fe.requestSent <==> y.core.rob.state != RobException)
    ensures SysStep(y, i).core.rob.state == RobNormal
  {
    hide SysStep, Sound, AtFetch, Fetches, WantsRedirect, Expected, Example, FrontendOk, OnPath, HonestResponse,
         FrontendStage;
    NoResult();
    NoResultIsInvalid();
    FetchesHonestly(Example, y, i);
    StepKeeps(y, i);
    StepFetch(Example, y, i);
    StepExecuted(y, i);
    StepFlushes(y, i);
    AtFetchFrontend(y, i);
    if y.core.rob.state == RobException {
      TrappedFetch(AtFetch(y, i).core, i);
    } else {
      StepRequests(Example, y, i);
    }
    assert SysStep(y, i).hist.alloc == y.hist.alloc && SysStep(y, i).hist.fates == [Flushed, Flushed];
    assert SysStep(y, i).hist.fetched == y.hist.fetched;
  }

  /** The instruction at the jump's target commits as it executes. */
  lemma TargetCommits(y: Sys, i: StepIn)
    requires Discarded(y) && y.core.fe.requestSent && Fetches(Example, y, i)
    ensures var h := SysStep(y, i).hist; |h.alloc| == 3 && h.alloc[2].uop.pc == 0x1004C && h.fates == [Flushed, Flushed, Committed]
  {
    hide SysStep, Sound, FetchOk, Fetches, WantsRedirect, Expected, Stands, Example, Computes;
    StepExecutes(Example, y, i);
    AddFacts(SysStep(y, i).core.alu);
    CommitsAtOnce(y, i);
  }

  /** A uop that computes commits in the step it executes when nothing else is in flight. */
  lemma CommitsAtOnce(y: Sys, i: StepIn)
    requires Sound(y) && Resting(y) && SysStep(y, i).core.alu.valid && Computes(SysStep(y, i).core.alu.uop)
    requires SysStep(y, i).core.alu.uop.uopc != UOPC_ECALL
    ensures SysStep(y, i).hist.fates == y.hist.fates + [Committed]
  {
    hide SysStep, Sound, WantsRedirect, Acts, AtFetch;
    StepMoves(y, i);
    StepSettles(y, i);
  }

  // ---- The load and the jump in flight together

  lemma JumpIgnores()
    ensures var d := DecodeInst(0x10044, Example(0x10044));
            IgnoresFirst(d) && IgnoresSecond(d) && !NeedsRegister(d.rename)
  {
    hide IgnoresFirst, IgnoresSecond, ImmI, ImmJ;
    IgnoredSources(DecodeInst(0x10044, Example(0x10044)));
  }

  /** The jump executes behind the load without a hazard. */
  lemma JumpIsHazardFree(course: Course, y: Sys, i: StepIn)
    requires JumpRequested(course, y) && Fetches(Example, y, i)
    ensures HazardFreeStep(y, i) && !DrainedStep(y, i)
  {
    hide AtFetch, WantsRedirect, NotAwaited, IgnoresFirst, IgnoresSecond, DecodeInst, NeedsRegister, Example,
         ResidentsOk, IsYoungest, FrontendOk, OnPath, Stands, Expected, HonestResponse, FrontendStage, MemSound,
         RenameSound, CoreAligned, Answerable, LoadFirst, Executes, AllZero;
    NoResult();
    FetchesHonestly(Example, y, i);
    StepExecutes(Example, y, i);
    StepFetch(Example, y, i);
    LsuKeeps(y, i);
    Roomy(AtFetch(y, i).core.rob, AtFetch(y, i).hist);
    JumpIgnores();
    SomebodyIn(y);
  }

  lemma SomebodyIn(y: Sys)
    requires Sound(y) && |y.hist.fates| < |y.hist.alloc|
    ensures !RobEmpty(y.core.rob)
  {
  }

  /** The run in which no load is answered. */
  lemma JumpDiscardsLoad(course: Course, run: Run)
    requires Executes(Example, course) && forall n :: 0 <= n < 6 ==> Serves(Example, run(n).sys, run(n).input)
    ensures forall n :: 0 <= n < 4 ==> HazardFreeStep(run(n).sys, run(n).input)
    ensures !DrainedStep(run(3).sys, run(3).input) && |run(4).sys.hist.alloc| == 2 && run(4).sys.hist.fates == []
    ensures var h := run(6).sys.hist; |h.alloc| == 3 && h.alloc[2].uop.pc == 0x1004C && h.fates == [Flushed, Flushed, Committed]
  {
    hide SysStep, HazardFreeStep, DrainedStep, Executes, LoadAlone, Sound, FetchOk, Resting, WantsRedirect, Expected,
         Fetches;
    LoadIsSent(Example, course, run);
    RunStep(run, 3);
    RunStep(run, 4);
    RunStep(run, 5);
    JumpIsHazardFree(course, run(3).sys, run(3).input);
    JumpExecutes(course, run(3).sys, run(3).input);
    RedirectDiscards(run(4).sys, run(4).input);
    TargetCommits(run(5).sys, run(5).input);
  }

  /** The run in which an exception answers the load in the fourth step. */
  lemma JumpRevives(course: Course, run: Run)
    requires Executes(Example, course)
    requires forall n :: 0 <= n < 7 ==>
               Fetches(Example, run(n).sys, run(n).input) && (n != 3 ==> Serves(Example, run(n).sys, run(n).input))
    requires var i := run(3).input;
             i.dmemResp.Some? && Answers(i, run(3).sys.core.lsu.pendingTx) && i.dmemResp.value.exception
    ensures run(4).sys.core.rob.state == RobException && run(4).sys.hist.fates == [] && run(5).sys.core.rob.state == RobNormal
    ensures |run(7).sys.hist.alloc| == 3 && run(7).sys.hist.fates == [Flushed, Flushed, Committed]
  {
    hide SysStep, HazardFreeStep, Executes, LoadAlone, Sound, FetchOk, Resting, WantsRedirect, Expected, Fetches;
    LoadIsSent(Example, course, run);
    RunStep(run, 3);
    RunStep(run, 4);
    RunStep(run, 5);
    RunStep(run, 6);
    JumpExecutes(course, run(3).sys, run(3).input);
    RedirectDiscards(run(4).sys, run(4).input);
    RestingRequests(Example, run(5).sys, run(5).input);
    StepKeeps(run(5).sys, run(5).input);
    FetchesHonestly(Example, run(5).sys, run(5).input);
    StepFetch(Example, run(5).sys, run(5).input);
    TargetCommits(run(6).sys, run(6).input);
  }

  // ---- The three results

  lemma OneCommit(alloc: seq<AluResult>, fates: seq<Fate>)
    requires |alloc| == 3 && fates == [Flushed, Flushed, Committed]
    ensures CommittedUops(alloc, fates) == [alloc[2]] && CommittedUops(alloc, []) == []
  {
    assert CommittedUops(alloc, []) == [];
    hide CommittedUops;
    var one, two := [] + [Flushed], ([] + [Flushed]) + [Flushed];
    OneMoreFate(alloc, [], Flushed);
    OneMoreFate(alloc, one, Flushed);
    OneMoreFate(alloc, two, Committed);
    assert two + [Committed] == fates;
  }

  /** The machine's first record is the load's. */
  lemma MachineLoadsFirst(course: Course, n: nat)
    requires Executes(Example, course)
    ensures course(0).machine.trace == [] && (n > 0 ==> course(n).machine.trace != [] && course(n).machine.trace[0].pc == 0x10040)
  {
    hide LoadValue, ReadBeat, Operand1, Operand2, AluValue, RedirectTarget, AccessAddress, MaskForSize, ImmI,
         Written, Stored, Successor, ResultValue;
    assert Obeys(Example, course, 0) && Continues(course, 0);
    assert course(1).machine.trace != [] && course(1).machine.trace[0].pc == 0x10040;
    if n > 0 {
      TraceGrows(course, 1, n);
    }
  }

  /** With honest memories but fetches that do not wait, the refinement fails: in the prompt run, after six steps,
      the load and the jump behind it have been discarded, the instruction at the jump's target has committed, and
      no run of the sequential machine has that record alone. */
  lemma DrainingIsNeeded(m0: Mem, run: Run)
    requires Prompted(Example, run)
    ensures HonestRun(Example, m0, run, 6) && !HazardFreeRun(run, 6) && !Drained(run, 6)
    ensures forall n: nat :: run(6).sys.hist.commits != After(Example, m0, n).trace
  {
    hide HonestStep, HazardFreeStep, DrainedStep, RenamingSound, After, Example, Serves, Executes, CourseOf,
         NextResult, Prompted, Agrees;
    var course, h := CourseOf(Example, m0), run(6).sys.hist;
    CourseOfExecutes(Example, m0);
    forall n | 0 <= n < 6
      ensures Serves(Example, run(n).sys, run(n).input) && HonestStep(Example, m0, run(n).sys, run(n).input)
    {
      PromptRunServes(Example, m0, run, n);
    }
    JumpDiscardsLoad(course, run);
    RunCommits(run, 6);
    OneCommit(h.alloc, h.fates);
    assert Recorded(h.commits[0], h.alloc[2]) && |h.commits| == 1;
    forall n: nat
      ensures h.commits != After(Example, m0, n).trace
    {
      SameCourse(Example, course, n);
      MachineLoadsFirst(course, n);
    }
    if HazardFreeRun(run, 6) {
      HazardFreeRefinesMachine(Example, m0, run, 6);
      AgreedRecords(Example, m0, run(6).sys);
    }
    if Drained(run, 6) {
      PipelineRefinesMachine(Example, m0, run, 6);
    }
  }

  lemma AgreedRecords(prog: Program, m0: Mem, y: Sys)
    requires Agrees(prog, m0, y)
    ensures y.hist.commits == After(prog, m0, |y.hist.fates|).trace
  {
    hide RegsMatch, MemAfter, After, Expected, InFlight, NextResult, Live;
  }

  /** The refinement without hazards covers what drained runs do not: the first four steps of that run have
      none, and leave the load and the jump behind it in flight together. */
  lemma OverlapIsCovered(m0: Mem, run: Run)
    requires Prompted(Example, run)
    ensures HonestRun(Example, m0, run, 4) && HazardFreeRun(run, 4) && !Drained(run, 4)
    ensures |run(4).sys.hist.alloc| == 2 && |run(4).sys.hist.fates| == 0
  {
    hide HonestStep, HazardFreeStep, DrainedStep, Example, Serves, Executes, CourseOf, Prompted;
    CourseOfExecutes(Example, m0);
    forall n | 0 <= n < 6
      ensures Serves(Example, run(n).sys, run(n).input) && HonestStep(Example, m0, run(n).sys, run(n).input)
    {
      PromptRunServes(Example, m0, run, n);
    }
    JumpDiscardsLoad(CourseOf(Example, m0), run);
  }

  /** The answer to the outstanding load is an exception. */
  function FaultingIn(y: Sys): StepIn { NextIn(Example, y).(dmemResp := Some(DmemResponse(y.core.lsu.pendingTx, 0, 0, true))) }

  predicate FaultsAt(run: Run, n: nat) {
    run(n).input == if n == 3 then FaultingIn(run(n).sys) else NextIn(Example, run(n).sys)
  }

  /** The same program and environment, except that the fourth step answers the load with an exception. */
  ghost predicate Faulting(run: Run) { forall n: nat :: FaultsAt(run, n) }

  const FAULTING: Answerer := (n: nat, y: Sys) => if n == 3 then FaultingIn(y) else NextIn(Example, y)

  /** There is such a run. */
  function FaultingRun(): (run: Run)
    ensures Faulting(run)
  {
    assert forall n: nat :: FaultsAt(RunIn(FAULTING), n) by {
      hide NextIn, RunIn;
      forall n: nat ensures FaultsAt(RunIn(FAULTING), n) {
        RunInputs(FAULTING, n);
      }
    }
    RunIn(FAULTING)
  }

  lemma FaultingServes(m0: Mem, run: Run, n: nat)
    requires Faulting(run)
    ensures var y, i := run(n).sys, run(n).input;
            && Fetches(Example, y, i) && HonestStep(Example, m0, y, i)
            && (if n == 3 then i.dmemResp.Some? && Answers(i, y.core.lsu.pendingTx) && i.dmemResp.value.exception
                else Serves(Example, y, i))
  {
    hide NextIn, HonestResponse;
    assert FaultsAt(run, n);
    NextIsHonest(Example, m0, run(n).sys);
  }

  /** A trap can end: in that run of seven steps, with honest memories, the head is in an exception after
      the fourth; the jump executed in that same step brings the core back in the fifth, which discards the
      trapped load; and in the seventh another instruction commits. */
  lemma TrappedCoreRevives(m0: Mem, run: Run)
    requires Faulting(run)
    ensures HonestRun(Example, m0, run, 7)
    ensures run(4).sys.core.rob.state == RobException && run(4).sys.core.instret == 0
    ensures run(5).sys.core.rob.state == RobNormal && run(7).sys.core.instret == 1
  {
    hide HonestStep, Fetches, Serves, Faulting, Example, Executes, CourseOf, Recorded, Answers;
    CourseOfExecutes(Example, m0);
    forall n | 0 <= n < 7
      ensures Fetches(Example, run(n).sys, run(n).input) && (n != 3 ==> Serves(Example, run(n).sys, run(n).input))
      ensures HonestStep(Example, m0, run(n).sys, run(n).input)
    {
      FaultingServes(m0, run, n);
    }
    FaultingServes(m0, run, 3);
    JumpRevives(CourseOf(Example, m0), run);
    RunCommits(run, 4);
    RunCommits(run, 7);
    OneCommit(run(7).sys.hist.alloc, run(7).sys.hist.fates);
    NoneCommitted(run(4).sys.hist.alloc);
  }

  lemma NoneCommitted(alloc: seq<AluResult>)
    ensures CommittedUops(alloc, []) == []
  {
  }
}
