/** Programs without loads: they drain the pipeline by themselves, whatever the latency of the
    instruction memory, so they refine the sequential machine with no further hypothesis. */
module LoadFree {
  import opened BoomTypes
  import opened Decode
  import opened Execute
  import opened Pipeline
  import opened Frames
  import opened RobWindow
  import opened IssueQueue
  import opened History
  import opened Flow
  import opened Residency
  import opened MemOrder
  import opened RenameMaps
  import opened Fetch
  import opened Memory
  import opened Reference
  import opened Refinement
  import opened HazardFree
  import opened DrainedRuns
  import opened Traps
  import opened Steps

  /** No word of the program is a load or a store of a reserved width. */
  ghost predicate NoLoads(prog: Program) {
    forall a: bv64 :: Opcode(prog(a)) != 0x03 && (Opcode(prog(a)) == 0x23 ==> Funct3(prog(a)) < 4)
  }

  /** The data memory always takes a store. */
  predicate StoresHaveRoom(run: Run, n: nat) { forall k :: 0 <= k < n ==> run(k).input.storeRoom }

  /** A uop of such a program needs the load/store unit only if it is a store. */
  predicate StoresOnly(u: MicroOp) { !u.ctrl.isLoad && !LoadUopc(u.uopc) && (u.ctrl.isSta ==> StoreUopc(u.uopc)) }

  lemma DecodedStoresOnly(pc: bv64, inst: bv32)
    requires Opcode(inst) != 0x03 && (Opcode(inst) == 0x23 ==> Funct3(inst) < 4)
    ensures StoresOnly(DecodeInst(pc, inst))
  {
    hide ImmI, ImmS, ImmB, ImmU, ImmJ, Opcode, Registers, LoadSize, StoreSize;
  }

  ghost predicate AllStores(log: seq<DmemRequest>) { forall p :: 0 <= p < |log| ==> log[p].isStore }

  /** A store in flight leaves in the next step, before anything can be fetched; anything else still in
      flight has trapped. */
  ghost predicate LoadFreeOk(y: Sys) {
    && AllStores(y.core.dmemLog)
    && (|y.hist.fates| < |y.hist.alloc| ==>
          var r := y.hist.alloc[|y.hist.fates|];
          StoresOnly(r.uop) && !r.isLoad && (y.core.rob.state == RobException || (r.isStore && !y.core.fe.requestSent)))
  }

  lemma NothingToAnswer(m0: Mem, log: seq<DmemRequest>, resp: Option<DmemResponse>)
    requires AllStores(log)
    ensures HonestData(m0, log, resp)
  {
  }

  /** Every packet finds the reorder buffer empty. */
  lemma LoadFreeDrains(prog: Program, y: Sys, i: StepIn)
    requires Sound(y) && FetchOk(prog, y) && LoadFreeOk(y) && HonestResponse(prog, y.core.imemLog, i.imemResp)
    ensures DrainedStep(y, i)
  {
    hide ResidentsOk, IsYoungest, Packed, FetchOk, AtFetch, Fetched, HonestResponse;
    StepFetch(prog, y, i);
    if |y.hist.fates| >= |y.hist.alloc| {
      EmptyRob(y.core.rob, y.hist, Unsettled(y.core.alu));
    }
  }

  // ---- What is sent and fetched

  /** Without a load in flight none is issued. */
  lemma NoLoadIssued(y: Sys, i: StepIn)
    requires Sound(y) && (|y.hist.fates| < |y.hist.alloc| ==> |y.hist.alloc| == |y.hist.fates| + 1 && !y.hist.alloc[|y.hist.fates|].isLoad)
    ensures AtFetch(y, i).core.dmemLog == y.core.dmemLog
  {
    hide ResidentsOk, Packed, AfterBranch, LsuRespond, LsuEnqueue, LsuIssue, LsuHist, IssuesLoad, Window;
    var a := AfterBranch(y.core);
    BranchFrame(y.core);
    RespondKeeps(a, y.hist, i.dmemResp, Unsettled(a.alu));
    var d := LsuRespond(a, i.dmemResp);
    RespondFrame(a, i.dmemResp);
    EnqueueKeeps(d, y.hist);
    EnqueueFrame(d);
    NoLoadResident(LsuEnqueue(d), y.hist, i);
  }

  lemma NoLoadResident(s: Core, h: Hist, i: StepIn)
    requires ResidentsOk(s.rob, h, false)
    requires |h.fates| < |h.alloc| ==> |h.alloc| == |h.fates| + 1 && !h.alloc[|h.fates|].isLoad
    ensures LsuIssue(s, i).dmemLog == s.dmemLog
  {
    hide RobOk, WindowOk, ResultsOk, Window, FirstLoad;
    if IssuesLoad(s, i) {
      IssuedLoadIsResident(s, h, i);
    }
  }

  /** After a packet the frontend has no request outstanding. */
  lemma PacketLeavesNoRequest(s: Core, i: StepIn)
    ensures Fetched(s, i).packetValid ==> !Fetched(s, i).requestSent
  {
    hide FetchRedirect, FetchFlush, FetchRequest, FetchAccept, FetchPacket, Redirecting;
    if s.rob.state != RobException {
      var f := FetchAccept(FetchRequest(FetchFlush(FetchRedirect(s.fe, s.br, s.globalFlush), s.br), i.imemRoom), i.imemResp);
      assert Fetched(s, i) == FetchPacket(f);
      PacketNoRequest(f);
    }
  }

  lemma PacketNoRequest(f: Frontend)
    ensures FetchPacket(f).packetValid ==> !FetchPacket(f).requestSent
  {
    hide Plus4;
  }

  // ---- Every step

  /** Only stores are sent. */
  lemma StepSendsStores(y: Sys, i: StepIn)
    requires Sound(y) && AllStores(y.core.dmemLog)
    requires |y.hist.fates| < |y.hist.alloc| ==> |y.hist.alloc| == |y.hist.fates| + 1 && !y.hist.alloc[|y.hist.fates|].isLoad
    ensures AllStores(SysStep(y, i).core.dmemLog)
  {
    hide Sound, AtFetch, SysStep, Acts, WantsRedirect, Window, HeadTrapped;
    NoLoadIssued(y, i);
    if WantsRedirect(y.core.alu) {
      StepFlushes(y, i);
    } else {
      StepMoves(y, i);
    }
  }

  /** What is still in flight after the step is a store just executed, or has trapped. */
  lemma StepLoadFree(prog: Program, course: Course, y: Sys, i: StepIn)
    requires Refines(prog, course, y) && HonestStep(prog, Origin(course), y, i) && TrapOk(y.core.rob) && LoadFreeOk(y)
    requires NoLoads(prog) && i.storeRoom && DrainedStep(y, i)
    ensures LoadFreeOk(SysStep(y, i))
  {
    hide MemSound, RenameSound, FetchOk, CoreAligned, HonestStep, DrainedStep, AtFetch, SysStep, Acts, Before, Window,
         WantsRedirect, HeadTrapped, NoLoads, StoresOnly, Fetched, ResidentsOk, Packed, AllStores, Executes,
         HazardFreeStep, SafeStep, CompletedEntry;
    var z := SysStep(y, i);
    StepRefines(prog, course, y, i);
    PacketStoresOnly(prog, course, z);
    StepSendsStores(y, i);
    if y.core.rob.state == RobException && |y.hist.fates| < |y.hist.alloc| {
      DrainedTrap(prog, course, y, i);
    } else if WantsRedirect(y.core.alu) {
      StepFlushes(y, i);
    } else {
      StepMoves(y, i);
      StepExecuted(y, i);
      if |y.hist.fates| < |y.hist.alloc| {
        OldestActs(y, i);
        DrainedWaits(y, i);
      } else if |z.hist.fates| < |z.hist.alloc| {
        NewestActs(y, i);
        PacketLeavesNoRequest(AtFetch(y, i).core, i);
        AllocatedKind(z.core.rob, z.hist, Unsettled(z.core.alu), |z.hist.fates|);
      }
    }
  }

  /** With a uop in flight a drained step has no packet. */
  lemma DrainedWaits(y: Sys, i: StepIn)
    requires Sound(y) && DrainedStep(y, i) && |y.hist.fates| < |y.hist.alloc|
    ensures !Fetched(AtFetch(y, i).core, i).packetValid
  {
    hide AtFetch, Fetched, ResultsOk, WindowOk, Packed, IsYoungest;
  }

  lemma AllocatedKind(rob: Rob, h: Hist, raw: bool, n: nat)
    requires ResidentsOk(rob, h, raw) && n < |h.alloc| && StoresOnly(h.alloc[n].uop) && !h.alloc[n].isLoad
    ensures h.alloc[n].memoryValid <==> h.alloc[n].isStore
    ensures !h.alloc[n].isStore ==> !h.alloc[n].uop.ctrl.isLoad && !h.alloc[n].uop.ctrl.isSta
  {
    assert ResultOk(h.alloc[n]);
  }

  /** The instruction in flight is a word of the program. */
  lemma PacketStoresOnly(prog: Program, course: Course, m: Sys)
    requires Executes(prog, course) && CoreAligned(course, m) && NoLoads(prog)
    ensures |m.hist.fates| < |m.hist.alloc| ==>
              var r := m.hist.alloc[|m.hist.fates|]; StoresOnly(r.uop) && !r.isLoad
  {
    hide CoreAligned, DecodeInst, ExecUop, StoresOnly, Opcode, Funct3;
    if |m.hist.fates| < |m.hist.alloc| {
      var n := |m.hist.fates|;
      var a := course(n).machine.arch;
      OldestInFlight(course, m);
      DecodedStoresOnly(a.pc, prog(a.pc));
      assert Obeys(prog, course, n);
      NoLoadResult(NextUop(prog, a), Reg(a.regs, NextUop(prog, a).rename.lrs1), Reg(a.regs, NextUop(prog, a).rename.lrs2), m.hist.alloc[n]);
    }
  }

  lemma NoLoadResult(d: MicroOp, a: bv64, b: bv64, r: AluResult)
    requires InFlight(ExecUop(d, a, b), r) && StoresOnly(d)
    ensures StoresOnly(r.uop) && !r.isLoad
  {
    hide AluValue, Mispredicts, RedirectTarget, Operand1, Operand2, AccessAddress, MaskForSize;
  }

  lemma {:induction false} RunLoadFree(prog: Program, course: Course, run: Run, n: nat)
    requires Executes(prog, course) && NoLoads(prog) && HonestImem(prog, run, n) && StoresHaveRoom(run, n)
    ensures LoadFreeOk(run(n).sys) && Refines(prog, course, run(n).sys) && Drained(run, n) && HonestRun(prog, Origin(course), run, n)
  {
    hide SysStep, Refines, HonestResponse, HonestData, DrainedStep, LoadFreeOk, NoLoads, TrapOk, Reset, Executes;
    if n == 0 {
      RunStart(run);
      ResetLoadFree();
      ResetRefines(prog, course);
    } else {
      RunStep(run, n - 1);
      RunLoadFree(prog, course, run, n - 1);
      RunTraps(run, n - 1);
      LoadFreeStep(prog, course, run(n - 1).sys, run(n - 1).input);
    }
  }

  lemma ResetLoadFree()
    ensures LoadFreeOk(Reset())
  {
  }

  lemma LoadFreeStep(prog: Program, course: Course, y: Sys, i: StepIn)
    requires Refines(prog, course, y) && NoLoads(prog) && i.storeRoom && LoadFreeOk(y) && TrapOk(y.core.rob)
    requires HonestResponse(prog, y.core.imemLog, i.imemResp)
    ensures LoadFreeOk(SysStep(y, i)) && Refines(prog, course, SysStep(y, i)) && DrainedStep(y, i) && HonestStep(prog, Origin(course), y, i)
  {
    hide SysStep, Sound, MemSound, RenameSound, FetchOk, CoreAligned, HonestResponse, HonestData, DrainedStep,
         NoLoads, TrapOk, Quiet, HazardFreeStep, SafeStep, Executes;
    NothingToAnswer(Origin(course), y.core.dmemLog, i.dmemResp);
    LoadFreeDrains(prog, y, i);
    StepLoadFree(prog, course, y, i);
    StepRefines(prog, course, y, i);
  }

  /** A program without loads and reserved stores refines the sequential machine under any latency of
      the instruction memory: every packet is decoded with the reorder buffer empty, what commits is a
      prefix of the machine's run, and only stores go to the data memory. */
  lemma LoadFreeRefines(prog: Program, m0: Mem, run: Run, n: nat)
    requires NoLoads(prog) && HonestImem(prog, run, n) && StoresHaveRoom(run, n)
    ensures Drained(run, n) && Agrees(prog, m0, run(n).sys) && AllStores(run(n).sys.core.dmemLog)
  {
    hide HonestResponse, HonestStep, DrainedStep, NoLoads, Agrees, Coherent, Executes, StoresHaveRoom;
    CourseOfExecutes(prog, m0);
    RunLoadFree(prog, CourseOf(prog, m0), run, n);
    CoherentAgrees(prog, CourseOf(prog, m0), run(n).sys);
  }

  /** A store takes no register. */
  lemma StoreTakesNone(r: AluResult)
    requires ResultOk(r) && r.isStore && DestinationOk(r.uop)
    ensures r.uop.rename.pdst == 0
  {
  }

  lemma ResidentDestination(y: Sys)
    requires Sound(y) && RenameSound(y) && |y.hist.fates| < |y.hist.alloc|
    ensures ResultOk(y.hist.alloc[|y.hist.fates|]) && DestinationOk(y.hist.alloc[|y.hist.fates|].uop)
  {
    hide RobOk, WindowOk, Packed, Overlay, StaleOk, Conserved, ResultOk, DestinationOk;
    assert Residents(y.hist)[0] == y.hist.alloc[|y.hist.fates|];
  }

  /** Such a program discards no physical register, and unless the head has trapped at least 20 slots of
      the free list are counted at every step boundary: a uop in flight there is a store. */
  lemma LoadFreeRegisters(prog: Program, run: Run, n: nat)
    requires NoLoads(prog) && HonestImem(prog, run, n) && StoresHaveRoom(run, n)
    ensures run(n).sys.hist.dead == multiset{}
    ensures run(n).sys.core.rob.state != RobException ==> run(n).sys.core.ren.count >= 20
  {
    hide HonestResponse, HonestStep, DrainedStep, NoLoads, Sound, MemSound, RenameSound, FetchOk, CoreAligned,
         Executes, AllMapped, RenamingSound, ResultOk, DestinationOk, Quiet, AllStores, StoresHaveRoom;
    var m0, y := Mem(0, []), run(n).sys;
    CourseOfExecutes(prog, m0);
    RunLoadFree(prog, CourseOf(prog, m0), run, n);
    DrainedRegisters(prog, m0, run, n);
    if Takes(y.hist) && y.core.rob.state != RobException {
      ResidentDestination(y);
      StoreTakesNone(y.hist.alloc[|y.hist.fates|]);
    }
  }
}
