/** The refinement over drained runs, in which a packet arrives only when the reorder buffer is empty, and the
    registers such a run keeps free. */
module DrainedRuns {
  import opened BoomTypes
  import opened Decode
  import opened Pipeline
  import opened Frames
  import opened RobWindow
  import opened IssueQueue
  import opened History
  import opened Flow
  import opened Residency
  import opened MemOrder
  import opened RenameMaps
  import opened Fetch
  import opened Memory
  import opened Reference
  import opened Refinement
  import opened HazardFree

  /** No packet arrives while an older uop is in the reorder buffer. */
  ghost predicate DrainedStep(y: Sys, i: StepIn) { Fetched(AtFetch(y, i).core, i).packetValid ==> RobEmpty(y.core.rob) }

  /** The drained-fetch hypothesis. */
  ghost predicate Drained(run: Run, n: nat) { forall k :: 0 <= k < n ==> DrainedStep(run(k).sys, run(k).input) }

  /** At most one uop is in flight. */
  ghost predicate Narrow(h: Hist) { |h.fates| <= |h.alloc| <= |h.fates| + 1 }

  /** Nothing in flight is behind a pending redirect. */
  predicate Quiet(y: Sys) { |y.hist.fates| < |y.hist.alloc| ==> !WantsRedirect(y.core.alu) }

  /** Everything known at the step boundary of an honest drained run. */
  ghost predicate Refines(prog: Program, course: Course, y: Sys) { Coherent(prog, course, y) && Narrow(y.hist) && Quiet(y) }

  // ---- A drained step has no hazards

  /** The committed map and what is discarded leave at least 20 slots of the free list. */
  lemma RegistersLeft(y: Sys)
    requires RenameSound(y) && |y.hist.fates| == |y.hist.alloc| && y.hist.dead == multiset{}
    ensures y.core.ren.count >= 20
  {
    hide Pool;
    var ren := y.core.ren;
    assert Residents(y.hist) == [] && Pdsts([]) == multiset{};
    PoolSize();
    assert |multiset(Free(ren)) + Regs(ren.committed)| == (ren.count - 1) + |Regs(ren.committed)|;
    CommittedCount(ren.committed);
  }

  lemma CommittedCount(t: seq<nat>)
    requires |t| == LOGICAL_REG_COUNT && At(t, 0) == 0
    ensures |Regs(t)| < LOGICAL_REG_COUNT
  {
    assert 0 in t;
    assert multiset(t)[0] >= 1;
    assert |multiset(t)[0 := 0]| + multiset(t)[0] == |multiset(t)|;
  }

  lemma EmptyRob(rob: Rob, h: Hist, raw: bool)
    requires ResidentsOk(rob, h, raw) && |h.fates| >= |h.alloc|
    ensures RobEmpty(rob)
  {
  }

  lemma NotFull(rob: Rob)
    requires Pointers(rob) && Count(rob) == 0
    ensures !RobFull(rob)
  {
  }

  /** An empty buffer awaits nothing. */
  lemma EmptyAwaitsNothing(rob: Rob, p: nat)
    requires RobOk(rob) && Count(rob) == 0
    ensures NotAwaited(rob, p)
  {
    forall k | 0 <= k < |rob.entries|
      ensures !rob.entries[k].valid
    {
      if EntryAt(rob, k).valid {
        ValidIsInWindow(rob, k);
      }
    }
  }

  lemma EmptyIsIndependent(s: Core, h: Hist, i: StepIn)
    requires ResidentsOk(s.rob, h, false) && Count(s.rob) == 0
    ensures Independent(s, i)
  {
    hide FrontendStage, DecodeInst, NotAwaited, IgnoresFirst, IgnoresSecond, RobOk, WindowOk, ResultsOk;
    var d := DecodeInst(Fetched(s, i).packetPc, Fetched(s, i).packetInst);
    EmptyAwaitsNothing(s.rob, At(s.ren.table, d.rename.lrs1));
    EmptyAwaitsNothing(s.rob, At(s.ren.table, d.rename.lrs2));
  }

  lemma NoneDead(course: Course, y: Sys)
    requires CoreAligned(course, y)
    ensures y.hist.dead == multiset{}
  {
  }

  lemma DrainedIsRoomy(course: Course, y: Sys, i: StepIn)
    requires Sound(y) && RenameSound(y) && CoreAligned(course, y) && DrainedStep(y, i)
    ensures FindsEntry(AtFetch(y, i).core, i) && RoomyStep(AtFetch(y, i).core, i) && Independent(AtFetch(y, i).core, i)
    ensures Fetched(AtFetch(y, i).core, i).packetValid ==>
              |y.hist.fates| == |y.hist.alloc| && Pointers(AtFetch(y, i).core.rob) && Count(AtFetch(y, i).core.rob) == 0
  {
    hide ResidentsOk, IsYoungest, Packed, AtFetch, FrontendStage, RenameSound, Window, NeedsRegister, DecodeInst,
         CoreAligned, NotAwaited, IgnoresFirst, IgnoresSecond;
    var l := AtFetch(y, i);
    if Fetched(l.core, i).packetValid {
      LsuKeeps(y, i);
      EmptyCount(y);
      AnyPointers(l.core.rob, l.hist, false);
      NotFull(l.core.rob);
      NoneDead(course, y);
      RegistersLeft(y);
      AtFetchRename(y, i);
      EmptyIsIndependent(l.core, l.hist, i);
    }
  }

  lemma DrainedIsHazardFree(prog: Program, course: Course, y: Sys, i: StepIn)
    requires Refines(prog, course, y) && DrainedStep(y, i)
    ensures HazardFreeStep(y, i)
  {
    hide ResidentsOk, IsYoungest, Packed, AtFetch, RenameSound, CoreAligned, FetchOk, MemSound, DrainedStep, RoomyStep,
         Independent, WantsRedirect, Fetched;
    DrainedIsRoomy(course, y, i);
    if WantsRedirect(y.core.alu) {
      EmptyRob(y.core.rob, y.hist, Unsettled(y.core.alu));
    }
  }

  // ---- A drained step leaves at most one uop, and none behind a redirect

  lemma MiddleNarrow(y: Sys, i: StepIn)
    requires Sound(y) && Narrow(y.hist) && (Fetched(AtFetch(y, i).core, i).packetValid ==> |y.hist.fates| == |y.hist.alloc|)
    ensures Narrow(MiddleSys(AtFetch(y, i), i).hist)
  {
    hide ResidentsOk, IsYoungest, Packed, AtFetch, MiddleSys, Fetched;
    var l := AtFetch(y, i);
    LsuKeeps(y, i);
    MiddleKeeps(l, i);
    ValidIsPacket(l, i);
  }

  lemma ValidIsPacket(l: Sys, i: StepIn)
    requires !l.core.globalFlush && QueueEmpty(l.core.iss)
    ensures MiddleSys(l, i).core.alu.valid ==> Fetched(l.core, i).packetValid
  {
    hide Packed, Middle, FrontendStage;
    if !Fetched(l.core, i).packetValid {
      IdleMiddle(l.core, i);
    }
  }

  /** Commit leaves nothing behind a redirect. */
  lemma CommitNarrow(m: Sys, i: StepIn)
    requires ResidentsOk(m.core.rob, m.hist, m.core.alu.valid) && IsYoungest(m.core.alu, m.hist) && Narrow(m.hist)
    ensures Narrow(CommitSys(m, i).hist) && Quiet(CommitSys(m, i))
  {
    hide ResidentsOk, Complete, CommitHead, HeadActionOf, WantsRedirect, FlushHist, StoreEvent;
    CommitFrame(m.core, i);
    if Redirecting(m.core) {
      FlushKeeps(m.core.rob, m.hist, m.core.alu.valid, false);
    } else {
      var b := BeforeCommitHead(m.core);
      CompleteKeeps(m.core, m.hist);
      CommitHeadKeeps(b, m.hist, i, Unsettled(m.core.alu), CommitStage(m.core, i).rob.lastCommit);
      AnyPointers(b.rob, m.hist, Unsettled(m.core.alu));
      if !Leaves(HeadActionOf(b, i)) && WantsRedirect(m.core.alu) && |m.hist.fates| < |m.hist.alloc| {
        RedirectLeaves(m, i);
      }
    }
  }

  /** A uop that redirects completes and commits in the step it executes. */
  lemma RedirectRetires(b: Core, h: Hist, i: StepIn, r: AluResult)
    requires ResidentsOk(b.rob, h, false) && Count(b.rob) == 1 && Window(b.rob)[0] == CompletedEntry(r)
    requires ResultOk(r) && r.mispredict
    ensures HeadActionOf(b, i).Retires?
  {
    hide ResultsOk, WindowOk;
    EntryIdentity(b.rob, 0);
    assert Slot(b.rob, 0) == b.rob.head;
  }

  /** The redirecting uop cannot be the one that waits. */
  lemma RedirectLeaves(m: Sys, i: StepIn)
    requires ResidentsOk(m.core.rob, m.hist, m.core.alu.valid) && IsYoungest(m.core.alu, m.hist) && Narrow(m.hist)
    requires WantsRedirect(m.core.alu) && |m.hist.fates| < |m.hist.alloc|
    ensures Leaves(HeadActionOf(BeforeCommitHead(m.core), i))
  {
    hide WindowOk, RobOk, Window, HeadActionOf, Complete, CompletedEntry, ResultOk;
    var h, alu := m.hist, m.core.alu;
    assert alu == h.alloc[|h.alloc| - 1] && ResultOk(alu);
    RedirectIsNoAccess(alu);
    CompleteKeeps(m.core, h);
    RedirectRetires(BeforeCommitHead(m.core), h, i, alu);
  }

  lemma RedirectIsNoAccess(r: AluResult)
    requires ResultOk(r) && r.mispredict
    ensures !r.memoryValid
  {
  }

  /** One honest drained step. */
  lemma StepRefines(prog: Program, course: Course, y: Sys, i: StepIn)
    requires Refines(prog, course, y) && HonestStep(prog, Origin(course), y, i) && DrainedStep(y, i)
    ensures Refines(prog, course, SysStep(y, i)) && HazardFreeStep(y, i) && SafeStep(AtFetch(y, i).core, i)
  {
    hide MemSound, RenameSound, FetchOk, CoreAligned, HonestStep, DrainedStep, HazardFreeStep, SafeStep, AtFetch,
         MiddleSys, CommitSys, Fetched, Quiet, ResidentsOk, IsYoungest, Packed;
    DrainedIsHazardFree(prog, course, y, i);
    StepCoherent(prog, course, y, i);
    DrainedIsRoomy(course, y, i);
    MiddleNarrow(y, i);
    LsuKeeps(y, i);
    MiddleKeeps(AtFetch(y, i), i);
    CommitNarrow(MiddleSys(AtFetch(y, i), i), i);
  }

  lemma ResetRefines(prog: Program, course: Course)
    requires Executes(prog, course)
    ensures Refines(prog, course, Reset())
  {
    hide Coherent;
    ResetCoherent(prog, course);
  }

  /** Honest drained runs have no hazards. */
  lemma {:induction false} RunRefines(prog: Program, course: Course, run: Run, n: nat)
    requires Executes(prog, course) && HonestRun(prog, Origin(course), run, n) && Drained(run, n)
    ensures Refines(prog, course, run(n).sys) && SafeRun(run, n) && HazardFreeRun(run, n)
  {
    hide SysStep, Refines, SafeStep, HonestStep, DrainedStep, HazardFreeStep, AtFetch, Reset, Executes;
    if n == 0 {
      RunStart(run);
      ResetRefines(prog, course);
    } else {
      RunStep(run, n - 1);
      RunRefines(prog, course, run, n - 1);
      StepRefines(prog, course, run(n - 1).sys, run(n - 1).input);
    }
  }

  // ---- The main results

  /** The pipeline refines the sequential machine in every honest run that fetches only into a drained
      reorder buffer, loads of any latency and traps included: such a run has no hazards, and at most one
      uop is ever in flight. */
  lemma PipelineRefinesMachine(prog: Program, m0: Mem, run: Run, n: nat)
    requires HonestRun(prog, m0, run, n) && Drained(run, n)
    ensures Agrees(prog, m0, run(n).sys) && HazardFreeRun(run, n) && Narrow(run(n).sys.hist)
  {
    hide HonestStep, DrainedStep, Coherent, HazardFreeStep, SafeRun, Agrees, Executes;
    CourseOfExecutes(prog, m0);
    RunRefines(prog, CourseOf(prog, m0), run, n);
    CoherentAgrees(prog, CourseOf(prog, m0), run(n).sys);
  }

  /** Every register but x0 has been written by a committed instruction. */
  ghost predicate AllMapped(t: seq<nat>) { forall l :: 0 < l < |t| ==> t[l] != 0 }

  /** The uop in flight has taken a register. */
  ghost predicate Takes(h: Hist) { |h.fates| < |h.alloc| && h.alloc[|h.fates|].uop.rename.pdst != 0 }

  /** A drained run discards no physical register and never has fewer than 19 slots of the free list
      counted; it has fewer than 20 exactly when all 31 registers are mapped and the uop in flight has taken
      one more. */
  lemma DrainedRegisters(prog: Program, m0: Mem, run: Run, n: nat)
    requires HonestRun(prog, m0, run, n) && Drained(run, n)
    ensures var y := run(n).sys;
            && RenamingSound(y) && y.hist.dead == multiset{} && y.core.ren.count >= 19
            && (y.core.ren.count < 20 <==> AllMapped(y.core.ren.committed) && Takes(y.hist))
  {
    hide HonestStep, DrainedStep, Sound, MemSound, RenameSound, FetchOk, SafeRun, CoreAligned, HazardFreeStep, Regs,
         Pool, Overlay, StaleOk, FreeListOk, Injective, AllMapped, Takes;
    CourseOfExecutes(prog, m0);
    RunRefines(prog, CourseOf(prog, m0), run, n);
    NoneDead(CourseOf(prog, m0), run(n).sys);
    RenamingIsSound(run, n);
    var y := run(n).sys;
    PoolSize();
    FlightCount(y);
    MapCount(y);
  }

  lemma FlightCount(y: Sys)
    requires |y.hist.fates| <= |y.hist.alloc| <= |y.hist.fates| + 1
    ensures |Pdsts(Residents(y.hist))| == if Takes(y.hist) then 1 else 0
  {
    var rs := Residents(y.hist);
    if rs != [] {
      assert rs[1..] == [];
    }
  }

  lemma MapCount(y: Sys)
    requires RenameSound(y)
    ensures |Regs(y.core.ren.committed)| < LOGICAL_REG_COUNT
    ensures |Regs(y.core.ren.committed)| == LOGICAL_REG_COUNT - 1 <==> AllMapped(y.core.ren.committed)
  {
    FullMap(y.core.ren.committed);
  }

  /** The registers a map mentions are 31 just when only x0 is unmapped. */
  lemma FullMap(t: seq<nat>)
    requires |t| == LOGICAL_REG_COUNT && At(t, 0) == 0
    ensures |Regs(t)| < LOGICAL_REG_COUNT
    ensures |Regs(t)| == LOGICAL_REG_COUNT - 1 <==> AllMapped(t)
  {
    CommittedCount(t);
    assert |multiset(t)[0 := 0]| + multiset(t)[0] == |multiset(t)|;
    assert t == [t[0]] + t[1..];
    assert multiset(t)[0] == 1 + multiset(t[1..])[0];
    if AllMapped(t) {
      assert 0 !in t[1..];
    } else {
      var l :| 0 < l < |t| && t[l] == 0;
      assert t[1..][l - 1] == 0;
      assert 0 in t[1..];
    }
  }
}
