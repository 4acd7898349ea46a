/** A drained run that leaves only 19 slots of the free list counted: every register is written once, and
    then a word that is no instruction traps with a register of its own. */
module Scarcity {
  import opened BoomTypes
  import opened Decode
  import opened Execute
  import opened Pipeline
  import opened RobWindow
  import opened History
  import opened Flow
  import opened Residency
  import opened RobFifo
  import opened MemOrder
  import opened RenameMaps
  import opened Fetch
  import opened Memory
  import opened Reference
  import opened Refinement
  import opened HazardFree
  import opened DrainedRuns
  import opened Steps
  import opened LoadFree
  import opened Throughput
  import opened Environment

  /** The n-th address from the reset vector, and the register the instruction there writes. */
  function Pc(n: nat): bv64 { if n == 0 then RESET_VECTOR else Plus4(Pc(n - 1)) }

  predicate InRange(a: bv64) { RESET_VECTOR <= a < RESET_VECTOR + 124 && a & 3 == 0 }

  function RegisterAt(a: bv64): bv32 { ((((a - RESET_VECTOR) >> 2) + 1) & 0x1F) as bv32 }

  /** ADDI x1, x0, 0 to ADDI x31, x0, 0 from the reset vector on; elsewhere a word with no such opcode,
      whose destination field names x1. */
  function Filling(a: bv64): bv32 {
    if InRange(a) then (RegisterAt(a) << 7) | 0x13 else 0xFF
  }

  // ---- The program

  lemma NextRegister(a: bv64)
    requires InRange(a) && RegisterAt(a) < 31
    ensures InRange(Plus4(a)) && RegisterAt(Plus4(a)) == RegisterAt(a) + 1
  {
  }

  lemma FirstRegister()
    ensures InRange(RESET_VECTOR) && RegisterAt(RESET_VECTOR) == 1
  {
  }

  lemma PastRange(a: bv64)
    requires InRange(a) && RegisterAt(a) == 31
    ensures !InRange(Plus4(a))
  {
  }

  lemma Increment(x: bv32)
    requires x as nat < 31
    ensures x < 31 && (x + 1) as nat == x as nat + 1
  {
  }

  /** The instruction at the n-th address writes register n + 1. */
  lemma {:induction false} PcRegister(n: nat)
    requires n < 31
    ensures InRange(Pc(n)) && RegisterAt(Pc(n)) as nat == n + 1
  {
    hide InRange, RegisterAt, Plus4;
    FirstRegister();
    if n > 0 {
      PcRegister(n - 1);
      Increment(RegisterAt(Pc(n - 1)));
      NextRegister(Pc(n - 1));
    }
  }

  lemma LastPc()
    ensures !InRange(Pc(31))
  {
    hide InRange, RegisterAt, Plus4;
    PcRegister(30);
    Is31(RegisterAt(Pc(30)));
    PastRange(Pc(30));
  }

  lemma Is31(x: bv32)
    requires x as nat == 31
    ensures x == 31
  {
  }

  lemma FillingFields(a: bv64)
    ensures Opcode(Filling(a)) == if InRange(a) then 0x13 else 0x7F
    ensures InRange(a) ==> Funct3(Filling(a)) == 0 && RdField(Filling(a)) == RegisterAt(a) as nat
    ensures !InRange(a) ==> RdField(Filling(a)) == 1
  {
  }

  lemma FillingDecodes(a: bv64)
    ensures var d := DecodeInst(a, Filling(a));
            && d.rename.dst == DstInt && (InRange(a) ==> Computes(d) && d.uopc == 50 && d.rename.ldst == RegisterAt(a) as nat)
            && (!InRange(a) ==> d.uopc == UOPC_ILLEGAL && d.exception && d.rename.ldst == 1)
  {
    hide Filling, InRange, RegisterAt, Opcode, Funct3, Funct7, RdField, ImmI;
    FillingFields(a);
  }

  lemma FillingLoadFree()
    ensures NoLoads(Filling)
  {
    hide Filling, Opcode, Funct3;
    forall a: bv64
      ensures Opcode(Filling(a)) != 0x03 && Opcode(Filling(a)) != 0x23
    {
      FillingFields(a);
    }
  }

  // ---- The machine on it

  /** The machine has filled the first n registers. */
  ghost predicate Filled(s: Machine, n: nat) {
    && !s.stopped && s.arch.pc == Pc(n) && |s.trace| == n
    && (forall k :: 0 <= k < n ==> s.trace[k].rdValid && s.trace[k].rd == k + 1)
  }

  lemma FillingOutcome(a: Arch)
    requires InRange(a.pc)
    ensures var q := NextOutcome(Filling, a);
            q.Commits? && q.next.pc == Plus4(a.pc) && q.record.rdValid && q.record.rd == RegisterAt(a.pc) as nat
  {
    hide Filling, InRange, RegisterAt, AluValue, RedirectTarget, Operand1, Operand2, AccessAddress, MaskForSize,
         DecodeInst, Plus4, Align4, ReadBeat, LoadValue, Written, Stored;
    FillingDecodes(a.pc);
    NotZero(a.pc);
  }

  lemma NotZero(a: bv64)
    requires InRange(a)
    ensures RegisterAt(a) as nat != 0
  {
  }

  lemma {:induction false} MachineFills(course: Course, n: nat)
    requires Executes(Filling, course) && n <= 31
    ensures Filled(course(n).machine, n)
  {
    hide Filling, InRange, RegisterAt, OutcomeOf, NextResult, Plus4;
    if n > 0 {
      MachineFills(course, n - 1);
      PcRegister(n - 1);
      FillingOutcome(course(n - 1).machine.arch);
      assert Obeys(Filling, course, n - 1) && Continues(course, n - 1);
    }
  }

  lemma FillingEnds(a: Arch)
    requires !InRange(a.pc)
    ensures NextOutcome(Filling, a).Stops?
  {
    hide Filling, InRange, DecodeInst, AluValue, RedirectTarget, Operand1, Operand2, AccessAddress, MaskForSize;
    FillingDecodes(a.pc);
  }

  lemma MachineStops(course: Course)
    requires Executes(Filling, course)
    ensures course(32).machine.stopped
  {
    hide Filling, InRange, OutcomeOf, NextResult, Pc;
    MachineFills(course, 31);
    LastPc();
    FillingEnds(course(31).machine.arch);
    assert Obeys(Filling, course, 31) && Continues(course, 31);
  }

  // ---- The run

  lemma AnswersPromptly(y: Sys, i: StepIn)
    requires FetchOk(Filling, y) && Fetches(Filling, y, i)
    ensures PromptStep(y.core, i)
  {
    hide Filling, FetchOk;
    if y.core.fe.requestSent {
      NewestAnswered(Filling, y);
    }
  }

  lemma RhythmComputes(course: Course, y: Sys, steps: nat)
    requires Rhythm(Filling, course, y, steps) && steps < 62
    ensures NextComputes(course, y) && FetchOk(Filling, y)
  {
    hide Filling, InRange, FetchOk, Sound, MemSound, RenameSound, CoreAligned, Quiet, WantsRedirect, DecodeInst, Pc,
         RegisterAt, Computes;
    MachineFills(course, steps / 2);
    PcRegister(steps / 2);
    FillingDecodes(Pc(steps / 2));
    assert Obeys(Filling, course, steps / 2);
    ExecutedUop(Filling, course(steps / 2).machine.arch);
  }

  /** The first 62 steps keep the rhythm of one instruction every two. */
  lemma {:induction false} FillingRhythm(course: Course, run: Run, n: nat)
    requires Executes(Filling, course) && Prompted(Filling, run) && n <= 62
    ensures Rhythm(Filling, course, run(n).sys, n)
  {
    hide Reset, SysStep, Filling, HonestResponse, HonestData, PromptStep, Rhythm, NextComputes, FetchOk, Fetches,
         Executes, Prompted;
    if n == 0 {
      RunStart(run);
      ResetRhythm(Filling, course);
    } else {
      FillingRhythm(course, run, n - 1);
      RunStep(run, n - 1);
      PromptRunServes(Filling, Origin(course), run, n - 1);
      RhythmComputes(course, run(n - 1).sys, n - 1);
      AnswersPromptly(run(n - 1).sys, run(n - 1).input);
      StepRhythm(Filling, course, run(n - 1).sys, run(n - 1).input, n - 1);
    }
  }

  /** With all registers filled, two more steps request and execute the 32nd instruction. */
  lemma LastEnters(course: Course, run: Run)
    requires Executes(Filling, course) && Prompted(Filling, run)
    ensures |run(64).sys.hist.alloc| == 32
  {
    hide Reset, SysStep, Filling, MemSound, RenameSound, CoreAligned, Quiet, Sound, FetchOk, Fetches, Fetched,
         AtFetch, Stands, WantsRedirect, Expected, Executes, Acts, Window, HonestData, HonestResponse;
    FillingRhythm(course, run, 62);
    RunStep(run, 62);
    RunStep(run, 63);
    PromptRunServes(Filling, Origin(course), run, 62);
    PromptRunServes(Filling, Origin(course), run, 63);
    StepRequests(Filling, run(62).sys, run(62).input);
    if WantsRedirect(run(62).sys.core.alu) {
      StepFlushes(run(62).sys, run(62).input);
    } else {
      NewestActs(run(62).sys, run(62).input);
      StepMoves(run(62).sys, run(62).input);
    }
    StepKeeps(run(62).sys, run(62).input);
    StepFetch(Filling, run(62).sys, run(62).input);
    NoResult();
    NoResultIsInvalid();
    StepExecutes(Filling, run(63).sys, run(63).input);
  }

  /** Uops with destinations x1, x2, and so on leave all of these mapped. */
  lemma {:induction false} OverlayMaps(us: seq<AluResult>)
    requires |us| < LOGICAL_REG_COUNT && forall k :: 0 <= k < |us| ==> us[k].uop.rename.ldst == k + 1 && us[k].uop.rename.pdst != 0
    ensures forall l :: 0 < l <= |us| ==> Overlay(NoneMapped(), us)[l] != 0
  {
    if us != [] {
      OverlayMaps(us[..|us| - 1]);
    }
  }

  lemma RecordedDestinations(course: Course, y: Sys)
    requires Executes(Filling, course) && CommitsOk(y) && y.hist.commits == course(31).machine.trace && CommittedIs(y.core.ren, y.hist)
    ensures AllMapped(y.core.ren.committed)
  {
    hide Filling, Overlay, Executes;
    MachineFills(course, 31);
    var us := CommittedUops(y.hist.alloc, y.hist.fates);
    forall k | 0 <= k < |us|
      ensures us[k].uop.rename.ldst == k + 1 && us[k].uop.rename.pdst != 0
    {
      assert Recorded(y.hist.commits[k], us[k]);
    }
    OverlayMaps(us);
  }

  /** The word that is no instruction takes a register. */
  lemma LastTakes(course: Course, y: Sys)
    requires Executes(Filling, course) && CoreAligned(course, y) && |y.hist.fates| == 31 && |y.hist.alloc| == 32
    ensures Takes(y.hist)
  {
    hide Filling, CoreAligned, NextResult, DecodeInst, InRange;
    OldestInFlight(course, y);
    MachineFills(course, 31);
    LastPc();
    FillingDecodes(Pc(31));
    assert Obeys(Filling, course, 31);
    ExecutedUop(Filling, course(31).machine.arch);
  }

  /** The machine stops at it, so it is still in flight. */
  lemma LastWaits(course: Course, y: Sys)
    requires Executes(Filling, course) && CoreAligned(course, y) && Narrow(y.hist) && |y.hist.alloc| == 32
    ensures |y.hist.fates| == 31 && y.hist.commits == course(31).machine.trace
  {
    hide Filling, RegsMatch, Window, MemAfter, Expected, FlightOk, PathOk, Executes;
    MachineStops(course);
  }

  /** The bound of 19 is met: after 64 steps of this load-free program, in the prompt environment, all 31
      registers are mapped, the uop in flight has trapped with one more, and 19 slots are counted. */
  lemma NineteenIsReached(run: Run)
    requires Prompted(Filling, run)
    ensures NoLoads(Filling) && HonestImem(Filling, run, 64) && StoresHaveRoom(run, 64) && Drained(run, 64)
    ensures var y := run(64).sys; y.core.ren.count == 19 && AllMapped(y.core.ren.committed) && Takes(y.hist)
  {
    hide Filling, NoLoads, HonestResponse, HonestData, DrainedStep, AllMapped, Takes, Executes, CourseOf, Sound,
         MemSound, RenameSound, FetchOk, CoreAligned, RenamingSound, CommitsOk, CommittedIs, LoadFreeOk, Prompted,
         Serves;
    var m0, y := Mem(0, []), run(64).sys;
    var course := CourseOf(Filling, m0);
    CourseOfExecutes(Filling, m0);
    FillingLoadFree();
    forall k | 0 <= k < 64
      ensures HonestStep(Filling, m0, run(k).sys, run(k).input) && run(k).input.storeRoom
    {
      PromptRunServes(Filling, m0, run, k);
    }
    assert HonestImem(Filling, run, 64) && StoresHaveRoom(run, 64);
    RunLoadFree(Filling, course, run, 64);
    LastEnters(course, run);
    RunCommits(run, 64);
    CommittedMapIsHistory(run, 64);
    LastWaits(course, y);
    RecordedDestinations(course, y);
    LastTakes(course, y);
    DrainedRegisters(Filling, m0, run, 64);
  }
}
