/** Runs of the core together with their history: every uop allocated and its result, the fate of
    each one that has left the reorder buffer, and the memory requests by program position. */
module History {
  import opened BoomTypes
  import opened Pipeline

  datatype Fate = Committed | EcallRetired | Flushed

  /** A memory request and the allocation number of the uop it was sent for. */
  datatype MemEvent = MemEvent(seqNo: nat, req: DmemRequest)

  /** A packet handed to the decoder and what executing it gave; no result if it was dropped. */
  datatype Packet = Packet(pc: bv64, inst: bv32, outcome: AluResult)

  /** `alloc[n]` is the result computed for the n-th uop allocated; `fates` covers those that have
      left the reorder buffer, so the remaining ones are resident. `loadSeq` is the allocation number
      of the load whose request was sent last. `dead` collects the destination registers of flushed
      uops, which the core never frees; `fetched` the packets decoded. */
  datatype Hist = Hist(
    alloc: seq<AluResult>, fates: seq<Fate>, mem: seq<MemEvent>, commits: seq<CommitEntry>,
    loadSeq: nat, dead: multiset<nat>, fetched: seq<Packet>)

  datatype Sys = Sys(core: Core, hist: Hist)

  function Reset(): Sys { Sys(ResetCore(), Hist([], [], [], [], 0, multiset{}, [])) }

  /** The uops still in the reorder buffer, oldest first. */
  function Residents(h: Hist): seq<AluResult>
    requires |h.fates| <= |h.alloc|
  {
    h.alloc[|h.fates|..]
  }

  /** The destination registers of a sequence of uops. */
  function Pdsts(rs: seq<AluResult>): multiset<nat> {
    if rs == [] then multiset{}
    else
      var p := rs[0].uop.rename.pdst;
      (if p != 0 then multiset{p} else multiset{}) + Pdsts(rs[1..])
  }

  // ---- The step with its history

  function LsuReady(s: Core, i: StepIn): Core { LsuEnqueue(LsuRespond(s, i.dmemResp)) }

  /** The event of issuing the load k entries from the head. */
  function LoadEvent(c: Core, h: Hist, k: nat): MemEvent {
    var idx := NthSlot(c.rob, k);
    MemEvent(|h.fates| + k, LoadRequest(EntryAt(c.rob, idx), idx, c.lsu.nextTx))
  }

  function LsuHist(c: Core, h: Hist, i: StepIn): Hist {
    var k := FirstLoad(c.rob, 0);
    if IssuesLoad(c, i) then h.(loadSeq := |h.fates| + k, mem := h.mem + [LoadEvent(c, h, k)]) else h
  }

  function LsuSys(y: Sys, i: StepIn): Sys {
    var c := LsuReady(y.core, i);
    Sys(LsuIssue(c, i), LsuHist(c, y.hist, i))
  }

  /** Fetch to execute. */
  function Middle(s: Core, i: StepIn): Core {
    ExecuteStage(IssueStage(AllocateStage(RenameStage(DecodeStage(FrontendStage(s, i))))))
  }

  /** Whether fetch to execute allocates a uop. */
  predicate Allocates(s: Core, i: StepIn) {
    AllocateStage(RenameStage(DecodeStage(FrontendStage(s, i)))).ren.valid
  }

  function MiddleHist(s: Core, h: Hist, i: StepIn): Hist {
    var f, r := FrontendStage(s, i).fe, Middle(s, i).alu;
    h.(alloc := if Allocates(s, i) then h.alloc + [r] else h.alloc,
       fetched := if f.packetValid then h.fetched + [Packet(f.packetPc, f.packetInst, r)] else h.fetched)
  }

  function MiddleSys(y: Sys, i: StepIn): Sys { Sys(Middle(y.core, i), MiddleHist(y.core, y.hist, i)) }

  function BeforeCommitHead(s: Core): Core { Complete(s.(rob := s.rob.(commitValid := false))) }

  /** The event of sending the store at the head. */
  function StoreEvent(b: Core, h: Hist): MemEvent {
    MemEvent(|h.fates|, StoreRequest(EntryAt(b.rob, b.rob.head), b.lsu.nextTx))
  }

  /** All residents leave at once, without effect. */
  function FlushHist(h: Hist): Hist {
    if |h.fates| <= |h.alloc| then
      h.(fates := h.fates + seq(|h.alloc| - |h.fates|, _ => Flushed), dead := h.dead + Pdsts(Residents(h)))
    else h
  }

  function RetireHist(b: Core, h: Hist, i: StepIn, ce: CommitEntry): Hist {
    match HeadActionOf(b, i)
    case Waits => h
    case Traps => h
    case RetiresEcall => h.(fates := h.fates + [EcallRetired])
    case Retires => h.(fates := h.fates + [Committed], commits := h.commits + [ce])
    case SendsStore => h.(fates := h.fates + [Committed], commits := h.commits + [ce], mem := h.mem + [StoreEvent(b, h)])
  }

  function CommitHist(s: Core, h: Hist, i: StepIn): Hist {
    if Redirecting(s) then FlushHist(h)
    else RetireHist(BeforeCommitHead(s), h, i, CommitStage(s, i).rob.lastCommit)
  }

  function CommitSys(y: Sys, i: StepIn): Sys { Sys(CommitStage(y.core, i), CommitHist(y.core, y.hist, i)) }

  /** The state a step's frontend sees. */
  function AtFetch(y: Sys, i: StepIn): Sys { LsuSys(y.(core := AfterBranch(y.core)), i) }

  function SysStep(y: Sys, i: StepIn): Sys { CommitSys(MiddleSys(AtFetch(y, i), i), i) }

  // ---- Runs

  /** A state at a step boundary, and what the streams offer in the step that follows it. */
  datatype Moment = Moment(sys: Sys, input: StepIn)

  /** The n-th moment has the state the one before leads to; the first has the reset state. */
  predicate Joins(t: nat -> Moment, n: nat) {
    t(n).sys == if n == 0 then Reset() else SysStep(t(n - 1).sys, t(n - 1).input)
  }

  /** What answers the core: the input of the n-th step, from the state that step starts in. */
  type Answerer = (nat, Sys) -> StepIn

  function MomentIn(env: Answerer, n: nat): Moment {
    var y := if n == 0 then Reset() else SysStep(MomentIn(env, n - 1).sys, MomentIn(env, n - 1).input);
    Moment(y, env(n, y))
  }

  function Moments(env: Answerer): nat -> Moment { (n: nat) => MomentIn(env, n) }

  lemma MomentsJoin(env: Answerer)
    ensures forall n: nat :: Joins(Moments(env), n)
  {
    hide SysStep, Reset;
  }

  const IDLE_INPUT: StepIn := StepIn(None, None, false, false, false, false)

  const IDLE: Answerer := (n: nat, y: Sys) => IDLE_INPUT

  /** A run of the core from reset, with whatever input in each of its steps. */
  type Run = t: nat -> Moment | forall n: nat :: Joins(t, n) witness (MomentsJoin(IDLE); Moments(IDLE))

  /** The run in that environment. */
  function RunIn(env: Answerer): Run {
    MomentsJoin(env);
    Moments(env)
  }

  lemma RunInputs(env: Answerer, n: nat)
    ensures RunIn(env)(n).input == env(n, RunIn(env)(n).sys)
  {
    hide SysStep, Reset;
  }

  /** The state after a sequence of steps from reset. */
  function StateAfter(ins: seq<StepIn>): Sys {
    if ins == [] then Reset() else SysStep(StateAfter(ins[..|ins| - 1]), ins[|ins| - 1])
  }

  lemma StateAfterOne(ins: seq<StepIn>, k: nat)
    requires k < |ins|
    ensures StateAfter(ins[..k + 1]) == SysStep(StateAfter(ins[..k]), ins[k])
  {
    hide SysStep;
    assert ins[..k + 1][..k] == ins[..k];
  }

  /** The run with these inputs first, and none after them. */
  function RunOf(ins: seq<StepIn>): Run { RunIn((n: nat, y: Sys) => if n < |ins| then ins[n] else IDLE_INPUT) }

  /** Every sequence of inputs begins a run. */
  lemma {:induction false} EveryInputHasRun(ins: seq<StepIn>, n: nat)
    requires n <= |ins|
    ensures RunOf(ins)(n).sys == StateAfter(ins[..n]) && (n < |ins| ==> RunOf(ins)(n).input == ins[n])
  {
    hide SysStep, Reset;
    if n == 0 {
      RunStart(RunOf(ins));
    } else {
      EveryInputHasRun(ins, n - 1);
      RunStep(RunOf(ins), n - 1);
      StateAfterOne(ins, n - 1);
    }
  }

  lemma RunStart(run: Run)
    ensures run(0).sys == Reset()
  {
    hide Reset;
    assert Joins(run, 0);
  }

  lemma RunStep(run: Run, n: nat)
    ensures run(n + 1).sys == SysStep(run(n).sys, run(n).input)
  {
    hide SysStep;
    assert Joins(run, n + 1);
  }

  lemma NoFlushAtStart(s: Core)
    ensures !AfterBranch(s).globalFlush
  {
  }

  /** The core state of a run is the one its steps compute; the history only watches. */
  lemma StepIsSysStep(y: Sys, i: StepIn)
    ensures SysStep(y, i).core == Step(y.core, i)
  {
    hide AfterBranch, LsuHist, LsuIssue, LsuEnqueue, LsuRespond, CommitHist, CommitStage, MiddleHist;
    hide ExecuteStage, IssueStage, AllocateStage, RenameStage, DecodeStage, FrontendStage;
    NoFlushAtStart(y.core);
  }
}
