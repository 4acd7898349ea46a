/** A prompt environment: every fetch is answered in the next step, every stream has room, and no load is
    answered. What one step then does. */
module Environment {
  import opened BoomTypes
  import opened Decode
  import opened Execute
  import opened Pipeline
  import opened Frames
  import opened IssueQueue
  import opened History
  import opened Flow
  import opened Residency
  import opened Fetch
  import opened Memory
  import opened Refinement
  import opened HazardFree
  import opened Steps
  import opened Throughput

  const QUIET: StepIn := StepIn(None, None, true, true, true, true)

  /** The answer to the newest request, if one is outstanding. */
  function NextIn(prog: Program, y: Sys): StepIn {
    var log := y.core.imemLog;
    if y.core.fe.requestSent && log != [] then
      var q := log[|log| - 1];
      QUIET.(imemResp := Some(ImemResponse(q.address, |log| - 1, prog(q.address))))
    else QUIET
  }

  /** The input answers fetches as the prompt environment does, whatever it answers to loads. */
  predicate Fetches(prog: Program, y: Sys, i: StepIn) { i.imemRoom && i.imemResp == NextIn(prog, y).imemResp }

  lemma FetchesHonestly(prog: Program, y: Sys, i: StepIn)
    requires Fetches(prog, y, i)
    ensures HonestResponse(prog, y.core.imemLog, i.imemResp)
  {
  }

  lemma NextIsHonest(prog: Program, m0: Mem, y: Sys)
    ensures HonestResponse(prog, y.core.imemLog, NextIn(prog, y).imemResp) && HonestData(m0, y.core.dmemLog, NextIn(prog, y).dmemResp)
    ensures Fetches(prog, y, NextIn(prog, y)) && NextIn(prog, y).dmemResp.None? && NextIn(prog, y).loadRoom && NextIn(prog, y).storeRoom
  {
  }

  /** The step serves fetches promptly, has room for a load, and answers none. */
  ghost predicate Serves(prog: Program, y: Sys, i: StepIn) { Fetches(prog, y, i) && i.dmemResp.None? && i.loadRoom }

  lemma ServesHonestly(prog: Program, m0: Mem, y: Sys, i: StepIn)
    requires Serves(prog, y, i)
    ensures HonestStep(prog, m0, y, i)
  {
  }

  predicate PromptAt(prog: Program, run: Run, n: nat) { run(n).input == NextIn(prog, run(n).sys) }

  /** The run is the program's in that environment. */
  ghost predicate Prompted(prog: Program, run: Run) { forall n: nat :: PromptAt(prog, run, n) }

  /** There is one. */
  function PromptRun(prog: Program): (run: Run)
    ensures Prompted(prog, run)
  {
    var run := RunIn((n: nat, y: Sys) => NextIn(prog, y));
    assert forall n: nat :: PromptAt(prog, run, n) by {
      hide NextIn, RunIn;
      forall n: nat ensures PromptAt(prog, run, n) {
        RunInputs((n: nat, y: Sys) => NextIn(prog, y), n);
      }
    }
    run
  }

  lemma PromptRunServes(prog: Program, m0: Mem, run: Run, n: nat)
    requires Prompted(prog, run)
    ensures Serves(prog, run(n).sys, run(n).input) && HonestStep(prog, m0, run(n).sys, run(n).input) && run(n).input.storeRoom
  {
    hide NextIn, HonestResponse, HonestData;
    assert PromptAt(prog, run, n);
    NextIsHonest(prog, m0, run(n).sys);
  }

  // ---- What a step fetches

  ghost predicate Going(prog: Program, y: Sys) { Sound(y) && FetchOk(prog, y) && y.core.rob.state != RobException }

  /** With no request outstanding, a step makes one and allocates nothing. */
  lemma StepRequests(prog: Program, y: Sys, i: StepIn)
    requires Going(prog, y) && !y.core.fe.requestSent && Fetches(prog, y, i)
    ensures !Fetched(AtFetch(y, i).core, i).packetValid
    ensures var z := SysStep(y, i);
            && z.core.fe.requestSent && z.core.alu == NO_RESULT
            && z.hist.alloc == y.hist.alloc && z.hist.fetched == y.hist.fetched
  {
    hide Sound, AtFetch, SysStep, FrontendOk, OnPath, Expected, HonestResponse, Fetched;
    FetchesHonestly(prog, y, i);
    LsuKeeps(y, i);
    AtFetchFrontend(y, i);
    FetchRequests(prog, AtFetch(y, i).core, i, Expected(y.hist.fetched));
    StepExecuted(y, i);
    NoResultIsInvalid();
  }

  lemma NoResultIsInvalid()
    ensures !NO_RESULT.valid
  {
  }

  /** Otherwise it takes the answer and executes the instruction at the expected address. */
  lemma StepExecutes(prog: Program, y: Sys, i: StepIn)
    requires Going(prog, y) && y.core.fe.requestSent && !WantsRedirect(y.core.alu) && |y.hist.alloc| < |y.hist.fates| + ROB_DEPTH
    requires Fetches(prog, y, i)
    ensures Fetched(AtFetch(y, i).core, i).packetValid
    ensures var z, e := SysStep(y, i), Expected(y.hist.fetched);
            && !z.core.fe.requestSent
            && z.hist.alloc == y.hist.alloc + [z.core.alu] && z.core.alu.valid && Stands(prog, z.core.alu, e)
            && z.hist.fetched == y.hist.fetched + [Packet(e, prog(e), z.core.alu)]
  {
    hide Sound, AtFetch, SysStep, FrontendOk, OnPath, Expected, HonestResponse, FrontendStage, Stands, PlacedUop,
         ResultOf, WantsRedirect, MiddleSys;
    var l := AtFetch(y, i);
    FetchesHonestly(prog, y, i);
    NewestAnswered(prog, y);
    StepFetch(prog, y, i);
    LsuKeeps(y, i);
    AtFetchFrontend(y, i);
    FetchAnswered(l.core, i, Expected(y.hist.fetched));
    Roomy(l.core.rob, l.hist);
    StepExecuted(y, i);
    StepResult(y, i);
    PlacedStands(prog, l.core, i);
  }

  /** The result of a step is that of the uop placed. */
  lemma StepResult(y: Sys, i: StepIn)
    requires Sound(y) && Fetched(AtFetch(y, i).core, i).packetValid && !RobFull(AtFetch(y, i).core.rob)
    ensures SysStep(y, i).core.alu == ResultOf(AtFetch(y, i).core, PlacedUop(AtFetch(y, i).core, i))
  {
    hide ResidentsOk, IsYoungest, Packed, AtFetch, Middle, MiddleHist, CommitStage, CommitHist, FrontendStage,
         PlacedUop, ResultOf, RenamedUop, PushEntry;
    LsuKeeps(y, i);
    FlowThrough(AtFetch(y, i).core, i);
    CommitFrame(MiddleSys(AtFetch(y, i), i).core, i);
  }

  /** The result is that of the instruction at this address, whatever its operands. */
  ghost predicate Stands(prog: Program, r: AluResult, pc: bv64) {
    exists u: MicroOp, a: bv64, b: bv64 :: r == ExecUop(u, a, b) && u == DecodeInst(pc, prog(pc)).(robIdx := u.robIdx, rename := u.rename)
  }

  lemma PlacedStands(prog: Program, s: Core, i: StepIn)
    requires Fetched(s, i).packetInst == prog(Fetched(s, i).packetPc)
    ensures Stands(prog, ResultOf(s, PlacedUop(s, i)), Fetched(s, i).packetPc)
  {
    hide ExecUop, DecodeInst, RenameUop, FrontendStage, ReadReg;
    RenamedReady(Recovered(s), Fetched(s, i).packetPc, Fetched(s, i).packetInst);
  }

  lemma NewestAnswered(prog: Program, y: Sys)
    requires FetchOk(prog, y) && y.core.fe.requestSent
    ensures NextIn(prog, y).imemResp.Some? && NextIn(prog, y).imemResp.value.fetchId == y.core.fe.pendingId
  {
    hide OnPath, Expected;
  }

  lemma Roomy(rob: Rob, h: Hist)
    requires ResidentsOk(rob, h, false) && |h.alloc| < |h.fates| + ROB_DEPTH
    ensures !RobFull(rob)
  {
  }
}

