/** What a step does, from one boundary to the next. It executes what it fetches; and unless it takes a redirect,
    it deals with the oldest uop by what that uop is, and by the room and the answer the environment gives. */
module Steps {
  import opened BoomTypes
  import opened Execute
  import opened Pipeline
  import opened Frames
  import opened RobWindow
  import opened IssueQueue
  import opened History
  import opened Flow
  import opened Residency
  import opened RobFifo
  import opened MemOrder
  import opened RenameMaps
  import opened Fetch
  import opened Refinement
  import opened HazardFree
  import opened DrainedRuns
  import opened Traps

  // ---- Fetch to execute

  /** A step without a packet executes nothing; one with a packet executes it unless the buffer is full. */
  ghost predicate Executed(y: Sys, l: Sys, f: Frontend, z: Sys) {
    && z.core.fe == f && (!f.packetValid ==> z.core.alu == NO_RESULT)
    && (f.packetValid && !RobFull(l.core.rob) ==> z.core.alu.valid)
    && z.hist.alloc == y.hist.alloc + (if z.core.alu.valid then [z.core.alu] else [])
    && z.hist.fetched == y.hist.fetched + (if f.packetValid then [Packet(f.packetPc, f.packetInst, z.core.alu)] else [])
  }

  lemma StepExecuted(y: Sys, i: StepIn)
    requires Sound(y)
    ensures Executed(y, AtFetch(y, i), Fetched(AtFetch(y, i).core, i), SysStep(y, i))
  {
    hide ResidentsOk, IsYoungest, Packed, AtFetch, Middle, Allocates, CommitStage, RetireHist, FrontendStage,
         PlacedUop, RenamedUop, PushEntry, Pdsts;
    var l := AtFetch(y, i);
    LsuKeeps(y, i);
    AtFetchFrontend(y, i);
    CommitFrame(MiddleSys(l, i).core, i);
    CommitAppends(MiddleSys(l, i), i);
    if !Fetched(l.core, i).packetValid {
      IdleMiddle(l.core, i);
    } else if RobFull(l.core.rob) {
      DroppedMiddle(l.core, i);
    } else {
      FlowThrough(l.core, i);
      ResultValid(l.core, i);
    }
  }

  /** Without an answer from the data memory a step writes at most the result of the uop it executes, and that
      uop reads the registers as they were. */
  lemma StepRegisters(y: Sys, i: StepIn)
    requires Sound(y) && i.dmemResp.None?
    ensures var r, rf := SysStep(y, i).core.alu, y.core.rf;
            && SysStep(y, i).core.rf == (if r.valid then WrittenBack(rf, r) else rf)
            && (r.valid ==> r == ExecUop(r.uop, ReadReg(rf, r.uop.rename.prs1), ReadReg(rf, r.uop.rename.prs2)))
  {
    hide ResidentsOk, IsYoungest, Packed, AfterBranch, LsuEnqueue, LsuIssue, LsuHist, Middle, CommitStage,
         FrontendStage, RenamedUop, PlacedUop, ExecUop, ReadReg, WriteReg, PushEntry, FreshEntry;
    var l := AtFetch(y, i);
    BranchFrame(y.core);
    EnqueueFrame(AfterBranch(y.core));
    LsuIssueFrame(LsuEnqueue(AfterBranch(y.core)), i);
    LsuKeeps(y, i);
    CommitFrame(MiddleSys(l, i).core, i);
    if !Fetched(l.core, i).packetValid {
      IdleMiddle(l.core, i);
    } else if RobFull(l.core.rob) {
      DroppedMiddle(l.core, i);
    } else {
      FlowThrough(l.core, i);
      ResultValid(l.core, i);
    }
  }

  // ---- Commit

  /** The state commit sees, and what it does there. */
  function Before(y: Sys, i: StepIn): Core { BeforeCommitHead(Middle(AtFetch(y, i).core, i)) }
  function Acts(y: Sys, i: StepIn): HeadAction { HeadActionOf(Before(y, i), i) }

  /** From the step boundary through fetch to commit, in a step without a redirect. */
  ghost predicate ReachesCommit(y: Sys, l: Sys, m: Sys, b: Core) {
    && ResidentsOk(l.core.rob, l.hist, false) && ResidentsOk(b.rob, m.hist, Unsettled(m.core.alu))
    && b == m.core.(rob := b.rob) && b.lsu == l.core.lsu && b.dmemLog == l.core.dmemLog && b.rob.state == Started(y.core.rob).state
    && m.hist == l.hist.(alloc := m.hist.alloc, fetched := m.hist.fetched) && m.hist.fates == y.hist.fates
    && m.hist.alloc == y.hist.alloc + (if m.core.alu.valid then [m.core.alu] else [])
  }

  lemma StepReachesCommit(y: Sys, i: StepIn)
    requires Sound(y) && !WantsRedirect(y.core.alu)
    ensures ReachesCommit(y, AtFetch(y, i), MiddleSys(AtFetch(y, i), i), Before(y, i))
    ensures SysStep(y, i) == Sys(CommitHead(Before(y, i), i),
                                 RetireHist(Before(y, i), MiddleSys(AtFetch(y, i), i).hist, i, CommitHead(Before(y, i), i).rob.lastCommit))
    ensures SysStep(y, i).hist.alloc == MiddleSys(AtFetch(y, i), i).hist.alloc
  {
    hide ResidentsOk, IsYoungest, Packed, AtFetch, Middle, MiddleHist, CommitHead, RetireHist, Complete, WantsRedirect;
    var l := AtFetch(y, i);
    LsuKeeps(y, i);
    AtFetchFrontend(y, i);
    MiddleKeeps(l, i);
    MiddleRedirect(l, i);
    MiddleFrame(l.core, i);
    MiddleStarts(l, i);
    var m := MiddleSys(l, i);
    CompleteKeeps(m.core, m.hist);
    CompleteState(m.core);
    CommitAppends(m, i);
    CompleteFrame(m.core.(rob := m.core.rob.(commitValid := false)));
  }

  /** The oldest resident reaches commit as the load/store unit leaves it. */
  lemma OldestActs(y: Sys, i: StepIn)
    requires Sound(y) && !WantsRedirect(y.core.alu) && |y.hist.fates| < |y.hist.alloc|
    ensures var q, b := AtFetch(y, i).core.rob, Before(y, i).rob;
            && Pointers(q) && Pointers(b) && Count(q) > 0 && Count(b) > 0 && Window(b)[0] == Window(q)[0]
            && Acts(y, i) == ActionFor(y.hist.alloc[|y.hist.fates|], Window(q)[0], i.storeRoom)
  {
    hide ResidentsOk, IsYoungest, Packed, AtFetch, Middle, MiddleHist, Complete, WantsRedirect, HeadActionOf, Window,
         ActionFor, FreshEntry, CompletedEntry;
    var l := AtFetch(y, i);
    StepReachesCommit(y, i);
    AnyPointers(l.core.rob, l.hist, false);
    LsuKeeps(y, i);
    MiddleKeeps(l, i);
    var m := MiddleSys(l, i);
    AnyPointers(m.core.rob, m.hist, m.core.alu.valid);
    CompleteKeeps(m.core, m.hist);
    AnyPointers(Before(y, i).rob, m.hist, Unsettled(m.core.alu));
    HeadActs(Before(y, i), m.hist, i, Unsettled(m.core.alu));
  }

  /** With nothing in flight it is the uop the step executes, if any, that acts: at once unless it is a memory
      access. */
  lemma NewestActs(y: Sys, i: StepIn)
    requires Sound(y) && !WantsRedirect(y.core.alu) && |y.hist.fates| == |y.hist.alloc|
    ensures var r := SysStep(y, i).core.alu;
            Acts(y, i) == if !r.valid || r.memoryValid then Waits else ActionFor(r, CompletedEntry(r), i.storeRoom)
  {
    hide ResidentsOk, IsYoungest, Packed, AtFetch, Middle, MiddleHist, Complete, CommitHead, RetireHist, WantsRedirect,
         HeadActionOf, Window, ActionFor, FreshEntry, CompletedEntry;
    var l := AtFetch(y, i);
    StepReachesCommit(y, i);
    LsuKeeps(y, i);
    MiddleKeeps(l, i);
    var m, b := MiddleSys(l, i), Before(y, i);
    CommitHeadFrame(b, i);
    AnyPointers(m.core.rob, m.hist, m.core.alu.valid);
    CompleteKeeps(m.core, m.hist);
    AnyPointers(b.rob, m.hist, Unsettled(m.core.alu));
    if m.core.alu.valid {
      HeadActs(b, m.hist, i, Unsettled(m.core.alu));
    } else {
      EmptyRob(b.rob, m.hist, Unsettled(m.core.alu));
      EmptyWaits(b, i);
    }
  }

  lemma EmptyWaits(b: Core, i: StepIn)
    requires RobEmpty(b.rob)
    ensures HeadActionOf(b, i).Waits?
  {
  }

  function FateOf(a: HeadAction): seq<Fate> {
    if a.Retires? || a.SendsStore? then [Committed] else if a.RetiresEcall? then [EcallRetired] else []
  }

  /** The step as its action at the head. */
  ghost predicate Moved(y: Sys, l: Sys, z: Sys, a: HeadAction) {
    && z.hist.alloc == y.hist.alloc + (if z.core.alu.valid then [z.core.alu] else [])
    && z.hist.fates == y.hist.fates + FateOf(a) && z.core.lsu.pending == l.core.lsu.pending && z.hist.loadSeq == l.hist.loadSeq
    && (a.Traps? ==> z.core.rob.state == RobException && HeadTrapped(z.core.rob))
    && (!a.Traps? && y.core.rob.state != RobException ==> z.core.rob.state != RobException)
    && (a.Waits? ==> z.core.lsu == l.core.lsu)
    && (if a.SendsStore? then exists q: DmemRequest :: q.isStore && z.core.dmemLog == l.core.dmemLog + [q]
        else z.core.dmemLog == l.core.dmemLog)
    && (a.Waits? && |y.hist.fates| < |y.hist.alloc| ==>
          && Pointers(l.core.rob) && Count(l.core.rob) > 0 && Pointers(z.core.rob) && Count(z.core.rob) > 0
          && Window(z.core.rob)[0] == Window(l.core.rob)[0])
  }

  lemma StepMoves(y: Sys, i: StepIn)
    requires Sound(y) && !WantsRedirect(y.core.alu)
    ensures Moved(y, AtFetch(y, i), SysStep(y, i), Acts(y, i))
  {
    hide ResidentsOk, AtFetch, MiddleSys, Before, CommitHead, StoreEvent, HeadActionOf, WantsRedirect, HeadTrapped,
         Window, Sound;
    var l, m, b := AtFetch(y, i), MiddleSys(AtFetch(y, i), i), Before(y, i);
    StepReachesCommit(y, i);
    CommitHeadFrame(b, i);
    CommitHeadRob(b, i);
    CommitHeadLog(b, i);
    if Acts(y, i).Traps? {
      TrapsTrapped(b, m.hist, i, Unsettled(m.core.alu));
      TrapWindow(b.rob, CommitHead(b, i).rob);
    } else {
      if b.rob.state != RobException {
        CommitState(b, i);
      }
    }
    if |y.hist.fates| < |y.hist.alloc| {
      OldestActs(y, i);
    }
  }

  /** A redirect discards everything in flight, and leaves the load/store unit as it was before fetch. */
  ghost predicate Flushes(y: Sys, l: Sys, z: Sys) {
    && z.core.rob.state == RobNormal && z.core.lsu == l.core.lsu && z.core.dmemLog == l.core.dmemLog
    && |y.hist.fates| <= |z.hist.alloc| && z.hist.fates == y.hist.fates + seq(|z.hist.alloc| - |y.hist.fates|, _ => Flushed)
  }

  lemma StepFlushes(y: Sys, i: StepIn)
    requires Sound(y) && WantsRedirect(y.core.alu)
    ensures Flushes(y, AtFetch(y, i), SysStep(y, i))
  {
    hide ResidentsOk, IsYoungest, Packed, AtFetch, Middle, Allocates, RetireHist, Pdsts, CommitHead, Complete,
         WantsRedirect, FlushRob;
    var l := AtFetch(y, i);
    LsuKeeps(y, i);
    AtFetchRename(y, i);
    MiddleKeeps(l, i);
    MiddleRedirect(l, i);
    MiddleFrame(l.core, i);
    var m := MiddleSys(l, i);
    FlushKeeps(m.core.rob, m.hist, m.core.alu.valid, false);
    FlushedState(m.core.rob);
    ResidentsBound(m.core.rob, m.hist, m.core.alu.valid);
  }

  lemma FlushedState(rob: Rob)
    ensures FlushRob(rob).state == RobNormal
  {
  }
}
