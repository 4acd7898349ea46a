/** Exceptions in every run: an exception at the head holds the core for good unless a redirect is already
    on its way, and in drained runs it never is. */
module Traps {
  import opened BoomTypes
  import opened Pipeline
  import opened Frames
  import opened RobWindow
  import opened IssueQueue
  import opened History
  import opened Flow
  import opened Residency
  import opened RobFifo
  import opened MemOrder
  import opened RenameMaps
  import opened Fetch
  import opened Memory
  import opened Reference
  import opened Refinement
  import opened HazardFree
  import opened DrainedRuns

  /** A finished exception other than ECALL. */
  predicate Trapped(e: RobEntry) { e.valid && !e.busy && e.exception && e.uop.uopc != UOPC_ECALL }

  /** The head has trapped. */
  ghost predicate HeadTrapped(rob: Rob) { Pointers(rob) && Count(rob) > 0 && Trapped(Window(rob)[0]) }

  ghost predicate TrapOk(rob: Rob) { rob.state == RobException ==> HeadTrapped(rob) }

  lemma HeadIsFirst(rob: Rob)
    requires RobOk(rob) && Count(rob) > 0
    ensures EntryAt(rob, rob.head) == Window(rob)[0] && !RobEmpty(rob)
  {
    assert Slot(rob, 0) == rob.head;
  }

  /** A trapped head traps again. */
  lemma TrapsAgain(b: Core, h: Hist, i: StepIn, raw: bool)
    requires ResidentsOk(b.rob, h, raw) && HeadTrapped(b.rob)
    ensures HeadActionOf(b, i).Traps?
  {
    hide RobOk, WindowOk, ResultsOk, Window;
    HeadIsFirst(b.rob);
  }

  /** A head that traps has trapped. */
  lemma TrapsTrapped(b: Core, h: Hist, i: StepIn, raw: bool)
    requires ResidentsOk(b.rob, h, raw) && HeadActionOf(b, i).Traps?
    ensures HeadTrapped(b.rob)
  {
    hide RobOk, WindowOk, ResultsOk, Window;
    HeadCases(b, h, i, raw);
    HeadIsFirst(b.rob);
  }

  /** A trapped entry is settled for good: a load has been answered, anything else needs no memory. */
  lemma TrappedEntry(e: RobEntry, r: AluResult, raw: bool)
    requires EntryOk(e, r, raw) && ResultOk(r) && Trapped(e)
    ensures !raw && (r.isLoad ==> e.completed && e.requestSent) && (!r.isLoad ==> !e.isLoad) && !r.isStore
  {
  }

  lemma FirstOk(rob: Rob, h: Hist, raw: bool)
    requires ResidentsOk(rob, h, raw) && Count(rob) > 0
    ensures EntryOk(Window(rob)[0], Residents(h)[0], raw && Count(rob) == 1) && ResultOk(Residents(h)[0])
  {
    hide RobOk, EntryOk, ResultOk;
  }

  /** A load at the head is sent as soon as the data memory takes it. */
  lemma LoadGoes(s: Core, h: Hist, i: StepIn)
    requires ResidentsOk(s.rob, h, false) && Count(s.rob) > 0 && UnsentLoad(Window(s.rob)[0]) && i.loadRoom
    ensures FirstLoad(s.rob, 0) == 0 && LsuIssue(s, i).lsu.pending
  {
    hide WindowOk, ResultsOk;
    HeadIsFirst(s.rob);
    assert NthSlot(s.rob, 0) == s.rob.head;
    assert CanIssueLoad(s.rob, s.rob.head);
    assert FirstLoad(s.rob, 0) == 0;
  }

  // ---- The load/store unit leaves a trapped head alone

  lemma RespondTrapped(s: Core, h: Hist, resp: Option<DmemResponse>, raw: bool)
    requires ResidentsOk(s.rob, h, raw) && MemOk(s.lsu, s.dmemLog, Window(s.rob), h) && HeadTrapped(s.rob)
    ensures HeadTrapped(LsuRespond(s, resp).rob)
  {
    hide ResultsOk, RobOk, MemOk, Window, Trapped, EntryOk, SetEntry, DeliveredEntry, LoadedValue, AcceptsResponse,
         AwaitsData;
    if AcceptsResponse(s.lsu, resp) {
      DeliveryTarget(s, h, resp, raw);
      if h.loadSeq >= |h.fates| {
        var k := h.loadSeq - |h.fates|;
        FirstOk(s.rob, h, raw);
        TrappedEntry(Window(s.rob)[0], Residents(h)[0], raw && Count(s.rob) == 1);
        DeliveredWindow(s, h, resp, raw, k);
        RespondedPointers(s, h, resp, raw);
      }
    }
  }

  lemma RespondedPointers(s: Core, h: Hist, resp: Option<DmemResponse>, raw: bool)
    requires ResidentsOk(s.rob, h, raw)
    ensures Pointers(LsuRespond(s, resp).rob)
  {
    hide LsuRespond, RobOk, WindowOk, ResultsOk;
    RespondKeeps(s, h, resp, raw);
  }

  lemma EnqueueTrapped(s: Core, h: Hist)
    requires ResidentsOk(s.rob, h, Unsettled(s.alu)) && IsYoungest(s.alu, h) && HeadTrapped(s.rob)
    ensures HeadTrapped(LsuEnqueue(s).rob)
  {
    hide ResultsOk, RobOk, Window, Trapped, EntryOk, LsuEnqueue, WindowOk;
    FirstOk(s.rob, h, Unsettled(s.alu));
    TrappedEntry(Window(s.rob)[0], Residents(h)[0], Unsettled(s.alu) && Count(s.rob) == 1);
    EnqueueKeeps(s, h);
  }

  lemma SendingKeeps(e: RobEntry, tx: nat)
    ensures Trapped(e.(requestSent := true, txId := tx)) == Trapped(e)
  {
  }

  lemma IssueTrapped(s: Core, h: Hist, i: StepIn)
    requires ResidentsOk(s.rob, h, false) && HeadTrapped(s.rob)
    ensures HeadTrapped(LsuIssue(s, i).rob)
  {
    hide ResultsOk, RobOk, Window, Trapped, WindowOk, FirstLoad, IssueLoad;
    IssueLoadKeeps(s, h, i);
    if IssuesLoad(s, i) {
      SendingKeeps(Window(s.rob)[0], s.lsu.nextTx);
    }
  }

  lemma LsuKeepsTrap(y: Sys, i: StepIn)
    requires Sound(y) && MemSound(y) && HeadTrapped(y.core.rob)
    ensures HeadTrapped(AtFetch(y, i).core.rob)
  {
    hide ResidentsOk, IsYoungest, Packed, MemOk, AfterBranch, LsuRespond, LsuEnqueue, LsuIssue, LsuHist, HeadTrapped;
    var a := AfterBranch(y.core);
    BranchFrame(y.core);
    RespondTrapped(a, y.hist, i.dmemResp, Unsettled(a.alu));
    AnsweredTrapped(y, i);
  }

  /** What follows the response in the load/store unit. */
  lemma AnsweredTrapped(y: Sys, i: StepIn)
    requires Sound(y) && HeadTrapped(LsuRespond(AfterBranch(y.core), i.dmemResp).rob)
    ensures HeadTrapped(AtFetch(y, i).core.rob)
  {
    hide ResidentsOk, IsYoungest, Packed, AfterBranch, LsuRespond, LsuEnqueue, LsuIssue, LsuHist, HeadTrapped;
    var a := AfterBranch(y.core);
    BranchFrame(y.core);
    RespondKeeps(a, y.hist, i.dmemResp, Unsettled(a.alu));
    var d := LsuRespond(a, i.dmemResp);
    RespondFrame(a, i.dmemResp);
    EnqueueTrapped(d, y.hist);
    EnqueueKeeps(d, y.hist);
    IssueTrapped(LsuEnqueue(d), y.hist, i);
  }

  // ---- From fetch to commit

  /** Fetch to execute appends to the window, if anything. */
  lemma MiddleKeepsTrap(l: Sys, i: StepIn)
    requires ResidentsOk(l.core.rob, l.hist, false) && !l.core.globalFlush && QueueEmpty(l.core.iss) && HeadTrapped(l.core.rob)
    ensures HeadTrapped(MiddleSys(l, i).core.rob)
  {
    hide RobOk, WindowOk, ResultsOk, Packed, MiddleSys, Window, Trapped, FreshEntry;
    MiddleKeeps(l, i);
  }

  lemma CompleteTrapped(m: Sys)
    requires ResidentsOk(m.core.rob, m.hist, m.core.alu.valid) && IsYoungest(m.core.alu, m.hist) && HeadTrapped(m.core.rob)
    ensures HeadTrapped(BeforeCommitHead(m.core).rob)
  {
    hide RobOk, WindowOk, ResultsOk, Window, Trapped, EntryOk, BeforeCommitHead, CompletedEntry;
    FirstOk(m.core.rob, m.hist, m.core.alu.valid);
    TrappedEntry(Window(m.core.rob)[0], Residents(m.hist)[0], m.core.alu.valid && Count(m.core.rob) == 1);
    CompleteKeeps(m.core, m.hist);
  }

  /** The head is the same whatever the state and the output of commit. */
  lemma TrapWindow(b: Rob, c: Rob)
    requires HeadTrapped(b) && c == b.(state := c.state, commitValid := c.commitValid)
    ensures HeadTrapped(c)
  {
    SameWindow(b, c);
  }

  /** What commit can change. */
  ghost predicate SameCommits(s: Core, t: Core) {
    t.instret == s.instret && t.trace == s.trace && t.ren.committed == s.ren.committed && t.dmemLog == s.dmemLog
  }

  /** Commit with a trapped head traps, and does nothing else. */
  lemma CommitKeepsTrap(m: Sys, i: StepIn)
    requires ResidentsOk(m.core.rob, m.hist, m.core.alu.valid) && IsYoungest(m.core.alu, m.hist)
    requires !Redirecting(m.core) && HeadTrapped(m.core.rob)
    ensures var z := CommitSys(m, i);
            && z.core.rob.state == RobException && HeadTrapped(z.core.rob) && z.hist == m.hist
            && z.core.alu == m.core.alu && SameCommits(m.core, z.core)
  {
    hide ResidentsOk, IsYoungest, HeadTrapped, HeadActionOf, Complete;
    var b := BeforeCommitHead(m.core);
    CompleteKeeps(m.core, m.hist);
    CompleteFrame(m.core.(rob := m.core.rob.(commitValid := false)));
    CompleteTrapped(m);
    TrapsAgain(b, m.hist, i, Unsettled(m.core.alu));
    TrapWindow(b.rob, CommitHead(b, i).rob);
  }

  // ---- The step

  /** The uops, their fates and the commit records are those of before, and commit has changed nothing. */
  ghost predicate NothingRetired(y: Sys, z: Sys) {
    && z.hist.alloc == y.hist.alloc && z.hist.fates == y.hist.fates && z.hist.commits == y.hist.commits
    && z.core.instret == y.core.instret && z.core.trace == y.core.trace && z.core.ren.committed == y.core.ren.committed
  }

  /** A trapped core fetches nothing, so it executes nothing. */
  lemma TrappedMiddle(l: Sys, i: StepIn)
    requires !l.core.globalFlush && QueueEmpty(l.core.iss) && l.core.rob.state == RobException && !Redirecting(l.core)
    ensures var m := MiddleSys(l, i);
            && m.core.alu == NO_RESULT && m.hist == l.hist && SameCommits(l.core, m.core)
  {
    hide Packed, Middle, Allocates, FrontendStage, FetchRedirect;
    TrappedFetch(l.core, i);
    IdleMiddle(l.core, i);
  }

  /** With a trapped head and no redirect on its way, a step changes neither the head nor what has
      happened, and sets no redirect on its way. */
  lemma StaysTrapped(y: Sys, i: StepIn)
    requires Sound(y) && MemSound(y) && y.core.rob.state == RobException && HeadTrapped(y.core.rob) && !WantsRedirect(y.core.alu)
    ensures var z := SysStep(y, i);
            z.core.rob.state == RobException && HeadTrapped(z.core.rob) && z.core.alu == NO_RESULT && NothingRetired(y, z)
  {
    hide ResidentsOk, IsYoungest, Packed, AtFetch, MiddleSys, CommitSys, MemSound, WantsRedirect, HeadTrapped;
    var l := AtFetch(y, i);
    LsuKeeps(y, i);
    LsuKeepsTrap(y, i);
    LsuInstret(y, i);
    AtFetchRename(y, i);
    AtFetchFrontend(y, i);
    TrappedMiddle(l, i);
    MiddleKeeps(l, i);
    MiddleKeepsTrap(l, i);
    MiddleRedirect(l, i);
    CommitKeepsTrap(MiddleSys(l, i), i);
  }

  /** A redirect ends the exception with everything else in flight. */
  lemma RedirectRevives(y: Sys, i: StepIn)
    requires Sound(y) && WantsRedirect(y.core.alu)
    ensures SysStep(y, i).core.rob.state == RobNormal
  {
    hide ResidentsOk, IsYoungest, Packed, AtFetch, Middle, MiddleHist, FlushHist, WantsRedirect;
    LsuKeeps(y, i);
    AtFetchRename(y, i);
    MiddleRedirect(AtFetch(y, i), i);
  }

  // ---- How a trap begins

  lemma MiddleStarts(l: Sys, i: StepIn)
    requires !l.core.globalFlush && QueueEmpty(l.core.iss)
    ensures MiddleSys(l, i).core.rob.state == Started(l.core.rob).state
  {
    hide Packed, Middle, FrontendStage, RenamedUop, ResultOf, PlacedUop, FreshEntry, WrittenBack;
    if !Fetched(l.core, i).packetValid {
      IdleMiddle(l.core, i);
    } else if RobFull(l.core.rob) {
      DroppedMiddle(l.core, i);
    } else {
      FlowThrough(l.core, i);
    }
  }

  lemma CompleteState(s: Core)
    ensures BeforeCommitHead(s).rob.state == s.rob.state
  {
    hide EntryAt;
  }

  lemma CommitState(b: Core, i: StepIn)
    requires b.rob.state != RobException && !HeadActionOf(b, i).Traps?
    ensures CommitHead(b, i).rob.state != RobException
  {
    hide CommitHead, HeadActionOf, EntryAt, StoreRequest;
    CommitHeadRob(b, i);
  }

  lemma CommitTraps(m: Sys, i: StepIn)
    requires ResidentsOk(m.core.rob, m.hist, m.core.alu.valid) && IsYoungest(m.core.alu, m.hist)
    requires m.core.rob.state != RobException
    ensures TrapOk(CommitSys(m, i).core.rob)
  {
    hide ResidentsOk, HeadTrapped, HeadActionOf, CommitHead, BeforeCommitHead;
    if !Redirecting(m.core) {
      var b := BeforeCommitHead(m.core);
      assert CommitSys(m, i).core == CommitHead(b, i) by { IsBefore(m.core); }
      CompleteKeeps(m.core, m.hist);
      CompleteState(m.core);
      if HeadActionOf(b, i).Traps? {
        TrapsTrapped(b, m.hist, i, Unsettled(m.core.alu));
        CommitHeadRob(b, i);
        TrapWindow(b.rob, CommitHead(b, i).rob);
      } else {
        CommitState(b, i);
      }
    }
  }

  lemma IsBefore(s: Core)
    ensures BeforeCommitHead(s) == Complete(s.(rob := s.rob.(commitValid := false)))
  {
    hide Complete;
  }

  lemma StepTraps(y: Sys, i: StepIn)
    requires Sound(y) && MemSound(y) && TrapOk(y.core.rob)
    ensures TrapOk(SysStep(y, i).core.rob)
  {
    hide ResidentsOk, IsYoungest, Packed, MemSound, AtFetch, MiddleSys, CommitSys, HeadTrapped, WantsRedirect;
    if WantsRedirect(y.core.alu) {
      RedirectRevives(y, i);
    } else if y.core.rob.state == RobException {
      StaysTrapped(y, i);
    } else {
      var l := AtFetch(y, i);
      AtFetchFrontend(y, i);
      LsuKeeps(y, i);
      MiddleStarts(l, i);
      MiddleKeeps(l, i);
      CommitTraps(MiddleSys(l, i), i);
    }
  }

  lemma {:induction false} RunTraps(run: Run, n: nat)
    ensures TrapOk(run(n).sys.core.rob)
  {
    hide SysStep, Sound, MemSound, HeadTrapped;
    if n == 0 {
      RunStart(run);
    } else {
      RunStep(run, n - 1);
      RunTraps(run, n - 1);
      RunIsSound(run, n - 1);
      RunIsMemSound(run, n - 1);
      StepTraps(run(n - 1).sys, run(n - 1).input);
    }
  }

  // ---- The main results, in every run

  /** A core in the exception state leaves it in the next step exactly if a redirect is on its way. */
  lemma TrapEndsOnRedirect(run: Run, n: nat)
    ensures run(n).sys.core.rob.state == RobException ==>
              (run(n + 1).sys.core.rob.state == RobException <==> !WantsRedirect(run(n).sys.core.alu))
  {
    hide SysStep, Sound, MemSound, HeadTrapped, WantsRedirect;
    RunIsSound(run, n);
    RunIsMemSound(run, n);
    RunTraps(run, n);
    RunStep(run, n);
    if WantsRedirect(run(n).sys.core.alu) {
      RedirectRevives(run(n).sys, run(n).input);
    } else if run(n).sys.core.rob.state == RobException {
      StaysTrapped(run(n).sys, run(n).input);
    }
  }

  /** The core is in the exception state and no redirect is on its way. */
  ghost predicate TrappedFor(y: Sys) { y.core.rob.state == RobException && !WantsRedirect(y.core.alu) }

  /** Then no continuation whatever allocates, commits or retires anything. */
  lemma {:induction false} TrapIsForGood(run: Run, n: nat, m: nat)
    requires TrappedFor(run(n).sys) && n <= m
    ensures TrappedFor(run(m).sys) && NothingRetired(run(n).sys, run(m).sys)
    decreases m
  {
    hide SysStep, Sound, MemSound, HeadTrapped, WantsRedirect;
    if n < m {
      TrapIsForGood(run, n, m - 1);
      RunIsSound(run, m - 1);
      RunIsMemSound(run, m - 1);
      RunTraps(run, m - 1);
      RunStep(run, m - 1);
      StaysTrapped(run(m - 1).sys, run(m - 1).input);
      NoResult();
    }
  }

  // ---- Drained runs

  /** A trapped head that is alone leaves no load to send. */
  lemma NoIssueTrapped(s: Core, h: Hist, i: StepIn)
    requires ResidentsOk(s.rob, h, false) && HeadTrapped(s.rob) && Count(s.rob) == 1
    ensures LsuIssue(s, i) == s
  {
    hide ResultsOk, RobOk, Window, EntryOk, FirstLoad, Trapped;
    if IssuesLoad(s, i) {
      IssuedLoadIsResident(s, h, i);
      var e, r := Window(s.rob)[0], Residents(h)[0];
      FirstOk(s.rob, h, false);
      TrappedEntry(e, r, false);
    }
  }

  lemma LoneTrapSends(y: Sys, i: StepIn)
    requires Sound(y) && MemSound(y) && HeadTrapped(y.core.rob) && |y.hist.alloc| == |y.hist.fates| + 1
    ensures AtFetch(y, i).core.dmemLog == y.core.dmemLog
  {
    hide ResidentsOk, IsYoungest, Packed, MemOk, AfterBranch, LsuRespond, LsuEnqueue, LsuIssue, LsuHist, HeadTrapped;
    var a := AfterBranch(y.core);
    BranchFrame(y.core);
    RespondTrapped(a, y.hist, i.dmemResp, Unsettled(a.alu));
    RespondKeeps(a, y.hist, i.dmemResp, Unsettled(a.alu));
    var d := LsuRespond(a, i.dmemResp);
    RespondFrame(a, i.dmemResp);
    EnqueueTrapped(d, y.hist);
    EnqueueKeeps(d, y.hist);
    EnqueueFrame(d);
    Lone(LsuEnqueue(d).rob, y.hist);
    NoIssueTrapped(LsuEnqueue(d), y.hist, i);
  }

  lemma Lone(rob: Rob, h: Hist)
    requires ResidentsOk(rob, h, false) && |h.alloc| == |h.fates| + 1
    ensures Pointers(rob) && Count(rob) == 1
  {
  }

  /** Nothing has happened to the committed state since, and nothing has been sent. */
  ghost predicate NothingSince(y: Sys, z: Sys) {
    z.core.rob.state == RobException && NothingRetired(y, z) && z.core.dmemLog == y.core.dmemLog
  }

  lemma DrainedTrap(prog: Program, course: Course, y: Sys, i: StepIn)
    requires Refines(prog, course, y) && y.core.rob.state == RobException && TrapOk(y.core.rob)
    ensures NothingSince(y, SysStep(y, i)) && SysStep(y, i).core.rob.state == RobException
  {
    hide Sound, MemSound, RenameSound, FetchOk, AtFetch, MiddleSys, CommitSys, HeadTrapped, WantsRedirect, Aligned,
         Packed, IsYoungest, ResidentsOk;
    var l := AtFetch(y, i);
    SoleTrap(prog, course, y);
    StaysTrapped(y, i);
    LoneTrapSends(y, i);
    LsuKeeps(y, i);
    LsuKeepsTrap(y, i);
    AtFetchRename(y, i);
    AtFetchFrontend(y, i);
    TrappedMiddle(l, i);
    MiddleKeeps(l, i);
    MiddleKeepsTrap(l, i);
    MiddleRedirect(l, i);
    CommitKeepsTrap(MiddleSys(l, i), i);
  }

  /** In a drained run a trapped head is the only resident, so no redirect is on its way. */
  lemma SoleTrap(prog: Program, course: Course, y: Sys)
    requires Refines(prog, course, y) && HeadTrapped(y.core.rob)
    ensures |y.hist.alloc| == |y.hist.fates| + 1 && !WantsRedirect(y.core.alu)
  {
    hide MemSound, RenameSound, FetchOk, RobOk, Window, WindowOk, ResultsOk, Trapped, WantsRedirect;
  }

  lemma SinceJoins(x: Sys, y: Sys, z: Sys)
    requires NothingSince(x, y) && NothingSince(y, z)
    ensures NothingSince(x, z)
  {
  }

  lemma {:induction false} TrapStaysAlone(prog: Program, course: Course, run: Run, n: nat, m: nat)
    requires Executes(prog, course) && HonestRun(prog, Origin(course), run, m) && Drained(run, m) && n <= m
    requires run(n).sys.core.rob.state == RobException
    ensures NothingSince(run(n).sys, run(m).sys) && run(m).sys.core.rob.state == RobException
    decreases m
  {
    hide SysStep, Refines, HonestStep, DrainedStep, TrapOk, Executes, NothingRetired;
    if n < m {
      hide NothingSince;
      TrapStaysAlone(prog, course, run, n, m - 1);
      RunRefines(prog, course, run, m - 1);
      RunTraps(run, m - 1);
      RunStep(run, m - 1);
      DrainedTrap(prog, course, run(m - 1).sys, run(m - 1).input);
      SinceJoins(run(n).sys, run(m - 1).sys, run(m).sys);
    } else {
      SinceSelf(run(n).sys);
    }
  }

  lemma SinceSelf(y: Sys)
    requires y.core.rob.state == RobException
    ensures NothingSince(y, y)
  {
  }

  /** In an honest drained run no redirect is ever on its way when the head traps: no later step commits or
      retires anything, and none sends a memory request. */
  lemma NothingAfterTrap(prog: Program, m0: Mem, run: Run, n: nat, m: nat)
    requires HonestRun(prog, m0, run, m) && Drained(run, m) && n <= m && run(n).sys.core.rob.state == RobException
    ensures NothingSince(run(n).sys, run(m).sys)
  {
    hide HonestStep, DrainedStep, NothingSince, Executes;
    CourseOfExecutes(prog, m0);
    TrapStaysAlone(prog, CourseOf(prog, m0), run, n, m);
  }
}
