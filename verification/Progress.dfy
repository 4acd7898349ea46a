/** When the oldest uop in flight leaves: as long as no redirect strikes uops in flight, the step is a function
    of what the uop is and of the room and the answers the environment gives, whatever is behind it. */
module Progress {
  import opened BoomTypes
  import opened Pipeline
  import opened Frames
  import opened RobWindow
  import opened IssueQueue
  import opened History
  import opened Flow
  import opened Residency
  import opened RobFifo
  import opened MemOrder
  import opened RenameMaps
  import opened Fetch
  import opened Memory
  import opened Reference
  import opened Refinement
  import opened HazardFree
  import opened DrainedRuns
  import opened Traps
  import opened Steps

  // ---- Orderly runs

  /** No redirect strikes with uops still in the reorder buffer. */
  ghost predicate OrderlyStep(y: Sys) { WantsRedirect(y.core.alu) ==> RobEmpty(y.core.rob) }

  ghost predicate Orderly(run: Run, n: nat) { forall k :: 0 <= k < n ==> OrderlyStep(run(k).sys) }

  /** Runs without hazards are orderly, and so are honest drained ones. */
  lemma HazardFreeIsOrderly(prog: Program, m0: Mem, run: Run, n: nat)
    ensures HazardFreeRun(run, n) || (HonestRun(prog, m0, run, n) && Drained(run, n)) ==> Orderly(run, n)
  {
    hide RoomyStep, Independent, AtFetch, WantsRedirect, RobEmpty, HonestStep, DrainedStep, Agrees;
    if HonestRun(prog, m0, run, n) && Drained(run, n) {
      PipelineRefinesMachine(prog, m0, run, n);
    }
    if HazardFreeRun(run, n) {
      forall k | 0 <= k < n
        ensures OrderlyStep(run(k).sys)
      {
        assert HazardFreeStep(run(k).sys, run(k).input);
      }
    }
  }

  lemma NoRedirectOver(y: Sys)
    requires Sound(y) && OrderlyStep(y) && |y.hist.fates| < |y.hist.alloc|
    ensures !WantsRedirect(y.core.alu)
  {
    hide WantsRedirect, Packed, IsYoungest, ResultsOk, WindowOk;
  }

  // ---- The outstanding load is still resident

  predicate Answerable(y: Sys) { y.core.lsu.pending ==> y.hist.loadSeq >= |y.hist.fates| }

  lemma LsuAnswerable(y: Sys, i: StepIn)
    requires Answerable(y)
    ensures Answerable(AtFetch(y, i))
  {
    hide AfterBranch, FirstLoad, LoadEvent, SetEntry, EntryAt, DeliveredEntry, LoadedValue, WriteReg, QueuedLoad,
         QueuedStore, AwaitsData;
    BranchFrame(y.core);
  }

  /** The load whose answer is outstanding is resident. */
  lemma PendingIsResident(l: Sys)
    requires MemSound(l) && Answerable(l) && l.core.lsu.pending
    ensures Pointers(l.core.rob) && |l.hist.fates| <= l.hist.loadSeq < |l.hist.alloc| && |Window(l.core.rob)| == |Residents(l.hist)|
    ensures l.hist.loadSeq == |l.hist.fates| ==> l.hist.alloc[|l.hist.fates|].isLoad && !Window(l.core.rob)[0].completed
  {
    hide EventsOk, PendingOk, RequestedAs, Window;
  }

  lemma OldestKind(rob: Rob, h: Hist, raw: bool)
    requires ResidentsOk(rob, h, raw) && |h.fates| < |h.alloc|
    ensures var r := h.alloc[|h.fates|];
            (r.isLoad ==> !r.isStore) && (!r.uop.ctrl.isLoad && !r.uop.ctrl.isSta ==> !r.isLoad && !r.isStore && !r.memoryValid)
  {
    assert ResultOk(h.alloc[|h.fates|]);
  }

  /** A load without an answer does not leave. */
  lemma StepAnswerable(y: Sys, i: StepIn)
    requires Sound(y) && MemSound(y) && OrderlyStep(y) && Answerable(y)
    ensures Answerable(SysStep(y, i))
  {
    hide Sound, MemSound, ResidentsOk, AtFetch, SysStep, Acts, Window, WantsRedirect;
    var l := AtFetch(y, i);
    LsuKeeps(y, i);
    LsuMem(y, i);
    LsuAnswerable(y, i);
    if l.core.lsu.pending {
      PendingIsResident(l);
    }
    if WantsRedirect(y.core.alu) {
      NobodyLeft(y);
      StepFlushes(y, i);
    } else {
      StepMoves(y, i);
      if |y.hist.fates| < |y.hist.alloc| {
        OldestActs(y, i);
        OldestKind(l.core.rob, l.hist, false);
      }
    }
  }

  lemma NobodyLeft(y: Sys)
    requires Sound(y) && RobEmpty(y.core.rob)
    ensures |y.hist.fates| == |y.hist.alloc|
  {
  }

  lemma {:induction false} RunAnswerable(run: Run, n: nat)
    requires Orderly(run, n)
    ensures Answerable(run(n).sys)
  {
    hide SysStep, Sound, MemSound, OrderlyStep, Answerable, Reset;
    if n == 0 {
      RunStart(run);
      ResetAnswerable();
    } else {
      RunStep(run, n - 1);
      RunAnswerable(run, n - 1);
      RunIsSound(run, n - 1);
      RunIsMemSound(run, n - 1);
      StepAnswerable(run(n - 1).sys, run(n - 1).input);
    }
  }

  lemma ResetAnswerable()
    ensures Answerable(Reset())
  {
  }

  /** A step keeps the fates there are. */
  lemma FatesGrow(y: Sys, i: StepIn)
    ensures y.hist.fates <= SysStep(y, i).hist.fates
  {
    hide AtFetch, Middle, CommitSys, FrontendStage, Allocates;
    LsuAppends(y, i);
    CommitAppends(MiddleSys(AtFetch(y, i), i), i);
  }

  // ---- Stores

  /** The oldest uop in flight is a store. */
  predicate StoreFirst(h: Hist) { |h.fates| < |h.alloc| && h.alloc[|h.fates|].isStore }

  /** The store at the head commits in a step whose data stream has room, and waits in any other. */
  lemma StoreStep(y: Sys, i: StepIn)
    requires Sound(y) && OrderlyStep(y) && StoreFirst(y.hist)
    ensures SysStep(y, i).hist.fates == y.hist.fates + (if i.storeRoom then [Committed] else [])
    ensures y.hist.alloc <= SysStep(y, i).hist.alloc
  {
    hide Sound, OrderlyStep, AtFetch, SysStep, Acts, Before, Window, WantsRedirect;
    NoRedirectOver(y);
    OldestActs(y, i);
    StepMoves(y, i);
  }

  /** Some step from n on and before m has room for a store. */
  predicate SomeRoom(run: Run, n: nat, m: nat) { exists k :: n <= k < m && run(k).input.storeRoom }

  /** In an orderly run the oldest uop in flight, if it is a store, has committed exactly if some step since had
      room for it: it leaves in the first, with whatever is behind it. */
  lemma {:induction false} StoreCommitsWithRoom(run: Run, n: nat, m: nat)
    requires Orderly(run, m) && n <= m && StoreFirst(run(n).sys.hist)
    ensures var h, h' := run(n).sys.hist, run(m).sys.hist;
            if SomeRoom(run, n, m) then |h.fates| < |h'.fates| && h'.fates[|h.fates|] == Committed
            else h'.fates == h.fates && h.alloc <= h'.alloc
    decreases m
  {
    hide SysStep, Sound, OrderlyStep;
    if n < m {
      StoreCommitsWithRoom(run, n, m - 1);
      assert SomeRoom(run, n, m) <==> SomeRoom(run, n, m - 1) || run(m - 1).input.storeRoom;
      RunIsSound(run, m - 1);
      RunStep(run, m - 1);
      FatesGrow(run(m - 1).sys, run(m - 1).input);
      if !SomeRoom(run, n, m - 1) {
        StoreStep(run(m - 1).sys, run(m - 1).input);
      }
    }
  }

  // ---- Loads

  /** The oldest uop in flight is a load without an answer: unsent, with the id it is to get, or sent under it. */
  ghost predicate LoadWaits(y: Sys, id: nat, sent: bool) {
    && |y.hist.fates| < |y.hist.alloc| && y.hist.alloc[|y.hist.fates|].isLoad
    && Pointers(y.core.rob) && Count(y.core.rob) > 0
    && Window(y.core.rob)[0].requestSent == sent && !Window(y.core.rob)[0].completed
    && y.core.lsu.pending == sent
    && if sent then y.core.lsu.pendingTx == id && y.hist.loadSeq == |y.hist.fates| else y.core.lsu.nextTx == id
  }

  /** The oldest uop in flight is a load without an answer. */
  ghost predicate LoadFirst(y: Sys) {
    && |y.hist.fates| < |y.hist.alloc| && y.hist.alloc[|y.hist.fates|].isLoad
    && Pointers(y.core.rob) && Count(y.core.rob) > 0 && !Window(y.core.rob)[0].completed
  }

  /** The id of its request, sent or to be sent. */
  function LoadId(lsu: Lsu): nat { if lsu.pending then lsu.pendingTx else lsu.nextTx }

  /** The unit is free for an unsent load at the head, and waits for a sent one. */
  lemma HeadLoadWaits(y: Sys)
    requires Sound(y) && MemSound(y) && Answerable(y) && LoadFirst(y)
    ensures LoadWaits(y, LoadId(y.core.lsu), y.core.lsu.pending)
  {
    hide RobOk, WindowOk, ResultsOk, Packed, EventsOk, RequestedAs, Window;
    assert Residents(y.hist)[0] == y.hist.alloc[|y.hist.fates|];
    if y.core.lsu.pending && !Window(y.core.rob)[0].requestSent {
      assert RequestedAs(y.hist.mem, y.hist.loadSeq, y.core.lsu.pendingTx);
      SentIsOlder(Window(y.core.rob), Residents(y.hist), |y.hist.fates|, y.hist.mem, y.hist.loadSeq, y.core.lsu.pendingTx);
    }
  }

  /** What has been sent is older than an unsent load. */
  lemma SentIsOlder(w: seq<RobEntry>, rs: seq<AluResult>, base: nat, mem: seq<MemEvent>, n: nat, tx: nat)
    requires PendingOk(w, rs, base, mem) && RequestedAs(mem, n, tx) && |w| > 0 && rs[0].isLoad && !w[0].requestSent
    ensures n < base
  {
    assert Unsent(w, rs, 0);
  }

  predicate Answers(i: StepIn, id: nat) { i.dmemResp.Some? && i.dmemResp.value.txId == id }

  /** The load/store unit sends an unsent load at the head if it may, and no other. */
  lemma LsuUnsent(y: Sys, i: StepIn, id: nat)
    requires Sound(y) && MemSound(y) && LoadWaits(y, id, false)
    ensures LoadWaits(AtFetch(y, i), id, i.loadRoom)
  {
    hide RobOk, WindowOk, Window, Packed, MemOk, AfterBranch, LsuEnqueue, FirstLoad, EntryOk, ResultOk, SetEntry,
         EntryAt, TakenUp, LoadRequest, UnsentLoad;
    var a, h, w := AfterBranch(y.core), y.hist, Window(y.core.rob);
    BranchFrame(y.core);
    assert LsuRespond(a, i.dmemResp) == a;
    EnqueueKeeps(a, h);
    EnqueueFrame(a);
    var q := LsuEnqueue(a);
    FirstOk(q.rob, h, false);
    TakenUpUnsent(a.alu);
    UnsentEntry(Window(q.rob)[0], Residents(h)[0]);
    if i.loadRoom {
      LoadGoes(q, h, i);
    }
    IssueLoadKeeps(q, h, i);
  }

  lemma TakenUpUnsent(r: AluResult)
    ensures ResultOk(r) && r.isLoad ==> !TakenUp(r).requestSent && !TakenUp(r).completed
  {
  }

  /** A resident load that has been sent and not answered has been taken up, and reports no fault. */
  lemma SentEntry(e: RobEntry, r: AluResult, raw: bool)
    requires EntryOk(e, r, raw) && ResultOk(r) && r.isLoad && e.requestSent
    ensures !raw && !UnsentLoad(e) && (!e.completed ==> !e.exception && AwaitsData(e))
  {
  }

  /** After the response the load/store unit leaves a sent load at the head as it is. */
  lemma SentHeadStays(d: Core, h: Hist, i: StepIn)
    requires ResidentsOk(d.rob, h, Unsettled(d.alu)) && IsYoungest(d.alu, h)
    requires Count(d.rob) > 0 && Residents(h)[0].isLoad && Window(d.rob)[0].requestSent
    ensures var z := LsuIssue(LsuEnqueue(d), i);
            && Pointers(z.rob) && Count(z.rob) == Count(d.rob) && Window(z.rob)[0] == Window(d.rob)[0]
            && (d.lsu.pending ==> z.lsu == d.lsu && LsuHist(LsuEnqueue(d), h, i) == h)
  {
    hide RobOk, WindowOk, ResultsOk, Window, LsuEnqueue, FirstLoad, EntryOk, SetEntry, EntryAt, UnsentLoad, TakenUp;
    FirstOk(d.rob, h, Unsettled(d.alu));
    SentEntry(Window(d.rob)[0], Residents(h)[0], Unsettled(d.alu) && Count(d.rob) == 1);
    EnqueueKeeps(d, h);
    EnqueueFrame(d);
    var q := LsuEnqueue(d);
    IssueLoadKeeps(q, h, i);
    if IssuesLoad(q, i) {
      IssuedLoadIsResident(q, h, i);
      NotResent(Window(q.rob)[0]);
    }
  }

  /** With a sent load at the head the load/store unit waits for its answer. */
  lemma LsuSent(y: Sys, i: StepIn, id: nat)
    requires Sound(y) && MemSound(y) && LoadWaits(y, id, true)
    ensures var l := AtFetch(y, i);
            && Pointers(l.core.rob) && Count(l.core.rob) > 0 && !Window(y.core.rob)[0].exception
            && if Answers(i, id) then Window(l.core.rob)[0] == DeliveredEntry(Window(y.core.rob)[0], i.dmemResp.value)
               else LoadWaits(l, id, true)
  {
    hide RobOk, WindowOk, ResultsOk, Window, Packed, MemOk, AfterBranch, LsuEnqueue, LsuIssue, LsuHist, EntryOk,
         SetEntry, EntryAt, LoadedValue, DeliveredEntry, WriteReg, AwaitsData, UnsentLoad, ResultOk;
    var a, h, w := AfterBranch(y.core), y.hist, Window(y.core.rob);
    BranchFrame(y.core);
    FirstOk(y.core.rob, h, Unsettled(y.core.alu));
    SentEntry(w[0], Residents(h)[0], Unsettled(y.core.alu) && Count(y.core.rob) == 1);
    var d := LsuRespond(a, i.dmemResp);
    RespondKeeps(a, h, i.dmemResp, Unsettled(a.alu));
    RespondFrame(a, i.dmemResp);
    if Answers(i, id) {
      DeliveryTarget(a, h, i.dmemResp, Unsettled(a.alu));
      DeliveredWindow(a, h, i.dmemResp, Unsettled(a.alu), 0);
    }
    SentHeadStays(d, h, i);
    LsuKeeps(y, i);
  }

  lemma NotResent(e: RobEntry)
    ensures e.requestSent ==> !UnsentLoad(e)
  {
  }

  /** An unsent load at the head is sent in a step whose data stream has room, and in no other; a sent one commits
      in the step that answers it, or traps in it if the answer is an exception. */
  lemma LoadStep(y: Sys, i: StepIn, id: nat, sent: bool)
    requires Sound(y) && MemSound(y) && OrderlyStep(y) && LoadWaits(y, id, sent)
    ensures var z := SysStep(y, i);
            && y.hist.alloc <= z.hist.alloc
            && if sent && Answers(i, id) then
                 if i.dmemResp.value.exception then z.core.rob.state == RobException && z.hist.fates == y.hist.fates
                 else z.hist.fates == y.hist.fates + [Committed]
               else
                 && LoadWaits(z, id, sent || i.loadRoom) && z.hist.fates == y.hist.fates
                 && (y.core.rob.state != RobException ==> z.core.rob.state != RobException)
  {
    hide Sound, MemSound, ResidentsOk, AtFetch, SysStep, Acts, Before, Window, WantsRedirect, OrderlyStep,
         DeliveredEntry, HeadTrapped;
    var l := AtFetch(y, i);
    NoRedirectOver(y);
    LsuKeeps(y, i);
    OldestKind(l.core.rob, l.hist, false);
    OldestActs(y, i);
    StepMoves(y, i);
    if sent {
      LsuSent(y, i, id);
    } else {
      LsuUnsent(y, i, id);
    }
  }

  /** The load has been sent before m: it was at n, or some step since had room for it. */
  predicate SentBy(run: Run, n: nat, m: nat) {
    run(n).sys.core.lsu.pending || exists k :: n <= k < m && run(k).input.loadRoom
  }

  /** The first answer under the id to the load once it has been sent. */
  function FirstAnswer(run: Run, n: nat, m: nat, id: nat): Option<DmemResponse>
    requires n <= m
  {
    if m == n then None
    else if FirstAnswer(run, n, m - 1, id).Some? then FirstAnswer(run, n, m - 1, id)
    else if SentBy(run, n, m - 1) && Answers(run(m - 1).input, id) then run(m - 1).input.dmemResp
    else None
  }

  /** Where a load that was the oldest uop in flight has got to. */
  ghost predicate LoadOutcome(y: Sys, z: Sys, id: nat, sent: bool, answer: Option<DmemResponse>) {
    match answer
    case None => LoadWaits(z, id, sent) && z.hist.fates == y.hist.fates && y.hist.alloc <= z.hist.alloc
    case Some(resp) =>
      if resp.exception then z.core.rob.state == RobException && z.hist.fates == y.hist.fates
      else |y.hist.fates| < |z.hist.fates| && z.hist.fates[|y.hist.fates|] == Committed
  }

  lemma OutcomeStep(y: Sys, z: Sys, i: StepIn, id: nat, sent: bool, answer: Option<DmemResponse>)
    requires Sound(z) && MemSound(z) && OrderlyStep(z) && TrapOk(z.core.rob) && LoadOutcome(y, z, id, sent, answer)
    ensures LoadOutcome(y, SysStep(z, i), id, sent || i.loadRoom,
                        if answer.Some? then answer else if sent && Answers(i, id) then i.dmemResp else None)
  {
    hide Sound, MemSound, OrderlyStep, LoadWaits, SysStep, WantsRedirect, Window;
    FatesGrow(z, i);
    if answer.None? {
      LoadStep(z, i, id, sent);
    } else if answer.value.exception {
      TrappedResident(z);
      NoRedirectOver(z);
      StaysTrapped(z, i);
    }
  }

  lemma TrappedResident(y: Sys)
    requires Sound(y) && HeadTrapped(y.core.rob)
    ensures |y.hist.fates| < |y.hist.alloc|
  {
    hide Window, Trapped;
  }

  /** In an orderly run the oldest uop in flight, if it is a load without an answer, is sent in the first step with
      room for it unless it has been, and leaves in the first later step that answers its id; if that answer is an
      exception the core traps there instead, for good. Nothing else in flight plays a part. */
  lemma {:induction false} LoadCommitsWhenAnswered(run: Run, n: nat, m: nat)
    requires Orderly(run, m) && n <= m && LoadFirst(run(n).sys)
    ensures var id := LoadId(run(n).sys.core.lsu);
            LoadOutcome(run(n).sys, run(m).sys, id, SentBy(run, n, m), FirstAnswer(run, n, m, id))
    decreases m
  {
    hide SysStep, Sound, MemSound, OrderlyStep, LoadOutcome, TrapOk, Answers, LoadFirst, Answerable;
    var id := LoadId(run(n).sys.core.lsu);
    if n == m {
      RunIsSound(run, n);
      RunIsMemSound(run, n);
      RunAnswerable(run, n);
      HeadLoadWaits(run(n).sys);
      NothingYet(run(n).sys, id, run(n).sys.core.lsu.pending);
    } else {
      hide LoadWaits;
      LoadCommitsWhenAnswered(run, n, m - 1);
      assert SentBy(run, n, m) <==> SentBy(run, n, m - 1) || run(m - 1).input.loadRoom;
      RunIsSound(run, m - 1);
      RunIsMemSound(run, m - 1);
      RunTraps(run, m - 1);
      RunStep(run, m - 1);
      OutcomeStep(run(n).sys, run(m - 1).sys, run(m - 1).input, id, SentBy(run, n, m - 1), FirstAnswer(run, n, m - 1, id));
    }
  }

  lemma NothingYet(y: Sys, id: nat, sent: bool)
    requires LoadWaits(y, id, sent)
    ensures LoadOutcome(y, y, id, sent, None)
  {
    hide LoadWaits;
  }

  // ---- Everything else

  /** The uop touches no memory. */
  predicate NoAccess(u: MicroOp) { !u.ctrl.isLoad && !u.ctrl.isSta }

  /** It leaves, or traps if it is an illegal instruction. */
  predicate Settles(y: Sys, z: Sys, u: MicroOp) {
    if u.exception && u.uopc != UOPC_ECALL then z.core.rob.state == RobException && z.hist.fates == y.hist.fates
    else z.hist.fates == y.hist.fates + [if u.uopc == UOPC_ECALL then EcallRetired else Committed]
  }

  lemma KindOf(r: AluResult)
    requires ResultOk(r)
    ensures NoAccess(r.uop) ==> !r.isLoad && !r.isStore && !r.memoryValid
    ensures r.uop.uopc == UOPC_ECALL ==> r.uop.exception && NoAccess(r.uop)
  {
  }

  lemma StepSettles(y: Sys, i: StepIn)
    requires Sound(y) && !WantsRedirect(y.core.alu) && |y.hist.fates| < |SysStep(y, i).hist.alloc|
    ensures var z := SysStep(y, i); var u := z.hist.alloc[|y.hist.fates|].uop; NoAccess(u) ==> Settles(y, z, u)
    ensures SysStep(y, i).hist.alloc[|y.hist.fates|].uop.uopc == UOPC_ECALL ==> Acts(y, i).RetiresEcall?
  {
    hide ResidentsOk, Packed, AtFetch, SysStep, Acts, Before, Window, WantsRedirect, HeadTrapped, CompletedEntry,
         ResultOk;
    StepMoves(y, i);
    StepKeeps(y, i);
    AllocatedOk(SysStep(y, i).core.rob, SysStep(y, i).hist, Unsettled(SysStep(y, i).core.alu), |y.hist.fates|);
    KindOf(SysStep(y, i).hist.alloc[|y.hist.fates|]);
    if |y.hist.fates| < |y.hist.alloc| {
      OldestActs(y, i);
    } else {
      NobodyIn(y);
      NewestActs(y, i);
    }
  }

  lemma NobodyIn(y: Sys)
    requires Sound(y)
    ensures |y.hist.fates| <= |y.hist.alloc|
  {
  }

  lemma AllocatedOk(rob: Rob, h: Hist, raw: bool, n: nat)
    requires ResidentsOk(rob, h, raw) && n < |h.alloc|
    ensures ResultOk(h.alloc[n])
  {
    hide ResultOk;
  }

  /** In every run, a uop that touches no memory leaves in the first step that finds it oldest, or traps in it if
      it is an illegal instruction, unless that step takes a redirect. */
  lemma OthersActAtOnce(run: Run, n: nat)
    ensures var y, z := run(n).sys, run(n + 1).sys;
            !WantsRedirect(y.core.alu) && |y.hist.fates| < |z.hist.alloc| && NoAccess(z.hist.alloc[|y.hist.fates|].uop) ==>
              Settles(y, z, z.hist.alloc[|y.hist.fates|].uop)
  {
    hide SysStep, Sound, WantsRedirect, NoAccess, Settles;
    RunIsSound(run, n);
    RunStep(run, n);
    if !WantsRedirect(run(n).sys.core.alu) && |run(n).sys.hist.fates| < |run(n + 1).sys.hist.alloc| {
      StepSettles(run(n).sys, run(n).input);
    }
  }

  // ---- What ECALL reports

  /** A register as the speculative map has it. */
  function Speculative(c: Core, l: nat): bv64 { ReadReg(c.rf, At(c.ren.table, l)) }

  /** Up to commit the flags of the step are clear. */
  lemma FlagsClear(y: Sys, i: StepIn)
    requires Sound(y)
    ensures var m := MiddleSys(AtFetch(y, i), i).core; !m.ioSuccess && !m.ioTrap
  {
    hide ResidentsOk, IsYoungest, Packed, LsuRespond, LsuEnqueue, LsuIssue, LsuHist, Middle, AfterBranch;
    LsuKeeps(y, i);
    BranchFrame(y.core);
    var a := AfterBranch(y.core);
    RespondFrame(a, i.dmemResp);
    EnqueueFrame(LsuRespond(a, i.dmemResp));
    LsuIssueFrame(LsuReady(a, i), i);
    MiddleFrame(AtFetch(y, i).core, i);
  }

  /** The flags of a step that retires an ECALL are those of a0, as it leaves it. */
  lemma StepReports(y: Sys, i: StepIn)
    requires Sound(y) && !WantsRedirect(y.core.alu) && Acts(y, i).RetiresEcall?
    ensures var c := SysStep(y, i).core; c.ioSuccess == (Speculative(c, 10) == 0) && c.ioTrap == (Speculative(c, 10) != 0)
  {
    hide Sound, AtFetch, MiddleSys, Before, HeadActionOf, PopHead, ResidentsOk, WantsRedirect, ReadReg, At, StoreEvent;
    StepReachesCommit(y, i);
    FlagsClear(y, i);
  }

  /** With nothing in flight stopped, and no load in flight yet to write it, the register is the machine's after
      everything in flight. */
  ghost predicate Settled(y: Sys, l: nat) {
    && Pointers(y.core.rob) && |y.hist.fates| <= |y.hist.alloc| && |Window(y.core.rob)| == |Residents(y.hist)|
    && Live(Window(y.core.rob), Residents(y.hist), |Residents(y.hist)|) && NotAwaited(y.core.rob, At(y.core.ren.table, l))
  }

  lemma SettledValue(prog: Program, course: Course, y: Sys, l: nat)
    requires Coherent(prog, course, y) && Settled(y, l) && l < LOGICAL_REG_COUNT
    ensures Speculative(y.core, l) == Reg(course(|y.hist.alloc|).machine.arch.regs, l)
  {
    hide ResidentsOk, IsYoungest, Packed, MemSound, RenameSound, FetchOk, CoreAligned, Executes, Live, NotAwaited,
         Window, ReadReg, At, Reg;
    SourceReady(course, y.core, y.hist, Unsettled(y.core.alu), l);
  }

  lemma EmptyIsSettled(y: Sys, l: nat)
    requires Sound(y) && |y.hist.fates| == |y.hist.alloc|
    ensures Settled(y, l)
  {
    hide ResultsOk, WindowOk, IsYoungest, Packed, NotAwaited;
    EmptyAwaitsNothing(y.core.rob, At(y.core.ren.table, l));
    assert Residents(y.hist) == [];
  }

  /** In every run the step that retires an ECALL reports success exactly if a0 is zero in the speculative map. In an
      honest run without hazards, with a0 settled, as it is when nothing is in flight behind the ECALL, that is the
      machine's a0 after everything in flight. */
  lemma EcallReports(prog: Program, m0: Mem, run: Run, n: nat)
    ensures var y, z := run(n).sys, run(n + 1).sys;
            !WantsRedirect(y.core.alu) && |y.hist.fates| < |z.hist.alloc| && z.hist.alloc[|y.hist.fates|].uop.uopc == UOPC_ECALL ==>
              && z.hist.fates == y.hist.fates + [EcallRetired]
              && z.core.ioSuccess == (Speculative(z.core, 10) == 0) && z.core.ioTrap == (Speculative(z.core, 10) != 0)
    ensures var z := run(n + 1).sys; |z.hist.fates| == |z.hist.alloc| ==> Settled(z, 10)
    ensures var z := run(n + 1).sys;
            HonestRun(prog, m0, run, n + 1) && HazardFreeRun(run, n + 1) && Settled(z, 10) ==>
              Speculative(z.core, 10) == Reg(After(prog, m0, |z.hist.alloc|).arch.regs, 10)
  {
    hide SysStep, Sound, WantsRedirect, NoAccess, Speculative, Settled, HonestStep, HazardFreeStep, Coherent,
         Executes, Reg, Acts, AtFetch;
    var y, z := run(n).sys, run(n + 1).sys;
    RunIsSound(run, n);
    RunStep(run, n);
    if !WantsRedirect(y.core.alu) && |y.hist.fates| < |z.hist.alloc| && z.hist.alloc[|y.hist.fates|].uop.uopc == UOPC_ECALL {
      StepSettles(y, run(n).input);
      StepMoves(y, run(n).input);
      StepReports(y, run(n).input);
    }
    RunIsSound(run, n + 1);
    if |z.hist.fates| == |z.hist.alloc| {
      EmptyIsSettled(z, 10);
    }
    if HonestRun(prog, m0, run, n + 1) && HazardFreeRun(run, n + 1) && Settled(z, 10) {
      var course := CourseOf(prog, m0);
      CourseOfExecutes(prog, m0);
      RunCoherent(prog, course, run, n + 1);
      SettledValue(prog, course, z, 10);
    }
  }
}
