/** What the reorder buffer holds in every run: the uops allocated and not yet gone, in order,
    each entry in one of the few states its uop can be in. */
module Residency {
  import opened BoomTypes
  import opened Decode
  import opened Execute
  import opened Pipeline
  import opened Frames
  import opened RobWindow
  import opened IssueQueue
  import opened History
  import opened Flow

  /** The result of executing a decoded and renamed uop. */
  ghost predicate ResultOk(r: AluResult) {
    && r.valid && r.exception == r.uop.exception
    && r.isLoad == LoadUopc(r.uop.uopc) && r.isStore == StoreUopc(r.uop.uopc)
    && r.memoryValid == (r.isLoad || r.isStore)
    && WellClassified(r.uop.uopc, r.uop.iqType, r.uop.ctrl, r.uop.branch, r.uop.rename.dst)
    && (r.uop.exception <==> r.uop.uopc == UOPC_ECALL || r.uop.uopc == UOPC_ILLEGAL)
    && (r.mispredict ==> RedirectUopc(r.uop.uopc))
  }

  /** A load whose address is known: waiting, sent, or answered. */
  ghost predicate LoadEntryOk(e: RobEntry, r: AluResult) {
    && e == QueuedLoad(FreshEntry(r.uop), r).(
            requestSent := e.requestSent, txId := e.txId, completed := e.completed, busy := !e.completed,
            data := e.data, exception := e.exception, uop := r.uop.(exception := e.exception))
    && (e.completed ==> e.requestSent) && (e.exception ==> e.completed)
  }

  /** The entry of a uop whose result has been processed. A memory uop without an address, that is
      one with a reserved width, stays busy for ever. */
  ghost predicate SettledEntry(e: RobEntry, r: AluResult) {
    if r.isStore then e == QueuedStore(FreshEntry(r.uop), r)
    else if r.isLoad then LoadEntryOk(e, r)
    else e == FreshEntry(r.uop).(busy := r.uop.ctrl.isLoad || r.uop.ctrl.isSta)
  }

  ghost predicate EntryOk(e: RobEntry, r: AluResult, raw: bool) {
    if raw then e == FreshEntry(r.uop) else SettledEntry(e, r)
  }

  /** Entry by entry; `raw` says that the youngest one's result is still to be processed. */
  ghost predicate WindowOk(w: seq<RobEntry>, rs: seq<AluResult>, raw: bool) {
    && |w| == |rs|
    && (forall k :: 0 <= k < |w| ==> EntryOk(w[k], rs[k], raw && k == |w| - 1))
  }

  ghost predicate ResultsOk(rs: seq<AluResult>) { forall n :: 0 <= n < |rs| ==> ResultOk(rs[n]) }

  /** The window holds the resident uops in allocation order. */
  ghost predicate ResidentsOk(rob: Rob, h: Hist, raw: bool) {
    && Pointers(rob) && RobOk(rob) && |h.fates| <= |h.alloc| && ResultsOk(h.alloc)
    && |h.alloc| == |h.fates| + Count(rob) && WindowOk(Window(rob), Residents(h), raw)
  }

  /** The result of the last executed uop is a memory access the load/store unit has yet to take up. */
  predicate Unsettled(alu: AluResult) { alu.valid && alu.memoryValid }

  /** A valid result is that of the youngest resident, if any uop is left. */
  ghost predicate IsYoungest(alu: AluResult, h: Hist) {
    && |h.fates| <= |h.alloc|
    && (alu.valid && |h.fates| < |h.alloc| ==> alu == h.alloc[|h.alloc| - 1])
  }

  /** A window entry may be replaced by another one in a legal state of the same uop. */
  lemma ReplaceEntry(rob: Rob, h: Hist, raw: bool, k: nat, e: RobEntry, raw': bool)
    requires ResidentsOk(rob, h, raw) && k < Count(rob)
    requires EntryOk(e, Residents(h)[k], raw' && k == Count(rob) - 1)
    requires raw == raw' || k == Count(rob) - 1
    ensures ResidentsOk(SetEntry(rob, Slot(rob, k), e), h, raw')
    ensures Window(SetEntry(rob, Slot(rob, k), e)) == Window(rob)[k := e]
  {
    hide ResultsOk, SettledEntry;
    EntryIdentity(rob, k);
    assert EntryOk(Window(rob)[k], Residents(h)[k], raw && k == Count(rob) - 1);
    SameUop(Window(rob)[k], e, Residents(h)[k], raw && k == Count(rob) - 1, raw' && k == Count(rob) - 1);
    hide EntryOk;
    SetWindow(rob, k, e);
  }

  /** Both entries belong to the same uop. */
  lemma SameUop(a: RobEntry, b: RobEntry, r: AluResult, rawA: bool, rawB: bool)
    requires EntryOk(a, r, rawA) && EntryOk(b, r, rawB)
    ensures a.valid && b.valid && a.uop.robIdx == b.uop.robIdx == r.uop.robIdx
  {
  }

  lemma EntryIdentity(rob: Rob, k: nat)
    requires RobOk(rob) && k < Count(rob)
    ensures Window(rob)[k].valid && Window(rob)[k].uop.robIdx == Slot(rob, k) && EntryAt(rob, Slot(rob, k)) == Window(rob)[k]
  {
  }

  // ---- Load/store unit

  /** Delivering a response keeps every entry in a legal state. */
  lemma RespondKeeps(s: Core, h: Hist, resp: Option<DmemResponse>, raw: bool)
    requires ResidentsOk(s.rob, h, raw)
    ensures ResidentsOk(LsuRespond(s, resp).rob, h, raw)
  {
    hide LoadValue, ResultsOk, RobOk, Window;
    var idx := s.lsu.pendingIdx;
    var e := EntryAt(s.rob, idx);
    if AcceptsResponse(s.lsu, resp) && AwaitsData(e) {
      ValidIsInWindow(s.rob, idx);
      var k := Distance(s.rob, idx);
      assert EntryOk(Window(s.rob)[k], Residents(h)[k], raw && k == Count(s.rob) - 1);
      ReplaceEntry(s.rob, h, raw, k, DeliveredEntry(e, resp.value), raw);
    }
  }

  /** The entry a memory result leaves when the load/store unit takes it up. */
  function TakenUp(r: AluResult): RobEntry {
    if r.isStore then QueuedStore(FreshEntry(r.uop), r) else QueuedLoad(FreshEntry(r.uop), r)
  }

  lemma TakenUpIsSettled(r: AluResult)
    requires ResultOk(r) && r.memoryValid
    ensures EntryOk(TakenUp(r), r, false)
  {
  }

  lemma EnqueueIsUpdate(s: Core)
    requires Unsettled(s.alu) && ResultOk(s.alu) && |s.rob.entries| == ROB_DEPTH
    requires s.alu.uop.robIdx < ROB_DEPTH && s.rob.entries[s.alu.uop.robIdx] == FreshEntry(s.alu.uop)
    ensures LsuEnqueue(s).rob == SetEntry(s.rob, s.alu.uop.robIdx, TakenUp(s.alu))
  {
    hide WellClassified;
  }

  /** Taking up the last result settles the youngest entry. */
  lemma EnqueueKeeps(s: Core, h: Hist)
    requires ResidentsOk(s.rob, h, Unsettled(s.alu)) && IsYoungest(s.alu, h)
    ensures ResidentsOk(LsuEnqueue(s).rob, h, false)
    ensures Window(LsuEnqueue(s).rob)
         == if Unsettled(s.alu) && Count(s.rob) > 0 then Window(s.rob)[Count(s.rob) - 1 := TakenUp(s.alu)] else Window(s.rob)
  {
    hide RobOk, Window, WindowOk, ResultOk, FreshEntry, TakenUp, SettledEntry;
    if Unsettled(s.alu) {
      if Count(s.rob) > 0 {
        var k := Count(s.rob) - 1;
        assert Residents(h)[k] == s.alu == h.alloc[|h.alloc| - 1];
        assert ResultOk(s.alu);
        TakenUpIsSettled(s.alu);
        RawLast(s.rob, h);
        ReplaceEntry(s.rob, h, true, k, TakenUp(s.alu), false);
        EnqueueIsUpdate(s);
      } else {
        EmptyWindow(s.rob, h, true, s.alu.uop.robIdx);
      }
    }
  }

  /** The youngest entry, while its result is to be processed. */
  lemma RawLast(rob: Rob, h: Hist)
    requires ResidentsOk(rob, h, true) && Count(rob) > 0
    ensures var r := h.alloc[|h.alloc| - 1];
            EntryAt(rob, Slot(rob, Count(rob) - 1)) == FreshEntry(r.uop) && r.uop.robIdx == Slot(rob, Count(rob) - 1)
  {
    hide RobOk, Window, ResultsOk, SettledEntry;
    var k := Count(rob) - 1;
    EntryIdentity(rob, k);
    assert EntryOk(Window(rob)[k], Residents(h)[k], true);
  }

  /** An empty window has no valid slot and no raw entry. */
  lemma EmptyWindow(rob: Rob, h: Hist, raw: bool, idx: nat)
    requires ResidentsOk(rob, h, raw) && Count(rob) == 0
    ensures !EntryAt(rob, idx).valid && ResidentsOk(rob, h, false)
  {
    if EntryAt(rob, idx).valid {
      ValidIsInWindow(rob, idx);
    }
  }

  /** The search for a load finds the first one that can be issued. */
  lemma {:induction false} FirstLoadIsFirst(rob: Rob, from: nat)
    requires from <= ROB_DEPTH
    ensures from <= FirstLoad(rob, from) <= ROB_DEPTH
    ensures FirstLoad(rob, from) < ROB_DEPTH ==> CanIssueLoad(rob, NthSlot(rob, FirstLoad(rob, from)))
    ensures forall j :: from <= j < FirstLoad(rob, from) ==> !CanIssueLoad(rob, NthSlot(rob, j))
    decreases ROB_DEPTH - from
  {
    hide CanIssueLoad;
    if from < ROB_DEPTH && !CanIssueLoad(rob, NthSlot(rob, from)) {
      FirstLoadIsFirst(rob, from + 1);
    }
  }

  /** The load issued is a resident of the window. */
  lemma IssuedLoadIsResident(s: Core, h: Hist, i: StepIn)
    requires ResidentsOk(s.rob, h, false) && IssuesLoad(s, i)
    ensures FirstLoad(s.rob, 0) < Count(s.rob)
    ensures UnsentLoad(Window(s.rob)[FirstLoad(s.rob, 0)])
    ensures Residents(h)[FirstLoad(s.rob, 0)].isLoad
  {
    hide ResultsOk, OlderStoreInRob, FirstLoad;
    var k := FirstLoad(s.rob, 0);
    FirstLoadIsFirst(s.rob, 0);
    assert Slot(s.rob, k) == NthSlot(s.rob, k);
    assert EntryOk(Window(s.rob)[k], Residents(h)[k], false);
  }

  lemma IssueLoadKeeps(s: Core, h: Hist, i: StepIn)
    requires ResidentsOk(s.rob, h, false)
    ensures ResidentsOk(LsuIssue(s, i).rob, LsuHist(s, h, i), false)
    ensures IssuesLoad(s, i) ==>
              var k := FirstLoad(s.rob, 0);
              k < Count(s.rob) && Window(LsuIssue(s, i).rob) == Window(s.rob)[k := Window(s.rob)[k].(requestSent := true, txId := s.lsu.nextTx)]
  {
    hide ResultsOk, RobOk, OlderStoreInRob, Window, FirstLoad;
    if IssuesLoad(s, i) {
      IssuedLoadIsResident(s, h, i);
      var k := FirstLoad(s.rob, 0);
      EntryIdentity(s.rob, k);
      assert EntryOk(Window(s.rob)[k], Residents(h)[k], false);
      ReplaceEntry(s.rob, h, false, k, Window(s.rob)[k].(requestSent := true, txId := s.lsu.nextTx), false);
    }
  }

  // ---- Fetch to execute

  lemma PlacedResultOk(s: Core, i: StepIn)
    ensures ResultOk(ResultOf(s, PlacedUop(s, i))) && PlacedUop(s, i).robIdx == s.rob.tail
    ensures ResultOf(s, PlacedUop(s, i)).uop == PlacedUop(s, i)
  {
    hide DecodeInst, RenameUop, FrontendStage, AluValue, MaskForSize, RedirectTarget;
    RenamedReady(Recovered(s), Fetched(s, i).packetPc, Fetched(s, i).packetInst);
  }

  /** Pushing a fresh entry for a new result. */
  lemma PushKeeps(rob: Rob, h: Hist, r: AluResult)
    requires ResidentsOk(rob, h, false) && !RobFull(rob) && ResultOk(r) && r.uop.robIdx == rob.tail
    ensures ResidentsOk(PushEntry(rob, FreshEntry(r.uop)), h.(alloc := h.alloc + [r]), true)
    ensures Window(PushEntry(rob, FreshEntry(r.uop))) == Window(rob) + [FreshEntry(r.uop)]
    ensures Residents(h.(alloc := h.alloc + [r])) == Residents(h) + [r]
  {
    hide SettledEntry, ResultOk, RobOk;
    PushWindow(rob, FreshEntry(r.uop));
    hide PushEntry, Window, FreshEntry;
    assert (h.alloc + [r])[|h.fates|..] == h.alloc[|h.fates|..] + [r];
  }

  /** A step allocates at most the uop it executes, at the end of the window. */
  ghost predicate Allocated(y: Sys, m: Sys) {
    && Pointers(y.core.rob) && ResidentsOk(m.core.rob, m.hist, m.core.alu.valid) && IsYoungest(m.core.alu, m.hist)
    && QueueEmpty(m.core.iss) && m.hist == y.hist.(alloc := m.hist.alloc, fetched := m.hist.fetched)
    && m.hist.alloc == y.hist.alloc + (if m.core.alu.valid then [m.core.alu] else [])
    && Window(m.core.rob) == Window(y.core.rob) + if m.core.alu.valid then [FreshEntry(m.core.alu.uop)] else []
  }

  lemma NothingAllocated(y: Sys, i: StepIn)
    requires ResidentsOk(y.core.rob, y.hist, false) && !y.core.globalFlush && QueueEmpty(y.core.iss)
    requires !Fetched(y.core, i).packetValid || RobFull(y.core.rob)
    ensures Allocated(y, MiddleSys(y, i)) && !MiddleSys(y, i).core.alu.valid
  {
    hide FrontendStage, WindowOk, RobOk, Window, Middle, Allocates, RenamedUop, FreshEntry, ResultsOk;
    SameWindow(y.core.rob, Started(y.core.rob));
    if !Fetched(y.core, i).packetValid {
      IdleMiddle(y.core, i);
    } else {
      DroppedMiddle(y.core, i);
    }
    NoneAdded(y, MiddleSys(y, i));
  }

  lemma NoneAdded(y: Sys, m: Sys)
    requires Pointers(y.core.rob) && Pointers(m.core.rob)
    ensures y.hist.alloc + [] == y.hist.alloc && Window(y.core.rob) + [] == Window(y.core.rob)
  {
  }

  lemma OneAllocated(y: Sys, i: StepIn)
    requires ResidentsOk(y.core.rob, y.hist, false) && !y.core.globalFlush && QueueEmpty(y.core.iss)
    requires Fetched(y.core, i).packetValid && !RobFull(y.core.rob)
    ensures Allocated(y, MiddleSys(y, i)) && MiddleSys(y, i).core.alu.valid
  {
    hide FrontendStage, ResultOk, WindowOk, RobOk, Window, Middle, Allocates, PlacedUop, RenamedUop, ResultOf,
         PushEntry, FreshEntry;
    SameWindow(y.core.rob, Started(y.core.rob));
    FlowThrough(y.core, i);
    PlacedResultOk(y.core, i);
    PushKeeps(Started(y.core.rob), y.hist, ResultOf(y.core, PlacedUop(y.core, i)));
    ResultValid(y.core, i);
  }

  lemma MiddleKeeps(y: Sys, i: StepIn)
    requires ResidentsOk(y.core.rob, y.hist, false) && !y.core.globalFlush && QueueEmpty(y.core.iss)
    ensures var m := MiddleSys(y, i);
            && ResidentsOk(m.core.rob, m.hist, m.core.alu.valid) && IsYoungest(m.core.alu, m.hist)
            && QueueEmpty(m.core.iss) && (m.core.alu.valid ==> m.hist.alloc == y.hist.alloc + [m.core.alu])
            && (!m.core.alu.valid ==> m.hist.alloc == y.hist.alloc)
            && m.hist == y.hist.(alloc := m.hist.alloc, fetched := m.hist.fetched)
            && Window(m.core.rob) == Window(y.core.rob) + if m.core.alu.valid then [FreshEntry(m.core.alu.uop)] else []
  {
    hide ResidentsOk, Packed, MiddleSys, Window, FreshEntry, FrontendStage;
    if !Fetched(y.core, i).packetValid || RobFull(y.core.rob) {
      NothingAllocated(y, i);
    } else {
      OneAllocated(y, i);
    }
  }

  lemma ResultValid(s: Core, i: StepIn)
    ensures ResultOf(s, PlacedUop(s, i)).valid
  {
  }

  // ---- Commit

  /** The entry a non-memory result leaves behind. */
  function CompletedEntry(r: AluResult): RobEntry { FreshEntry(r.uop).(busy := r.uop.ctrl.isLoad || r.uop.ctrl.isSta) }

  lemma CompleteIsUpdate(s: Core)
    requires s.alu.valid && !s.alu.memoryValid && ResultOk(s.alu) && |s.rob.entries| == ROB_DEPTH
    requires s.alu.uop.robIdx < ROB_DEPTH && s.rob.entries[s.alu.uop.robIdx] == FreshEntry(s.alu.uop)
    ensures BeforeCommitHead(s).rob == SetEntry(s.rob.(commitValid := false), s.alu.uop.robIdx, CompletedEntry(s.alu))
  {
    hide WellClassified;
    var idx := s.alu.uop.robIdx;
    if MemoryUop(s.alu) {
      assert s.rob.entries[idx := CompletedEntry(s.alu)] == s.rob.entries;
    }
  }

  /** Completing the last result settles its entry unless it is a memory access. */
  lemma CompleteKeeps(s: Core, h: Hist)
    requires ResidentsOk(s.rob, h, s.alu.valid) && IsYoungest(s.alu, h)
    ensures ResidentsOk(BeforeCommitHead(s).rob, h, Unsettled(s.alu))
    ensures Window(BeforeCommitHead(s).rob)
         == if s.alu.valid && !s.alu.memoryValid && Count(s.rob) > 0 then Window(s.rob)[Count(s.rob) - 1 := CompletedEntry(s.alu)]
            else Window(s.rob)
  {
    hide RobOk, Window, WindowOk, ResultOk, FreshEntry, CompletedEntry, SettledEntry;
    var c := s.(rob := s.rob.(commitValid := false));
    SameWindow(s.rob, c.rob);
    if s.alu.valid && !s.alu.memoryValid {
      if Count(c.rob) > 0 {
        var k := Count(c.rob) - 1;
        assert Residents(h)[k] == s.alu;
        IsSettled(s.alu, h);
        RawLast(c.rob, h);
        assert EntryOk(CompletedEntry(s.alu), s.alu, false);
        ReplaceEntry(c.rob, h, true, k, CompletedEntry(s.alu), false);
        CompleteIsUpdate(s);
      } else {
        EmptyWindow(c.rob, h, true, s.alu.uop.robIdx);
      }
    }
  }

  lemma IsSettled(r: AluResult, h: Hist)
    requires IsYoungest(r, h) && ResultsOk(h.alloc) && |h.fates| < |h.alloc| && r.valid && !r.memoryValid
    ensures ResultOk(r) && SettledEntry(CompletedEntry(r), r)
  {
  }

  /** Dropping the oldest resident. */
  lemma PopKeeps(rob: Rob, h: Hist, raw: bool, f: Fate)
    requires ResidentsOk(rob, h, raw) && Count(rob) > 0
    ensures ResidentsOk(PopHead(rob), h.(fates := h.fates + [f]), raw)
    ensures Window(PopHead(rob)) == Window(rob)[1..]
  {
    hide ResultsOk, EntryOk;
    PopWindow(rob);
    hide RobOk, PopHead;
    var rs := Residents(h);
    assert h.alloc[|h.fates| + 1..] == rs[1..];
  }

  lemma SentHeadPops(b: Core, h: Hist, raw: bool)
    requires ResidentsOk(b.rob, h, raw) && Count(b.rob) > 0
    ensures ResidentsOk(PopHead(SendStore(b).rob), h.(fates := h.fates + [Committed]), raw)
    ensures Window(PopHead(SendStore(b).rob)) == Window(b.rob)[1..]
  {
    hide ResultsOk, EntryOk;
    assert Slot(b.rob, 0) == b.rob.head;
    EntryIdentity(b.rob, 0);
    SetWindow(b.rob, 0, Window(b.rob)[0].(requestSent := true, completed := true));
    PopWindow(SendStore(b).rob);
    hide RobOk, PopHead, Window;
    assert h.alloc[|h.fates| + 1..] == Residents(h)[1..];
  }

  /** The resident at the head, as commit sees it. */
  lemma HeadEntry(rob: Rob, h: Hist, raw: bool)
    requires ResidentsOk(rob, h, raw) && !RobEmpty(rob)
    ensures Count(rob) > 0 && EntryAt(rob, rob.head) == Window(rob)[0] && Slot(rob, 0) == rob.head
    ensures EntryOk(Window(rob)[0], Residents(h)[0], raw && Count(rob) == 1) && ResultOk(Residents(h)[0])
  {
    hide EntryOk, ResultOk;
    assert Slot(rob, 0) == rob.head;
  }

  /** What commit does to the head depends on the uop only: an exception traps or is an ECALL, a store
      retires once it is settled, a load once it is answered. */
  lemma HeadCases(b: Core, h: Hist, i: StepIn, raw: bool)
    requires ResidentsOk(b.rob, h, raw) && !HeadActionOf(b, i).Waits?
    ensures !RobEmpty(b.rob) && Count(b.rob) > 0
    ensures var r, e := Residents(h)[0], EntryAt(b.rob, b.rob.head);
            && ResultOk(r) && SettledEntry(e, r) && !(raw && Count(b.rob) == 1)
            && (HeadActionOf(b, i).RetiresEcall? ==> r.uop.uopc == UOPC_ECALL)
            && (HeadActionOf(b, i).SendsStore? <==> r.isStore)
            && (HeadActionOf(b, i).Retires? ==> !r.uop.exception && (r.isLoad ==> e.completed && !e.exception))
            && (HeadActionOf(b, i).Traps? ==> (if r.isLoad then e.exception else r.uop.exception && r.uop.uopc != UOPC_ECALL))
  {
    hide RobOk, Window;
    HeadEntry(b.rob, h, raw);
  }

  /** What commit does with a settled uop at the head. */
  function ActionFor(r: AluResult, e: RobEntry, room: bool): HeadAction {
    if r.isStore then if room then SendsStore else Waits
    else if r.isLoad then if !e.completed then Waits else if e.exception then Traps else Retires
    else if r.uop.ctrl.isLoad || r.uop.ctrl.isSta then Waits
    else if !r.uop.exception then Retires
    else if r.uop.uopc == UOPC_ECALL then RetiresEcall else Traps
  }

  /** A memory access just executed waits to be taken up; otherwise the oldest uop acts by what it is. */
  lemma HeadActs(b: Core, h: Hist, i: StepIn, raw: bool)
    requires ResidentsOk(b.rob, h, raw) && Count(b.rob) > 0
    ensures HeadActionOf(b, i)
         == if raw && Count(b.rob) == 1 then Waits else ActionFor(Residents(h)[0], Window(b.rob)[0], i.storeRoom)
  {
    hide RobOk, Window;
    NonEmpty(b.rob);
    HeadEntry(b.rob, h, raw);
  }

  lemma NonEmpty(rob: Rob)
    requires Pointers(rob) && Count(rob) > 0
    ensures !RobEmpty(rob)
  {
  }

  /** The reorder buffer after commit has dealt with the head. */
  lemma CommitHeadRob(b: Core, i: StepIn)
    ensures var c := CommitHead(b, i).rob;
            match HeadActionOf(b, i)
            case Waits => c == b.rob
            case Traps => c == b.rob.(state := RobException)
            case RetiresEcall => c == PopHead(b.rob)
            case Retires => c == PopHead(b.rob).(lastCommit := c.lastCommit, commitValid := true)
            case SendsStore => c == PopHead(SendStore(b).rob).(lastCommit := c.lastCommit, commitValid := true)
  {
    hide HeadActionOf, PopHead, SendStore, CommitRecord, CommitMapping;
  }

  predicate Leaves(a: HeadAction) { a.RetiresEcall? || a.Retires? || a.SendsStore? }

  /** Retirement, a trap or waiting at the head keeps the window in step with the history. */
  lemma CommitHeadKeeps(b: Core, h: Hist, i: StepIn, raw: bool, ce: CommitEntry)
    requires ResidentsOk(b.rob, h, raw)
    ensures ResidentsOk(CommitHead(b, i).rob, RetireHist(b, h, i, ce), raw)
    ensures Leaves(HeadActionOf(b, i)) ==> Count(b.rob) > 0
    ensures Window(CommitHead(b, i).rob) == if Leaves(HeadActionOf(b, i)) then Window(b.rob)[1..] else Window(b.rob)
  {
    hide ResultsOk, WindowOk, RobOk, Window, Count, PopHead, HeadActionOf, SendStore, CommitHead;
    CommitHeadRob(b, i);
    var c := CommitHead(b, i).rob;
    match HeadActionOf(b, i) {
      case Waits =>
      case Traps => SameWindow(b.rob, c);
      case RetiresEcall =>
        HeadCases(b, h, i, raw);
        PopKeeps(b.rob, h, raw, EcallRetired);
      case Retires =>
        HeadCases(b, h, i, raw);
        PopKeeps(b.rob, h, raw, Committed);
        SameWindow(PopHead(b.rob), c);
      case SendsStore =>
        HeadCases(b, h, i, raw);
        SentHeadPops(b, h, raw);
        SameWindow(PopHead(SendStore(b).rob), c);
    }
  }

  // ---- Every run

  /** The structural invariant at the step boundary. */
  ghost predicate Sound(y: Sys) {
    && ResidentsOk(y.core.rob, y.hist, Unsettled(y.core.alu)) && IsYoungest(y.core.alu, y.hist)
    && QueueEmpty(y.core.iss)
  }

  lemma FlushKeeps(rob: Rob, h: Hist, raw: bool, raw': bool)
    requires ResidentsOk(rob, h, raw)
    ensures ResidentsOk(FlushRob(rob), FlushHist(h), raw') && Count(FlushRob(rob)) == 0
    ensures FlushHist(h).alloc == h.alloc && |FlushHist(h).fates| == |h.alloc|
  {
    hide ResultsOk, EntryOk, Pdsts;
    FlushWindow(rob);
  }

  /** Before the frontend runs, every resident is settled. */
  lemma LsuKeeps(y: Sys, i: StepIn)
    requires Sound(y)
    ensures var l := AtFetch(y, i);
            && ResidentsOk(l.core.rob, l.hist, false) && QueueEmpty(l.core.iss) && !l.core.globalFlush
            && l.hist.alloc == y.hist.alloc && l.hist.fates == y.hist.fates
  {
    hide ResidentsOk, Packed, AfterBranch, LsuRespond, LsuEnqueue, LsuIssue, LoadEvent, IssuesLoad, FirstLoad;
    var a := AfterBranch(y.core);
    BranchFrame(y.core);
    var d := LsuRespond(a, i.dmemResp);
    RespondKeeps(a, y.hist, i.dmemResp, Unsettled(a.alu));
    RespondFrame(a, i.dmemResp);
    EnqueueKeeps(d, y.hist);
    EnqueueFrame(d);
    IssueLoadKeeps(LsuEnqueue(d), y.hist, i);
    LsuIssueFrame(LsuEnqueue(d), i);
  }

  lemma CommitKeeps(y: Sys, i: StepIn)
    requires ResidentsOk(y.core.rob, y.hist, y.core.alu.valid) && IsYoungest(y.core.alu, y.hist) && QueueEmpty(y.core.iss)
    ensures Sound(CommitSys(y, i))
  {
    hide Packed, CommitHead, HeadActionOf, Complete, WindowOk, RobOk, ResultsOk, Window, FlushRob, Pdsts;
    CommitFrame(y.core, i);
    if Redirecting(y.core) {
      FlushKeeps(y.core.rob, y.hist, y.core.alu.valid, Unsettled(y.core.alu));
    } else {
      CompleteKeeps(y.core, y.hist);
      CommitHeadKeeps(BeforeCommitHead(y.core), y.hist, i, Unsettled(y.core.alu), CommitStage(y.core, i).rob.lastCommit);
    }
  }

  lemma StepKeeps(y: Sys, i: StepIn)
    requires Sound(y)
    ensures Sound(SysStep(y, i))
  {
    hide ResidentsOk, IsYoungest, Packed, AtFetch, MiddleSys, CommitSys;
    LsuKeeps(y, i);
    var l := AtFetch(y, i);
    MiddleKeeps(l, i);
    CommitKeeps(MiddleSys(l, i), i);
  }

  lemma {:induction false} RunIsSound(run: Run, n: nat)
    ensures Sound(run(n).sys)
  {
    hide SysStep, Sound, Reset;
    if n == 0 {
      RunStart(run);
      ResetIsSound();
    } else {
      RunStep(run, n - 1);
      RunIsSound(run, n - 1);
      StepKeeps(run(n - 1).sys, run(n - 1).input);
    }
  }

  lemma ResetIsSound()
    ensures Sound(Reset())
  {
    assert Reset().core.iss.slots[..0] == [];
  }

  /** The uop in the slot at the tail, after fetch to execute. */
  function TailUop(s: Core, i: StepIn): MicroOp { EntryAt(Middle(s, i).rob, s.rob.tail).uop }

  /** In every run the issue queue is empty at the step boundary, and the uop a step allocates is the one
      it issues and executes; a step that allocates none executes none. */
  lemma UopsFlowThrough(run: Run, n: nat)
    ensures QueueEmpty(run(n).sys.core.iss)
    ensures var i := run(n).input; var l := AtFetch(run(n).sys, i).core; var m := Middle(l, i);
            if Allocates(l, i) then m.iss.valid && m.alu.valid && m.iss.uop == m.alu.uop == TailUop(l, i)
            else !m.iss.valid && !m.alu.valid
  {
    hide ResidentsOk, IsYoungest, Packed, AtFetch, Middle, Allocates, FrontendStage, PlacedUop, RenamedUop, PushEntry;
    RunIsSound(run, n);
    var y, i := run(n).sys, run(n).input;
    LsuKeeps(y, i);
    var l := AtFetch(y, i);
    IssuedIsExecuted(l.core, i);
    if !Fetched(l.core, i).packetValid {
      IdleMiddle(l.core, i);
    } else if RobFull(l.core.rob) {
      DroppedMiddle(l.core, i);
    } else {
      FlowThrough(l.core, i);
      ResultValid(l.core, i);
      PushedAtTail(l.core.rob, l.hist, PlacedUop(l.core, i));
    }
  }

  lemma IssuedIsExecuted(s: Core, i: StepIn)
    ensures Middle(s, i).alu.valid == Middle(s, i).iss.valid
  {
    hide IssueStage, AllocateStage, RenameStage, DecodeStage, FrontendStage, ReadReg, WriteReg;
  }

  lemma PushedAtTail(rob: Rob, h: Hist, u: MicroOp)
    requires ResidentsOk(rob, h, false)
    ensures EntryAt(PushEntry(Started(rob), FreshEntry(u)), rob.tail).uop == u
  {
  }
}
