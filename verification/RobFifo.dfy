/** The reorder buffer is a bounded FIFO in every run: uops leave in allocation order, each once. */
module RobFifo {
  import opened BoomTypes
  import opened Decode
  import opened Pipeline
  import opened Frames
  import opened RobWindow
  import opened IssueQueue
  import opened History
  import opened Residency
  import Flow

  function Tally(fates: seq<Fate>, f: Fate): nat {
    if fates == [] then 0 else Tally(fates[..|fates| - 1], f) + if fates[|fates| - 1] == f then 1 else 0
  }

  /** The committed uops, in program order. */
  function CommittedUops(alloc: seq<AluResult>, fates: seq<Fate>): seq<AluResult>
    requires |fates| <= |alloc|
  {
    if fates == [] then []
    else
      var n := |fates| - 1;
      CommittedUops(alloc, fates[..n]) + if fates[n] == Committed then [alloc[n]] else []
  }

  /** The commit record of a uop: its identity, its destination, and the memory access it executed. */
  ghost predicate Recorded(ce: CommitEntry, r: AluResult) {
    && ce.pc == r.uop.pc && ce.inst == r.uop.inst && ce.rd == r.uop.rename.ldst
    && ce.rdValid == (r.uop.rename.dst == DstInt && r.uop.rename.pdst != 0)
    && ce.memoryValid == r.memoryValid && ce.isStore == r.isStore
    && (r.memoryValid ==> ce.address == r.address && ce.mask == r.mask)
    && (r.isStore ==> ce.data == r.storeData)
  }

  ghost predicate RecordsOk(commits: seq<CommitEntry>, rs: seq<AluResult>) {
    |commits| == |rs| && forall n :: 0 <= n < |commits| ==> Recorded(commits[n], rs[n])
  }

  ghost predicate CommitsOk(y: Sys) {
    && |y.hist.fates| <= |y.hist.alloc|
    && y.core.instret == |y.hist.commits|
    && RecordsOk(y.hist.commits, CommittedUops(y.hist.alloc, y.hist.fates))
  }

  // ---- Properties of the counts

  lemma {:induction false} EveryFateCounts(fates: seq<Fate>)
    ensures |fates| == Tally(fates, Committed) + Tally(fates, EcallRetired) + Tally(fates, Flushed)
  {
    if fates != [] {
      EveryFateCounts(fates[..|fates| - 1]);
    }
  }

  lemma {:induction false} CommittedTally(alloc: seq<AluResult>, fates: seq<Fate>)
    requires |fates| <= |alloc|
    ensures |CommittedUops(alloc, fates)| == Tally(fates, Committed)
  {
    if fates != [] {
      CommittedTally(alloc, fates[..|fates| - 1]);
    }
  }

  lemma {:induction false} CommittedUopsExtend(alloc: seq<AluResult>, more: seq<AluResult>, fates: seq<Fate>)
    requires |fates| <= |alloc|
    ensures CommittedUops(alloc + more, fates) == CommittedUops(alloc, fates)
  {
    if fates != [] {
      CommittedUopsExtend(alloc, more, fates[..|fates| - 1]);
    }
  }

  lemma {:induction false} FlushedAddNone(alloc: seq<AluResult>, fates: seq<Fate>, n: nat)
    requires |fates| + n <= |alloc|
    ensures CommittedUops(alloc, fates + seq(n, _ => Flushed)) == CommittedUops(alloc, fates)
  {
    var all := fates + seq(n, _ => Flushed);
    if n == 0 {
      assert all == fates;
    } else {
      FlushedAddNone(alloc, fates, n - 1);
      assert all[..|all| - 1] == fates + seq(n - 1, _ => Flushed);
    }
  }

  lemma OneMoreFate(alloc: seq<AluResult>, fates: seq<Fate>, f: Fate)
    requires |fates| < |alloc|
    ensures CommittedUops(alloc, fates + [f]) == CommittedUops(alloc, fates) + if f == Committed then [alloc[|fates|]] else []
  {
    assert (fates + [f])[..|fates|] == fates;
  }

  // ---- Every step keeps the records

  /** The record of a settled entry describes its uop. */
  lemma SettledIsRecorded(s: Core, e: RobEntry, r: AluResult)
    requires ResultOk(r) && SettledEntry(e, r) && (r.isLoad ==> !e.exception)
    ensures Recorded(CommitRecord(s, e), r)
    ensures Recorded(CommitRecord(s, e.(requestSent := true, completed := true)), r)
  {
    hide WellClassified, ReadReg;
  }

  lemma RetiredRecord(b: Core, i: StepIn)
    requires HeadActionOf(b, i).Retires?
    ensures CommitHead(b, i).rob.lastCommit == CommitRecord(b, EntryAt(b.rob, b.rob.head)) && CommitHead(b, i).instret == b.instret + 1
  {
    hide PopHead, CommitRecord, CommitMapping, HeadActionOf;
  }

  lemma SentRecord(b: Core, i: StepIn)
    requires HeadActionOf(b, i).SendsStore? && b.rob.head < |b.rob.entries|
    ensures CommitHead(b, i).rob.lastCommit
         == CommitRecord(SendStore(b), EntryAt(b.rob, b.rob.head).(requestSent := true, completed := true))
    ensures CommitHead(b, i).instret == b.instret + 1
  {
    hide PopHead, CommitRecord, CommitMapping, HeadActionOf;
  }

  /** The record made at the head describes the uop allocated there. */
  lemma HeadIsRecorded(b: Core, h: Hist, i: StepIn, raw: bool)
    requires ResidentsOk(b.rob, h, raw)
    requires HeadActionOf(b, i).Retires? || HeadActionOf(b, i).SendsStore?
    ensures |h.fates| < |h.alloc|
    ensures Recorded(CommitHead(b, i).rob.lastCommit, h.alloc[|h.fates|])
    ensures CommitHead(b, i).instret == b.instret + 1
  {
    hide HeadActionOf, RobOk, WindowOk, Window, CommitRecord, CommitHead, ResultOk, ResultsOk, SettledEntry,
         Recorded, SendStore;
    HeadCases(b, h, i, raw);
    var e, r := EntryAt(b.rob, b.rob.head), h.alloc[|h.fates|];
    assert r == Residents(h)[0];
    if HeadActionOf(b, i).Retires? {
      SettledIsRecorded(b, e, r);
      RetiredRecord(b, i);
    } else {
      StoreHasNoException(e, r);
      SettledIsRecorded(SendStore(b), e, r);
      SentRecord(b, i);
    }
  }

  lemma StoreHasNoException(e: RobEntry, r: AluResult)
    requires ResultOk(r) && r.isStore
    ensures !r.isLoad
  {
  }

  /** What commit does to the history, given what it does at the head. */
  lemma RetireKeepsRecords(b: Core, h: Hist, i: StepIn, raw: bool)
    requires ResidentsOk(b.rob, h, raw) && CommitsOk(Sys(b, h))
    ensures CommitsOk(Sys(CommitHead(b, i), RetireHist(b, h, i, CommitHead(b, i).rob.lastCommit)))
  {
    hide ResidentsOk, WindowOk, ResultsOk, Recorded, HeadActionOf, StoreEvent, CommitMapping, PopHead,
         CommitRecord, SendStore;
    match HeadActionOf(b, i) {
      case Waits =>
      case Traps =>
      case RetiresEcall =>
        HeadCases(b, h, i, raw);
        HeadIsResident(b.rob, h, raw);
        OneMoreFate(h.alloc, h.fates, EcallRetired);
      case _ =>
        HeadIsRecorded(b, h, i, raw);
        hide CommitHead;
        OneMoreFate(h.alloc, h.fates, Committed);
    }
  }

  lemma HeadKeepsCommits(y: Sys, i: StepIn)
    requires ResidentsOk(y.core.rob, y.hist, y.core.alu.valid) && IsYoungest(y.core.alu, y.hist) && CommitsOk(y)
    requires !Redirecting(y.core)
    ensures CommitsOk(CommitSys(y, i))
  {
    hide ResidentsOk, RecordsOk, RetireHist, Complete, CommitHead;
    CompleteKeeps(y.core, y.hist);
    CompleteFrame(y.core.(rob := y.core.rob.(commitValid := false)));
    RetireKeepsRecords(BeforeCommitHead(y.core), y.hist, i, Unsettled(y.core.alu));
  }

  lemma HeadIsResident(rob: Rob, h: Hist, raw: bool)
    requires ResidentsOk(rob, h, raw) && Count(rob) > 0
    ensures |h.fates| < |h.alloc|
  {
  }

  lemma StepKeepsCommits(y: Sys, i: StepIn)
    requires Sound(y) && CommitsOk(y)
    ensures CommitsOk(SysStep(y, i))
  {
    hide ResidentsOk, IsYoungest, Packed, RecordsOk, LsuReady, LsuIssue, LoadEvent, IssuesLoad, Middle, Allocates,
         AfterBranch, CommitSys;
    var l := AtFetch(y, i);
    LsuKeeps(y, i);
    assert CommitsOk(l) by { LsuInstret(y, i); }
    hide LsuSys;
    MiddleKeeps(l, i);
    var m := MiddleSys(l, i);
    assert CommitsOk(m) by { MiddleInstret(l, i); CommittedUopsExtend(l.hist.alloc, [m.core.alu], l.hist.fates); }
    hide MiddleSys;
    if Redirecting(m.core) {
      FlushKeepsCommits(m, i);
    } else {
      HeadKeepsCommits(m, i);
    }
  }

  lemma LsuInstret(y: Sys, i: StepIn)
    ensures AtFetch(y, i).core.instret == y.core.instret && AtFetch(y, i).core.trace == y.core.trace
    ensures AtFetch(y, i).hist.commits == y.hist.commits
    ensures Redirecting(AtFetch(y, i).core) <==> WantsRedirect(y.core.alu)
  {
    hide AfterBranch, LsuRespond, LsuEnqueue, LsuIssue;
    var a := AfterBranch(y.core);
    BranchFrame(y.core);
    RespondFrame(a, i.dmemResp);
    EnqueueFrame(LsuRespond(a, i.dmemResp));
    LsuIssueFrame(LsuReady(a, i), i);
  }

  lemma MiddleInstret(y: Sys, i: StepIn)
    requires !y.core.globalFlush && QueueEmpty(y.core.iss)
    ensures MiddleSys(y, i).core.instret == y.core.instret && MiddleSys(y, i).hist.commits == y.hist.commits
  {
    Flow.MiddleFrame(y.core, i);
  }

  lemma FlushKeepsCommits(y: Sys, i: StepIn)
    requires CommitsOk(y) && Redirecting(y.core)
    ensures CommitsOk(CommitSys(y, i))
  {
    FlushedAddNone(y.hist.alloc, y.hist.fates, |y.hist.alloc| - |y.hist.fates|);
    hide Pdsts, RecordsOk;
  }

  lemma {:induction false} RunCommits(run: Run, n: nat)
    ensures CommitsOk(run(n).sys)
  {
    hide SysStep, CommitsOk, Sound, Reset;
    if n == 0 {
      RunStart(run);
      assert CommitsOk(Reset()) by { ResetCommits(); }
    } else {
      RunStep(run, n - 1);
      RunCommits(run, n - 1);
      RunIsSound(run, n - 1);
      StepKeepsCommits(run(n - 1).sys, run(n - 1).input);
    }
  }

  lemma ResetCommits()
    ensures CommitsOk(Reset())
  {
  }

  // ---- The main results

  /** The valid entries are exactly the head-to-tail window, at most ROB_DEPTH of them; they are the
      youngest uops allocated, in allocation order; every older uop has met exactly one fate; and the
      retired-instruction counter and the commit records list exactly the committed uops in program
      order. */
  ghost predicate BoundedFifo(y: Sys) {
    && RobOk(y.core.rob) && Count(y.core.rob) <= 32
    && |y.hist.alloc| == Tally(y.hist.fates, Committed) + Tally(y.hist.fates, EcallRetired)
                         + Tally(y.hist.fates, Flushed) + Count(y.core.rob)
    && |y.hist.fates| + Count(y.core.rob) == |y.hist.alloc|
    && (forall k: nat :: k < Count(y.core.rob) ==>
          SameButException(Window(y.core.rob)[k].uop, y.hist.alloc[|y.hist.fates| + k].uop))
    && y.core.instret == |y.hist.commits| == Tally(y.hist.fates, Committed)
    && RecordsOk(y.hist.commits, CommittedUops(y.hist.alloc, y.hist.fates))
  }

  ghost predicate SameButException(u: MicroOp, v: MicroOp) { u == v.(exception := u.exception) }

  lemma ResidentUop(rob: Rob, h: Hist, raw: bool, k: nat)
    requires ResidentsOk(rob, h, raw) && k < Count(rob)
    ensures SameButException(Window(rob)[k].uop, h.alloc[|h.fates| + k].uop)
  {
    hide RobOk, ResultsOk, Window;
    assert EntryOk(Window(rob)[k], Residents(h)[k], raw && k == Count(rob) - 1);
  }

  lemma RobIsBoundedFifo(run: Run, n: nat)
    ensures BoundedFifo(run(n).sys)
  {
    hide Recorded, Packed, IsYoungest, ResultsOk, RobOk, WindowOk, Window, SameButException;
    var y := run(n).sys;
    RunIsSound(run, n);
    RunCommits(run, n);
    EveryFateCounts(y.hist.fates);
    CommittedTally(y.hist.alloc, y.hist.fates);
    forall k: nat | k < Count(y.core.rob)
      ensures SameButException(Window(y.core.rob)[k].uop, y.hist.alloc[|y.hist.fates| + k].uop)
    {
      ResidentUop(y.core.rob, y.hist, Unsettled(y.core.alu), k);
    }
  }

  // ---- The buffer as a queue, step by step

  /** A uop, whatever exception it has met since it was allocated. */
  function Identity(u: MicroOp): MicroOp { u.(exception := false) }

  /** The uops in the buffer, oldest first. */
  function Queue(rob: Rob): seq<MicroOp>
    requires Pointers(rob)
  {
    seq(Count(rob), k requires 0 <= k < Count(rob) => Identity(Window(rob)[k].uop))
  }

  function Identities(rs: seq<AluResult>): seq<MicroOp> {
    seq(|rs|, k requires 0 <= k < |rs| => Identity(rs[k].uop))
  }

  /** A redirect empties the queue and retires nothing. Any other step puts the uop it executed, if any,
      at the back and takes at most the front one out, which counts as retired unless it is an ECALL. */
  ghost predicate QueueStep(s: Core, t: Core) {
    && Pointers(s.rob) && Pointers(t.rob)
    && if WantsRedirect(s.alu) then Queue(t.rob) == [] && t.instret == s.instret
       else
         var all := Queue(s.rob) + if t.alu.valid then [Identity(t.alu.uop)] else [];
         || (Queue(t.rob) == all && t.instret == s.instret)
         || (all != [] && Queue(t.rob) == all[1..] && t.instret == s.instret + if all[0].uopc == UOPC_ECALL then 0 else 1)
  }

  lemma QueueIsResidents(rob: Rob, h: Hist, raw: bool)
    requires ResidentsOk(rob, h, raw)
    ensures Queue(rob) == Identities(Residents(h))
  {
    hide RobOk, Window, ResultsOk, ResultOk, EntryOk;
    forall k | 0 <= k < Count(rob)
      ensures Identity(Window(rob)[k].uop) == Identity(Residents(h)[k].uop)
    {
      SameIdentity(Window(rob)[k], Residents(h)[k], raw && k == Count(rob) - 1);
    }
  }

  lemma SameIdentity(e: RobEntry, r: AluResult, raw: bool)
    requires EntryOk(e, r, raw)
    ensures Identity(e.uop) == Identity(r.uop)
  {
  }

  lemma InstretOnly(b: Core, i: StepIn)
    requires Pointers(b.rob)
    ensures CommitHead(b, i).instret == b.instret + if HeadActionOf(b, i).Retires? || HeadActionOf(b, i).SendsStore? then 1 else 0
  {
    hide HeadActionOf, RetireHead, SendStore, PopHead, ReadReg;
    if HeadActionOf(b, i).Retires? {
      RetiredRecord(b, i);
    } else if HeadActionOf(b, i).SendsStore? {
      SentRecord(b, i);
    }
  }

  /** At most the front leaves at commit. */
  lemma CommitQueue(b: Core, h: Hist, i: StepIn, raw: bool, ce: CommitEntry)
    requires ResidentsOk(b.rob, h, raw)
    ensures var c := CommitHead(b, i);
            && Pointers(c.rob)
            && if Leaves(HeadActionOf(b, i)) then
                 Queue(b.rob) != [] && Queue(c.rob) == Queue(b.rob)[1..]
                 && c.instret == b.instret + if Queue(b.rob)[0].uopc == UOPC_ECALL then 0 else 1
               else Queue(c.rob) == Queue(b.rob) && c.instret == b.instret
  {
    hide RobOk, WindowOk, ResultsOk, Window, CommitHead, HeadActionOf;
    InstretOnly(b, i);
    CommitHeadKeeps(b, h, i, raw, ce);
    if Leaves(HeadActionOf(b, i)) {
      HeadCases(b, h, i, raw);
      QueueIsResidents(b.rob, h, raw);
      assert Queue(b.rob)[0].uopc == Residents(h)[0].uop.uopc;
    }
  }

  lemma StepQueue(y: Sys, i: StepIn)
    requires Sound(y)
    ensures QueueStep(y.core, SysStep(y, i).core)
  {
    hide ResidentsOk, IsYoungest, Packed, AtFetch, Middle, MiddleHist, CommitSys, Queue, Identities, WantsRedirect;
    var l := AtFetch(y, i);
    var m := MiddleSys(l, i);
    LsuKeeps(y, i);
    LsuInstret(y, i);
    Flow.MiddleFrame(l.core, i);
    MiddleKeeps(l, i);
    MiddleInstret(l, i);
    BufferPointers(y.core.rob, y.hist, Unsettled(y.core.alu));
    if Redirecting(m.core) {
      FlushQueue(m, i);
    } else {
      RetireQueue(m, i);
      QueueIsResidents(y.core.rob, y.hist, Unsettled(y.core.alu));
      Enqueued(y.hist, m.hist, m.core.alu);
    }
  }

  lemma FlushQueue(m: Sys, i: StepIn)
    requires ResidentsOk(m.core.rob, m.hist, m.core.alu.valid) && Redirecting(m.core)
    ensures var c := CommitSys(m, i).core; Pointers(c.rob) && Queue(c.rob) == [] && c.instret == m.core.instret
  {
    hide ResidentsOk, Queue, FlushRob, FlushHist;
    FlushKeeps(m.core.rob, m.hist, m.core.alu.valid, false);
    EmptyQueue(FlushRob(m.core.rob), FlushHist(m.hist));
  }

  /** Commit without a redirect, on the residents. */
  lemma RetireQueue(m: Sys, i: StepIn)
    requires ResidentsOk(m.core.rob, m.hist, m.core.alu.valid) && IsYoungest(m.core.alu, m.hist) && !Redirecting(m.core)
    ensures var c, all := CommitSys(m, i).core, Identities(Residents(m.hist));
            && Pointers(c.rob) && c.alu == m.core.alu
            && (|| (Queue(c.rob) == all && c.instret == m.core.instret)
                || (all != [] && Queue(c.rob) == all[1..] && c.instret == m.core.instret + if all[0].uopc == UOPC_ECALL then 0 else 1))
  {
    hide ResidentsOk, IsYoungest, CommitHead, Complete, Queue, Identities, RetireHist, HeadActionOf;
    var b := BeforeCommitHead(m.core);
    CompleteKeeps(m.core, m.hist);
    CompleteFrame(m.core.(rob := m.core.rob.(commitValid := false)));
    CommitQueue(b, m.hist, i, Unsettled(m.core.alu), CommitStage(m.core, i).rob.lastCommit);
    CommitHeadFrame(b, i);
    BufferPointers(b.rob, m.hist, Unsettled(m.core.alu));
    QueueIsResidents(b.rob, m.hist, Unsettled(m.core.alu));
  }

  lemma BufferPointers(rob: Rob, h: Hist, raw: bool)
    requires ResidentsOk(rob, h, raw)
    ensures Pointers(rob) && |h.fates| <= |h.alloc|
  {
  }

  lemma EmptyQueue(rob: Rob, h: Hist)
    requires ResidentsOk(rob, h, false) && Count(rob) == 0
    ensures Pointers(rob) && Queue(rob) == []
  {
  }

  lemma Enqueued(h: Hist, h': Hist, r: AluResult)
    requires |h.fates| <= |h.alloc| && h'.fates == h.fates && h'.alloc == if r.valid then h.alloc + [r] else h.alloc
    ensures Identities(Residents(h')) == Identities(Residents(h)) + if r.valid then [Identity(r.uop)] else []
  {
  }

  /** In every run each step treats the reorder buffer as a queue. */
  lemma BufferIsQueue(run: Run, n: nat)
    ensures QueueStep(run(n).sys.core, run(n + 1).sys.core)
  {
    hide SysStep, QueueStep, Sound;
    RunIsSound(run, n);
    StepQueue(run(n).sys, run(n).input);
    RunStep(run, n);
  }

  lemma LsuAppends(y: Sys, i: StepIn)
    ensures AtFetch(y, i).hist == y.hist.(loadSeq := AtFetch(y, i).hist.loadSeq, mem := AtFetch(y, i).hist.mem)
    ensures y.hist.mem <= AtFetch(y, i).hist.mem
  {
    hide AfterBranch, LsuReady, LsuIssue, LoadEvent, IssuesLoad, FirstLoad;
  }

  lemma CommitAppends(y: Sys, i: StepIn)
    ensures var h, h' := y.hist, CommitSys(y, i).hist;
            h'.alloc == h.alloc && h'.fetched == h.fetched && h.fates <= h'.fates && h.commits <= h'.commits && |h'.commits| <= |h.commits| + 1 && h.mem <= h'.mem
  {
    hide CommitStage, StoreEvent, BeforeCommitHead, HeadActionOf, Pdsts, Redirecting;
  }

  // ---- The trace stream

  predicate TraceHasRoom(run: Run, n: nat) { forall k :: 0 <= k < n ==> run(k).input.traceRoom }

  lemma HeadTraces(b: Core, h: Hist, i: StepIn, raw: bool)
    requires ResidentsOk(b.rob, h, raw) && i.traceRoom && b.trace == h.commits
    ensures CommitHead(b, i).trace == RetireHist(b, h, i, CommitHead(b, i).rob.lastCommit).commits
  {
    hide HeadActionOf, PopHead, CommitRecord, CommitMapping, StoreEvent, SetEntry, EntryAt, StoreRequest, RobOk,
         WindowOk, ResultsOk, Window;
  }

  lemma StepTraces(y: Sys, i: StepIn)
    requires Sound(y) && i.traceRoom && y.core.trace == y.hist.commits
    ensures SysStep(y, i).core.trace == SysStep(y, i).hist.commits
  {
    hide ResidentsOk, IsYoungest, Packed, AtFetch, MiddleSys, RetireHist, CommitHead, Complete;
    var l := AtFetch(y, i);
    LsuKeeps(y, i);
    LsuInstret(y, i);
    MiddleKeeps(l, i);
    MiddleInstret(l, i);
    MiddleTrace(l, i);
    var m := MiddleSys(l, i);
    if Redirecting(m.core) {
      FlushTraces(m);
    } else {
      CompleteKeeps(m.core, m.hist);
      CompleteFrame(m.core.(rob := m.core.rob.(commitValid := false)));
      HeadTraces(BeforeCommitHead(m.core), m.hist, i, Unsettled(m.core.alu));
    }
  }

  lemma FlushTraces(m: Sys)
    ensures FlushHist(m.hist).commits == m.hist.commits
  {
    hide Pdsts;
  }

  lemma MiddleTrace(y: Sys, i: StepIn)
    requires !y.core.globalFlush && QueueEmpty(y.core.iss)
    ensures MiddleSys(y, i).core.trace == y.core.trace
  {
    hide Packed, Middle;
    Flow.MiddleFrame(y.core, i);
  }

  /** As long as the trace stream has room, it is the list of commits. */
  lemma {:induction false} TraceIsComplete(run: Run, n: nat)
    requires TraceHasRoom(run, n)
    ensures run(n).sys.core.trace == run(n).sys.hist.commits
  {
    hide SysStep, Sound;
    if n == 0 {
      RunStart(run);
    } else {
      RunStep(run, n - 1);
      TraceIsComplete(run, n - 1);
      RunIsSound(run, n - 1);
      StepTraces(run(n - 1).sys, run(n - 1).input);
    }
  }
}
