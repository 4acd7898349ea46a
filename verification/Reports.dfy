/** The register that reports a program's end to the host: what it holds in every run. */
module Reports {
  import opened BoomTypes
  import opened Decode
  import opened Execute
  import opened Pipeline
  import opened Frames
  import opened History

  /** The datum of the last store in a request stream, zero before the first. */
  function LastDatum(log: seq<DmemRequest>): bv64 {
    if log == [] then 0
    else if log[|log| - 1].isStore then log[|log| - 1].data
    else LastDatum(log[..|log| - 1])
  }

  predicate Reported(s: Core) { s.tohost == LastDatum(s.dmemLog) }

  /** Neither the register nor the stream changes. */
  predicate Quiet(s: Core, d: Core) { d.tohost == s.tohost && d.dmemLog == s.dmemLog }

  lemma LastDatumOne(log: seq<DmemRequest>, q: DmemRequest)
    ensures LastDatum(log + [q]) == if q.isStore then q.data else LastDatum(log)
  {
    assert (log + [q])[..|log|] == log;
  }

  lemma LsuReports(s: Core, i: StepIn)
    requires Reported(s)
    ensures Reported(LsuStage(s, i))
  {
    hide LsuRespond, LsuEnqueue, SetEntry, FirstLoad;
    if !s.globalFlush {
      var a := LsuRespond(s, i.dmemResp);
      var b := LsuEnqueue(a);
      RespondFrame(s, i.dmemResp);
      EnqueueFrame(a);
      var k := NthSlot(b.rob, FirstLoad(b.rob, 0));
      LastDatumOne(b.dmemLog, LoadRequest(EntryAt(b.rob, k), k, b.lsu.nextTx));
    }
  }

  lemma FetchQuiet(s: Core, i: StepIn)
    ensures Quiet(s, FrontendStage(s, i)) && Quiet(s, DecodeStage(s)) && Quiet(s, RenameStage(s))
  {
    hide FetchRedirect, FetchFlush, FetchRequest, FetchAccept, FetchPacket, DecodeInst, RenameUop;
  }

  lemma IssueQuiet(s: Core)
    ensures Quiet(s, AllocateStage(s)) && Quiet(s, IssueStage(s)) && Quiet(s, ExecuteStage(s))
  {
    hide PushEntry, FreshEntry, Compact, Select, Dispatch, ClearSlots, ExecUop, WriteReg, ReadReg;
  }

  lemma RetireQuiet(s: Core, i: StepIn)
    ensures Quiet(s, RetireHead(s, i)) && Quiet(s, RetireEcall(s))
  {
    hide PopHead, CommitMapping, CommitRecord, EntryAt, ReadReg, At;
  }

  lemma SendReports(s: Core)
    requires Reported(s)
    ensures Reported(SendStore(s))
  {
    hide SetEntry, EntryAt;
    LastDatumOne(s.dmemLog, StoreRequest(EntryAt(s.rob, s.rob.head), s.lsu.nextTx));
  }

  lemma HeadReports(s: Core, i: StepIn)
    requires Reported(s)
    ensures Reported(CommitHead(s, i))
  {
    hide HeadActionOf, RetireHead, RetireEcall, SendStore;
    RetireQuiet(s, i);
    SendReports(s);
    RetireQuiet(SendStore(s), i);
  }

  lemma CommitReports(s: Core, i: StepIn)
    requires Reported(s)
    ensures Reported(CommitStage(s, i))
  {
    hide FlushRob, Complete, CommitHead;
    var d := s.(rob := s.rob.(commitValid := false));
    CompleteFrame(d);
    if !Redirecting(s) {
      HeadReports(Complete(d), i);
    }
  }

  lemma StepReports(s: Core, i: StepIn)
    requires Reported(s)
    ensures Reported(Step(s, i))
  {
    hide AfterBranch, LsuStage, FrontendStage, DecodeStage, RenameStage, AllocateStage, IssueStage, ExecuteStage, CommitStage;
    BranchFrame(s);
    LsuReports(AfterBranch(s), i);
    FetchQuiet(AfterLsu(s, i), i);
    FetchQuiet(AfterFetch(s, i), i);
    FetchQuiet(DecodeStage(AfterFetch(s, i)), i);
    IssueQuiet(AfterRename(s, i));
    IssueQuiet(AfterAllocate(s, i));
    IssueQuiet(IssueStage(AfterAllocate(s, i)));
    CommitReports(AfterExecute(s, i), i);
  }

  /** In every run the report register holds the datum of the last store requested, zero before the first. */
  lemma {:induction false} LastStoreIsReported(run: Run, n: nat)
    ensures run(n).sys.core.tohost == LastDatum(run(n).sys.core.dmemLog)
  {
    hide Step, SysStep;
    if n == 0 {
      RunStart(run);
    } else {
      LastStoreIsReported(run, n - 1);
      RunStep(run, n - 1);
      StepIsSysStep(run(n - 1).sys, run(n - 1).input);
      StepReports(run(n - 1).sys.core, run(n - 1).input);
    }
  }
}
