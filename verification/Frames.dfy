/** What each stage leaves alone. */
module Frames {
  import opened BoomTypes
  import opened Pipeline

  lemma BranchFrame(s: Core)
    ensures AfterBranch(s) == s.(globalFlush := false, ioSuccess := false, ioTrap := false, cycle := s.cycle + 1, br := AfterBranch(s).br)
    ensures Redirecting(AfterBranch(s)) <==> WantsRedirect(s.alu)
    ensures WantsRedirect(s.alu) ==> AfterBranch(s).br.target == s.alu.redirectPc
  {
  }

  /** Updating an entry changes only the entries. */
  lemma SetEntryFrame(rob: Rob, idx: nat, e: RobEntry)
    ensures SetEntry(rob, idx, e) == rob.(entries := SetEntry(rob, idx, e).entries)
    ensures |SetEntry(rob, idx, e).entries| == |rob.entries|
  {
  }

  lemma RespondFrame(s: Core, resp: Option<DmemResponse>)
    ensures LsuRespond(s, resp) == s.(lsu := LsuRespond(s, resp).lsu, rob := LsuRespond(s, resp).rob, rf := LsuRespond(s, resp).rf)
    ensures LsuRespond(s, resp).rob.state == s.rob.state
  {
    hide LoadedValue, DeliveredEntry, WriteReg, SetEntry, EntryAt;
    var idx := s.lsu.pendingIdx;
    if resp.Some? {
      SetEntryFrame(s.rob, idx, DeliveredEntry(EntryAt(s.rob, idx), resp.value));
    }
  }

  lemma EnqueueFrame(s: Core)
    ensures LsuEnqueue(s) == s.(rob := LsuEnqueue(s).rob) && LsuEnqueue(s).rob.state == s.rob.state
  {
    hide QueuedLoad, QueuedStore, SetEntry, EntryAt;
    var idx := s.alu.uop.robIdx;
    SetEntryFrame(s.rob, idx, QueuedStore(EntryAt(s.rob, idx), s.alu));
    SetEntryFrame(s.rob, idx, QueuedLoad(EntryAt(s.rob, idx), s.alu));
  }

  lemma LsuIssueFrame(s: Core, i: StepIn)
    ensures LsuIssue(s, i) == s.(rob := LsuIssue(s, i).rob, lsu := LsuIssue(s, i).lsu, dmemLog := LsuIssue(s, i).dmemLog)
    ensures LsuIssue(s, i).rob.state == s.rob.state
  {
    hide SetEntry, EntryAt, FirstLoad, LoadRequest;
    var idx := NthSlot(s.rob, FirstLoad(s.rob, 0));
    SetEntryFrame(s.rob, idx, EntryAt(s.rob, idx).(requestSent := true, txId := s.lsu.nextTx));
  }

  lemma CompleteFrame(s: Core)
    ensures Complete(s) == s.(rob := Complete(s).rob)
  {
    hide SetEntry, EntryAt;
  }

  lemma CommitHeadFrame(s: Core, i: StepIn)
    ensures var c := CommitHead(s, i);
            c == s.(rob := c.rob, lsu := c.lsu, ren := c.ren, ioSuccess := c.ioSuccess, ioTrap := c.ioTrap,
                    instret := c.instret, tohost := c.tohost, dmemLog := c.dmemLog, trace := c.trace)
  {
    hide HeadActionOf, PopHead, CommitRecord, CommitMapping, SetEntry, EntryAt, StoreRequest, ReadReg, At;
  }

  /** Commit touches neither the stages before it nor the register file. */
  lemma CommitFrame(s: Core, i: StepIn)
    ensures var c := CommitStage(s, i);
            c == s.(rob := c.rob, lsu := c.lsu, ren := c.ren, ioSuccess := c.ioSuccess, ioTrap := c.ioTrap,
                    instret := c.instret, tohost := c.tohost, dmemLog := c.dmemLog, trace := c.trace, globalFlush := c.globalFlush)
  {
    hide Complete, CommitHead, FlushRob;
    var d := s.(rob := s.rob.(commitValid := false));
    CompleteFrame(d);
    CommitHeadFrame(Complete(d), i);
  }
}
