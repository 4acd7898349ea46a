/** Flow-through: the uop a step decodes is renamed, allocated, issued and executed in that same
    step, so fetch to execute collapses to one assignment of the core state. */
module Flow {
  import opened BoomTypes
  import opened Decode
  import opened Execute
  import opened Pipeline
  import opened IssueQueue
  import opened History

  /** The rename state after the per-step reset and, on a redirect, recovery. */
  function Recovered(s: Core): Rename {
    s.ren.(valid := false, uop := NO_UOP, table := if Redirecting(s) then s.ren.committed else s.ren.table)
  }

  function Started(rob: Rob): Rob { if rob.state == RobInit then rob.(state := RobNormal) else rob }

  /** The frontend after this step. */
  function Fetched(s: Core, i: StepIn): Frontend { FrontendStage(s, i).fe }

  /** The uop this step decodes, renamed. */
  function RenamedUop(s: Core, i: StepIn): Rename {
    RenameUop(Recovered(s), DecodeInst(Fetched(s, i).packetPc, Fetched(s, i).packetInst))
  }

  /** The same uop with its reorder-buffer slot. */
  function PlacedUop(s: Core, i: StepIn): MicroOp { RenamedUop(s, i).uop.(robIdx := s.rob.tail) }

  function ResultOf(s: Core, v: MicroOp): AluResult {
    ExecUop(v, ReadReg(s.rf, v.rename.prs1), ReadReg(s.rf, v.rename.prs2))
  }

  function WrittenBack(rf: seq<bv64>, r: AluResult): seq<bv64> {
    if WritesRegister(r) then WriteReg(rf, r.uop.rename.pdst, r.result) else rf
  }

  /** With no flush pending the frontend only changes itself and its request stream. */
  lemma FrontendFrame(s: Core, i: StepIn)
    requires !s.globalFlush
    ensures FrontendStage(s, i) == s.(fe := FrontendStage(s, i).fe, imemLog := FrontendStage(s, i).imemLog)
  {
    hide FetchRedirect, FetchFlush, FetchRequest, FetchAccept, FetchPacket;
  }

  /** Renaming produces a ready uop of an implemented queue. */
  lemma RenamedReady(r: Rename, pc: bv64, inst: bv32)
    ensures RenameUop(r, DecodeInst(pc, inst)).valid
    ensures RenameUop(r, DecodeInst(pc, inst)).uop == DecodeInst(pc, inst).(rename := RenameUop(r, DecodeInst(pc, inst)).uop.rename)
    ensures RenameUop(r, DecodeInst(pc, inst)).uop.rename.dst == DecodeInst(pc, inst).rename.dst
    ensures !RenameUop(r, DecodeInst(pc, inst)).uop.rename.prs1Busy && !RenameUop(r, DecodeInst(pc, inst)).uop.rename.prs2Busy
  {
    hide DecodeInst;
  }

  /** A step without a packet allocates and executes nothing. */
  lemma IdleMiddle(s: Core, i: StepIn)
    requires !s.globalFlush && QueueEmpty(s.iss) && !Fetched(s, i).packetValid
    ensures !Allocates(s, i) && QueueEmpty(Middle(s, i).iss)
    ensures Middle(s, i) == s.(fe := Fetched(s, i), imemLog := FrontendStage(s, i).imemLog, dec := Middle(s, i).dec,
                               ren := Recovered(s), rob := Started(s.rob), iss := Middle(s, i).iss, alu := NO_RESULT)
  {
    hide FrontendStage, DecodeInst, RenameUop, Compact, Select, Dispatch, Packed, IssueStage;
    FrontendFrame(s, i);
    var f := FrontendStage(s, i);
    var a := AllocateStage(RenameStage(DecodeStage(f)));
    assert a == s.(fe := f.fe, imemLog := f.imemLog, dec := a.dec, ren := Recovered(s), rob := Started(s.rob));
    IssuesDispatched(a);
    IssueFrame(a);
  }

  lemma IssueFrame(s: Core)
    ensures IssueStage(s) == s.(iss := IssueStage(s).iss)
  {
    hide Compact, Select, Dispatch;
  }

  /** A packet that finds the reorder buffer full is renamed and then dropped. */
  lemma DroppedMiddle(s: Core, i: StepIn)
    requires !s.globalFlush && QueueEmpty(s.iss) && Fetched(s, i).packetValid && RobFull(s.rob)
    ensures !Allocates(s, i) && QueueEmpty(Middle(s, i).iss)
    ensures Middle(s, i) == s.(fe := Fetched(s, i), imemLog := FrontendStage(s, i).imemLog, dec := Middle(s, i).dec,
                               ren := RenamedUop(s, i).(valid := false), rob := Started(s.rob),
                               iss := Middle(s, i).iss, alu := NO_RESULT)
  {
    hide FrontendStage, DecodeInst, RenameUop, Compact, Select, Dispatch, Packed, IssueStage;
    FrontendFrame(s, i);
    var f := FrontendStage(s, i);
    RenamedReady(Recovered(s), f.fe.packetPc, f.fe.packetInst);
    var a := AllocateStage(RenameStage(DecodeStage(f)));
    assert a == s.(fe := f.fe, imemLog := f.imemLog, dec := a.dec, ren := RenamedUop(s, i).(valid := false), rob := Started(s.rob));
    IssuesDispatched(a);
    IssueFrame(a);
  }

  /** The state after allocation. */
  function Entered(s: Core, i: StepIn): Core { AllocateStage(RenameStage(DecodeStage(FrontendStage(s, i)))) }

  lemma EnteredIs(s: Core, i: StepIn)
    requires !s.globalFlush && Fetched(s, i).packetValid && !RobFull(s.rob)
    ensures Entered(s, i) == s.(fe := Fetched(s, i), imemLog := FrontendStage(s, i).imemLog, dec := Entered(s, i).dec,
                                ren := RenamedUop(s, i).(uop := PlacedUop(s, i)),
                                rob := PushEntry(Started(s.rob), FreshEntry(PlacedUop(s, i))))
    ensures var u := Entered(s, i).ren; u.valid && u.uop.iqType != IqFpu && !u.uop.rename.prs1Busy && !u.uop.rename.prs2Busy
  {
    hide FrontendStage, DecodeInst, RenameUop, PushEntry, FreshEntry;
    FrontendFrame(s, i);
    RenamedReady(Recovered(s), Fetched(s, i).packetPc, Fetched(s, i).packetInst);
  }

  lemma ResultUop(s: Core, v: MicroOp)
    ensures ResultOf(s, v).uop == v
  {
    hide AluValue, Mispredicts, RedirectTarget, MaskForSize, Operand1, Operand2, AccessAddress, ReadReg;
  }

  /** Otherwise the decoded uop is allocated at the tail, issued and executed within the step. */
  lemma FlowThrough(s: Core, i: StepIn)
    requires !s.globalFlush && QueueEmpty(s.iss) && Fetched(s, i).packetValid && !RobFull(s.rob)
    ensures Allocates(s, i) && QueueEmpty(Middle(s, i).iss)
    ensures Middle(s, i).iss.valid && Middle(s, i).iss.uop == PlacedUop(s, i) == Middle(s, i).alu.uop
    ensures Middle(s, i) == s.(fe := Fetched(s, i), imemLog := FrontendStage(s, i).imemLog, dec := Middle(s, i).dec,
                               ren := RenamedUop(s, i).(uop := PlacedUop(s, i)),
                               rob := PushEntry(Started(s.rob), FreshEntry(PlacedUop(s, i))),
                               iss := Middle(s, i).iss, alu := ResultOf(s, PlacedUop(s, i)),
                               rf := WrittenBack(s.rf, ResultOf(s, PlacedUop(s, i))))
  {
    hide FrontendStage, DecodeStage, RenameStage, AllocateStage, Packed, IssueStage, PushEntry, FreshEntry,
         RenamedUop, PlacedUop, ExecUop, Fetched, WriteReg, ReadReg, WritesRegister;
    var a := Entered(s, i);
    EnteredIs(s, i);
    IssuesDispatched(a);
    IssueFrame(a);
    ResultUop(s, PlacedUop(s, i));
  }

  /** Fetch to execute never retires anything and sends no memory request. */
  lemma MiddleFrame(s: Core, i: StepIn)
    requires !s.globalFlush && QueueEmpty(s.iss)
    ensures var m := Middle(s, i);
            && m == s.(fe := m.fe, imemLog := m.imemLog, dec := m.dec, ren := m.ren, rob := m.rob, iss := m.iss, alu := m.alu, rf := m.rf)
            && QueueEmpty(m.iss)
  {
    hide Middle, FrontendStage, Packed, RenamedUop, PlacedUop, ResultOf;
    if !Fetched(s, i).packetValid {
      IdleMiddle(s, i);
    } else if RobFull(s.rob) {
      DroppedMiddle(s, i);
    } else {
      FlowThrough(s, i);
    }
  }
}
