/** The fetch handshake: whatever the latency of the instruction memory, the packets decoded are
    exactly those on the path their own outcomes prescribe. */
module Fetch {
  import opened BoomTypes
  import opened Decode
  import opened Pipeline
  import opened Frames
  import opened IssueQueue
  import opened History
  import opened Residency
  import opened Flow
  import opened RenameMaps

  /** The instruction memory answers only requests written in earlier steps, echoing their address and
      id; a response under any other id may carry anything. `log` is what was written so far. */
  ghost predicate HonestResponse(prog: Program, log: seq<ImemRequest>, resp: Option<ImemResponse>) {
    resp.Some? ==>
      && resp.value.fetchId != |log|
      && (resp.value.fetchId < |log| ==>
            resp.value.address == log[resp.value.fetchId].address && resp.value.instruction == prog(resp.value.address))
  }

  /** The first n steps of the run meet such answers only. */
  ghost predicate HonestImem(prog: Program, run: Run, n: nat) {
    forall k :: 0 <= k < n ==> HonestResponse(prog, run(k).sys.core.imemLog, run(k).input.imemResp)
  }

  /** The address after a packet: its redirect target, word-aligned, if it executed and redirected. */
  function NextPc(p: Packet): bv64 { Successor(p.pc, p.outcome) }

  /** The address to fetch after some packets. */
  function Expected(ps: seq<Packet>): bv64 { if ps == [] then RESET_VECTOR else NextPc(ps[|ps| - 1]) }

  /** The packets follow the path from the reset vector, and each is the program's word. */
  ghost predicate OnPath(prog: Program, ps: seq<Packet>) {
    forall k :: 0 <= k < |ps| ==> ps[k].pc == Expected(ps[..k]) && ps[k].inst == prog(ps[k].pc)
  }

  /** The frontend waits for, or will next request, the expected address. */
  ghost predicate FrontendOk(f: Frontend, log: seq<ImemRequest>, expected: bv64, redirecting: bool) {
    && !f.flush && !f.responseReceived && f.fetchId == |log|
    && (forall j :: 0 <= j < |log| ==> log[j].fetchId == j)
    && (f.requestSent ==> f.resetDone && |log| > 0 && f.pendingId == |log| - 1)
    && (!f.resetDone ==> log == [] && expected == RESET_VECTOR && !redirecting)
    && (!redirecting && f.requestSent ==> log[|log| - 1].address == expected)
    && (!redirecting && !f.requestSent && f.resetDone ==> f.pc == expected)
  }

  lemma RedirectKeeps(f: Frontend, br: BranchUpdate, log: seq<ImemRequest>, expected: bv64)
    requires FrontendOk(f, log, expected, br.valid && br.mispredict)
    requires br.valid && br.mispredict ==> Align4(br.target) == expected
    ensures var g := FetchRedirect(f, br, false);
            && FrontendOk(g, log, expected, false) && g.resetDone
            && (if br.valid && br.mispredict then !g.requestSent else g.requestSent == f.requestSent)
  {
    hide Align4;
  }

  lemma FlushKeepsNothing(f: Frontend, br: BranchUpdate, log: seq<ImemRequest>, expected: bv64)
    requires FrontendOk(f, log, expected, false)
    ensures var g := FetchFlush(f, br); g == f.(packetValid := g.packetValid) && FrontendOk(g, log, expected, false)
  {
    hide Align4;
  }

  lemma RequestKeeps(f: Frontend, log: seq<ImemRequest>, expected: bv64, room: bool)
    requires FrontendOk(f, log, expected, false) && f.resetDone
    ensures var g, log' := FetchRequest(f, room), if !f.requestSent && room then log + [ImemRequest(f.pc, f.fetchId)] else log;
            && FrontendOk(g, log', expected, false) && g.resetDone
            && (g.requestSent && !f.requestSent ==> g.pendingId == |log|) && (f.requestSent ==> g == f && log' == log)
  {
  }

  /** Only the answer to the request already outstanding can be accepted, and becomes the packet. */
  lemma AcceptKeeps(prog: Program, f: Frontend, log: seq<ImemRequest>, sent: bool, before: seq<ImemRequest>, expected: bv64, resp: Option<ImemResponse>)
    requires FrontendOk(f, log, expected, false) && f.resetDone && HonestResponse(prog, before, resp)
    requires if sent then log == before else f.requestSent ==> f.pendingId == |before|
    ensures var g := FetchPacket(FetchAccept(f, resp));
            && g.resetDone && (g.packetValid ==> sent && g.packetPc == expected && g.packetInst == prog(expected))
            && FrontendOk(g, log, if g.packetValid then Plus4(expected) else expected, false)
  {
    hide Plus4;
    var a := FetchAccept(f, resp);
    if a.responseReceived {
      assert sent && resp.value.address == expected && resp.value.instruction == prog(expected);
    }
  }

  /** The frontend's part of a step outside an exception. */
  function FetchStep(f: Frontend, br: BranchUpdate, i: StepIn): Frontend {
    FetchPacket(FetchAccept(FetchRequest(FetchFlush(FetchRedirect(f, br, false), br), i.imemRoom), i.imemResp))
  }

  lemma FetchStepIs(s: Core, i: StepIn)
    requires !s.globalFlush && s.rob.state != RobException
    ensures Fetched(s, i) == FetchStep(s.fe, s.br, i)
    ensures var f2 := FetchFlush(FetchRedirect(s.fe, s.br, false), s.br);
            FrontendStage(s, i).imemLog == if !f2.requestSent && i.imemRoom then s.imemLog + [ImemRequest(f2.pc, f2.fetchId)] else s.imemLog
  {
    hide FetchRedirect, FetchFlush, FetchRequest, FetchAccept, FetchPacket, Redirecting;
  }

  lemma TrappedFetch(s: Core, i: StepIn)
    requires !s.globalFlush && s.rob.state == RobException
    ensures Fetched(s, i) == FetchRedirect(s.fe, s.br, false).(packetValid := false) && FrontendStage(s, i).imemLog == s.imemLog
  {
    hide FetchRedirect, Redirecting;
  }

  /** One step of the frontend accepts only the answer to the newest request, never in a redirect step. */
  lemma FrontendStep(prog: Program, s: Core, i: StepIn, expected: bv64)
    requires !s.globalFlush && FrontendOk(s.fe, s.imemLog, expected, Redirecting(s))
    requires HonestResponse(prog, s.imemLog, i.imemResp)
    requires Redirecting(s) ==> Align4(s.br.target) == expected
    ensures var f, log := FrontendStage(s, i).fe, FrontendStage(s, i).imemLog;
            && f.resetDone
            && (f.packetValid ==> !Redirecting(s) && s.fe.requestSent && s.rob.state != RobException
                                  && f.packetPc == expected && f.packetInst == prog(expected))
            && FrontendOk(f, log, if f.packetValid then Plus4(expected) else expected, false)
  {
    hide Align4, Plus4, FetchRedirect, FetchFlush, FetchRequest, FetchAccept, FetchPacket, HonestResponse,
         FrontendStage;
    var f1 := FetchRedirect(s.fe, s.br, false);
    RedirectKeeps(s.fe, s.br, s.imemLog, expected);
    if s.rob.state == RobException {
      TrappedFetch(s, i);
      assert FrontendOk(f1.(packetValid := false), s.imemLog, expected, false);
    } else {
      FetchStepIs(s, i);
      var f2 := FetchFlush(f1, s.br);
      FlushKeepsNothing(f1, s.br, s.imemLog, expected);
      RequestKeeps(f2, s.imemLog, expected, i.imemRoom);
      AcceptKeeps(prog, FetchRequest(f2, i.imemRoom), FrontendStage(s, i).imemLog, f2.requestSent, s.imemLog, expected, i.imemResp);
      assert f2.requestSent ==> !Redirecting(s) && s.fe.requestSent;
    }
  }

  ghost predicate FetchOk(prog: Program, y: Sys) {
    && OnPath(prog, y.hist.fetched)
    && FrontendOk(y.core.fe, y.core.imemLog, Expected(y.hist.fetched), WantsRedirect(y.core.alu))
    && (y.core.alu.valid ==> y.hist.fetched != [] && y.hist.fetched[|y.hist.fetched| - 1].outcome == y.core.alu)
  }

  lemma ExpectedRedirect(prog: Program, y: Sys)
    requires FetchOk(prog, y) && WantsRedirect(y.core.alu)
    ensures Expected(y.hist.fetched) == Align4(y.core.alu.redirectPc)
  {
  }

  /** The state at fetch differs from the step boundary in nothing the frontend looks at. */
  lemma AtFetchFrontend(y: Sys, i: StepIn)
    ensures var l := AtFetch(y, i);
            && l.core.fe == y.core.fe && l.core.imemLog == y.core.imemLog && l.core.alu == y.core.alu && !l.core.globalFlush
            && l.hist.fetched == y.hist.fetched && l.core.rob.state == y.core.rob.state
            && (Redirecting(l.core) <==> WantsRedirect(y.core.alu))
            && (WantsRedirect(y.core.alu) ==> l.core.br.target == y.core.alu.redirectPc)
  {
    hide AfterBranch, LsuRespond, LsuEnqueue, LsuIssue, IssuesLoad, LoadEvent, FirstLoad;
    var a := AfterBranch(y.core);
    BranchFrame(y.core);
    RespondFrame(a, i.dmemResp);
    EnqueueFrame(LsuRespond(a, i.dmemResp));
    LsuIssueFrame(LsuReady(a, i), i);
  }

  lemma StepFetch(prog: Program, y: Sys, i: StepIn)
    requires Sound(y) && FetchOk(prog, y) && HonestResponse(prog, y.core.imemLog, i.imemResp)
    ensures FetchOk(prog, SysStep(y, i))
    ensures var l := AtFetch(y, i).core;
            Fetched(l, i).packetValid ==> !Redirecting(l) && y.core.fe.requestSent && y.core.rob.state != RobException
                                          && Fetched(l, i).packetPc == Expected(y.hist.fetched)
                                          && Fetched(l, i).packetInst == prog(Expected(y.hist.fetched))
  {
    hide ResidentsOk, IsYoungest, Packed, AtFetch, Middle, Allocates, FrontendOk, CommitHist, CommitStage,
         FrontendStage, NextPc;
    var l := AtFetch(y, i);
    LsuKeeps(y, i);
    AtFetchFrontend(y, i);
    if WantsRedirect(y.core.alu) {
      ExpectedRedirect(prog, y);
    }
    FrontendStep(prog, l.core, i, Expected(y.hist.fetched));
    MiddleFetch(prog, l, i);
    CommitFetch(prog, MiddleSys(l, i), i);
  }

  /** The packet, if any, extends the path; otherwise nothing is expected but what was. */
  lemma MiddleFetch(prog: Program, l: Sys, i: StepIn)
    requires ResidentsOk(l.core.rob, l.hist, false) && !l.core.globalFlush && QueueEmpty(l.core.iss) && OnPath(prog, l.hist.fetched)
    requires var f, e := Fetched(l.core, i), Expected(l.hist.fetched);
             && FrontendOk(f, FrontendStage(l.core, i).imemLog, if f.packetValid then Plus4(e) else e, false) && f.resetDone
             && (f.packetValid ==> f.packetPc == e && f.packetInst == prog(e))
    ensures FetchOk(prog, MiddleSys(l, i))
  {
    hide ResidentsOk, Packed, FrontendStage, Middle, Allocates, WantsRedirect, OnPath, Expected, FrontendOk, NextPc;
    var m, ps, f := MiddleSys(l, i), l.hist.fetched, Fetched(l.core, i);
    MiddleOutcome(l, i);
    NoResult();
    if f.packetValid {
      var p := Packet(f.packetPc, f.packetInst, m.core.alu);
      PathAppend(prog, ps, p);
      NextPcCases(p);
      FrontendRedirects(f, m.core.imemLog, Plus4(Expected(ps)), NextPc(p));
    }
  }

  lemma MiddleOutcome(l: Sys, i: StepIn)
    requires !l.core.globalFlush && QueueEmpty(l.core.iss)
    ensures var m, f := MiddleSys(l, i), Fetched(l.core, i);
            && m.core.fe == f && m.core.imemLog == FrontendStage(l.core, i).imemLog
            && m.hist.fetched == (if f.packetValid then l.hist.fetched + [Packet(f.packetPc, f.packetInst, m.core.alu)] else l.hist.fetched)
            && (!f.packetValid ==> m.core.alu == NO_RESULT)
  {
    hide Packed, FrontendStage, Middle, Allocates, ResultOf, PlacedUop, RenamedUop;
    if !Fetched(l.core, i).packetValid {
      IdleMiddle(l.core, i);
    } else if RobFull(l.core.rob) {
      DroppedMiddle(l.core, i);
    } else {
      FlowThrough(l.core, i);
    }
  }

  lemma NextPcCases(p: Packet)
    ensures NextPc(p) == if WantsRedirect(p.outcome) then Align4(p.outcome.redirectPc) else Plus4(p.pc)
  {
  }

  lemma PathAppend(prog: Program, ps: seq<Packet>, p: Packet)
    requires OnPath(prog, ps) && p.pc == Expected(ps) && p.inst == prog(p.pc)
    ensures OnPath(prog, ps + [p]) && Expected(ps + [p]) == NextPc(p)
  {
    hide NextPc;
    var all := ps + [p];
    assert all[..|ps|] == ps;
    assert forall k :: 0 <= k < |ps| ==> all[..k] == ps[..k];
  }

  /** With a redirect pending, what the frontend has requested no longer matters. */
  lemma FrontendRedirects(f: Frontend, log: seq<ImemRequest>, e: bv64, e': bv64)
    requires FrontendOk(f, log, e, false) && f.resetDone
    ensures FrontendOk(f, log, e', true)
  {
  }

  lemma NoResult()
    ensures !WantsRedirect(NO_RESULT)
  {
  }

  lemma CommitFetch(prog: Program, y: Sys, i: StepIn)
    requires FetchOk(prog, y)
    ensures FetchOk(prog, CommitSys(y, i))
  {
    hide CommitStage, FrontendOk, OnPath, HeadActionOf, StoreEvent, Pdsts, BeforeCommitHead;
    CommitFrame(y.core, i);
  }

  lemma {:induction false} RunFetches(prog: Program, run: Run, n: nat)
    requires HonestImem(prog, run, n)
    ensures FetchOk(prog, run(n).sys)
  {
    hide SysStep, FetchOk, Sound, HonestResponse, Reset;
    if n == 0 {
      RunStart(run);
      ResetFetches(prog);
    } else {
      RunStep(run, n - 1);
      RunFetches(prog, run, n - 1);
      RunIsSound(run, n - 1);
      StepFetch(prog, run(n - 1).sys, run(n - 1).input);
    }
  }

  lemma ResetFetches(prog: Program)
    ensures FetchOk(prog, Reset())
  {
  }

  predicate WordAddress(a: bv64) { a & 3 == 0 }

  lemma SuccessorAligned(a: bv64)
    ensures WordAddress(Align4(a)) && (WordAddress(a) ==> WordAddress(Plus4(a)))
  {
  }

  lemma {:induction false} PathAligned(prog: Program, ps: seq<Packet>, k: nat)
    requires OnPath(prog, ps) && k < |ps|
    ensures WordAddress(ps[k].pc)
  {
    hide WordAddress, Align4, Plus4, WantsRedirect;
    if k == 0 {
      assert ps[..0] == [];
      ResetAligned();
    } else {
      PathAligned(prog, ps, k - 1);
      NextPcCases(ps[k - 1]);
      SuccessorAligned(ps[k - 1].outcome.redirectPc);
      SuccessorAligned(ps[k - 1].pc);
      assert ps[..k][k - 1] == ps[k - 1];
    }
  }

  lemma ResetAligned()
    ensures WordAddress(RESET_VECTOR)
  {
  }

  /** No wrong-path packet is ever decoded: in every run with an honest instruction memory, any
      latency, stale or unknown responses included, the packets start at 0x10040 and each one is the
      program's word at the address the previous one leads to, always a multiple of four. */
  lemma NoWrongPathPacket(prog: Program, run: Run, n: nat)
    requires HonestImem(prog, run, n)
    ensures var ps := run(n).sys.hist.fetched;
            && OnPath(prog, ps) && (ps != [] ==> ps[0].pc == 0x10040)
            && forall k :: 0 <= k < |ps| ==> ps[k].pc & 3 == 0
  {
    hide HonestImem, NextPc;
    RunFetches(prog, run, n);
    var ps := run(n).sys.hist.fetched;
    assert ps[..0] == [];
    forall k | 0 <= k < |ps|
      ensures WordAddress(ps[k].pc)
    {
      PathAligned(prog, ps, k);
    }
  }

  // ---- What the path says about single steps

  /** A packet is always the answer to the newest request, made in an earlier step. */
  lemma PacketAnswersNewest(prog: Program, run: Run, n: nat)
    requires HonestImem(prog, run, n + 1)
    ensures var y, i := run(n).sys, run(n).input;
            Fetched(AtFetch(y, i).core, i).packetValid ==>
              && y.core.imemLog != [] && i.imemResp.Some?
              && i.imemResp.value.fetchId == |y.core.imemLog| - 1 == y.core.imemLog[|y.core.imemLog| - 1].fetchId
  {
    hide OnPath, Packed, AtFetch, FrontendStage, HonestResponse, Sound, NextPc, Expected;
    var y, i := run(n).sys, run(n).input;
    RunFetches(prog, run, n);
    RunIsSound(run, n);
    StepFetch(prog, y, i);
    AtFetchFrontend(y, i);
    if Fetched(AtFetch(y, i).core, i).packetValid {
      AcceptedId(AtFetch(y, i).core, i);
    }
  }

  lemma AcceptedId(s: Core, i: StepIn)
    requires !s.globalFlush && Fetched(s, i).packetValid && !Redirecting(s) && s.fe.requestSent && s.rob.state != RobException
    requires !s.fe.flush && !s.fe.responseReceived && s.fe.resetDone
    ensures i.imemResp.Some? && i.imemResp.value.fetchId == s.fe.pendingId
  {
    hide Redirecting, Plus4, Align4;
    assert FetchRedirect(s.fe, s.br, s.globalFlush) == s.fe by { NoRedirect(s); }
    var f := FetchFlush(s.fe, s.br);
    assert f == s.fe.(packetValid := f.packetValid) && FetchRequest(f, i.imemRoom) == f;
    hide FetchRedirect, FetchFlush, FetchRequest;
    assert Fetched(s, i) == FetchPacket(FetchAccept(f, i.imemResp));
  }

  lemma NoRedirect(s: Core)
    requires !Redirecting(s)
    ensures !(s.br.valid && s.br.mispredict)
  {
  }

  // ---- Redirects

  /** A step without a packet recovers the speculative map on a redirect. */
  lemma RecoversMap(l: Sys, i: StepIn)
    requires !l.core.globalFlush && QueueEmpty(l.core.iss) && Redirecting(l.core) && !Fetched(l.core, i).packetValid
    ensures var r := CommitSys(MiddleSys(l, i), i).core.ren; r.table == r.committed
  {
    hide Packed, FrontendStage, Middle, FlushRob, CommitHist;
    IdleMiddle(l.core, i);
  }

  /** In every run a redirect step ends with the reorder buffer empty, and with an honest instruction memory
      the speculative map is the committed one again, whatever renaming met before. */
  lemma RedirectRecovers(prog: Program, run: Run, n: nat)
    requires WantsRedirect(run(n).sys.core.alu)
    ensures var s := run(n + 1).sys.core; RobEmpty(s.rob) && (HonestImem(prog, run, n + 1) ==> s.ren.table == s.ren.committed)
  {
    hide SysStep, AtFetch, MiddleSys, CommitSys, FetchOk, Packed, ResidentsOk, IsYoungest, WantsRedirect,
         FrontendStage, HonestResponse;
    var y, i := run(n).sys, run(n).input;
    RunIsSound(run, n);
    RunStep(run, n);
    RedirectEmpties(y, i);
    if HonestImem(prog, run, n + 1) {
      RunFetches(prog, run, n);
      StepFetch(prog, y, i);
      LsuKeeps(y, i);
      AtFetchFrontend(y, i);
      RecoversMap(AtFetch(y, i), i);
      assert SysStep(y, i) == CommitSys(MiddleSys(AtFetch(y, i), i), i) by { StepIs(y, i); }
    }
  }

  lemma StepIs(y: Sys, i: StepIn)
    ensures SysStep(y, i) == CommitSys(MiddleSys(AtFetch(y, i), i), i)
  {
    hide AtFetch, MiddleSys, CommitSys;
  }

  /** In the first n steps every packet that takes a register finds room. */
  ghost predicate RoomyRun(run: Run, n: nat) {
    forall k :: 0 <= k < n ==> RoomyStep(AtFetch(run(k).sys, run(k).input).core, run(k).input)
  }

  lemma RoomyIsSafe(prog: Program, run: Run, n: nat)
    requires HonestImem(prog, run, n) && RoomyRun(run, n)
    ensures SafeRun(run, n)
  {
    hide HonestResponse, AtFetch, RoomyStep, Sound, FetchOk, SysStep, Fetched;
    forall k | 0 <= k < n
      ensures SafeStep(AtFetch(run(k).sys, run(k).input).core, run(k).input)
    {
      RunFetches(prog, run, k);
      RunIsSound(run, k);
      StepFetch(prog, run(k).sys, run(k).input);
      assert RoomyStep(AtFetch(run(k).sys, run(k).input).core, run(k).input);
    }
  }

  /** With an honest instruction memory that suffices: the maps and the free list are sound. */
  lemma RenamingStaysSound(prog: Program, run: Run, n: nat)
    requires HonestImem(prog, run, n) && RoomyRun(run, n)
    ensures RenamingSound(run(n).sys)
  {
    hide RenamingSound, HonestResponse, RoomyStep, SafeRun, AtFetch;
    RoomyIsSafe(prog, run, n);
    RenamingIsSound(run, n);
  }

  /** And it is necessary: in such a run what a step leaves after renaming a uop that takes a register is sound
      exactly if the packet found room. */
  lemma RenamingNeedsRoom(prog: Program, run: Run, n: nat)
    requires HonestImem(prog, run, n + 1) && RoomyRun(run, n)
    ensures var l, i := AtFetch(run(n).sys, run(n).input), run(n).input;
            TakesRegister(l.core, i) ==> (RenameSound(MiddleSys(l, i)) <==> RoomyStep(l.core, i))
  {
    hide HonestResponse, AtFetch, MiddleSys, RoomyStep, FetchOk, SysStep, FrontendStage, NeedsRegister, DecodeInst,
         ResidentsOk, IsYoungest, RenameOk;
    var y, i := run(n).sys, run(n).input;
    RoomyIsSafe(prog, run, n);
    RunIsRenameSound(run, n);
    RunFetches(prog, run, n);
    RunIsSound(run, n);
    StepFetch(prog, y, i);
    LsuKeeps(y, i);
    AtFetchRename(y, i);
    assert Residents(AtFetch(y, i).hist) == Residents(y.hist);
    if TakesRegister(AtFetch(y, i).core, i) {
      RoomIsNeeded(AtFetch(y, i), i);
    }
  }
}
