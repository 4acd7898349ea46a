/** The agreement between the pipeline and the sequential machine, stage by stage: what has left the reorder
    buffer is what the machine has executed, and what is in it is what the machine executes next. */
module Refinement {
  import opened BoomTypes
  import opened Decode
  import opened Execute
  import opened Pipeline
  import opened Frames
  import opened RobWindow
  import opened IssueQueue
  import opened History
  import opened Flow
  import opened Residency
  import opened RobFifo
  import opened MemOrder
  import opened RenameMaps
  import opened Fetch
  import opened Memory
  import opened Reference

  /** Each architectural register is in the physical register the committed map names. */
  ghost predicate RegsMatch(rf: seq<bv64>, committed: seq<nat>, regs: seq<bv64>) {
    && |rf| == INT_PHYS_REGS && |committed| == |regs| == LOGICAL_REG_COUNT
    && forall l: nat :: l < LOGICAL_REG_COUNT ==> ReadReg(rf, At(committed, l)) == Reg(regs, l)
  }

  /** The physical register, if there is one, holds the value. */
  predicate Holds(rf: seq<bv64>, p: nat, v: bv64) { p != 0 ==> ReadReg(rf, p) == v }

  /** A renamed uop and the architectural uop it stands for. */
  ghost predicate Renames(u: MicroOp, d: MicroOp) {
    && u == d.(robIdx := u.robIdx, rename := u.rename)
    && u.rename.dst == d.rename.dst && (u.rename.pdst != 0 <==> NeedsRegister(d.rename))
    && u.rename.ldst == if NeedsRegister(d.rename) then d.rename.ldst else 0
  }

  /** The uop in flight has the result the machine's instruction has. */
  ghost predicate InFlight(q: AluResult, r: AluResult) {
    && r == q.(uop := r.uop) && Renames(r.uop, q.uop)
    && r.uop.rename.pdst < INT_PHYS_REGS
  }

  /** The destination holds the result; for a load, as soon as it is answered. */
  ghost predicate ValueReady(rf: seq<bv64>, e: RobEntry, r: AluResult, mem: Mem) {
    if r.isLoad then
      e.completed && !e.exception ==> e.data == Loaded(r, mem) && Holds(rf, r.uop.rename.pdst, Loaded(r, mem))
    else Holds(rf, r.uop.rename.pdst, r.result)
  }

  // ---- What is in flight

  /** Nothing stops the uop from retiring: it raises no exception but ECALL, and no fault was reported for
      its load. */
  ghost predicate Goes(e: RobEntry, r: AluResult) {
    (r.uop.exception ==> r.uop.uopc == UOPC_ECALL) && (r.isLoad ==> !e.exception)
  }

  /** Nothing stops the n oldest. */
  ghost predicate Live(w: seq<RobEntry>, rs: seq<AluResult>, n: nat)
    requires |w| == |rs| && n <= |w|
  {
    forall j :: 0 <= j < n ==> Goes(w[j], rs[j])
  }

  /** The uop is the machine's next instruction after n of them, and its value is where it belongs. */
  ghost predicate Follows(course: Course, rf: seq<bv64>, n: nat, e: RobEntry, r: AluResult) {
    var s := course(n).machine;
    !s.stopped && InFlight(course(n).next, r) && ValueReady(rf, e, r, s.arch.mem)
  }

  /** Each resident with nothing stopped before it is the machine's instruction at its place. */
  ghost predicate FlightOk(course: Course, rf: seq<bv64>, w: seq<RobEntry>, rs: seq<AluResult>, base: nat) {
    && |w| == |rs|
    && (forall k {:trigger Live(w, rs, k)} :: 0 <= k < |w| && Live(w, rs, k) ==> Follows(course, rf, base + k, w[k], rs[k]))
  }

  /** With nothing stopped, the next address to fetch is the machine's after all residents. */
  ghost predicate PathOk(course: Course, w: seq<RobEntry>, rs: seq<AluResult>, base: nat, expected: bv64) {
    && |w| == |rs|
    && (Live(w, rs, |w|) ==> !course(base + |w|).machine.stopped && expected == course(base + |w|).machine.arch.pc)
  }

  /** With `n` uops gone, all of them committed or retired, the architectural state agrees with the machine
      after n instructions. */
  ghost predicate ArchOk(course: Course, rf: seq<bv64>, committed: seq<nat>, log: seq<DmemRequest>, h: Hist) {
    var s := course(|h.fates|).machine;
    && h.dead == multiset{} && !s.stopped && h.commits == s.trace
    && RegsMatch(rf, committed, s.arch.regs) && MemAfter(Origin(course), log) == s.arch.mem
  }

  ghost predicate Aligned(course: Course, rf: seq<bv64>, committed: seq<nat>, log: seq<DmemRequest>, w: seq<RobEntry>, h: Hist) {
    && |h.fates| <= |h.alloc|
    && ArchOk(course, rf, committed, log, h)
    && FlightOk(course, rf, w, Residents(h), |h.fates|)
    && PathOk(course, w, Residents(h), |h.fates|, Expected(h.fetched))
  }

  ghost predicate CoreAligned(course: Course, y: Sys) {
    Pointers(y.core.rob) && Aligned(course, y.core.rf, y.core.ren.committed, y.core.dmemLog, Window(y.core.rob), y.hist)
  }

  // ---- The environment

  /** A response answers its request from the memory as it is after the stores requested before it, or
      reports an exception; ids that were never issued, or are stale, may come with anything. */
  ghost predicate HonestData(m0: Mem, log: seq<DmemRequest>, resp: Option<DmemResponse>) {
    resp.Some? && !resp.value.exception ==>
      forall p :: 0 <= p < |log| && !log[p].isStore && log[p].txId == resp.value.txId ==>
        Carries(resp.value, ReadBeat(MemAfter(m0, log[..p]), log[p].address))
  }

  // ---- Registers

  lemma RegsMatchWrite(rf: seq<bv64>, committed: seq<nat>, regs: seq<bv64>, p: nat, v: bv64)
    requires RegsMatch(rf, committed, regs) && p !in Regs(committed) && p < INT_PHYS_REGS
    ensures RegsMatch(WriteReg(rf, p, v), committed, regs) && Holds(WriteReg(rf, p, v), p, v)
  {
    forall l: nat | l < LOGICAL_REG_COUNT
      ensures ReadReg(WriteReg(rf, p, v), At(committed, l)) == Reg(regs, l)
    {
      if p != 0 {
        assert p !in committed;
      }
    }
  }

  lemma RegsMatchCommit(rf: seq<bv64>, committed: seq<nat>, regs: seq<bv64>, l: nat, p: nat, v: bv64)
    requires RegsMatch(rf, committed, regs) && p != 0 && l < LOGICAL_REG_COUNT && Holds(rf, p, v)
    ensures RegsMatch(rf, Put(committed, l, p), SetReg(regs, l, v))
  {
    forall j: nat | j < LOGICAL_REG_COUNT
      ensures ReadReg(rf, At(Put(committed, l, p), j)) == Reg(SetReg(regs, l, v), j)
    {
      assert ReadReg(rf, At(committed, j)) == Reg(regs, j);
    }
  }

  /** A write to a register that neither the committed map nor an earlier result occupies. */
  lemma HoldsOther(rf: seq<bv64>, p: nat, v: bv64, q: nat, x: bv64)
    requires q == 0 || p != q
    ensures Holds(WriteReg(rf, p, v), q, x) <==> Holds(rf, q, x)
  {
  }

  /** The load has no answer to hold yet, or a fault. */
  predicate Valueless(e: RobEntry, r: AluResult) { r.isLoad && (!e.completed || e.exception) }

  lemma ReadyOther(rf: seq<bv64>, p: nat, v: bv64, e: RobEntry, r: AluResult, mem: Mem)
    requires r.uop.rename.pdst == 0 || r.uop.rename.pdst != p || Valueless(e, r)
    ensures ValueReady(WriteReg(rf, p, v), e, r, mem) <==> ValueReady(rf, e, r, mem)
  {
    hide Loaded, WriteReg, Holds;
    if r.uop.rename.pdst == 0 || r.uop.rename.pdst != p {
      HoldsOther(rf, p, v, r.uop.rename.pdst, r.result);
      HoldsOther(rf, p, v, r.uop.rename.pdst, Loaded(r, mem));
    }
  }

  /** A register write that hits no result in flight. */
  lemma FlightOther(course: Course, rf: seq<bv64>, w: seq<RobEntry>, rs: seq<AluResult>, base: nat, p: nat, v: bv64)
    requires FlightOk(course, rf, w, rs, base)
    requires forall k :: 0 <= k < |w| ==> rs[k].uop.rename.pdst == 0 || rs[k].uop.rename.pdst != p || Valueless(w[k], rs[k])
    ensures FlightOk(course, WriteReg(rf, p, v), w, rs, base)
  {
    hide Live, ValueReady, InFlight, WriteReg, Valueless;
    forall k | 0 <= k < |w| && Live(w, rs, k)
      ensures Follows(course, WriteReg(rf, p, v), base + k, w[k], rs[k])
    {
      ReadyOther(rf, p, v, w[k], rs[k], course(base + k).machine.arch.mem);
    }
  }

  /** The physical registers of committed uops and of those in flight are all different. */
  lemma RegistersApart(ren: Rename, rs: seq<AluResult>, dead: multiset<nat>, k: nat)
    requires Conserved(ren, rs, dead) && k < |rs| && rs[k].uop.rename.pdst != 0
    ensures rs[k].uop.rename.pdst !in Regs(ren.committed) && rs[k].uop.rename.pdst < INT_PHYS_REGS
    ensures forall j :: 0 <= j < |rs| && j != k ==> rs[j].uop.rename.pdst != rs[k].uop.rename.pdst
  {
    hide Pool, Regs, Free;
    var p := rs[k].uop.rename.pdst;
    PdstsAt(rs, k);
    PoolIsSet(p);
    assert (multiset(Free(ren)) + Regs(ren.committed) + Pdsts(rs) + dead)[p] == Pool()[p];
    forall j | 0 <= j < |rs| && j != k
      ensures rs[j].uop.rename.pdst != p
    {
      if rs[j].uop.rename.pdst == p {
        PdstsTwice(rs, if j < k then j else k, if j < k then k else j);
      }
    }
  }

  lemma {:induction false} PdstsAt(rs: seq<AluResult>, k: nat)
    requires k < |rs| && rs[k].uop.rename.pdst != 0
    ensures Pdsts(rs)[rs[k].uop.rename.pdst] >= 1
  {
    if k > 0 {
      PdstsAt(rs[1..], k - 1);
    }
  }

  lemma {:induction false} PdstsTwice(rs: seq<AluResult>, j: nat, k: nat)
    requires j < k < |rs| && rs[j].uop.rename.pdst == rs[k].uop.rename.pdst != 0
    ensures Pdsts(rs)[rs[k].uop.rename.pdst] >= 2
  {
    if j == 0 {
      PdstsAt(rs[1..], k - 1);
    } else {
      PdstsTwice(rs[1..], j - 1, k - 1);
    }
  }

  // ---- Changes to what is in flight

  lemma LiveMonotone(w: seq<RobEntry>, w': seq<RobEntry>, rs: seq<AluResult>, n: nat)
    requires |w| == |w'| == |rs| && n <= |w| && Live(w', rs, n)
    requires forall j :: 0 <= j < n ==> (Goes(w'[j], rs[j]) ==> Goes(w[j], rs[j]))
    ensures Live(w, rs, n)
  {
    hide Goes;
  }

  /** A resident's entry changes, and keeps its value if it had one. */
  lemma EntryChange(course: Course, rf: seq<bv64>, w: seq<RobEntry>, rs: seq<AluResult>, base: nat, expected: bv64, k: nat, e: RobEntry)
    requires FlightOk(course, rf, w, rs, base) && PathOk(course, w, rs, base, expected) && k < |w|
    requires Goes(e, rs[k]) ==> Goes(w[k], rs[k])
    requires Live(w, rs, k) ==> Follows(course, rf, base + k, e, rs[k])
    ensures FlightOk(course, rf, w[k := e], rs, base) && PathOk(course, w[k := e], rs, base, expected)
  {
    hide Follows, Goes, Live;
    var w' := w[k := e];
    forall n | 0 <= n <= |w| && Live(w', rs, n)
      ensures Live(w, rs, n)
    {
      LiveMonotone(w, w', rs, n);
    }
  }

  /** A new youngest resident. */
  lemma FlightAdd(course: Course, rf: seq<bv64>, w: seq<RobEntry>, rs: seq<AluResult>, base: nat, e: RobEntry, r: AluResult)
    requires FlightOk(course, rf, w, rs, base)
    requires Live(w, rs, |w|) ==> Follows(course, rf, base + |w|, e, r)
    ensures FlightOk(course, rf, w + [e], rs + [r], base)
  {
    hide Follows, Goes, Live;
    forall n | 0 <= n <= |w| && Live(w + [e], rs + [r], n)
      ensures Live(w, rs, n)
    {
      LivePrefix(w, rs, e, r, n);
    }
  }

  lemma LivePrefix(w: seq<RobEntry>, rs: seq<AluResult>, e: RobEntry, r: AluResult, n: nat)
    requires |w| == |rs| && n <= |w|
    ensures Live(w + [e], rs + [r], n) <==> Live(w, rs, n)
    ensures Live(w + [e], rs + [r], |w| + 1) <==> Live(w, rs, |w|) && Goes(e, r)
  {
    hide Goes;
    assert (w + [e])[|w|] == e && (rs + [r])[|w|] == r;
    assert forall j :: 0 <= j < |w| ==> (w + [e])[j] == w[j] && (rs + [r])[j] == rs[j];
  }

  lemma LiveRest(w: seq<RobEntry>, rs: seq<AluResult>, n: nat)
    requires |w| == |rs| && n < |w| && Goes(w[0], rs[0])
    ensures Live(w[1..], rs[1..], n) <==> Live(w, rs, n + 1)
  {
    hide Goes;
    if Live(w[1..], rs[1..], n) {
      assert forall j :: 0 < j < n + 1 ==> w[j] == w[1..][j - 1] && rs[j] == rs[1..][j - 1];
    }
    if Live(w, rs, n + 1) {
      assert forall j :: 0 <= j < n ==> w[1..][j] == w[j + 1] && rs[1..][j] == rs[j + 1];
    }
  }

  /** The oldest resident leaves. */
  lemma FlightDrop(course: Course, rf: seq<bv64>, w: seq<RobEntry>, rs: seq<AluResult>, base: nat, expected: bv64)
    requires FlightOk(course, rf, w, rs, base) && PathOk(course, w, rs, base, expected) && |w| > 0 && Goes(w[0], rs[0])
    ensures FlightOk(course, rf, w[1..], rs[1..], base + 1) && PathOk(course, w[1..], rs[1..], base + 1, expected)
  {
    hide Follows, Goes, Live;
    forall k | 0 <= k < |w| - 1 && Live(w[1..], rs[1..], k)
      ensures Follows(course, rf, base + 1 + k, w[1..][k], rs[1..][k])
    {
      LiveRest(w, rs, k);
      assert Follows(course, rf, base + (k + 1), w[k + 1], rs[k + 1]);
    }
    if Live(w[1..], rs[1..], |w| - 1) {
      LiveRest(w, rs, |w| - 1);
    }
  }

  // ---- The machine's step

  /** What the machine does with the instruction in flight. */
  lemma MachineStep(course: Course, n: nat, r: AluResult)
    requires !course(n).machine.stopped && InFlight(course(n).next, r)
    ensures var s, q := course(n).machine, course(n).next;
            course(n + 1).machine ==
              if !r.uop.exception then
                s.(arch := Arch(Successor(s.arch.pc, r), Written(q, s.arch), Stored(r, s.arch.mem)), trace := s.trace + [Record(q, s.arch.mem)])
              else if r.uop.uopc == UOPC_ECALL then s.(arch := s.arch.(pc := Successor(s.arch.pc, r)))
              else s.(stopped := true)
  {
    hide Write, Align4, Plus4, Record, Written;
    assert Continues(course, n);
  }

  // ---- The load/store unit

  /** The request of a resident load: no store is older than the load and resident, and none was sent after it. */
  lemma SentRequest(lsu: Lsu, log: seq<DmemRequest>, w: seq<RobEntry>, h: Hist, k: nat) returns (p: nat)
    requires MemOk(lsu, log, w, h) && k < |w| && Residents(h)[k].isLoad && w[k].requestSent
    ensures p < |log| && log[p].txId == w[k].txId && log[p].address == Residents(h)[k].address
    ensures forall q :: p <= q < |log| ==> !log[q].isStore
    ensures forall j :: 0 <= j < k ==> !Residents(h)[j].isStore
  {
    hide Requested, HandshakeOk, InOrder;
    p :| 0 <= p < |h.mem| && h.mem[p].seqNo == |h.fates| + k && !h.mem[p].req.isStore && h.mem[p].req.txId == w[k].txId;
    assert EventOk(h.mem[p], h.alloc, h.fates) && log[p] == h.mem[p].req;
    forall j | 0 <= j < k
      ensures !Residents(h)[j].isStore
    {
      SentBefore(w, Residents(h), |h.fates|, h.mem, j, p);
    }
    LaterLoads(log, h, p);
  }

  /** What has been sent is older than a resident store. */
  lemma SentBefore(w: seq<RobEntry>, rs: seq<AluResult>, base: nat, mem: seq<MemEvent>, j: nat, p: nat)
    requires PendingOk(w, rs, base, mem) && j < |w| && p < |mem|
    ensures rs[j].isStore ==> mem[p].seqNo < base + j
  {
    hide RequestedAs;
    assert rs[j].isStore ==> Unsent(w, rs, j);
  }

  /** After a request of a resident uop only loads have been sent. */
  lemma LaterLoads(log: seq<DmemRequest>, h: Hist, p: nat)
    requires InOrder(h.mem) && Streamed(log, h.mem) && p < |h.mem| && |h.fates| <= h.mem[p].seqNo
    requires forall q :: 0 <= q < |h.mem| ==> EventOk(h.mem[q], h.alloc, h.fates)
    ensures forall q :: p <= q < |log| ==> !log[q].isStore
  {
    forall q | p <= q < |log|
      ensures !log[q].isStore
    {
      assert EventOk(h.mem[q], h.alloc, h.fates) && log[q] == h.mem[q].req;
    }
  }

  lemma {:induction false} LoadsLeaveMemory(m0: Mem, log: seq<DmemRequest>, p: nat)
    requires p <= |log| && forall q :: p <= q < |log| ==> !log[q].isStore
    ensures MemAfter(m0, log[..p]) == MemAfter(m0, log)
  {
    if p == |log| {
      assert log[..p] == log;
    } else {
      LoadsLeaveMemory(m0, log[..|log| - 1], p);
      assert log[..|log| - 1][..p] == log[..p];
    }
  }

  lemma StepMemory(course: Course, rf: seq<bv64>, n: nat, e: RobEntry, r: AluResult)
    requires Follows(course, rf, n, e, r) && Goes(e, r) && !r.isStore
    ensures course(n + 1).machine.arch.mem == course(n).machine.arch.mem
  {
    hide InFlight, ValueReady, Record, Written, Successor;
    MachineStep(course, n, r);
  }

  lemma LiveShorter(w: seq<RobEntry>, rs: seq<AluResult>, n: nat)
    requires |w| == |rs| && 0 < n <= |w| && Live(w, rs, n)
    ensures Live(w, rs, n - 1) && Goes(w[n - 1], rs[n - 1])
  {
    hide Goes;
  }

  /** Instructions that store nothing leave the machine's memory alone. */
  lemma {:induction false} SameMemory(course: Course, rf: seq<bv64>, w: seq<RobEntry>, rs: seq<AluResult>, base: nat, k: nat)
    requires FlightOk(course, rf, w, rs, base) && k <= |w| && Live(w, rs, k) && forall j :: 0 <= j < k ==> !rs[j].isStore
    ensures course(base + k).machine.arch.mem == course(base).machine.arch.mem
  {
    hide FlightOk, Follows, Goes, Live;
    if k > 0 {
      SameLength(course, rf, w, rs, base);
      LiveShorter(w, rs, k);
      SameMemory(course, rf, w, rs, base, k - 1);
      FlightAt(course, rf, w, rs, base, k - 1);
      StepMemory(course, rf, base + (k - 1), w[k - 1], rs[k - 1]);
    }
  }

  /** An honest answer to a resident load is the load's value in the memory after all requests so far. */
  lemma AnswerIsLoaded(m0: Mem, lsu: Lsu, log: seq<DmemRequest>, w: seq<RobEntry>, h: Hist, k: nat, resp: DmemResponse)
    requires MemOk(lsu, log, w, h) && k < |w| && Residents(h)[k].isLoad
    requires HonestData(m0, log, Some(resp)) && !resp.exception
    requires var e, r := w[k], Residents(h)[k];
             e.requestSent && e.txId == resp.txId && e.address == r.address && e.size == r.size && e.signedLoad == r.signedLoad
    ensures LoadedValue(w[k], resp) == Loaded(Residents(h)[k], MemAfter(m0, log))
  {
    hide ReadBeat, LoadValue, MemOk, MemAfter, ResponseData, Carries;
    var p := SentRequest(lsu, log, w, h, k);
    LoadsLeaveMemory(m0, log, p);
    CarriedBeat(resp, ReadBeat(MemAfter(m0, log), w[k].address));
  }

  lemma NoOlderStore(lsu: Lsu, log: seq<DmemRequest>, w: seq<RobEntry>, h: Hist, k: nat)
    requires MemOk(lsu, log, w, h) && k < |w| && Residents(h)[k].isLoad && w[k].requestSent
    ensures forall j :: 0 <= j < k ==> !Residents(h)[j].isStore
  {
    hide MemOk;
    var p := SentRequest(lsu, log, w, h, k);
  }

  /** What the answer leaves in the load's entry and register. */
  lemma AnsweredFollows(course: Course, rf: seq<bv64>, n: nat, e: RobEntry, r: AluResult, v: bv64)
    requires Follows(course, rf, n, e, r) && r.isLoad && |rf| == INT_PHYS_REGS && v == Loaded(r, course(n).machine.arch.mem)
    ensures Follows(course, WriteReg(rf, r.uop.rename.pdst, v), n, e.(data := v, completed := true, busy := false), r)
  {
    hide Loaded;
  }

  lemma FaultedFollows(course: Course, rf: seq<bv64>, n: nat, e: RobEntry, r: AluResult, e': RobEntry)
    requires Follows(course, rf, n, e, r) && r.isLoad && e'.exception
    ensures Follows(course, rf, n, e', r) && !Goes(e', r)
  {
    hide Loaded, InFlight;
  }

  /** A value arrives for a live load. */
  lemma AnswerChange(course: Course, rf: seq<bv64>, ren: Rename, log: seq<DmemRequest>, w: seq<RobEntry>, h: Hist, k: nat, v: bv64)
    requires Aligned(course, rf, ren.committed, log, w, h) && Conserved(ren, Residents(h), h.dead) && k < |w|
    requires |w| == |Residents(h)| && Valueless(w[k], Residents(h)[k]) && v == Loaded(Residents(h)[k], MemAfter(Origin(course), log))
    requires forall j :: 0 <= j < k ==> !Residents(h)[j].isStore
    ensures Aligned(course, WriteReg(rf, Residents(h)[k].uop.rename.pdst, v), ren.committed, log,
                    w[k := w[k].(data := v, completed := true, busy := false)], h)
  {
    hide Conserved, FlightOk, PathOk, Expected, RegsMatch, MemAfter, Follows, Goes, Live, Loaded, WriteReg, Regs;
    var rs, base, e := Residents(h), |h.fates|, w[k].(data := v, completed := true, busy := false);
    var p := rs[k].uop.rename.pdst;
    WriteApart(course, rf, ren, w, rs, h.dead, base, k, v);
    RegsMatchWrite(rf, ren.committed, course(base).machine.arch.regs, p, v);
    RegsSize(rf, ren.committed, course(base).machine.arch.regs);
    if Live(w, rs, k) {
      SameMemory(course, rf, w, rs, base, k);
      FlightAt(course, rf, w, rs, base, k);
      AnsweredFollows(course, rf, base + k, w[k], rs[k], v);
    }
    SameGoes(w[k], e, rs[k]);
    EntryChange(course, WriteReg(rf, p, v), w, rs, base, Expected(h.fetched), k, e);
  }

  /** The answer reaches the k-th resident. */
  lemma Delivered(course: Course, s: Core, h: Hist, resp: DmemResponse, k: nat)
    requires CoreAligned(course, Sys(s, h)) && MemOk(s.lsu, s.dmemLog, Window(s.rob), h) && Conserved(s.ren, Residents(h), h.dead)
    requires HonestData(Origin(course), s.dmemLog, Some(resp)) && k < Count(s.rob) == |Residents(h)|
    requires var e, r := Window(s.rob)[k], Residents(h)[k];
             && r.isLoad && e.requestSent && !e.completed && e.txId == resp.txId && e.uop == r.uop
             && e.address == r.address && e.size == r.size && e.signedLoad == r.signedLoad
    ensures var e := Window(s.rob)[k];
            var rf := if resp.exception then s.rf else WriteReg(s.rf, e.uop.rename.pdst, LoadedValue(e, resp));
            Aligned(course, rf, s.ren.committed, s.dmemLog, Window(s.rob)[k := DeliveredEntry(e, resp)], h)
  {
    hide MemOk, Window, Conserved, FlightOk, PathOk, LoadedValue, Expected, HonestData, ArchOk, MemAfter, Loaded;
    var w := Window(s.rob);
    if resp.exception {
      FaultChange(course, s.rf, w, Residents(h), |h.fates|, Expected(h.fetched), k, DeliveredEntry(w[k], resp));
    } else {
      hide Aligned;
      NoOlderStore(s.lsu, s.dmemLog, w, h, k);
      AnswerIsLoaded(Origin(course), s.lsu, s.dmemLog, w, h, k, resp);
      AnswerChange(course, s.rf, s.ren, s.dmemLog, w, h, k, LoadedValue(w[k], resp));
    }
  }

  lemma SameLength(course: Course, rf: seq<bv64>, w: seq<RobEntry>, rs: seq<AluResult>, base: nat)
    requires FlightOk(course, rf, w, rs, base)
    ensures |w| == |rs|
  {
  }

  lemma FlightAt(course: Course, rf: seq<bv64>, w: seq<RobEntry>, rs: seq<AluResult>, base: nat, k: nat)
    requires FlightOk(course, rf, w, rs, base) && k < |w| && Live(w, rs, k)
    ensures Follows(course, rf, base + k, w[k], rs[k])
  {
    hide Follows, Live;
  }

  lemma RegsSize(rf: seq<bv64>, committed: seq<nat>, regs: seq<bv64>)
    requires RegsMatch(rf, committed, regs)
    ensures |rf| == INT_PHYS_REGS
  {
  }

  lemma SameGoes(e: RobEntry, e': RobEntry, r: AluResult)
    requires e.exception == e'.exception
    ensures Goes(e, r) == Goes(e', r)
  {
  }

  lemma FaultChange(course: Course, rf: seq<bv64>, w: seq<RobEntry>, rs: seq<AluResult>, base: nat, expected: bv64, k: nat, e: RobEntry)
    requires FlightOk(course, rf, w, rs, base) && PathOk(course, w, rs, base, expected)
    requires k < |w| == |rs| && rs[k].isLoad && e.exception
    ensures FlightOk(course, rf, w[k := e], rs, base) && PathOk(course, w[k := e], rs, base, expected)
  {
    hide Follows, Live, FlightOk, PathOk;
    assert !Goes(e, rs[k]);
    hide Goes;
    if Live(w, rs, k) {
      FlightAt(course, rf, w, rs, base, k);
      FaultedFollows(course, rf, base + k, w[k], rs[k], e);
    }
    EntryChange(course, rf, w, rs, base, expected, k, e);
  }

  /** The register of a load in flight is nobody else's. */
  lemma WriteApart(course: Course, rf: seq<bv64>, ren: Rename, w: seq<RobEntry>, rs: seq<AluResult>, dead: multiset<nat>,
                   base: nat, k: nat, v: bv64)
    requires FlightOk(course, rf, w, rs, base) && Conserved(ren, rs, dead) && k < |rs| && k < |w| && Valueless(w[k], rs[k])
    ensures rs[k].uop.rename.pdst !in Regs(ren.committed) && rs[k].uop.rename.pdst < INT_PHYS_REGS
    ensures FlightOk(course, WriteReg(rf, rs[k].uop.rename.pdst, v), w, rs, base)
  {
    hide Conserved, FlightOk, Valueless, Regs, WriteReg;
    var p := rs[k].uop.rename.pdst;
    assert |w| == |rs| by { SameLength(course, rf, w, rs, base); }
    if p != 0 {
      RegistersApart(ren, rs, dead, k);
    } else {
      NotInNone(ren.committed, p);
    }
    FlightOther(course, rf, w, rs, base, p, v);
  }

  lemma NotInNone(t: seq<nat>, p: nat)
    ensures p == 0 ==> p !in Regs(t)
  {
  }

  lemma RespondAligned(course: Course, s: Core, h: Hist, resp: Option<DmemResponse>, raw: bool)
    requires ResidentsOk(s.rob, h, raw) && MemOk(s.lsu, s.dmemLog, Window(s.rob), h) && Conserved(s.ren, Residents(h), h.dead)
    requires CoreAligned(course, Sys(s, h)) && HonestData(Origin(course), s.dmemLog, resp)
    ensures CoreAligned(course, Sys(LsuRespond(s, resp), h))
  {
    hide MemOk, ResultOk, RobOk, Window, EntryOk, LoadedValue, SetEntry, HonestData, Aligned, DeliveredEntry,
         Conserved;
    RespondFrame(s, resp);
    RespondKeeps(s, h, resp, raw);
    if AcceptsResponse(s.lsu, resp) {
      DeliveryTarget(s, h, resp, raw);
      if h.loadSeq >= |h.fates| {
        var k := h.loadSeq - |h.fates|;
        var e, r := Window(s.rob)[k], Residents(h)[k];
        assert EntryOk(e, r, raw && k == Count(s.rob) - 1) && r == h.alloc[|h.fates| + k] && ResultOk(r);
        UnansweredEntry(e, r, raw && k == Count(s.rob) - 1);
        DeliveredWindow(s, h, resp, raw, k);
        Delivered(course, s, h, resp.value, k);
      }
    }
  }

  /** An entry changes that has no value yet, or keeps it. */
  lemma QuietChange(course: Course, rf: seq<bv64>, committed: seq<nat>, log: seq<DmemRequest>, w: seq<RobEntry>, h: Hist, k: nat, e: RobEntry)
    requires Aligned(course, rf, committed, log, w, h) && k < |w| && k < |Residents(h)| && e.exception == w[k].exception
    requires Residents(h)[k].isLoad && e.completed ==> e.data == w[k].data && w[k].completed
    ensures Aligned(course, rf, committed, log, w[k := e], h)
  {
    hide ArchOk, FlightOk, PathOk, Expected, Follows, Live, Goes;
    var rs, base := Residents(h), |h.fates|;
    assert |w| == |rs| by { SameLength(course, rf, w, rs, base); }
    if Live(w, rs, k) {
      FlightAt(course, rf, w, rs, base, k);
      QuietFollows(course, rf, base + k, w[k], e, rs[k]);
    }
    SameGoes(w[k], e, rs[k]);
    EntryChange(course, rf, w, rs, base, Expected(h.fetched), k, e);
  }

  lemma QuietFollows(course: Course, rf: seq<bv64>, n: nat, e: RobEntry, e': RobEntry, r: AluResult)
    requires Follows(course, rf, n, e, r) && e'.exception == e.exception && (r.isLoad && e'.completed ==> e'.data == e.data && e.completed)
    ensures Follows(course, rf, n, e', r)
  {
    hide InFlight, Loaded;
  }

  lemma TakenUpEntry(r: AluResult)
    ensures TakenUp(r).exception == FreshEntry(r.uop).exception && (!r.isStore ==> !TakenUp(r).completed)
  {
  }

  /** The youngest entry before its result is taken up. */
  lemma RawEntry(s: Core, h: Hist)
    requires ResidentsOk(s.rob, h, true) && IsYoungest(s.alu, h) && s.alu.valid && Count(s.rob) > 0
    ensures var k := Count(s.rob) - 1;
            |Residents(h)| == Count(s.rob) && s.alu == Residents(h)[k] && Window(s.rob)[k] == FreshEntry(s.alu.uop) && ResultOk(s.alu)
  {
    hide RobOk, Window, ResultOk, SettledEntry;
    var k := Count(s.rob) - 1;
    assert EntryOk(Window(s.rob)[k], Residents(h)[k], true);
  }

  lemma EnqueueAligned(course: Course, s: Core, h: Hist)
    requires ResidentsOk(s.rob, h, Unsettled(s.alu)) && IsYoungest(s.alu, h) && CoreAligned(course, Sys(s, h))
    ensures CoreAligned(course, Sys(LsuEnqueue(s), h))
  {
    hide ResidentsOk, IsYoungest, Window, Aligned, LsuEnqueue, TakenUp, FreshEntry, ResultOk;
    EnqueueKeeps(s, h);
    EnqueueFrame(s);
    AnyPointers(LsuEnqueue(s).rob, h, false);
    if Unsettled(s.alu) && Count(s.rob) > 0 {
      RawEntry(s, h);
      TakenUpEntry(s.alu);
      LoadOrStore(s.alu);
      QuietChange(course, s.rf, s.ren.committed, s.dmemLog, Window(s.rob), h, Count(s.rob) - 1, TakenUp(s.alu));
    }
  }

  lemma LoadOrStore(r: AluResult)
    requires ResultOk(r)
    ensures r.isLoad ==> !r.isStore && !r.uop.exception
    ensures r.isStore ==> !r.uop.exception
  {
  }

  lemma LogIrrelevant(course: Course, rf: seq<bv64>, committed: seq<nat>, log: seq<DmemRequest>, w: seq<RobEntry>, h: Hist, q: DmemRequest)
    requires Aligned(course, rf, committed, log, w, h) && !q.isStore
    ensures Aligned(course, rf, committed, log + [q], w, h)
  {
    hide RegsMatch, FlightOk, PathOk, Expected;
    MemAfterOne(Origin(course), log, q);
  }

  lemma HistIrrelevant(course: Course, rf: seq<bv64>, committed: seq<nat>, log: seq<DmemRequest>, w: seq<RobEntry>, h: Hist, h': Hist)
    requires Aligned(course, rf, committed, log, w, h)
    requires h'.alloc == h.alloc && h'.fates == h.fates && h'.commits == h.commits && h'.dead == h.dead && h'.fetched == h.fetched
    ensures Aligned(course, rf, committed, log, w, h')
  {
    hide RegsMatch, FlightOk, PathOk, MemAfter, Expected;
  }

  lemma IssueAligned(course: Course, s: Core, h: Hist, i: StepIn)
    requires ResidentsOk(s.rob, h, false) && CoreAligned(course, Sys(s, h))
    ensures CoreAligned(course, Sys(LsuIssue(s, i), LsuHist(s, h, i)))
  {
    hide ResidentsOk, Window, Aligned, FirstLoad, EntryAt, SetEntry, LoadRequest;
    IssueLoadKeeps(s, h, i);
    AnyPointers(LsuIssue(s, i).rob, LsuHist(s, h, i), false);
    AnyPointers(s.rob, h, false);
    if IssuesLoad(s, i) {
      var k := FirstLoad(s.rob, 0);
      var w, q := Window(s.rob), LoadRequest(EntryAt(s.rob, NthSlot(s.rob, k)), NthSlot(s.rob, k), s.lsu.nextTx);
      IsLoadRequest(EntryAt(s.rob, NthSlot(s.rob, k)), NthSlot(s.rob, k), s.lsu.nextTx);
      var e := w[k].(requestSent := true, txId := s.lsu.nextTx);
      QuietChange(course, s.rf, s.ren.committed, s.dmemLog, w, h, k, e);
      LogIrrelevant(course, s.rf, s.ren.committed, s.dmemLog, w[k := e], h, q);
      HistIrrelevant(course, s.rf, s.ren.committed, s.dmemLog + [q], w[k := e], h, LsuHist(s, h, i));
    }
  }

  lemma IsLoadRequest(e: RobEntry, idx: nat, tx: nat)
    ensures !LoadRequest(e, idx, tx).isStore
  {
  }

  lemma AnyPointers(rob: Rob, h: Hist, raw: bool)
    requires ResidentsOk(rob, h, raw)
    ensures Pointers(rob) && |h.fates| <= |h.alloc| && |Residents(h)| == Count(rob)
    ensures Count(rob) == 0 <==> |h.fates| == |h.alloc|
  {
  }

  /** The load/store unit's part of a step keeps the agreement. */
  lemma LsuAligned(course: Course, y: Sys, i: StepIn)
    requires Sound(y) && MemSound(y) && RenameSound(y) && CoreAligned(course, y) && HonestData(Origin(course), y.core.dmemLog, i.dmemResp)
    ensures CoreAligned(course, AtFetch(y, i))
  {
    hide ResidentsOk, IsYoungest, Packed, MemOk, AfterBranch, LsuRespond, LsuEnqueue, LsuIssue, LsuHist, Window,
         Aligned, HonestData, MapsOk, Conserved;
    var a := AfterBranch(y.core);
    BranchFrame(y.core);
    RespondAligned(course, a, y.hist, i.dmemResp, Unsettled(a.alu));
    RespondKeeps(a, y.hist, i.dmemResp, Unsettled(a.alu));
    var d := LsuRespond(a, i.dmemResp);
    RespondFrame(a, i.dmemResp);
    EnqueueAligned(course, d, y.hist);
    EnqueueKeeps(d, y.hist);
    EnqueueFrame(d);
    IssueAligned(course, LsuEnqueue(d), y.hist, i);
  }

  // ---- Fetch to execute

  /** Renaming changes neither what a uop computes nor where it goes. */
  lemma SameExec(u: MicroOp, d: MicroOp, a: bv64, b: bv64)
    requires u == d.(robIdx := u.robIdx, rename := u.rename)
    ensures ExecUop(u, a, b) == ExecUop(d, a, b).(uop := u) && ExecUop(d, a, b).uop == d
  {
    hide AluValue, Mispredicts, RedirectTarget, Operand1, Operand2, AccessAddress, MaskForSize;
  }

  lemma RenamedDestination(r: Rename, pc: bv64, inst: bv32)
    ensures !NeedsRegister(DecodeInst(pc, inst).rename) ==> RenameUop(r, DecodeInst(pc, inst)).uop.rename.ldst == 0
    ensures NeedsRegister(DecodeInst(pc, inst).rename) ==>
              RenameUop(r, DecodeInst(pc, inst)).uop.rename.ldst == DecodeInst(pc, inst).rename.ldst
    ensures DecodeInst(pc, inst).rename.lrs1 < LOGICAL_REG_COUNT && DecodeInst(pc, inst).rename.lrs2 < LOGICAL_REG_COUNT
  {
    hide DecodeInst, At, Put;
  }

  /** The result does not depend on the first source, or on the second. */
  ghost predicate IgnoresFirst(d: MicroOp) { forall a: bv64, a': bv64, b: bv64 :: ExecUop(d, a, b) == ExecUop(d, a', b) }
  ghost predicate IgnoresSecond(d: MicroOp) { forall a: bv64, b: bv64, b': bv64 :: ExecUop(d, a, b) == ExecUop(d, a, b') }

  /** A load whose answer has not come. */
  predicate AwaitsAnswer(e: RobEntry) { e.valid && LoadUopc(e.uop.uopc) && !e.completed }

  /** No load in the buffer has yet to write the register. */
  ghost predicate NotAwaited(rob: Rob, p: nat) {
    forall k :: 0 <= k < |rob.entries| && AwaitsAnswer(rob.entries[k]) ==> p == 0 || rob.entries[k].uop.rename.pdst != p
  }

  /** The uop a packet brings depends on no register that an unanswered load has yet to write. */
  ghost predicate Independent(s: Core, i: StepIn) {
    Fetched(s, i).packetValid ==>
      var d := DecodeInst(Fetched(s, i).packetPc, Fetched(s, i).packetInst);
      && (NotAwaited(s.rob, At(s.ren.table, d.rename.lrs1)) || IgnoresFirst(d))
      && (NotAwaited(s.rob, At(s.ren.table, d.rename.lrs2)) || IgnoresSecond(d))
  }

  lemma SameOperands(d: MicroOp, v1: bv64, v2: bv64, a1: bv64, a2: bv64)
    requires (v1 == a1 || IgnoresFirst(d)) && (v2 == a2 || IgnoresSecond(d))
    ensures ExecUop(d, v1, v2) == ExecUop(d, a1, a2)
  {
    hide ExecUop;
    assert ExecUop(d, v1, v2) == ExecUop(d, a1, v2);
  }

  /** A register of the machine after one more instruction. */
  lemma NextValue(course: Course, rf: seq<bv64>, n: nat, e: RobEntry, r: AluResult, l: nat)
    requires Follows(course, rf, n, e, r) && Goes(e, r) && DestinationOk(r.uop) && l < LOGICAL_REG_COUNT
    ensures Reg(course(n + 1).machine.arch.regs, l)
         == if r.uop.rename.pdst != 0 && r.uop.rename.ldst == l then ResultValue(r, course(n).machine.arch.mem)
            else Reg(course(n).machine.arch.regs, l)
  {
    hide Record, Successor, Stored, ReadBeat, LoadValue, ValueReady;
    MachineStep(course, n, r);
    assert Continues(course, n);
  }

  lemma FlightPrefix(course: Course, rf: seq<bv64>, w: seq<RobEntry>, rs: seq<AluResult>, base: nat)
    requires FlightOk(course, rf, w, rs, base) && |w| > 0 && Live(w, rs, |w|)
    ensures var n := |w| - 1;
            && FlightOk(course, rf, w[..n], rs[..n], base) && Live(w[..n], rs[..n], n)
            && Follows(course, rf, base + n, w[n], rs[n]) && Goes(w[n], rs[n])
  {
    hide Follows, Goes;
    var n := |w| - 1;
    assert Live(w, rs, n);
    forall k | 0 <= k < n
      ensures Follows(course, rf, base + k, w[..n][k], rs[..n][k])
    {
      assert Live(w, rs, k);
    }
  }

  lemma MappedAt(t: seq<nat>, n: RenameInfo, l: nat)
    requires |t| == LOGICAL_REG_COUNT && l < LOGICAL_REG_COUNT
    ensures At(Mapped(t, n), l) == if n.pdst != 0 && n.ldst == l then n.pdst else At(t, l)
  {
  }

  lemma ReadyValue(rf: seq<bv64>, e: RobEntry, r: AluResult, mem: Mem)
    requires ValueReady(rf, e, r, mem) && Goes(e, r) && r.uop.rename.pdst != 0 && (r.isLoad ==> e.completed)
    ensures ReadReg(rf, r.uop.rename.pdst) == ResultValue(r, mem)
  {
    hide Loaded, ReadReg;
  }

  /** With nothing stopped, a register whose physical register no load has yet to write holds, through the
      speculative map, what the machine has in it after all residents. */
  lemma {:induction false} SourceValue(course: Course, rf: seq<bv64>, committed: seq<nat>, w: seq<RobEntry>, rs: seq<AluResult>, base: nat, l: nat)
    requires RegsMatch(rf, committed, course(base).machine.arch.regs) && FlightOk(course, rf, w, rs, base) && Live(w, rs, |w|)
    requires l < LOGICAL_REG_COUNT && forall k :: 0 <= k < |rs| ==> DestinationOk(rs[k].uop)
    requires var p := At(Overlay(committed, rs), l);
             forall k :: 0 <= k < |rs| && rs[k].isLoad && !w[k].completed ==> rs[k].uop.rename.pdst == 0 || rs[k].uop.rename.pdst != p
    ensures ReadReg(rf, At(Overlay(committed, rs), l)) == Reg(course(base + |rs|).machine.arch.regs, l)
    decreases |rs|
  {
    hide FlightOk, Follows, Goes, Live, DestinationOk, ReadReg, Reg, At, Mapped, ValueReady;
    assert |committed| == LOGICAL_REG_COUNT && |w| == |rs| by { MapSize(rf, committed, course(base).machine.arch.regs); SameLength(course, rf, w, rs, base); }
    if rs == [] {
      MatchedSource(rf, committed, course(base).machine.arch.regs, l);
    } else {
      hide RegsMatch;
      var n := |rs| - 1;
      FlightPrefix(course, rf, w, rs, base);
      NextValue(course, rf, base + n, w[n], rs[n], l);
      MappedAt(Overlay(committed, rs[..n]), rs[n].uop.rename, l);
      if rs[n].uop.rename.pdst != 0 && rs[n].uop.rename.ldst == l {
        FollowsReady(course, rf, base + n, w[n], rs[n]);
        ReadyValue(rf, w[n], rs[n], course(base + n).machine.arch.mem);
      } else {
        SourceValue(course, rf, committed, w[..n], rs[..n], base, l);
      }
    }
  }

  lemma FollowsReady(course: Course, rf: seq<bv64>, n: nat, e: RobEntry, r: AluResult)
    requires Follows(course, rf, n, e, r)
    ensures ValueReady(rf, e, r, course(n).machine.arch.mem)
  {
  }

  lemma MapSize(rf: seq<bv64>, committed: seq<nat>, regs: seq<bv64>)
    requires RegsMatch(rf, committed, regs)
    ensures |committed| == LOGICAL_REG_COUNT
  {
  }

  lemma MatchedSource(rf: seq<bv64>, committed: seq<nat>, regs: seq<bv64>, l: nat)
    requires RegsMatch(rf, committed, regs) && l < LOGICAL_REG_COUNT
    ensures ReadReg(rf, At(committed, l)) == Reg(regs, l)
  {
  }

  /** A resident load that has no answer has one still to come in its entry. */
  lemma AwaitedResident(rob: Rob, h: Hist, raw: bool, k: nat)
    requires ResidentsOk(rob, h, raw) && k < Count(rob) && Residents(h)[k].isLoad && !Window(rob)[k].completed
    ensures exists j :: 0 <= j < |rob.entries| && AwaitsAnswer(rob.entries[j]) && rob.entries[j].uop.rename.pdst == Residents(h)[k].uop.rename.pdst
  {
    hide RobOk, Window, EntryOk, ResultOk;
    EntryIdentity(rob, k);
    assert EntryOk(Window(rob)[k], Residents(h)[k], raw && k == Count(rob) - 1) && ResultOk(Residents(h)[k]);
    SameLoad(Window(rob)[k], Residents(h)[k], raw && k == Count(rob) - 1);
    assert AwaitsAnswer(rob.entries[Slot(rob, k)]);
  }

  lemma SameLoad(e: RobEntry, r: AluResult, raw: bool)
    requires EntryOk(e, r, raw) && ResultOk(r)
    ensures e.valid && e.uop.rename == r.uop.rename && LoadUopc(e.uop.uopc) == r.isLoad
  {
  }

  /** With nothing in flight stopped, and no load yet to write it, a register read through the speculative map
      is the machine's after all uops in flight. */
  lemma SourceReady(course: Course, c: Core, h: Hist, raw: bool, l: nat)
    requires ResidentsOk(c.rob, h, raw) && CoreAligned(course, Sys(c, h)) && RenameSound(Sys(c, h))
    requires |Window(c.rob)| == |Residents(h)| && Live(Window(c.rob), Residents(h), |Window(c.rob)|)
    requires l < LOGICAL_REG_COUNT && NotAwaited(c.rob, At(c.ren.table, l))
    ensures ReadReg(c.rf, At(c.ren.table, l)) == Reg(course(|h.alloc|).machine.arch.regs, l)
  {
    hide ResidentsOk, FlightOk, PathOk, RegsMatch, MemAfter, Live, Conserved, StaleOk, Overlay, At, ReadReg, Reg,
         Window, AwaitsAnswer, DestinationOk, Expected;
    var w, rs := Window(c.rob), Residents(h);
    AnyPointers(c.rob, h, raw);
    var p := At(c.ren.table, l);
    forall k | 0 <= k < |rs| && rs[k].isLoad && !w[k].completed
      ensures rs[k].uop.rename.pdst == 0 || rs[k].uop.rename.pdst != p
    {
      AwaitedResident(c.rob, h, raw, k);
    }
    SourceValue(course, c.rf, c.ren.committed, w, rs, |h.fates|, l);
  }

  /** The uop a packet brings is the machine's next instruction, if its operands are the machine's. */
  lemma PacketInFlight(prog: Program, s: Core, i: StepIn, rs: seq<AluResult>, dead: multiset<nat>, a: Arch)
    requires Fetched(s, i).packetValid && SafeStep(s, i) && RenameOk(s.ren, rs, dead)
    requires Fetched(s, i).packetPc == a.pc && Fetched(s, i).packetInst == prog(a.pc)
    requires var d := DecodeInst(a.pc, prog(a.pc));
             && (ReadReg(s.rf, At(s.ren.table, d.rename.lrs1)) == Reg(a.regs, d.rename.lrs1) || IgnoresFirst(d))
             && (ReadReg(s.rf, At(s.ren.table, d.rename.lrs2)) == Reg(a.regs, d.rename.lrs2) || IgnoresSecond(d))
    ensures InFlight(NextResult(prog, a), ResultOf(s, PlacedUop(s, i)))
  {
    hide RenameOk, FrontendStage, RenameUop, NeedsRegister, DecodeInst, ExecUop, Regs, Pdsts, IgnoresFirst,
         IgnoresSecond, ReadReg, At, Reg;
    var pc, inst := a.pc, prog(a.pc);
    var u, d := PlacedUop(s, i), DecodeInst(pc, inst);
    PacketRename(s, i, rs, dead);
    RenamedReady(Recovered(s), pc, inst);
    RenamedDestination(Recovered(s), pc, inst);
    NeedsCount(s, i);
    TableSize(s.ren, rs, dead);
    RenameEffect(Recovered(s), pc, inst);
    SameExec(u, d, ReadReg(s.rf, u.rename.prs1), ReadReg(s.rf, u.rename.prs2));
    SameOperands(d, ReadReg(s.rf, u.rename.prs1), ReadReg(s.rf, u.rename.prs2), Reg(a.regs, d.rename.lrs1), Reg(a.regs, d.rename.lrs2));
  }

  lemma TableSize(ren: Rename, rs: seq<AluResult>, dead: multiset<nat>)
    requires RenameOk(ren, rs, dead)
    ensures |ren.table| == LOGICAL_REG_COUNT
  {
  }

  lemma NeedsCount(s: Core, i: StepIn)
    requires Fetched(s, i).packetValid && SafeStep(s, i)
    ensures !Redirecting(s)
    ensures NeedsRegister(DecodeInst(Fetched(s, i).packetPc, Fetched(s, i).packetInst).rename) ==> s.ren.count >= 2
  {
  }

  /** What the writeback of the executed uop leaves in its destination. */
  lemma WrittenBackMatches(rf: seq<bv64>, committed: seq<nat>, regs: seq<bv64>, r: AluResult)
    requires RegsMatch(rf, committed, regs) && r.uop.rename.pdst !in Regs(committed) && r.uop.rename.pdst < INT_PHYS_REGS
    requires r.uop.rename.pdst != 0 ==> r.uop.rename.dst == DstInt
    ensures RegsMatch(WrittenBack(rf, r), committed, regs)
    ensures !r.isLoad ==> Holds(WrittenBack(rf, r), r.uop.rename.pdst, r.result)
  {
    hide RegsMatch, Holds, WriteReg;
    RegsMatchWrite(rf, committed, regs, r.uop.rename.pdst, r.result);
    if r.uop.rename.pdst == 0 {
      NothingHeld(rf, r.result);
    }
  }

  lemma NothingHeld(rf: seq<bv64>, v: bv64)
    ensures Holds(rf, 0, v)
  {
  }

  lemma WrittenBackApart(course: Course, rf: seq<bv64>, w: seq<RobEntry>, rs: seq<AluResult>, base: nat, r: AluResult)
    requires FlightOk(course, rf, w, rs, base) && (r.uop.rename.pdst != 0 ==> r.uop.rename.pdst !in Pdsts(rs))
    ensures FlightOk(course, WrittenBack(rf, r), w, rs, base)
  {
    hide FlightOk, Valueless, WriteReg;
    var p := r.uop.rename.pdst;
    SameLength(course, rf, w, rs, base);
    forall k | 0 <= k < |rs|
      ensures rs[k].uop.rename.pdst == 0 || rs[k].uop.rename.pdst != p
    {
      if rs[k].uop.rename.pdst != 0 {
        PdstsAt(rs, k);
      }
    }
    FlightOther(course, rf, w, rs, base, p, r.result);
  }

  lemma FreshNotReady(u: MicroOp)
    ensures !FreshEntry(u).completed && FreshEntry(u).exception == u.exception
  {
  }

  lemma ExpectedNext(ps: seq<Packet>, p: Packet)
    ensures Expected(ps + [p]) == Successor(p.pc, p.outcome)
  {
    hide Successor;
  }

  lemma FreshFollows(course: Course, rf: seq<bv64>, n: nat, r: AluResult)
    requires !course(n).machine.stopped && InFlight(course(n).next, r)
    requires !r.isLoad ==> Holds(rf, r.uop.rename.pdst, r.result)
    ensures Follows(course, rf, n, FreshEntry(r.uop), r)
  {
    hide InFlight, Holds, Loaded, FreshEntry;
    FreshNotReady(r.uop);
  }

  /** With the youngest uop live, the machine goes on to where it leads. */
  lemma PathAdd(course: Course, rf: seq<bv64>, w: seq<RobEntry>, rs: seq<AluResult>, base: nat, e: RobEntry, r: AluResult, ps: seq<Packet>, p: Packet)
    requires PathOk(course, w, rs, base, Expected(ps)) && p.pc == Expected(ps) && p.outcome == r
    requires Live(w, rs, |w|) ==> Follows(course, rf, base + |w|, e, r)
    ensures PathOk(course, w + [e], rs + [r], base, Expected(ps + [p]))
  {
    hide Follows, Goes, Live, Expected, Successor;
    LivePrefix(w, rs, e, r, |w|);
    if Live(w + [e], rs + [r], |w| + 1) {
      NextPath(course, rf, base + |w|, e, r);
      ExpectedNext(ps, p);
    }
  }

  lemma NextPath(course: Course, rf: seq<bv64>, n: nat, e: RobEntry, r: AluResult)
    requires Follows(course, rf, n, e, r) && Goes(e, r)
    ensures !course(n + 1).machine.stopped && course(n + 1).machine.arch.pc == Successor(course(n).machine.arch.pc, r)
  {
    hide InFlight, ValueReady, Record, Written, Successor, Stored;
    MachineStep(course, n, r);
  }

  /** A uop enters behind the residents. */
  lemma Enters(course: Course, rf: seq<bv64>, committed: seq<nat>, log: seq<DmemRequest>, w: seq<RobEntry>, h: Hist, h': Hist, r: AluResult, p: Packet)
    requires Aligned(course, rf, committed, log, w, h) && |w| == |Residents(h)|
    requires Live(w, Residents(h), |w|) ==> InFlight(course(|h.alloc|).next, r)
    requires r.uop.rename.pdst !in Regs(committed) && r.uop.rename.pdst < INT_PHYS_REGS
    requires r.uop.rename.pdst != 0 ==> r.uop.rename.pdst !in Pdsts(Residents(h)) && r.uop.rename.dst == DstInt
    requires h'.alloc == h.alloc + [r] && h'.fates == h.fates && h'.commits == h.commits && h'.dead == h.dead
    requires h'.fetched == h.fetched + [p] && p.pc == Expected(h.fetched) && p.outcome == r
    ensures Aligned(course, WrittenBack(rf, r), committed, log, w + [FreshEntry(r.uop)], h')
  {
    hide RegsMatch, FlightOk, PathOk, Follows, Live, InFlight, MemAfter, WrittenBack, Holds, Expected, FreshEntry,
         Regs, Pdsts;
    var rs, base, e, rf' := Residents(h), |h.fates|, FreshEntry(r.uop), WrittenBack(rf, r);
    assert Residents(h') == rs + [r];
    WrittenBackMatches(rf, committed, course(base).machine.arch.regs, r);
    WrittenBackApart(course, rf, w, rs, base, r);
    if Live(w, rs, |w|) {
      PathOpen(course, w, rs, base, Expected(h.fetched));
      FreshFollows(course, rf', base + |w|, r);
    }
    FlightAdd(course, rf', w, rs, base, e, r);
    PathAdd(course, rf', w, rs, base, e, r, h.fetched, p);
  }

  lemma PathOpen(course: Course, w: seq<RobEntry>, rs: seq<AluResult>, base: nat, expected: bv64)
    requires PathOk(course, w, rs, base, expected) && Live(w, rs, |w|)
    ensures !course(base + |w|).machine.stopped && expected == course(base + |w|).machine.arch.pc
  {
  }

  lemma IdleAligned(course: Course, l: Sys, i: StepIn)
    requires ResidentsOk(l.core.rob, l.hist, false) && !l.core.globalFlush && QueueEmpty(l.core.iss)
    requires CoreAligned(course, l) && !Fetched(l.core, i).packetValid
    ensures CoreAligned(course, MiddleSys(l, i))
  {
    hide ResidentsOk, Packed, Middle, Allocates, FrontendStage, Window, Aligned;
    var c, m := l.core, MiddleSys(l, i);
    IdleMiddle(c, i);
    AnyPointers(c.rob, l.hist, false);
    SameWindow(c.rob, Started(c.rob));
    HistIrrelevant(course, c.rf, c.ren.committed, c.dmemLog, Window(c.rob), l.hist, m.hist);
  }

  /** A packet does not meet a full reorder buffer. */
  predicate FindsEntry(s: Core, i: StepIn) { Fetched(s, i).packetValid ==> !RobFull(s.rob) }

  /** With nothing stopped before it, the arriving uop is the machine's next instruction. */
  lemma PacketFollows(prog: Program, course: Course, l: Sys, i: StepIn)
    requires Executes(prog, course)
    requires ResidentsOk(l.core.rob, l.hist, false) && CoreAligned(course, l) && RenameSound(l)
    requires SafeStep(l.core, i) && Independent(l.core, i)
    requires Fetched(l.core, i).packetValid
    requires Fetched(l.core, i).packetPc == Expected(l.hist.fetched) && Fetched(l.core, i).packetInst == prog(Expected(l.hist.fetched))
    requires |Window(l.core.rob)| == |Residents(l.hist)| && Live(Window(l.core.rob), Residents(l.hist), |Window(l.core.rob)|)
    ensures InFlight(course(|l.hist.alloc|).next, ResultOf(l.core, PlacedUop(l.core, i)))
  {
    hide ResidentsOk, FrontendStage, FlightOk, PathOk, ArchOk, Live, RenameOk, SafeStep, PlacedUop, ResultOf,
         Expected, Window, DecodeInst, NotAwaited, IgnoresFirst, IgnoresSecond, InFlight, At, ReadReg, Reg;
    var c, h := l.core, l.hist;
    var a, d := course(|h.alloc|).machine.arch, DecodeInst(Fetched(c, i).packetPc, Fetched(c, i).packetInst);
    PathOpen(course, Window(c.rob), Residents(h), |h.fates|, Expected(h.fetched));
    RenamedDestination(c.ren, Fetched(c, i).packetPc, Fetched(c, i).packetInst);
    if NotAwaited(c.rob, At(c.ren.table, d.rename.lrs1)) {
      SourceReady(course, c, h, false, d.rename.lrs1);
    }
    if NotAwaited(c.rob, At(c.ren.table, d.rename.lrs2)) {
      SourceReady(course, c, h, false, d.rename.lrs2);
    }
    assert Obeys(prog, course, |h.alloc|);
    PacketInFlight(prog, c, i, Residents(h), h.dead, a);
  }

  lemma PacketAligned(prog: Program, course: Course, l: Sys, i: StepIn)
    requires Executes(prog, course)
    requires ResidentsOk(l.core.rob, l.hist, false) && !l.core.globalFlush && QueueEmpty(l.core.iss)
    requires CoreAligned(course, l) && RenameSound(l) && SafeStep(l.core, i) && FindsEntry(l.core, i) && Independent(l.core, i)
    requires Fetched(l.core, i).packetValid
    requires Fetched(l.core, i).packetPc == Expected(l.hist.fetched) && Fetched(l.core, i).packetInst == prog(Expected(l.hist.fetched))
    ensures CoreAligned(course, MiddleSys(l, i))
  {
    hide ResidentsOk, Packed, Middle, Allocates, FrontendStage, RenamedUop, PlacedUop, ResultOf, WrittenBack, Window,
         Aligned, RenameOk, Independent, PushEntry, InFlight, Expected, FreshEntry, Live, DecodeInst, NeedsRegister,
         Regs, Pdsts;
    var c, h := l.core, l.hist;
    AnyPointers(c.rob, h, false);
    FlowThrough(c, i);
    var r := ResultOf(c, PlacedUop(c, i));
    if Live(Window(c.rob), Residents(h), |Window(c.rob)|) {
      PacketFollows(prog, course, l, i);
    }
    PacketRename(c, i, Residents(h), h.dead);
    PlacedResultOk(c, i);
    TableSize(c.ren, Residents(h), h.dead);
    PlacedDestination(c, i);
    NotInNone(c.ren.committed, r.uop.rename.pdst);
    RenameKeepsCommitted(c, i);
    PushedWindow(c, h, i);
    Enters(course, c.rf, c.ren.committed, c.dmemLog, Window(c.rob), h, MiddleSys(l, i).hist, r, Packet(Fetched(c, i).packetPc, Fetched(c, i).packetInst, r));
  }

  lemma PlacedDestination(s: Core, i: StepIn)
    requires SafeStep(s, i) && Fetched(s, i).packetValid && |s.ren.table| == LOGICAL_REG_COUNT
    ensures PlacedUop(s, i).rename.pdst != 0 ==> PlacedUop(s, i).rename.dst == DstInt
  {
    hide FrontendStage, DecodeInst, RenameUop, NeedsRegister;
    NeedsCount(s, i);
    RenameEffect(Recovered(s), Fetched(s, i).packetPc, Fetched(s, i).packetInst);
  }

  lemma PushedWindow(c: Core, h: Hist, i: StepIn)
    requires ResidentsOk(c.rob, h, false) && !RobFull(c.rob)
    ensures var u := PlacedUop(c, i); var q := PushEntry(Started(c.rob), FreshEntry(u)); Pointers(q) && Window(q) == Window(c.rob) + [FreshEntry(u)]
  {
    hide RenamedUop, WindowOk, ResultsOk;
    SameWindow(c.rob, Started(c.rob));
    PushWindow(Started(c.rob), FreshEntry(PlacedUop(c, i)));
    hide RobOk;
  }

  lemma MiddleAligned(prog: Program, course: Course, l: Sys, i: StepIn)
    requires Executes(prog, course)
    requires ResidentsOk(l.core.rob, l.hist, false) && !l.core.globalFlush && QueueEmpty(l.core.iss)
    requires CoreAligned(course, l) && RenameSound(l) && SafeStep(l.core, i) && FindsEntry(l.core, i) && Independent(l.core, i)
    requires Fetched(l.core, i).packetValid ==>
               Fetched(l.core, i).packetPc == Expected(l.hist.fetched) && Fetched(l.core, i).packetInst == prog(Expected(l.hist.fetched))
    ensures CoreAligned(course, MiddleSys(l, i))
  {
    hide ResidentsOk, CoreAligned, RenameSound, SafeStep, MiddleSys, Fetched, Expected, Packed, Independent;
    if Fetched(l.core, i).packetValid {
      PacketAligned(prog, course, l, i);
    } else {
      IdleAligned(course, l, i);
    }
  }

  // ---- Commit

  /** What the settled entry of a committing uop carries. */
  lemma SettledAccess(e: RobEntry, r: AluResult, q: AluResult, mem: Mem)
    requires SettledEntry(e, r) && (r.isLoad ==> e.completed && !e.exception && e.data == Loaded(r, mem))
    requires q == r.(uop := q.uop) && WellFormed(q) && (q.memoryValid ==> q.isStore || q.isLoad) && !(q.isStore && q.isLoad)
    ensures e.memoryValid == q.memoryValid && e.isStore == q.isStore && e.address == q.address && e.mask == q.mask
    ensures e.data == if q.isLoad then Loaded(r, mem) else q.storeData
    ensures e.uop == r.uop.(exception := e.uop.exception)
  {
    hide Loaded;
  }

  lemma RecordMatches(q: AluResult, mem: Mem, s: Core, e: RobEntry, r: AluResult)
    requires InFlight(q, r) && WellFormed(q) && ResultOk(r) && SettledEntry(e, r) && ValueReady(s.rf, e, r, mem)
    requires r.isLoad ==> e.completed && !e.exception
    ensures CommitRecord(s, e) == Record(q, mem)
    ensures CommitRecord(s, e.(requestSent := true, completed := true)) == CommitRecord(s, e)
  {
    hide WellClassified, SettledEntry, LoadValue, ReadBeat, ReadReg, WellFormed;
    SettledAccess(e, r, q, mem);
    assert Loaded(q, mem) == Loaded(r, mem);
  }

  /** The registers after a commit. */
  lemma RegistersCommit(q: AluResult, a: Arch, rf: seq<bv64>, committed: seq<nat>, e: RobEntry, r: AluResult)
    requires InFlight(q, r) && WellFormed(q) && RegsMatch(rf, committed, a.regs) && ValueReady(rf, e, r, a.mem)
    requires r.isLoad ==> e.completed && !e.exception
    ensures RegsMatch(rf, Mapped(committed, r.uop.rename), Written(q, a))
  {
    hide LoadValue, ReadBeat, RegsMatch, Holds;
    var n := r.uop.rename;
    if n.pdst != 0 {
      assert Loaded(q, a.mem) == Loaded(r, a.mem);
      RegsMatchCommit(rf, committed, a.regs, n.ldst, n.pdst, ResultValue(q, a.mem));
    }
  }

  /** The stream after a commit: a store has been sent, exactly as the machine performs it. */
  ghost predicate SentAs(log: seq<DmemRequest>, log': seq<DmemRequest>, r: AluResult) {
    if r.isStore then
      |log'| == |log| + 1 && log'[..|log|] == log
      && log'[|log|].isStore && log'[|log|].address == r.address && log'[|log|].data == r.storeData && log'[|log|].size == r.size
    else log' == log
  }

  lemma SentMemory(m0: Mem, log: seq<DmemRequest>, log': seq<DmemRequest>, r: AluResult)
    requires SentAs(log, log', r)
    ensures MemAfter(m0, log') == Stored(r, MemAfter(m0, log))
  {
    hide Write;
    if r.isStore {
      assert log' == log + [log'[|log|]];
      MemAfterOne(m0, log, log'[|log|]);
    }
  }

  /** The oldest uop commits: the machine has executed one more instruction. */
  lemma Commit(course: Course, rf: seq<bv64>, committed: seq<nat>, log: seq<DmemRequest>, w: seq<RobEntry>, h: Hist,
               log': seq<DmemRequest>, h': Hist)
    requires Aligned(course, rf, committed, log, w, h) && |w| == |Residents(h)| > 0
    requires var r, e := Residents(h)[0], w[0];
             && !r.uop.exception && (r.isLoad ==> e.completed && !e.exception) && SentAs(log, log', r)
    requires h'.alloc == h.alloc && h'.fates == h.fates + [Committed] && h'.dead == h.dead && h'.fetched == h.fetched
    requires h'.commits == h.commits + [Record(course(|h.fates|).next, course(|h.fates|).machine.arch.mem)]
    ensures Aligned(course, rf, Mapped(committed, Residents(h)[0].uop.rename), log', w[1..], h')
  {
    hide RegsMatch, InFlight, ValueReady, MemAfter, Successor, Expected, Record, Written, Mapped, Stored, SentAs,
         Regs, FlightOk, PathOk, Live;
    var rs, s := Residents(h), course(|h.fates|).machine;
    assert Residents(h') == rs[1..];
    Oldest(course, rf, w, rs, |h.fates|);
    MachineStep(course, |h.fates|, rs[0]);
    assert Continues(course, |h.fates|);
    RegistersCommit(course(|h.fates|).next, s.arch, rf, committed, w[0], rs[0]);
    SentMemory(Origin(course), log, log', rs[0]);
    FlightDrop(course, rf, w, rs, |h.fates|, Expected(h.fetched));
  }

  /** Nothing is before the oldest resident. */
  lemma Oldest(course: Course, rf: seq<bv64>, w: seq<RobEntry>, rs: seq<AluResult>, base: nat)
    requires FlightOk(course, rf, w, rs, base) && |w| > 0 && |rs| > 0
    ensures Follows(course, rf, base, w[0], rs[0])
  {
    hide Follows, Goes;
    assert Live(w, rs, 0);
    FlightAt(course, rf, w, rs, base, 0);
  }

  /** An ECALL retires without effect. */
  lemma Pass(course: Course, rf: seq<bv64>, committed: seq<nat>, log: seq<DmemRequest>, w: seq<RobEntry>, h: Hist, h': Hist)
    requires Aligned(course, rf, committed, log, w, h) && |w| == |Residents(h)| > 0
    requires var r := Residents(h)[0]; r.uop.exception && r.uop.uopc == UOPC_ECALL && !r.isLoad
    requires h'.alloc == h.alloc && h'.fates == h.fates + [EcallRetired] && h'.dead == h.dead && h'.fetched == h.fetched && h'.commits == h.commits
    ensures Aligned(course, rf, committed, log, w[1..], h')
  {
    hide RegsMatch, InFlight, ValueReady, MemAfter, Successor, Expected, Record, Written, Mapped, Stored, Regs,
         FlightOk, PathOk, Live;
    var rs := Residents(h);
    assert Residents(h') == rs[1..];
    Oldest(course, rf, w, rs, |h.fates|);
    MachineStep(course, |h.fates|, rs[0]);
    FlightDrop(course, rf, w, rs, |h.fates|, Expected(h.fetched));
  }

  /** The stream and the record of a commit at the head. */
  lemma CommitSends(b: Core, h: Hist, i: StepIn, e: RobEntry, r: AluResult)
    requires e == EntryAt(b.rob, b.rob.head) && SettledEntry(e, r) && ResultOk(r)
    requires if r.isStore then HeadActionOf(b, i).SendsStore? else HeadActionOf(b, i).Retires?
    ensures SentAs(b.dmemLog, CommitHead(b, i).dmemLog, r)
  {
    hide HeadActionOf, CommitHead, EntryAt, WellClassified;
    CommitHeadLog(b, i);
  }

  lemma HeadRecord(b: Core, i: StepIn, e: RobEntry)
    requires e == EntryAt(b.rob, b.rob.head) && b.rob.head < |b.rob.entries|
    requires HeadActionOf(b, i).SendsStore? || HeadActionOf(b, i).Retires?
    ensures CommitHead(b, i).rob.lastCommit == CommitRecord(b, e)
         || CommitHead(b, i).rob.lastCommit == CommitRecord(b, e.(requestSent := true, completed := true))
  {
    hide HeadActionOf, CommitHead, CommitRecord, SendStore;
    if HeadActionOf(b, i).SendsStore? {
      SentRecord(b, i);
      SameRf(b, e.(requestSent := true, completed := true));
    } else {
      RetiredRecord(b, i);
    }
  }

  lemma SameRf(b: Core, e: RobEntry)
    ensures CommitRecord(SendStore(b), e) == CommitRecord(b, e)
  {
    hide ReadReg, SetEntry, EntryAt, StoreRequest;
  }

  lemma HeadAligned(course: Course, b: Core, h: Hist, i: StepIn, raw: bool)
    requires ResidentsOk(b.rob, h, raw) && CoreAligned(course, Sys(b, h))
    requires HeadActionOf(b, i).SendsStore? || HeadActionOf(b, i).Retires?
    ensures CoreAligned(course, Sys(CommitHead(b, i), RetireHist(b, h, i, CommitHead(b, i).rob.lastCommit)))
  {
    hide RobOk, Window, ResultsOk, HeadActionOf, CommitHead, StoreEvent, SettledEntry, EntryOk, ResultOk,
         CommitMapping, Mapped, WindowOk;
    hide RegsMatch, MemAfter, Successor, Expected, Record, Stored, SentAs, Regs, ValueReady, InFlight, CommitRecord,
         EntryAt, FlightOk, PathOk, ArchOk, Live;
    var c := CommitHead(b, i);
    CommitHeadKeeps(b, h, i, raw, c.rob.lastCommit);
    HeadCases(b, h, i, raw);
    HeadEntry(b.rob, h, raw);
    var w, r := Window(b.rob), Residents(h)[0];
    var a := course(|h.fates|).machine.arch;
    CommitHeadFrame(b, i);
    CommitHeadRename(b, i);
    CommittedAfter(b.ren, w[0].uop.rename);
    SameRegisters(w[0], r);
    LoadOrStore(r);
    CommitSends(b, h, i, w[0], r);
    HeadRecord(b, i, w[0]);
    Oldest(course, b.rf, w, Residents(h), |h.fates|);
    assert Continues(course, |h.fates|);
    RecordMatches(course(|h.fates|).next, a.mem, b, w[0], r);
    Commit(course, b.rf, b.ren.committed, b.dmemLog, w, h, c.dmemLog, RetireHist(b, h, i, c.rob.lastCommit));
  }

  lemma EcallAligned(course: Course, b: Core, h: Hist, i: StepIn, raw: bool, ce: CommitEntry)
    requires ResidentsOk(b.rob, h, raw) && CoreAligned(course, Sys(b, h))
    requires HeadActionOf(b, i).RetiresEcall?
    ensures CoreAligned(course, Sys(CommitHead(b, i), RetireHist(b, h, i, ce)))
  {
    hide RobOk, Window, WindowOk, ResultsOk, HeadActionOf, CommitHead, StoreEvent, SettledEntry, EntryOk,
         CommitMapping, Aligned;
    var c := CommitHead(b, i);
    CommitHeadKeeps(b, h, i, raw, ce);
    HeadCases(b, h, i, raw);
    CommitHeadFrame(b, i);
    CommitHeadRename(b, i);
    CommitHeadLog(b, i);
    Pass(course, b.rf, b.ren.committed, b.dmemLog, Window(b.rob), h, RetireHist(b, h, i, ce));
  }

  /** Completing the executed uop changes no value. */
  lemma CompleteAligned(course: Course, m: Sys)
    requires ResidentsOk(m.core.rob, m.hist, m.core.alu.valid) && IsYoungest(m.core.alu, m.hist) && CoreAligned(course, m)
    ensures CoreAligned(course, Sys(BeforeCommitHead(m.core), m.hist))
  {
    hide ResidentsOk, IsYoungest, Window, Aligned, Complete, CompletedEntry, FreshEntry, ResultOk;
    var s, h := m.core, m.hist;
    CompleteKeeps(s, h);
    CompleteFrame(s.(rob := s.rob.(commitValid := false)));
    AnyPointers(BeforeCommitHead(s).rob, h, Unsettled(s.alu));
    if s.alu.valid && !s.alu.memoryValid && Count(s.rob) > 0 {
      RawEntry(s, h);
      NotCompleted(s.alu);
      QuietChange(course, s.rf, s.ren.committed, s.dmemLog, Window(s.rob), h, Count(s.rob) - 1, CompletedEntry(s.alu));
    }
  }

  lemma NotCompleted(r: AluResult)
    ensures !CompletedEntry(r).completed && CompletedEntry(r).exception == FreshEntry(r.uop).exception
  {
  }

  lemma RetireAligned(course: Course, b: Core, h: Hist, i: StepIn, raw: bool)
    requires ResidentsOk(b.rob, h, raw) && CoreAligned(course, Sys(b, h))
    ensures CoreAligned(course, Sys(CommitHead(b, i), RetireHist(b, h, i, CommitHead(b, i).rob.lastCommit)))
  {
    hide ResidentsOk, Aligned, HeadActionOf, Window, StoreEvent, CommitHead;
    AnyPointers(b.rob, h, raw);
    if Leaves(HeadActionOf(b, i)) {
      HeadCases(b, h, i, raw);
      if HeadActionOf(b, i).RetiresEcall? {
        EcallAligned(course, b, h, i, raw, CommitHead(b, i).rob.lastCommit);
      } else {
        HeadAligned(course, b, h, i, raw);
      }
    } else {
      CommitHeadKeeps(b, h, i, raw, CommitHead(b, i).rob.lastCommit);
      AnyPointers(CommitHead(b, i).rob, RetireHist(b, h, i, CommitHead(b, i).rob.lastCommit), raw);
      CommitHeadFrame(b, i);
      CommitHeadRename(b, i);
      CommitHeadLog(b, i);
    }
  }

  /** Commit without a redirect keeps the agreement. */
  lemma CommitAligned(course: Course, m: Sys, i: StepIn)
    requires ResidentsOk(m.core.rob, m.hist, m.core.alu.valid) && IsYoungest(m.core.alu, m.hist) && CoreAligned(course, m)
    requires !Redirecting(m.core)
    ensures CoreAligned(course, CommitSys(m, i))
  {
    hide ResidentsOk, CoreAligned, Complete, CommitHead, HeadActionOf, RetireHist, WantsRedirect;
    CompleteKeeps(m.core, m.hist);
    CompleteAligned(course, m);
    RetireAligned(course, BeforeCommitHead(m.core), m.hist, i, Unsettled(m.core.alu));
  }

  /** Commit in a step that redirects, with nothing left to discard. */
  lemma FlushAligned(course: Course, m: Sys, i: StepIn)
    requires ResidentsOk(m.core.rob, m.hist, m.core.alu.valid) && CoreAligned(course, m) && Redirecting(m.core)
    requires |m.hist.fates| == |m.hist.alloc|
    ensures CoreAligned(course, CommitSys(m, i))
  {
    hide ResidentsOk, Aligned, FlushRob;
    FlushKeeps(m.core.rob, m.hist, m.core.alu.valid, false);
    AnyPointers(FlushRob(m.core.rob), FlushHist(m.hist), false);
    assert Residents(m.hist) == [] && Pdsts([]) == multiset{};
    assert Window(FlushRob(m.core.rob)) == [] && Window(m.core.rob) == [] by { AnyWindow(m.core.rob, m.hist, m.core.alu.valid); }
    assert FlushHist(m.hist) == m.hist by { assert m.hist.fates + seq(0, _ => Flushed) == m.hist.fates; }
    CommitFrame(m.core, i);
  }

  lemma AnyWindow(rob: Rob, h: Hist, raw: bool)
    requires ResidentsOk(rob, h, raw) && |h.fates| == |h.alloc|
    ensures Pointers(rob) && Window(rob) == []
  {
  }
}
