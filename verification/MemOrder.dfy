/** The load/store unit in every run: memory requests leave in program order, each for one uop, and
    a response reaches only the load it was requested for. */
module MemOrder {
  import opened BoomTypes
  import opened Pipeline
  import opened Frames
  import opened RobWindow
  import opened IssueQueue
  import opened History
  import opened Residency

  // ---- The search for older stores

  /** Some entry from the j-th on, but before the k-th, is a store. */
  ghost predicate StoreInWindow(w: seq<RobEntry>, from: nat, to: nat) {
    exists j :: from <= j < to && j < |w| && w[j].uop.ctrl.isSta
  }

  /** A live store at the k-th slot. */
  lemma SlotStore(rob: Rob, k: nat)
    requires RobOk(rob) && k < ROB_DEPTH
    ensures EntryAt(rob, Slot(rob, k)).valid && EntryAt(rob, Slot(rob, k)).uop.ctrl.isSta
            <==> k < Count(rob) && Window(rob)[k].uop.ctrl.isSta
  {
  }

  lemma StoreInWindowNext(w: seq<RobEntry>, from: nat, to: nat)
    requires from < to
    ensures StoreInWindow(w, from, to) <==> (from < |w| && w[from].uop.ctrl.isSta) || StoreInWindow(w, from + 1, to)
  {
  }

  lemma {:induction false} StoreBeforeExact(rob: Rob, from: nat, target: nat)
    requires RobOk(rob) && target < ROB_DEPTH && from <= Distance(rob, target)
    ensures StoreBefore(rob, Slot(rob, from), target, ROB_DEPTH - from) <==> StoreInWindow(Window(rob), from, Distance(rob, target))
    decreases ROB_DEPTH - from
  {
    assert Pointers(rob);
    hide RobOk, Window, EntryAt, StoreInWindow, NthSlot, StoreBefore;
    var d := Distance(rob, target);
    SearchStep(rob, Slot(rob, from), target, ROB_DEPTH - from);
    if from < d {
      SlotNext(rob, from, target);
      StoreBeforeExact(rob, from + 1, target);
      SlotStore(rob, from);
      StoreInWindowNext(Window(rob), from, d);
    } else {
      NoneBetween(Window(rob), d);
    }
  }

  lemma SearchStep(rob: Rob, idx: nat, target: nat, steps: nat)
    requires steps > 0
    ensures StoreBefore(rob, idx, target, steps)
            <==> idx != target && ((EntryAt(rob, idx).valid && EntryAt(rob, idx).uop.ctrl.isSta)
                                   || StoreBefore(rob, NextRob(idx), target, steps - 1))
  {
  }

  /** The slots before the target's, one after the other. */
  lemma SlotNext(rob: Rob, k: nat, target: nat)
    requires Pointers(rob) && target < ROB_DEPTH && k < Distance(rob, target)
    ensures Slot(rob, k) != target && NextRob(Slot(rob, k)) == Slot(rob, k + 1)
  {
  }

  lemma NoneBetween(w: seq<RobEntry>, d: nat)
    ensures !StoreInWindow(w, d, d)
  {
  }

  /** The circular search answers exactly whether an older store is in the buffer. */
  lemma OlderStoreExact(rob: Rob, idx: nat)
    requires RobOk(rob) && idx < ROB_DEPTH
    ensures OlderStoreInRob(rob, idx) <==> StoreInWindow(Window(rob), 0, Distance(rob, idx))
  {
    assert Slot(rob, 0) == rob.head;
    StoreBeforeExact(rob, 0, idx);
  }

  // ---- The invariant

  /** Requests are in program order and their transaction ids grow. */
  ghost predicate InOrder(mem: seq<MemEvent>) {
    forall p, q :: 0 <= p < q < |mem| ==> mem[p].seqNo < mem[q].seqNo && mem[p].req.txId < mem[q].req.txId
  }

  /** A request carries exactly what its uop computed at execute; a store request belongs to a
      committed uop. */
  ghost predicate EventOk(e: MemEvent, alloc: seq<AluResult>, fates: seq<Fate>) {
    && e.seqNo < |alloc|
    && var r := alloc[e.seqNo];
    && e.req.address == r.address && e.req.size == r.size && e.req.mask == r.mask && e.req.robIdx == r.uop.robIdx
    && if e.req.isStore then
         && r.isStore && e.req.data == r.storeData && !e.req.signedLoad && e.req.committed
         && e.seqNo < |fates| && fates[e.seqNo] == Committed
       else r.isLoad && e.req.data == 0 && e.req.signedLoad == r.signedLoad && !e.req.committed
  }

  /** The request stream is the list of events. */
  ghost predicate Streamed(log: seq<DmemRequest>, mem: seq<MemEvent>) {
    |log| == |mem| && forall p :: 0 <= p < |mem| ==> log[p] == mem[p].req
  }

  /** There is a request for the n-th uop. */
  ghost predicate Requested(mem: seq<MemEvent>, n: nat, isStore: bool) {
    exists p :: 0 <= p < |mem| && mem[p].seqNo == n && mem[p].req.isStore == isStore
  }

  ghost predicate RequestedAs(mem: seq<MemEvent>, n: nat, tx: nat) {
    exists p :: 0 <= p < |mem| && mem[p].seqNo == n && !mem[p].req.isStore && mem[p].req.txId == tx
  }

  /** The k-th resident still has a request to send. */
  predicate Unsent(w: seq<RobEntry>, rs: seq<AluResult>, k: nat)
    requires |w| == |rs| && k < |w|
  {
    rs[k].isStore || (rs[k].isLoad && !w[k].requestSent)
  }

  ghost predicate EventsOk(lsu: Lsu, log: seq<DmemRequest>, h: Hist) {
    && InOrder(h.mem) && Streamed(log, h.mem)
    && (forall p :: 0 <= p < |h.mem| ==> EventOk(h.mem[p], h.alloc, h.fates) && h.mem[p].req.txId < lsu.nextTx)
    && (forall n :: 0 <= n < |h.fates| && h.fates[n] == Committed && n < |h.alloc| && h.alloc[n].memoryValid ==>
          Requested(h.mem, n, h.alloc[n].isStore))
  }

  /** What residents have sent is in the stream; what they have yet to send is younger than all of it. */
  ghost predicate PendingOk(w: seq<RobEntry>, rs: seq<AluResult>, base: nat, mem: seq<MemEvent>) {
    && |w| == |rs|
    && (forall k :: 0 <= k < |w| && Unsent(w, rs, k) ==> forall p :: 0 <= p < |mem| ==> mem[p].seqNo < base + k)
    && (forall k :: 0 <= k < |w| && rs[k].isLoad && w[k].requestSent ==> RequestedAs(mem, base + k, w[k].txId))
  }

  /** The outstanding load, if any, is `loadSeq`: either it is still resident, in the slot the unit
      remembers, or it has been flushed and nothing sent has been allocated since. */
  ghost predicate HandshakeOk(lsu: Lsu, w: seq<RobEntry>, rs: seq<AluResult>, base: nat, mem: seq<MemEvent>, loadSeq: nat) {
    && |w| == |rs|
    && (lsu.pending ==> RequestedAs(mem, loadSeq, lsu.pendingTx))
    && (lsu.pending && loadSeq >= base ==>
          && loadSeq - base < |w| && rs[loadSeq - base].isLoad
          && Outstanding(w[loadSeq - base], lsu))
    && (lsu.pending && loadSeq < base ==> forall k :: 0 <= k < |w| ==> !w[k].requestSent)
    && (forall k :: 0 <= k < |w| && rs[k].isLoad && w[k].requestSent && !w[k].completed ==> lsu.pending && loadSeq == base + k)
  }

  predicate Outstanding(e: RobEntry, lsu: Lsu) {
    e.requestSent && !e.completed && e.isLoad && e.txId == lsu.pendingTx && e.uop.robIdx == lsu.pendingIdx
  }

  ghost predicate MemOk(lsu: Lsu, log: seq<DmemRequest>, w: seq<RobEntry>, h: Hist) {
    && |h.fates| <= |h.alloc|
    && EventsOk(lsu, log, h)
    && PendingOk(w, Residents(h), |h.fates|, h.mem)
    && HandshakeOk(lsu, w, Residents(h), |h.fates|, h.mem, h.loadSeq)
  }

  /** Entry changes that touch neither what was sent nor whether it was answered. */
  lemma QuietUpdate(lsu: Lsu, log: seq<DmemRequest>, w: seq<RobEntry>, h: Hist, k: nat, e: RobEntry)
    requires MemOk(lsu, log, w, h) && k < |w|
    requires e.requestSent == w[k].requestSent == false
    ensures MemOk(lsu, log, w[k := e], h)
  {
    hide EventsOk, RequestedAs;
    var w' := w[k := e];
    assert forall j :: 0 <= j < |w| ==> Unsent(w', Residents(h), j) == Unsent(w, Residents(h), j);
    assert PendingOk(w', Residents(h), |h.fates|, h.mem);
    assert HandshakeOk(lsu, w', Residents(h), |h.fates|, h.mem, h.loadSeq);
    assert EventsOk(lsu, log, h);
  }

  /** The outstanding load is answered. */
  lemma AnswerUpdate(lsu: Lsu, log: seq<DmemRequest>, w: seq<RobEntry>, h: Hist, k: nat, e: RobEntry)
    requires MemOk(lsu, log, w, h) && k < |w| && lsu.pending && h.loadSeq == |h.fates| + k
    requires e.requestSent && e.completed && e.txId == w[k].txId
    ensures MemOk(lsu.(pending := false, pendingTx := 0), log, w[k := e], h)
  {
    hide RequestedAs, EventOk, InOrder, Streamed, Requested;
    var w', idle := w[k := e], lsu.(pending := false, pendingTx := 0);
    assert forall j :: 0 <= j < |w| ==> Unsent(w', Residents(h), j) == Unsent(w, Residents(h), j);
    assert PendingOk(w', Residents(h), |h.fates|, h.mem);
    assert HandshakeOk(idle, w', Residents(h), |h.fates|, h.mem, h.loadSeq);
    assert EventsOk(idle, log, h);
  }

  /** A response for a flushed load is dropped. */
  lemma AnswerDropped(lsu: Lsu, log: seq<DmemRequest>, w: seq<RobEntry>, h: Hist)
    requires MemOk(lsu, log, w, h) && lsu.pending && h.loadSeq < |h.fates|
    ensures MemOk(lsu.(pending := false, pendingTx := 0), log, w, h)
  {
    hide RequestedAs, EventOk, InOrder, Streamed, Requested;
  }

  /** A load whose older memory uops have all been sent may be sent. */
  lemma LoadSent(lsu: Lsu, log: seq<DmemRequest>, w: seq<RobEntry>, h: Hist, k: nat, ev: MemEvent)
    requires MemOk(lsu, log, w, h) && k < |w| && !lsu.pending
    requires Unsent(w, Residents(h), k) && w[k].isLoad && Residents(h)[k].isLoad && !Residents(h)[k].isStore && !w[k].completed
    requires forall j :: 0 <= j < k ==> !Unsent(w, Residents(h), j)
    requires ev.seqNo == |h.fates| + k && ev.req.txId == lsu.nextTx && !ev.req.isStore && EventOk(ev, h.alloc, h.fates)
    ensures MemOk(Lsu(lsu.nextTx + 1, true, lsu.nextTx, w[k].uop.robIdx), log + [ev.req],
                  w[k := w[k].(requestSent := true, txId := lsu.nextTx)], h.(loadSeq := ev.seqNo, mem := h.mem + [ev]))
  {
    var m, h' := h.mem + [ev], h.(loadSeq := ev.seqNo, mem := h.mem + [ev]);
    var lsu', w' := Lsu(lsu.nextTx + 1, true, lsu.nextTx, w[k].uop.robIdx), w[k := w[k].(requestSent := true, txId := lsu.nextTx)];
    assert m[|h.mem|] == ev && Residents(h') == Residents(h);
    forall n, s | Requested(h.mem, n, s) ensures Requested(m, n, s) { RequestedGrows(h.mem, ev, n, s); }
    forall n, t | RequestedAs(h.mem, n, t) ensures RequestedAs(m, n, t) { RequestedAsGrows(h.mem, ev, n, t); }
    assert RequestedAs(m, ev.seqNo, lsu.nextTx);
    hide EventOk, Requested, RequestedAs;
    assert EventsOk(lsu', log + [ev.req], h');
    assert forall j :: 0 <= j < |w| ==> Unsent(w', Residents(h), j) == (Unsent(w, Residents(h), j) && j != k);
    assert PendingOk(w', Residents(h), |h.fates|, m);
    assert HandshakeOk(lsu', w', Residents(h), |h.fates|, m, ev.seqNo);
  }

  lemma RequestedGrows(mem: seq<MemEvent>, ev: MemEvent, n: nat, s: bool)
    requires Requested(mem, n, s)
    ensures Requested(mem + [ev], n, s)
  {
    var p :| 0 <= p < |mem| && mem[p].seqNo == n && mem[p].req.isStore == s;
    assert (mem + [ev])[p] == mem[p];
  }

  lemma RequestedAsGrows(mem: seq<MemEvent>, ev: MemEvent, n: nat, t: nat)
    requires RequestedAs(mem, n, t)
    ensures RequestedAs(mem + [ev], n, t)
  {
    var p :| 0 <= p < |mem| && mem[p].seqNo == n && !mem[p].req.isStore && mem[p].req.txId == t;
    assert (mem + [ev])[p] == mem[p];
  }

  /** A new resident has sent nothing. */
  lemma ResidentAdded(lsu: Lsu, log: seq<DmemRequest>, w: seq<RobEntry>, h: Hist, e: RobEntry, r: AluResult)
    requires MemOk(lsu, log, w, h) && !e.requestSent
    ensures MemOk(lsu, log, w + [e], h.(alloc := h.alloc + [r]))
  {
    var h', w', rs := h.(alloc := h.alloc + [r]), w + [e], Residents(h);
    assert Residents(h') == rs + [r];
    hide Requested, RequestedAs, InOrder, Streamed;
    assert EventsOk(lsu, log, h');
    assert forall j :: 0 <= j < |w| ==> Unsent(w', rs + [r], j) == Unsent(w, rs, j);
    assert forall p :: 0 <= p < |h.mem| ==> EventOk(h.mem[p], h.alloc, h.fates);
    assert PendingOk(w', rs + [r], |h.fates|, h.mem);
    assert HandshakeOk(lsu, w', rs + [r], |h.fates|, h.mem, h.loadSeq);
  }

  /** Dropping the oldest resident, once it has nothing left to send and no answer to wait for. */
  lemma OldestDropped(lsu: Lsu, w: seq<RobEntry>, rs: seq<AluResult>, base: nat, mem: seq<MemEvent>, loadSeq: nat)
    requires PendingOk(w, rs, base, mem) && HandshakeOk(lsu, w, rs, base, mem, loadSeq) && |w| > 0
    requires rs[0].isLoad ==> w[0].requestSent && w[0].completed
    ensures PendingOk(w[1..], rs[1..], base + 1, mem) && HandshakeOk(lsu, w[1..], rs[1..], base + 1, mem, loadSeq)
  {
    hide RequestedAs;
    var w', rs' := w[1..], rs[1..];
    assert forall j :: 0 <= j < |w'| ==> Unsent(w', rs', j) == Unsent(w, rs, j + 1);
    assert PendingOk(w', rs', base + 1, mem);
    assert HandshakeOk(lsu, w', rs', base + 1, mem, loadSeq);
  }

  lemma DroppedResidents(h: Hist, f: Fate)
    requires |h.fates| < |h.alloc|
    ensures Residents(h.(fates := h.fates + [f])) == Residents(h)[1..] && Residents(h)[0] == h.alloc[|h.fates|]
  {
  }

  /** The oldest resident leaves without a request: an ECALL, a uop that does not touch memory, or an
      answered load. */
  lemma ResidentRetired(lsu: Lsu, log: seq<DmemRequest>, w: seq<RobEntry>, h: Hist, f: Fate)
    requires MemOk(lsu, log, w, h) && |w| > 0 && !Residents(h)[0].isStore && ResultOk(Residents(h)[0])
    requires Residents(h)[0].isLoad ==> w[0].requestSent && w[0].completed
    ensures MemOk(lsu, log, w[1..], h.(fates := h.fates + [f]))
  {
    hide PendingOk, HandshakeOk, EventsOk;
    var rs := Residents(h);
    assert |w| == |rs| by { SameSize(w, rs, |h.fates|, h.mem); }
    DroppedResidents(h, f);
    OldestDropped(lsu, w, rs, |h.fates|, h.mem, h.loadSeq);
    RetiredEvents(lsu, log, w, h, f);
  }

  lemma SameSize(w: seq<RobEntry>, rs: seq<AluResult>, base: nat, mem: seq<MemEvent>)
    requires PendingOk(w, rs, base, mem)
    ensures |w| == |rs|
  {
  }

  lemma RetiredEvents(lsu: Lsu, log: seq<DmemRequest>, w: seq<RobEntry>, h: Hist, f: Fate)
    requires EventsOk(lsu, log, h) && |h.fates| < |h.alloc| && PendingOk(w, Residents(h), |h.fates|, h.mem) && |w| > 0
    requires var r := h.alloc[|h.fates|]; !r.isStore && ResultOk(r) && (r.isLoad ==> w[0].requestSent)
    ensures EventsOk(lsu, log, h.(fates := h.fates + [f]))
  {
    hide InOrder, Streamed;
    var n := |h.fates|;
    if h.alloc[n].isLoad {
      assert RequestedAs(h.mem, n + 0, w[0].txId);
      var p :| 0 <= p < |h.mem| && h.mem[p].seqNo == n && !h.mem[p].req.isStore && h.mem[p].req.txId == w[0].txId;
      assert Requested(h.mem, n, false);
    }
    hide Requested, RequestedAs, PendingOk, ResultOk;
  }

  /** The oldest resident is a store and its request is sent as it commits. */
  lemma StoreRetired(lsu: Lsu, log: seq<DmemRequest>, w: seq<RobEntry>, h: Hist, ev: MemEvent)
    requires MemOk(lsu, log, w, h) && |w| > 0 && Residents(h)[0].isStore && !Residents(h)[0].isLoad
    requires ev.seqNo == |h.fates| && ev.req.txId == lsu.nextTx && ev.req.isStore && EventOk(ev, h.alloc, h.fates + [Committed])
    ensures MemOk(lsu.(nextTx := lsu.nextTx + 1), log + [ev.req], w[1..], h.(fates := h.fates + [Committed], mem := h.mem + [ev]))
  {
    hide PendingOk, HandshakeOk, EventsOk, EventOk;
    var rs := Residents(h);
    assert |w| == |rs| by { SameSize(w, rs, |h.fates|, h.mem); }
    DroppedResidents(h, Committed);
    StoreEvents(lsu, log, w, h, ev);
    StorePending(lsu, w, rs, |h.fates|, h.mem, h.loadSeq);
    OldestDropped(lsu.(nextTx := lsu.nextTx + 1), w, rs, |h.fates|, h.mem, h.loadSeq);
    LaterEvent(lsu.(nextTx := lsu.nextTx + 1), w[1..], rs[1..], |h.fates| + 1, h.mem, h.loadSeq, ev);
  }

  /** The transaction counter plays no part in the handshake. */
  lemma StorePending(lsu: Lsu, w: seq<RobEntry>, rs: seq<AluResult>, base: nat, mem: seq<MemEvent>, loadSeq: nat)
    requires HandshakeOk(lsu, w, rs, base, mem, loadSeq)
    ensures HandshakeOk(lsu.(nextTx := lsu.nextTx + 1), w, rs, base, mem, loadSeq)
  {
    hide RequestedAs;
  }

  /** A request older than every resident. */
  lemma LaterEvent(lsu: Lsu, w: seq<RobEntry>, rs: seq<AluResult>, base: nat, mem: seq<MemEvent>, loadSeq: nat, ev: MemEvent)
    requires PendingOk(w, rs, base, mem) && HandshakeOk(lsu, w, rs, base, mem, loadSeq) && ev.seqNo < base
    ensures PendingOk(w, rs, base, mem + [ev]) && HandshakeOk(lsu, w, rs, base, mem + [ev], loadSeq)
  {
    forall k, t | RequestedAs(mem, k, t) ensures RequestedAs(mem + [ev], k, t) { RequestedAsGrows(mem, ev, k, t); }
    hide RequestedAs;
  }

  lemma StoreEvents(lsu: Lsu, log: seq<DmemRequest>, w: seq<RobEntry>, h: Hist, ev: MemEvent)
    requires EventsOk(lsu, log, h) && |h.fates| < |h.alloc| && PendingOk(w, Residents(h), |h.fates|, h.mem) && |w| > 0
    requires h.alloc[|h.fates|].isStore
    requires ev.seqNo == |h.fates| && ev.req.txId == lsu.nextTx && ev.req.isStore && EventOk(ev, h.alloc, h.fates + [Committed])
    ensures EventsOk(lsu.(nextTx := lsu.nextTx + 1), log + [ev.req], h.(fates := h.fates + [Committed], mem := h.mem + [ev]))
  {
    var h', n := h.(fates := h.fates + [Committed], mem := h.mem + [ev]), |h.fates|;
    assert Unsent(w, Residents(h), 0) && h'.mem[|h.mem|] == ev;
    forall k, s | Requested(h.mem, k, s) ensures Requested(h'.mem, k, s) { RequestedGrows(h.mem, ev, k, s); }
    assert Requested(h'.mem, n, true);
    assert forall p :: 0 <= p < |h.mem| ==> EventOk(h.mem[p], h.alloc, h'.fates);
    hide Requested, RequestedAs, EventOk;
  }

  /** All residents are flushed. */
  lemma ResidentsFlushed(lsu: Lsu, log: seq<DmemRequest>, w: seq<RobEntry>, h: Hist)
    requires MemOk(lsu, log, w, h)
    ensures MemOk(lsu, log, [], FlushHist(h))
  {
    hide Requested, InOrder, Streamed, Pdsts;
    var h' := FlushHist(h);
    assert Residents(h') == [];
    assert forall p :: 0 <= p < |h.mem| ==> EventOk(h.mem[p], h.alloc, h'.fates);
    if lsu.pending {
      var p :| 0 <= p < |h.mem| && h.mem[p].seqNo == h.loadSeq && !h.mem[p].req.isStore && h.mem[p].req.txId == lsu.pendingTx;
      assert EventOk(h.mem[p], h.alloc, h.fates);
    }
    hide EventOk;
    assert EventsOk(lsu, log, h');
  }

  // ---- The stages

  /** A response that writes reaches the very uop its transaction id was issued for, still resident. */
  lemma DeliveryTarget(s: Core, h: Hist, resp: Option<DmemResponse>, raw: bool)
    requires ResidentsOk(s.rob, h, raw) && MemOk(s.lsu, s.dmemLog, Window(s.rob), h)
    requires AcceptsResponse(s.lsu, resp)
    ensures AwaitsData(EntryAt(s.rob, s.lsu.pendingIdx)) <==> h.loadSeq >= |h.fates|
    ensures h.loadSeq >= |h.fates| ==>
              var k := h.loadSeq - |h.fates|;
              k < Count(s.rob) && Slot(s.rob, k) == s.lsu.pendingIdx && EntryAt(s.rob, s.lsu.pendingIdx) == Window(s.rob)[k]
              && Residents(h)[k].isLoad && Window(s.rob)[k].txId == resp.value.txId && Window(s.rob)[k].requestSent
              && !Window(s.rob)[k].completed
  {
    hide EventsOk, PendingOk, RequestedAs, ResultsOk, RobOk, Window, SettledEntry, EntryOk;
    var idx := s.lsu.pendingIdx;
    if h.loadSeq >= |h.fates| {
      EntryIdentity(s.rob, h.loadSeq - |h.fates|);
    } else if EntryAt(s.rob, idx).valid {
      ValidIsInWindow(s.rob, idx);
    }
  }

  lemma RespondMem(s: Core, h: Hist, resp: Option<DmemResponse>, raw: bool)
    requires ResidentsOk(s.rob, h, raw) && MemOk(s.lsu, s.dmemLog, Window(s.rob), h)
    ensures var d := LsuRespond(s, resp); Pointers(d.rob) && MemOk(d.lsu, d.dmemLog, Window(d.rob), h)
  {
    hide MemOk, LoadedValue, ResultsOk, RobOk, Window, SettledEntry, EntryOk, SetEntry;
    if AcceptsResponse(s.lsu, resp) {
      DeliveryTarget(s, h, resp, raw);
      assert s.lsu.pending && |h.fates| <= |h.alloc|;
      if h.loadSeq >= |h.fates| {
        var k := h.loadSeq - |h.fates|;
        var e := DeliveredEntry(Window(s.rob)[k], resp.value);
        RespondKeeps(s, h, resp, raw);
        DeliveredWindow(s, h, resp, raw, k);
        AnswerUpdate(s.lsu, s.dmemLog, Window(s.rob), h, k, e);
      } else {
        AnswerDropped(s.lsu, s.dmemLog, Window(s.rob), h);
      }
    }
  }

  lemma DeliveredWindow(s: Core, h: Hist, resp: Option<DmemResponse>, raw: bool, k: nat)
    requires ResidentsOk(s.rob, h, raw) && AcceptsResponse(s.lsu, resp) && k < Count(s.rob)
    requires Slot(s.rob, k) == s.lsu.pendingIdx && AwaitsData(Window(s.rob)[k])
    ensures ResidentsOk(LsuRespond(s, resp).rob, h, raw)
    ensures Window(LsuRespond(s, resp).rob) == Window(s.rob)[k := DeliveredEntry(Window(s.rob)[k], resp.value)]
  {
    hide LoadValue, ResultsOk, RobOk;
    RespondKeeps(s, h, resp, raw);
    EntryIdentity(s.rob, k);
    SetWindow(s.rob, k, DeliveredEntry(Window(s.rob)[k], resp.value));
  }

  lemma EnqueueMem(s: Core, h: Hist)
    requires ResidentsOk(s.rob, h, Unsettled(s.alu)) && IsYoungest(s.alu, h) && MemOk(s.lsu, s.dmemLog, Window(s.rob), h)
    ensures Pointers(LsuEnqueue(s).rob) && MemOk(s.lsu, s.dmemLog, Window(LsuEnqueue(s).rob), h)
  {
    hide MemOk, ResultsOk, RobOk, Window, SettledEntry, LsuEnqueue;
    EnqueueKeeps(s, h);
    if Unsettled(s.alu) && Count(s.rob) > 0 {
      var k := Count(s.rob) - 1;
      assert EntryOk(Window(s.rob)[k], Residents(h)[k], true);
      QuietUpdate(s.lsu, s.dmemLog, Window(s.rob), h, k, TakenUp(s.alu));
    }
  }

  /** The load picked has no older memory uop left to send. */
  lemma OldestUnsent(s: Core, h: Hist, i: StepIn)
    requires ResidentsOk(s.rob, h, false) && IssuesLoad(s, i)
    ensures var k := FirstLoad(s.rob, 0);
            k < Count(s.rob) && forall j :: 0 <= j < k ==> !Unsent(Window(s.rob), Residents(h), j)
  {
    hide RobOk, Window, FirstLoad, OlderStoreInRob, SettledEntry, ResultOk, EntryOk;
    var k, w, rs := FirstLoad(s.rob, 0), Window(s.rob), Residents(h);
    FirstLoadIsFirst(s.rob, 0);
    IssuedLoadIsResident(s, h, i);
    OlderStoreExact(s.rob, Slot(s.rob, k));
    assert CanIssueLoad(s.rob, NthSlot(s.rob, k));
    SlotDistance(s.rob, k);
    forall j | 0 <= j < k
      ensures !Unsent(w, rs, j)
    {
      assert EntryOk(w[j], rs[j], false) && ResultOk(rs[j]);
      EntryIdentity(s.rob, j);
      SlotDistance(s.rob, j);
      assert !w[j].uop.ctrl.isSta;
      UnsentEntry(w[j], rs[j]);
      OlderStoreExact(s.rob, Slot(s.rob, j));
      assert !CanIssueLoad(s.rob, NthSlot(s.rob, j));
    }
  }

  lemma SlotDistance(rob: Rob, k: nat)
    requires Pointers(rob) && k < ROB_DEPTH
    ensures Distance(rob, Slot(rob, k)) == k && Slot(rob, k) == NthSlot(rob, k)
  {
  }

  /** A settled resident that is not a store is an unsent load just when the search sees it so. */
  lemma UnsentEntry(e: RobEntry, r: AluResult)
    requires EntryOk(e, r, false) && ResultOk(r)
    ensures r.isStore ==> e.uop.ctrl.isSta
    ensures UnsentLoad(e) <==> r.isLoad && !e.requestSent
    ensures r.isLoad ==> !r.isStore && e.isLoad && (e.completed ==> e.requestSent)
    ensures UnsentLoad(e) ==> e.address == r.address && e.mask == r.mask && e.size == r.size && e.signedLoad == r.signedLoad
    ensures e.uop.robIdx == r.uop.robIdx
  {
  }

  lemma IssueMem(s: Core, h: Hist, i: StepIn)
    requires ResidentsOk(s.rob, h, false) && MemOk(s.lsu, s.dmemLog, Window(s.rob), h)
    ensures var d, h' := LsuIssue(s, i), LsuHist(s, h, i); Pointers(d.rob) && MemOk(d.lsu, d.dmemLog, Window(d.rob), h')
  {
    hide MemOk, ResultOk, RobOk, Window, SettledEntry, FirstLoad, OlderStoreInRob, EntryOk, SetEntry;
    IssueLoadKeeps(s, h, i);
    if IssuesLoad(s, i) {
      var k := FirstLoad(s.rob, 0);
      OldestUnsent(s, h, i);
      IssuedLoadIsResident(s, h, i);
      EntryIdentity(s.rob, k);
      SlotDistance(s.rob, k);
      var e, r := Window(s.rob)[k], Residents(h)[k];
      assert EntryOk(e, r, false) && ResultOk(r) && r == h.alloc[|h.fates| + k];
      UnsentEntry(e, r);
      LoadSent(s.lsu, s.dmemLog, Window(s.rob), h, k, LoadEvent(s, h, k));
    }
  }

  lemma FetchedIrrelevant(lsu: Lsu, log: seq<DmemRequest>, w: seq<RobEntry>, h: Hist, h': Hist)
    requires h' == h.(fetched := h'.fetched)
    ensures MemOk(lsu, log, w, h) ==> MemOk(lsu, log, w, h')
  {
    hide InOrder, Streamed, EventOk, Requested, RequestedAs;
  }

  lemma MiddleMem(y: Sys, i: StepIn)
    requires ResidentsOk(y.core.rob, y.hist, false) && !y.core.globalFlush && QueueEmpty(y.core.iss)
    requires MemOk(y.core.lsu, y.core.dmemLog, Window(y.core.rob), y.hist)
    ensures var m := MiddleSys(y, i); Pointers(m.core.rob) && MemOk(m.core.lsu, m.core.dmemLog, Window(m.core.rob), m.hist)
  {
    hide MemOk, Middle, Packed, RobOk, Window, ResultsOk, WindowOk, Allocates;
    MiddleKeeps(y, i);
    Flow.MiddleFrame(y.core, i);
    var m := MiddleSys(y, i);
    FetchedIrrelevant(y.core.lsu, y.core.dmemLog, Window(m.core.rob), m.hist.(fetched := y.hist.fetched), m.hist);
    if m.core.alu.valid {
      ResidentAdded(y.core.lsu, y.core.dmemLog, Window(y.core.rob), y.hist, FreshEntry(m.core.alu.uop), m.core.alu);
    } else {
      assert Window(m.core.rob) == Window(y.core.rob);
    }
  }

  lemma CompleteMem(s: Core, h: Hist)
    requires ResidentsOk(s.rob, h, s.alu.valid) && IsYoungest(s.alu, h) && MemOk(s.lsu, s.dmemLog, Window(s.rob), h)
    ensures var b := BeforeCommitHead(s); Pointers(b.rob) && MemOk(b.lsu, b.dmemLog, Window(b.rob), h)
  {
    hide MemOk, ResultsOk, RobOk, Window, SettledEntry, Complete;
    CompleteKeeps(s, h);
    CompleteFrame(s.(rob := s.rob.(commitValid := false)));
    if s.alu.valid && !s.alu.memoryValid && Count(s.rob) > 0 {
      var k := Count(s.rob) - 1;
      assert EntryOk(Window(s.rob)[k], Residents(h)[k], true);
      QuietUpdate(s.lsu, s.dmemLog, Window(s.rob), h, k, CompletedEntry(s.alu));
    }
  }

  /** What commit does to the request stream. */
  lemma CommitHeadLog(b: Core, i: StepIn)
    ensures var c := CommitHead(b, i);
            if HeadActionOf(b, i).SendsStore? then
              c.lsu == b.lsu.(nextTx := b.lsu.nextTx + 1)
              && c.dmemLog == b.dmemLog + [StoreRequest(EntryAt(b.rob, b.rob.head), b.lsu.nextTx)]
            else c.lsu == b.lsu && c.dmemLog == b.dmemLog
  {
    hide HeadActionOf, PopHead, CommitRecord, CommitMapping, SetEntry, StoreRequest;
  }

  lemma SentStoreEvent(b: Core, h: Hist, r: AluResult)
    requires |h.fates| < |h.alloc| && r == h.alloc[|h.fates|] && ResultOk(r) && r.isStore
    requires SettledEntry(EntryAt(b.rob, b.rob.head), r)
    ensures EventOk(StoreEvent(b, h), h.alloc, h.fates + [Committed]) && !r.isLoad
  {
  }

  lemma CommitHeadMem(b: Core, h: Hist, i: StepIn, raw: bool, ce: CommitEntry)
    requires ResidentsOk(b.rob, h, raw) && MemOk(b.lsu, b.dmemLog, Window(b.rob), h)
    ensures var c := CommitHead(b, i); Pointers(c.rob) && MemOk(c.lsu, c.dmemLog, Window(c.rob), RetireHist(b, h, i, ce))
  {
    hide ResultOk, RobOk, Window, SettledEntry, EntryOk, CommitHead, HeadActionOf, StoreEvent, EventsOk, PendingOk,
         HandshakeOk;
    CommitHeadKeeps(b, h, i, raw, ce);
    CommitHeadLog(b, i);
    if Leaves(HeadActionOf(b, i)) {
      HeadCases(b, h, i, raw);
      var w, r := Window(b.rob), Residents(h)[0];
      assert r == h.alloc[|h.fates|];
      HeadEntry(b.rob, h, raw);
      hide MemOk;
      match HeadActionOf(b, i) {
        case SendsStore =>
          SentStoreEvent(b, h, r);
          EventRequest(b, h);
          StoreRetired(b.lsu, b.dmemLog, w, h, StoreEvent(b, h));
          SameMem(b, h, i, ce, h.(fates := h.fates + [Committed], mem := h.mem + [StoreEvent(b, h)]));
        case RetiresEcall =>
          NotMemory(r, w[0], true);
          ResidentRetired(b.lsu, b.dmemLog, w, h, EcallRetired);
        case Retires =>
          NotMemory(r, w[0], false);
          ResidentRetired(b.lsu, b.dmemLog, w, h, Committed);
          SameMem(b, h, i, ce, h.(fates := h.fates + [Committed]));
      }
    }
  }

  lemma EventRequest(b: Core, h: Hist)
    ensures StoreEvent(b, h).seqNo == |h.fates| && StoreEvent(b, h).req == StoreRequest(EntryAt(b.rob, b.rob.head), b.lsu.nextTx)
    ensures StoreEvent(b, h).req.txId == b.lsu.nextTx && StoreEvent(b, h).req.isStore
  {
  }

  lemma NotMemory(r: AluResult, e: RobEntry, ecall: bool)
    requires ResultOk(r) && SettledEntry(e, r)
    requires if ecall then r.uop.uopc == UOPC_ECALL else !r.isStore && (r.isLoad ==> e.completed)
    ensures !r.isStore && (r.isLoad ==> e.requestSent && e.completed)
  {
  }

  /** The commit records play no part in the memory invariant. */
  lemma SameMem(b: Core, h: Hist, i: StepIn, ce: CommitEntry, h': Hist)
    requires RetireHist(b, h, i, ce) == h'.(commits := RetireHist(b, h, i, ce).commits)
    ensures forall l, log, w :: MemOk(l, log, w, h') ==> MemOk(l, log, w, RetireHist(b, h, i, ce))
  {
    hide RetireHist, RequestedAs, EventOk, Requested, InOrder, Streamed;
  }

  // ---- Every run

  ghost predicate MemSound(y: Sys) { Pointers(y.core.rob) && MemOk(y.core.lsu, y.core.dmemLog, Window(y.core.rob), y.hist) }

  lemma LsuMem(y: Sys, i: StepIn)
    requires Sound(y) && MemSound(y)
    ensures MemSound(AtFetch(y, i))
  {
    hide ResidentsOk, Packed, MemOk, AfterBranch, LsuRespond, LsuEnqueue, LsuIssue, LoadEvent, IssuesLoad,
         FirstLoad, Window, LsuHist;
    var a := AfterBranch(y.core);
    BranchFrame(y.core);
    RespondKeeps(a, y.hist, i.dmemResp, Unsettled(a.alu));
    RespondMem(a, y.hist, i.dmemResp, Unsettled(a.alu));
    var d := LsuRespond(a, i.dmemResp);
    RespondFrame(a, i.dmemResp);
    EnqueueKeeps(d, y.hist);
    EnqueueMem(d, y.hist);
    EnqueueFrame(d);
    IssueMem(LsuEnqueue(d), y.hist, i);
  }

  lemma CommitMem(y: Sys, i: StepIn)
    requires ResidentsOk(y.core.rob, y.hist, y.core.alu.valid) && IsYoungest(y.core.alu, y.hist) && MemSound(y)
    ensures MemSound(CommitSys(y, i))
  {
    hide ResidentsOk, MemOk, CommitHead, Complete, RetireHist, Window, FlushHist;
    if Redirecting(y.core) {
      ResidentsFlushed(y.core.lsu, y.core.dmemLog, Window(y.core.rob), y.hist);
      FlushKeeps(y.core.rob, y.hist, y.core.alu.valid, false);
      FlushedPointers(y.core.rob, y.hist, y.core.alu.valid);
      assert Window(FlushRob(y.core.rob)) == [];
    } else {
      CompleteKeeps(y.core, y.hist);
      CompleteMem(y.core, y.hist);
      CommitHeadMem(BeforeCommitHead(y.core), y.hist, i, Unsettled(y.core.alu), CommitStage(y.core, i).rob.lastCommit);
    }
  }

  lemma FlushedPointers(rob: Rob, h: Hist, raw: bool)
    requires ResidentsOk(rob, h, raw)
    ensures Pointers(FlushRob(rob))
  {
  }

  lemma StepMem(y: Sys, i: StepIn)
    requires Sound(y) && MemSound(y)
    ensures MemSound(SysStep(y, i))
  {
    hide ResidentsOk, IsYoungest, Packed, AtFetch, MiddleSys, CommitSys, MemOk, Window;
    var l := AtFetch(y, i);
    LsuKeeps(y, i);
    LsuMem(y, i);
    MiddleKeeps(l, i);
    MiddleMem(l, i);
    CommitMem(MiddleSys(l, i), i);
  }

  lemma {:induction false} RunIsMemSound(run: Run, n: nat)
    ensures MemSound(run(n).sys)
  {
    hide SysStep, MemSound, Sound, Reset;
    if n == 0 {
      RunStart(run);
      assert MemSound(Reset()) by { ResetMem(); }
    } else {
      RunStep(run, n - 1);
      RunIsMemSound(run, n - 1);
      RunIsSound(run, n - 1);
      StepMem(run(n - 1).sys, run(n - 1).input);
    }
  }

  lemma ResetMem()
    ensures MemSound(Reset())
  {
  }

  // ---- The main results

  /** In every run, whatever the latency, order, duplication or back-pressure of the memory, requests
      are sent in program order, at most one per uop, and each carries what the uop computed; and
      exactly the committed stores, and all committed loads, have been sent. */
  ghost predicate MemoryLinearised(y: Sys) {
    && InOrder(y.hist.mem) && Streamed(y.core.dmemLog, y.hist.mem)
    && (forall p :: 0 <= p < |y.hist.mem| ==> EventOk(y.hist.mem[p], y.hist.alloc, y.hist.fates))
    && (forall n :: 0 <= n < |y.hist.fates| && n < |y.hist.alloc| && y.hist.fates[n] == Committed && y.hist.alloc[n].memoryValid ==>
          Requested(y.hist.mem, n, y.hist.alloc[n].isStore))
  }

  lemma MemoryIsLinearised(run: Run, n: nat)
    ensures MemoryLinearised(run(n).sys)
  {
    hide PendingOk, HandshakeOk, InOrder, Streamed, EventOk, Requested;
    RunIsMemSound(run, n);
  }

  /** The response carries this beat: in `readData`, or in `data` with `readData` zero. A memory may fill both
      fields with the beat, or either of them and leave the other zero. */
  predicate Carries(resp: DmemResponse, beat: bv64) {
    (resp.readData == beat && beat != 0) || (resp.readData == 0 && resp.data == beat)
  }

  lemma CarriedBeat(resp: DmemResponse, beat: bv64)
    requires Carries(resp, beat)
    ensures ResponseData(resp) == beat
  {
  }

  /** The register write of a response, if it makes one, is the answer to the request of the uop that
      owns the register: its id was issued for that uop, which is still resident and unanswered. A
      response to a flushed load writes nothing, even if its slot has been reused. */
  ghost predicate DeliversToRequester(y: Sys, resp: DmemResponse) {
    var s, h := y.core, y.hist;
    AcceptsResponse(s.lsu, Some(resp)) ==>
      && RequestedAs(h.mem, h.loadSeq, resp.txId)
      && (h.loadSeq < |h.fates| ==> LsuRespond(s, Some(resp)).rf == s.rf && LsuRespond(s, Some(resp)).rob == s.rob)
      && (h.loadSeq >= |h.fates| ==>
            && h.loadSeq < |h.alloc| && h.alloc[h.loadSeq].isLoad
            && EntryAt(s.rob, s.lsu.pendingIdx).uop == h.alloc[h.loadSeq].uop
            && EntryAt(s.rob, s.lsu.pendingIdx).txId == resp.txId
            && (resp.exception ==> LsuRespond(s, Some(resp)).rf == s.rf)
            && forall beat: bv64 :: Carries(resp, beat) && !resp.exception ==>
                 LsuRespond(s, Some(resp)).rf == Answered(s.rf, h.alloc[h.loadSeq], beat))
  }

  /** The register file with a load's answer in its destination. */
  function Answered(rf: seq<bv64>, r: AluResult, beat: bv64): seq<bv64> {
    WriteReg(rf, r.uop.rename.pdst, LoadValue(beat, r.address, r.size, r.signedLoad))
  }

  lemma UnansweredEntry(e: RobEntry, r: AluResult, raw: bool)
    requires EntryOk(e, r, raw) && ResultOk(r) && r.isLoad && e.requestSent && !e.completed
    ensures e.uop == r.uop && e.address == r.address && e.size == r.size && e.signedLoad == r.signedLoad
  {
  }

  lemma ResponsesReachTheirRequester(run: Run, n: nat, resp: DmemResponse)
    ensures DeliversToRequester(run(n).sys, resp)
  {
    hide Packed, ResidentsOk, IsYoungest, MemSound, DeliversToRequester;
    var y := run(n).sys;
    RunIsSound(run, n);
    RunIsMemSound(run, n);
    Delivers(y, resp);
  }

  lemma Delivers(y: Sys, resp: DmemResponse)
    requires ResidentsOk(y.core.rob, y.hist, Unsettled(y.core.alu)) && MemSound(y)
    ensures DeliversToRequester(y, resp)
  {
    hide EventsOk, PendingOk, Window, RobOk, ResultOk, EntryOk, LoadValue, WriteReg, SetEntry, Carries, ResponseData;
    forall beat: bv64 | Carries(resp, beat)
      ensures ResponseData(resp) == beat
    {
      CarriedBeat(resp, beat);
    }
    if AcceptsResponse(y.core.lsu, Some(resp)) {
      DeliveryTarget(y.core, y.hist, Some(resp), Unsettled(y.core.alu));
      if y.hist.loadSeq >= |y.hist.fates| {
        var k := y.hist.loadSeq - |y.hist.fates|;
        var raw := Unsettled(y.core.alu) && k == Count(y.core.rob) - 1;
        assert EntryOk(Window(y.core.rob)[k], Residents(y.hist)[k], raw) && ResultOk(y.hist.alloc[y.hist.loadSeq]);
        UnansweredEntry(Window(y.core.rob)[k], y.hist.alloc[y.hist.loadSeq], raw);
      }
    }
  }

  /** The load has been sent and not yet answered. */
  predicate Awaits(e: RobEntry) { e.isLoad && e.requestSent && !e.completed }

  /** At most one load waits for its answer, and it is the one the unit remembers. */
  ghost predicate OneOutstanding(s: Core) {
    && Pointers(s.rob)
    && (forall j, k :: 0 <= j < Count(s.rob) && 0 <= k < Count(s.rob) && Awaits(Window(s.rob)[j]) && Awaits(Window(s.rob)[k]) ==> j == k)
    && (forall k :: 0 <= k < Count(s.rob) && Awaits(Window(s.rob)[k]) ==> s.lsu.pending && s.lsu.pendingIdx == Slot(s.rob, k))
  }

  lemma AtMostOneOutstanding(run: Run, n: nat)
    ensures OneOutstanding(run(n).sys.core)
  {
    hide Packed, IsYoungest, ResultsOk, EventsOk, PendingOk, RequestedAs, Window, RobOk, EntryOk, Joins;
    var y := run(n).sys;
    RunIsSound(run, n);
    RunIsMemSound(run, n);
    forall k | 0 <= k < Count(y.core.rob) && Awaits(Window(y.core.rob)[k])
      ensures y.core.lsu.pending && y.hist.loadSeq == |y.hist.fates| + k && y.core.lsu.pendingIdx == Slot(y.core.rob, k)
    {
      var raw := Unsettled(y.core.alu) && k == Count(y.core.rob) - 1;
      assert EntryOk(Window(y.core.rob)[k], Residents(y.hist)[k], raw);
      SentIsLoad(Window(y.core.rob)[k], Residents(y.hist)[k], raw);
      EntryIdentity(y.core.rob, k);
    }
  }

  lemma SentIsLoad(e: RobEntry, r: AluResult, raw: bool)
    requires EntryOk(e, r, raw) && e.isLoad
    ensures r.isLoad
  {
  }
}
