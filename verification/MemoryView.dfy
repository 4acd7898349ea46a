/** What a FIFO data memory shows each load, in every run and with no hypothesis on fetching: the
    memory after exactly the committed stores that are older in program order. */
module MemoryView {
  import opened BoomTypes
  import opened RobWindow
  import opened History
  import opened Residency
  import opened MemOrder
  import opened Memory
  import opened Reference

  /** The memory after the committed stores among the first n uops, in program order. */
  function StoresUpTo(m0: Mem, alloc: seq<AluResult>, fates: seq<Fate>, n: nat): Mem
    requires n <= |alloc|
  {
    if n == 0 then m0
    else
      var before, r := StoresUpTo(m0, alloc, fates, n - 1), alloc[n - 1];
      if n <= |fates| && fates[n - 1] == Committed && r.isStore then Write(before, r.address, r.storeData, r.size) else before
  }

  /** The first p requests are those of the first n uops. */
  ghost predicate Splits(mem: seq<MemEvent>, p: nat, n: nat) {
    p <= |mem| && (forall q :: 0 <= q < |mem| ==> (q < p <==> mem[q].seqNo < n))
  }

  /** A run of requests leaves the memory as the committed stores it covers do. */
  lemma {:induction false} PrefixMemory(m0: Mem, y: Sys, p: nat, n: nat)
    requires MemoryLinearised(y) && ResultsOk(y.hist.alloc) && n <= |y.hist.alloc| && Splits(y.hist.mem, p, n)
    ensures MemAfter(m0, y.core.dmemLog[..p]) == StoresUpTo(m0, y.hist.alloc, y.hist.fates, n)
    decreases n
  {
    hide Write, ResultOk, EventOk, Requested;
    var h, log := y.hist, y.core.dmemLog;
    if n == 0 {
      assert |h.mem| > 0 ==> h.mem[0].seqNo >= 0;
    } else if p > 0 && h.mem[p - 1].seqNo == n - 1 {
      assert Splits(h.mem, p - 1, n - 1);
      PrefixMemory(m0, y, p - 1, n - 1);
      assert log[..p] == log[..p - 1] + [log[p - 1]];
      MemAfterOne(m0, log[..p - 1], log[p - 1]);
      EventStores(h.mem[p - 1], h.alloc, h.fates);
    } else {
      assert Splits(h.mem, p, n - 1);
      PrefixMemory(m0, y, p, n - 1);
      if n <= |h.fates| && h.fates[n - 1] == Committed && h.alloc[n - 1].isStore {
        NotRequested(h.mem, n - 1, p);
        CommittedStoreRequested(y, n - 1);
      }
    }
  }

  /** A request's effect on the memory is its uop's. */
  lemma EventStores(e: MemEvent, alloc: seq<AluResult>, fates: seq<Fate>)
    requires EventOk(e, alloc, fates) && ResultsOk(alloc)
    ensures e.seqNo < |alloc|
    ensures e.req.isStore <==> alloc[e.seqNo].isStore
    ensures e.req.isStore ==> e.seqNo < |fates| && fates[e.seqNo] == Committed
    ensures e.req.isStore ==> e.req.address == alloc[e.seqNo].address && e.req.data == alloc[e.seqNo].storeData && e.req.size == alloc[e.seqNo].size
  {
    assert ResultOk(alloc[e.seqNo]);
  }

  lemma NotRequested(mem: seq<MemEvent>, n: nat, p: nat)
    requires Splits(mem, p, n) && Splits(mem, p, n + 1)
    ensures !Requested(mem, n, true)
  {
  }

  lemma CommittedStoreRequested(y: Sys, n: nat)
    requires MemoryLinearised(y) && ResultsOk(y.hist.alloc) && n < |y.hist.fates| && n < |y.hist.alloc|
    requires y.hist.fates[n] == Committed && y.hist.alloc[n].isStore
    ensures Requested(y.hist.mem, n, true)
  {
    hide InOrder, Streamed, EventOk, Requested;
    assert ResultOk(y.hist.alloc[n]);
  }

  /** In every run, whatever is fetched, flushed or delayed, the memory before a request is the memory
      after exactly the committed stores older than its uop: a FIFO memory answers every load from it. */
  lemma LoadsSeeOlderStores(m0: Mem, run: Run, n: nat, p: nat)
    requires p < |run(n).sys.hist.mem|
    ensures var y := run(n).sys;
            && p < |y.core.dmemLog| && y.hist.mem[p].seqNo <= |y.hist.alloc|
            && MemAfter(m0, y.core.dmemLog[..p]) == StoresUpTo(m0, y.hist.alloc, y.hist.fates, y.hist.mem[p].seqNo)
  {
    hide MemAfter, StoresUpTo, RobOk, Window, WindowOk, ResultOk;
    var y := run(n).sys;
    RunIsSound(run, n);
    MemoryIsLinearised(run, n);
    assert EventOk(y.hist.mem[p], y.hist.alloc, y.hist.fates);
    PrefixMemory(m0, y, p, y.hist.mem[p].seqNo);
  }
}
