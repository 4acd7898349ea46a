/** The circular reorder buffer seen as the queue of its live entries, oldest first. */
module RobWindow {
  import opened BoomTypes
  import opened Pipeline

  ghost predicate Pointers(rob: Rob) {
    |rob.entries| == ROB_DEPTH && rob.head < ROB_DEPTH && rob.tail < ROB_DEPTH
  }

  /** The number of live entries; `maybeFull` tells a full buffer from an empty one. */
  function Count(rob: Rob): (n: nat)
    requires Pointers(rob)
    ensures n <= ROB_DEPTH
  {
    if rob.head == rob.tail then (if rob.maybeFull then ROB_DEPTH else 0)
    else if rob.head < rob.tail then rob.tail - rob.head
    else rob.tail + ROB_DEPTH - rob.head
  }

  /** The slot of the k-th entry from the head. */
  function Slot(rob: Rob, k: nat): (i: nat)
    requires Pointers(rob) && k < ROB_DEPTH
    ensures i < ROB_DEPTH && i == NthSlot(rob, k)
  {
    if rob.head + k < ROB_DEPTH then rob.head + k else rob.head + k - ROB_DEPTH
  }

  /** The pointers are in range and entries are valid exactly on the head-to-tail window,
      each knowing its own slot. */
  ghost predicate RobOk(rob: Rob) {
    && Pointers(rob)
    && (rob.maybeFull ==> rob.head == rob.tail)
    && (forall k: nat :: k < ROB_DEPTH ==> (rob.entries[Slot(rob, k)].valid <==> k < Count(rob)))
    && (forall k: nat :: k < Count(rob) ==> rob.entries[Slot(rob, k)].uop.robIdx == Slot(rob, k))
  }

  function Window(rob: Rob): (w: seq<RobEntry>)
    requires Pointers(rob)
    ensures |w| == Count(rob)
  {
    seq(Count(rob), k requires 0 <= k < Count(rob) => rob.entries[Slot(rob, k)])
  }

  /** The distance of a slot from the head. */
  function Distance(rob: Rob, idx: nat): (k: nat)
    requires Pointers(rob) && idx < ROB_DEPTH
    ensures k < ROB_DEPTH && Slot(rob, k) == idx
  {
    if rob.head <= idx then idx - rob.head else idx + ROB_DEPTH - rob.head
  }

  /** The window does not depend on the other fields. */
  lemma SameWindow(a: Rob, b: Rob)
    requires a.entries == b.entries && a.head == b.head && a.tail == b.tail && a.maybeFull == b.maybeFull
    ensures RobOk(a) <==> RobOk(b)
    ensures Pointers(a) ==> Pointers(b) && Count(a) == Count(b) && Window(a) == Window(b)
  {
    if Pointers(a) {
      assert forall k: nat :: k < ROB_DEPTH ==> Slot(a, k) == Slot(b, k);
    }
  }

  /** A valid entry sits in the window, at the slot it carries. */
  lemma ValidIsInWindow(rob: Rob, idx: nat)
    requires RobOk(rob) && EntryAt(rob, idx).valid
    ensures idx < ROB_DEPTH && Distance(rob, idx) < Count(rob)
    ensures Window(rob)[Distance(rob, idx)] == rob.entries[idx] && rob.entries[idx].uop.robIdx == idx
  {
    assert Slot(rob, Distance(rob, idx)) == idx;
  }

  /** Allocation appends to the window. */
  lemma PushWindow(rob: Rob, e: RobEntry)
    requires RobOk(rob) && !RobFull(rob) && e.valid && e.uop.robIdx == rob.tail
    ensures RobOk(PushEntry(rob, e)) && Window(PushEntry(rob, e)) == Window(rob) + [e]
    ensures Count(rob) < ROB_DEPTH && Slot(PushEntry(rob, e), Count(rob)) == rob.tail
  {
    var r, n := PushEntry(rob, e), Count(rob);
    assert Slot(rob, n) == rob.tail && Count(r) == n + 1;
    forall k: nat | k < ROB_DEPTH
      ensures Slot(r, k) == Slot(rob, k)
      ensures r.entries[Slot(r, k)] == if k == n then e else rob.entries[Slot(rob, k)]
    {
    }
  }

  /** Retirement removes the first element of the window. */
  lemma PopWindow(rob: Rob)
    requires RobOk(rob) && !RobEmpty(rob)
    ensures Count(rob) > 0 && RobOk(PopHead(rob)) && Window(PopHead(rob)) == Window(rob)[1..]
    ensures rob.entries[rob.head] == Window(rob)[0]
    ensures forall k: nat :: k + 1 < ROB_DEPTH ==> Slot(PopHead(rob), k) == Slot(rob, k + 1)
  {
    var r := PopHead(rob);
    assert Slot(rob, 0) == rob.head && Count(r) == Count(rob) - 1;
    forall k: nat | k < ROB_DEPTH
      ensures k + 1 < ROB_DEPTH ==> Slot(r, k) == Slot(rob, k + 1) && r.entries[Slot(r, k)] == rob.entries[Slot(rob, k + 1)]
      ensures k + 1 == ROB_DEPTH ==> Slot(r, k) == rob.head && !r.entries[Slot(r, k)].valid
    {
    }
  }

  /** Overwriting a live entry by one for the same slot replaces one element of the window. */
  lemma SetWindow(rob: Rob, k: nat, e: RobEntry)
    requires RobOk(rob) && k < Count(rob) && e.valid && e.uop.robIdx == Slot(rob, k)
    ensures RobOk(SetEntry(rob, Slot(rob, k), e))
    ensures Window(SetEntry(rob, Slot(rob, k), e)) == Window(rob)[k := e]
  {
    var r := SetEntry(rob, Slot(rob, k), e);
    forall j: nat | j < ROB_DEPTH
      ensures Slot(r, j) == Slot(rob, j)
      ensures r.entries[Slot(r, j)] == if j == k then e else rob.entries[Slot(rob, j)]
    {
    }
  }

  /** A redirect empties the window, whatever was in it. */
  lemma FlushWindow(rob: Rob)
    requires |rob.entries| == ROB_DEPTH
    ensures RobOk(FlushRob(rob)) && Window(FlushRob(rob)) == []
  {
  }
}
