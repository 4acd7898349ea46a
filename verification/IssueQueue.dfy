/** The collapsing issue queue: what one pass of dispatch, select and compaction does. */
module IssueQueue {
  import opened BoomTypes
  import opened Pipeline

  /** The live slots come first, in age order, and none is granted. */
  ghost predicate Packed(iss: Issue, c: seq<IssueSlot>) {
    && |iss.slots| == ISSUE_QUEUE_DEPTH && |c| <= ISSUE_QUEUE_DEPTH
    && iss.slots[..|c|] == c
    && (forall k :: |c| <= k < ISSUE_QUEUE_DEPTH ==> !iss.slots[k].valid)
    && (forall k :: 0 <= k < |c| ==> Stays(c[k]))
    && iss.count == |c| && iss.tail == |c| % ISSUE_QUEUE_DEPTH
  }

  /** The queue followed by the uop dispatched in this step, unless the queue is full. */
  function Candidates(c: seq<IssueSlot>, ren: Rename): seq<IssueSlot> {
    if ren.valid && |c| < 8 && ren.uop.iqType != IqFpu then c + [DispatchedSlot(ren.uop)] else c
  }

  lemma {:induction false} FirstReadyIsFirst(slots: seq<IssueSlot>)
    ensures FirstReady(slots) <= |slots|
    ensures FirstReady(slots) < |slots| ==> Ready(slots[FirstReady(slots)])
    ensures forall j :: 0 <= j < FirstReady(slots) ==> !Ready(slots[j])
  {
    if slots != [] && !Ready(slots[0]) {
      FirstReadyIsFirst(slots[1..]);
      assert forall j :: 1 <= j < |slots| ==> slots[j] == slots[1..][j - 1];
    }
  }

  /** Searching past unready slots. */
  lemma {:induction false} FirstReadyIs(slots: seq<IssueSlot>, k: nat)
    requires k <= |slots| && (k < |slots| ==> Ready(slots[k]))
    requires forall j :: 0 <= j < k ==> !Ready(slots[j])
    ensures FirstReady(slots) == k
  {
    FirstReadyIsFirst(slots);
  }

  lemma {:induction false} KeptConcat(a: seq<IssueSlot>, b: seq<IssueSlot>)
    ensures Kept(a + b) == Kept(a) + Kept(b)
  {
    hide Stays;
    if a == [] {
      assert a + b == b;
    } else {
      KeptConcat(a[1..], b);
      assert (a + b)[1..] == a[1..] + b && (a + b)[0] == a[0];
      if Stays(a[0]) {
        assert [a[0]] + (Kept(a[1..]) + Kept(b)) == Kept(a) + Kept(b);
      }
    }
  }

  lemma {:induction false} KeptAll(a: seq<IssueSlot>)
    requires forall k :: 0 <= k < |a| ==> Stays(a[k])
    ensures Kept(a) == a
  {
    if a != [] {
      KeptAll(a[1..]);
    }
  }

  lemma {:induction false} KeptNone(a: seq<IssueSlot>)
    requires forall k :: 0 <= k < |a| ==> !Stays(a[k])
    ensures Kept(a) == []
  {
    if a != [] {
      KeptNone(a[1..]);
    }
  }

  lemma KeptWithout(q: seq<IssueSlot>, k: nat, g: IssueSlot)
    requires k < |q| && !Stays(g) && forall j :: 0 <= j < |q| ==> Stays(q[j])
    ensures Kept(q[k := g]) == q[..k] + q[k + 1..]
  {
    hide Stays;
    assert q[k := g] == q[..k] + ([g] + q[k + 1..]);
    KeptConcat(q[..k], [g] + q[k + 1..]);
    KeptConcat([g], q[k + 1..]);
    KeptNone([g]);
    KeptAll(q[..k]);
    KeptAll(q[k + 1..]);
  }

  /** Compaction of a queue holding `q` in front and nothing valid behind. */
  lemma CompactKeeps(iss: Issue, q: seq<IssueSlot>, kept: seq<IssueSlot>)
    requires |iss.slots| == ISSUE_QUEUE_DEPTH && |q| <= ISSUE_QUEUE_DEPTH && iss.slots[..|q|] == q
    requires forall k :: |q| <= k < ISSUE_QUEUE_DEPTH ==> !iss.slots[k].valid
    requires kept == Kept(q) && forall k :: 0 <= k < |kept| ==> Stays(kept[k])
    ensures Packed(Compact(iss), kept) && Compact(iss).valid == iss.valid && Compact(iss).uop == iss.uop
  {
    assert iss.slots == q + iss.slots[|q|..];
    KeptConcat(q, iss.slots[|q|..]);
    KeptNone(iss.slots[|q|..]);
  }

  /** Dispatch appends to the queue; with the queue full it changes nothing. */
  lemma DispatchAppends(iss: Issue, c: seq<IssueSlot>, ren: Rename)
    requires Packed(iss, c)
    ensures Packed(Dispatch(iss, ren), Candidates(c, ren))
    ensures Dispatch(iss, ren).valid == iss.valid && Dispatch(iss, ren).uop == iss.uop
  {
    var d, q := Dispatch(iss, ren), Candidates(c, ren);
    assert d.slots[..|q|] == q;
  }

  /** Selecting the k-th slot of a packed queue and compacting removes just that one. */
  lemma SelectRemoves(d: Issue, q: seq<IssueSlot>, k: nat)
    requires Packed(d, q) && k < |q| && Ready(q[k]) && forall j :: 0 <= j < k ==> !Ready(q[j])
    ensures Compact(Select(d)).valid && Compact(Select(d)).uop == q[k].uop
    ensures Packed(Compact(Select(d)), q[..k] + q[k + 1..])
  {
    assert forall j :: 0 <= j < |q| ==> d.slots[j] == q[j];
    FirstReadyIs(d.slots, k);
    var sel, g := Select(d), q[k].(granted := true, request := false);
    var rest := q[..k] + q[k + 1..];
    assert sel.slots[..|q|] == q[k := g];
    KeptWithout(q, k, g);
    CompactKeeps(sel, q[k := g], rest);
  }

  lemma SelectNone(d: Issue, q: seq<IssueSlot>)
    requires Packed(d, q) && forall j :: 0 <= j < |q| ==> !Ready(q[j])
    ensures Compact(Select(d)).valid == d.valid && Packed(Compact(Select(d)), q)
  {
    assert forall j :: 0 <= j < |q| ==> d.slots[j] == q[j];
    FirstReadyIs(d.slots, |d.slots|);
    KeptAll(q);
    CompactKeeps(d, q, q);
  }

  /** For any packed queue and any readiness pattern, one pass issues exactly the first ready uop of
      the queue followed by the dispatched uop, and keeps all the others in the same order. */
  lemma IssuesOldestReady(s: Core, c: seq<IssueSlot>, k: nat)
    requires !s.globalFlush && Packed(s.iss, c)
    requires k <= |Candidates(c, s.ren)|
    requires forall j :: 0 <= j < k ==> !Ready(Candidates(c, s.ren)[j])
    requires k < |Candidates(c, s.ren)| ==> Ready(Candidates(c, s.ren)[k])
    ensures IssueStage(s).iss.valid <==> k < |Candidates(c, s.ren)|
    ensures k < |Candidates(c, s.ren)| ==> IssueStage(s).iss.uop == Candidates(c, s.ren)[k].uop
    ensures Packed(IssueStage(s).iss,
                   if k < |Candidates(c, s.ren)| then Candidates(c, s.ren)[..k] + Candidates(c, s.ren)[k + 1..]
                   else Candidates(c, s.ren))
  {
    var q, iss := Candidates(c, s.ren), s.iss.(valid := false, uop := NO_UOP);
    DispatchAppends(iss, c, s.ren);
    if k < |q| {
      SelectRemoves(Dispatch(iss, s.ren), q, k);
    } else {
      SelectNone(Dispatch(iss, s.ren), q);
    }
  }

  /** The empty queue every step starts from. */
  ghost predicate QueueEmpty(iss: Issue) { Packed(iss, []) }

  /** From an empty queue the dispatched uop issues at once and the queue is empty again. */
  lemma IssuesDispatched(s: Core)
    requires !s.globalFlush && QueueEmpty(s.iss)
    requires s.ren.valid ==> s.ren.uop.iqType != IqFpu && !s.ren.uop.rename.prs1Busy && !s.ren.uop.rename.prs2Busy
    ensures QueueEmpty(IssueStage(s).iss)
    ensures IssueStage(s).iss.valid == s.ren.valid
    ensures s.ren.valid ==> IssueStage(s).iss.uop == s.ren.uop
  {
    var q := Candidates([], s.ren);
    assert s.ren.valid ==> Ready(q[0]) && q[..0] + q[1..] == [];
    IssuesOldestReady(s, [], 0);
  }
}
