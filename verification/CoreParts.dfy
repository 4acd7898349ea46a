/** The parts of the core that live in arrays: the register maps with the free list, the issue queue and
    the reorder buffer, each updated in place. */
module CoreParts {
  import opened BoomTypes
  import opened Pipeline
  import opened IssueQueue
  import opened Residency

  // ---- Register maps and free list

  class RegisterMaps {
    const mapTable: array<nat>
    const committedMap: array<nat>
    const freeList: array<nat>
    var head: nat
    var tail: nat
    var count: nat
    var valid: bool
    var uop: MicroOp

    ghost predicate Valid()
      reads this
    {
      && mapTable.Length == committedMap.Length == LOGICAL_REG_COUNT && freeList.Length == INT_PHYS_REGS
      && mapTable != committedMap && mapTable != freeList && committedMap != freeList
      && head < INT_PHYS_REGS && tail < INT_PHYS_REGS
    }

    ghost function Snap(): Rename
      reads this, mapTable, committedMap, freeList
    {
      Rename(mapTable[..], committedMap[..], freeList[..], head, tail, count, valid, uop)
    }

    constructor ()
      ensures Valid() && Snap() == ResetRename()
      ensures fresh(mapTable) && fresh(committedMap) && fresh(freeList)
    {
      mapTable := new nat[LOGICAL_REG_COUNT](_ => 0);
      committedMap := new nat[LOGICAL_REG_COUNT](_ => 0);
      freeList := new nat[INT_PHYS_REGS](i => i);
      head, tail, count, valid, uop := 1, INT_PHYS_REGS - 1, INT_PHYS_REGS - 1, false, NO_UOP;
    }

    lemma Fields()
      ensures Snap().valid == valid && Snap().uop == uop
    {
    }

    method Get(a: array<nat>, i: nat) returns (v: nat)
      ensures v == At(a[..], i)
    {
      v := if i < a.Length then a[i] else 0;
    }

    method Mapping(l: nat) returns (p: nat)
      ensures p == At(Snap().table, l)
    {
      p := Get(mapTable, l);
    }

    /** A renamed uop that finds no room, or its place. */
    method Drop()
      requires Valid()
      modifies `valid
      ensures Valid() && Snap() == old(Snap()).(valid := false)
    {
      valid := false;
    }

    method Place(idx: nat)
      requires Valid()
      modifies `uop
      ensures Valid() && Snap() == old(Snap()).(uop := old(uop).(robIdx := idx))
    {
      uop := uop.(robIdx := idx);
    }

    method Clear()
      requires Valid()
      modifies `valid, `uop
      ensures Valid() && Snap() == old(Snap()).(valid := false, uop := NO_UOP)
    {
      valid, uop := false, NO_UOP;
    }

    /** Recovery: the speculative map becomes the committed one. */
    method Recover()
      requires Valid()
      modifies mapTable
      ensures Valid() && Snap() == old(Snap()).(table := old(Snap()).committed)
    {
      for i := 0 to LOGICAL_REG_COUNT
        invariant mapTable[..i] == committedMap[..i] && committedMap[..] == old(committedMap[..]) && freeList[..] == old(freeList[..])
      {
        mapTable[i] := committedMap[i];
      }
      assert mapTable[..] == mapTable[..LOGICAL_REG_COUNT] && committedMap[..] == committedMap[..LOGICAL_REG_COUNT];
    }

    /** Takes the first register of the free list for logical register `ldst`. */
    method Take(ldst: nat) returns (p: nat)
      requires Valid() && count > 0
      modifies `head, `count, mapTable
      ensures Valid() && p == At(old(Snap()).freeList, old(head))
      ensures Snap() == old(Snap()).(head := NextPreg(old(head)), count := old(count) - 1, table := Put(old(Snap()).table, ldst, p))
    {
      p := freeList[head];
      head, count := (head + 1) % INT_PHYS_REGS, count - 1;
      if ldst < mapTable.Length {
        mapTable[ldst] := p;
      }
    }

    method RenameOne(u: MicroOp)
      requires Valid()
      modifies `head, `count, `valid, `uop, mapTable
      ensures Valid() && Snap() == RenameUop(old(Snap()), u)
    {
      hide At, Put;
      var n := u.rename;
      var p1 := Get(mapTable, n.lrs1);
      var p2 := Get(mapTable, n.lrs2);
      var stale := Get(mapTable, n.ldst);
      n := n.(prs1 := p1, prs2 := p2, stalePdst := stale, prs1Busy := false, prs2Busy := false);
      if n.dst == DstInt && n.ldst != 0 {
        if count > 0 {
          var p := Take(n.ldst);
          n := n.(pdst := p);
        }
      } else {
        n := n.(pdst := 0, ldst := 0);
      }
      valid, uop := true, u.(rename := n);
    }

    /** Puts a register behind the free ones. */
    method Free(p: nat)
      requires Valid()
      modifies `tail, `count, freeList
      ensures Valid() && Snap() == Release(old(Snap()), p)
    {
      if p != 0 && p < INT_PHYS_REGS && count < INT_PHYS_REGS {
        freeList[tail] := p;
        tail, count := (tail + 1) % INT_PHYS_REGS, count + 1;
      }
    }

    /** A committing uop's mapping becomes architectural and the one it replaces is freed. */
    method Commit(n: RenameInfo)
      requires Valid()
      modifies `tail, `count, committedMap, freeList
      ensures Valid() && Snap() == CommitMapping(old(Snap()), n)
    {
      hide Release;
      if n.pdst != 0 {
        if n.ldst < committedMap.Length {
          committedMap[n.ldst] := n.pdst;
        }
        Free(n.stalePdst);
      }
    }
  }

  // ---- Issue queue

  class IssueUnit {
    const slots: array<IssueSlot>
    var tail: nat
    var count: nat
    var valid: bool
    var uop: MicroOp

    ghost predicate Valid()
      reads this
    {
      slots.Length == ISSUE_QUEUE_DEPTH && tail < ISSUE_QUEUE_DEPTH
    }

    ghost function Snap(): Issue
      reads this, slots
    {
      Issue(slots[..], tail, count, valid, uop)
    }

    lemma Fields()
      ensures Snap().valid == valid && Snap().uop == uop
    {
    }

    constructor ()
      ensures Valid() && Snap() == ResetCore().iss && fresh(slots)
    {
      slots := new IssueSlot[ISSUE_QUEUE_DEPTH](_ => NO_SLOT);
      tail, count, valid, uop := 0, 0, false, NO_UOP;
    }

    method Flush()
      requires Valid()
      modifies `tail, `count, slots
      ensures Valid() && Snap() == old(Snap()).(slots := ClearSlots(old(Snap()).slots), tail := 0, count := 0)
    {
      for i := 0 to ISSUE_QUEUE_DEPTH
        invariant forall j :: 0 <= j < i ==> slots[j] == old(slots[j]).(valid := false)
        invariant forall j :: i <= j < ISSUE_QUEUE_DEPTH ==> slots[j] == old(slots[j])
      {
        slots[i] := slots[i].(valid := false);
      }
      tail, count := 0, 0;
      assert slots[..] == ClearSlots(old(slots[..]));
    }

    /** Dispatch of the renamed uop. */
    method Enter(renamed: bool, u: MicroOp, ghost ren: Rename)
      requires Valid() && ren.valid == renamed && ren.uop == u
      modifies `tail, `count, slots
      ensures Valid() && Snap() == Dispatch(old(Snap()), ren)
    {
      if renamed && count < ISSUE_QUEUE_DEPTH && u.iqType != IqFpu {
        var busy1, busy2 := u.rename.prs1Busy, u.rename.prs2Busy;
        slots[tail] := IssueSlot(true, true, false, false, false, busy1, busy2, u);
        tail, count := (tail + 1) % ISSUE_QUEUE_DEPTH, count + 1;
      }
    }

    /** Grants the first ready slot. */
    method Grant()
      requires Valid()
      modifies `valid, `uop, slots
      ensures Valid() && Snap() == Select(old(Snap()))
    {
      hide FirstReady;
      ghost var before := slots[..];
      for i := 0 to ISSUE_QUEUE_DEPTH
        invariant slots[..] == before && valid == old(valid) && uop == old(uop)
        invariant forall j :: 0 <= j < i ==> !Ready(before[j])
      {
        var s := slots[i];
        assert s == before[i];
        if s.valid && s.request && !s.killed && !s.prs1Busy && !s.prs2Busy && !s.pdstBusy {
          FirstReadyIs(before, i);
          slots[i] := s.(granted := true, request := false);
          valid, uop := true, s.uop;
          assert slots[..] == before[i := s.(granted := true, request := false)];
          return;
        }
      }
      FirstReadyIs(before, ISSUE_QUEUE_DEPTH);
    }

    /** The surviving slots, in order, at the front of a temporary array. */
    method Gather() returns (temp: array<IssueSlot>, w: nat)
      requires Valid()
      ensures fresh(temp) && temp.Length == ISSUE_QUEUE_DEPTH && w == |Kept(slots[..])|
      ensures temp[..] == Padded(Kept(slots[..]), ISSUE_QUEUE_DEPTH)
    {
      hide Stays;
      temp := new IssueSlot[ISSUE_QUEUE_DEPTH](_ => NO_SLOT);
      w := 0;
      for i := 0 to ISSUE_QUEUE_DEPTH
        invariant w <= i && temp[..w] == Kept(slots[..i])
        invariant forall j :: w <= j < ISSUE_QUEUE_DEPTH ==> temp[j] == NO_SLOT
      {
        assert slots[..i + 1] == slots[..i] + [slots[i]];
        KeptConcat(slots[..i], [slots[i]]);
        KeptOne(slots[i]);
        StaysIs(slots[i]);
        if slots[i].valid && !slots[i].granted {
          temp[w] := slots[i];
          w := w + 1;
        }
      }
      assert slots[..ISSUE_QUEUE_DEPTH] == slots[..];
    }

    /** Moves the surviving slots to the front. */
    method Collapse()
      requires Valid()
      modifies `tail, `count, slots
      ensures Valid() && Snap() == Compact(old(Snap()))
    {
      hide Kept, Padded;
      var temp, w := Gather();
      ghost var kept := temp[..];
      for i := 0 to ISSUE_QUEUE_DEPTH
        invariant slots[..i] == temp[..i] && temp[..] == kept && tail == old(tail) && count == old(count)
      {
        slots[i] := temp[i];
      }
      assert slots[..] == slots[..ISSUE_QUEUE_DEPTH] == temp[..ISSUE_QUEUE_DEPTH] == temp[..];
      tail, count := w % ISSUE_QUEUE_DEPTH, w;
    }

    method Step(flush: bool, renamed: bool, u: MicroOp, ghost ren: Rename)
      requires Valid() && ren.valid == renamed && ren.uop == u
      modifies this, slots
      ensures Valid()
      ensures var iss := old(Snap()).(valid := false, uop := NO_UOP);
              Snap() == if flush then iss.(slots := ClearSlots(iss.slots), tail := 0, count := 0)
                        else Compact(Select(Dispatch(iss, ren)))
    {
      hide Compact, Select, Dispatch, ClearSlots;
      valid, uop := false, NO_UOP;
      if flush {
        Flush();
      } else {
        Enter(renamed, u, ren);
        Grant();
        Collapse();
      }
    }
  }

  lemma KeptOne(s: IssueSlot)
    ensures Kept([s]) == if Stays(s) then [s] else []
  {
    assert [s][1..] == [];
  }

  lemma StaysIs(s: IssueSlot)
    ensures Stays(s) <==> s.valid && !s.granted
  {
  }

  // ---- Reorder buffer

  class ReorderBuffer {
    const entries: array<RobEntry>
    var head: nat
    var tail: nat
    var maybeFull: bool
    var state: RobState
    var commitValid: bool
    var lastCommit: CommitEntry

    ghost predicate Valid()
      reads this
    {
      entries.Length == ROB_DEPTH && head < ROB_DEPTH && tail < ROB_DEPTH
    }

    ghost function Snap(): Rob
      reads this, entries
    {
      Rob(entries[..], head, tail, maybeFull, state, commitValid, lastCommit)
    }

    lemma Fields()
      ensures Snap().head == head && Snap().tail == tail && Snap().maybeFull == maybeFull && Snap().state == state
    {
    }

    constructor ()
      ensures Valid() && Snap() == ResetCore().rob && fresh(entries)
    {
      entries := new RobEntry[ROB_DEPTH](_ => NO_ENTRY);
      head, tail, maybeFull, state, commitValid, lastCommit := 0, 0, false, RobInit, false, NO_COMMIT;
    }

    method Get(idx: nat) returns (e: RobEntry)
      ensures e == EntryAt(Snap(), idx)
    {
      e := if idx < entries.Length then entries[idx] else NO_ENTRY;
    }

    method Set(idx: nat, e: RobEntry)
      requires Valid()
      modifies entries
      ensures Valid() && Snap() == SetEntry(old(Snap()), idx, e)
    {
      if idx < entries.Length {
        entries[idx] := e;
      }
    }

    /** A fresh entry at the tail. */
    method Push(e: RobEntry)
      requires Valid()
      modifies `tail, `maybeFull, entries
      ensures Valid() && Snap() == PushEntry(old(Snap()), e)
    {
      entries[tail] := e;
      tail := (tail + 1) % ROB_DEPTH;
      if tail == head {
        maybeFull := true;
      }
    }

    method Pop()
      requires Valid()
      modifies `head, `maybeFull, entries
      ensures Valid() && Snap() == PopHead(old(Snap()))
    {
      entries[head] := entries[head].(valid := false);
      head, maybeFull := (head + 1) % ROB_DEPTH, false;
    }

    /** The head leaves and its record is published. */
    method Retire(record: CommitEntry)
      requires Valid()
      modifies this, entries
      ensures Valid() && Snap() == PopHead(old(Snap())).(lastCommit := record, commitValid := true)
    {
      hide PopHead;
      Pop();
      commitValid, lastCommit := true, record;
    }

    /** The record of the last commit is withdrawn. */
    method Withdraw()
      requires Valid()
      modifies `commitValid
      ensures Valid() && Snap() == old(Snap()).(commitValid := false)
    {
      commitValid := false;
    }

    method Enter(s: RobState)
      requires Valid()
      modifies `state
      ensures Valid() && Snap() == old(Snap()).(state := s)
    {
      state := s;
    }

    /** The first step after reset. */
    method Start()
      requires Valid()
      modifies `state
      ensures Valid() && Snap() == if old(Snap()).state == RobInit then old(Snap()).(state := RobNormal) else old(Snap())
    {
      if state == RobInit {
        state := RobNormal;
      }
    }

    /** Drops every entry. */
    method Flush()
      requires Valid()
      modifies this, entries
      ensures Valid() && Snap() == FlushRob(old(Snap()))
    {
      ghost var before := entries[..];
      for i := 0 to ROB_DEPTH
        invariant head == old(head) && tail == old(tail) && maybeFull == old(maybeFull) && state == old(state)
                  && commitValid == old(commitValid) && lastCommit == old(lastCommit)
        invariant forall j :: 0 <= j < i ==> entries[j] == FlushedEntry(before[j])
        invariant forall j :: i <= j < ROB_DEPTH ==> entries[j] == before[j]
      {
        if entries[i].valid {
          entries[i] := entries[i].(valid := false, busy := false);
        }
      }
      head, tail, maybeFull, state, commitValid := 0, 0, false, RobNormal, false;
      assert entries[..] == FlushRob(old(Snap())).entries;
    }

    /** The search for a valid store from the head up to a slot. */
    method HasOlderStore(target: nat) returns (found: bool)
      requires Valid() && target < ROB_DEPTH
      ensures found == OlderStoreInRob(Snap(), target)
    {
      var idx: nat := head;
      ghost var rob := Snap();
      for i := 0 to ROB_DEPTH
        invariant idx < ROB_DEPTH && OlderStoreInRob(rob, target) == StoreBefore(rob, idx, target, ROB_DEPTH - i)
      {
        if idx == target {
          return false;
        }
        if entries[idx].valid && entries[idx].uop.ctrl.isSta {
          return true;
        }
        idx := (idx + 1) % ROB_DEPTH;
      }
      return false;
    }
  }

  /** The search for a load finds the first one that can be issued. */
  lemma FirstLoadIs(rob: Rob, k: nat)
    requires k <= ROB_DEPTH && (k < ROB_DEPTH ==> CanIssueLoad(rob, NthSlot(rob, k)))
    requires forall j :: 0 <= j < k ==> !CanIssueLoad(rob, NthSlot(rob, j))
    ensures FirstLoad(rob, 0) == k
  {
    hide CanIssueLoad, FirstLoad;
    FirstLoadIsFirst(rob, 0);
  }
}
