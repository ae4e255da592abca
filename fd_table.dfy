/** The per-task table of open files, as a value: four optional inode handles. */
module FdTable {
  import opened Base

  /** Number of slots in a task's fd table (the `4` of `while (fd < 4)`). */
  const NR_FD: nat := 4

  /**
   * What a descriptor argument designates once a handler has applied the bound
   * check `fd < 0 || fd > 4` to it. The check lets `fd == 4` through, so that
   * descriptor designates the word just past the table.
   */
  datatype Slot = Rejected | PastEnd | Empty(index: nat) | Bound(index: nat, inode: Inode)

  function SlotOf(t: seq<Option<Inode>>, fd: u64): (s: Slot)
    requires |t| == NR_FD
    ensures s.Rejected? <==> fd > NR_FD
    ensures s.PastEnd? <==> fd == NR_FD
    ensures s.Empty? <==> fd < NR_FD && t[fd].None?
    ensures s.Bound? <==> fd < NR_FD && t[fd].Some?
    ensures (s.Empty? || s.Bound?) ==> s.index == fd
    ensures s.Bound? ==> t[fd] == Some(s.inode)
  {
    if fd > NR_FD then Rejected
    else if fd == NR_FD then PastEnd
    else match t[fd]
      case None => Empty(fd)
      case Some(inode) => Bound(fd, inode)
  }

  /** The lowest empty slot at or after `from`, or `|t|` when there is none. */
  function FirstFree(t: seq<Option<Inode>>, from: nat): (i: nat)
    requires from <= |t|
    ensures from <= i <= |t|
    ensures i < |t| ==> t[i].None?
    ensures forall j :: from <= j < i ==> t[j].Some?
    decreases |t| - from
  {
    if from == |t| then |t|
    else if t[from].None? then from
    else FirstFree(t, from + 1)
  }

  /** Every slot of the table holds an inode. */
  predicate Full(t: seq<Option<Inode>>)
  {
    forall j :: 0 <= j < |t| ==> t[j].Some?
  }

  /** The scan finds no empty slot exactly when the table is full. */
  lemma NoFreeSlotIffFull(t: seq<Option<Inode>>)
    ensures FirstFree(t, 0) == |t| <==> Full(t)
  {
  }

  /**
   * The scan's answer is the lowest empty slot: any empty slot `k` lies at or
   * after it. A corollary of `FirstFree`'s third postcondition, stated in the
   * form a caller uses.
   */
  lemma FirstFreeIsLowest(t: seq<Option<Inode>>, k: nat)
    requires k < |t| && t[k].None?
    ensures FirstFree(t, 0) <= k
  {
  }

  /** Binding the first free slot and then clearing it gives back the original table. */
  lemma BindThenClear(t: seq<Option<Inode>>, inode: Inode)
    requires FirstFree(t, 0) < |t|
    ensures var i := FirstFree(t, 0); t[i := Some(inode)][i := None] == t
  {
  }

  /** The inode a slot holds, as a multiset of at most one element. */
  function Bag(slot: Option<Inode>): multiset<Inode>
  {
    match slot
    case None => multiset{}
    case Some(inode) => multiset{inode}
  }

  /** The inodes the bound slots of a table hold, with multiplicity. */
  ghost function Held(t: seq<Option<Inode>>): multiset<Inode>
  {
    if t == [] then multiset{} else Bag(t[0]) + Held(t[1..])
  }

  /** Overwriting slot `i` trades the inode it held for the one written there. */
  lemma {:induction false} HeldUpdate(t: seq<Option<Inode>>, i: nat, slot: Option<Inode>)
    requires i < |t|
    ensures Held(t[i := slot]) + Bag(t[i]) == Held(t) + Bag(slot)
  {
    var u := t[i := slot];
    if i == 0 {
      assert u[1..] == t[1..];
    } else {
      var r := t[1..];
      HeldUpdate(r, i - 1, slot);
      assert u[1..] == r[i - 1 := slot] && r[i - 1] == t[i];
      forall x: Inode
        ensures (Held(u) + Bag(t[i]))[x] == (Held(t) + Bag(slot))[x]
      {
        assert (Held(r[i - 1 := slot]) + Bag(r[i - 1]))[x] == (Held(r) + Bag(slot))[x];
      }
    }
  }

  /**
   * Binding an empty slot while taking a reference to its inode keeps every
   * held inode covered by a reference.
   */
  lemma BindKeepsHeld(t: seq<Option<Inode>>, i: nat, inode: Inode, refs: multiset<Inode>)
    requires i < |t| && t[i].None? && Held(t) <= refs
    ensures Held(t[i := Some(inode)]) <= refs + multiset{inode}
  {
    HeldUpdate(t, i, Some(inode));
    forall x: Inode
      ensures Held(t[i := Some(inode)])[x] <= (refs + multiset{inode})[x]
    {
      assert (Held(t[i := Some(inode)]) + Bag(t[i]))[x] == (Held(t) + Bag(Some(inode)))[x];
    }
  }

  /**
   * Clearing a bound slot and dropping one reference to its inode keeps every
   * held inode covered; the reference dropped was there to drop.
   */
  lemma ClearKeepsHeld(t: seq<Option<Inode>>, i: nat, inode: Inode, refs: multiset<Inode>)
    requires i < |t| && t[i] == Some(inode) && Held(t) <= refs
    ensures inode in refs
    ensures Held(t[i := None]) <= refs - multiset{inode}
  {
    HeldUpdate(t, i, None);
    forall x: Inode
      ensures Held(t[i := None])[x] + multiset{inode}[x] <= refs[x]
    {
      assert (Held(t[i := None]) + Bag(t[i]))[x] == (Held(t) + Bag(None))[x];
    }
    assert multiset{inode}[inode] == 1;
  }

  /**
   * `Held(t) <= refs`, taken slot by slot: each bound slot's inode has a
   * reference left after the earlier slots have taken theirs.
   */
  ghost predicate Covered(t: seq<Option<Inode>>, refs: multiset<Inode>)
  {
    t == [] ||
    match t[0]
    case None => Covered(t[1..], refs)
    case Some(inode) => inode in refs && Covered(t[1..], refs - multiset{inode})
  }

  /** The slot-by-slot reading of ownership is the multiset inclusion `Held(t) <= refs`. */
  lemma {:induction false} CoveredIffHeld(t: seq<Option<Inode>>, refs: multiset<Inode>)
    ensures Covered(t, refs) <==> Held(t) <= refs
  {
    if t != [] {
      match t[0]
      case None =>
        CoveredIffHeld(t[1..], refs);
      case Some(inode) =>
        CoveredIffHeld(t[1..], refs - multiset{inode});
        var h := Held(t[1..]);
        assert Held(t) == multiset{inode} + h;
        if multiset{inode} + h <= refs {
          assert multiset{inode}[inode] == 1;
          forall x: Inode
            ensures h[x] <= (refs - multiset{inode})[x]
          {
            assert (multiset{inode} + h)[x] <= refs[x];
          }
        }
        if inode in refs && h <= refs - multiset{inode} {
          forall x: Inode
            ensures (multiset{inode} + h)[x] <= refs[x]
          {
            assert h[x] <= (refs - multiset{inode})[x];
          }
        }
    }
  }

  /** `BindKeepsHeld`, for the slot-by-slot reading. */
  lemma BindKeepsCovered(t: seq<Option<Inode>>, i: nat, inode: Inode, refs: multiset<Inode>)
    requires i < |t| && t[i].None? && Covered(t, refs)
    ensures Covered(t[i := Some(inode)], refs + multiset{inode})
  {
    CoveredIffHeld(t, refs);
    BindKeepsHeld(t, i, inode, refs);
    CoveredIffHeld(t[i := Some(inode)], refs + multiset{inode});
  }

  /** `ClearKeepsHeld`, for the slot-by-slot reading. */
  lemma ClearKeepsCovered(t: seq<Option<Inode>>, i: nat, inode: Inode, refs: multiset<Inode>)
    requires i < |t| && t[i] == Some(inode) && Covered(t, refs)
    ensures inode in refs
    ensures Covered(t[i := None], refs - multiset{inode})
  {
    CoveredIffHeld(t, refs);
    ClearKeepsHeld(t, i, inode, refs);
    CoveredIffHeld(t[i := None], refs - multiset{inode});
  }

  /** A table with no bound slot holds nothing. */
  lemma {:induction false} HeldNone(t: seq<Option<Inode>>)
    requires forall j :: 0 <= j < |t| ==> t[j].None?
    ensures Held(t) == multiset{}
  {
    if t != [] {
      HeldNone(t[1..]);
    }
  }
}
