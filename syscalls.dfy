/**
 * The kernel side of the syscall layer: the handlers that read and write the
 * current task, the syscall table and the dispatch of a trapped call to it.
 * The VFS is an outside collaborator: a lookup from the path argument to an
 * optional inode, a ghost multiset of the references the handlers take and
 * drop, and a ghost log of the read requests they issue.
 */
module Syscalls {
  import opened Base
  import opened FdTable
  import opened Tasks

  /** `NR_TASKS`, `START_STACK` and `stack_size`; the model fixes none of their values. */
  datatype Layout = Layout(nrTasks: int, startStack: u64, stackSize: u64)

  /** `START_STACK - stack_size`, computed on unsigned 64-bit words. */
  function HeapLimit(l: Layout): u64
  {
    (l.startStack - l.stackSize) % TWO_64
  }

  /** The heap break after `sys_brk` is asked for `request`. */
  function NewBrk(brk: u64, endData: u64, limit: u64, request: u64): u64
  {
    if request >= endData && request < limit then request else brk
  }

  /**
   * The break moves to the request exactly when the request lies in
   * `[endData, limit)`: `NewBrk`'s guard written out as its two cases.
   */
  lemma BrkMovesIffInHeap(brk: u64, endData: u64, limit: u64, request: u64)
    ensures endData <= request < limit ==> NewBrk(brk, endData, limit, request) == request
    ensures !(endData <= request < limit) ==> NewBrk(brk, endData, limit, request) == brk
  {
  }

  /** Asking twice for the same break is the same as asking once. */
  lemma BrkIdempotent(brk: u64, endData: u64, limit: u64, request: u64)
    ensures var once := NewBrk(brk, endData, limit, request);
      NewBrk(once, endData, limit, request) == once
  {
  }

  /** A break inside the heap stays inside it, whatever is asked for. */
  lemma BrkKeepsHeapBounds(brk: u64, endData: u64, limit: u64, request: u64)
    requires endData <= brk < limit
    ensures endData <= NewBrk(brk, endData, limit, request) < limit
  {
  }

  /**
   * `sys_brk` returns the break as an `int64_t`; it reads as an error only if
   * the break reaches 2^63, which no break below a heap limit of at most 2^63
   * does.
   */
  lemma BrkNeverFails(brk: u64, endData: u64, limit: u64, request: u64)
    requires brk < TWO_63 && limit <= TWO_63
    ensures Signed(NewBrk(brk, endData, limit, request)) >= 0
  {
  }

  /** The handlers of `syscall_table`, named after the C functions. */
  datatype Handler =
    | SysInit | SysFork | SysTestFork | SysGetpid | SysGetppid | SysChar | SysBlock
    | SysOpen | SysClose | SysStat | SysRead | SysReset | SysBrk | SysSigaction
    | SysKill | SysExit | SysSigreturn

  /** `syscall_table`: the syscall number is the index. */
  const SyscallTable: seq<Handler> := [
    SysInit, SysFork, SysTestFork, SysGetpid, SysGetppid, SysChar, SysBlock, SysOpen,
    SysClose, SysStat, SysRead, SysReset, SysBrk, SysSigaction, SysKill, SysExit, SysSigreturn]

  /** The table entry at index `n`, or `None` when `n` lies past the table's end. */
  function Entry(n: u64): Option<Handler>
  {
    if n < |SyscallTable| then Some(SyscallTable[n]) else None
  }

  /** `sys_init` is the entry at index 0 and nowhere else. */
  lemma InitOnlyAtZero(n: u64)
    ensures Entry(n) == Some(SysInit) <==> n == 0
  {
  }

  /** Whether the model follows what the table entry at `n` does (a number past the table changes nothing). */
  predicate Modelled(n: u64)
  {
    match Entry(n)
    case None => true
    case Some(h) =>
      h == SysGetpid || h == SysGetppid || h == SysBrk || h == SysOpen
      || h == SysClose || h == SysStat || h == SysRead
  }

  /** The saved registers a handler reads: the arguments a0..a5 and the number in a7. */
  datatype TrapFrame = TrapFrame(a0: u64, a1: u64, a2: u64, a3: u64, a4: u64, a5: u64, a7: u64)

  /**
   * What a handler does: return a signed result, or index a fixed-size array
   * at `index`, past its end, which the model does not follow further.
   */
  datatype Outcome = Returned(value: i64) | Overrun(index: nat)

  /** A call of `vfs_inode_request(inode, buffer, length, offset, flag)`. */
  datatype Request = Request(inode: Inode, buffer: u64, length: u64, offset: u64, flag: int)

  /** The references held after `vfs_free_inode` drops the one in a slot; NULL drops nothing. */
  ghost function Released(refs: multiset<Inode>, slot: Option<Inode>): multiset<Inode>
  {
    match slot
    case None => refs
    case Some(inode) => refs - multiset{inode}
  }

  class Kernel {
    /** `tasks[0]`, the first task. */
    const tasks0: Task
    /** `current`, the task whose trap is being handled. */
    const current: Task
    const layout: Layout
    /** References taken by `vfs_ref_inode` and dropped by `vfs_free_inode`. */
    ghost var refs: multiset<Inode>
    /** Requests handed to `vfs_inode_request`, oldest first. */
    ghost var requests: seq<Request>

    ghost predicate Valid()
    {
      current.Valid() && (current != tasks0 ==> current.parent != null)
    }

    /**
     * Every inode bound in the fd table carries a reference the kernel took
     * for it, so releasing a slot's inode gives back a reference that exists:
     * `Held(current.fd[..]) <= refs`, in the slot-by-slot form that
     * `CoveredIffHeld` shows equivalent.
     */
    ghost predicate Owns()
      reads this, current.fd
    {
      Covered(current.fd[..], refs)
    }

    constructor (tasks0: Task, current: Task, layout: Layout, ghost refs: multiset<Inode>)
      requires current.Valid() && (current != tasks0 ==> current.parent != null)
      ensures Valid()
      ensures this.tasks0 == tasks0 && this.current == current && this.layout == layout
      ensures this.refs == refs && requests == []
      ensures current.fd[..] == [None, None, None, None] ==> Owns()
    {
      this.tasks0 := tasks0;
      this.current := current;
      this.layout := layout;
      this.refs := refs;
      requests := [];
      if current.fd[..] == [None, None, None, None] {
        HeldNone(current.fd[..]);
        CoveredIffHeld(current.fd[..], refs);
      }
    }

    /** Nothing the model tracks has changed. */
    twostate predicate Unchanged()
      reads this, current, current.fd
    {
      current.brk == old(current.brk) && current.fd[..] == old(current.fd[..])
      && refs == old(refs) && requests == old(requests)
    }

    /** `sys_getpid`: the current task's pid; it never fails. */
    function GetPid(): (r: Outcome)
      ensures r.Returned? && r.value >= 0
      ensures r.value == current.pid
    {
      Returned(current.pid)
    }

    /** `sys_getppid`: 0 for the first task, the parent's pid for any other; it never fails. */
    function GetPpid(): (r: Outcome)
      requires Valid()
      ensures r.Returned? && r.value >= 0
      ensures current == tasks0 ==> r.value == 0
      ensures current != tasks0 ==> r.value == current.parent.pid
    {
      if current == tasks0 then Returned(0) else Returned(current.parent.pid)
    }

    /**
     * `sys_brk`: the break becomes a0 when a0 lies in `[end_data, START_STACK
     * - stack_size)` and stays otherwise; the result is the new break.
     */
    twostate predicate BrkSpec(tf: TrapFrame, r: Outcome)
      reads this, current, current.fd
    {
      current.brk == NewBrk(old(current.brk), current.endData, HeapLimit(layout), tf.a0)
      && r == Returned(Signed(current.brk))
      && current.fd[..] == old(current.fd[..]) && refs == old(refs) && requests == old(requests)
    }

    method Brk(tf: TrapFrame) returns (r: Outcome)
      requires Owns()
      modifies current`brk
      ensures Owns()
      ensures BrkSpec(tf, r)
    {
      var newBrk := tf.a0;
      if newBrk >= current.endData && newBrk < HeapLimit(layout) {
        current.brk := newBrk;
      }
      r := Returned(Signed(current.brk));
    }

    /**
     * `sys_open`: at the lowest empty slot, look the path up; on success bind
     * the inode there, take a reference and return the slot; on failure, or
     * with no empty slot, return -EAGAIN with the table as it was. Later empty
     * slots are never tried.
     */
    twostate predicate OpenSpec(tf: TrapFrame, lookup: u64 -> Option<Inode>, r: Outcome)
      reads this, current, current.fd
    {
      var t, found := old(current.fd[..]), lookup(tf.a0);
      var i := FirstFree(t, 0);
      current.brk == old(current.brk) && requests == old(requests)
      && if i < |t| && found.Some? then
           r.Returned? && r.value == i
           && current.fd[..] == t[i := found] && refs == old(refs) + multiset{found.value}
         else
           r == Returned(-EAGAIN) && current.fd[..] == t && refs == old(refs)
    }

    /** `lookup` resolves the path whose user address is in a0. */
    method Open(tf: TrapFrame, lookup: u64 -> Option<Inode>) returns (r: Outcome)
      requires Valid() && Owns()
      modifies current.fd, this`refs
      ensures Owns()
      ensures OpenSpec(tf, lookup, r)
    {
      var fd: u64 := 0;
      while fd < NR_FD
        invariant fd <= NR_FD
        invariant forall j :: 0 <= j < fd ==> current.fd[j].Some?
        invariant current.fd[..] == old(current.fd[..]) && refs == old(refs)
      {
        if current.fd[fd].None? {
          var inode := lookup(tf.a0);
          ghost var t := current.fd[..];
          current.fd[fd] := inode;
          assert current.fd[..] == t[fd := inode];
          if inode.Some? {
            BindKeepsCovered(t, fd, inode.value, refs);
            refs := refs + multiset{inode.value};
            return Returned(fd);
          }
          assert current.fd[..] == t;
          break;
        }
        fd := fd + 1;
      }
      return Returned(-EAGAIN);
    }

    /**
     * `sys_close`: a descriptor above 4 gives -EINVAL and changes nothing;
     * descriptor 4 passes the check and indexes past the table; any other
     * descriptor has its slot cleared and its inode (possibly NULL) released,
     * and the result is 0.
     */
    twostate predicate CloseSpec(tf: TrapFrame, r: Outcome)
      requires current.Valid()
      reads this, current, current.fd
    {
      var t := old(current.fd[..]);
      current.brk == old(current.brk) && requests == old(requests)
      && if tf.a0 > NR_FD then
           r == Returned(-EINVAL) && current.fd[..] == t && refs == old(refs)
         else if tf.a0 == NR_FD then
           r == Overrun(NR_FD) && current.fd[..] == t && refs == old(refs)
         else
           r == Returned(0) && current.fd[..] == t[tf.a0 := None] && refs == Released(old(refs), t[tf.a0])
    }

    method Close(tf: TrapFrame) returns (r: Outcome)
      requires Valid() && Owns()
      modifies current.fd, this`refs
      ensures Owns()
      ensures CloseSpec(tf, r)
    {
      ghost var t := current.fd[..];
      match SlotOf(current.fd[..], tf.a0)
      case Rejected =>
        r := Returned(-EINVAL);
      case PastEnd =>
        r := Overrun(NR_FD);
      case Empty(i) =>
        current.fd[i] := None;
        assert current.fd[..] == t;
        r := Returned(0);
      case Bound(i, inode) =>
        ClearKeepsCovered(t, i, inode, refs);
        current.fd[i] := None;
        assert current.fd[..] == t[i := None];
        refs := refs - multiset{inode};
        r := Returned(0);
    }

    /**
     * The check `sys_stat` and `sys_read` share: -EINVAL for a descriptor above
     * 4 or an empty slot, 0 for a bound slot; descriptor 4 indexes past the
     * table. Copying the stat record to the user buffer is not modelled.
     */
    function Stat(tf: TrapFrame): (r: Outcome)
      requires Valid()
      reads current.fd
      ensures r == Returned(-EINVAL) <==> tf.a0 > NR_FD || (tf.a0 < NR_FD && current.fd[tf.a0].None?)
      ensures r == Overrun(NR_FD) <==> tf.a0 == NR_FD
      ensures r == Returned(0) <==> tf.a0 < NR_FD && current.fd[tf.a0].Some?
    {
      match SlotOf(current.fd[..], tf.a0)
      case Rejected => Returned(-EINVAL)
      case PastEnd => Overrun(NR_FD)
      case Empty(_) => Returned(-EINVAL)
      case Bound(_, _) => Returned(0)
    }

    /**
     * `sys_read`: the same result as `sys_stat`; when that is 0 it issues
     * exactly one VFS request for the slot's inode, the buffer a1 and the
     * length a2, at offset 0 with flag 1, and nothing else changes.
     */
    twostate predicate ReadSpec(tf: TrapFrame, r: Outcome)
      requires Valid()
      reads this, current, current.fd
    {
      r == Stat(tf)
      && current.brk == old(current.brk) && current.fd[..] == old(current.fd[..]) && refs == old(refs)
      && requests == if tf.a0 < NR_FD && current.fd[tf.a0].Some?
                     then old(requests) + [Request(current.fd[tf.a0].value, tf.a1, tf.a2, 0, 1)]
                     else old(requests)
    }

    method Read(tf: TrapFrame) returns (r: Outcome)
      requires Valid() && Owns()
      modifies this`requests
      ensures Owns()
      ensures ReadSpec(tf, r)
    {
      match SlotOf(current.fd[..], tf.a0)
      case Rejected =>
        r := Returned(-EINVAL);
      case PastEnd =>
        r := Overrun(NR_FD);
      case Empty(_) =>
        r := Returned(-EINVAL);
      case Bound(_, inode) =>
        requests := requests + [Request(inode, tf.a1, tf.a2, 0, 1)];
        r := Returned(0);
    }

    /**
     * The table entry at a7 runs on the trap frame. A number past the table's
     * end indexes past it. An entry this model does not cover returns
     * `external`, and nothing is promised about the state after it.
     */
    twostate predicate Dispatched(tf: TrapFrame, lookup: u64 -> Option<Inode>, external: i64, r: Outcome)
      requires Valid()
      reads this, current, current.fd
    {
      match Entry(tf.a7)
      case None => r == Overrun(tf.a7) && Unchanged()
      case Some(h) =>
        match h
        case SysGetpid => r == GetPid() && Unchanged()
        case SysGetppid => r == GetPpid() && Unchanged()
        case SysBrk => BrkSpec(tf, r)
        case SysOpen => OpenSpec(tf, lookup, r)
        case SysClose => CloseSpec(tf, r)
        case SysStat => r == Stat(tf) && Unchanged()
        case SysRead => ReadSpec(tf, r)
        case _ => r == Returned(external)
    }

    method Dispatch(tf: TrapFrame, lookup: u64 -> Option<Inode>, external: i64) returns (r: Outcome)
      requires Valid() && Owns()
      modifies current`brk, current.fd, this`refs, this`requests
      ensures Valid()
      ensures Modelled(tf.a7) ==> Owns()
      ensures Dispatched(tf, lookup, external, r)
    {
      match Entry(tf.a7) {
        case None =>
          r := Overrun(tf.a7);
        case Some(h) =>
          match h {
            case SysGetpid => r := GetPid();
            case SysGetppid => r := GetPpid();
            case SysBrk => r := Brk(tf);
            case SysOpen => r := Open(tf, lookup);
            case SysClose => r := Close(tf);
            case SysStat => r := Stat(tf);
            case SysRead => r := Read(tf);
            case _ => r := Returned(external);
          }
      }
    }
  }
}
