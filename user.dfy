/**
 * The user side: the generic `syscall(number, ...)` entry, which checks the
 * number, traps into the kernel and turns a negative kernel result into `-1`
 * plus the error number in `errno`.
 */
module User {
  import opened Base
  import opened FdTable
  import opened Syscalls

  /**
   * What `syscall` does for its caller: return a value, panic, or leave
   * behaviour the model does not follow because the kernel indexed an array
   * past its end.
   */
  datatype Call = Value(value: i64) | Panic | Undefined(index: nat)

  /** The bound check of `syscall`: the number must lie strictly between 0 and `NR_TASKS`. */
  predicate Accepts(number: i64, nrTasks: int)
  {
    0 < number < nrTasks
  }

  /** `sys_init` (index 0) can never be reached through `syscall`. */
  lemma InitUnreachable(number: i64, nrTasks: int)
    requires Accepts(number, nrTasks)
    ensures Entry(Unsigned(number)) != Some(SysInit)
  {
  }

  /**
   * The bound is `NR_TASKS`, not the table's length: when `NR_TASKS` exceeds
   * the 17 entries, number 17 passes the check and has no table entry.
   */
  lemma PastTableAccepted(nrTasks: int)
    requires nrTasks > |SyscallTable|
    ensures Accepts(|SyscallTable|, nrTasks) && Entry(Unsigned(|SyscallTable|)).None?
  {
  }

  /** The caller's view of a kernel outcome, and `errno` afterwards. */
  function Translate(o: Outcome, errno: int): (res: (Call, int))
    ensures o.Overrun? ==> res == (Undefined(o.index), errno)
    ensures o.Returned? ==> res.0.Value?
    ensures o.Returned? && o.value < 0 ==> res == (Value(-1), 0 - (o.value as int))
    ensures res.0.Value? && res.0.value < 0 ==> res.0.value == -1 && res.1 > 0
    ensures res.0.Value? && res.0.value >= 0 ==> res.1 == errno
  {
    match o
    case Overrun(i) => (Undefined(i), errno)
    case Returned(v) => if v < 0 then (Value(-1), 0 - (v as int)) else (Value(v), errno)
  }

  /** How a caller reads the kernel's result back: `-errno` after a `-1`, the value otherwise. */
  function KernelResult(c: Call, errno: int): int
    requires c.Value?
  {
    if c.value == -1 then -errno else c.value
  }

  /** No kernel result is lost: the caller recovers it from the value and `errno`. */
  lemma TranslateRecoversResult(o: Outcome, errno: int)
    requires o.Returned?
    ensures Translate(o, errno).0.Value?
    ensures KernelResult(Translate(o, errno).0, Translate(o, errno).1) == o.value
  {
  }

  /** The trap frame `syscall` sets up: arguments in a0..a5, the number in a7. */
  function Frame(number: i64, args: seq<i64>): (tf: TrapFrame)
    requires |args| == 6
    ensures Signed(tf.a0) == args[0] && Signed(tf.a1) == args[1] && Signed(tf.a2) == args[2]
    ensures Signed(tf.a3) == args[3] && Signed(tf.a4) == args[4] && Signed(tf.a5) == args[5]
    ensures Signed(tf.a7) == number
  {
    TrapFrame(Unsigned(args[0]), Unsigned(args[1]), Unsigned(args[2]),
              Unsigned(args[3]), Unsigned(args[4]), Unsigned(args[5]), Unsigned(number))
  }

  /** A negative descriptor reaches a handler as a word above 2^63 and fails the bound check. */
  lemma NegativeFdRejected(t: seq<Option<Inode>>, fd: i64)
    requires |t| == NR_FD && fd < 0
    ensures SlotOf(t, Unsigned(fd)) == Rejected
  {
  }

  class Libc {
    /** The process-wide error number. */
    var errno: int

    constructor (errno: int)
      ensures this.errno == errno
    {
      this.errno := errno;
    }

    /**
     * `syscall(number, args...)`: panic unless `0 < number < NR_TASKS`;
     * otherwise trap into the kernel, which runs the table entry at `number`,
     * and translate its result. `o` is the kernel's result.
     */
    method Syscall(number: i64, args: seq<i64>, k: Kernel, lookup: u64 -> Option<Inode>, external: i64)
      returns (c: Call, ghost o: Outcome)
      requires |args| == 6 && k.Valid() && k.Owns()
      modifies this`errno, k`refs, k`requests, k.current`brk, k.current.fd
      ensures k.Valid()
      ensures !Accepts(number, k.layout.nrTasks) || Modelled(Unsigned(number)) ==> k.Owns()
      ensures !Accepts(number, k.layout.nrTasks) ==> c == Panic && errno == old(errno) && k.Unchanged()
      ensures Accepts(number, k.layout.nrTasks) ==>
        k.Dispatched(Frame(number, args), lookup, external, o) && (c, errno) == Translate(o, old(errno))
    {
      if 0 < number < k.layout.nrTasks {
        var ret := k.Dispatch(Frame(number, args), lookup, external);
        o := ret;
        var res := Translate(ret, errno);
        c, errno := res.0, res.1;
      } else {
        c, o := Panic, Overrun(0);
      }
    }
  }

  /**
   * Open a file into descriptor 0, read from it, close descriptor 0 and stat
   * it: the stat fails with EINVAL because the slot is empty again, and the
   * file's reference is dropped.
   */
  method OpenReadCloseStat(libc: Libc, k: Kernel, lookup: u64 -> Option<Inode>, path: i64, buf: i64, inode: Inode)
    returns (openCall: Call, readCall: Call, closeCall: Call, statCall: Call)
    requires k.Valid() && k.Owns() && k.layout.nrTasks > 10
    requires k.current.fd[..] == [None, None, None, None]
    requires lookup(Unsigned(path)) == Some(inode)
    modifies libc, k`refs, k`requests, k.current`brk, k.current.fd
    ensures openCall == Value(0) && readCall == Value(0) && closeCall == Value(0)
    ensures statCall == Value(-1) && libc.errno == EINVAL
    ensures k.current.fd[..] == old(k.current.fd[..]) && k.refs == old(k.refs)
    ensures k.requests == old(k.requests) + [Request(inode, Unsigned(buf), 10, 0, 1)]
  {
    openCall := OpenStep(libc, k, lookup, path, inode);
    readCall := ReadStep(libc, k, lookup, buf, inode);
    closeCall := CloseStep(libc, k, lookup, inode);
    statCall := StatStep(libc, k, lookup, buf);
  }

  /** The `open` of the scenario above: the empty table gets the inode in slot 0. */
  method OpenStep(libc: Libc, k: Kernel, lookup: u64 -> Option<Inode>, path: i64, inode: Inode)
    returns (openCall: Call)
    requires k.Valid() && k.Owns() && k.layout.nrTasks > 7
    requires k.current.fd[..] == [None, None, None, None]
    requires lookup(Unsigned(path)) == Some(inode)
    modifies libc, k`refs, k`requests, k.current`brk, k.current.fd
    ensures k.Valid() && k.Owns() && openCall == Value(0)
    ensures k.current.fd[..] == [Some(inode), None, None, None]
    ensures k.refs == old(k.refs) + multiset{inode} && k.requests == old(k.requests)
  {
    ghost var o;
    assert Entry(7) == Some(SysOpen) && FirstFree(k.current.fd[..], 0) == 0;
    openCall, o := libc.Syscall(7, [path, 0, 0, 0, 0, 0], k, lookup, 0);
  }

  /** The `read` of the scenario above: one request for the inode in slot 0. */
  method ReadStep(libc: Libc, k: Kernel, lookup: u64 -> Option<Inode>, buf: i64, inode: Inode)
    returns (readCall: Call)
    requires k.Valid() && k.Owns() && k.layout.nrTasks > 10
    requires k.current.fd[..] == [Some(inode), None, None, None]
    modifies libc, k`refs, k`requests, k.current`brk, k.current.fd
    ensures k.Valid() && k.Owns() && readCall == Value(0)
    ensures k.current.fd[..] == [Some(inode), None, None, None] && k.refs == old(k.refs)
    ensures k.requests == old(k.requests) + [Request(inode, Unsigned(buf), 10, 0, 1)]
  {
    ghost var o;
    assert Entry(10) == Some(SysRead);
    readCall, o := libc.Syscall(10, [0, buf, 10, 0, 0, 0], k, lookup, 0);
  }

  /** The `close` of the scenario above: slot 0 is cleared and its reference dropped. */
  method CloseStep(libc: Libc, k: Kernel, lookup: u64 -> Option<Inode>, inode: Inode)
    returns (closeCall: Call)
    requires k.Valid() && k.Owns() && k.layout.nrTasks > 8
    requires k.current.fd[..] == [Some(inode), None, None, None]
    modifies libc, k`refs, k`requests, k.current`brk, k.current.fd
    ensures k.Valid() && k.Owns() && closeCall == Value(0)
    ensures k.current.fd[..] == [None, None, None, None] && k.refs == old(k.refs) - multiset{inode}
    ensures k.requests == old(k.requests)
  {
    ghost var o;
    assert Entry(8) == Some(SysClose);
    closeCall, o := libc.Syscall(8, [0, 0, 0, 0, 0, 0], k, lookup, 0);
  }

  /** The `stat` of the scenario above: slot 0 is empty, so the caller sees -1 and EINVAL. */
  method StatStep(libc: Libc, k: Kernel, lookup: u64 -> Option<Inode>, buf: i64)
    returns (statCall: Call)
    requires k.Valid() && k.Owns() && k.layout.nrTasks > 9
    requires k.current.fd[..] == [None, None, None, None]
    modifies libc, k`refs, k`requests, k.current`brk, k.current.fd
    ensures statCall == Value(-1) && libc.errno == EINVAL
    ensures k.current.fd[..] == old(k.current.fd[..]) && k.refs == old(k.refs)
    ensures k.requests == old(k.requests)
  {
    ghost var o;
    assert Entry(9) == Some(SysStat);
    statCall, o := libc.Syscall(9, [0, buf, 0, 0, 0, 0], k, lookup, 0);
  }
}
