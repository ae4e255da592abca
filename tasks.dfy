/** The part of a task control block that the syscall handlers read and write. */
module Tasks {
  import opened Base
  import opened FdTable

  /** A pid: a non-negative value that fits the `int64_t` a handler returns. */
  type Pid = x: int | 0 <= x < TWO_63

  class Task {
    const pid: Pid
    /** `p_pptr`: the parent task, absent only for the first task. */
    const parent: Task?
    /** Lowest address the heap break may take. */
    const endData: u64
    /** Current heap break. */
    var brk: u64
    /** `fd[4]`: the open-file table; `None` is a NULL slot. */
    const fd: array<Option<Inode>>

    ghost predicate Valid()
    {
      fd.Length == NR_FD
    }

    constructor (pid: Pid, parent: Task?, endData: u64, brk: u64)
      ensures this.pid == pid && this.parent == parent
      ensures this.endData == endData && this.brk == brk
      ensures Valid() && fresh(fd) && fd[..] == [None, None, None, None]
    {
      this.pid := pid;
      this.parent := parent;
      this.endData := endData;
      this.brk := brk;
      fd := new Option<Inode>[NR_FD](_ => None);
    }
  }
}
