# Syscall layer of the lab6 teaching kernel, in Dafny

This project models the kernel-side syscall handlers of a small RISC-V
teaching kernel (`os/lab6/kernel/syscall.c`), together with the per-process
state they read and write and the user-side `syscall()` entry that checks the
syscall number and reports errors through `errno`.

- `base.dfy` (module `Base`): 64-bit words as `u64` and `i64` subset types, the
  bit-level conversions between them, `Option`, inode handles and the error
  numbers `EAGAIN` and `EINVAL`.
- `fd_table.dfy` (module `FdTable`): the four-slot open-file table as a value.
  `SlotOf` gives what a descriptor designates after the handlers' bound check
  `fd < 0 || fd > 4`. `FirstFree` is the scan for the lowest empty slot.
  `Held` is the multiset of inodes the bound slots hold, and `Covered` states
  `Held(t) <= refs` slot by slot.
- `tasks.dfy` (module `Tasks`): class `Task` holds the fields of the current
  task that the handlers touch: `pid`, the parent (`p_pptr`), `end_data`,
  `brk` and the `fd` array of four slots.
- `syscalls.dfy` (module `Syscalls`): class `Kernel` holds `current`,
  `tasks[0]`, the constants `NR_TASKS`, `START_STACK` and `stack_size`, and
  two ghost records of the VFS collaborator. One is a multiset of the inode
  references taken by `vfs_ref_inode` and dropped by `vfs_free_inode`. The
  other is the log of `vfs_inode_request` calls. The kernel has the handlers,
  the 17-entry `syscall_table` and the dispatch of a trap frame to its entry.
  Each state-changing handler is a method whose postcondition is a two-state
  predicate (`BrkSpec`, `OpenSpec`, `CloseSpec`, `ReadSpec`). `Dispatched`
  combines them per table entry. `Owns` is the invariant that every inode
  bound in the fd table carries a reference taken by `vfs_ref_inode`
  (`Held(current.fd[..]) <= refs`). Every modelled handler keeps it, so
  `close` only ever drops a reference that exists.
- `user.dfy` (module `User`): `Translate` is the wrapper's error convention.
  Class `Libc` holds `errno` and the `Syscall` method. The file ends with a
  scenario that runs through the wrapper. It opens a file into descriptor 0,
  reads from it and closes it. Then a `stat` on descriptor 0 fails with
  `EINVAL`.

Two quirks of the code are kept as written:

- The descriptor check is `fd < 0 || fd > 4` on an unsigned word. A negative
  descriptor becomes a word above 2^63 and is rejected. Descriptor 4 passes
  the check even though the table has four slots, so `close`, `stat` and
  `read` index one word past the table. The model gives that case its own
  outcome, `Overrun(4)`, and does not follow it further.
- `syscall()` bounds the number only by `NR_TASKS` (`syscall.c:209`), not by
  the table's 17 entries. A number from 17 up to `NR_TASKS - 1` passes that
  check. The code that indexes `syscall_table` with it is not part of this
  model, so the model reports `Overrun(number)` in the kernel and
  `Undefined(number)` to the caller. Number 0 (`sys_init`) can never pass the
  check.

Two behaviours differ from the usual reading of these calls, and the model
follows the code. `close` rejects only descriptors above 4, not every descriptor outside
`[0, 4)`. `open` also fails with `-EAGAIN` when the lookup at the first empty
slot fails, even if later slots are empty.

## Model

| member | source | states |
|---|---|---|
| `Base.Unsigned` | os/lab6/kernel/syscall.c:201-217 | a signed argument placed in a register and read back as `uint64_t` keeps its bits: `Signed(Unsigned(x)) == x`, and a negative value reads as a word of at least 2^63 |
| `Base.Signed` | os/lab6/kernel/syscall.c:71 | an unsigned word returned as `int64_t` is negative exactly when it is at least 2^63, and it is congruent to the word mod 2^64 |
| `FdTable.SlotOf` | os/lab6/kernel/syscall.c:116-118 | the bound check rejects exactly the descriptors above 4. Descriptor 4 designates the word past the table. Any other descriptor designates its slot, empty or bound to that slot's inode |
| `FdTable.FirstFree` | os/lab6/kernel/syscall.c:95-107 | the scan stops at the lowest empty slot at or after its start: every slot it skips is bound, and the slot it returns, if inside the table, is empty |
| `FdTable.NoFreeSlotIffFull` | os/lab6/kernel/syscall.c:96-108 | the scan runs off the table exactly when all four slots are bound |
| `FdTable.FirstFreeIsLowest` | os/lab6/kernel/syscall.c:96-104 | no empty slot lies below the one the scan picks |
| `FdTable.BindThenClear` | os/lab6/kernel/syscall.c:93-122 | binding an inode at the first free slot and then clearing that slot gives back the original table |
| `FdTable.HeldUpdate` | os/lab6/kernel/syscall.c:99-119 | writing a slot trades the inode it held for the one written: `Held(t[i := s]) + Bag(t[i]) == Held(t) + Bag(s)` |
| `FdTable.BindKeepsHeld` | os/lab6/kernel/syscall.c:97-102 | binding an empty slot while taking one reference to its inode keeps the held inodes within the references |
| `FdTable.ClearKeepsHeld` | os/lab6/kernel/syscall.c:118-120 | when the held inodes are within the references, the inode of a bound slot has a reference, and clearing the slot while dropping that reference keeps the held inodes within the rest |
| `FdTable.CoveredIffHeld` | os/lab6/kernel/syscall.c:93-122 | the slot-by-slot ownership check holds exactly when `Held(t) <= refs` |
| `FdTable.BindKeepsCovered` | os/lab6/kernel/syscall.c:97-102 | `BindKeepsHeld` for the slot-by-slot form |
| `FdTable.ClearKeepsCovered` | os/lab6/kernel/syscall.c:118-120 | `ClearKeepsHeld` for the slot-by-slot form |
| `FdTable.HeldNone` | os/lab6/kernel/syscall.c:97 | a table of NULL slots holds no inode |
| `Syscalls.BrkMovesIffInHeap` | os/lab6/kernel/syscall.c:68-70 | the break becomes the request when the request lies in `[end_data, START_STACK - stack_size)` and stays where it was otherwise |
| `Syscalls.BrkIdempotent` | os/lab6/kernel/syscall.c:68-71 | asking twice for the same break leaves the same break as asking once |
| `Syscalls.BrkKeepsHeapBounds` | os/lab6/kernel/syscall.c:69-70 | a break inside `[end_data, START_STACK - stack_size)` stays inside it whatever is asked for |
| `Syscalls.BrkNeverFails` | os/lab6/kernel/syscall.c:71 | the result of `brk` is never negative when the old break is below 2^63 and the heap limit is at most 2^63, so the wrapper never reports an error for it |
| `Syscalls.InitOnlyAtZero` | os/lab6/kernel/syscall.c:187 | `sys_init` is the table entry at index 0 and at no other index |
| `Syscalls.Kernel.GetPid` | os/lab6/kernel/syscall.c:46-49 | `getpid` returns the current task's pid, which is non-negative, and reads no mutable state |
| `Syscalls.Kernel.GetPpid` | os/lab6/kernel/syscall.c:54-61 | `getppid` returns 0 when the current task is `tasks[0]` and the parent's pid otherwise; it never fails and reads no mutable state |
| `Syscalls.Kernel.constructor` | os/lab6/kernel/syscall.c:93-122 | a kernel over a task whose slots are all NULL satisfies `Owns` |
| `Syscalls.Kernel.Brk` | os/lab6/kernel/syscall.c:66-72 | keeps `Owns`. The new break is the request if it lies in the heap range and the old break otherwise. The result is the new break as `int64_t`. The fd table and the VFS references are unchanged |
| `Syscalls.Kernel.Open` | os/lab6/kernel/syscall.c:93-109 | keeps `Owns`. With a lowest empty slot `i` and a successful lookup: binds the inode at `i`, adds one reference to it, returns `i` and leaves every other slot as it was. With no empty slot, or when the lookup at `i` fails: returns `-EAGAIN` with the table and references unchanged, and later empty slots are not tried |
| `Syscalls.Kernel.Close` | os/lab6/kernel/syscall.c:114-122 | keeps `Owns`, so a released inode had a reference. A descriptor above 4 gets `-EINVAL` and nothing changes. Descriptor 4 indexes past the table. Any other descriptor has its slot cleared and the inode it held, if any, released, with result 0. Other slots, `brk` and the request log do not change |
| `Syscalls.Kernel.Stat` | os/lab6/kernel/syscall.c:127-135 | the result is `-EINVAL` exactly when the descriptor is above 4 or names an empty slot. Descriptor 4 indexes past the table. The result is 0 exactly for a bound slot. No state changes |
| `Syscalls.Kernel.Read` | os/lab6/kernel/syscall.c:140-147 | keeps `Owns`. The result is the same as `stat` for that descriptor. When it is 0, exactly one VFS request is issued, for the slot's inode, buffer a1, length a2, offset 0 and flag 1. Otherwise no request is issued. The fd table, the references and `brk` do not change |
| `Syscalls.Kernel.Dispatch` | os/lab6/kernel/syscall.c:187 | a number past the 17 entries indexes past the table. Otherwise the entry at that index runs, with the contract of the handler that sits there in `syscall_table`. An entry this model does not cover returns its external result. Every modelled entry keeps `Owns` |
| `User.InitUnreachable` | os/lab6/kernel/syscall.c:187-209 | no number accepted by the wrapper's check selects `sys_init` |
| `User.PastTableAccepted` | os/lab6/kernel/syscall.c:187-209 | when `NR_TASKS` exceeds 17, number 17 passes the wrapper's check and has no table entry |
| `User.Translate` | os/lab6/kernel/syscall.c:226-230 | a negative kernel result `v` becomes `-1` with `errno == -v`, which is positive. A non-negative result is passed through with `errno` untouched. An overrun stays an overrun |
| `User.TranslateRecoversResult` | os/lab6/kernel/syscall.c:226-230 | the kernel's result can be read back from what the wrapper returns: `-errno` after `-1`, the value itself otherwise |
| `User.Frame` | os/lab6/kernel/syscall.c:201-217 | the six arguments land in a0..a5 and the number in a7, each keeping its bits |
| `User.NegativeFdRejected` | os/lab6/kernel/syscall.c:116-117 | a negative descriptor fails the bound check with `-EINVAL`, although `fd < 0` is never true of the unsigned word |
| `User.Libc.Syscall` | os/lab6/kernel/syscall.c:197-231 | a number outside `(0, NR_TASKS)` panics and changes nothing. Otherwise the kernel dispatches the trap frame. A negative result sets `errno` to its magnitude and returns `-1`. A non-negative result is returned as is, with `errno` untouched. A panic or a modelled entry keeps `Owns` |
| `User.OpenReadCloseStat` | os/lab6/kernel/syscall.c:93-147 | through the wrapper, on an empty table: `open` returns 0, `read` returns 0 after one request, `close` returns 0, and then `stat(0)` returns `-1` with `errno == EINVAL`. The table and the references end as they started |

## Left out

- `sys_init`, `sys_fork`, `sys_sigreturn`, `sys_test_fork`, `sys_char`, `sys_block`, `sys_reset`, `sys_sigaction`, `sys_kill` and `sys_exit` are table entries only. Each returns an arbitrary `int64_t` given as a parameter. They either call code that is not part of this model (fork, signal handling, process exit, the device tests) or only print.
- Syscalls.Kernel.Dispatch: promises nothing about the state after an entry listed above, because their effects are not modelled.
- Syscalls.Kernel.Close: for descriptor 4 the source writes NULL one word past the table and releases whatever that word held. The model reports `Overrun(4)` and keeps its own state unchanged.
- Syscalls.Kernel.Stat: the model reports `Overrun(4)` for descriptor 4, where the source reads the word past the table and goes on if it is not NULL. `Syscalls.Kernel.Read` does the same.
- Syscalls.Kernel.Stat: the copy of the VFS stat record into the user buffer at a1 is not modelled, since user memory and the stat record's layout are outside the model.
- User.Libc.Syscall: a number from 17 to `NR_TASKS - 1` passes the bound check at `syscall.c:209`, and the code that indexes the table with it is not part of this model; the model reports `Undefined(number)` for it. A panic is the result `Panic`; the halted kernel is not modelled.
- User.Frame: the inline assembly at `syscall.c:219-220` lists `a0` only as an output (`"=r"(a0)`), so the source text does not guarantee that `arg1` reaches the kernel in `a0`. The model assumes the intended frame, as if `a0` were an input-output operand (`"+r"(a0)`).
- The `ecall` instruction, the register pinning and the trap handler that indexes `syscall_table` are not part of this model. The trap is modelled as running the table entry at a7 on a trap frame built from the arguments.
- VFS internals are not modelled: path resolution, inode reference counting, stat contents and the request queue. The lookup is a function parameter from the path's user address to an optional inode. References are a ghost multiset, and releasing NULL changes nothing. Under `Owns` a bound slot's inode always has a recorded reference, so `close` never releases one that is missing. Read requests are a ghost log.
- `errno.h` and the header that declares `errno` are not part of this model. `EAGAIN` is 11 and `EINVAL` is 22, as on Linux. `errno` is an unbounded integer, so the overflow of `-ret` for the most negative `int64_t` and any narrowing to `int` are not modelled.
- The task structure's header is not part of this model. Pids are taken to be non-negative values below 2^63. `brk` and `end_data` are unsigned 64-bit words.
- `current` is fixed for the kernel object. Switching tasks, the scheduler, fork with copy-on-write, exit with reparenting and signal delivery are outside the shown code and are not modelled.
