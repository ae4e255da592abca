/** Machine words, optional handles and error numbers shared by the kernel and the user side. */
module Base {

  /** An optional value; `None` plays the role of a NULL pointer. */
  datatype Option<+T> = None | Some(value: T)

  const TWO_63: int := 0x8000_0000_0000_0000
  const TWO_64: int := 0x1_0000_0000_0000_0000

  /** `uint64_t`: a saved register or an unsigned kernel word. */
  type u64 = x: int | 0 <= x < TWO_64

  /** `int64_t`: a syscall number, argument or result. */
  type i64 = x: int | -TWO_63 <= x < TWO_63

  /** Error numbers a handler negates into its result. */
  const EAGAIN: int := 11
  const EINVAL: int := 22

  /** An opaque VFS inode handle (`struct vfs_inode *` that is not NULL). */
  datatype Inode = Inode(id: nat)

  /** The unsigned reading of a signed word's bits, as when a handler reads `tf->gpr.aN`. */
  function Unsigned(x: i64): (r: u64)
    ensures Signed(r) == x
    ensures x >= 0 ==> r == x
    ensures x < 0 ==> r >= TWO_63
  {
    if x < 0 then x + TWO_64 else x
  }

  /** The signed reading of an unsigned word's bits, as when a `uint64_t` is returned as `int64_t`. */
  function Signed(x: u64): (r: i64)
    ensures r < 0 <==> x >= TWO_63
    ensures r >= 0 ==> r == x
    ensures r % TWO_64 == x
  {
    if x < TWO_63 then x else x - TWO_64
  }
}
