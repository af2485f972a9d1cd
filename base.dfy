/** Shared vocabulary of the shim: the wasm32 integer widths, the newlib
    error numbers, the reentrant error context and a small Option type. */
module Base {

  datatype Option<T> = None | Some(value: T)

  /** `u8` */
  type Byte = b: nat | b < 256

  /** `usize` and `isize` on wasm32, the only target the shim is built for. */
  const USIZE_MAX: nat := 0xFFFF_FFFF
  const ISIZE_MAX: nat := 0x7FFF_FFFF

  type Usize = n: nat | n <= USIZE_MAX

  /** newlib's error numbers (sys/errno.h). */
  const EPERM: int := 1
  const ENOENT: int := 2
  const EIO: int := 5
  const ENOMEM: int := 12
  const EINVAL: int := 22
  const ENOTTY: int := 25
  const ESPIPE: int := 29

  /** The C runtime's `struct _reent`: the shim only ever writes its `_errno`. */
  class Reent {
    var errno: int

    constructor ()
      ensures errno == 0
    {
      errno := 0;
    }
  }

  /** `usize::checked_mul`: the product, or None when it does not fit a usize. */
  function CheckedMul(a: Usize, b: Usize): (r: Option<Usize>)
    ensures r.None? <==> a * b > USIZE_MAX
    ensures r.Some? ==> r.value == a * b
  {
    if a * b <= USIZE_MAX then Some(a * b) else None
  }

  /** `a + b` on `usize` as a build without overflow checks computes it:
      the sum modulo 2^32. */
  function WrappingAdd(a: Usize, b: Usize): (r: Usize)
    ensures r == (a + b) % (USIZE_MAX + 1)
  {
    if a + b <= USIZE_MAX then a + b else a + b - (USIZE_MAX + 1)
  }

  function Min(a: nat, b: nat): nat
  {
    if a <= b then a else b
  }
}
