/** The system calls newlib needs that have no meaning in a browser: each
    reports a fixed outcome. A failing call returns -1 (0 for `isatty`)
    and leaves its error number in the reentrant context; the others
    succeed without touching it. */
module Stubs {
  import opened Base

  /** newlib's failure convention: the agreed return value and a specific
      error number, nothing else changed. */
  predicate FailsWith(re: Reent, r: int, failure: int, e: int)
    reads re
  {
    r == failure && re.errno == e && e != 0
  }

  /** `_exit`: a wasm32 module never exits, so the call returns and nothing
      changes. */
  method Exit(code: int)
  {
  }

  /** `__cxa_atexit`: destructors are accepted and never run. */
  method CxaAtexit(destructor: int, arg: int, dso: int) returns (r: int)
    ensures r == 0
  {
    r := 0;
  }

  /** `_read_r`: there is no input stream. */
  method Read(re: Reent, fd: int, len: Usize) returns (r: int)
    modifies re
    ensures FailsWith(re, r, -1, EINVAL)
  {
    re.errno := EINVAL;
    r := -1;
  }

  /** `_lseek_r`: no stream is seekable. */
  method Lseek(re: Reent, fd: int, offset: int, whence: int) returns (r: int)
    modifies re
    ensures FailsWith(re, r, -1, ESPIPE)
  {
    re.errno := ESPIPE;
    r := -1;
  }

  /** `_close_r`: closing always succeeds. */
  method Close(re: Reent, fd: int) returns (r: int)
    ensures r == 0
  {
    r := 0;
  }

  /** `_isatty_r`: no stream is a terminal. */
  method Isatty(re: Reent, fd: int) returns (r: int)
    modifies re
    ensures FailsWith(re, r, 0, ENOTTY)
  {
    re.errno := ENOTTY;
    r := 0;
  }

  /** `_fstat_r`: there is nothing to describe. */
  method Fstat(re: Reent, fd: int, stat: int) returns (r: int)
    modifies re
    ensures FailsWith(re, r, -1, EIO)
  {
    re.errno := EIO;
    r := -1;
  }

  /** `_getpid_r`: a fixed id, 2, so that the program never believes it is
      init (pid 1). */
  method Getpid(re: Reent) returns (r: int)
    ensures r == 2
  {
    r := 2;
  }

  /** `_kill_r`: no signal may be sent. */
  method Kill(re: Reent, pid: int, sig: int) returns (r: int)
    modifies re
    ensures FailsWith(re, r, -1, EPERM)
  {
    re.errno := EPERM;
    r := -1;
  }

  /** `_open_r`: there is no file system, so no path exists. */
  method Open(re: Reent, path: seq<Byte>, flags: int, mode: int) returns (r: int)
    modifies re
    ensures FailsWith(re, r, -1, ENOENT)
  {
    re.errno := ENOENT;
    r := -1;
  }
}
