# wu-clib-rs shim, modelled in Dafny

wu-clib-rs lets C code compiled against newlib run inside a Rust
WebAssembly module. It supplies the few reentrant system entry points
newlib calls (`_malloc_r`, `_write_r`, `_read_r`, ...), all in
`src/lib.rs`. This project models that file:

- **The heap shim** (`malloc_shim.dfy`). Every C allocation is a block
  from Rust's global allocator with an 8-byte header in front. The first
  word of the header records the block's total length. `_free_r` reads
  that word back to rebuild the layout for `dealloc`.
- **Rust's global allocator** (`global_heap.dfy`). It is a `Heap` class
  whose `blocks` map, from base address to alignment and bytes, is what
  the shim changes. Whether an allocation fails is up to the environment,
  through the `exhausted` flag.
- **The machine word** (`word.dfy`). A `usize` on wasm32 is four bytes,
  least significant first, so a stored header reads back as itself.
- **Line-buffered output** (`stdio_shim.dfy`). `_write_r` adds the bytes
  to the stdout or stderr buffer. Each newline hands the buffered line to
  the log sink: info level for stdout, warn level for stderr. The sink is
  modelled as an append-only sequence of records.
- **The fixed-outcome stubs** (`stubs.dfy`): `_exit`, `__cxa_atexit`,
  `_read_r`, `_lseek_r`, `_close_r`, `_isatty_r`, `_fstat_r`,
  `_getpid_r`, `_kill_r` and `_open_r`.
- **Shared vocabulary** (`base.dfy`): the wasm32 integer widths, newlib's
  error numbers, the `_reent` error context, `checked_mul`, and the
  wrapping `+` of a build without overflow checks.

The shim's entry points are methods of module `MallocShim` that take and
modify the `Heap`. They state the new heap exactly. All of them except the
as-written `_realloc_r` also keep the invariant that every live block
carries a header equal to its length (`AllTagged`). `_write_r` is a method with the source's loop. It is proved
against `Drain`, a function that splits the buffered bytes plus the input
into completed lines and a remainder. Lemmas show that `Drain` loses
nothing, completes one line per newline, is the only possible such split,
and does not depend on how the output is cut into writes.

## Model

| member | source | states |
|---|---|---|
| Base.CheckedMul | src/lib.rs:73-79 | `nmemb.checked_mul(len)`: None exactly when the product exceeds `usize::MAX`, otherwise the product |
| Base.WrappingAdd | src/lib.rs:41 | the unchecked `len + MALLOC_HEADER_SIZE` of a build without overflow checks is the sum modulo 2^32 |
| Word.DecodeEncode | src/lib.rs:47 | a length written as a little-endian word decodes back to itself |
| Word.EncodeDecode | src/lib.rs:58 | reading a word and writing it back reproduces the same four bytes |
| Word.ReadAfterWrite | src/lib.rs:47 | after `(ptr as *mut usize).write(len2)`, `.read()` at that address gives `len2` |
| Word.ReadAfterWriteBeyond | src/lib.rs:81 | writing past the first word, as the zero-fill after the header does, leaves the stored length unchanged |
| GlobalHeap.FromSizeAlign | src/lib.rs:42 | `Layout::from_size_align` succeeds exactly when the alignment is a power of two and the rounded size fits `isize` |
| GlobalHeap.Heap.Alloc | src/lib.rs:42 | `alloc` gives null exactly when the allocator is exhausted; otherwise a fresh aligned block of the layout's size, with every other block untouched |
| GlobalHeap.Heap.Dealloc | src/lib.rs:59 | `dealloc` with the block's own layout removes exactly that block |
| GlobalHeap.Heap.Realloc | src/lib.rs:69 | `realloc` gives null (nothing changed) exactly when exhausted; otherwise it replaces the block by one of the new size and alignment that keeps the old bytes up to the smaller size |
| GlobalHeap.Heap.Store | src/lib.rs:47 | a raw write replaces exactly the addressed bytes of one block |
| MallocShim.MallocLayoutCases | src/lib.rs:41-42 | requests up to `isize::MAX - 15` get an 8-aligned layout one header longer; larger ones make `unwrap` panic; from `usize::MAX - 7` up, the sum wraps to a layout shorter than the header |
| MallocShim.MallocLengthWraps | src/lib.rs:41-42 | `_malloc_r(0xFFFF_FFFC)` asks for a 4-byte block |
| MallocShim.Malloc | src/lib.rs:37-50 | null with ENOMEM and no new block exactly when the allocator fails; otherwise a payload pointer 8 past a fresh 8-aligned block of `len + 8` bytes whose header records that length, errno untouched, other blocks unchanged, every block still tagged |
| MallocShim.WriteHeader | src/lib.rs:47 | writing the length word at a block's base tags that block, with the length in its first four bytes, and changes no other block |
| MallocShim.MallocChecked | src/lib.rs:37-50 | corrected `_malloc_r`: a request too large for a layout fails with null and ENOMEM and changes no block; any other request behaves as `Malloc` |
| MallocShim.Free | src/lib.rs:51-60 | freeing null changes nothing; freeing a payload pointer removes exactly the block one header before it, using the length in its header; tagging is kept |
| MallocShim.Realloc | src/lib.rs:61-70 | as written: null reallocates through `_malloc_r`; otherwise the block becomes `new_len` bytes (not `new_len + 8`) and keeps the old bytes up to the smaller size; the block's own base is returned; null exactly when the allocator fails, errno never set |
| MallocShim.StaleHeader | src/lib.rs:67-69 | a resized block whose header was not rewritten still records the old length, so it is no longer tagged |
| MallocShim.ReallocBreaksTagging | src/lib.rs:61-70 | after the as-written resize to any other size, some live block's header is wrong |
| MallocShim.MallocThenRealloc | src/lib.rs:61-70 | `_realloc_r(malloc(4), 16)` returns the base of a 16-byte block whose header still says 12 |
| MallocShim.ReallocIntended | src/lib.rs:61-70 | corrected `_realloc_r`: resizes to `new_len + 8`, rewrites the header and returns the new payload pointer, whose first `min(old, new)` bytes match the old payload; a failure returns null with ENOMEM and changes nothing; tagging is kept |
| MallocShim.Retagged | src/lib.rs:67-69 | rewriting the header of a resized region records the new length and keeps the payload bytes carried over |
| MallocShim.WriteZeros | src/lib.rs:81 | `write_bytes(0, real_len)` on a payload zeroes exactly the payload and leaves the header intact |
| MallocShim.Calloc | src/lib.rs:71-83 | as written: on product overflow it returns null with ENOMEM without allocating; otherwise it returns a fresh tagged block whose whole payload of `nmemb * len` bytes is zero |
| MallocShim.CallocWritesThroughNull | src/lib.rs:80-81 | `_calloc_r(3, 4)` with a failing allocator passes the overflow check and then writes 12 bytes through null |
| MallocShim.MallocWhenExhausted | src/lib.rs:37-50 | when the allocator fails, `_malloc_r(12)` returns null with ENOMEM, and null is no payload, so it is what the as-written `_calloc_r` writes through |
| MallocShim.CallocIntended | src/lib.rs:71-83 | corrected `_calloc_r`: a null from `_malloc_r` is returned as is, with its ENOMEM; otherwise as `Calloc` |
| MallocShim.CallocThreeByFour | src/lib.rs:71-83 | `_calloc_r(3, 4)` hands out 12 zero bytes |
| MallocShim.MallocThenFree | src/lib.rs:37-60 | freeing what `_malloc_r` returned restores the heap exactly, whether or not the allocation succeeded |
| StdioShim.FirstNewline | src/lib.rs:127 | the `position` of the first `b'\n'`: None exactly when there is no newline; otherwise the index of a newline with none before it |
| StdioShim.FindNewline | src/lib.rs:127 | the scan finds the same index as `FirstNewline` |
| StdioShim.DrainJoined | src/lib.rs:126-143 | the completed lines, each followed by a newline, and then the new buffer are exactly the old buffer followed by the input |
| StdioShim.DrainNoNewlines | src/lib.rs:126-143 | no completed line and no buffer left behind holds a newline |
| StdioShim.DrainCount | src/lib.rs:126-143 | one line is completed per newline in the input |
| StdioShim.JoinedUnique | src/lib.rs:126-143 | newline-free lines plus a newline-free remainder reassemble a byte string in only one way |
| StdioShim.DrainIsTheSplit | src/lib.rs:126-143 | any newline-free lines and remainder that reassemble the old buffer plus the input are exactly what the loop produces |
| StdioShim.DrainConcat | src/lib.rs:108-145 | writing `s1` and then `s2` completes the same lines and leaves the same buffer as writing `s1 + s2` at once |
| StdioShim.Records | src/lib.rs:134-138 | one record per completed line, in order, at the stream's level |
| StdioShim.Stdio.Write | src/lib.rs:111-145 | stream 1 or 2: returns `len`, errno untouched, the selected buffer becomes the remainder of the split, the other buffer is unchanged, and one record per completed line is appended; any other stream: -1, EIO, nothing changed |
| StdioShim.StdoutInTwoWrites | src/lib.rs:111-145 | "abc" to stdout stays buffered and logs nothing; a following "def\n" logs the one info record "abcdef" and empties the buffer |
| StdioShim.StderrTwoLines | src/lib.rs:111-145 | "line1\nline2\n" to stderr logs the warn records "line1" then "line2" and empties the buffer |
| StdioShim.WriteToStreamThree | src/lib.rs:118-125 | writing to stream 3 fails with -1 and EIO and changes no buffer and no log |
| Stubs.CxaAtexit | src/lib.rs:90-94 | `__cxa_atexit` always reports success (0) |
| Stubs.Read | src/lib.rs:95-100 | `_read_r` fails with -1 and EINVAL |
| Stubs.Lseek | src/lib.rs:101-106 | `_lseek_r` fails with -1 and ESPIPE |
| Stubs.Close | src/lib.rs:146-150 | `_close_r` succeeds with 0 and leaves errno alone |
| Stubs.Isatty | src/lib.rs:151-156 | `_isatty_r` answers 0 (not a terminal) with ENOTTY |
| Stubs.Fstat | src/lib.rs:157-162 | `_fstat_r` fails with -1 and EIO |
| Stubs.Getpid | src/lib.rs:163-168 | `_getpid_r` answers 2 |
| Stubs.Kill | src/lib.rs:169-174 | `_kill_r` fails with -1 and EPERM |
| Stubs.Open | src/lib.rs:175-180 | `_open_r` fails with -1 and ENOENT |

## Left out

- Stubs.Exit: `_exit` only writes a debug log line and returns, so the model has nothing to state about it.
- The `log::debug!` lines of every stub and of `_write_r` are not modelled. The log sink holds only the info and warn records `_write_r` emits.
- `String::from_utf8_lossy` is not modelled: a record carries the line's raw bytes. The model has no UTF-8 decoding.
- The `JsLog` logger and `js_console_log` (src/lib.rs:14-32) are not modelled. They format a record for the browser console. The model stops at the records handed to the `log` facade and assumes every level is enabled.
- The generated bindings (`bindings.rs`) and the `imgui-demo` directory are not part of this model. Of `struct _reent`, only its `_errno` field is modelled.
- Malloc: a request above `isize::MAX - 15` is a precondition, not an outcome. In a build with overflow checks, `unwrap` or the checked `+` panics on it and the wasm module aborts. `MallocLayoutCases` says exactly which requests panic or wrap. `MallocChecked` gives the recoverable behaviour.
- Realloc: a zero `new_len`, or one whose layout would overflow `isize`, is a precondition. Rust's `realloc` has undefined behaviour there.
- Calloc: it requires that the allocator is not exhausted and that the product is a request `_malloc_r` accepts (`CallocDefined`), because otherwise the code as written writes through null. See Findings.
- Free, Realloc: a non-null pointer must be one `_malloc_r` handed out and not yet freed. This is the C caller's contract, which the shim cannot check. The `IsPayload` precondition also demands that the header still records the block's length. That excludes every pointer the as-written `_realloc_r` returns, although C callers do free and resize such pointers; what the source then does is shown by `ReallocBreaksTagging`.
- GlobalHeap.Heap: the model allocator serves alignments up to 8 only, because the shim never asks for more. Addresses are unbounded naturals, so the 4 GiB address space is not modelled. Whether an allocation fails is set by the `exhausted` flag rather than by free memory.
- GlobalHeap.Heap.Alloc: the contents of a fresh block are left unspecified, as Rust's `alloc` leaves them.
- Stdio.Write: the raw pointer and length are a byte sequence of at most `isize::MAX` bytes, as `slice::from_raw_parts` demands. The loop works on a local copy of the selected buffer and stores it back at the end. It does not hold a `&mut` to the static, and the effect is the same because nothing else runs in between.
- Stubs ignore their file descriptors, paths and buffers, as the source does. `_fstat_r` writes nothing into its buffer.
- Concurrency: none. The shim runs single-threaded in wasm, and `static mut` is modelled as fields of one `Stdio` object.

## Findings

| source | as written | input that shows it | evidently intended | confidence | as-written member | corrected member |
|---|---|---|---|---|---|---|
| src/lib.rs:61-70 | `_realloc_r` resizes the backing block to `new_len`, not `new_len + 8`. It keeps the old header and returns the block's base, not its payload. A failure sets no errno. | `_realloc_r(re, _malloc_r(re, 4), 16)`: the result is the base of a 16-byte block whose header still says 12, and the caller's payload starts at the header | resize to `new_len + 8`, rewrite the header, return base + 8, set ENOMEM on failure | not executed | MallocShim.ReallocBreaksTagging | MallocShim.ReallocIntended |
| src/lib.rs:80-81 | `_calloc_r` calls `write_bytes` on whatever `_malloc_r` returned, including null | `_calloc_r(re, 3, 4)` when the allocator fails: the product check passes and 12 zero bytes are written to address 0 | return the null (with the ENOMEM `_malloc_r` set) without writing | not executed | MallocShim.CallocWritesThroughNull | MallocShim.CallocIntended |
| src/lib.rs:41-42 | `len + MALLOC_HEADER_SIZE` is unchecked. Without overflow checks it wraps, and the layout is then valid but tiny. | `_malloc_r(re, 0xFFFF_FFFC)` on wasm32: a 4-byte block is requested for an 8-byte header, and the pointer handed out lies past its end | fail with null and ENOMEM for a request that cannot be served | not executed | MallocShim.MallocLengthWraps | MallocShim.MallocChecked |
