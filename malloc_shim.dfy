/** newlib's reentrant allocator entry points, implemented on top of Rust's
    global allocator by prefixing every allocation with a header that records
    its total length. A pointer is an address; 0 is the null pointer. */
module MallocShim {
  import opened Base
  import opened Word
  import opened GlobalHeap

  /** `MALLOC_HEADER_SIZE`: the header length, which is also the alignment
      requested for every backing block. */
  const HEADER: nat := 8

  /** The largest request for which `Layout::from_size_align(len + 8, 8)`
      succeeds; anything larger panics at the `unwrap`. */
  const MAX_REQUEST: nat := ISIZE_MAX - (HEADER - 1) - HEADER

  /** A backing block as the shim leaves it: aligned to the header size, at
      least a header long, and its first word holding its total length. */
  predicate Tagged(b: Block)
  {
    b.align == HEADER && |b.bytes| >= HEADER && ReadWord(b.bytes) == |b.bytes|
  }

  /** `ptr` is a payload pointer: one header past a live block whose header
      still records that block's length. */
  predicate IsPayload(blocks: map<nat, Block>, ptr: nat)
  {
    ptr >= HEADER && ptr - HEADER in blocks && Tagged(blocks[ptr - HEADER])
  }

  /** Every live block carries a correct header. */
  predicate AllTagged(blocks: map<nat, Block>)
  {
    forall b | b in blocks :: Tagged(blocks[b])
  }

  /** Replacing one block by a tagged block, or adding one, keeps every
      block tagged. */
  lemma TaggedReplace(before: map<nat, Block>, gone: set<nat>, k: nat, nb: Block)
    requires AllTagged(before) && Tagged(nb)
    ensures AllTagged((before - gone)[k := nb])
  {
  }

  lemma Overwrite(m: map<nat, Block>, k: nat, a: Block, b: Block)
    ensures m[k := a][k := b] == m[k := b]
  {
  }

  /** The bytes handed to the caller: everything after the header. */
  function Payload(b: Block): seq<Byte>
    requires |b.bytes| >= HEADER
  {
    b.bytes[HEADER..]
  }

  function Zeros(n: nat): (z: seq<Byte>)
    ensures |z| == n && forall i | 0 <= i < n :: z[i] == 0
  {
    seq(n, _ => 0)
  }

  /** What `_malloc_r(len)` leaves behind when it returns `p`: either null with
      ENOMEM and no new block, or a payload pointer to a fresh, tagged,
      8-aligned block of `len + 8` bytes, every other block untouched. */
  twostate predicate Allocated(re: Reent, heap: Heap, len: nat, p: nat)
    reads re, heap
  {
    && (p == 0 <==> old(heap.exhausted))
    && (p == 0 ==> re.errno == ENOMEM && heap.blocks == old(heap.blocks))
    && (p != 0 ==>
          && re.errno == old(re.errno)
          && IsPayload(heap.blocks, p)
          && (p - HEADER) % HEADER == 0
          && p - HEADER !in old(heap.blocks)
          && |heap.blocks[p - HEADER].bytes| == len + HEADER
          && heap.blocks == old(heap.blocks)[p - HEADER := heap.blocks[p - HEADER]])
  }

  /** The layout `_malloc_r` asks for, `Layout::from_size_align(len + 8, 8)`,
      with the unchecked sum computed as a build without overflow checks
      computes it. None is the case where `unwrap` panics. */
  function MallocLayout(len: Usize): Option<Layout>
  {
    FromSizeAlign(WrappingAdd(len, HEADER), HEADER)
  }

  /** Requests up to MAX_REQUEST get a layout one header longer; larger ones
      panic, until the sum wraps past `usize::MAX` and yields a layout
      shorter than the header itself. */
  lemma MallocLayoutCases(len: Usize)
    ensures len <= MAX_REQUEST ==> MallocLayout(len) == Some(Layout(len + HEADER, HEADER))
    ensures MAX_REQUEST < len <= USIZE_MAX - HEADER ==> MallocLayout(len) == None
    ensures USIZE_MAX - HEADER < len ==>
      && MallocLayout(len) == Some(Layout(len + HEADER - (USIZE_MAX + 1), HEADER))
      && MallocLayout(len).value.size < HEADER
  {
    assert IsPowerOfTwo(HEADER) by {
      assert IsPowerOfTwo(2) && IsPowerOfTwo(4);
    }
  }

  /** `_malloc_r(0xFFFF_FFFC)` asks the allocator for 4 bytes, too few even
      for the 8-byte header, and would hand out a pointer past the block. */
  lemma MallocLengthWraps()
    ensures MallocLayout(0xFFFF_FFFC) == Some(Layout(4, HEADER))
  {
    MallocLayoutCases(0xFFFF_FFFC);
  }

  /** `(ptr as *mut usize).write(len2)` at the base of a block of `len2`
      bytes: the block becomes tagged and nothing else changes. */
  method WriteHeader(heap: Heap, base: nat, len2: Usize)
    requires heap.Valid() && base in heap.blocks
    requires heap.blocks[base].align == HEADER && |heap.blocks[base].bytes| == len2 >= HEADER
    modifies heap
    ensures heap.Valid() && heap.exhausted == old(heap.exhausted)
    ensures base in heap.blocks && Tagged(heap.blocks[base])
    ensures heap.blocks[base] == Block(HEADER, Splice(old(heap.blocks[base].bytes), 0, EncodeLE(len2, WORD)))
    ensures heap.blocks == old(heap.blocks)[base := heap.blocks[base]]
  {
    ghost var b := heap.blocks[base];
    heap.Store(base, 0, EncodeLE(len2, WORD));
    ReadAfterWrite(b.bytes, len2);
  }

  /** `_malloc_r` */
  method Malloc(re: Reent, heap: Heap, len: Usize) returns (p: nat)
    requires heap.Valid() && len <= MAX_REQUEST
    modifies re, heap
    ensures heap.Valid() && heap.exhausted == old(heap.exhausted)
    ensures Allocated(re, heap, len, p)
    ensures AllTagged(old(heap.blocks)) ==> AllTagged(heap.blocks)
  {
    MallocLayoutCases(len);
    var len2 := WrappingAdd(len, HEADER);
    var base: nat := heap.Alloc(MallocLayout(len).value);
    if base == 0 {
      re.errno := ENOMEM;
      p := base;
    } else {
      ghost var blank := heap.blocks[base];
      WriteHeader(heap, base, len2);
      Overwrite(old(heap.blocks), base, blank, heap.blocks[base]);
      if AllTagged(old(heap.blocks)) {
        TaggedReplace(old(heap.blocks), {}, base, heap.blocks[base]);
      }
      p := base + HEADER;
    }
  }

  /** `_malloc_r` as evidently intended: a request too large to be served
      fails like any other allocation, with null and ENOMEM, instead of
      panicking or wrapping around. */
  method MallocChecked(re: Reent, heap: Heap, len: Usize) returns (p: nat)
    requires heap.Valid()
    modifies re, heap
    ensures heap.Valid() && heap.exhausted == old(heap.exhausted)
    ensures len > MAX_REQUEST ==> p == 0 && re.errno == ENOMEM && heap.blocks == old(heap.blocks)
    ensures len <= MAX_REQUEST ==> Allocated(re, heap, len, p)
    ensures AllTagged(old(heap.blocks)) ==> AllTagged(heap.blocks)
  {
    if len > MAX_REQUEST {
      re.errno := ENOMEM;
      return 0;
    }
    p := Malloc(re, heap, len);
  }

  /** `_free_r` */
  method Free(re: Reent, heap: Heap, ptr: nat)
    requires heap.Valid() && (ptr == 0 || IsPayload(heap.blocks, ptr))
    modifies heap
    ensures heap.Valid() && heap.exhausted == old(heap.exhausted)
    ensures ptr == 0 ==> heap.blocks == old(heap.blocks)
    ensures ptr != 0 ==> heap.blocks == old(heap.blocks) - {ptr - HEADER}
    ensures AllTagged(old(heap.blocks)) ==> AllTagged(heap.blocks)
  {
    if ptr == 0 {
      return;
    }
    var base := ptr - HEADER;
    var len2 := ReadWord(heap.blocks[base].bytes);
    heap.Dealloc(base, FromSizeAlign(len2, HEADER).value);
  }

  /** The block at `base` has been replaced by the block at `q`, with the
      header alignment, `size` bytes, and the old bytes up to the smaller of
      the two sizes; every other block is untouched. */
  predicate Resized(before: map<nat, Block>, base: nat, after: map<nat, Block>, q: nat, size: nat)
    requires base in before
  {
    && q in after
    && after == (before - {base})[q := after[q]]
    && after[q].align == HEADER
    && |after[q].bytes| == size
    && after[q].bytes[..Min(|before[base].bytes|, size)] == before[base].bytes[..Min(|before[base].bytes|, size)]
  }

  /** `_realloc_r`, as written: for a non-null pointer it resizes the backing
      block to `newLen` bytes (not `newLen + 8`), leaves the copied header
      alone, returns the new block's base rather than its payload, and never
      sets errno. `realloc` must not be asked for zero bytes or for a size
      whose layout overflows, so those requests are excluded. */
  method Realloc(re: Reent, heap: Heap, ptr: nat, newLen: Usize) returns (p: nat)
    requires heap.Valid()
    requires ptr == 0 ==> newLen <= MAX_REQUEST
    requires ptr != 0 ==> IsPayload(heap.blocks, ptr) && 0 < newLen && newLen + (HEADER - 1) <= ISIZE_MAX
    modifies re, heap
    ensures heap.Valid() && heap.exhausted == old(heap.exhausted)
    ensures ptr == 0 ==> Allocated(re, heap, newLen, p)
    ensures ptr != 0 ==>
      && re.errno == old(re.errno)
      && (p == 0 <==> old(heap.exhausted))
      && (p == 0 ==> heap.blocks == old(heap.blocks))
      && (p != 0 ==> p % HEADER == 0 && Resized(old(heap.blocks), ptr - HEADER, heap.blocks, p, newLen))
  {
    if ptr == 0 {
      p := Malloc(re, heap, newLen);
      return;
    }
    var base := ptr - HEADER;
    var len2 := ReadWord(heap.blocks[base].bytes);
    p := heap.Realloc(base, FromSizeAlign(len2, HEADER).value, newLen);
  }

  /** `ptr.write_bytes(0, n)` on a payload of `n` bytes: the payload becomes
      zero and the header is left intact. */
  method WriteZeros(heap: Heap, ptr: nat, n: nat)
    requires heap.Valid() && IsPayload(heap.blocks, ptr) && |heap.blocks[ptr - HEADER].bytes| == n + HEADER
    modifies heap
    ensures heap.Valid() && heap.exhausted == old(heap.exhausted)
    ensures IsPayload(heap.blocks, ptr) && Payload(heap.blocks[ptr - HEADER]) == Zeros(n)
    ensures heap.blocks == old(heap.blocks)[ptr - HEADER := heap.blocks[ptr - HEADER]]
    ensures AllTagged(old(heap.blocks)) ==> AllTagged(heap.blocks)
  {
    var base: nat := ptr - HEADER;
    ghost var b := heap.blocks[base];
    heap.Store(base, HEADER, Zeros(n));
    ReadAfterWriteBeyond(b.bytes, HEADER, Zeros(n));
    if AllTagged(old(heap.blocks)) {
      TaggedReplace(old(heap.blocks), {}, base, heap.blocks[base]);
    }
  }

  /** Whether `_calloc_r(nmemb, len)`, as written, stays within defined
      behaviour: after a successful overflow check it calls `write_bytes` on
      whatever `_malloc_r` returned, so the allocator must not fail, and the
      product must be a request `_malloc_r` accepts. */
  predicate CallocDefined(exhausted: bool, nmemb: Usize, len: Usize)
  {
    nmemb * len <= USIZE_MAX ==> nmemb * len <= MAX_REQUEST && !exhausted
  }

  /** What a zero-allocation of `n` bytes leaves behind on success: a fresh
      tagged block whose whole payload is zero. */
  twostate predicate ZeroAllocated(re: Reent, heap: Heap, n: nat, p: nat)
    reads re, heap
  {
    && Allocated(re, heap, n, p)
    && (p != 0 ==> Payload(heap.blocks[p - HEADER]) == Zeros(n))
  }

  /** `_calloc_r`, as written. */
  method Calloc(re: Reent, heap: Heap, nmemb: Usize, len: Usize) returns (p: nat)
    requires heap.Valid() && CallocDefined(heap.exhausted, nmemb, len)
    modifies re, heap
    ensures heap.Valid() && heap.exhausted == old(heap.exhausted)
    ensures nmemb * len > USIZE_MAX ==> p == 0 && re.errno == ENOMEM && heap.blocks == old(heap.blocks)
    ensures nmemb * len <= USIZE_MAX ==> p != 0 && ZeroAllocated(re, heap, nmemb * len, p)
    ensures AllTagged(old(heap.blocks)) ==> AllTagged(heap.blocks)
  {
    var realLen: Usize;
    match CheckedMul(nmemb, len) {
      case None =>
        re.errno := ENOMEM;
        return 0;
      case Some(x) =>
        realLen := x;
    }
    p := Malloc(re, heap, realLen);
    var base: nat := p - HEADER;
    ghost var block := heap.blocks[base];
    WriteZeros(heap, p, realLen);
    Overwrite(old(heap.blocks), base, block, heap.blocks[base]);
  }

  /** A block resized without rewriting its header still records the old
      length: unless the size happens not to change, it is no longer tagged. */
  lemma StaleHeader(b: Block, nb: Block)
    requires Tagged(b) && nb.align == HEADER && |nb.bytes| != |b.bytes|
    requires nb.bytes[..Min(|b.bytes|, |nb.bytes|)] == b.bytes[..Min(|b.bytes|, |nb.bytes|)]
    ensures |nb.bytes| >= WORD ==> ReadWord(nb.bytes) == |b.bytes|
    ensures !Tagged(nb)
  {
    var m := Min(|b.bytes|, |nb.bytes|);
    if |nb.bytes| >= WORD {
      assert nb.bytes[..WORD] == nb.bytes[..m][..WORD] == b.bytes[..m][..WORD] == b.bytes[..WORD];
    }
  }

  /** After `Realloc` (as written) resizes a tagged block to any other size,
      the heap holds a block whose header is stale, so a later `Free` or
      `Realloc` of it would hand the allocator a wrong layout. */
  lemma ReallocBreaksTagging(before: map<nat, Block>, base: nat, after: map<nat, Block>, q: nat, size: nat)
    requires base in before && Tagged(before[base]) && size != |before[base].bytes|
    requires Resized(before, base, after, q, size)
    ensures !AllTagged(after)
  {
    StaleHeader(before[base], after[q]);
  }

  /** `_realloc_r` as evidently intended: resize the backing block to
      `newLen + 8`, rewrite its header, return the new payload pointer, and
      report a failed resize with ENOMEM. */
  method ReallocIntended(re: Reent, heap: Heap, ptr: nat, newLen: Usize) returns (p: nat)
    requires heap.Valid() && newLen <= MAX_REQUEST
    requires ptr != 0 ==> IsPayload(heap.blocks, ptr)
    modifies re, heap
    ensures heap.Valid() && heap.exhausted == old(heap.exhausted)
    ensures ptr == 0 ==> Allocated(re, heap, newLen, p)
    ensures ptr != 0 ==>
      && (p == 0 <==> old(heap.exhausted))
      && (p == 0 ==> re.errno == ENOMEM && heap.blocks == old(heap.blocks))
      && (p != 0 ==>
            && re.errno == old(re.errno)
            && IsPayload(heap.blocks, p)
            && |heap.blocks[p - HEADER].bytes| == newLen + HEADER
            && heap.blocks == (old(heap.blocks) - {ptr - HEADER})[p - HEADER := heap.blocks[p - HEADER]]
            && var m := Min(|old(heap.blocks[ptr - HEADER].bytes)| - HEADER, newLen);
               Payload(heap.blocks[p - HEADER])[..m] == Payload(old(heap.blocks[ptr - HEADER]))[..m])
    ensures AllTagged(old(heap.blocks)) ==> AllTagged(heap.blocks)
  {
    if ptr == 0 {
      p := Malloc(re, heap, newLen);
      return;
    }
    var base: nat := ptr - HEADER;
    ghost var was := heap.blocks[base].bytes;
    var len2 := ReadWord(heap.blocks[base].bytes);
    var newLen2 := newLen + HEADER;
    var q: nat := heap.Realloc(base, FromSizeAlign(len2, HEADER).value, newLen2);
    if q == 0 {
      re.errno := ENOMEM;
      return 0;
    }
    ghost var others := old(heap.blocks) - {base};
    ghost var moved := heap.blocks[q].bytes;
    WriteHeader(heap, q, newLen2);
    ghost var now := heap.blocks[q];
    Overwrite(others, q, Block(HEADER, moved), now);
    Retagged(was, moved, newLen2);
    if AllTagged(old(heap.blocks)) {
      TaggedReplace(old(heap.blocks), {base}, q, now);
    }
    p := q + HEADER;
    assert p - HEADER == q;
  }

  /** Rewriting the header of a resized region records the new length and
      keeps the payload bytes the resize carried over. */
  lemma Retagged(was: seq<Byte>, moved: seq<Byte>, n: Usize)
    requires |was| >= HEADER && |moved| == n >= HEADER
    requires moved[..Min(|was|, n)] == was[..Min(|was|, n)]
    ensures var now := Splice(moved, 0, EncodeLE(n, WORD));
      && ReadWord(now) == n
      && var m := Min(|was| - HEADER, n - HEADER);
         now[HEADER..][..m] == was[HEADER..][..m]
  {
    var now := Splice(moved, 0, EncodeLE(n, WORD));
    ReadAfterWrite(moved, n);
    var k := Min(|was|, n);
    var m := k - HEADER;
    assert now[WORD..] == moved[WORD..];
    assert now[HEADER..][..m] == now[HEADER..k];
    assert now[HEADER..k] == moved[HEADER..k];
    assert moved[HEADER..k] == moved[..k][HEADER..];
    assert was[HEADER..][..m] == was[..k][HEADER..];
  }

  /** `_calloc_r` as evidently intended: a null result from `_malloc_r` is
      passed back (with the ENOMEM it set) instead of being written through. */
  method CallocIntended(re: Reent, heap: Heap, nmemb: Usize, len: Usize) returns (p: nat)
    requires heap.Valid()
    requires nmemb * len <= USIZE_MAX ==> nmemb * len <= MAX_REQUEST
    modifies re, heap
    ensures heap.Valid() && heap.exhausted == old(heap.exhausted)
    ensures nmemb * len > USIZE_MAX ==> p == 0 && re.errno == ENOMEM && heap.blocks == old(heap.blocks)
    ensures nmemb * len <= USIZE_MAX ==> ZeroAllocated(re, heap, nmemb * len, p)
    ensures AllTagged(old(heap.blocks)) ==> AllTagged(heap.blocks)
  {
    var realLen: Usize;
    match CheckedMul(nmemb, len) {
      case None =>
        re.errno := ENOMEM;
        return 0;
      case Some(x) =>
        realLen := x;
    }
    p := Malloc(re, heap, realLen);
    if p == 0 {
      return;
    }
    var base: nat := p - HEADER;
    ghost var block := heap.blocks[base];
    WriteZeros(heap, p, realLen);
    Overwrite(old(heap.blocks), base, block, heap.blocks[base]);
  }

  /** As written, `_calloc_r(3, 4)` on an allocator that cannot serve the
      request writes 12 zero bytes through the null pointer. */
  lemma CallocWritesThroughNull()
    ensures CheckedMul(3, 4) == Some(12) && !CallocDefined(true, 3, 4)
  {
  }

  /** The 12-byte request `_calloc_r(3, 4)` passes on, made while the
      allocator fails: `_malloc_r` answers null, which is no payload, and
      this null is what the as-written `_calloc_r` then zeroes. */
  method MallocWhenExhausted(re: Reent, heap: Heap) returns (p: nat)
    requires heap.Valid() && heap.exhausted
    modifies re, heap
    ensures p == 0 && !IsPayload(heap.blocks, p) && re.errno == ENOMEM
  {
    p := Malloc(re, heap, 12);
  }

  /** Freeing what `_malloc_r` just returned puts the heap back exactly as it
      was, whether or not the allocation succeeded. */
  method MallocThenFree(re: Reent, heap: Heap, len: Usize)
    requires heap.Valid() && len <= MAX_REQUEST
    modifies re, heap
    ensures heap.Valid() && heap.blocks == old(heap.blocks)
  {
    var p := Malloc(re, heap, len);
    Free(re, heap, p);
  }

  /** `_calloc_r(3, 4)` hands out 12 zero bytes. */
  method CallocThreeByFour(re: Reent, heap: Heap) returns (p: nat)
    requires heap.Valid() && !heap.exhausted
    modifies re, heap
    ensures p != 0 && IsPayload(heap.blocks, p)
    ensures Payload(heap.blocks[p - HEADER]) == [0, 0, 0, 0, 0, 0, 0, 0, 0, 0, 0, 0]
  {
    p := Calloc(re, heap, 3, 4);
  }

  /** `_realloc_r(malloc(4), 16)`, as written, returns the address of the
      resized block itself, whose first word still records the 12 bytes of
      the old block although it now has 16. */
  method MallocThenRealloc(re: Reent, heap: Heap) returns (q: nat)
    requires heap.Valid() && !heap.exhausted
    modifies re, heap
    ensures q != 0 && q in heap.blocks
    ensures |heap.blocks[q].bytes| == 16 && ReadWord(heap.blocks[q].bytes) == 12
  {
    var p := Malloc(re, heap, 4);
    ghost var before := heap.blocks;
    q := Realloc(re, heap, p, 16);
    StaleHeader(before[p - HEADER], heap.blocks[q]);
  }
}
