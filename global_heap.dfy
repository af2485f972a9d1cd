/** Rust's global allocator (`std::alloc::{alloc, dealloc, realloc}`) and the
    memory it hands out, as far as the shim relies on it. Each live block is
    keyed by its base address and keeps the alignment it was requested with
    and its bytes; the size of its layout is the number of bytes. Whether the
    allocator can satisfy a request is decided by the environment through the
    `exhausted` flag. */
module GlobalHeap {
  import opened Base
  import Word

  /** `std::alloc::Layout`. */
  datatype Layout = Layout(size: nat, align: nat)

  predicate IsPowerOfTwo(n: nat)
    decreases n
  {
    n == 1 || (n >= 2 && n % 2 == 0 && IsPowerOfTwo(n / 2))
  }

  /** `Layout::from_size_align`: fails unless the alignment is a power of two
      and the size, rounded up to it, does not overflow `isize`. */
  function FromSizeAlign(size: nat, align: nat): (r: Option<Layout>)
    ensures r.Some? <==> IsPowerOfTwo(align) && size + (align - 1) <= ISIZE_MAX
    ensures r.Some? ==> r.value.size == size && r.value.align == align
  {
    if IsPowerOfTwo(align) && size + (align - 1) <= ISIZE_MAX then Some(Layout(size, align)) else None
  }

  predicate ValidLayout(layout: Layout)
  {
    FromSizeAlign(layout.size, layout.align) == Some(layout)
  }

  /** The largest alignment the model allocator serves; the shim only ever
      asks for 8. */
  const MAX_ALIGN: nat := 8

  /** Alignments the model allocator serves: 1, 2, 4 or 8. */
  lemma SmallPowerOfTwo(align: nat)
    requires IsPowerOfTwo(align) && align <= MAX_ALIGN
    ensures align == 1 || align == 2 || align == 4 || align == 8
  {
  }

  /** A multiple of 8 is aligned to every alignment the model serves. */
  lemma EightfoldAligned(k: nat, align: nat)
    requires align == 1 || align == 2 || align == 4 || align == 8
    ensures (MAX_ALIGN * k) % align == 0
  {
    var n := MAX_ALIGN * k;
    assert n == 8 * k;
    if align == 2 {
      assert n % 2 == 0;
    } else if align == 4 {
      assert n % 4 == 0;
    } else if align == 8 {
      assert n % 8 == 0;
    }
  }

  datatype Block = Block(align: nat, bytes: seq<Byte>)

  function LayoutOf(b: Block): Layout
  {
    Layout(|b.bytes|, b.align)
  }

  class Heap {
    /** Live blocks by base address. */
    var blocks: map<nat, Block>
    /** Set by the environment: every request fails while it holds. */
    var exhausted: bool
    /** First address not yet handed out (the allocator's own bookkeeping). */
    var top: nat

    /** Blocks sit at non-null, aligned addresses and never overlap. */
    ghost predicate Valid()
      reads this
    {
      && top >= MAX_ALIGN
      && (forall b | b in blocks ::
            0 < b && |blocks[b].bytes| > 0 && ValidLayout(LayoutOf(blocks[b]))
            && blocks[b].align <= MAX_ALIGN && b % blocks[b].align == 0
            && b + |blocks[b].bytes| <= top)
      && (forall b1, b2 | b1 in blocks && b2 in blocks && b1 < b2 :: b1 + |blocks[b1].bytes| <= b2)
    }

    constructor ()
      ensures Valid() && blocks == map[] && !exhausted
    {
      blocks := map[];
      exhausted := false;
      top := MAX_ALIGN;
    }

    /** An aligned address no live block reaches. */
    method FreshBase(align: nat) returns (base: nat)
      requires Valid() && IsPowerOfTwo(align) && align <= MAX_ALIGN
      ensures 0 < base && base % align == 0 && top <= base
    {
      var k := (top + MAX_ALIGN - 1) / MAX_ALIGN;
      base := MAX_ALIGN * k;
      SmallPowerOfTwo(align);
      EightfoldAligned(k, align);
    }

    /** `std::alloc::alloc`: null (0) when exhausted, otherwise a fresh block of
        exactly `layout.size` bytes whose contents are unspecified. */
    method Alloc(layout: Layout) returns (p: nat)
      requires Valid() && ValidLayout(layout) && layout.size > 0 && layout.align <= MAX_ALIGN
      modifies this
      ensures Valid() && exhausted == old(exhausted)
      ensures p == 0 <==> old(exhausted)
      ensures p == 0 ==> blocks == old(blocks)
      ensures p != 0 ==>
        && p !in old(blocks) && p % layout.align == 0
        && p in blocks && LayoutOf(blocks[p]) == layout
        && blocks == old(blocks)[p := blocks[p]]
    {
      if exhausted {
        return 0;
      }
      p := FreshBase(layout.align);
      blocks := blocks[p := Block(layout.align, seq(layout.size, _ => 0))];
      top := p + layout.size;
    }

    /** `std::alloc::dealloc`: the layout must be the one the block was
        allocated with. */
    method Dealloc(p: nat, layout: Layout)
      requires Valid() && p in blocks && layout == LayoutOf(blocks[p])
      modifies this
      ensures Valid() && exhausted == old(exhausted)
      ensures blocks == old(blocks) - {p}
    {
      blocks := blocks - {p};
    }

    /** `std::alloc::realloc`: on success the block at `p` is replaced by one
        of `newSize` bytes, with the same alignment, that starts with the old
        contents up to the smaller size; on failure (0) nothing changes. */
    method Realloc(p: nat, layout: Layout, newSize: nat) returns (q: nat)
      requires Valid() && p in blocks && layout == LayoutOf(blocks[p])
      requires 0 < newSize && ValidLayout(Layout(newSize, layout.align))
      modifies this
      ensures Valid() && exhausted == old(exhausted)
      ensures q == 0 <==> old(exhausted)
      ensures q == 0 ==> blocks == old(blocks)
      ensures q != 0 ==>
        && q % layout.align == 0 && q in blocks
        && blocks == (old(blocks) - {p})[q := blocks[q]]
        && LayoutOf(blocks[q]) == Layout(newSize, layout.align)
        && blocks[q].bytes[..Min(layout.size, newSize)] == old(blocks[p].bytes)[..Min(layout.size, newSize)]
    {
      if exhausted {
        return 0;
      }
      var old_bytes := blocks[p].bytes;
      var keep := Min(layout.size, newSize);
      q := FreshBase(layout.align);
      var moved := old_bytes[..keep] + seq(newSize - keep, _ => 0);
      blocks := (blocks - {p})[q := Block(layout.align, moved)];
      top := q + newSize;
      assert moved[..keep] == old_bytes[..keep];
    }

    /** Stores `data` at address `base + offset`, inside the block at `base`
        (`ptr::write`, `ptr::write_bytes`). */
    method Store(base: nat, offset: nat, data: seq<Byte>)
      requires Valid() && base in blocks && offset + |data| <= |blocks[base].bytes|
      modifies this
      ensures Valid() && exhausted == old(exhausted)
      ensures blocks == old(blocks)[base := Block(old(blocks[base].align), Word.Splice(old(blocks[base].bytes), offset, data))]
    {
      var b := blocks[base];
      blocks := blocks[base := Block(b.align, Word.Splice(b.bytes, offset, data))];
    }
  }

}
