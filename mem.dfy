/**
 * The slab and pool allocators of src/mem/mem.c, over abstract memory: a
 * pointer into the slabs is a slab index and a byte offset from the slab's
 * start, where the slab's first word holds the link to the next slab. The
 * slab allocator bumps a cursor through the last slab of its list and
 * opens a new slab when a request does not fit; the pool allocator hands
 * out fixed-size elements from blocks it takes from a slab allocator, and
 * keeps a free list of returned elements.
 *
 * malloc is a parameter: `granted` says whether the malloc a call makes
 * succeeds. Memory contents (the bytes memcpy copies) are not modelled;
 * which memory is handed out is, through the ghost list of blocks.
 */
module Mem {
  import opened Common

  /** sizeof(void *): the link word at the start of each slab, and the smallest pool element. */
  const PTR_SIZE: nat := 8

  /** A pointer: NULL, an offset into a slab, or storage of a direct malloc of `size` bytes. */
  datatype Ptr = Null | Slab(slab: nat, off: nat) | Direct(size: nat)

  /** `size` bytes handed out at `at`. */
  datatype Block = Block(at: Ptr, size: nat)

  /** Two blocks share no byte. */
  predicate Disjoint(a: Block, b: Block)
  {
    || a.size == 0 || b.size == 0
    || !a.at.Slab? || !b.at.Slab? || a.at.slab != b.at.slab
    || a.at.off + a.size <= b.at.off || b.at.off + b.size <= a.at.off
  }

  /**
   * The bytes malloc gives slab `i`: init_slab_alloc asks for slab_size,
   * add_slab for slab_size plus the link word.
   */
  function Capacity(slabSize: nat, i: nat): nat
  {
    if i == 0 then slabSize else slabSize + PTR_SIZE
  }

  /** The numbers 0 .. n-1 in order. */
  function Indices(n: nat): (r: seq<nat>)
    ensures |r| == n && forall i :: 0 <= i < n ==> r[i] == i
  {
    if n == 0 then [] else Indices(n - 1) + [n - 1]
  }

  // ---------------------------------------------------------------------
  // The slab allocator

  /**
   * The fast path of mem_slab_realloc as written: `ptr` lies in the current
   * slab above its base and at most at `cur`, and the new size is below the
   * largest slab allocation.
   */
  predicate FastPathAsWritten(slabs: nat, cur: nat, slabSize: nat, ptr: Ptr, newSize: nat)
  {
    ptr.Slab? && ptr.slab + 1 == slabs && 0 < ptr.off <= cur && newSize + PTR_SIZE < slabSize
  }

  /**
   * The fast path as intended: `ptr` is the block handed out last, so
   * nothing lies between its end and `cur`, and its new end still lies in
   * the slab.
   */
  predicate InPlace(slabs: nat, cur: nat, slabSize: nat, ptr: Ptr, prevSize: nat, newSize: nat)
  {
    ptr.Slab? && ptr.slab + 1 == slabs && ptr.off + prevSize == cur && ptr.off + newSize <= slabSize
  }

  /**
   * Two blocks of 8 bytes at offsets 8 and 16 of the only slab, and the
   * first one grown to 16 bytes: the fast path as written takes it, and the
   * grown block covers the second one.
   */
  lemma ReallocOverlaps()
    ensures FastPathAsWritten(1, 24, 64, Slab(0, 8), 16)
    ensures Disjoint(Block(Slab(0, 8), 8), Block(Slab(0, 16), 8))
    ensures !Disjoint(Block(Slab(0, 8), 16), Block(Slab(0, 16), 8))
    ensures !InPlace(1, 24, 64, Slab(0, 8), 8, 16)
  {
  }

  class SlabAlloc {
    /** slab_size */
    var slabSize: nat
    /** The slabs of the list from head; the last is the current one (a->next). None after a failed init. */
    var slabs: nat
    /** The offset of a->cur in the current slab. */
    var cur: nat
    /** The blocks handed out from the slabs, in order. */
    ghost var blocks: seq<Block>

    /** A block lies in a slab of the list, past the link word; a non-empty block of the current slab lies below `cur`. */
    ghost predicate InSlabs(b: Block)
      reads this
    {
      && b.at.Slab? && b.at.slab < slabs && PTR_SIZE <= b.at.off
      && b.at.off + b.size <= Capacity(slabSize, b.at.slab)
      && (b.at.slab + 1 == slabs && b.size > 0 ==> b.at.off + b.size <= cur)
    }

    /** The cursor stays in the current slab, and the blocks handed out lie in the slabs and never overlap. */
    ghost predicate Valid()
      reads this
    {
      && PTR_SIZE <= slabSize && 1 <= slabs && PTR_SIZE <= cur <= slabSize
      && (forall k :: 0 <= k < |blocks| ==> InSlabs(blocks[k]))
      && (forall i, j :: 0 <= i < j < |blocks| ==> Disjoint(blocks[i], blocks[j]))
    }

    /**
     * init_slab_alloc: one slab, head and current, its cursor just past its
     * link word; when malloc fails there is no slab (the result 1).
     */
    constructor (size: nat, granted: bool)
      requires PTR_SIZE <= size
      ensures slabSize == size && blocks == []
      ensures granted ==> Valid() && slabs == 1 && cur == PTR_SIZE
      ensures !granted ==> slabs == 0
    {
      slabSize := size;
      blocks := [];
      if granted {
        slabs := 1;
        cur := PTR_SIZE;
      } else {
        slabs := 0;
        cur := 0;
      }
    }

    /** add_slab: link a new slab at the tail and move the cursor just past its link word; on malloc failure, nothing. */
    method AddSlab(granted: bool) returns (failed: bool)
      requires Valid()
      modifies this
      ensures Valid() && slabSize == old(slabSize) && blocks == old(blocks)
      ensures failed == !granted
      ensures granted ==> slabs == old(slabs) + 1 && cur == PTR_SIZE
      ensures !granted ==> slabs == old(slabs) && cur == old(cur)
    {
      if !granted {
        return true;
      }
      slabs := slabs + 1;
      cur := PTR_SIZE;
      return false;
    }

    /**
     * mem_slab_alloc: a request larger than a slab can hold goes to malloc
     * and leaves the slabs alone; a request that fits the current slab is
     * the old cursor, which moves up by `size`; otherwise a new slab is
     * opened and the request retried there. The block is new: it overlaps
     * nothing handed out before.
     */
    method Alloc(size: nat, granted: bool) returns (p: Ptr)
      requires Valid()
      modifies this
      ensures Valid() && slabSize == old(slabSize)
      ensures size + PTR_SIZE > slabSize ==>
        && p == (if granted then Direct(size) else Null)
        && slabs == old(slabs) && cur == old(cur) && blocks == old(blocks)
      ensures size + PTR_SIZE <= slabSize && size <= slabSize - old(cur) ==>
        && p == Slab(old(slabs) - 1, old(cur))
        && slabs == old(slabs) && cur == old(cur) + size && blocks == old(blocks) + [Block(p, size)]
      ensures size + PTR_SIZE <= slabSize && size > slabSize - old(cur) && granted ==>
        && p == Slab(old(slabs), PTR_SIZE)
        && slabs == old(slabs) + 1 && cur == PTR_SIZE + size && blocks == old(blocks) + [Block(p, size)]
      ensures size + PTR_SIZE <= slabSize && size > slabSize - old(cur) && !granted ==>
        p == Null && slabs == old(slabs) && cur == old(cur) && blocks == old(blocks)
      ensures p.Slab? ==> forall k :: 0 <= k < |old(blocks)| ==> Disjoint(old(blocks)[k], Block(p, size))
      decreases if size <= slabSize - cur then 0 else 1
    {
      if size + PTR_SIZE > slabSize {
        return if granted then Direct(size) else Null;
      }
      if size > slabSize - cur {
        var failed := AddSlab(granted);
        if failed {
          return Null;
        }
        p := Alloc(size, granted);
        return;
      }
      p := Slab(slabs - 1, cur);
      blocks := blocks + [Block(p, size)];
      cur := cur + size;
    }

    /**
     * mem_slab_realloc, with the fast path as intended: the block handed out
     * last is resized in place; any other block is moved to a new block
     * (its bytes copied), and NULL comes back when that allocation fails.
     * Either way the blocks handed out still never overlap.
     */
    method Realloc(newSize: nat, ptr: Ptr, prevSize: nat, granted: bool, ghost k: nat) returns (p: Ptr)
      requires Valid()
      requires ptr.Direct? || (k < |blocks| && blocks[k] == Block(ptr, prevSize))
      modifies this
      ensures Valid() && slabSize == old(slabSize)
      ensures old(InPlace(slabs, cur, slabSize, ptr, prevSize, newSize)) ==>
        && p == ptr && slabs == old(slabs) && cur == ptr.off + newSize
        && blocks == old(blocks)[k := Block(ptr, newSize)]
      ensures !old(InPlace(slabs, cur, slabSize, ptr, prevSize, newSize)) ==>
        && (p == Null ==> !granted && slabs == old(slabs) && cur == old(cur) && blocks == old(blocks))
        && (p.Slab? ==> blocks == old(blocks) + [Block(p, newSize)])
        && (p.Direct? ==> p == Direct(newSize) && blocks == old(blocks))
    {
      if InPlace(slabs, cur, slabSize, ptr, prevSize, newSize) {
        GrowLast(ptr, k, newSize);
        return ptr;
      }
      p := Alloc(newSize, granted);
    }

    /** The fast path's effect: the block handed out last gets its new size, and the cursor follows its end. */
    method GrowLast(ptr: Ptr, ghost k: nat, newSize: nat)
      requires Valid() && k < |blocks| && blocks[k].at == ptr
      requires InPlace(slabs, cur, slabSize, ptr, blocks[k].size, newSize)
      modifies this
      ensures Valid() && slabSize == old(slabSize) && slabs == old(slabs)
      ensures cur == ptr.off + newSize
      ensures blocks == old(blocks)[k := Block(ptr, newSize)]
    {
      ghost var b := blocks[k];
      ghost var before := blocks;
      blocks := blocks[k := Block(ptr, newSize)];
      cur := ptr.off + newSize;
      forall j | 0 <= j < |blocks| && j != k
        ensures InSlabs(blocks[j]) && Disjoint(blocks[j], blocks[k])
      {
        assert blocks[j] == before[j];
        assert Disjoint(before[j], b) by {
          if j < k {
            assert Disjoint(before[j], before[k]);
          } else {
            assert Disjoint(before[k], before[j]);
          }
        }
      }
    }

    /** mem_slab_free: slab memory is released only by mem_slab_deinit. */
    method Free(ptr: Ptr)
    {
    }

    /** The link word of slab `i`: the next slab of the list, or NULL after the last. */
    function Link(i: nat): (r: Option<nat>)
      reads this
      ensures r.Some? ==> r.value == i + 1 < slabs
    {
      if i + 1 < slabs then Some(i + 1) else None
    }

    /**
     * mem_slab_deinit as written: walking the list from head, each slab
     * frees the one before it, so every slab but the last is released.
     * The slabs freed, in order.
     */
    method DeinitAsWritten() returns (freed: seq<nat>)
      ensures slabs > 0 ==> freed == Indices(slabs - 1) && slabs - 1 !in freed
      ensures slabs == 0 ==> freed == []
    {
      freed := [];
      var tmp: Option<nat> := None;
      var next: Option<nat> := if slabs == 0 then None else Some(0);
      while next.Some?
        invariant next.Some? ==> next.value < slabs
        invariant next.Some? ==> tmp == (if next.value == 0 then None else Some(next.value - 1))
        invariant next.Some? ==> freed == Indices(if next.value == 0 then 0 else next.value - 1)
        invariant next.None? ==> tmp == (if slabs == 0 then None else Some(slabs - 1))
        invariant next.None? ==> freed == Indices(if slabs == 0 then 0 else slabs - 1)
        decreases if next.Some? then slabs - next.value else 0
      {
        if tmp.Some? {
          freed := freed + [tmp.value];
        }
        tmp := next;
        next := Link(next.value);
      }
    }

    /** mem_slab_deinit as intended: each slab is freed once its link has been read, so every slab is released once. */
    method Deinit() returns (freed: seq<nat>)
      ensures freed == Indices(slabs)
    {
      freed := [];
      var next: Option<nat> := if slabs == 0 then None else Some(0);
      while next.Some?
        invariant next.Some? ==> next.value < slabs && freed == Indices(next.value)
        invariant next.None? ==> freed == Indices(slabs)
        decreases if next.Some? then slabs - next.value else 0
      {
        var link := Link(next.value);
        freed := freed + [next.value];
        next := link;
      }
    }
  }

  // ---------------------------------------------------------------------
  // The pool allocator

  function Max(a: nat, b: nat): nat
  {
    if a > b then a else b
  }

  /** The check of assert_valid_pool_alloc on the element size, as written: strictly above the pointer size. */
  predicate ElementSizeOkAsWritten(elementSize: nat)
  {
    elementSize > PTR_SIZE
  }

  /**
   * init_pool_alloc raises the element size to the pointer size, and the
   * check it runs next rejects exactly that size: a pool of 8-byte
   * elements, the documented minimum, fails its own assertion.
   */
  lemma PointerSizedPoolRejected()
    ensures Max(PTR_SIZE, PTR_SIZE) == PTR_SIZE
    ensures !ElementSizeOkAsWritten(Max(PTR_SIZE, PTR_SIZE))
    ensures forall esize: nat :: ElementSizeOk(Max(esize, PTR_SIZE))
  {
  }

  /** The check as intended: an element can hold the free-list link. */
  predicate ElementSizeOk(elementSize: nat)
  {
    elementSize >= PTR_SIZE
  }

  /** The fields of a pool that mem_pool_alloc reads and writes. */
  datatype PoolView = PoolView(base: Ptr, used: Ptr, free: seq<Ptr>)

  /**
   * mem_pool_alloc as written: the free list is popped but its head is
   * then overwritten; the room check counts the whole slab size from
   * `base`; when add_pool (whose slab allocation returns `block`) fails,
   * `used` is restored but `base` is left NULL. The new fields and the
   * pointer returned.
   */
  function PoolAllocAsWritten(v: PoolView, slabSize: nat, elementSize: nat, block: Ptr): (r: (PoolView, Ptr))
    requires v.base.Slab? && v.used.Slab? && v.base.off <= v.used.off
    requires block.Null? || block.Slab?
    ensures r.0.free == (if v.free == [] then [] else v.free[1..])
  {
    var free := if v.free != [] then v.free[1..] else v.free;
    if elementSize > slabSize - (v.used.off - v.base.off) then
      if block.Null? then (PoolView(Null, v.used, free), Null)
      else (PoolView(block, Slab(block.slab, block.off + elementSize), free), block)
    else
      (PoolView(v.base, Slab(v.used.slab, v.used.off + elementSize), free), v.used)
  }

  /** An element freed at offset 8 and then asked for again: it is not handed out, and it has left the free list. */
  lemma PoolDropsFreedElement()
    ensures PoolAllocAsWritten(PoolView(Slab(0, 8), Slab(0, 16), [Slab(0, 8)]), 64, 8, Null).1 == Slab(0, 16)
    ensures Slab(0, 8) !in PoolAllocAsWritten(PoolView(Slab(0, 8), Slab(0, 16), [Slab(0, 8)]), 64, 8, Null).0.free
  {
  }

  /**
   * A pool block of 56 bytes at offset 8 of a 64-byte slab, already full:
   * the check as written still finds room, and the element handed out
   * lies past the block's end.
   */
  lemma PoolOverrunsBlock()
    ensures PoolAllocAsWritten(PoolView(Slab(0, 8), Slab(0, 64), []), 64, 8, Null).1 == Slab(0, 64)
    ensures var p := PoolAllocAsWritten(PoolView(Slab(0, 8), Slab(0, 64), []), 64, 8, Null).1;
      p.Slab? && p.off + 8 > 8 + (64 - PTR_SIZE)
  {
  }

  /**
   * In general: whenever the block has no room for another element but the
   * slab-sized check as written passes, the element handed out ends past
   * the block.
   */
  lemma PoolOverrunsAnyFullBlock(v: PoolView, slabSize: nat, elementSize: nat, block: Ptr)
    requires v.base.Slab? && v.used.Slab? && v.base.off <= v.used.off
    requires block.Null? || block.Slab?
    requires PTR_SIZE <= slabSize
    requires v.used.off + elementSize > v.base.off + (slabSize - PTR_SIZE)
    requires elementSize <= slabSize - (v.used.off - v.base.off)
    ensures var p := PoolAllocAsWritten(v, slabSize, elementSize, block).1;
      p == v.used && p.off + elementSize > v.base.off + (slabSize - PTR_SIZE)
  {
  }

  /** A failed add_pool leaves `base` NULL, so the next room check subtracts from NULL. */
  lemma PoolLosesBase()
    ensures PoolAllocAsWritten(PoolView(Slab(0, 8), Slab(0, 64), []), 64, 16, Null).0.base == Null
  {
  }

  class PoolAlloc {
    /** The slab allocator pool blocks come from. */
    var slab: SlabAlloc
    /** The start of the current pool block. */
    var base: Ptr
    /** The next element of the current pool block. */
    var used: Ptr
    /** The free list, head first. */
    var free: seq<Ptr>
    /** element_size */
    var elementSize: nat

    /** max_slab_alloc_sz: the size of a pool block. */
    function BlockSize(): nat
      reads this, slab
    {
      if slab.slabSize < PTR_SIZE then 0 else slab.slabSize - PTR_SIZE
    }

    /**
     * The current pool block is a block the slab handed out, `used` lies
     * within it, an element fits in a block and can hold a link, and the
     * free list holds no NULL.
     */
    ghost predicate Valid()
      reads this, slab
    {
      && slab.Valid() && ElementSizeOk(elementSize) && elementSize <= BlockSize()
      && base.Slab? && used.Slab? && used.slab == base.slab
      && base.off <= used.off <= base.off + BlockSize()
      && Block(base, BlockSize()) in slab.blocks
      && Null !in free
    }

    /** The part of init_pool_alloc before add_pool: an empty free list, and the element size raised to a pointer's. */
    constructor (s: SlabAlloc, esize: nat)
      ensures slab == s && free == [] && elementSize == Max(esize, PTR_SIZE)
      ensures base == Null && used == Null
    {
      slab := s;
      free := [];
      elementSize := Max(esize, PTR_SIZE);
      base := Null;
      used := Null;
    }

    /** add_pool: a new pool block from the slab allocator, both `base` and `used` at its start; both NULL when it fails. */
    method AddPool(granted: bool) returns (failed: bool)
      requires slab.Valid()
      modifies this`base, this`used, slab
      ensures slab.Valid() && slab.slabSize == old(slab.slabSize)
      ensures base == used && (failed <==> base == Null)
      ensures !failed ==> base.Slab? && slab.blocks == old(slab.blocks) + [Block(base, BlockSize())]
      ensures failed ==>
        && !granted && slab.blocks == old(slab.blocks)
        && slab.slabs == old(slab.slabs) && slab.cur == old(slab.cur)
    {
      base := slab.Alloc(BlockSize(), granted);
      used := base;
      failed := base == Null;
    }

    /**
     * mem_pool_alloc as intended: a freed element when there is one;
     * otherwise the next element of the current block, opening a new block
     * when the current one has no room left. NULL only when a new block was
     * needed and malloc failed, and then nothing changes. Every element
     * handed out from a block lies within it.
     */
    method Alloc(granted: bool) returns (p: Ptr)
      requires Valid()
      modifies this, slab
      ensures Valid() && slab == old(slab) && elementSize == old(elementSize)
      ensures slab.slabSize == old(slab.slabSize)
      ensures old(free) != [] ==>
        && p == old(free[0]) && free == old(free[1..])
        && base == old(base) && used == old(used) && slab.blocks == old(slab.blocks)
        && slab.slabs == old(slab.slabs) && slab.cur == old(slab.cur)
      ensures old(free) == [] && old(elementSize <= BlockSize() - (used.off - base.off)) ==>
        && p == old(used) && base == old(base) && slab.blocks == old(slab.blocks)
        && slab.slabs == old(slab.slabs) && slab.cur == old(slab.cur)
      ensures old(free) == [] && old(elementSize > BlockSize() - (used.off - base.off)) && p != Null ==>
        && p == base && slab.blocks == old(slab.blocks) + [Block(base, BlockSize())]
      ensures old(free) == [] && p != Null ==>
        && p.Slab? && p.slab == base.slab && base.off <= p.off && p.off + elementSize <= base.off + BlockSize()
        && used == Slab(p.slab, p.off + elementSize) && free == []
      ensures p == Null ==>
        && old(free) == [] && old(elementSize > BlockSize() - (used.off - base.off)) && !granted
        && base == old(base) && used == old(used) && free == [] && slab.blocks == old(slab.blocks)
        && slab.slabs == old(slab.slabs) && slab.cur == old(slab.cur)
    {
      if free != [] {
        p := free[0];
        free := free[1..];
        return;
      }
      if elementSize > BlockSize() - (used.off - base.off) {
        var tmp, oldBase := used, base;
        var failed := AddPool(granted);
        if failed {
          used, base := tmp, oldBase;
          return Null;
        }
      }
      p := used;
      used := Slab(used.slab, used.off + elementSize);
    }

    /** mem_pool_free: `ptr` becomes the head of the free list, linked to the old head. */
    method Free(ptr: Ptr)
      requires Valid() && ptr != Null
      modifies this`free
      ensures Valid() && free == [ptr] + old(free)
    {
      free := [ptr] + free;
    }
  }

  /**
   * init_pool_alloc: a pool over `s` with the first pool block taken from
   * it; the result 1 when that allocation fails.
   */
  method InitPool(s: SlabAlloc, esize: nat, granted: bool) returns (a: PoolAlloc, failed: bool)
    requires s.Valid() && Max(esize, PTR_SIZE) + PTR_SIZE <= s.slabSize
    modifies s
    ensures fresh(a) && a.slab == s && a.free == [] && a.elementSize == Max(esize, PTR_SIZE)
    ensures !failed ==> a.Valid()
    ensures failed ==> !granted && a.base == Null && a.used == Null
  {
    a := new PoolAlloc(s, esize);
    failed := a.AddPool(granted);
  }

  /** A freed element is the next one handed out. */
  method FreeThenAlloc(a: PoolAlloc, ptr: Ptr, granted: bool) returns (p: Ptr)
    requires a.Valid() && ptr != Null
    modifies a, a.slab
    ensures p == ptr && a.free == old(a.free)
  {
    a.Free(ptr);
    p := a.Alloc(granted);
  }
}
