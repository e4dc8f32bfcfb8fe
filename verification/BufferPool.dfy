/**
  The block pool and the head allocator over it (src/goblin/core/buffer_pool.cpp:65-180): whole
  blocks are handed out by index, and each block in use is a buddy arena.
*/
module BufferPool {
  import opened Arith
  import opened Collections
  import opened BuddyBlocks
  import opened BuddyAllocator

  /** One past the largest 32-bit value. */
  const WORD32: nat := 0x1_0000_0000

  class BlockPool {
    const blockBytes: nat
    const numBlocks: nat
    var free: seq<nat>

    ghost predicate Valid()
      reads this
    {
      NoDup(free) && forall k :: 0 <= k < |free| ==> free[k] < numBlocks
    }

    constructor (blockBytes: nat, numBlocks: nat)
      ensures Valid() && this.blockBytes == blockBytes && this.numBlocks == numBlocks
      ensures forall i: nat :: i in free <==> i < numBlocks
    {
      var stack: seq<nat> := [];
      var i := numBlocks;
      while i > 0
        invariant 0 <= i <= numBlocks && |stack| == numBlocks - i
        invariant forall k {:trigger stack[k]} :: 0 <= k < |stack| ==> stack[k] == numBlocks - 1 - k
      {
        i := i - 1;
        stack := stack + [i];
      }
      this.blockBytes, this.numBlocks, free := blockBytes, numBlocks, stack;
      forall j: nat | j < numBlocks ensures j in stack {
        assert stack[numBlocks - 1 - j] == j;
      }
    }

    method Acquire() returns (r: Option<nat>)
      requires Valid()
      modifies this
      ensures Valid()
      ensures r.None? <==> old(free) == []
      ensures r.None? ==> free == old(free)
      ensures r.Some? ==> old(free) == free + [r.value] && r.value !in free && r.value < numBlocks
    {
      if free == [] {
        return None;
      }
      var idx := free[|free| - 1];
      assert free == free[..|free| - 1] + [idx];
      free := free[..|free| - 1];
      r := Some(idx);
    }

    method Release(index: nat)
      requires Valid() && index < numBlocks && index !in free
      modifies this
      ensures Valid() && free == old(free) + [index]
    {
      free := free + [index];
    }
  }

  /** A region handed out: block index, offset inside the block and requested length. */
  datatype Region = Region(block: nat, offset: nat, len: nat)

  class Pool {
    const blocks: BlockPool
    const minAlloc: nat
    ghost const maxOrder: nat
    var arenas: seq<Allocator?>
    /** What the callers hold: (block, offset) to requested length. */
    ghost var regions: map<(nat, nat), nat>

    ghost function Arenas(): set<object>
      reads this
    {
      set a: Allocator | a in arenas
    }

    /** The live blocks of arena `b`; a block without an arena has none. */
    ghost function LiveIn(b: nat): set<Block>
      requires b < |arenas|
      reads this, arenas
    {
      if arenas[b] == null then {} else arenas[b].live
    }

    /** Block `b` is free xor has an arena in use, whose live blocks are the regions handed out. */
    ghost predicate BlockOk(b: nat)
      requires minAlloc > 0 && b < |arenas|
      reads this, blocks, arenas
    {
      && (arenas[b] == null <==> b in blocks.free)
      && (arenas[b] != null ==>
            && arenas[b].Valid() && arenas[b].minBlock == minAlloc && arenas[b].maxOrder == maxOrder
            && arenas[b].arenaSize == blocks.blockBytes
            && arenas[b].used > 0)
      && LiveIsRegions(minAlloc, regions, b, LiveIn(b))
    }

    ghost predicate Config()
      reads this
    {
      && IsPow2(minAlloc) && IsPow2(blocks.blockBytes) && 0 < minAlloc <= blocks.blockBytes
      && blocks.blockBytes == Size(minAlloc, maxOrder) <= WORD32
      && |arenas| == blocks.numBlocks
    }

    ghost predicate Distinct()
      reads this
    {
      forall b, c :: 0 <= b < c < |arenas| && arenas[b] != null ==> arenas[b] != arenas[c]
    }

    ghost predicate Valid()
      reads this, blocks, arenas
    {
      && Config() && Distinct() && blocks.Valid()
      && (forall b {:trigger arenas[b]} {:trigger BlockOk(b)} :: 0 <= b < |arenas| ==> BlockOk(b))
      && (forall k :: k in regions ==> k.0 < |arenas| && 0 < regions[k])
    }

    constructor (numBlocks: nat, blockBytes: nat, min: nat)
      requires IsPow2(min) && IsPow2(blockBytes) && 0 < min <= blockBytes <= WORD32
      ensures Valid() && regions == map[] && fresh(blocks) && Arenas() == {}
      ensures blocks.numBlocks == numBlocks && blocks.blockBytes == blockBytes && minAlloc == min
    {
      hide Size, IsPow2, OrderOf;
      ghost var k := OrderBetween(min, blockBytes);
      blocks := new BlockPool(blockBytes, numBlocks);
      minAlloc, maxOrder, regions := min, k, map[];
      arenas := seq(numBlocks, _ => null);
    }

    /** Allocation from the open arena `b`. */
    method AllocateIn(b: nat, bytes: nat) returns (r: Option<nat>)
      requires Valid() && b < |arenas| && arenas[b] != null && 0 < bytes <= blocks.blockBytes
      modifies this`regions, arenas[b]
      ensures Valid()
      ensures r.None? ==> regions == old(regions) && LiveIn(b) == old(LiveIn(b))
      ensures r.Some? ==> r.value + bytes <= blocks.blockBytes && (b, r.value) !in old(regions)
      ensures r.Some? ==> regions == old(regions)[(b, r.value) := bytes]
      ensures r.Some? <==> RangeExists(minAlloc, maxOrder, old(LiveIn(b)), OrderOf(minAlloc, bytes))
    {
      hide Size, IsPow2, OrderOf, Allocator.Valid, RangeExists;
      assert BlockOk(b);
      ghost var live := arenas[b].live;
      r := arenas[b].Allocate(bytes);
      if r.Some? {
        OffsetsDiffer(arenas[b], Block(OrderOf(minAlloc, bytes), r.value));
        LiveAdd(minAlloc, regions, b, r.value, bytes, live);
        regions := regions[(b, r.value) := bytes];
        InUse(arenas[b]);
        LiveFits(arenas[b], r.value, bytes);
      }
      forall c {:trigger BlockOk(c)} | 0 <= c < |arenas| ensures BlockOk(c) {
        assert old(BlockOk(c));
        if c != b {
          LiveOther(minAlloc, old(regions), regions, b, c, LiveIn(c));
        }
      }
    }

    /** Takes a block from the block pool; none is left exactly when every block has an arena. */
    method TakeBlock() returns (r: Option<nat>)
      requires Valid()
      modifies blocks
      ensures r.None? ==> Valid() && forall b :: 0 <= b < |arenas| ==> arenas[b] != null
      ensures r.Some? ==>
                var blk := r.value;
                && blocks.Valid() && blk < |arenas| && arenas[blk] == null && blk !in blocks.free
                && (forall b :: 0 <= b < |arenas| && b != blk ==> BlockOk(b))
                && (forall k :: k in regions ==> k.0 < |arenas| && k.0 != blk && 0 < regions[k])
    {
      hide Size, IsPow2, OrderOf, Allocator.Valid;
      r := blocks.Acquire();
      forall b {:trigger BlockOk(b)} | 0 <= b < |arenas| && (r.Some? ==> b != r.value) ensures BlockOk(b) {
        assert old(BlockOk(b));
      }
      if r.Some? {
        assert old(BlockOk(r.value));
        forall k | k in regions ensures k.0 != r.value {
          assert k.0 == r.value ==> Block(OrderOf(minAlloc, regions[k]), k.1) !in LiveIn(k.0);
        }
      } else {
        forall b | 0 <= b < |arenas| ensures arenas[b] != null {
          assert old(BlockOk(b));
        }
      }
    }

    /** Opens an arena on a free block and allocates from it, which always succeeds. */
    method OpenAndAllocate(blk: nat, bytes: nat) returns (off: nat)
      requires Config() && Distinct() && blocks.Valid() && 0 < bytes <= blocks.blockBytes
      requires blk < |arenas| && arenas[blk] == null && blk !in blocks.free
      requires forall b :: 0 <= b < |arenas| && b != blk ==> BlockOk(b)
      requires forall k :: k in regions ==> k.0 < |arenas| && k.0 != blk && 0 < regions[k]
      modifies this`regions, this`arenas
      ensures Valid() && (blk, off) !in old(regions) && regions == old(regions)[(blk, off) := bytes]
      ensures off + bytes <= blocks.blockBytes
      ensures arenas[blk] != null && fresh(arenas[blk]) && arenas == old(arenas)[blk := arenas[blk]]
    {
      hide Size, IsPow2, OrderOf, Allocator.Valid, RangeExists, RangeFree;
      var a := new Allocator(blocks.blockBytes, minAlloc);
      SameTop(a, maxOrder);
      WholeIsFree(minAlloc, maxOrder, bytes);
      var r := a.Allocate(bytes);
      off := r.value;
      InUse(a);
      LiveFits(a, off, bytes);
      LiveAdd(minAlloc, regions, blk, off, bytes, {});
      regions := regions[(blk, off) := bytes];
      arenas := arenas[blk := a];
      forall c {:trigger BlockOk(c)} | 0 <= c < |arenas| ensures BlockOk(c) {
        if c != blk {
          assert old(BlockOk(c));
          LiveOther(minAlloc, old(regions), regions, blk, c, LiveIn(c));
        }
      }
    }

    /**
      First fit over the open arenas, else a fresh block. Refuses exactly when the request is empty
      or exceeds a block, or when no block, open or closed, has an aligned free range of the
      rounded size.
    */
    method Allocate(bytes: nat) returns (r: Option<Region>)
      requires Valid()
      modifies this, blocks, Arenas()
      ensures Valid() && fresh(Arenas() - old(Arenas()))
      ensures r.None? ==> regions == old(regions)
      ensures r.Some? ==>
                var g := r.value;
                && g.len == bytes && (g.block, g.offset) !in old(regions)
                && regions == old(regions)[(g.block, g.offset) := bytes]
      ensures r.Some? <==>
              (0 < bytes <= blocks.blockBytes &&
               exists b: nat :: b < |old(arenas)| && RangeExists(minAlloc, maxOrder, old(LiveIn(b)),
                                                                 OrderOf(minAlloc, bytes)))
    {
      hide Size, IsPow2, OrderOf, Allocator.Valid, RangeExists, BlockOk, LiveIsRegions;
      if bytes == 0 || bytes > blocks.blockBytes {
        return None;
      }
      var b := 0;
      while b < |arenas|
        invariant 0 <= b <= |arenas| && Valid() && arenas == old(arenas) && regions == old(regions)
        invariant blocks.free == old(blocks.free)
        invariant forall c: nat :: c < |arenas| ==> LiveIn(c) == old(LiveIn(c))
        invariant forall c: nat :: c < b && arenas[c] != null ==>
                    !RangeExists(minAlloc, maxOrder, LiveIn(c), OrderOf(minAlloc, bytes))
      {
        if arenas[b] != null {
          var off := AllocateIn(b, bytes);
          if off.Some? {
            return Some(Region(b, off.value % WORD32, bytes));
          }
        }
        b := b + 1;
      }
      var blk := TakeBlock();
      if blk.None? {
        return None;
      }
      WholeIsFree(minAlloc, maxOrder, bytes);
      assert RangeExists(minAlloc, maxOrder, old(LiveIn(blk.value)), OrderOf(minAlloc, bytes));
      var off := OpenAndAllocate(blk.value, bytes);
      r := Some(Region(blk.value, off % WORD32, bytes));
    }

    /**
      Gives a region back; the block returns to the block pool when its arena empties. A block
      without an arena is ignored.
    */
    method Deallocate(block: nat, offset: nat, bytes: nat)
      requires Valid()
      requires block < |arenas| && arenas[block] != null ==>
                 (block, offset) in regions && regions[(block, offset)] == bytes
      modifies this, blocks, Arenas()
      ensures Valid() && Arenas() <= old(Arenas())
      ensures regions == old(regions) - {(block, offset)}
    {
      hide Size, IsPow2, OrderOf, Allocator.Valid;
      if block >= |arenas| || arenas[block] == null {
        NoRegions(block, offset);
        return;
      }
      assert BlockOk(block);
      ghost var live := arenas[block].live;
      assert Block(OrderOf(minAlloc, bytes), offset) in live;
      arenas[block].Deallocate(offset, bytes);
      LiveRemove(minAlloc, regions, block, offset, live);
      regions := regions - {(block, offset)};
      InUse(arenas[block]);
      if arenas[block].used == 0 {
        arenas := arenas[block := null];
        blocks.Release(block);
      }
      forall c {:trigger BlockOk(c)} | 0 <= c < |arenas| ensures BlockOk(c) {
        assert old(BlockOk(c));
        if c != block {
          LiveOther(minAlloc, old(regions), regions, block, c, LiveIn(c));
        }
      }
    }

    lemma NoRegions(block: nat, offset: nat)
      requires Valid() && (block >= |arenas| || arenas[block] == null)
      ensures (block, offset) !in regions && regions - {(block, offset)} == regions
    {
      hide OrderOf;
      if block < |arenas| {
        assert BlockOk(block);
        NothingLive(minAlloc, regions, block, offset);
      }
    }

    /** Address range of a region, from the start of the pool's memory. */
    ghost function Addr(k: (nat, nat)): int { k.0 * blocks.blockBytes + k.1 }

    /** Regions lie inside the pool's memory and no two of them share a byte. */
    lemma RegionsDisjoint(j: (nat, nat), k: (nat, nat))
      requires Valid() && j in regions && k in regions && j != k
      ensures 0 <= Addr(j) && Addr(j) + regions[j] <= blocks.numBlocks * blocks.blockBytes
      ensures Addr(j) + regions[j] <= Addr(k) || Addr(k) + regions[k] <= Addr(j)
    {
      hide Size, OrderOf;
      InBlock(j);
      InBlock(k);
      var bb := blocks.blockBytes;
      if j.0 < k.0 {
        MulMono(j.0 + 1, k.0, bb);
      } else if k.0 < j.0 {
        MulMono(k.0 + 1, j.0, bb);
      } else {
        var a := arenas[j.0];
        assert BlockOk(j.0);
        var x := Block(OrderOf(minAlloc, regions[j]), j.1);
        var y := Block(OrderOf(minAlloc, regions[k]), k.1);
        assert x in LiveIn(j.0) && y in LiveIn(j.0);
        assert x in a.freeBlocks + a.live && y in a.freeBlocks + a.live;
      }
      MulMono(j.0 + 1, blocks.numBlocks, bb);
      assert (j.0 + 1) * bb == j.0 * bb + bb;
      assert (k.0 + 1) * bb == k.0 * bb + bb;
    }

    lemma InBlock(k: (nat, nat))
      requires Valid() && k in regions
      ensures k.0 < |arenas| && k.1 + regions[k] <= blocks.blockBytes
    {
      hide Size, OrderOf, Allocator.Valid;
      assert BlockOk(k.0);
      assert Block(OrderOf(minAlloc, regions[k]), k.1) in LiveIn(k.0);
      LiveFits(arenas[k.0], k.1, regions[k]);
    }
  }

  /** The arenas of one pool have the same top order. */
  lemma SameTop(a: Allocator, max: nat)
    requires a.Valid() && a.arenaSize == Size(a.minBlock, max)
    ensures a.maxOrder == max
  {
    hide Size;
    SameOrder(a.minBlock, a.maxOrder, max);
  }

  lemma SameOrder(min: nat, o: nat, p: nat)
    requires min > 0 && Size(min, o) == Size(min, p)
    ensures o == p
  {
    hide Size;
    if o != p {
      SizeStrict(min, if o < p then o else p, if o < p then p else o);
    }
  }

  lemma SizeStrict(min: nat, o: nat, p: nat)
    requires min > 0 && o < p
    ensures Size(min, o) < Size(min, p)
  {
    hide Size;
    SizeDouble(min, o);
    SizeMonotone(min, o + 1, p);
  }

  /** A request of at most a block finds room in an empty arena. */
  lemma WholeIsFree(min: nat, max: nat, bytes: nat)
    requires min > 0 && bytes <= Size(min, max)
    ensures RangeExists(min, max, {}, OrderOf(min, bytes))
  {
    hide Size;
    var t := OrderOf(min, bytes);
    if t > max {
      SizeMonotone(min, max, t - 1);
      assert false;
    }
    SizeMonotone(min, t, max);
    assert RangeFree(min, max, {}, Block(t, 0));
  }

  lemma InUse(a: Allocator)
    requires a.Valid()
    ensures a.used > 0 <==> a.live != {}
  {
    NothingUsed(a.minBlock, a.live);
  }

  lemma LiveFits(a: Allocator, off: nat, bytes: nat)
    requires a.Valid() && Block(OrderOf(a.minBlock, bytes), off) in a.live
    ensures off + bytes <= a.arenaSize
  {
    hide Size;
    assert Block(OrderOf(a.minBlock, bytes), off) in a.freeBlocks + a.live;
  }

  /** Live blocks of an arena are told apart by their offsets. */
  lemma OffsetsDiffer(a: Allocator, x: Block)
    requires a.Valid() && x in a.live
    ensures forall y :: y in a.live && y.off == x.off ==> y == x
  {
    hide Size;
    forall y | y in a.live && y.off == x.off ensures y == x {
      assert x in a.freeBlocks + a.live && y in a.freeBlocks + a.live;
      assert !Disjoint(a.minBlock, x, y);
    }
  }

  /** `live` holds, for each region of block `b`, the block of the least order that fits it. */
  ghost predicate LiveIsRegions(min: nat, regions: map<(nat, nat), nat>, b: nat, live: set<Block>)
    requires min > 0
  {
    forall x: Block {:trigger x in live} ::
      x in live <==> (b, x.off) in regions && x.order == OrderOf(min, regions[(b, x.off)])
  }

  lemma LiveAdd(min: nat, regions: map<(nat, nat), nat>, b: nat, off: nat, bytes: nat, live: set<Block>)
    requires min > 0 && LiveIsRegions(min, regions, b, live)
    requires forall y :: y in live ==> y.off != off
    ensures (b, off) !in regions
    ensures LiveIsRegions(min, regions[(b, off) := bytes], b, live + {Block(OrderOf(min, bytes), off)})
  {
    hide OrderOf;
    assert (b, off) in regions ==> Block(OrderOf(min, regions[(b, off)]), off) in live;
  }

  lemma NothingLive(min: nat, regions: map<(nat, nat), nat>, b: nat, off: nat)
    requires min > 0 && LiveIsRegions(min, regions, b, {})
    ensures (b, off) !in regions
  {
    LiveAdd(min, regions, b, off, 1, {});
  }

  lemma LiveRemove(min: nat, regions: map<(nat, nat), nat>, b: nat, off: nat, live: set<Block>)
    requires min > 0 && LiveIsRegions(min, regions, b, live) && (b, off) in regions
    ensures LiveIsRegions(min, regions - {(b, off)}, b, live - {Block(OrderOf(min, regions[(b, off)]), off)})
  {
    hide OrderOf;
  }

  lemma LiveOther(min: nat, before: map<(nat, nat), nat>, after: map<(nat, nat), nat>, b: nat, c: nat, live: set<Block>)
    requires min > 0 && LiveIsRegions(min, before, c, live)
    requires forall off: nat ::
             ((c, off) in before <==> (c, off) in after)
             && ((c, off) in before ==> before[(c, off)] == after[(c, off)])
    ensures LiveIsRegions(min, after, c, live)
  {
    hide OrderOf;
  }

  lemma OrderBetween(min: nat, arena: nat) returns (k: nat)
    requires IsPow2(arena) && IsPow2(min) && min <= arena
    ensures min > 0 && arena == Size(min, k)
  {
    var a: nat, m: nat :| arena == Pow2(a) && min == Pow2(m);
    Pow2Order(a, m);
    k := a - m;
    Pow2Sum(m, k);
  }
}
