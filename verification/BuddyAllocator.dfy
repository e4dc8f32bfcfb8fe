/**
  The buddy allocator of one arena (src/goblin/core/buffer_pool.cpp:12-63).
*/
module BuddyAllocator {
  import opened Arith
  import opened Collections
  import opened BuddyBlocks

  // ---------------------------------------------------------------- one block in hand

  /** The arena while an operation holds block `b` in its hands, neither free nor live. */
  ghost predicate Holding(min: nat, max: nat, free: set<Block>, live: set<Block>, b: Block)
    requires min > 0
  {
    && free !! live && b !in free && b !in live
    && Partition(min, max, free + live + {b})
    && NoFreeBuddies(min, max, free)
  }

  lemma Take(min: nat, max: nat, free: set<Block>, live: set<Block>, b: Block)
    requires min > 0 && Arena(min, max, free, live) && b in free
    ensures Holding(min, max, free - {b}, live, b)
  {
    hide Partition;
    assert free - {b} + live + {b} == free + live;
  }

  lemma Keep(min: nat, max: nat, free: set<Block>, live: set<Block>, b: Block)
    requires min > 0 && Holding(min, max, free, live, b)
    ensures Arena(min, max, free, live + {b}) && b !in live
  {
    hide Partition;
    assert free + live + {b} == free + (live + {b});
  }

  lemma Release(min: nat, max: nat, free: set<Block>, live: set<Block>, b: Block)
    requires min > 0 && Arena(min, max, free, live) && b in live
    ensures Holding(min, max, free, live - {b}, b)
  {
    hide Partition;
    assert free + (live - {b}) + {b} == free + live;
  }

  /** Splitting the block in hand and freeing the upper half. */
  lemma SplitHand(min: nat, max: nat, free: set<Block>, live: set<Block>, b: Block, lo: Block, hi: Block)
    requires min > 0 && Holding(min, max, free, live, b) && b.order > 0
    requires lo == Block(b.order - 1, b.off) && hi == Block(b.order - 1, b.off + Size(min, b.order - 1))
    ensures Holding(min, max, free + {hi}, live, lo) && hi !in free
  {
    var s := free + live + {b};
    SplitPartition(min, max, s, b, lo, hi);
    HalvesFit(min, max, b);
    assert s - {b} + {lo, hi} == (free + {hi}) + live + {lo};
    forall x | x in free + {hi} && x.order < max ensures BuddyOf(min, x) !in free + {hi} {
      if x in free {
        assert Fits(min, max, x) by { assert x in s; }
        BuddyFacts(min, max, x);
      }
    }
  }

  /** Merging the block in hand with its free buddy. */
  lemma MergeHand(min: nat, max: nat, free: set<Block>, live: set<Block>, b: Block, y: Block)
    requires min > 0 && Holding(min, max, free, live, b) && b.order < max
    requires y == BuddyOf(min, b) && y in free
    ensures Holding(min, max, free - {y}, live, Parent(min, b))
  {
    var s := free + live + {b};
    MergePartition(min, max, s, b, y, Parent(min, b));
    hide Partition;
    assert s - {b, y} + {Parent(min, b)} == (free - {y}) + live + {Parent(min, b)};
  }

  /** Freeing the block in hand when its buddy is not free. */
  lemma Return(min: nat, max: nat, free: set<Block>, live: set<Block>, b: Block)
    requires min > 0 && Holding(min, max, free, live, b)
    requires b.order == max || BuddyOf(min, b) !in free
    ensures Arena(min, max, free + {b}, live)
  {
    var s := free + live + {b};
    assert s == free + {b} + live;
    forall x | x in free + {b} && x.order < max ensures BuddyOf(min, x) !in free + {b} {
      assert Fits(min, max, x) by { assert x in s; }
      BuddyFacts(min, max, x);
    }
  }

  // ---------------------------------------------------------------- sizes and orders

  /** The least order whose blocks hold `bytes`. */
  ghost function OrderOf(min: nat, bytes: nat): (o: nat)
    requires min > 0
    ensures bytes <= Size(min, o)
    ensures o > 0 ==> Size(min, o - 1) < bytes
    decreases if bytes > min then bytes - min else 0
  {
    if bytes <= min then 0
    else
      var o' := OrderOf(2 * min, bytes);
      OrderStep(min, bytes, o');
      o' + 1
  }

  lemma OrderStep(min: nat, bytes: nat, o: nat)
    requires min > 0 && min < bytes <= Size(2 * min, o) && (o > 0 ==> Size(2 * min, o - 1) < bytes)
    ensures Size(min, o) < bytes <= Size(min, o + 1)
  {
    assert 2 * min * Pow2(o) == min * (2 * Pow2(o));
    if o > 0 {
      assert 2 * min * Pow2(o - 1) == min * (2 * Pow2(o - 1));
    } else {
      assert min * Pow2(0) == min;
    }
  }

  lemma OrderIsLeast(min: nat, bytes: nat, o: nat)
    requires min > 0 && bytes <= Size(min, o) && (o > 0 ==> Size(min, o - 1) < bytes)
    ensures o == OrderOf(min, bytes)
  {
    var t := OrderOf(min, bytes);
    hide OrderOf, Size;
    if o < t {
      SizeMonotone(min, o, t - 1);
    } else if t < o {
      SizeMonotone(min, t, o - 1);
    }
  }

  ghost function Bytes(min: nat, s: set<Block>): nat
    requires min > 0
  {
    if s == {} then 0 else
      var b :| b in s;
      Size(min, b.order) + Bytes(min, s - {b})
  }

  lemma {:induction false} BytesAdd(min: nat, s: set<Block>, b: Block)
    requires min > 0 && b !in s
    ensures Bytes(min, s + {b}) == Bytes(min, s) + Size(min, b.order)
    decreases |s|
  {
    hide Size;
    var t := s + {b};
    var c :| c in t && Bytes(min, t) == Size(min, c.order) + Bytes(min, t - {c});
    if c == b {
      assert t - {b} == s;
    } else {
      assert t - {c} == s - {c} + {b};
      BytesAdd(min, s - {c}, b);
      BytesAdd(min, s - {c}, c);
      assert s - {c} + {c} == s;
    }
  }

  // ---------------------------------------------------------------- the allocator

  /** `free[o]` lists exactly the free blocks of order `o`, each once. */
  ghost predicate Lists(max: nat, free: seq<seq<nat>>, blocks: set<Block>)
  {
    && |free| == max + 1
    && (forall o: nat, off: nat :: Block(o, off) in blocks <==> o <= max && off in free[o])
    && forall o :: 0 <= o <= max ==> NoDup(free[o])
  }

  lemma PushKeepsLists(max: nat, free: seq<seq<nat>>, blocks: set<Block>, b: Block)
    requires Lists(max, free, blocks) && b.order <= max && b !in blocks
    ensures Lists(max, free[b.order := free[b.order] + [b.off]], blocks + {b})
  {
  }

  lemma ListLength(max: nat, free: seq<seq<nat>>, blocks: set<Block>)
    requires Lists(max, free, blocks)
    ensures |free| == max + 1
  {
  }

  lemma NothingListed(max: nat, free: seq<seq<nat>>, blocks: set<Block>, target: nat)
    requires Lists(max, free, blocks) && forall k :: target <= k <= max ==> free[k] == []
    ensures forall f :: f in blocks ==> f.order < target
  {
    forall f | f in blocks ensures f.order < target {
      assert Block(f.order, f.off) in blocks;
    }
  }

  lemma EraseKeepsLists(max: nat, free: seq<seq<nat>>, blocks: set<Block>, o: nat, i: nat)
    requires Lists(max, free, blocks) && o <= max && i < |free[o]|
    ensures var b := Block(o, free[o][i]);
            b in blocks && Lists(max, free[o := free[o][..i] + free[o][i + 1..]], blocks - {b})
  {
    var b := Block(o, free[o][i]);
    var l := free[o];
    var l' := l[..i] + l[i + 1..];
    assert forall x :: x in l' ==> x in l;
    assert forall x :: x in l && x != l[i] ==> x in l';
    assert l[i] !in l';
  }

  class Allocator {
    const arenaSize: nat
    const minBlock: nat
    const maxOrder: nat
    var used: nat
    var free: seq<seq<nat>>
    ghost var freeBlocks: set<Block>
    ghost var live: set<Block>

    ghost predicate Valid()
      reads this
    {
      && minBlock > 0 && IsPow2(minBlock) && arenaSize == Size(minBlock, maxOrder)
      && Lists(maxOrder, free, freeBlocks)
      && Arena(minBlock, maxOrder, freeBlocks, live)
      && used == Bytes(minBlock, live)
    }

    /** The whole arena starts as one free block of the top order. */
    constructor (arena: nat, min: nat)
      requires IsPow2(arena) && IsPow2(min) && min <= arena
      ensures Valid() && live == {} && arenaSize == arena && minBlock == min
    {
      ghost var a: nat, m: nat :| arena == Pow2(a) && min == Pow2(m);
      Pow2Order(a, m);
      var o, bs := 0, min;
      while bs < arena
        invariant bs == Size(min, o) && m + o <= a && Pow2(m + o) == bs
        decreases a - o
      {
        SizeDouble(min, o);
        bs := 2 * bs;
        o := o + 1;
      }
      Pow2Order(m + o, a);
      arenaSize, minBlock, maxOrder, used := arena, min, o, 0;
      free := seq(o, _ => []) + [[0]];
      freeBlocks, live := {Block(o, 0)}, {};
      new;
      WholeIsArena(minBlock, maxOrder);
    }

    method OrderFor(bytes: nat) returns (o: nat)
      requires minBlock > 0
      ensures o == OrderOf(minBlock, bytes)
    {
      var need := if bytes < minBlock then minBlock else bytes;
      o := 0;
      var bs := minBlock;
      while bs < need
        invariant bs == Size(minBlock, o)
        invariant o > 0 ==> Size(minBlock, o - 1) < bytes
        decreases need - bs
      {
        SizeDouble(minBlock, o);
        bs := 2 * bs;
        o := o + 1;
      }
      OrderIsLeast(minBlock, bytes, o);
    }

    /**
      Takes the first free block of sufficient order and splits it down. Refuses exactly when the
      request is empty, exceeds the arena, or no aligned free range of the rounded size exists.
    */
    method Allocate(bytes: nat) returns (r: Option<nat>)
      requires Valid()
      modifies this
      ensures Valid()
      ensures r.None? ==> live == old(live) && freeBlocks == old(freeBlocks) && used == old(used)
      ensures r.Some? ==> var b := Block(OrderOf(minBlock, bytes), r.value);
                          b !in old(live) && live == old(live) + {b} && 0 < bytes <= Size(minBlock, b.order)
      ensures r.Some? <==>
              (0 < bytes <= arenaSize && RangeExists(minBlock, maxOrder, old(live), OrderOf(minBlock, bytes)))
    {
      hide Size, Arena, Holding, RangeExists, OrderOf, Bytes, Lists;
      ListLength(maxOrder, free, freeBlocks);
      if bytes == 0 || bytes > arenaSize {
        return None;
      }
      var target := OrderFor(bytes);
      FreeBlockIffFreeRange(minBlock, maxOrder, freeBlocks, live, target);
      if target > maxOrder {
        NoBigRange(minBlock, maxOrder, live, target);
        return None;
      }
      var o := target;
      while o <= maxOrder && free[o] == []
        invariant target <= o <= maxOrder + 1
        invariant forall k :: target <= k < o ==> free[k] == []
      {
        o := o + 1;
      }
      if o > maxOrder {
        NothingListed(maxOrder, free, freeBlocks, target);
        return None;
      }
      var last := |free[o]| - 1;
      var off := free[o][last];
      EraseKeepsLists(maxOrder, free, freeBlocks, o, last);
      assert exists f :: f in freeBlocks && f.order >= target by { assert Block(o, off).order >= target; }
      Take(minBlock, maxOrder, freeBlocks, live, Block(o, off));
      free := free[o := free[o][..last] + free[o][last + 1..]];
      freeBlocks := freeBlocks - {Block(o, off)};
      while o > target
        invariant target <= o <= maxOrder && live == old(live) && used == old(used)
        invariant Lists(maxOrder, free, freeBlocks)
        invariant Holding(minBlock, maxOrder, freeBlocks, live, Block(o, off))
      {
        ListLength(maxOrder, free, freeBlocks);
        var sz := Size(minBlock, o - 1);
        var hi := Block(o - 1, off + sz);
        SplitHand(minBlock, maxOrder, freeBlocks, live, Block(o, off), Block(o - 1, off), hi);
        o := o - 1;
        PushKeepsLists(maxOrder, free, freeBlocks, hi);
        free := free[o := free[o] + [off + sz]];
        freeBlocks := freeBlocks + {hi};
      }
      Keep(minBlock, maxOrder, freeBlocks, live, Block(o, off));
      BytesAdd(minBlock, live, Block(o, off));
      used := used + Size(minBlock, target);
      live := live + {Block(o, off)};
      r := Some(off);
    }

    /** Frees what `Allocate(bytes)` returned at `off`, merging with free buddies as far as it goes. */
    method Deallocate(off: nat, bytes: nat)
      requires Valid() && Block(OrderOf(minBlock, bytes), off) in live
      modifies this
      ensures Valid() && live == old(live) - {Block(OrderOf(minBlock, bytes), off)}
    {
      hide Size, Arena, Partition;
      var target := OrderFor(bytes);
      ghost var b := Block(target, off);
      BytesAdd(minBlock, live - {b}, b);
      assert live - {b} + {b} == live;
      used := used - Size(minBlock, target);
      Release(minBlock, maxOrder, freeBlocks, live, b);
      HeldFits(minBlock, maxOrder, freeBlocks, live - {b}, b);
      live := live - {b};
      var order: nat, cur: nat := target, off;
      var going := true;
      while going && order < maxOrder
        invariant order <= maxOrder && live == old(live) - {b} && used == Bytes(minBlock, live)
        invariant Lists(maxOrder, free, freeBlocks)
        invariant Holding(minBlock, maxOrder, freeBlocks, live, Block(order, cur))
        invariant going || BuddyOf(minBlock, Block(order, cur)) !in freeBlocks
        decreases going, maxOrder - order
      {
        HeldFits(minBlock, maxOrder, freeBlocks, live, Block(order, cur));
        XorIsBuddy(minBlock, maxOrder, Block(order, cur));
        var buddy := Xor(cur, Size(minBlock, order));
        var i := Find(free[order], buddy);
        if i == |free[order]| {
          going := false;
        } else {
          MergeHand(minBlock, maxOrder, freeBlocks, live, Block(order, cur), Block(order, buddy));
          EraseKeepsLists(maxOrder, free, freeBlocks, order, i);
          free := free[order := free[order][..i] + free[order][i + 1..]];
          freeBlocks := freeBlocks - {Block(order, buddy)};
          cur := if cur < buddy then cur else buddy;
          order := order + 1;
        }
      }
      Return(minBlock, maxOrder, freeBlocks, live, Block(order, cur));
      PushKeepsLists(maxOrder, free, freeBlocks, Block(order, cur));
      free := free[order := free[order] + [cur]];
      freeBlocks := freeBlocks + {Block(order, cur)};
    }
  }

  method Find(s: seq<nat>, x: nat) returns (i: nat)
    ensures i <= |s| && (i < |s| ==> s[i] == x) && x !in s[..i]
  {
    i := 0;
    while i < |s| && s[i] != x
      invariant 0 <= i <= |s| && x !in s[..i]
    {
      i := i + 1;
    }
  }

  lemma {:induction false} Pow2Order(a: nat, b: nat)
    ensures a < b ==> Pow2(a) < Pow2(b)
    decreases b
  {
    if a < b {
      Pow2Order(a, b - 1);
    }
  }

  lemma WholeIsArena(min: nat, max: nat)
    requires min > 0
    ensures Arena(min, max, {Block(max, 0)}, {})
    ensures Bytes(min, {}) == 0
  {
    hide Size;
    var s := {Block(max, 0)};
    assert s + {} == s;
    forall x: nat {:trigger Covered(min, s, x)} | x < Size(min, max) ensures Covered(min, s, x) {
      assert Covers(min, Block(max, 0), x);
    }
  }

  lemma NoBigRange(min: nat, max: nat, live: set<Block>, t: nat)
    requires min > 0 && t > max
    ensures !RangeExists(min, max, live, t)
  {
  }

  lemma HeldFits(min: nat, max: nat, free: set<Block>, live: set<Block>, b: Block)
    requires min > 0 && Holding(min, max, free, live, b)
    ensures Fits(min, max, b)
  {
    assert b in free + live + {b};
  }

  /** A live set weighs nothing exactly when it is empty. */
  lemma NothingUsed(min: nat, live: set<Block>)
    requires min > 0
    ensures Bytes(min, live) == 0 <==> live == {}
  {
  }
}
