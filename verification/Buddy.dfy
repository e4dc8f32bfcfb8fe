/**
  Blocks of a buddy arena and the partition they form (the mathematics behind
  src/goblin/core/buffer_pool.cpp:12-63).

  A block of order `o` has `min * 2^o` bytes and starts at a multiple of its size. The arena is the
  block of order `max` at offset 0.
*/
module BuddyBlocks {
  import opened Arith

  datatype Block = Block(order: nat, off: nat)

  function Size(min: nat, order: nat): (r: nat)
    requires min > 0
    ensures r > 0
  {
    min * Pow2(order)
  }

  ghost predicate Fits(min: nat, max: nat, b: Block)
    requires min > 0
  {
    && b.order <= max
    && b.off % Size(min, b.order) == 0
    && b.off + Size(min, b.order) <= Size(min, max)
  }

  predicate Disjoint(min: nat, a: Block, b: Block)
    requires min > 0
  {
    a.off + Size(min, a.order) <= b.off || b.off + Size(min, b.order) <= a.off
  }

  predicate Inside(min: nat, a: Block, b: Block)
    requires min > 0
  {
    b.off <= a.off && a.off + Size(min, a.order) <= b.off + Size(min, b.order)
  }

  predicate Covers(min: nat, b: Block, x: nat)
    requires min > 0
  {
    b.off <= x < b.off + Size(min, b.order)
  }

  ghost predicate Covered(min: nat, s: set<Block>, x: nat)
    requires min > 0
  {
    exists b :: b in s && Covers(min, b, x)
  }

  /** `s` cuts the arena into aligned blocks: pairwise disjoint, and every byte in one of them. */
  ghost predicate Partition(min: nat, max: nat, s: set<Block>)
    requires min > 0
  {
    && (forall b :: b in s ==> Fits(min, max, b))
    && (forall a, b :: a in s && b in s && a != b ==> Disjoint(min, a, b))
    && (forall x: nat {:trigger Covered(min, s, x)} :: x < Size(min, max) ==> Covered(min, s, x))
  }

  /** The other half of the parent block. */
  function BuddyOf(min: nat, b: Block): Block
    requires min > 0
  {
    var sz := Size(min, b.order);
    if b.off / sz % 2 == 0 then Block(b.order, b.off + sz)
    else if b.off >= sz then Block(b.order, b.off - sz) else b
  }

  /** The program finds the buddy by flipping one bit of the offset. */
  lemma XorIsBuddy(min: nat, max: nat, b: Block)
    requires min > 0 && IsPow2(min) && Fits(min, max, b)
    ensures Xor(b.off, Size(min, b.order)) == BuddyOf(min, b).off
  {
    var m: nat :| min == Pow2(m);
    Pow2Sum(m, b.order);
    XorAligned(b.off, m + b.order);
  }

  function Parent(min: nat, b: Block): Block
    requires min > 0
  {
    Block(b.order + 1, if b.off < BuddyOf(min, b).off then b.off else BuddyOf(min, b).off)
  }

  ghost predicate NoFreeBuddies(min: nat, max: nat, free: set<Block>)
    requires min > 0
  {
    forall b {:trigger BuddyOf(min, b)} :: b in free && b.order < max ==> BuddyOf(min, b) !in free
  }

  /** Everything the allocator keeps true of its free blocks and its live allocations. */
  ghost predicate Arena(min: nat, max: nat, free: set<Block>, live: set<Block>)
    requires min > 0
  {
    free !! live && Partition(min, max, free + live) && NoFreeBuddies(min, max, free)
  }

  // ---------------------------------------------------------------- geometry

  lemma SizeDouble(min: nat, o: nat)
    requires min > 0
    ensures Size(min, o + 1) == 2 * Size(min, o)
  {
    assert Pow2(o + 1) == 2 * Pow2(o);
  }

  lemma {:induction false} SizeMultiple(min: nat, o: nat, p: nat) returns (m: nat)
    requires min > 0 && o <= p
    ensures m > 0 && Size(min, p) == m * Size(min, o)
    decreases p
  {
    if o == p {
      m := 1;
    } else {
      var m' := SizeMultiple(min, o, p - 1);
      SizeDouble(min, p - 1);
      m := 2 * m';
      assert 2 * (m' * Size(min, o)) == m * Size(min, o);
    }
  }

  lemma {:induction false} SizeMonotone(min: nat, o: nat, p: nat)
    requires min > 0 && o <= p
    ensures Size(min, o) <= Size(min, p)
  {
    var m := SizeMultiple(min, o, p);
    MulMono(1, m, Size(min, o));
  }

  lemma AlignedNested(x: nat, sa: nat, y: nat, m: nat)
    requires sa > 0 && m > 0 && x % sa == 0 && y % (m * sa) == 0
    ensures x + sa <= y || y + m * sa <= x || (y <= x && x + sa <= y + m * sa)
  {
    var j := y / (m * sa);
    var e := x / sa - j * m;
    assert x == x / sa * sa && y == j * (m * sa);
    assert j * (m * sa) == (j * m) * sa;
    assert e * sa == x - y;
    if e < 0 {
      MulMono(e, -1, sa);
    } else if e >= m {
      MulMono(m, e, sa);
    } else {
      MulMono(e + 1, m, sa);
      assert (e + 1) * sa == e * sa + sa;
      MulMono(0, e, sa);
    }
  }

  /** Aligned blocks are nested or disjoint. */
  lemma Nested(min: nat, max: nat, a: Block, b: Block)
    requires min > 0 && Fits(min, max, a) && Fits(min, max, b) && a.order <= b.order
    ensures Inside(min, a, b) || Disjoint(min, a, b)
  {
    hide Size;
    var m := SizeMultiple(min, a.order, b.order);
    AlignedNested(a.off, Size(min, a.order), b.off, m);
  }

  /** What a block below the top order, its buddy and their parent have to do with each other. */
  lemma BuddyFacts(min: nat, max: nat, b: Block)
    requires min > 0 && Fits(min, max, b) && b.order < max
    ensures var y := BuddyOf(min, b);
            && Fits(min, max, y) && y.order == b.order && y != b && BuddyOf(min, y) == b
    ensures Fits(min, max, Parent(min, b)) && Parent(min, BuddyOf(min, b)) == Parent(min, b)
    ensures Inside(min, b, Parent(min, b)) && Inside(min, BuddyOf(min, b), Parent(min, b))
    ensures Disjoint(min, b, BuddyOf(min, b))
    ensures Size(min, b.order + 1) == 2 * Size(min, b.order)
  {
    hide Size;
    SizeDouble(min, b.order);
    var m := SizeMultiple(min, b.order + 1, max);
    PairOffsets(b.off, Size(min, b.order), m);
  }

  /** The lower of two neighbours is the multiple of twice their size just below them. */
  lemma PairOffsets(x: nat, sz: nat, m: nat)
    requires sz > 0 && x % sz == 0 && x + sz <= m * (2 * sz)
    ensures var lo := if x / sz % 2 == 0 then x else x - sz;
            && 0 <= lo && lo % (2 * sz) == 0 && lo + 2 * sz <= m * (2 * sz)
            && lo % sz == 0 && lo / sz % 2 == 0 && (lo + sz) % sz == 0 && (lo + sz) / sz % 2 == 1
  {
    var i := x / sz;
    var lo := if i % 2 == 0 then x else x - sz;
    var k := i / 2;
    assert x == i * sz && (i - 1) * sz == i * sz - sz;
    assert lo == (2 * k) * sz == k * (2 * sz);
    DivModUnique(lo, 2 * sz, k, 0);
    HalfOffsets(lo, sz);
    RoomForPair(lo, k, sz, m);
  }

  lemma RoomForPair(lo: nat, k: nat, sz: nat, m: nat)
    requires sz > 0 && lo == k * (2 * sz) && lo + sz <= m * (2 * sz)
    ensures lo + 2 * sz <= m * (2 * sz)
  {
    assert (m - k) * (2 * sz) == m * (2 * sz) - lo;
    MulBound(m - k, 2 * sz);
    assert m - k == 0 ==> (m - k) * (2 * sz) == 0;
  }

  /** The halves of a block, and the block again as their parent. */
  lemma HalvesFit(min: nat, max: nat, b: Block)
    requires min > 0 && Fits(min, max, b) && b.order > 0
    ensures var o := b.order - 1;
            var lo, hi := Block(o, b.off), Block(o, b.off + Size(min, o));
            && Fits(min, max, lo) && Fits(min, max, hi)
            && BuddyOf(min, lo) == hi && BuddyOf(min, hi) == lo && Parent(min, lo) == b
    ensures Size(min, b.order) == 2 * Size(min, b.order - 1)
  {
    hide Size;
    SizeDouble(min, b.order - 1);
    HalfOffsets(b.off, Size(min, b.order - 1));
  }

  lemma HalfOffsets(x: nat, sz: nat)
    requires sz > 0 && x % (2 * sz) == 0
    ensures x % sz == 0 && x / sz % 2 == 0
    ensures (x + sz) % sz == 0 && (x + sz) / sz % 2 == 1
  {
    var k := x / (2 * sz);
    assert x == k * (2 * sz) == (2 * k) * sz;
    assert (2 * k + 1) * sz == x + sz;
    DivModUnique(x, sz, 2 * k, 0);
    DivModUnique(x + sz, sz, 2 * k + 1, 0);
  }

  // ---------------------------------------------------------------- splitting and merging

  /** Replacing a block of a partition by its two halves leaves a partition. */
  lemma SplitPartition(min: nat, max: nat, s: set<Block>, b: Block, lo: Block, hi: Block)
    requires min > 0 && Partition(min, max, s) && b in s && b.order > 0
    requires lo == Block(b.order - 1, b.off) && hi == Block(b.order - 1, b.off + Size(min, b.order - 1))
    ensures Partition(min, max, s - {b} + {lo, hi})
    ensures lo !in s && hi !in s
  {
    HalvesFit(min, max, b);
    hide Size, BuddyOf, Parent, Fits;
    var t := s - {b} + {lo, hi};
    assert !Disjoint(min, lo, b) && !Disjoint(min, hi, b);
    forall x: nat {:trigger Covered(min, t, x)} | x < Size(min, max) ensures Covered(min, t, x) {
      assert Covered(min, s, x);
      var a :| a in s && Covers(min, a, x);
      if a == b {
        assert Covers(min, lo, x) || Covers(min, hi, x);
      } else {
        assert a in t;
      }
    }
    forall c, d | c in t && d in t && c != d ensures Disjoint(min, c, d) {
      if c !in {lo, hi} {
        assert Disjoint(min, c, b);
      } else if d !in {lo, hi} {
        assert Disjoint(min, d, b);
      }
    }
  }

  /** Replacing two buddies of a partition by their parent leaves a partition. */
  lemma MergePartition(min: nat, max: nat, s: set<Block>, a: Block, y: Block, b: Block)
    requires min > 0 && Partition(min, max, s) && a in s && y in s && a.order < max
    requires y == BuddyOf(min, a) && b == Parent(min, a)
    ensures Partition(min, max, s - {a, y} + {b})
    ensures b !in s
  {
    BuddyFacts(min, max, a);
    var t := s - {a, y} + {b};
    assert b.order == a.order + 1 && (b.off == a.off || b.off == y.off);
    hide Size, BuddyOf, Parent, Fits;
    assert !Disjoint(min, a, b);
    forall x: nat {:trigger Covered(min, t, x)} | x < Size(min, max) ensures Covered(min, t, x) {
      assert Covered(min, s, x);
      var c :| c in s && Covers(min, c, x);
      if c == a || c == y {
        assert Covers(min, b, x);
      } else {
        assert c in t;
      }
    }
    forall c, d | c in t && d in t && c != d ensures Disjoint(min, c, d) {
      if c == b {
        assert Disjoint(min, d, a) && Disjoint(min, d, y);
      } else if d == b {
        assert Disjoint(min, c, a) && Disjoint(min, c, y);
      }
    }
  }

  // ---------------------------------------------------------------- completeness

  /** No live allocation touches the aligned range `b`. */
  ghost predicate RangeFree(min: nat, max: nat, live: set<Block>, b: Block)
    requires min > 0
  {
    Fits(min, max, b) && forall l :: l in live ==> Disjoint(min, l, b)
  }

  /** Some aligned range of order `t` is free. */
  ghost predicate RangeExists(min: nat, max: nat, live: set<Block>, t: nat)
    requires min > 0
  {
    exists b: Block :: b.order == t && RangeFree(min, max, live, b)
  }

  /** Every aligned range that no allocation touches lies inside one free block. */
  lemma {:induction false} FreeRangeIsCovered(min: nat, max: nat, free: set<Block>, live: set<Block>, b: Block)
    returns (f: Block)
    requires min > 0 && Arena(min, max, free, live) && RangeFree(min, max, live, b)
    ensures f in free && Inside(min, b, f) && b.order <= f.order
    decreases b.order
  {
    hide Size, BuddyOf, Parent;
    if b.order == 0 {
      assert Covered(min, free + live, b.off);
      f :| f in free + live && Covers(min, f, b.off);
      Nested(min, max, b, f);
      assert f !in live;
    } else {
      HalvesFit(min, max, b);
      var o := b.order - 1;
      var lo, hi := Block(o, b.off), Block(o, b.off + Size(min, o));
      var f1 := FreeRangeIsCovered(min, max, free, live, lo);
      var f2 := FreeRangeIsCovered(min, max, free, live, hi);
      if f1.order > o {
        f := f1;
        Nested(min, max, b, f);
      } else if f2.order > o {
        f := f2;
        Nested(min, max, b, f);
      } else {
        assert false;
      }
    }
  }

  /** A free block of order `t` or more exists exactly when an aligned free range of order `t` does. */
  lemma FreeBlockIffFreeRange(min: nat, max: nat, free: set<Block>, live: set<Block>, t: nat)
    requires min > 0 && Arena(min, max, free, live)
    ensures (exists f :: f in free && f.order >= t) <==> RangeExists(min, max, live, t)
  {
    if b: Block :| b.order == t && RangeFree(min, max, live, b) {
      var f := FreeRangeIsCovered(min, max, free, live, b);
    }
    if f :| f in free && f.order >= t {
      var b := FirstPart(min, max, f, t);
      assert RangeFree(min, max, live, b) by {
        hide Size;
        forall l | l in live ensures Disjoint(min, l, b) {
          assert Disjoint(min, l, f);
        }
      }
    }
  }

  lemma FirstPart(min: nat, max: nat, f: Block, t: nat) returns (b: Block)
    requires min > 0 && Fits(min, max, f) && t <= f.order
    ensures b.order == t && Fits(min, max, b) && Inside(min, b, f)
  {
    hide Size;
    b := Block(t, f.off);
    var m := SizeMultiple(min, t, f.order);
    SizeMonotone(min, t, f.order);
    var sz := Size(min, t);
    DivModUnique(Size(min, f.order), sz, m, 0);
    MultipleOfMultiple(f.off, Size(min, f.order), sz);
  }

  /** With nothing live the arena is one free block again. */
  lemma EmptyIsWhole(min: nat, max: nat, free: set<Block>)
    requires min > 0 && Arena(min, max, free, {})
    ensures free == {Block(max, 0)}
  {
    hide Size, BuddyOf, Parent;
    var whole := Block(max, 0);
    var f := FreeRangeIsCovered(min, max, free, {}, whole);
    assert f == whole;
    forall b | b in free ensures b == whole {
      assert free + {} == free;
      assert b != whole ==> Disjoint(min, b, whole);
    }
  }

  /** The free blocks are a function of the live allocations: no history shows in them. */
  lemma FreeIsDetermined(min: nat, max: nat, free: set<Block>, free': set<Block>, live: set<Block>)
    requires min > 0 && Arena(min, max, free, live) && Arena(min, max, free', live)
    ensures free == free'
  {
    forall b | b in free ensures b in free' { FreeIsIncluded(min, max, free, free', live, b); }
    forall b | b in free' ensures b in free { FreeIsIncluded(min, max, free', free, live, b); }
  }

  lemma FreeIsIncluded(min: nat, max: nat, free: set<Block>, free': set<Block>, live: set<Block>, b: Block)
    requires min > 0 && Arena(min, max, free, live) && Arena(min, max, free', live) && b in free
    ensures b in free'
  {
    hide Size, BuddyOf, Parent;
    assert RangeFree(min, max, live, b);
    var f := FreeRangeIsCovered(min, max, free', live, b);
    assert RangeFree(min, max, live, f);
    var g := FreeRangeIsCovered(min, max, free, live, f);
    assert !Disjoint(min, b, g);
    assert b == g;
    assert f.order == b.order;
  }
}
