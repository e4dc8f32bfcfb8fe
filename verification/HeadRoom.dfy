/**
  When a head finds room in RAM (src/goblin/storage/tier_manager.cpp:219-250): the heads that evicting
  all of them would free, the ranges that are free then, and what the loop of `begin_store` comes to.
*/
module HeadRoom {
  import opened Arith
  import opened BuddyBlocks
  import opened BuddyAllocator
  import RamPool = BufferPool
  import opened S3Fifo
  import opened Core

  /** Block `b` has an aligned range for `len` bytes that no region touches. */
  ghost predicate RangeIn(ram: Ram, regions: map<Rid, nat>, b: nat, len: nat)
    requires ram.min > 0
  {
    exists x: Block :: x.order == OrderOf(ram.min, len) && Fits(ram.min, ram.max, x) && Untouched(ram, regions, b, x)
  }

  ghost predicate Untouched(ram: Ram, regions: map<Rid, nat>, b: nat, x: Block)
    requires ram.min > 0
  {
    forall off: nat {:trigger (b, off) in regions} :: (b, off) in regions ==>
        Disjoint(ram.min, Block(OrderOf(ram.min, regions[(b, off)]), off), x)
  }

  ghost predicate Room(ram: Ram, regions: map<Rid, nat>, len: nat)
    requires ram.min > 0
  {
    exists b: nat :: b < ram.blocks && RangeIn(ram, regions, b, len)
  }

  /** Fewer regions leave no less room. */
  lemma RoomGrows(ram: Ram, regions: map<Rid, nat>, fewer: map<Rid, nat>, len: nat)
    requires ram.min > 0 && Room(ram, regions, len)
    requires forall r :: r in fewer ==> r in regions && fewer[r] == regions[r]
    ensures Room(ram, fewer, len)
  {
    hide OrderOf, Disjoint, Fits;
    var b: nat :| b < ram.blocks && RangeIn(ram, regions, b, len);
    var x: Block :| x.order == OrderOf(ram.min, len) && Fits(ram.min, ram.max, x) && Untouched(ram, regions, b, x);
    assert Untouched(ram, fewer, b, x);
    assert RangeIn(ram, fewer, b, len);
  }

  /** A resident head that nobody has pinned: evicting it frees its region. */
  ghost predicate Evictable(c: State, r: Rid) {
    IndexHead(c.index, r) && !(r in c.pins && c.pins[r].refcount > 0)
  }

  /** The regions that stay when every head is evicted. */
  ghost function Left(c: State): map<Rid, nat> {
    map r | r in c.regions && !Evictable(c, r) :: c.regions[r]
  }

  lemma NoHeadsLeft(c: State)
    requires PoliciesAgree(c) && c.heads == {}
    ensures Left(c) == c.regions
  {
  }

  lemma EvictionKeepsLeft(cfg: Config, c: State, d: Digest)
    requires IndexOwns(c)
    ensures Left(EvictHead(cfg, c, d)) == Left(c)
  {
    if d in c.index && c.index[d].head.Head? {
      RetirementKeepsLeft(c, d);
      var c1 := RetireHead(c, d);
      ErasureKeepsLeft(c1, d);
    }
  }

  lemma RetirementKeepsLeft(c: State, d: Digest)
    requires IndexOwns(c) && d in c.index && c.index[d].head.Head?
    ensures Left(RetireHead(c, d)) == Left(c) && d in RetireHead(c, d).index && RetireHead(c, d).index[d].head.NoHead?
  {
    RetiredHeads(c, d);
    hide IndexHead;
    var r, c' := c.index[d].head.rid, RetireHead(c, d);
    forall x ensures (x in Left(c') <==> x in Left(c)) && (x in Left(c) ==> Left(c')[x] == Left(c)[x]) {
      assert IndexHead(c'.index, x) <==> x != r && IndexHead(c.index, x);
    }
  }

  lemma ErasureKeepsLeft(c: State, d: Digest)
    requires d in c.index && c.index[d].head.NoHead?
    ensures Left(c.(objects := c.objects - {d}, index := c.index - {d})) == Left(c)
  {
    var c' := c.(objects := c.objects - {d}, index := c.index - {d});
    forall x ensures IndexHead(c'.index, x) <==> IndexHead(c.index, x) {
      if IndexHead(c.index, x) {
        var e :| e in c.index && c.index[e].head.Head? && c.index[e].head.rid == x;
        assert e in c'.index;
      }
    }
  }

  lemma AllEvicted(cfg: Config, c: State, hh: map<nat, Head>, ph: map<nat, Rid>)
    requires Inv(cfg, c, hh, ph) && c.heads == {}
    ensures Left(c) == c.regions
  {
    hide Owned, HeadSizes;
    NoHeadsLeft(c);
  }

  lemma EvictedOne(cfg: Config, c: State, d: Digest, hh: map<nat, Head>, ph: map<nat, Rid>)
    requires Inv(cfg, c, hh, ph)
    ensures Left(EvictHead(cfg, c, d)) == Left(c)
  {
    EvictionKeepsLeft(cfg, c, d);
  }

  /** Room among the regions of a state is room when its heads are evicted as well. */
  lemma RoomLeft(ram: Ram, c: State, len: nat)
    requires ram.min > 0 && Room(ram, c.regions, len)
    ensures Room(ram, Left(c), len)
  {
    RoomGrows(ram, c.regions, Left(c), len);
  }

  lemma {:induction false} EvictionsKeepLeft(cfg: Config, c: State, victims: seq<Digest>, hh: map<nat, Head>,
                                             ph: map<nat, Rid>)
    requires Inv(cfg, c, hh, ph)
    ensures Inv(cfg, EvictHeads(cfg, c, victims), hh, ph) && Left(EvictHeads(cfg, c, victims)) == Left(c)
    decreases |victims|
  {
    hide Inv, Left, EvictHead;
    EvictHeadsInv(cfg, c, victims, hh, ph);
    if victims != [] {
      var n := |victims| - 1;
      EvictionsKeepLeft(cfg, c, victims[..n], hh, ph);
      EvictedOne(cfg, EvictHeads(cfg, c, victims[..n]), victims[n], hh, ph);
    }
  }

  // ---------------------------------------------------------------- reserving a head

  /** Where a head of `len` bytes may be put: an aligned range of a block that no region touches. */
  ghost predicate Placed(ram: Ram, regions: map<Rid, nat>, rid: Rid, len: nat)
    requires ram.min > 0
  {
    var x := Block(OrderOf(ram.min, len), rid.1);
    rid.0 < ram.blocks && Fits(ram.min, ram.max, x) && Untouched(ram, regions, rid.0, x)
  }

  lemma PlacedHasRoom(ram: Ram, regions: map<Rid, nat>, rid: Rid, len: nat)
    requires ram.min > 0 && Placed(ram, regions, rid, len)
    ensures Room(ram, regions, len) && rid !in regions
  {
    hide OrderOf, Fits;
    assert RangeIn(ram, regions, rid.0, len);
    assert (rid.0, rid.1) == rid;
  }

  /** Each victim had a head in its turn, and there was no room before it went. */
  ghost predicate NoRoomYet(cfg: Config, c: State, victims: seq<Digest>, len: nat)
    requires cfg.Valid()
  {
    forall i {:trigger victims[i]} :: 0 <= i < |victims| ==>
      var e := EvictHeads(cfg, c, victims[..i]);
      victims[i] in e.heads && !Room(cfg.ram, e.regions, len)
  }

  lemma NoRoomOneMore(cfg: Config, c: State, victims: seq<Digest>, d: Digest, len: nat)
    requires cfg.Valid() && NoRoomYet(cfg, c, victims, len)
    requires var e := EvictHeads(cfg, c, victims); d in e.heads && !Room(cfg.ram, e.regions, len)
    ensures NoRoomYet(cfg, c, victims + [d], len)
  {
    hide Room, EvictHeads;
    var more := victims + [d];
    forall i {:trigger more[i]} | 0 <= i < |more|
      ensures var e := EvictHeads(cfg, c, more[..i]); more[i] in e.heads && !Room(cfg.ram, e.regions, len)
    {
      if i < |victims| {
        assert more[..i] == victims[..i] && more[i] == victims[i];
      } else {
        assert more[..i] == victims;
      }
    }
  }

  /**
    What `begin_store` reserves at `c` for a head of `len` bytes: it evicts heads one by one while there is no
    room, and goes without only when no head is left to evict.
  */
  ghost predicate Reserves(cfg: Config, c: State, victims: seq<Digest>, len: nat, head: Head)
    requires cfg.Valid()
  {
    if len == 0 then victims == [] && head.NoHead?
    else
      var e := EvictHeads(cfg, c, victims);
      && NoRoomYet(cfg, c, victims, len)
      && if head.Head? then head.len == len && Placed(cfg.ram, e.regions, head.rid, len)
         else e.heads == {} && !Room(cfg.ram, e.regions, len)
  }

  /** A head is reserved if and only if there is room for it after the evictions. */
  lemma ReservesIff(cfg: Config, c: State, victims: seq<Digest>, len: nat, head: Head)
    requires cfg.Valid() && Reserves(cfg, c, victims, len, head)
    ensures head.Head? <==> len > 0 && Room(cfg.ram, EvictHeads(cfg, c, victims).regions, len)
    ensures head.Head? ==> head.len == len && head.rid !in EvictHeads(cfg, c, victims).regions
  {
    hide Placed, Room, EvictHeads;
    if head.Head? {
      PlacedHasRoom(cfg.ram, EvictHeads(cfg, c, victims).regions, head.rid, len);
    }
  }

  // ---------------------------------------------------------------- the pool

  ghost function RamOf(p: RamPool.Pool): Ram {
    Ram(p.blocks.numBlocks, p.minAlloc, p.maxOrder)
  }

  /** The ranges that the pool looks for are those that no region touches. */
  lemma PoolRoom(p: RamPool.Pool, len: nat)
    requires p.Valid()
    ensures Room(RamOf(p), p.regions, len) <==>
              exists b: nat :: b < |p.arenas| && RangeExists(p.minAlloc, p.maxOrder, p.LiveIn(b),
                                                             OrderOf(p.minAlloc, len))
  {
    hide OrderOf, Allocator.Valid, RangeExists, RangeIn, RamPool.LiveIsRegions, IsPow2, Size;
    forall b: nat | b < |p.arenas|
      ensures RangeIn(RamOf(p), p.regions, b, len) <==>
                RangeExists(p.minAlloc, p.maxOrder, p.LiveIn(b), OrderOf(p.minAlloc, len))
    {
      assert p.BlockOk(b);
      RangeInLive(RamOf(p), p.regions, b, p.LiveIn(b), len);
    }
  }

  /** A region of the pool is where it may be, among the others. */
  lemma RegionPlaced(p: RamPool.Pool, k: Rid)
    requires p.Valid() && k in p.regions
    ensures Placed(RamOf(p), p.regions - {k}, k, p.regions[k])
  {
    hide OrderOf, Size;
    assert p.BlockOk(k.0);
    var min, a := p.minAlloc, p.arenas[k.0];
    var x := Block(OrderOf(min, p.regions[k]), k.1);
    assert x in p.LiveIn(k.0) && x in a.freeBlocks + a.live;
    forall off: nat {:trigger (k.0, off) in p.regions - {k}} | (k.0, off) in p.regions - {k}
      ensures Disjoint(min, Block(OrderOf(min, p.regions[(k.0, off)]), off), x)
    {
      var y := Block(OrderOf(min, p.regions[(k.0, off)]), off);
      assert off != k.1 && y in p.LiveIn(k.0) && y in a.freeBlocks + a.live;
    }
  }

  lemma RangeInLive(ram: Ram, regions: map<Rid, nat>, b: nat, live: set<Block>, len: nat)
    requires ram.min > 0 && RamPool.LiveIsRegions(ram.min, regions, b, live)
    ensures RangeIn(ram, regions, b, len) <==> RangeExists(ram.min, ram.max, live, OrderOf(ram.min, len))
  {
    hide OrderOf, Disjoint, Fits;
    forall x: Block ensures Untouched(ram, regions, b, x) <==> forall l :: l in live ==> Disjoint(ram.min, l, x) {
      if Untouched(ram, regions, b, x) {
        forall l | l in live ensures Disjoint(ram.min, l, x) {
          assert (b, l.off) in regions;
        }
      } else {
        var off: nat :| (b, off) in regions && !Disjoint(ram.min, Block(OrderOf(ram.min, regions[(b, off)]), off), x);
        assert Block(OrderOf(ram.min, regions[(b, off)]), off) in live;
      }
    }
  }
}
