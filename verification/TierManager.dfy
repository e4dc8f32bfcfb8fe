/**
  The critical sections of the storage engine as code over its own data structures: the index, the
  buddy pool of head regions, the pins, the two S3-FIFO policies and the directory entries
  (src/goblin/storage/tier_manager.cpp). Each is proved to be the step that `Core` says it is.
*/
module TierManager {
  import opened Arith
  import opened Striping
  import opened Layout
  import opened Core
  import Engine
  import S3 = S3Fifo
  import RamPool = BufferPool
  import opened BuddyBlocks
  import opened HeadRoom

  type Digest = S3.Digest

  // ---------------------------------------------------------------- directory entries

  /** Names after the files of one tier have been renamed on the drives in `drives`. */
  ghost predicate Renamed(before: map<Name, Inode>, after: map<Name, Inode>, t: Tier, d: Digest, tmp: nat,
                          drives: set<nat>)
  {
    forall n: Name ::
      if n.tier == t && n.digest == d && n.drive in drives && n.suffix == Live then
        n in after && TmpOf(n, tmp) in before && after[n] == before[TmpOf(n, tmp)]
      else if n.tier == t && n.digest == d && n.drive in drives && n.suffix == Tmp(tmp) then n !in after
      else (n in after <==> n in before) && (n in after ==> after[n] == before[n])
  }

  /** Names after the files of one tier have been unlinked on the drives in `drives`. */
  ghost predicate Unlinked(before: map<Name, Inode>, after: map<Name, Inode>, t: Tier, d: Digest, suffix: Suffix,
                           drives: set<nat>)
  {
    forall n: Name ::
      if n.tier == t && n.digest == d && n.drive in drives && n.suffix == suffix then n !in after
      else (n in after <==> n in before) && (n in after ==> after[n] == before[n])
  }

  lemma MoreDrives(p: DrivePool, h: nat, c: nat)
    requires p.Valid()
    ensures FirstDrives(p, h, c + 1) == FirstDrives(p, h, c) + {p.DriveOfChunk(h, c)}
  {
    hide DrivePool.DriveOfChunk;
  }

  /** Among chunks of the first row, a chunk clashes with an earlier one exactly when its drive was met before. */
  lemma NewDrive(p: DrivePool, h: nat, nc: nat, c: nat)
    requires p.Valid() && c < nc <= p.n && NoClash(p, h, c)
    ensures p.DriveOfChunk(h, c) !in FirstDrives(p, h, c) <==> NoClash(p, h, c + 1)
    ensures !NoClash(p, h, c + 1) ==> !NoClash(p, h, nc)
  {
    hide DrivePool.DriveOfChunk;
    forall k: nat | k < p.n ensures k / p.n == 0 {
      DivModUnique(k, p.n, 0, k);
    }
    if p.DriveOfChunk(h, c) in FirstDrives(p, h, c) {
      var k: nat :| k < c && p.DriveOfChunk(h, k) == p.DriveOfChunk(h, c);
      assert k / p.n == c / p.n;
    }
  }

  /**
    `Pool::publish`: one rename a chunk of the first row; a missing scratch file is an error. It goes
    through exactly when those chunks are on different drives. Otherwise the second rename of one
    drive's scratch file fails, and the `done` renames before it stay.
  */
  method PublishTier(p: DrivePool, t: Tier, d: Digest, bytes: nat, tmp: nat, names: map<Name, Inode>)
    returns (ok: bool, r: map<Name, Inode>, ghost done: nat)
    requires p.Valid()
    requires forall x :: x in OpenedDrives(p, d.bucket, bytes) ==> Name(t, x, d, Tmp(tmp)) in names
    ensures ok <==> Distinct(p, d.bucket, bytes)
    ensures Renamed(names, r, t, d, tmp, FirstDrives(p, d.bucket, done))
    ensures ok ==> FirstDrives(p, d.bucket, done) == OpenedDrives(p, d.bucket, bytes)
    ensures !ok ==> 0 < done < p.FilesUsed(bytes)
  {
    hide NoClash, DrivePool.DriveOfChunk;
    r, done := names, 0;
    var used := p.FilesUsed(bytes);
    assert OpenedDrives(p, d.bucket, bytes) == FirstDrives(p, d.bucket, used);
    NoChunks(p, d.bucket);
    for c := 0 to used
      invariant done == c && Renamed(names, r, t, d, tmp, FirstDrives(p, d.bucket, c)) && NoClash(p, d.bucket, c)
    {
      var x := p.DriveOfChunk(d.bucket, c);
      NewDrive(p, d.bucket, used, c);
      MoreDrives(p, d.bucket, c);
      assert x in OpenedDrives(p, d.bucket, bytes);
      var scratch, live := Name(t, x, d, Tmp(tmp)), Name(t, x, d, Live);
      if scratch !in r {
        return false, r, c;
      }
      r := r[live := r[scratch]] - {scratch};
      done := c + 1;
    }
    ok := true;
  }

  lemma NoChunks(p: DrivePool, h: nat)
    requires p.Valid()
    ensures NoClash(p, h, 0) && FirstDrives(p, h, 0) == {}
  {
    hide DrivePool.DriveOfChunk;
  }

  /** `Pool::unlink_object`: one unlink a drive; a missing file is fine. */
  method UnlinkTier(p: DrivePool, t: Tier, d: Digest, bytes: nat, suffix: Suffix, names: map<Name, Inode>)
    returns (r: map<Name, Inode>)
    requires p.Valid()
    ensures Unlinked(names, r, t, d, suffix, OpenedDrives(p, d.bucket, bytes))
  {
    hide DrivePool.DriveOfChunk;
    r := names;
    var used := p.FilesUsed(bytes);
    assert OpenedDrives(p, d.bucket, bytes) == FirstDrives(p, d.bucket, used);
    for c := 0 to used
      invariant Unlinked(names, r, t, d, suffix, FirstDrives(p, d.bucket, c))
    {
      MoreDrives(p, d.bucket, c);
      r := r - {Name(t, p.DriveOfChunk(d.bucket, c), d, suffix)};
    }
  }

  ghost function Drives(cfg: Config, t: Tier, d: Digest, size: nat): set<nat>
    requires cfg.Valid()
  {
    OpenedDrives(cfg.PoolOf(t), d.bucket, TierBytes(cfg.LayoutOf(size), t))
  }

  lemma NameOf(cfg: Config, d: Digest, size: nat, suffix: Suffix, n: Name)
    requires cfg.Valid()
    ensures n in NamesOf(cfg, d, size, suffix) <==>
              n.digest == d && n.suffix == suffix && n.drive in Drives(cfg, n.tier, d, size)
  {
    hide OpenedDrives;
  }

  lemma RenamedAt(cfg: Config, a: map<Name, Inode>, b: map<Name, Inode>, c: map<Name, Inode>, d: Digest, size: nat,
                  tmp: nat, n: Name)
    requires cfg.Valid() && NamesOf(cfg, d, size, Tmp(tmp)) <= a.Keys
    requires Renamed(a, b, Ssd, d, tmp, Drives(cfg, Ssd, d, size))
             && Renamed(b, c, Hdd, d, tmp, Drives(cfg, Hdd, d, size))
    ensures var r := Publish(cfg, a, d, size, tmp); (n in c <==> n in r) && (n in c ==> c[n] == r[n])
  {
    NameOf(cfg, d, size, Live, n);
    NameOf(cfg, d, size, Tmp(tmp), n);
    hide NamesOf, Drives;
    if n.suffix == Live && n.digest == d && n.drive in Drives(cfg, n.tier, d, size) {
      assert n.tier == Hdd ==> TmpOf(n, tmp) in b && b[TmpOf(n, tmp)] == a[TmpOf(n, tmp)];
    }
  }

  /** Both tiers renamed is the publication of the object. */
  lemma RenamedBoth(cfg: Config, a: map<Name, Inode>, b: map<Name, Inode>, c: map<Name, Inode>, d: Digest, size: nat,
                    tmp: nat)
    requires cfg.Valid() && NamesOf(cfg, d, size, Tmp(tmp)) <= a.Keys
    requires Renamed(a, b, Ssd, d, tmp, Drives(cfg, Ssd, d, size))
             && Renamed(b, c, Hdd, d, tmp, Drives(cfg, Hdd, d, size))
    ensures c == Publish(cfg, a, d, size, tmp)
  {
    hide NamesOf, Drives, Publish, Renamed;
    var r := Publish(cfg, a, d, size, tmp);
    forall n ensures (n in c <==> n in r) && (n in c ==> c[n] == r[n]) {
      RenamedAt(cfg, a, b, c, d, size, tmp, n);
    }
  }

  lemma UnlinkedBoth(cfg: Config, a: map<Name, Inode>, b: map<Name, Inode>, c: map<Name, Inode>, d: Digest, size: nat,
                     suffix: Suffix)
    requires cfg.Valid()
    requires Unlinked(a, b, Ssd, d, suffix, Drives(cfg, Ssd, d, size))
             && Unlinked(b, c, Hdd, d, suffix, Drives(cfg, Hdd, d, size))
    ensures c == a - NamesOf(cfg, d, size, suffix)
  {
    hide NamesOf, Drives;
    var r := a - NamesOf(cfg, d, size, suffix);
    forall n ensures (n in c <==> n in r) && (n in c ==> c[n] == r[n]) {
      NameOf(cfg, d, size, suffix, n);
    }
  }

  // ---------------------------------------------------------------- the manager

  class Manager {
    const cfg: Config
    const ram: RamPool.Pool
    const heads: S3.Policy
    const objects: S3.Policy
    var index: map<Digest, Meta>
    var pins: map<Rid, Pin>
    var names: map<Name, Inode>
    var etagSeq: nat

    ghost function Repr(): set<object>
      reads this, ram
    {
      {this, ram, ram.blocks, heads, objects} + ram.Arenas()
    }

    ghost predicate Valid()
      reads this, ram, ram.blocks, ram.arenas, heads, objects
    {
      && cfg.Valid() && ram.Valid() && heads.Valid() && objects.Valid() && heads != objects
      && (heads as object) !in ram.Arenas() && (objects as object) !in ram.Arenas() && (this as object) !in ram.Arenas()
      && cfg.tiers.ramHead <= ram.blocks.blockBytes && cfg.ram == RamOf(ram)
    }

    /** What the lock guards. */
    ghost function View(): State
      reads this, ram, heads, objects
    {
      State(index, ram.regions, pins, heads.meta.Keys, objects.meta.Keys, names, etagSeq)
    }

    constructor (cfg: Config, blockBytes: nat, headCap: nat, objectCap: nat)
      requires cfg.Valid() && IsPow2(blockBytes) && Max(DEVICE_BLOCK, cfg.tiers.ramHead) <= blockBytes <= RamPool.WORD32
      requires cfg.ram.min == DEVICE_BLOCK && blockBytes == Size(DEVICE_BLOCK, cfg.ram.max)
      ensures Valid() && this.cfg == cfg && View() == State(map[], map[], map[], {}, {}, map[], 0)
    {
      DeviceBlockIsPow2();
      this.cfg := cfg;
      ram := new RamPool.Pool(cfg.ram.blocks, blockBytes, DEVICE_BLOCK);
      heads := new S3.Policy(headCap);
      objects := new S3.Policy(objectCap);
      index, pins, names, etagSeq := map[], map[], map[], 0;
      new;
      RamPool.SameOrder(DEVICE_BLOCK, ram.maxOrder, cfg.ram.max);
    }

    /** `free_head_region` */
    method FreeHeadRegion(rid: Rid, len: nat)
      requires Valid() && rid in ram.regions && ram.regions[rid] == len
      modifies this`pins, ram, ram.blocks, ram.Arenas()
      ensures Valid() && fresh(Repr() - old(Repr())) && View() == FreeRegion(old(View()), rid)
    {
      hide RamPool.Pool.Valid;
      if rid in pins && pins[rid].refcount > 0 {
        pins := pins[rid := pins[rid].(orphaned := true)];
      } else {
        ram.Deallocate(rid.0, rid.1, len);
      }
    }

    /** A resident head is freed and leaves the head policy; the entry itself is the caller's. */
    method ReleaseHead(d: Digest, head: Head)
      requires Valid() && (head.Head? ==> head.rid in ram.regions && ram.regions[head.rid] == head.len)
      modifies this`pins, ram, ram.blocks, ram.Arenas(), heads
      ensures Valid() && fresh(Repr() - old(Repr()))
      ensures View() == if head.Head? then FreeRegion(old(View()), head.rid).(heads := old(View()).heads - {d})
              else old(View())
    {
      hide RamPool.Pool.Valid, S3.Policy.Valid;
      if head.Head? {
        FreeHeadRegion(head.rid, head.len);
        heads.Remove(d);
      }
    }

    /** Unlinks the files of an object in both pools. */
    method UnlinkObject(d: Digest, size: nat, suffix: Suffix)
      requires cfg.Valid()
      modifies this`names
      ensures names == old(names) - NamesOf(cfg, d, size, suffix)
    {
      hide NamesOf;
      var l := cfg.LayoutOf(size);
      var n1 := UnlinkTier(cfg.ssdPool, Ssd, d, l.ssdBytes, suffix, names);
      var n2 := UnlinkTier(cfg.hddPool, Hdd, d, l.hddBytes, suffix, n1);
      UnlinkedBoth(cfg, names, n1, n2, d, size, suffix);
      names := n2;
    }

    /** `drop_object` */
    method DropOne(d: Digest, ghost hh: map<nat, Head>, ghost ph: map<nat, Rid>)
      requires Valid() && Owned(View(), hh, ph)
      modifies Repr()
      ensures Valid() && fresh(Repr() - old(Repr())) && View() == DropObject(cfg, old(View()), d)
    {
      hide RamPool.Pool.Valid, S3.Policy.Valid, Owned, NamesOf;
      if d !in index {
        return;
      }
      var m := index[d];
      OwnsHead(View(), d, hh, ph);
      ReleaseHead(d, m.head);
      objects.Remove(d);
      UnlinkObject(d, m.size, Live);
      index := index - {d};
      assert old(index)[d := m.(head := NoHead)] - {d} == index;
    }

    /** `remove`: true exactly when the object was there. */
    method Remove(d: Digest, ghost hh: map<nat, Head>, ghost ph: map<nat, Rid>) returns (found: bool)
      requires Valid() && Inv(cfg, View(), hh, ph)
      modifies Repr()
      ensures Valid() && fresh(Repr() - old(Repr())) && Inv(cfg, View(), hh, ph)
      ensures found == (d in old(index)) && View() == DropObject(cfg, old(View()), d) && d !in index
      ensures found ==> NamesOf(cfg, d, old(index)[d].size, Live) !! names.Keys
      ensures forall n :: n in old(names) && n !in names ==> n.digest == d && n.suffix == Live
    {
      hide RamPool.Pool.Valid, S3.Policy.Valid, Owned, NamesOf;
      DropObjectInv(cfg, View(), d, hh, ph);
      found := d in index;
      if found {
        NamesAreOwn(cfg, d, index[d].size, Live);
        DropOne(d, hh, ph);
      }
    }

    /** `touch_ttl`: a key that is there gets the new time, and nothing else changes. */
    method TouchTtl(d: Digest, expiry: nat) returns (found: bool)
      requires Valid()
      modifies this`index
      ensures Valid() && Repr() == old(Repr())
      ensures found == (d in old(index)) && View() == if found then Touched(old(View()), d, expiry) else old(View())
    {
      hide RamPool.Pool.Valid, S3.Policy.Valid;
      found := d in index;
      if found {
        index := index[d := index[d].(expiry := expiry)];
      }
    }

    /**
      The sweep with nobody in between: exactly the keys whose time is up are gone, and the others are as they
      were.
    */
    method ReapExpired(now: nat, ghost hh: map<nat, Head>, ghost ph: map<nat, Rid>) returns (n: nat)
      requires Valid() && Inv(cfg, View(), hh, ph)
      modifies Repr()
      ensures Valid() && fresh(Repr() - old(Repr())) && Inv(cfg, View(), hh, ph)
      ensures index == map d | d in old(index) && (old(index)[d].expiry == 0 || now < old(index)[d].expiry)
                       :: old(index)[d]
      ensures n == |old(index)| - |index|
    {
      hide RamPool.Pool.Valid, S3.Policy.Valid, Inv, DropObject, NamesOf;
      var keys := set d | d in index && Expired(index[d], now);
      n := 0;
      ghost var was := index;
      while keys != {}
        invariant Valid() && fresh(Repr() - old(Repr())) && Inv(cfg, View(), hh, ph)
        invariant keys <= index.Keys && (forall d :: d in keys ==> Expired(index[d], now))
        invariant index.Keys <= was.Keys && (forall d :: d in index ==> index[d] == was[d])
        invariant forall d :: d in was && d !in index ==> Expired(was[d], now)
        invariant forall d :: d in index && Expired(index[d], now) ==> d in keys
        invariant n == |was| - |index|
        decreases |keys|
      {
        var d :| d in keys;
        ghost var before := index;
        DropIndex(cfg, View(), d);
        var found := Remove(d, hh, ph);
        assert index == before - {d};
        Fewer(before, index, d);
        keys := keys - {d};
        n := n + 1;
      }
    }

    /** One turn of the object-bound loop: the policy has a victim whenever something is indexed. */
    method EvictObject(ghost hh: map<nat, Head>, ghost ph: map<nat, Rid>) returns (victim: Option<Digest>)
      requires Valid() && Inv(cfg, View(), hh, ph)
      modifies Repr()
      ensures Valid() && fresh(Repr() - old(Repr())) && Inv(cfg, View(), hh, ph)
      ensures victim.None? <==> old(index) == map[]
      ensures victim.None? ==> View() == old(View())
      ensures victim.Some? ==>
                var d, c := victim.value, old(View());
                View() == DropObject(cfg, c.(objects := c.objects - {d}), d) && d in c.index
                  && index.Keys == c.index.Keys - {d}
    {
      hide RamPool.Pool.Valid, S3.Policy.Valid, Owned, NamesOf, DropObject, HeadSizes, S3.Evicted, S3.StayAsTheyAre,
           S3.SomeUnvisited;
      ghost var c := View();
      victim := objects.Evict();
      if victim.None? {
        return;
      }
      DropObjectInv(cfg, c, victim.value, hh, ph);
      OwnedPolicies(c, View(), hh, ph);
      DropOne(victim.value, hh, ph);
    }

    /**
      `enforce_object_bound`: evicts whole objects while there are too many. It stops at the bound,
      because the object policy tracks exactly the indexed objects.
    */
    method EnforceObjectBound(ghost hh: map<nat, Head>, ghost ph: map<nat, Rid>) returns (ghost victims: seq<Digest>)
      requires Valid() && Inv(cfg, View(), hh, ph)
      modifies Repr()
      ensures Valid() && fresh(Repr() - old(Repr())) && Inv(cfg, View(), hh, ph)
      ensures View() == DropObjects(cfg, old(View()), victims)
      ensures cfg.maxObjects != 0 ==> |index| <= cfg.maxObjects
      ensures cfg.maxObjects == 0 ==> victims == []
    {
      hide RamPool.Pool.Valid, S3.Policy.Valid, Inv, DropObject;
      victims := [];
      while cfg.maxObjects != 0 && |index| > cfg.maxObjects
        invariant Valid() && fresh(Repr() - old(Repr())) && Inv(cfg, View(), hh, ph)
        invariant View() == DropObjects(cfg, old(View()), victims)
        invariant cfg.maxObjects == 0 ==> victims == []
        decreases |index|
      {
        ghost var was := index;
        var victim := EvictObject(hh, ph);
        if victim.None? {
          break;
        }
        Fewer(was, index, victim.value);
        assert (victims + [victim.value])[..|victims|] == victims;
        victims := victims + [victim.value];
      }
    }

    /** The head policy's next victim leaves the policy, and nothing else changes. */
    method NextHead() returns (victim: Option<Digest>)
      requires Valid()
      modifies heads
      ensures Valid() && Repr() == old(Repr())
      ensures victim.None? <==> old(View()).heads == {}
      ensures victim.None? ==> View() == old(View())
      ensures victim.Some? ==>
                && victim.value in old(View()).heads
                && View() == old(View()).(heads := old(View()).heads - {victim.value})
    {
      hide RamPool.Pool.Valid, S3.Policy.Valid, S3.Evicted, S3.StayAsTheyAre, S3.SomeUnvisited, S3.Remember,
           S3.Remembered;
      victim := heads.Evict();
    }

    /** One turn of the head-eviction loop of `begin_store`. */
    method EvictOneHead(ghost hh: map<nat, Head>, ghost ph: map<nat, Rid>) returns (victim: Option<Digest>)
      requires Valid() && Inv(cfg, View(), hh, ph)
      modifies Repr()
      ensures Valid() && fresh(Repr() - old(Repr())) && Inv(cfg, View(), hh, ph)
      ensures victim.None? <==> old(View()).heads == {}
      ensures victim.None? ==> View() == old(View())
      ensures victim.Some? ==> victim.value in old(View()).heads && View() == EvictHead(cfg, old(View()), victim.value)
      ensures victim.Some? ==> |View().heads| < |old(View()).heads|
    {
      hide RamPool.Pool.Valid, S3.Policy.Valid, Owned, HeadSizes, EvictHead, Shrinks;
      ghost var c := View();
      victim := NextHead();
      if victim.None? {
        return;
      }
      var d := victim.value;
      EvictHeadInv(cfg, c, d, hh, ph);
      OwnsHead(c, d, hh, ph);
      EvictHeadHeads(cfg, c, d);
      EvictEntry(d, c);
    }

    /** What `begin_store` does with the victim the head policy has just given up. */
    method EvictEntry(d: Digest, ghost c: State)
      requires Valid() && View() == c.(heads := c.heads - {d})
      requires d in c.index && c.index[d].head.Head? ==>
                 c.index[d].head.rid in c.regions && c.regions[c.index[d].head.rid] == c.index[d].head.len
      modifies this`pins, this`index, ram, ram.blocks, ram.Arenas(), objects
      ensures Valid() && fresh(Repr() - old(Repr())) && View() == EvictHead(cfg, c, d)
    {
      hide RamPool.Pool.Valid, S3.Policy.Valid;
      if d in index && index[d].head.Head? {
        var m := index[d];
        FreeHeadRegion(m.head.rid, m.head.len);
        if m.size <= cfg.tiers.ramHead {
          objects.Remove(d);
          index := index - {d};
          assert c.index[d := m.(head := NoHead)] - {d} == index;
        } else {
          index := index[d := m.(head := NoHead)];
        }
      }
    }

    /** There is a head to reserve, and room for it once every head is evicted. */
    ghost predicate HeadRoomFor(size: nat, c: State)
      requires cfg.Valid()
    {
      var len := Min(size, cfg.tiers.ramHead);
      len > 0 && Room(cfg.ram, Left(c), len)
    }

    /**
      The RAM part of `begin_store`: reserves a head, evicting cold heads until it fits or none is
      left. Only evictions and the reservation happen.
    */
    method ReserveHead(size: nat, ghost hh: map<nat, Head>, ghost ph: map<nat, Rid>) returns (head: Head,
                         ghost victims: seq<Digest>)
      requires Valid() && Inv(cfg, View(), hh, ph)
      modifies Repr()
      ensures Valid() && fresh(Repr() - old(Repr()))
      ensures var c := EvictHeads(cfg, old(View()), victims);
              Inv(cfg, c, hh, ph) && Held(c, View(), head)
      ensures Reserves(cfg, old(View()), victims, Min(size, cfg.tiers.ramHead), head)
      ensures head.Head? <==> HeadRoomFor(size, old(View()))
    {
      hide Inv, EvictHead, EvictHeads, Room, Left, Held, Reserves, RamPool.Pool.Valid, S3.Policy.Valid;
      var len := Min(size, cfg.tiers.ramHead);
      if len == 0 {
        EvictingNothing(cfg, View(), len);
        return NoHead, [];
      }
      head, victims := AllocateEvicting(len, hh, ph);
    }

    /** Allocates `len` bytes, evicting heads until they fit or no head is left. */
    method AllocateEvicting(len: nat, ghost hh: map<nat, Head>, ghost ph: map<nat, Rid>)
      returns (head: Head, ghost victims: seq<Digest>)
      requires cfg.Valid() && Valid() && Inv(cfg, View(), hh, ph) && 0 < len <= ram.blocks.blockBytes
      modifies Repr()
      ensures Valid() && fresh(Repr() - old(Repr()))
      ensures var c := EvictHeads(cfg, old(View()), victims);
              Inv(cfg, c, hh, ph) && Held(c, View(), head)
      ensures Reserves(cfg, old(View()), victims, len, head)
      ensures head.Head? <==> Room(cfg.ram, Left(old(View())), len)
    {
      hide Valid, View, Inv, EvictHeads, Room, Left, Held, Reserves, Evicting;
      ghost var c := View();
      victims := [];
      head := TryAllocate(len);
      EvictingStart(cfg, c, View(), head, len, hh, ph);
      if head.NoHead? {
        head, victims := EvictUntilRoom(len, c, hh, ph);
      }
      EvictingEnd(cfg, c, victims, View(), head, len, hh, ph);
    }

    /** The loop: heads go one by one until there is room for `len` bytes or no head is left. */
    method EvictUntilRoom(len: nat, ghost c0: State, ghost hh: map<nat, Head>, ghost ph: map<nat, Rid>)
      returns (head: Head, ghost victims: seq<Digest>)
      requires cfg.Valid() && Valid() && 0 < len <= ram.blocks.blockBytes
               && Evicting(cfg, c0, [], View(), NoHead, len, hh, ph)
      modifies Repr()
      ensures Valid() && fresh(Repr() - old(Repr()))
      ensures Evicting(cfg, c0, victims, View(), head, len, hh, ph) && (head.Head? || View().heads == {})
    {
      hide Valid, Repr, View, Evicting;
      head, victims := NoHead, [];
      ghost var born: set<object> := {};
      var more := true;
      while more
        invariant Repr() <= old(Repr()) + born && fresh(born)
        invariant Valid() && Evicting(cfg, c0, victims, View(), head, len, hh, ph)
        invariant if more then head.NoHead? else head.Head? || View().heads == {}
        decreases more, |View().heads|
      {
        ghost var repr := Repr();
        label turn:
        var victim;
        victim, head := EvictAndRetry(len, c0, victims, hh, ph);
        forall o | o in Repr() - repr ensures fresh(o) {
          assert fresh@turn(o);
        }
        born := born + (Repr() - repr);
        if victim.Some? {
          victims := victims + [victim.value];
        }
        more := victim.Some? && head.NoHead?;
      }
    }

    /** One turn of the loop: a head goes, and its room is tried; without a head to evict nothing changes. */
    method EvictAndRetry(len: nat, ghost c0: State, ghost victims: seq<Digest>, ghost hh: map<nat, Head>,
                         ghost ph: map<nat, Rid>)
      returns (victim: Option<Digest>, head: Head)
      requires Valid() && 0 < len <= ram.blocks.blockBytes
      requires Evicting(cfg, c0, victims, View(), NoHead, len, hh, ph)
      modifies Repr()
      ensures Valid() && fresh(Repr() - old(Repr()))
      ensures victim.None? ==> head.NoHead? && View() == old(View()) && View().heads == {}
      ensures victim.Some? ==>
                && Evicting(cfg, c0, victims + [victim.value], View(), head, len, hh, ph)
                && |View().heads| < |old(View()).heads|
    {
      hide RamPool.Pool.Valid, S3.Policy.Valid, Inv, EvictHead, EvictHeads, Room, Left, FreeRegion, Held, Placed,
           Evicting;
      ghost var c := View();
      EvictingNow(cfg, c0, victims, c, len, hh, ph);
      victim := EvictOneHead(hh, ph);
      head := NoHead;
      if victim.None? {
        return;
      }
      EvictedOne(cfg, c, victim.value, hh, ph);
      head := TryAllocate(len);
      EvictingNext(cfg, c0, victims, c, victim.value, View(), head, len, hh, ph);
    }

    /** `ram_.allocate`, seen through the view. */
    method TryAllocate(len: nat) returns (head: Head)
      requires Valid() && len > 0
      modifies ram, ram.blocks, ram.Arenas()
      ensures Valid() && fresh(Repr() - old(Repr())) && Held(old(View()), View(), head)
      ensures head.Head? ==> head.len == len && Placed(cfg.ram, old(View()).regions, head.rid, len)
      ensures len <= ram.blocks.blockBytes ==> (head.Head? <==> Room(cfg.ram, old(View()).regions, len))
    {
      PoolRoom(ram, len);
      hide RamPool.Pool.Valid, S3.Policy.Valid, Room, Placed;
      var region := ram.Allocate(len);
      if region.None? {
        return NoHead;
      }
      head := Head((region.value.block, region.value.offset), len);
      RegionPlaced(ram, head.rid);
      assert ram.regions - {head.rid} == old(ram.regions);
    }

    /** `begin_store` under the lock: `None` is backpressure, for want of a staging buffer or of RAM. */
    method BeginStore(size: nat, stageFree: bool, ghost hh: map<nat, Head>, ghost ph: map<nat, Rid>)
      returns (r: Option<Head>, ghost victims: seq<Digest>)
      requires Valid() && Inv(cfg, View(), hh, ph)
      modifies Repr()
      ensures Valid() && fresh(Repr() - old(Repr()))
      ensures var c := EvictHeads(cfg, old(View()), victims);
              Inv(cfg, c, hh, ph) && Held(c, View(), if r.Some? then r.value else NoHead)
      ensures r.Some? ==> HeadFits(cfg, size, r.value) && (r.value.Head? <==> HeadRoomFor(size, old(View())))
      ensures r.Some? ==> Reserves(cfg, old(View()), victims, Min(size, cfg.tiers.ramHead), r.value)
      ensures r.None? ==> Engine.MayBlock(cfg, old(View()), size, victims)
      ensures r.None? <==> !stageFree || (0 < size <= cfg.tiers.ramHead && !HeadRoomFor(size, old(View())))
    {
      hide RamPool.Pool.Valid, S3.Policy.Valid, Inv, EvictHead;
      victims := [];
      if !stageFree {
        return None, [];
      }
      var head;
      head, victims := ReserveHead(size, hh, ph);
      var l := cfg.LayoutOf(size);
      if Min(size, cfg.tiers.ramHead) > 0 && l.ssdBytes == 0 && head.NoHead? {
        return None, victims;
      }
      r := Some(head);
    }

    /** `abort_uncommitted`: the reserved region and the scratch names go. */
    method AbortUncommitted(d: Digest, size: nat, tmp: nat, head: Head)
      requires Valid() && (head.Head? ==> head.rid in ram.regions && ram.regions[head.rid] == head.len)
      modifies this`names, ram, ram.blocks, ram.Arenas()
      ensures Valid() && fresh(Repr() - old(Repr()))
      ensures var c := old(View());
              View() == c.(regions := if head.Head? then c.regions - {head.rid} else c.regions,
                           names := c.names - NamesOf(cfg, d, size, Tmp(tmp)))
    {
      hide RamPool.Pool.Valid, S3.Policy.Valid, NamesOf;
      if head.Head? {
        ram.Deallocate(head.rid.0, head.rid.1, head.len);
      }
      UnlinkObject(d, size, Tmp(tmp));
    }

    /**
      The renames of commit, in both pools. They all go through exactly when in each pool the chunks that
      name the files are on different drives; if not, those before the failing one stay.
    */
    method PublishFiles(d: Digest, size: nat, tmp: nat) returns (ok: bool)
      requires cfg.Valid() && NamesOf(cfg, d, size, Tmp(tmp)) <= names.Keys
      modifies this`names
      ensures ok <==> Publishable(cfg, d, size)
      ensures ok ==> names == Publish(cfg, old(names), d, size, tmp)
      ensures !ok ==> HalfPublished(cfg, old(names), names, d, size, tmp)
    {
      hide NamesOf, Distinct, Publish, OpenedDrives, Renamed;
      var l := cfg.LayoutOf(size);
      ScratchExists(cfg, names, d, size, tmp);
      var n1, n2;
      ghost var s, h;
      ok, n1, s := PublishTier(cfg.ssdPool, Ssd, d, l.ssdBytes, tmp, names);
      if !ok {
        NothingRenamed(n1, d, tmp, cfg.hddPool);
        assert Halfway(cfg, names, n1, n1, d, size, tmp, s, 0);
        names := n1;
        return;
      }
      RenameKeepsOther(names, n1, Ssd, Hdd, d, tmp, Drives(cfg, Ssd, d, size), Drives(cfg, Hdd, d, size));
      ok, n2, h := PublishTier(cfg.hddPool, Hdd, d, l.hddBytes, tmp, n1);
      if !ok {
        assert Halfway(cfg, names, n1, n2, d, size, tmp, s, h);
        names := n2;
        return;
      }
      RenamedBoth(cfg, names, n1, n2, d, size, tmp);
      names := n2;
    }

    /** The rest of publication: the old head is retired, the new entry set, the policies told. */
    method InstallEntry(d: Digest, size: nat, head: Head, flags: nat, expiry: nat)
      requires Valid()
      requires d in index && index[d].head.Head? ==>
                 index[d].head.rid in ram.regions && ram.regions[index[d].head.rid] == index[d].head.len
      modifies Repr()
      ensures Valid() && fresh(Repr() - old(Repr()))
      ensures var c := old(View());
              View() == Enter(if d in c.index then RetireHead(c, d)
                              else c, d, Meta(size, flags, expiry, c.etagSeq + 1, head))
    {
      hide RamPool.Pool.Valid, S3.Policy.Valid, FreeRegion;
      var known := d in index;
      if known {
        ReleaseHead(d, index[d].head);
        FreeRegionKeeps(old(View()), old(index)[d].head);
      }
      etagSeq := etagSeq + 1;
      index := index[d := Meta(size, flags, expiry, etagSeq, head)];
      assert known ==> old(index)[d := old(index)[d].(head := NoHead)][d := index[d]] == index;
      TellPolicies(d, head.Head?, !known);
    }

    /**
      A published object is inserted into the head policy if it has a head, and into the object policy if it is
      new.
    */
    method TellPolicies(d: Digest, hasHead: bool, isNew: bool)
      requires Valid()
      modifies heads, objects
      ensures Valid()
      ensures heads.meta.Keys == if hasHead then old(heads.meta).Keys + {d} else old(heads.meta).Keys
      ensures objects.meta.Keys == if isNew then old(objects.meta).Keys + {d} else old(objects.meta).Keys
    {
      hide RamPool.Pool.Valid, S3.Policy.Valid;
      if hasHead {
        heads.Insert(d);
      }
      if isNew {
        objects.Insert(d);
      }
    }

    /**
      `commit` under the lock. It publishes exactly when the compare-and-swap test passes and the renames
      go through; then the state is the publication followed by the evictions of the object bound, and
      the bound holds. A failing test changes nothing, a failing rename leaves the names half way.
    */
    method Commit(d: Digest, size: nat, tmp: nat, head: Head, flags: nat, expiry: nat, cas: nat, now: nat,
                  ghost hid: nat, ghost hh: map<nat, Head>, ghost ph: map<nat, Rid>)
      returns (ok: bool, ghost victims: seq<Digest>)
      requires Valid() && Inv(cfg, View(), hh, ph) && hid in hh && hh[hid] == head && HeadFits(cfg, size, head)
      requires NamesOf(cfg, d, size, Tmp(tmp)) <= names.Keys
      modifies Repr()
      ensures Valid() && fresh(Repr() - old(Repr()))
      ensures var swaps :=
                cas == 0
                || (d in old(index) && old(index)[d].etag == cas
                    && (old(index)[d].expiry == 0 || now < old(index)[d].expiry));
              && (ok <==> swaps && Publishable(cfg, d, size))
              && (!swaps ==> names == old(names))
              && (swaps && !ok ==> HalfPublished(cfg, old(names), names, d, size, tmp))
      ensures !ok ==> View() == old(View()).(names := names)
      ensures ok ==> View() == DropObjects(cfg, Publication(cfg, old(View()), d, size, tmp, head, flags, expiry),
                                           victims)
      ensures ok ==> Inv(cfg, View(), hh - {hid}, ph)
      ensures ok && cfg.maxObjects != 0 ==> |index| <= cfg.maxObjects
    {
      hide RamPool.Pool.Valid, S3.Policy.Valid, NamesOf, Publishable, HalfPublished, Publish, Owned, Enter, RetireHead,
           DropObjects, HeadSizes, PoliciesAgree, HeadFits;
      victims := [];
      if cas != 0 && (d !in index || Expired(index[d], now) || index[d].etag != cas) {
        return false, [];
      }
      PublicationInv(cfg, View(), d, size, tmp, flags, expiry, hid, hh, ph);
      if d in index {
        OwnsHead(View(), d, hh, ph);
      }
      ok := PublishFiles(d, size, tmp);
      if !ok {
        return;
      }
      InstallEntry(d, size, head, flags, expiry);
      victims := EnforceObjectBound(hh - {hid}, ph);
    }

    /** `Pool::open_object` for reading: fails if any file is missing. */
    method OpenObject(t: Tier, d: Digest, bytes: nat) returns (r: Option<Engine.Fds>)
      requires cfg.Valid()
      ensures r.Some? <==> forall x :: x in OpenedDrives(cfg.PoolOf(t), d.bucket, bytes) ==>
                Name(t, x, d, Live) in names
      ensures r.Some? ==> r.value == Engine.LiveFds(cfg, names, t, d, bytes)
    {
      hide DrivePool.DriveOfChunk;
      var p := cfg.PoolOf(t);
      var fds: Engine.Fds := map[];
      var used := p.FilesUsed(bytes);
      assert OpenedDrives(p, d.bucket, bytes) == FirstDrives(p, d.bucket, used);
      for c := 0 to used
        invariant fds.Keys == FirstDrives(p, d.bucket, c)
        invariant forall x :: x in fds ==> Name(t, x, d, Live) in names && fds[x] == names[Name(t, x, d, Live)]
      {
        MoreDrives(p, d.bucket, c);
        var x := p.DriveOfChunk(d.bucket, c);
        if x !in fds {
          if Name(t, x, d, Live) !in names {
            assert x in FirstDrives(p, d.bucket, used);
            return None;
          }
          fds := fds[x := names[Name(t, x, d, Live)]];
        }
      }
      r := Some(fds);
    }

    /**
      `open_snapshot`: a miss exactly when the object is absent, expired, or has a tail behind its head and a
      file of it is missing. A hit captures entry, files and pin in one step; only the pin shows in what the
      lock guards. An object that is there has been visited, and so has the head that is pinned.
    */
    method OpenSnapshot(d: Digest, now: nat) returns (r: Option<Engine.Reader>)
      requires Valid()
      modifies this`pins, heads, objects
      ensures Valid() && Repr() == old(Repr())
      ensures r.None? ==> View() == old(View())
      ensures r.Some? ==>
                && d in old(index)
                && r.value == Engine.SnapshotReader(cfg, old(View()), d) && View() == Engine.Pinned(old(View()), d)
      ensures r.Some? <==>
              && d in old(index) && (old(index)[d].expiry == 0 || now < old(index)[d].expiry)
              && TailThere(cfg, names, d, old(index)[d])
      ensures objects.meta == if d in index && (index[d].expiry == 0 || now < index[d].expiry)
              then Visited(old(objects.meta), d)
              else old(objects.meta)
      ensures heads.meta == if r.Some? && index[d].head.Head? then Visited(old(heads.meta), d) else old(heads.meta)
    {
      hide RamPool.Pool.Valid, S3.Policy.Valid, Engine.LiveFds, Engine.Pinned, FilesThere;
      if d !in index || Expired(index[d], now) {
        return None;
      }
      var m := index[d];
      objects.Touch(d);
      assert objects.meta.Keys == old(objects.meta).Keys;
      var ok, ssd, hdd := OpenTail(d, m.size, if m.head.Head? then m.head.len else 0);
      if !ok {
        return None;
      }
      PinHeadOf(d);
      r := Some(Engine.Reader(d, m, m.head.Head?, [], ssd, hdd));
    }

    /** The files of an object that its head does not cover. */
    method OpenTail(d: Digest, size: nat, headLen: nat) returns (ok: bool, ssd: Option<Engine.Fds>,
                                                                 hdd: Option<Engine.Fds>)
      requires cfg.Valid()
      ensures ok <==> (size > headLen ==> FilesThere(cfg, names, d, size))
      ensures ok ==> ssd == if size > headLen then Some(Engine.LiveFds(cfg, names, Ssd, d, cfg.LayoutOf(size).ssdBytes))
              else None
      ensures ok ==> hdd == if size > headLen && cfg.LayoutOf(size).hddBytes > 0
                            then Some(Engine.LiveFds(cfg, names, Hdd, d, cfg.LayoutOf(size).hddBytes)) else None
    {
      hide Engine.LiveFds, OpenedDrives, NamesOf;
      ok, ssd, hdd := true, None, None;
      if size > headLen {
        var l := cfg.LayoutOf(size);
        ThereIff(cfg, names, d, size);
        ssd := OpenObject(Ssd, d, l.ssdBytes);
        if ssd.None? {
          return false, ssd, hdd;
        }
        if l.hddBytes > 0 {
          hdd := OpenObject(Hdd, d, l.hddBytes);
          ok := hdd.Some?;
        }
      }
    }

    /** Pins the resident head of an indexed object and records the hit. */
    method PinHeadOf(d: Digest)
      requires Valid() && d in index
      modifies this`pins, heads
      ensures Valid() && Repr() == old(Repr()) && View() == Engine.Pinned(old(View()), d)
      ensures heads.meta == if index[d].head.Head? then Visited(old(heads.meta), d) else old(heads.meta)
    {
      hide RamPool.Pool.Valid, S3.Policy.Valid;
      var head := index[d].head;
      if head.Head? {
        heads.Touch(d);
        pins := pins[head.rid := if head.rid in pins
                     then pins[head.rid].(len := head.len, refcount := pins[head.rid].refcount + 1)
                                 else Pin(head.len, 1, false)];
      }
    }

    /** `unpin_head` */
    method UnpinHead(rid: Rid, len: nat)
      requires Valid() && (rid in pins && pins[rid].orphaned ==> rid in ram.regions && ram.regions[rid] == len)
      requires rid in pins ==> pins[rid].refcount > 0
      modifies this`pins, ram, ram.blocks, ram.Arenas()
      ensures Valid() && fresh(Repr() - old(Repr())) && View() == UnpinRegion(old(View()), rid)
    {
      hide RamPool.Pool.Valid, S3.Policy.Valid;
      if rid !in pins {
        return;
      }
      var p := pins[rid].(refcount := pins[rid].refcount - 1);
      pins := pins[rid := p];
      if p.refcount == 0 {
        if p.orphaned {
          ram.Deallocate(rid.0, rid.1, len);
        }
        pins := pins - {rid};
        assert pins == old(pins) - {rid};
      }
    }
  }

  /** The first `s` renames of the SSD pool and the first `h` of the HDD pool are done, and not all. */
  ghost predicate Halfway(cfg: Config, before: map<Name, Inode>, mid: map<Name, Inode>, after: map<Name, Inode>,
                          d: Digest, size: nat, tmp: nat,
                          s: nat, h: nat)
    requires cfg.Valid()
  {
    var l := cfg.LayoutOf(size);
    && Renamed(before, mid, Ssd, d, tmp, FirstDrives(cfg.ssdPool, d.bucket, s))
    && Renamed(mid, after, Hdd, d, tmp, FirstDrives(cfg.hddPool, d.bucket, h))
    && (0 < s < cfg.ssdPool.FilesUsed(l.ssdBytes) || 0 < h < cfg.hddPool.FilesUsed(l.hddBytes))
  }

  ghost predicate HalfPublished(cfg: Config, before: map<Name, Inode>, after: map<Name, Inode>, d: Digest, size: nat,
                                tmp: nat)
    requires cfg.Valid()
  {
    exists mid, s, h :: Halfway(cfg, before, mid, after, d, size, tmp, s, h)
  }

  lemma NothingRenamed(names: map<Name, Inode>, d: Digest, tmp: nat, p: DrivePool)
    requires p.Valid()
    ensures Renamed(names, names, Hdd, d, tmp, FirstDrives(p, d.bucket, 0))
  {
    NoChunks(p, d.bucket);
  }

  ghost predicate FilesThere(cfg: Config, names: map<Name, Inode>, d: Digest, size: nat)
    requires cfg.Valid()
  {
    NamesOf(cfg, d, size, Live) <= names.Keys
  }

  /** What of an object its head does not cover is on disk. */
  ghost predicate TailThere(cfg: Config, names: map<Name, Inode>, d: Digest, m: Meta)
    requires cfg.Valid()
  {
    m.size > (if m.head.Head? then m.head.len else 0) ==> FilesThere(cfg, names, d, m.size)
  }

  lemma ThereIff(cfg: Config, names: map<Name, Inode>, d: Digest, size: nat)
    requires cfg.Valid()
    ensures FilesThere(cfg, names, d, size) <==>
              && (forall x :: x in Drives(cfg, Ssd, d, size) ==> Name(Ssd, x, d, Live) in names)
              && (forall x :: x in Drives(cfg, Hdd, d, size) ==> Name(Hdd, x, d, Live) in names)
    ensures cfg.LayoutOf(size).hddBytes == 0 ==> Drives(cfg, Hdd, d, size) == {}
  {
    hide NamesOf, Drives;
    forall n: Name ensures n in NamesOf(cfg, d, size, Live) <==>
        n.digest == d && n.suffix == Live && n.drive in Drives(cfg, n.tier, d, size) {
      NameOf(cfg, d, size, Live, n);
    }
    if FilesThere(cfg, names, d, size) {
      forall t: Tier, x | x in Drives(cfg, t, d, size) ensures Name(t, x, d, Live) in names {
        assert Name(t, x, d, Live) in NamesOf(cfg, d, size, Live);
      }
    } else {
      var n :| n in NamesOf(cfg, d, size, Live) && n !in names;
      if n.tier == Ssd {
        assert n.drive in Drives(cfg, Ssd, d, size) && n == Name(Ssd, n.drive, d, Live);
      } else {
        assert n.drive in Drives(cfg, Hdd, d, size) && n == Name(Hdd, n.drive, d, Live);
      }
    }
    NoTail(cfg, d, size);
  }

  lemma NoTail(cfg: Config, d: Digest, size: nat)
    requires cfg.Valid()
    ensures cfg.LayoutOf(size).hddBytes == 0 ==> Drives(cfg, Hdd, d, size) == {}
  {
    hide DrivePool.DriveOfChunk;
    NoChunks(cfg.hddPool, d.bucket);
  }

  /** The visited bit of a resident is set. */
  function Visited(meta: map<Digest, S3.Entry>, d: Digest): map<Digest, S3.Entry> {
    if d in meta then meta[d := meta[d].(visited := true)] else meta
  }

  lemma FreeRegionKeeps(c: State, head: Head)
    ensures head.Head? ==>
              var c' := FreeRegion(c, head.rid);
              c'.index == c.index && c'.heads == c.heads && c'.objects == c.objects && c'.names == c.names
                && c'.etagSeq == c.etagSeq
  {
  }

  /** `c'` is `c` with the region of `head`, if that is one. */
  ghost predicate Held(c: State, c': State, head: Head)
  {
    match head
    case NoHead => c' == c
    case Head(rid, len) => rid !in c.regions && c' == c.(regions := c.regions[rid := len])
  }

  lemma ScratchExists(cfg: Config, names: map<Name, Inode>, d: Digest, size: nat, tmp: nat)
    requires cfg.Valid() && NamesOf(cfg, d, size, Tmp(tmp)) <= names.Keys
    ensures forall t: Tier, x :: x in Drives(cfg, t, d, size) ==> Name(t, x, d, Tmp(tmp)) in names
  {
    hide OpenedDrives;
    forall t: Tier, x | x in Drives(cfg, t, d, size) ensures Name(t, x, d, Tmp(tmp)) in names {
      NameOf(cfg, d, size, Tmp(tmp), Name(t, x, d, Tmp(tmp)));
    }
  }

  lemma RenameKeepsOther(a: map<Name, Inode>, b: map<Name, Inode>, t: Tier, u: Tier, d: Digest, tmp: nat,
                         drives: set<nat>, others: set<nat>)
    requires t != u && Renamed(a, b, t, d, tmp, drives) && forall x :: x in others ==> Name(u, x, d, Tmp(tmp)) in a
    ensures forall x :: x in others ==> Name(u, x, d, Tmp(tmp)) in b
  {
  }

  /** The head-eviction loop: `victims` are gone from `c0`, and `head` is what could be reserved then. */
  ghost predicate Evicting(cfg: Config, c0: State, victims: seq<Digest>, now: State, head: Head, len: nat,
                           hh: map<nat, Head>, ph: map<nat, Rid>)
    requires cfg.Valid()
  {
    var c := EvictHeads(cfg, c0, victims);
    && Inv(cfg, c, hh, ph) && Held(c, now, head) && Left(c) == Left(c0) && NoRoomYet(cfg, c0, victims, len)
    && (head.Head? ==> head.len == len && Placed(cfg.ram, c.regions, head.rid, len))
    && (head.Head? <==> Room(cfg.ram, c.regions, len))
  }

  lemma EvictingStart(cfg: Config, c0: State, now: State, head: Head, len: nat, hh: map<nat, Head>, ph: map<nat, Rid>)
    requires cfg.Valid() && Inv(cfg, c0, hh, ph) && Held(c0, now, head)
             && (head.Head? <==> Room(cfg.ram, c0.regions, len))
    requires head.Head? ==> head.len == len && Placed(cfg.ram, c0.regions, head.rid, len)
    ensures Evicting(cfg, c0, [], now, head, len, hh, ph)
  {
    hide Inv, Left, Room, Placed;
  }

  lemma EvictingNothing(cfg: Config, c: State, len: nat)
    requires cfg.Valid()
    ensures EvictHeads(cfg, c, []) == c && Held(c, c, NoHead) && (len == 0 ==> Reserves(cfg, c, [], len, NoHead))
  {
  }

  lemma EvictingNow(cfg: Config, c0: State, victims: seq<Digest>, now: State, len: nat, hh: map<nat, Head>, ph: map<nat,
                    Rid>)
    requires cfg.Valid() && Evicting(cfg, c0, victims, now, NoHead, len, hh, ph)
    ensures now == EvictHeads(cfg, c0, victims) && Inv(cfg, now, hh, ph) && Left(now) == Left(c0)
    ensures !Room(cfg.ram, now.regions, len) && NoRoomYet(cfg, c0, victims, len)
  {
    hide Inv, Left, Room, EvictHeads, NoRoomYet;
  }

  lemma EvictingNext(cfg: Config, c0: State, victims: seq<Digest>, c: State, d: Digest, now: State, head: Head,
                     len: nat, hh: map<nat, Head>, ph: map<nat, Rid>)
    requires cfg.Valid() && c == EvictHeads(cfg, c0, victims) && Left(c) == Left(c0)
    requires NoRoomYet(cfg, c0, victims, len) && d in c.heads && !Room(cfg.ram, c.regions, len)
    requires var e := EvictHead(cfg, c, d);
             && Inv(cfg, e, hh, ph) && Left(e) == Left(c) && Held(e, now, head)
                && (head.Head? <==> Room(cfg.ram, e.regions, len))
             && (head.Head? ==> head.len == len && Placed(cfg.ram, e.regions, head.rid, len))
    ensures Evicting(cfg, c0, victims + [d], now, head, len, hh, ph)
    ensures now.heads == EvictHead(cfg, c, d).heads
  {
    hide Inv, Left, Room, EvictHead, NoRoomYet, Placed;
    NoRoomOneMore(cfg, c0, victims, d, len);
    assert (victims + [d])[..|victims|] == victims;
  }

  lemma EvictingEnd(cfg: Config, c0: State, victims: seq<Digest>, now: State, head: Head, len: nat,
                    hh: map<nat, Head>, ph: map<nat, Rid>)
    requires cfg.Valid() && Evicting(cfg, c0, victims, now, head, len, hh, ph) && len > 0
             && (head.Head? || now.heads == {})
    ensures var c := EvictHeads(cfg, c0, victims); Inv(cfg, c, hh, ph) && Held(c, now, head)
    ensures Reserves(cfg, c0, victims, len, head) && (head.Head? <==> Room(cfg.ram, Left(c0), len))
  {
    hide Inv, Left, Room, EvictHeads, NoRoomYet, Placed;
    var c := EvictHeads(cfg, c0, victims);
    if head.Head? {
      RoomLeft(cfg.ram, c, len);
    } else {
      AllEvicted(cfg, c, hh, ph);
    }
  }

  lemma EvictHeadHeads(cfg: Config, c: State, d: Digest)
    ensures EvictHead(cfg, c, d).heads == c.heads - {d}
    ensures d in c.heads ==> |c.heads - {d}| < |c.heads|
  {
    assert d in c.heads ==> |c.heads - {d}| == |c.heads| - 1;
  }

  lemma Fewer(a: map<Digest, Meta>, b: map<Digest, Meta>, d: Digest)
    requires d in a && b.Keys == a.Keys - {d}
    ensures |b| == |a| - 1
  {
    assert |b| == |b.Keys| && |a| == |a.Keys|;
  }

  lemma OwnedPolicies(c: State, c1: State, hh: map<nat, Head>, ph: map<nat, Rid>)
    requires Owned(c, hh, ph) && c1 == c.(heads := c1.heads, objects := c1.objects)
    ensures Owned(c1, hh, ph)
  {
  }

  lemma DeviceBlockIsPow2()
    ensures IsPow2(DEVICE_BLOCK)
  {
    assert Pow2(4) == 16 && Pow2(8) == 256;
    assert Pow2(12) == 4096;
  }

  lemma OwnsHead(c: State, d: Digest, hh: map<nat, Head>, ph: map<nat, Rid>)
    requires Owned(c, hh, ph) && d in c.index
    ensures c.index[d].head.Head? ==>
            c.index[d].head.rid in c.regions
            && c.regions[c.index[d].head.rid] == c.index[d].head.len
  {
  }
}
