/**
  What the lock of the storage engine guards, and the effect of each critical section on it
  (src/goblin/storage/tier_manager.cpp): the index, the allocated head regions, the pins, the
  residents of the two eviction policies and the names in the pool directories.
*/
module Core {
  import opened Arith
  import opened Striping
  import opened Layout
  import opened S3Fifo

  /** A head region of the RAM pool, by block and offset. */
  type Rid = (nat, nat)
  type Inode = nat

  datatype Head = NoHead | Head(rid: Rid, len: nat)
  datatype Meta = Meta(size: nat, flags: nat, expiry: nat, etag: nat, head: Head)
  datatype Pin = Pin(len: nat, refcount: nat, orphaned: bool)

  /** A file name in a drive directory: the live name of a digest, or one of its scratch names. */
  datatype Suffix = Live | Tmp(seqNo: nat)
  datatype Name = Name(tier: Tier, drive: nat, digest: Digest, suffix: Suffix)

  /** The pool of head regions: its blocks, each a buddy arena with blocks of `min` bytes and top order `max`. */
  datatype Ram = Ram(blocks: nat, min: nat, max: nat)

  datatype Config = Config(tiers: TierSizes, threeLayer: bool, ssdPool: DrivePool, hddPool: DrivePool, ram: Ram,
                           maxObjects: nat)
  {
    predicate Valid()
    {
      && tiers.Valid() && ssdPool.Valid() && hddPool.Valid() && ram.blocks > 0 && ram.min > 0
      && ssdPool.s % DEVICE_BLOCK == 0 && hddPool.s % DEVICE_BLOCK == 0
    }

    function LayoutOf(size: nat): ObjectLayout { ComputeLayout(size, tiers, threeLayer) }

    function PoolOf(t: Tier): DrivePool { if t == Ssd then ssdPool else hddPool }
  }

  datatype State = State(index: map<Digest, Meta>, regions: map<Rid, nat>, pins: map<Rid, Pin>,
                         heads: set<Digest>, objects: set<Digest>, names: map<Name, Inode>, etagSeq: nat)

  predicate Expired(m: Meta, now: nat) { m.expiry != 0 && m.expiry <= now }

  // ---------------------------------------------------------------- names

  /** The names under which an object of `size` bytes has its files. */
  ghost function NamesOf(cfg: Config, d: Digest, size: nat, suffix: Suffix): set<Name>
    requires cfg.Valid()
  {
    (set x | x in OpenedDrives(cfg.ssdPool, d.bucket, cfg.LayoutOf(size).ssdBytes) :: Name(Ssd, x, d, suffix)) +
    (set x | x in OpenedDrives(cfg.hddPool, d.bucket, cfg.LayoutOf(size).hddBytes) :: Name(Hdd, x, d, suffix))
  }

  /** Renaming can go through: no two of the chunks that name the files are on one drive. */
  ghost predicate Distinct(p: DrivePool, h: nat, bytes: nat)
    requires p.Valid()
  {
    NoClash(p, h, p.FilesUsed(bytes))
  }

  /** In both pools the chunks that name the object's files are on different drives. */
  ghost predicate Publishable(cfg: Config, d: Digest, size: nat)
    requires cfg.Valid()
  {
    var l := cfg.LayoutOf(size);
    Distinct(cfg.ssdPool, d.bucket, l.ssdBytes) && Distinct(cfg.hddPool, d.bucket, l.hddBytes)
  }

  /** Renames every scratch file of the object over its live name. */
  ghost function Publish(cfg: Config, names: map<Name, Inode>, d: Digest, size: nat, tmp: nat): (r: map<Name, Inode>)
    requires cfg.Valid() && NamesOf(cfg, d, size, Tmp(tmp)) <= names.Keys
  {
    names - NamesOf(cfg, d, size, Tmp(tmp))
    + map n | n in NamesOf(cfg, d, size, Live) :: names[TmpOf(n, tmp)]
  }

  function TmpOf(n: Name, tmp: nat): Name { n.(suffix := Tmp(tmp)) }

  // ---------------------------------------------------------------- critical sections

  /** Frees a head region, or orphans it when a reader has it pinned. */
  function FreeRegion(c: State, rid: Rid): State
  {
    if rid in c.pins && c.pins[rid].refcount > 0
    then c.(pins := c.pins[rid := c.pins[rid].(orphaned := true)])
    else c.(regions := c.regions - {rid})
  }

  /** Takes the resident head away from an indexed object. */
  function RetireHead(c: State, d: Digest): State
    requires d in c.index
  {
    if c.index[d].head.NoHead? then c
    else FreeRegion(c, c.index[d].head.rid).(index := c.index[d := c.index[d].(head := NoHead)], heads := c.heads - {d})
  }

  /** Evicts the head of the policy's victim; an object that lives in RAM only goes with it. */
  function EvictHead(cfg: Config, c: State, d: Digest): State
  {
    if d !in c.index || c.index[d].head.NoHead? then c.(heads := c.heads - {d})
    else
      var c1 := RetireHead(c, d);
      if c.index[d].size <= cfg.tiers.ramHead
      then c1.(objects := c1.objects - {d}, index := c1.index - {d})
      else c1
  }

  ghost function DropObject(cfg: Config, c: State, d: Digest): State
    requires cfg.Valid()
  {
    if d !in c.index then c
    else
      var c1 := RetireHead(c, d);
      c1.(objects := c1.objects - {d}, index := c1.index - {d},
          names := c1.names - NamesOf(cfg, d, c.index[d].size, Live))
  }

  lemma DropIndex(cfg: Config, c: State, d: Digest)
    requires cfg.Valid()
    ensures DropObject(cfg, c, d).index == c.index - {d}
  {
    hide NamesOf;
    if d in c.index {
      assert RetireHead(c, d).index - {d} == c.index - {d};
    }
  }

  /** Head evictions in a row, as the store of a new object asks for them. */
  function EvictHeads(cfg: Config, c: State, victims: seq<Digest>): State
    decreases |victims|
  {
    if victims == [] then c else EvictHead(cfg, EvictHeads(cfg, c, victims[..|victims| - 1]), victims[|victims| - 1])
  }

  /** Whole-object evictions in a row: each victim is the object policy's, so it leaves that policy first. */
  ghost function DropObjects(cfg: Config, c: State, victims: seq<Digest>): State
    requires cfg.Valid()
    decreases |victims|
  {
    if victims == [] then c
    else
      var d := victims[|victims| - 1];
      var c1 := DropObjects(cfg, c, victims[..|victims| - 1]);
      DropObject(cfg, c1.(objects := c1.objects - {d}), d)
  }

  /** Publishes a finished object: files renamed, old head retired, new entry and policies set. */
  ghost function Publication(cfg: Config, c: State, d: Digest, size: nat, tmp: nat, head: Head, flags: nat,
                             expiry: nat): State
    requires cfg.Valid() && NamesOf(cfg, d, size, Tmp(tmp)) <= c.names.Keys
  {
    var c1 := c.(names := Publish(cfg, c.names, d, size, tmp));
    var c2 := if d in c.index then RetireHead(c1, d) else c1;
    Enter(c2, d, Meta(size, flags, expiry, c.etagSeq + 1, head))
  }

  /** The new entry, with its head and itself made known to the policies. */
  function Enter(c: State, d: Digest, m: Meta): State
  {
    c.(etagSeq := m.etag,
       index := c.index[d := m],
       heads := if m.head.Head? then c.heads + {d} else c.heads,
       objects := if d in c.index then c.objects else c.objects + {d})
  }

  /** Pins a head region once more. */
  function PinRegion(c: State, rid: Rid, len: nat): State
  {
    c.(pins := c.pins[rid := if rid in c.pins then c.pins[rid].(len := len, refcount := c.pins[rid].refcount + 1)
                             else Pin(len, 1, false)])
  }

  /** Drops one pin; the last one frees the region if it was orphaned meanwhile. */
  function UnpinRegion(c: State, rid: Rid): State
  {
    if rid !in c.pins || c.pins[rid].refcount == 0 then c
    else if c.pins[rid].refcount > 1 then c.(pins := c.pins[rid := c.pins[rid].(refcount := c.pins[rid].refcount - 1)])
    else c.(pins := c.pins - {rid}, regions := if c.pins[rid].orphaned then c.regions - {rid} else c.regions)
  }

  // ---------------------------------------------------------------- who owns which region

  ghost predicate IndexHead(index: map<Digest, Meta>, r: Rid)
  {
    exists d :: d in index && index[d].head.Head? && index[d].head.rid == r
  }

  /** `hh` is the reserved head of each open store handle. */
  ghost predicate HandleHead(hh: map<nat, Head>, r: Rid)
  {
    exists k :: k in hh && hh[k].Head? && hh[k].rid == r
  }

  ghost function Holders(ph: map<nat, Rid>, r: Rid): set<nat> { set k | k in ph && ph[k] == r }

  ghost predicate IndexOwns(c: State)
  {
    && (forall d :: d in c.index && c.index[d].head.Head? ==>
          c.index[d].head.rid in c.regions && c.regions[c.index[d].head.rid] == c.index[d].head.len)
    && (forall d, e :: d in c.index && e in c.index && d != e && c.index[d].head.Head? && c.index[e].head.Head? ==>
          c.index[d].head.rid != c.index[e].head.rid)
  }

  ghost predicate HandlesOwn(c: State, hh: map<nat, Head>)
  {
    && (forall k :: k in hh && hh[k].Head? ==>
          && hh[k].rid in c.regions && c.regions[hh[k].rid] == hh[k].len
          && !IndexHead(c.index, hh[k].rid) && hh[k].rid !in c.pins)
    && (forall j, k :: j in hh && k in hh && j != k && hh[j].Head? && hh[k].Head? ==> hh[j].rid != hh[k].rid)
  }

  /** A pin counts its readers, and it is orphaned exactly when the index has let go of the region. */
  ghost predicate PinOk(c: State, ph: map<nat, Rid>, r: Rid)
    requires r in c.pins
  {
    && r in c.regions && c.pins[r].len == c.regions[r]
    && c.pins[r].refcount == |Holders(ph, r)| && c.pins[r].refcount > 0
    && (c.pins[r].orphaned <==> !IndexHead(c.index, r))
  }

  /** `ph` is the region each open reader holds pinned. */
  ghost predicate PinsCount(c: State, ph: map<nat, Rid>)
  {
    && (forall r :: r in c.pins ==> PinOk(c, ph, r))
    && (forall k :: k in ph ==> ph[k] in c.pins)
  }

  /** Every allocated region has an owner: an index entry, an open handle, or readers after a replacement. */
  ghost predicate AllOwned(c: State, hh: map<nat, Head>)
  {
    forall r :: r in c.regions ==> IndexHead(c.index, r) || HandleHead(hh, r) || (r in c.pins && c.pins[r].orphaned)
  }

  ghost predicate Owned(c: State, hh: map<nat, Head>, ph: map<nat, Rid>)
  {
    IndexOwns(c) && HandlesOwn(c, hh) && PinsCount(c, ph) && AllOwned(c, hh)
  }

  /** The policies track exactly the resident heads and the indexed objects. */
  ghost predicate PoliciesAgree(c: State)
  {
    && c.objects == c.index.Keys
    && (forall d :: d in c.heads <==> d in c.index && c.index[d].head.Head?)
  }

  /** Sizes of heads: the first `ramHead` bytes, and all of an object that lives in RAM only. */
  ghost predicate HeadSizes(cfg: Config, c: State)
  {
    forall d :: d in c.index ==>
      && (c.index[d].head.Head? ==> c.index[d].head.len == Min(c.index[d].size, cfg.tiers.ramHead) > 0)
      && (0 < c.index[d].size <= cfg.tiers.ramHead ==> c.index[d].head.Head?)
  }

  ghost predicate Inv(cfg: Config, c: State, hh: map<nat, Head>, ph: map<nat, Rid>)
  {
    Owned(c, hh, ph) && PoliciesAgree(c) && HeadSizes(cfg, c)
  }

  // ---------------------------------------------------------------- ownership is kept

  /** After a head is retired the index owns what it owned before, but for that region. */
  lemma RetiredHeads(c: State, d: Digest)
    requires IndexOwns(c) && d in c.index && c.index[d].head.Head?
    ensures var r, c' := c.index[d].head.rid, RetireHead(c, d);
            && IndexHead(c.index, r)
            && c'.index == c.index[d := c.index[d].(head := NoHead)]
            && (forall x {:trigger IndexHead(c'.index, x)} :: IndexHead(c'.index, x) <==>
                x != r && IndexHead(c.index, x))
  {
    var r, c' := c.index[d].head.rid, RetireHead(c, d);
    assert forall e :: e in c'.index && e != d ==> c'.index[e] == c.index[e];
    forall x ensures IndexHead(c'.index, x) <==> x != r && IndexHead(c.index, x) {
      if x != r && IndexHead(c.index, x) {
        var e :| e in c.index && c.index[e].head.Head? && c.index[e].head.rid == x;
        assert e in c'.index && c'.index[e].head.Head? && c'.index[e].head.rid == x;
      }
    }
  }

  lemma RetireIndex(c: State, d: Digest)
    requires IndexOwns(c) && d in c.index
    ensures IndexOwns(RetireHead(c, d))
  {
    var c' := RetireHead(c, d);
    assert forall e :: e in c'.index && e != d ==> c'.index[e] == c.index[e];
  }

  lemma RetireHandles(c: State, d: Digest, hh: map<nat, Head>)
    requires IndexOwns(c) && HandlesOwn(c, hh) && d in c.index
    ensures HandlesOwn(RetireHead(c, d), hh)
  {
    if c.index[d].head.Head? {
      RetiredHeads(c, d);
      hide IndexHead, IndexOwns;
    }
  }

  lemma RetirePins(c: State, d: Digest, ph: map<nat, Rid>)
    requires IndexOwns(c) && PinsCount(c, ph) && d in c.index
    ensures PinsCount(RetireHead(c, d), ph)
  {
    if c.index[d].head.Head? {
      RetiredHeads(c, d);
      hide IndexHead, IndexOwns, Holders;
    }
  }

  lemma RetireAll(c: State, d: Digest, hh: map<nat, Head>)
    requires IndexOwns(c) && AllOwned(c, hh) && d in c.index
    requires forall r :: r in c.pins ==> c.pins[r].refcount > 0
    ensures AllOwned(RetireHead(c, d), hh)
  {
    if c.index[d].head.Head? {
      RetiredHeads(c, d);
      hide IndexHead, IndexOwns, HandleHead;
    }
  }

  lemma RetireOwned(c: State, d: Digest, hh: map<nat, Head>, ph: map<nat, Rid>)
    requires Owned(c, hh, ph) && d in c.index
    ensures Owned(RetireHead(c, d), hh, ph)
  {
    RetireIndex(c, d);
    RetireHandles(c, d, hh);
    RetirePins(c, d, ph);
    RetireAll(c, d, hh);
  }

  /** Only entries without a head changed, so nobody's region did. */
  lemma HeadlessChange(c: State, c': State, d: Digest, hh: map<nat, Head>, ph: map<nat, Rid>)
    requires Owned(c, hh, ph) && c'.regions == c.regions && c'.pins == c.pins
    requires c'.index - {d} == c.index - {d}
    requires (d in c.index ==> c.index[d].head.NoHead?) && (d in c'.index ==> c'.index[d].head.NoHead?)
    ensures Owned(c', hh, ph)
  {
    EntriesKept(c.index, c'.index, d);
    HeadlessIndex(c, c', d);
    SameHeadsOwned(c, c', hh, ph);
  }

  lemma EntriesKept(index: map<Digest, Meta>, index': map<Digest, Meta>, d: Digest)
    requires index' - {d} == index - {d}
    requires (d in index ==> index[d].head.NoHead?) && (d in index' ==> index'[d].head.NoHead?)
    ensures forall e :: e != d ==> (e in index <==> e in index') && (e in index ==> index'[e] == index[e])
    ensures forall x {:trigger IndexHead(index', x)} :: IndexHead(index', x) <==> IndexHead(index, x)
  {
    forall e | e != d ensures (e in index <==> e in index') && (e in index ==> index'[e] == index[e]) {
      assert e in index <==> e in index - {d};
      assert e in index ==> (index - {d})[e] == index[e];
      assert e in index' ==> (index' - {d})[e] == index'[e];
    }
    forall x ensures IndexHead(index', x) <==> IndexHead(index, x) {
      if e :| e in index && index[e].head.Head? && index[e].head.rid == x {
        assert e in index' && index'[e].head.Head? && index'[e].head.rid == x;
      }
    }
  }

  lemma HeadlessIndex(c: State, c': State, d: Digest)
    requires IndexOwns(c) && c'.regions == c.regions && (d in c'.index ==> c'.index[d].head.NoHead?)
    requires forall e :: e != d ==> (e in c.index <==> e in c'.index) && (e in c.index ==> c'.index[e] == c.index[e])
    ensures IndexOwns(c')
  {
  }

  /** The head of a store handle becomes the head of the entry it publishes. */
  lemma InstallOwned(c: State, c': State, d: Digest, m: Meta, hid: nat, hh: map<nat, Head>, ph: map<nat, Rid>)
    requires Owned(c, hh, ph) && c'.regions == c.regions && c'.pins == c.pins && c'.index == c.index[d := m]
    requires d in c.index ==> c.index[d].head.NoHead?
    requires hid in hh && hh[hid] == m.head
    ensures Owned(c', hh - {hid}, ph)
  {
    if m.head.NoHead? {
      assert c'.index - {d} == c.index - {d};
      HeadlessChange(c, c', d, hh, ph);
      ForgetHandle(c', hid, hh);
    } else {
      var r := m.head.rid;
      InstalledHeads(c, c', d, m);
      InstallIndex(c, c', d, m, hid, hh);
      InstallHandles(c, c', d, m, hid, hh);
      InstallPins(c, c', d, m, hid, hh, ph);
      InstallAll(c, c', d, m, hid, hh);
    }
  }

  lemma InstalledHeads(c: State, c': State, d: Digest, m: Meta)
    requires c'.index == c.index[d := m] && (d in c.index ==> c.index[d].head.NoHead?) && m.head.Head?
    ensures forall x {:trigger IndexHead(c'.index, x)} :: IndexHead(c'.index, x) <==>
              x == m.head.rid || IndexHead(c.index, x)
  {
    forall x ensures IndexHead(c'.index, x) <==> x == m.head.rid || IndexHead(c.index, x) {
      assert d in c'.index && c'.index[d].head.rid == m.head.rid;
      if e :| e in c.index && c.index[e].head.Head? && c.index[e].head.rid == x {
        assert e in c'.index && c'.index[e].head.Head? && c'.index[e].head.rid == x;
      }
    }
  }

  lemma InstallIndex(c: State, c': State, d: Digest, m: Meta, hid: nat, hh: map<nat, Head>)
    requires IndexOwns(c) && HandlesOwn(c, hh) && c'.regions == c.regions && c'.index == c.index[d := m]
    requires m.head.Head? && hid in hh && hh[hid] == m.head && (d in c.index ==> c.index[d].head.NoHead?)
    ensures IndexOwns(c')
  {
    forall e | e in c.index && c.index[e].head.Head? ensures c.index[e].head.rid != m.head.rid {
      assert !IndexHead(c.index, m.head.rid);
    }
  }

  lemma InstallHandles(c: State, c': State, d: Digest, m: Meta, hid: nat, hh: map<nat, Head>)
    requires HandlesOwn(c, hh) && c'.regions == c.regions && c'.pins == c.pins
    requires m.head.Head? && hid in hh && hh[hid] == m.head
    requires forall x {:trigger IndexHead(c'.index, x)} :: IndexHead(c'.index, x) <==>
               x == m.head.rid || IndexHead(c.index, x)
    ensures HandlesOwn(c', hh - {hid})
  {
    hide IndexHead;
  }

  lemma InstallPins(c: State, c': State, d: Digest, m: Meta, hid: nat, hh: map<nat, Head>, ph: map<nat, Rid>)
    requires HandlesOwn(c, hh) && PinsCount(c, ph) && c'.regions == c.regions && c'.pins == c.pins
    requires m.head.Head? && hid in hh && hh[hid] == m.head
    requires forall x {:trigger IndexHead(c'.index, x)} :: IndexHead(c'.index, x) <==>
               x == m.head.rid || IndexHead(c.index, x)
    ensures PinsCount(c', ph)
  {
    hide IndexHead, Holders;
  }

  lemma InstallAll(c: State, c': State, d: Digest, m: Meta, hid: nat, hh: map<nat, Head>)
    requires AllOwned(c, hh) && c'.regions == c.regions && c'.pins == c.pins
    requires m.head.Head? && hid in hh && hh[hid] == m.head
    requires forall x {:trigger IndexHead(c'.index, x)} :: IndexHead(c'.index, x) <==>
               x == m.head.rid || IndexHead(c.index, x)
    ensures AllOwned(c', hh - {hid})
  {
    hide IndexHead;
    forall r | r in c.regions && HandleHead(hh, r) && r != m.head.rid ensures HandleHead(hh - {hid}, r) {
      var k :| k in hh && hh[k].Head? && hh[k].rid == r;
      assert k in hh - {hid} && (hh - {hid})[k] == hh[k];
    }
  }

  lemma ForgetHandle(c: State, hid: nat, hh: map<nat, Head>)
    requires HandlesOwn(c, hh) && AllOwned(c, hh) && hid in hh && hh[hid].NoHead?
    ensures HandlesOwn(c, hh - {hid}) && AllOwned(c, hh - {hid})
  {
    hide IndexHead;
    forall r | HandleHead(hh, r) ensures HandleHead(hh - {hid}, r) {
      var k :| k in hh && hh[k].Head? && hh[k].rid == r;
      assert k in hh - {hid};
    }
  }

  /** A freshly allocated region is reserved by the handle that asked for it. */
  lemma ReserveOwned(c: State, hid: nat, head: Head, hh: map<nat, Head>, ph: map<nat, Rid>)
    requires Owned(c, hh, ph) && hid !in hh && (head.Head? ==> head.rid !in c.regions)
    ensures Owned(if head.Head? then c.(regions := c.regions[head.rid := head.len]) else c, hh[hid := head], ph)
  {
    var c' := if head.Head? then c.(regions := c.regions[head.rid := head.len]) else c;
    ReserveHandles(c, c', hid, head, hh);
    ReserveAll(c, c', hid, head, hh);
    hide IndexHead, Holders, HandlesOwn, AllOwned;
  }

  lemma ReserveHandles(c: State, c': State, hid: nat, head: Head, hh: map<nat, Head>)
    requires IndexOwns(c) && HandlesOwn(c, hh) && hid !in hh
    requires forall r :: r in c.pins ==> r in c.regions
    requires head.Head? ==> head.rid !in c.regions
    requires c' == if head.Head? then c.(regions := c.regions[head.rid := head.len]) else c
    ensures HandlesOwn(c', hh[hid := head])
  {
    assert head.Head? ==> !IndexHead(c.index, head.rid);
    hide IndexHead;
  }

  lemma ReserveAll(c: State, c': State, hid: nat, head: Head, hh: map<nat, Head>)
    requires AllOwned(c, hh) && hid !in hh
    requires c' == if head.Head? then c.(regions := c.regions[head.rid := head.len]) else c
    ensures AllOwned(c', hh[hid := head])
  {
    var hh' := hh[hid := head];
    forall r | HandleHead(hh, r) ensures HandleHead(hh', r) {
      var k :| k in hh && hh[k].Head? && hh[k].rid == r;
      assert k in hh' && hh'[k] == hh[k];
    }
    assert head.Head? ==> HandleHead(hh', head.rid) by { assert hh'[hid] == head; }
    hide IndexHead;
  }

  /** An aborted handle frees its reserved region itself: nobody else can know it. */
  lemma AbortOwned(c: State, hid: nat, hh: map<nat, Head>, ph: map<nat, Rid>)
    requires Owned(c, hh, ph) && hid in hh
    ensures Owned(if hh[hid].Head? then c.(regions := c.regions - {hh[hid].rid}) else c, hh - {hid}, ph)
  {
    if hh[hid].NoHead? {
      ForgetHandle(c, hid, hh);
    } else {
      AbortAll(c, hid, hh);
      AbortIndex(c, hh[hid].rid);
      hide IndexHead, Holders, AllOwned, IndexOwns;
    }
  }

  lemma AbortIndex(c: State, r: Rid)
    requires IndexOwns(c) && !IndexHead(c.index, r)
    ensures IndexOwns(c.(regions := c.regions - {r}))
  {
    assert forall d :: d in c.index && c.index[d].head.Head? ==> IndexHead(c.index, c.index[d].head.rid);
    hide IndexHead;
  }

  lemma AbortAll(c: State, hid: nat, hh: map<nat, Head>)
    requires AllOwned(c, hh) && hid in hh && hh[hid].Head?
    ensures AllOwned(c.(regions := c.regions - {hh[hid].rid}), hh - {hid})
  {
    forall x | HandleHead(hh, x) && x != hh[hid].rid ensures HandleHead(hh - {hid}, x) {
      var k :| k in hh && hh[k].Head? && hh[k].rid == x;
      assert k in hh - {hid};
    }
    hide IndexHead;
  }

  lemma HoldersAdd(ph: map<nat, Rid>, k: nat, r: Rid)
    requires k !in ph
    ensures forall x {:trigger Holders(ph[k := r], x)} :: |Holders(ph[k := r], x)| == |Holders(ph, x)| + if x == r
            then 1 else 0
  {
    forall x ensures |Holders(ph[k := r], x)| == |Holders(ph, x)| + if x == r then 1 else 0 {
      assert Holders(ph[k := r], x) == if x == r then Holders(ph, x) + {k} else Holders(ph, x);
    }
  }

  lemma PinHandles(c: State, r: Rid, len: nat, hh: map<nat, Head>)
    requires HandlesOwn(c, hh) && AllOwned(c, hh) && IndexHead(c.index, r) && (r in c.pins ==> !c.pins[r].orphaned)
    ensures HandlesOwn(PinRegion(c, r, len), hh) && AllOwned(PinRegion(c, r, len), hh)
  {
    hide IndexHead, HandleHead;
  }

  lemma PinPins(c: State, k: nat, r: Rid, len: nat, ph: map<nat, Rid>)
    requires PinsCount(c, ph) && k !in ph && IndexHead(c.index, r) && r in c.regions && c.regions[r] == len
    ensures PinsCount(PinRegion(c, r, len), ph[k := r])
  {
    HoldersAdd(ph, k, r);
    assert r !in c.pins ==> Holders(ph, r) == {};
    hide IndexHead, Holders;
  }

  lemma PinOwned(c: State, d: Digest, k: nat, hh: map<nat, Head>, ph: map<nat, Rid>)
    requires Owned(c, hh, ph) && k !in ph && d in c.index && c.index[d].head.Head?
    ensures Owned(PinRegion(c, c.index[d].head.rid, c.index[d].head.len), hh, ph[k := c.index[d].head.rid])
  {
    var r := c.index[d].head.rid;
    assert IndexHead(c.index, r);
    PinHandles(c, r, c.index[d].head.len, hh);
    PinPins(c, k, r, c.index[d].head.len, ph);
    hide HandlesOwn, PinsCount, AllOwned;
  }

  lemma HoldersDrop(ph: map<nat, Rid>, k: nat)
    requires k in ph
    ensures forall x {:trigger Holders(ph - {k}, x)} :: |Holders(ph, x)| == |Holders(ph - {k}, x)| + if x == ph[k]
            then 1 else 0
    ensures forall j :: j in ph - {k} ==> j in ph && (ph - {k})[j] == ph[j] && |Holders(ph - {k}, ph[j])| > 0
  {
    HoldersAdd(ph - {k}, k, ph[k]);
    assert (ph - {k})[k := ph[k]] == ph;
    forall j | j in ph - {k} ensures |Holders(ph - {k}, ph[j])| > 0 {
      assert j in Holders(ph - {k}, ph[j]);
    }
  }

  lemma UnpinOne(c: State, k: nat, ph: map<nat, Rid>, x: Rid)
    requires k in ph && x in c.pins && PinOk(c, ph, x)
    ensures x in UnpinRegion(c, ph[k]).pins ==> PinOk(UnpinRegion(c, ph[k]), ph - {k}, x)
    ensures x !in UnpinRegion(c, ph[k]).pins ==> x == ph[k] && |Holders(ph, x)| == 1
  {
    HoldersDrop(ph, k);
    assert |Holders(ph, x)| == |Holders(ph - {k}, x)| + if x == ph[k] then 1 else 0;
    hide IndexHead, Holders;
  }

  lemma UnpinPins(c: State, k: nat, ph: map<nat, Rid>)
    requires PinsCount(c, ph) && k in ph
    ensures PinsCount(UnpinRegion(c, ph[k]), ph - {k})
  {
    hide PinOk, Holders;
    forall x | x in c.pins
      ensures x in UnpinRegion(c, ph[k]).pins ==> PinOk(UnpinRegion(c, ph[k]), ph - {k}, x)
      ensures x !in UnpinRegion(c, ph[k]).pins ==> x == ph[k] && |Holders(ph, x)| == 1
    {
      UnpinOne(c, k, ph, x);
    }
    HoldersDrop(ph, k);
    forall j | j in ph - {k} ensures ph[j] in UnpinRegion(c, ph[k]).pins {
      assert |Holders(ph, ph[j])| == |Holders(ph - {k}, ph[j])| + if ph[j] == ph[k] then 1 else 0;
    }
  }

  lemma UnpinIndex(c: State, r: Rid)
    requires IndexOwns(c) && (r in c.pins && c.pins[r].orphaned ==> !IndexHead(c.index, r))
    ensures IndexOwns(UnpinRegion(c, r))
  {
    assert forall d :: d in c.index && c.index[d].head.Head? ==> IndexHead(c.index, c.index[d].head.rid);
    hide IndexHead;
  }

  lemma UnpinHandles(c: State, r: Rid, hh: map<nat, Head>)
    requires HandlesOwn(c, hh) && AllOwned(c, hh)
    ensures HandlesOwn(UnpinRegion(c, r), hh) && AllOwned(UnpinRegion(c, r), hh)
  {
    hide IndexHead, HandleHead;
  }

  lemma UnpinOwned(c: State, k: nat, hh: map<nat, Head>, ph: map<nat, Rid>)
    requires Owned(c, hh, ph) && k in ph
    ensures Owned(UnpinRegion(c, ph[k]), hh, ph - {k})
  {
    UnpinPins(c, k, ph);
    UnpinIndex(c, ph[k]);
    UnpinHandles(c, ph[k], hh);
    hide IndexOwns, HandlesOwn, AllOwned;
  }

  // ---------------------------------------------------------------- evictions

  /** The same version, perhaps without its head or with another time to live. */
  predicate SameVersion(m: Meta, m': Meta)
  {
    m'.size == m.size && m'.flags == m.flags && m'.etag == m.etag && (m'.head == m.head || m'.head == NoHead)
  }

  /**
    What an eviction may do: entries go, or lose their head; nothing else changes about them, and
    no file name of a remaining entry or of a store in progress is touched.
  */
  ghost predicate Shrinks(c: State, c': State)
  {
    && c'.etagSeq == c.etagSeq
    && (forall e :: e in c'.index ==> e in c.index && SameVersion(c.index[e], c'.index[e]))
    && (forall n :: n in c'.names ==> n in c.names && c'.names[n] == c.names[n])
    && (forall n :: n in c.names && (n.suffix.Tmp? || n.digest in c'.index) ==> n in c'.names)
    && (forall r :: r in c'.regions ==> r in c.regions && c'.regions[r] == c.regions[r])
  }

  lemma ShrinksTrans(a: State, b: State, c: State)
    requires Shrinks(a, b) && Shrinks(b, c)
    ensures Shrinks(a, c)
  {
  }

  lemma RetireShrinks(c: State, d: Digest)
    requires d in c.index
    ensures Shrinks(c, RetireHead(c, d))
    ensures d in RetireHead(c, d).index && RetireHead(c, d).index[d] == c.index[d].(head := NoHead)
    ensures forall e :: e != d ==> (e in RetireHead(c, d).index <==> e in c.index)
    ensures forall e :: e != d && e in c.index ==> RetireHead(c, d).index[e] == c.index[e]
    ensures RetireHead(c, d).objects == c.objects && RetireHead(c, d).names == c.names
  {
  }

  /** Invariant but for the size of the head of `d`. */
  ghost predicate InvBut(cfg: Config, c: State, d: Digest, hh: map<nat, Head>, ph: map<nat, Rid>)
  {
    && Owned(c, hh, ph) && PoliciesAgree(c)
    && HeadSizes(cfg, c.(index := c.index - {d}))
    && (d in c.index ==> c.index[d].head.NoHead?)
  }

  lemma RetireInv(cfg: Config, c: State, d: Digest, hh: map<nat, Head>, ph: map<nat, Rid>)
    requires Inv(cfg, c, hh, ph) && d in c.index
    ensures InvBut(cfg, RetireHead(c, d), d, hh, ph)
    ensures c.index[d].size > cfg.tiers.ramHead ==> Inv(cfg, RetireHead(c, d), hh, ph)
  {
    RetireOwned(c, d, hh, ph);
    RetireShrinks(c, d);
    RetirePolicies(c, d);
    hide Owned, RetireHead, PoliciesAgree;
  }

  lemma RetirePolicies(c: State, d: Digest)
    requires PoliciesAgree(c) && d in c.index
    ensures PoliciesAgree(RetireHead(c, d))
  {
    assert RetireHead(c, d).index.Keys == c.index.Keys;
  }

  lemma EraseInv(cfg: Config, c: State, d: Digest, names: map<Name, Inode>, hh: map<nat, Head>, ph: map<nat, Rid>)
    requires InvBut(cfg, c, d, hh, ph)
    ensures Inv(cfg, c.(objects := c.objects - {d}, index := c.index - {d}, names := names), hh, ph)
  {
    var c' := c.(objects := c.objects - {d}, index := c.index - {d}, names := names);
    assert c'.index - {d} == c.index - {d};
    HeadlessChange(c, c', d, hh, ph);
    hide Owned;
  }

  lemma EvictHeadInv(cfg: Config, c: State, d: Digest, hh: map<nat, Head>, ph: map<nat, Rid>)
    requires Inv(cfg, c, hh, ph)
    ensures Inv(cfg, EvictHead(cfg, c, d), hh, ph) && Shrinks(c, EvictHead(cfg, c, d))
  {
    hide Owned, RetireHead, HeadSizes;
    if d in c.index && c.index[d].head.Head? {
      RetireInv(cfg, c, d, hh, ph);
      RetireShrinks(c, d);
      var c1 := RetireHead(c, d);
      EraseInv(cfg, c1, d, c1.names, hh, ph);
    } else {
      assert c.heads - {d} == c.heads;
    }
  }

  lemma DropObjectInv(cfg: Config, c: State, d: Digest, hh: map<nat, Head>, ph: map<nat, Rid>)
    requires cfg.Valid() && Inv(cfg, c, hh, ph)
    ensures Inv(cfg, DropObject(cfg, c, d), hh, ph) && Shrinks(c, DropObject(cfg, c, d))
    ensures DropObject(cfg, c.(objects := c.objects - {d}), d) == DropObject(cfg, c, d)
    ensures DropObject(cfg, c, d).index.Keys == c.index.Keys - {d}
  {
    hide Owned, RetireHead, HeadSizes, NamesOf;
    DropTwice(cfg, c, d);
    if d in c.index {
      RetireInv(cfg, c, d, hh, ph);
      RetireShrinks(c, d);
      EraseInv(cfg, RetireHead(c, d), d, DropObject(cfg, c, d).names, hh, ph);
      NamesAreOwn(cfg, d, c.index[d].size, Live);
    }
  }

  lemma DropTwice(cfg: Config, c: State, d: Digest)
    requires cfg.Valid() && PoliciesAgree(c)
    ensures DropObject(cfg, c.(objects := c.objects - {d}), d) == DropObject(cfg, c, d)
  {
    hide NamesOf;
    assert c.objects - {d} - {d} == c.objects - {d};
    assert d !in c.index ==> c.objects - {d} == c.objects;
  }

  lemma NamesAreOwn(cfg: Config, d: Digest, size: nat, suffix: Suffix)
    requires cfg.Valid()
    ensures forall n :: n in NamesOf(cfg, d, size, suffix) ==> n.digest == d && n.suffix == suffix
  {
    hide OpenedDrives;
  }

  lemma {:induction false} EvictHeadsInv(cfg: Config, c: State, victims: seq<Digest>, hh: map<nat, Head>, ph: map<nat,
                                         Rid>)
    requires Inv(cfg, c, hh, ph)
    ensures Inv(cfg, EvictHeads(cfg, c, victims), hh, ph) && Shrinks(c, EvictHeads(cfg, c, victims))
    decreases |victims|
  {
    if victims != [] {
      var n := |victims| - 1;
      EvictHeadsInv(cfg, c, victims[..n], hh, ph);
      var b := EvictHeads(cfg, c, victims[..n]);
      EvictHeadInv(cfg, b, victims[n], hh, ph);
      ShrinksTrans(c, b, EvictHead(cfg, b, victims[n]));
    }
  }

  lemma {:induction false} DropObjectsInv(cfg: Config, c: State, victims: seq<Digest>, hh: map<nat, Head>, ph: map<nat,
                                          Rid>)
    requires cfg.Valid() && Inv(cfg, c, hh, ph)
    ensures Inv(cfg, DropObjects(cfg, c, victims), hh, ph) && Shrinks(c, DropObjects(cfg, c, victims))
    decreases |victims|
  {
    if victims != [] {
      var n := |victims| - 1;
      DropObjectsInv(cfg, c, victims[..n], hh, ph);
      var b := DropObjects(cfg, c, victims[..n]);
      DropObjectInv(cfg, b, victims[n], hh, ph);
      ShrinksTrans(c, b, DropObject(cfg, b, victims[n]));
    }
  }

  // ---------------------------------------------------------------- publication

  /** A head of the right size for an object of `size` bytes. */
  predicate HeadFits(cfg: Config, size: nat, head: Head)
  {
    && (head.Head? ==> head.len == Min(size, cfg.tiers.ramHead) > 0)
    && (0 < size <= cfg.tiers.ramHead ==> head.Head?)
  }

  lemma PublicationInv(cfg: Config, c: State, d: Digest, size: nat, tmp: nat, flags: nat, expiry: nat,
                       hid: nat, hh: map<nat, Head>, ph: map<nat, Rid>)
    requires cfg.Valid() && Inv(cfg, c, hh, ph) && NamesOf(cfg, d, size, Tmp(tmp)) <= c.names.Keys
    requires hid in hh && HeadFits(cfg, size, hh[hid])
    ensures Inv(cfg, Publication(cfg, c, d, size, tmp, hh[hid], flags, expiry), hh - {hid}, ph)
    ensures var c' := Publication(cfg, c, d, size, tmp, hh[hid], flags, expiry);
            && c'.index == c.index[d := Meta(size, flags, expiry, c.etagSeq + 1, hh[hid])]
            && (forall r :: r in c'.regions ==> r in c.regions && c'.regions[r] == c.regions[r])
  {
    hide RetireHead, Publish, NamesOf, Owned, HeadSizes, PoliciesAgree, HeadFits;
    var m := Meta(size, flags, expiry, c.etagSeq + 1, hh[hid]);
    var c1 := c.(names := Publish(cfg, c.names, d, size, tmp));
    var c2 := if d in c.index then RetireHead(c1, d) else c1;
    ReadyToPublish(cfg, c, c1, d, m, hh, ph);
    EnterInv(cfg, c, c2, d, m, hid, hh, ph);
  }

  lemma EnterInv(cfg: Config, c: State, c2: State, d: Digest, m: Meta, hid: nat, hh: map<nat, Head>, ph: map<nat, Rid>)
    requires HeadSizes(cfg, c) && HeadFits(cfg, m.size, m.head) && hid in hh && hh[hid] == m.head
    requires Owned(c2, hh, ph) && PoliciesAgree(c2) && (d in c2.index ==> c2.index[d].head.NoHead?)
    requires c2.index[d := m] == c.index[d := m]
    ensures Inv(cfg, Enter(c2, d, m), hh - {hid}, ph)
  {
    hide Owned;
    var c' := Enter(c2, d, m);
    InstallOwned(c2, c', d, m, hid, hh, ph);
    PublishPolicies(c2, c', d, m);
    PublishSizes(cfg, c, c', d, m);
  }

  lemma ReadyToPublish(cfg: Config, c: State, c1: State, d: Digest, m: Meta, hh: map<nat, Head>, ph: map<nat, Rid>)
    requires Inv(cfg, c, hh, ph) && c1 == c.(names := c1.names)
    ensures var c2 := if d in c.index then RetireHead(c1, d) else c1;
            && Owned(c2, hh, ph) && PoliciesAgree(c2) && (d in c2.index ==> c2.index[d].head.NoHead?)
            && (d in c2.index <==> d in c.index) && c2.index[d := m] == c.index[d := m]
            && (forall r :: r in c2.regions ==> r in c.regions && c2.regions[r] == c.regions[r])
  {
    hide RetireHead, Owned, IndexHead;
    OwnedNames(c, c1, hh, ph);
    if d in c.index {
      RetireInv(cfg, c1, d, hh, ph);
      RetireShrinks(c1, d);
    }
  }

  lemma PublishSizes(cfg: Config, c: State, c': State, d: Digest, m: Meta)
    requires HeadSizes(cfg, c) && HeadFits(cfg, m.size, m.head) && c'.index == c.index[d := m]
    ensures HeadSizes(cfg, c')
  {
  }

  lemma OwnedNames(c: State, c1: State, hh: map<nat, Head>, ph: map<nat, Rid>)
    requires Owned(c, hh, ph) && c1 == c.(names := c1.names)
    ensures Owned(c1, hh, ph)
  {
  }

  lemma PublishPolicies(c: State, c': State, d: Digest, m: Meta)
    requires PoliciesAgree(c) && (d in c.index ==> c.index[d].head.NoHead?)
    requires c'.index == c.index[d := m]
    requires c'.heads == if m.head.Head? then c.heads + {d} else c.heads
    requires c'.objects == if d in c.index then c.objects else c.objects + {d}
    ensures PoliciesAgree(c')
  {
  }

  // ---------------------------------------------------------------- a new time to live

  function Touched(c: State, d: Digest, expiry: nat): State
    requires d in c.index
  {
    c.(index := c.index[d := c.index[d].(expiry := expiry)])
  }

  lemma TouchedHeads(c: State, d: Digest, expiry: nat)
    requires d in c.index
    ensures forall x {:trigger IndexHead(Touched(c, d, expiry).index, x)} ::
              IndexHead(Touched(c, d, expiry).index, x) <==> IndexHead(c.index, x)
    ensures IndexOwns(c) ==> IndexOwns(Touched(c, d, expiry))
  {
    var c' := Touched(c, d, expiry);
    assert forall e :: e in c'.index ==> c'.index[e].head == c.index[e].head;
    forall x ensures IndexHead(c'.index, x) <==> IndexHead(c.index, x) {
      if e :| e in c.index && c.index[e].head.Head? && c.index[e].head.rid == x {
        assert e in c'.index && c'.index[e].head.rid == x;
      }
    }
  }

  lemma TouchedInv(cfg: Config, c: State, d: Digest, expiry: nat, hh: map<nat, Head>, ph: map<nat, Rid>)
    requires Inv(cfg, c, hh, ph) && d in c.index
    ensures Inv(cfg, Touched(c, d, expiry), hh, ph) && Shrinks(c, Touched(c, d, expiry))
  {
    hide Owned, IndexHead;
    TouchedHeads(c, d, expiry);
    var c' := Touched(c, d, expiry);
    assert c'.index.Keys == c.index.Keys;
    OwnedIndex(c, hh, ph);
    SameHeadsOwned(c, c', hh, ph);
  }

  lemma OwnedIndex(c: State, hh: map<nat, Head>, ph: map<nat, Rid>)
    requires Owned(c, hh, ph)
    ensures IndexOwns(c)
  {
  }

  lemma SameHeadsOwned(c: State, c': State, hh: map<nat, Head>, ph: map<nat, Rid>)
    requires Owned(c, hh, ph) && IndexOwns(c') && c'.regions == c.regions && c'.pins == c.pins
    requires forall x {:trigger IndexHead(c'.index, x)} :: IndexHead(c'.index, x) <==> IndexHead(c.index, x)
    ensures Owned(c', hh, ph)
  {
    hide IndexHead, IndexOwns, Holders;
  }
}
