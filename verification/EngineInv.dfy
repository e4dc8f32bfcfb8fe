/**
  Every step of the storage engine keeps its invariant: no reader, entry or handle ever sees the
  work of another.
*/
module EngineInv {
  import opened Arith
  import opened Striping
  import opened StripedIo
  import opened Layout
  import opened S3Fifo
  import opened Core
  import opened Engine

  // ---------------------------------------------------------------- what a step leaves alone

  ghost predicate Agree(keep: set<Inode>, a: map<Inode, File>, b: map<Inode, File>)
  {
    forall i :: i in keep ==> (i in a <==> i in b) && (i in a ==> a[i] == b[i])
  }

  /** Versions stay what they are, and published files are never written again. */
  ghost predicate Extends(s: Sys, s': Sys)
  {
    && (forall e :: e in s.history ==> e in s'.history && s'.history[e] == s.history[e])
    && s.frozen <= s'.frozen && Agree(s.frozen, s.inodes, s'.inodes)
  }

  ghost predicate SameMem(s: Sys, s': Sys, r: Rid)
  {
    r in s.mem ==> r in s'.mem && s'.mem[r] == s.mem[r]
  }

  lemma FilesKept(p: DrivePool, fds: Fds, a: map<Inode, File>, b: map<Inode, File>)
    requires Agree(fds.Values, a, b)
    ensures FilesOf(p, fds, a) == FilesOf(p, fds, b)
  {
    forall i | 0 <= i < p.n ensures FilesOf(p, fds, a)[i] == FilesOf(p, fds, b)[i] {
      if i in fds {
        assert fds[i] in fds.Values;
      }
    }
  }

  lemma TierKept(cfg: Config, t: Tier, d: Digest, fds: Fds, a: map<Inode, File>, b: map<Inode, File>, value: seq<byte>,
                 from: nat, bytes: nat)
    requires cfg.Valid() && TierHolds(cfg, t, d, fds, a, value, from, bytes) && Agree(fds.Values, a, b)
    ensures TierHolds(cfg, t, d, fds, b, value, from, bytes)
  {
    hide At, OpenedDrives, FilesOf;
    FilesKept(cfg.PoolOf(t), fds, a, b);
  }

  lemma AgreeSub(part: set<Inode>, keep: set<Inode>, a: map<Inode, File>, b: map<Inode, File>)
    requires part <= keep && Agree(keep, a, b)
    ensures Agree(part, a, b)
  {
  }

  lemma LiveFdsKept(cfg: Config, a: map<Name, Inode>, b: map<Name, Inode>, t: Tier, d: Digest, bytes: nat)
    requires cfg.Valid()
    requires forall n: Name :: n.digest == d && n.suffix == Live ==> (n in a <==> n in b) && (n in a ==> a[n] == b[n])
    ensures LiveFds(cfg, a, t, d, bytes) == LiveFds(cfg, b, t, d, bytes)
  {
    hide OpenedDrives;
  }

  lemma EntryKept(cfg: Config, s: Sys, s': Sys, d: Digest)
    requires cfg.Valid() && d in s.core.index && EntryOk(cfg, s, d) && Extends(s, s') && d in s'.core.index
    requires var m, m' := s.core.index[d], s'.core.index[d];
             && m'.size == m.size && m'.etag == m.etag && (m'.head == m.head || m'.head == NoHead)
             && (m'.head.Head? ==> SameMem(s, s', m.head.rid))
    requires forall n: Name :: n.digest == d && n.suffix == Live ==>
               (n in s.core.names <==> n in s'.core.names)
                 && (n in s.core.names ==> s.core.names[n] == s'.core.names[n])
    ensures EntryOk(cfg, s', d)
  {
    hide TierHolds, LiveFds;
    var m := s.core.index[d];
    var l, value := cfg.LayoutOf(m.size), s.history[m.etag].value;
    LiveFdsKept(cfg, s.core.names, s'.core.names, Ssd, d, l.ssdBytes);
    LiveFdsKept(cfg, s.core.names, s'.core.names, Hdd, d, l.hddBytes);
    var ssd, hdd := LiveFds(cfg, s.core.names, Ssd, d, l.ssdBytes), LiveFds(cfg, s.core.names, Hdd, d, l.hddBytes);
    AgreeSub(ssd.Values, s.frozen, s.inodes, s'.inodes);
    AgreeSub(hdd.Values, s.frozen, s.inodes, s'.inodes);
    TierKept(cfg, Ssd, d, ssd, s.inodes, s'.inodes, value, 0, l.ssdBytes);
    TierKept(cfg, Hdd, d, hdd, s.inodes, s'.inodes, value, l.ssdBytes, l.hddBytes);
  }

  lemma ReaderKept(cfg: Config, s: Sys, s': Sys, r: Reader, r': Reader)
    requires cfg.Valid() && ReaderOk(cfg, s, r) && Extends(s, s')
    requires r' == r || r' == r.(pinned := false)
    requires r'.pinned && r.meta.head.Head? ==> SameMem(s, s', r.meta.head.rid)
    ensures ReaderOk(cfg, s', r')
  {
    hide TierHolds;
    var l, value := cfg.LayoutOf(r.meta.size), s.history[r.meta.etag].value;
    if r.ssd.Some? {
      AgreeSub(r.ssd.value.Values, s.frozen, s.inodes, s'.inodes);
      TierKept(cfg, Ssd, r.digest, r.ssd.value, s.inodes, s'.inodes, value, 0, l.ssdBytes);
    }
    if r.hdd.Some? {
      AgreeSub(r.hdd.value.Values, s.frozen, s.inodes, s'.inodes);
      TierKept(cfg, Hdd, r.digest, r.hdd.value, s.inodes, s'.inodes, value, l.ssdBytes, l.hddBytes);
    }
  }

  lemma HandleKept(cfg: Config, s: Sys, s': Sys, h: Handle)
    requires cfg.Valid() && HandleOk(cfg, s, h) && s.storeSeq <= s'.storeSeq
    requires h.head.Head? ==> SameMem(s, s', h.head.rid)
    requires Agree(Private(h), s.inodes, s'.inodes) && Private(h) !! s'.frozen
    requires forall n: Name :: n.suffix == Tmp(h.tmp) && n.digest == h.digest && n in s.core.names ==>
               n in s'.core.names && s'.core.names[n] == s.core.names[n]
    ensures HandleOk(cfg, s', h)
  {
    hide TierHolds, OpenedDrives;
    if h.flushed {
      var l := cfg.LayoutOf(h.size);
      AgreeSub(h.ssd.Values, Private(h), s.inodes, s'.inodes);
      AgreeSub(h.hdd.Values, Private(h), s.inodes, s'.inodes);
      TierKept(cfg, Ssd, h.digest, h.ssd, s.inodes, s'.inodes, h.fed, 0, l.ssdBytes);
      TierKept(cfg, Hdd, h.digest, h.hdd, s.inodes, s'.inodes, h.fed, l.ssdBytes, l.hddBytes);
    }
  }

  // ---------------------------------------------------------------- steps on the guarded state only

  lemma ReadersKept(cfg: Config, s: Sys, s': Sys)
    requires cfg.Valid() && AllReaders(cfg, s) && Extends(s, s') && s'.readers == s.readers
    requires forall k :: k in s.readers && s.readers[k].pinned && s.readers[k].meta.head.Head? ==>
               SameMem(s, s', s.readers[k].meta.head.rid)
    ensures AllReaders(cfg, s')
  {
    hide ReaderOk, Extends;
    forall k | k in s.readers ensures ReaderOk(cfg, s', s.readers[k]) {
      ReaderKept(cfg, s, s', s.readers[k], s.readers[k]);
    }
  }

  lemma NotFrozen(cfg: Config, s: Sys, k: nat)
    requires cfg.Valid() && AllHandles(cfg, s) && k in s.handles
    ensures Private(s.handles[k]) !! s.frozen && Private(s.handles[k]) <= s.inodes.Keys
    ensures s.handles[k].head.Head? ==> s.handles[k].head.rid in s.mem
  {
    hide OnDisk, OpenedDrives;
    assert HandleOk(cfg, s, s.handles[k]);
  }

  /** Evictions, removals and new times to live. */
  lemma ShrinkStep(cfg: Config, s: Sys, c: State)
    requires cfg.Valid() && SysInv(cfg, s) && Shrinks(s.core, c) && Inv(cfg, c, HandleHeads(s), PinHolders(s))
    ensures SysInv(cfg, s.(core := c))
  {
    hide EntryOk, HandleOk, Inv, AllReaders;
    var s' := s.(core := c);
    assert HandleHeads(s') == HandleHeads(s) && PinHolders(s') == PinHolders(s);
    forall d | d in c.index ensures EntryOk(cfg, s', d) {
      EntryKept(cfg, s, s', d);
    }
    ReadersKept(cfg, s, s');
    forall k | k in s.handles ensures HandleOk(cfg, s', s.handles[k]) {
      NotFrozen(cfg, s, k);
      HandleKept(cfg, s, s', s.handles[k]);
    }
  }

  // ---------------------------------------------------------------- steps of one handle

  /** The reserved region of a handle is nobody's head, nobody's pin and no other handle's. */
  lemma HandleAlone(cfg: Config, s: Sys, hid: nat)
    requires cfg.Valid() && Inv(cfg, s.core, HandleHeads(s), PinHolders(s)) && hid in s.handles
             && s.handles[hid].head.Head?
    ensures var rid := s.handles[hid].head.rid;
            && (forall d :: d in s.core.index && s.core.index[d].head.Head? ==> s.core.index[d].head.rid != rid)
            && (forall k :: k in s.readers && s.readers[k].pinned && s.readers[k].meta.head.Head? ==>
                s.readers[k].meta.head.rid != rid)
            && (forall k :: k in s.handles && k != hid && s.handles[k].head.Head? ==> s.handles[k].head.rid != rid)
  {
    hide PinOk;
    var rid, hh, ph := s.handles[hid].head.rid, HandleHeads(s), PinHolders(s);
    assert hh[hid].rid == rid && !IndexHead(s.core.index, rid) && rid !in s.core.pins;
    forall k | k in s.readers && s.readers[k].pinned
      && s.readers[k].meta.head.Head? ensures s.readers[k].meta.head.rid != rid {
      assert k in ph && ph[k] in s.core.pins;
    }
    forall k | k in s.handles && k != hid && s.handles[k].head.Head? ensures s.handles[k].head.rid != rid {
      assert k in hh && hh[k].rid != hh[hid].rid;
    }
  }

  /** `s'` differs from `s` in what handle `hid` owns, and in how far that handle has got. */
  ghost predicate OwnWork(s: Sys, s': Sys, hid: nat)
    requires hid in s.handles
  {
    var h := s.handles[hid];
    && s'.core == s.core && s'.history == s.history && s'.frozen == s.frozen && s'.readers == s.readers
       && s'.storeSeq == s.storeSeq
    && s'.handles.Keys == s.handles.Keys && (forall k :: k in s.handles && k != hid ==> s'.handles[k] == s.handles[k])
    && s'.handles[hid] == h.(fed := s'.handles[hid].fed, flushed := s'.handles[hid].flushed)
    && (forall r {:trigger SameMem(s, s', r)} :: (h.head.Head? && h.head.rid == r) || SameMem(s, s', r))
    && s'.inodes.Keys == s.inodes.Keys && Agree(s.inodes.Keys - Private(h), s.inodes, s'.inodes)
  }

  lemma OwnWorkStep(cfg: Config, s: Sys, s': Sys, hid: nat)
    requires cfg.Valid() && SysInv(cfg, s) && hid in s.handles && OwnWork(s, s', hid)
             && HandleOk(cfg, s', s'.handles[hid])
    ensures SysInv(cfg, s')
  {
    hide AllEntries, AllReaders, AllHandles, HandleOk, Inv, HandlesApart;
    assert HandleHeads(s') == HandleHeads(s) && PinHolders(s') == PinHolders(s);
    OwnWorkEntries(cfg, s, s', hid);
    OwnWorkHandles(cfg, s, s', hid);
    OwnWorkApart(s, s', hid);
  }

  lemma OwnWorkExtends(cfg: Config, s: Sys, s': Sys, hid: nat)
    requires cfg.Valid() && SysInv(cfg, s) && hid in s.handles && OwnWork(s, s', hid)
    ensures Extends(s, s')
  {
    hide AllEntries, AllReaders, AllHandles, Inv, HandlesApart;
    NotFrozen(cfg, s, hid);
    AgreeSub(s.frozen, s.inodes.Keys - Private(s.handles[hid]), s.inodes, s'.inodes);
  }

  lemma OwnWorkEntries(cfg: Config, s: Sys, s': Sys, hid: nat)
    requires cfg.Valid() && SysInv(cfg, s) && hid in s.handles && OwnWork(s, s', hid)
    ensures AllEntries(cfg, s') && AllReaders(cfg, s')
  {
    hide EntryOk, AllReaders, AllHandles, Inv, HandlesApart, Extends;
    OwnWorkExtends(cfg, s, s', hid);
    if s.handles[hid].head.Head? {
      HandleAlone(cfg, s, hid);
    }
    forall d | d in s.core.index ensures EntryOk(cfg, s', d) {
      EntryKept(cfg, s, s', d);
    }
    ReadersKept(cfg, s, s');
  }

  lemma OwnWorkHandles(cfg: Config, s: Sys, s': Sys, hid: nat)
    requires cfg.Valid() && SysInv(cfg, s) && hid in s.handles && OwnWork(s, s', hid)
             && HandleOk(cfg, s', s'.handles[hid])
    ensures AllHandles(cfg, s')
  {
    hide AllEntries, AllReaders, HandleOk, Inv;
    if s.handles[hid].head.Head? {
      HandleAlone(cfg, s, hid);
    }
    forall k | k in s'.handles && k != hid ensures HandleOk(cfg, s', s'.handles[k]) {
      NotFrozen(cfg, s, k);
      AgreeSub(Private(s.handles[k]), s.inodes.Keys - Private(s.handles[hid]), s.inodes, s'.inodes);
      HandleKept(cfg, s, s', s.handles[k]);
    }
  }

  lemma OwnWorkApart(s: Sys, s': Sys, hid: nat)
    requires hid in s.handles && OwnWork(s, s', hid) && HandlesApart(s)
    ensures HandlesApart(s')
  {
    forall j, k | j in s'.handles && k in s'.handles && j != k
      ensures Private(s'.handles[j]) !! Private(s'.handles[k]) && s'.handles[j].tmp != s'.handles[k].tmp
    {
      assert j in s.handles && k in s.handles;
      assert s'.handles[j].tmp == s.handles[j].tmp && s'.handles[k].tmp == s.handles[k].tmp;
      assert Private(s'.handles[j]) == Private(s.handles[j]) && Private(s'.handles[k]) == Private(s.handles[k]);
    }
  }

  lemma WriteIsOwnWork(s: Sys, hid: nat, chunk: seq<byte>, bytes: seq<byte>, files: map<Inode, File>)
    requires CanWrite(s, hid, chunk, bytes, files) && Private(s.handles[hid]) <= s.inodes.Keys
    ensures OwnWork(s, DoWrite(s, hid, chunk, bytes, files), hid)
  {
  }

  lemma WriteStep(cfg: Config, s: Sys, hid: nat, chunk: seq<byte>, bytes: seq<byte>, files: map<Inode, File>)
    requires cfg.Valid() && SysInv(cfg, s) && CanWrite(s, hid, chunk, bytes, files)
    ensures SysInv(cfg, DoWrite(s, hid, chunk, bytes, files))
  {
    hide AllEntries, AllReaders, Inv, HandlesApart, OwnWork, HandleOk;
    NotFrozen(cfg, s, hid);
    WriteIsOwnWork(s, hid, chunk, bytes, files);
    WriteHandleOk(cfg, s, hid, chunk, bytes, files);
    OwnWorkStep(cfg, s, DoWrite(s, hid, chunk, bytes, files), hid);
  }

  lemma WriteHandleOk(cfg: Config, s: Sys, hid: nat, chunk: seq<byte>, bytes: seq<byte>, files: map<Inode, File>)
    requires cfg.Valid() && CanWrite(s, hid, chunk, bytes, files) && HandleOk(cfg, s, s.handles[hid])
    ensures HandleOk(cfg, DoWrite(s, hid, chunk, bytes, files),
                     s.handles[hid].(fed := s.handles[hid].fed + chunk, flushed := false))
  {
    hide OnDisk, OpenedDrives;
  }

  lemma FlushIsOwnWork(s: Sys, hid: nat, files: map<Inode, File>)
    requires hid in s.handles && files.Keys == Private(s.handles[hid]) <= s.inodes.Keys
    ensures OwnWork(s, DoFlush(s, hid, files), hid)
  {
  }

  lemma FlushStep(cfg: Config, s: Sys, hid: nat, files: map<Inode, File>)
    requires cfg.Valid() && SysInv(cfg, s) && CanFlush(cfg, s, hid, files)
    ensures SysInv(cfg, DoFlush(s, hid, files))
  {
    hide AllEntries, AllReaders, Inv, HandlesApart, OwnWork, HandleOk, OnDisk;
    NotFrozen(cfg, s, hid);
    FlushIsOwnWork(s, hid, files);
    FlushHandleOk(cfg, s, hid, files);
    OwnWorkStep(cfg, s, DoFlush(s, hid, files), hid);
  }

  lemma FlushHandleOk(cfg: Config, s: Sys, hid: nat, files: map<Inode, File>)
    requires cfg.Valid() && CanFlush(cfg, s, hid, files) && HandleOk(cfg, s, s.handles[hid])
    ensures HandleOk(cfg, DoFlush(s, hid, files), s.handles[hid].(flushed := true))
  {
    hide OnDisk, OpenedDrives;
  }

  // ---------------------------------------------------------------- steps of one reader

  /** Steps that touch pins, regions and readers only. */
  ghost predicate SameData(s: Sys, s': Sys)
  {
    && s'.core.index == s.core.index && s'.core.names == s.core.names && s'.core.etagSeq == s.core.etagSeq
    && s'.mem == s.mem && s'.inodes == s.inodes && s'.frozen == s.frozen
    && s'.handles == s.handles && s'.history == s.history && s'.storeSeq == s.storeSeq
  }

  lemma SameDataKept(cfg: Config, s: Sys, s': Sys)
    requires cfg.Valid() && SysInv(cfg, s) && SameData(s, s')
    ensures AllEntries(cfg, s') && AllHandles(cfg, s') && HandlesApart(s') && Counters(s') && Extends(s, s')
  {
    hide EntryOk, HandleOk, AllReaders, Inv;
    forall d | d in s.core.index ensures EntryOk(cfg, s', d) {
      EntryKept(cfg, s, s', d);
    }
    forall k | k in s.handles ensures HandleOk(cfg, s', s.handles[k]) {
      NotFrozen(cfg, s, k);
      HandleKept(cfg, s, s', s.handles[k]);
    }
  }

  ghost predicate OtherReaders(s: Sys, s': Sys, sid: nat)
  {
    forall k :: k != sid ==> (k in s'.readers <==> k in s.readers) && (k in s.readers ==> s'.readers[k] == s.readers[k])
  }

  /** A step that opens, changes or closes reader `sid`. */
  lemma ReaderStep(cfg: Config, s: Sys, s': Sys, sid: nat)
    requires cfg.Valid() && SysInv(cfg, s) && SameData(s, s') && Inv(cfg, s'.core, HandleHeads(s'), PinHolders(s'))
    requires OtherReaders(s, s', sid)
    requires sid in s'.readers ==> ReaderOk(cfg, s, s'.readers[sid])
    ensures SysInv(cfg, s')
  {
    hide AllEntries, AllHandles, HandlesApart, ReaderOk, Inv, Counters, Extends, PinHolders, HandleHeads;
    SameDataKept(cfg, s, s');
    forall k | k in s'.readers ensures ReaderOk(cfg, s', s'.readers[k]) {
      if k != sid {
        assert k in s.readers && s'.readers[k] == s.readers[k];
      }
      ReaderKept(cfg, s, s', s'.readers[k], s'.readers[k]);
    }
  }

  lemma EntryReader(cfg: Config, s: Sys, d: Digest)
    requires cfg.Valid() && SysInv(cfg, s) && d in s.core.index
    ensures ReaderOk(cfg, s, SnapshotReader(cfg, s.core, d)) && ReaderOk(cfg, s, CopyReader(cfg, s, d))
    ensures var r := SnapshotReader(cfg, s.core, d); r.meta == s.core.index[d] && (r.pinned <==> r.meta.head.Head?)
  {
    hide LiveFds, TierHolds, AllReaders, AllHandles, Owned, HandlesApart;
    assert EntryOk(cfg, s, d);
  }

  lemma CopyIsUnpinned(cfg: Config, s: Sys, d: Digest)
    requires cfg.Valid() && d in s.core.index
    ensures !CopyReader(cfg, s, d).pinned
  {
    hide LiveFds;
  }

  lemma SnapshotPins(s: Sys, s': Sys, sid: nat, r: Reader)
    requires sid !in s.readers && s'.readers == s.readers[sid := r] && (r.pinned <==> r.meta.head.Head?)
    ensures sid !in PinHolders(s)
    ensures PinHolders(s') == if r.pinned then PinHolders(s)[sid := r.meta.head.rid] else PinHolders(s)
  {
  }

  lemma SnapshotInv(cfg: Config, s: Sys, sid: nat, d: Digest)
    requires cfg.Valid() && SysInv(cfg, s) && sid !in s.readers && d in s.core.index
    ensures var s' := DoSnapshot(cfg, s, sid, d);
            Inv(cfg, s'.core, HandleHeads(s'), PinHolders(s')) && SameData(s, s')
  {
    hide Owned, AllEntries, AllReaders, AllHandles, SnapshotReader, PinRegion, HeadSizes, PoliciesAgree, HandlesApart,
         PinHolders, ReaderOk;
    var s' := DoSnapshot(cfg, s, sid, d);
    var m := s.core.index[d];
    EntryReader(cfg, s, d);
    SnapshotPins(s, s', sid, SnapshotReader(cfg, s.core, d));
    assert HandleHeads(s') == HandleHeads(s);
    if m.head.Head? {
      PinOwned(s.core, d, sid, HandleHeads(s), PinHolders(s));
      PinKeeps(cfg, s.core, m.head.rid, m.head.len);
    }
  }

  lemma SnapshotStep(cfg: Config, s: Sys, sid: nat, d: Digest)
    requires cfg.Valid() && SysInv(cfg, s) && sid !in s.readers && d in s.core.index
    ensures SysInv(cfg, DoSnapshot(cfg, s, sid, d))
  {
    hide ReaderOk, AllEntries, AllReaders, AllHandles, SnapshotReader, PinRegion, Inv, HandlesApart, PinHolders;
    var s' := DoSnapshot(cfg, s, sid, d);
    EntryReader(cfg, s, d);
    SnapshotInv(cfg, s, sid, d);
    ReaderStep(cfg, s, s', sid);
  }

  lemma PinKeeps(cfg: Config, c: State, r: Rid, len: nat)
    ensures var c' := PinRegion(c, r, len);
            && c'.index == c.index && c'.names == c.names && c'.etagSeq == c.etagSeq
            && (PoliciesAgree(c) ==> PoliciesAgree(c')) && (HeadSizes(cfg, c) ==> HeadSizes(cfg, c'))
  {
  }

  lemma UnpinKeeps(cfg: Config, c: State, r: Rid)
    ensures var c' := UnpinRegion(c, r);
            && c'.index == c.index && c'.names == c.names && c'.etagSeq == c.etagSeq
            && (PoliciesAgree(c) ==> PoliciesAgree(c')) && (HeadSizes(cfg, c) ==> HeadSizes(cfg, c'))
  {
  }

  lemma CopyStep(cfg: Config, s: Sys, sid: nat, d: Digest)
    requires cfg.Valid() && SysInv(cfg, s) && sid !in s.readers && d in s.core.index
    ensures SysInv(cfg, s.(readers := s.readers[sid := CopyReader(cfg, s, d)]))
  {
    hide EntryOk, ReaderOk, Inv, AllEntries, AllReaders, AllHandles, CopyReader;
    var s' := s.(readers := s.readers[sid := CopyReader(cfg, s, d)]);
    CopyIsUnpinned(cfg, s, d);
    EntryReader(cfg, s, d);
    assert HandleHeads(s') == HandleHeads(s) && PinHolders(s') == PinHolders(s);
    ReaderStep(cfg, s, s', sid);
  }

  lemma UnpinStep(cfg: Config, s: Sys, sid: nat)
    requires cfg.Valid() && SysInv(cfg, s) && sid in s.readers && s.readers[sid].pinned
             && s.readers[sid].meta.head.Head?
    ensures SysInv(cfg, DoUnpin(s, sid))
  {
    hide EntryOk, ReaderOk, Owned, AllEntries, AllHandles, UnpinRegion, HeadSizes, PoliciesAgree;
    var s', ph := DoUnpin(s, sid), PinHolders(s);
    var r := s.readers[sid];
    assert sid in ph && ph[sid] == r.meta.head.rid;
    UnpinOwned(s.core, sid, HandleHeads(s), ph);
    UnpinKeeps(cfg, s.core, r.meta.head.rid);
    assert PinHolders(s') == ph - {sid} && HandleHeads(s') == HandleHeads(s);
    ReaderKept(cfg, s, s, r, r.(pinned := false));
    ReaderStep(cfg, s, s', sid);
  }

  lemma CloseStep(cfg: Config, s: Sys, sid: nat)
    requires cfg.Valid() && SysInv(cfg, s) && sid in s.readers && !s.readers[sid].pinned
    ensures SysInv(cfg, s.(readers := s.readers - {sid}))
  {
    hide EntryOk, ReaderOk, Inv, AllEntries, AllReaders, AllHandles;
    var s' := s.(readers := s.readers - {sid});
    assert PinHolders(s') == PinHolders(s) && HandleHeads(s') == HandleHeads(s);
    ReaderStep(cfg, s, s', sid);
  }

  // ---------------------------------------------------------------- opening and abandoning a store

  lemma TmpNamesSuffix(d: Digest, tmp: nat, ssd: Fds, hdd: Fds)
    ensures forall n :: n in TmpNames(d, tmp, ssd, hdd) ==> n.suffix == Tmp(tmp)
    ensures forall x :: x in ssd ==>
            Name(Ssd, x, d, Tmp(tmp)) in TmpNames(d, tmp, ssd, hdd)
            && TmpNames(d, tmp, ssd, hdd)[Name(Ssd, x, d, Tmp(tmp))] == ssd[x]
    ensures forall x :: x in hdd ==>
            Name(Hdd, x, d, Tmp(tmp)) in TmpNames(d, tmp, ssd, hdd)
            && TmpNames(d, tmp, ssd, hdd)[Name(Hdd, x, d, Tmp(tmp))] == hdd[x]
  {
  }

  /** Regions in use are in use: a region outside them belongs to no entry and no reader. */
  lemma FreshRegion(cfg: Config, s: Sys, r: Rid)
    requires cfg.Valid() && Inv(cfg, s.core, HandleHeads(s), PinHolders(s)) && r !in s.core.regions
    ensures forall d :: d in s.core.index && s.core.index[d].head.Head? ==> s.core.index[d].head.rid != r
    ensures forall k :: k in s.readers && s.readers[k].pinned && s.readers[k].meta.head.Head? ==>
              s.readers[k].meta.head.rid != r
    ensures forall k :: k in s.handles && s.handles[k].head.Head? ==> s.handles[k].head.rid != r
  {
    var hh, ph := HandleHeads(s), PinHolders(s);
    forall k | k in s.readers && s.readers[k].pinned
      && s.readers[k].meta.head.Head? ensures s.readers[k].meta.head.rid != r {
      assert k in ph && ph[k] in s.core.pins && PinOk(s.core, ph, ph[k]);
    }
    forall k | k in s.handles && s.handles[k].head.Head? ensures s.handles[k].head.rid != r {
      assert k in hh && hh[k].rid in s.core.regions;
    }
  }

  lemma OpenInv(cfg: Config, s: Sys, hid: nat, d: Digest, size: nat, head: Head, bytes: seq<byte>, ssd: Fds, hdd: Fds)
    requires cfg.Valid() && SysInv(cfg, s) && CanOpen(cfg, s, hid, d, size, head, bytes, ssd, hdd)
    ensures var s' := OpenHandle(s, hid, d, size, head, bytes, ssd, hdd);
            Inv(cfg, s'.core, HandleHeads(s'), PinHolders(s'))
  {
    hide Owned, AllEntries, AllReaders, AllHandles, HandlesApart, TmpNames, FreshFiles;
    var s' := OpenHandle(s, hid, d, size, head, bytes, ssd, hdd);
    assert HandleHeads(s') == HandleHeads(s)[hid := head] && PinHolders(s') == PinHolders(s);
    ReserveOwned(s.core, hid, head, HandleHeads(s), PinHolders(s));
    var c := if head.Head? then s.core.(regions := s.core.regions[head.rid := head.len]) else s.core;
    OwnedNames(c, s'.core, HandleHeads(s'), PinHolders(s'));
  }

  lemma OpenExtends(cfg: Config, s: Sys, hid: nat, d: Digest, size: nat, head: Head, bytes: seq<byte>, ssd: Fds,
                    hdd: Fds)
    requires cfg.Valid() && Counters(s) && CanOpen(cfg, s, hid, d, size, head, bytes, ssd, hdd)
    ensures var s' := OpenHandle(s, hid, d, size, head, bytes, ssd, hdd);
            && Extends(s, s') && Counters(s') && Agree(s.inodes.Keys, s.inodes, s'.inodes)
            && (forall r {:trigger SameMem(s, s', r)} :: (head.Head? && head.rid == r) || SameMem(s, s', r))
  {
    hide OpenedDrives, TmpNames;
  }

  lemma OpenEntries(cfg: Config, s: Sys, hid: nat, d: Digest, size: nat, head: Head, bytes: seq<byte>, ssd: Fds,
                    hdd: Fds)
    requires cfg.Valid() && SysInv(cfg, s) && CanOpen(cfg, s, hid, d, size, head, bytes, ssd, hdd)
    ensures var s' := OpenHandle(s, hid, d, size, head, bytes, ssd, hdd);
            AllEntries(cfg, s') && AllReaders(cfg, s')
  {
    hide EntryOk, AllReaders, AllHandles, HandlesApart, TmpNames, FreshFiles, Inv, Extends, OpenedDrives;
    var s' := OpenHandle(s, hid, d, size, head, bytes, ssd, hdd);
    OpenExtends(cfg, s, hid, d, size, head, bytes, ssd, hdd);
    TmpNamesSuffix(d, s.storeSeq, ssd, hdd);
    if head.Head? {
      FreshRegion(cfg, s, head.rid);
    }
    forall e | e in s.core.index ensures EntryOk(cfg, s', e) {
      EntryKept(cfg, s, s', e);
    }
    ReadersKept(cfg, s, s');
  }

  lemma OpenHandles(cfg: Config, s: Sys, hid: nat, d: Digest, size: nat, head: Head, bytes: seq<byte>, ssd: Fds,
                    hdd: Fds)
    requires cfg.Valid() && SysInv(cfg, s) && CanOpen(cfg, s, hid, d, size, head, bytes, ssd, hdd)
    ensures var s' := OpenHandle(s, hid, d, size, head, bytes, ssd, hdd);
            AllHandles(cfg, s')
  {
    hide AllEntries, AllReaders, HandleOk, TmpNames, FreshFiles, Inv, Extends, OpenedDrives, HandlesApart;
    var s' := OpenHandle(s, hid, d, size, head, bytes, ssd, hdd);
    OpenExtends(cfg, s, hid, d, size, head, bytes, ssd, hdd);
    TmpNamesSuffix(d, s.storeSeq, ssd, hdd);
    if head.Head? {
      FreshRegion(cfg, s, head.rid);
    }
    forall k | k in s.handles ensures HandleOk(cfg, s', s.handles[k]) {
      NotFrozen(cfg, s, k);
      OldTmp(cfg, s, k);
      HandleKept(cfg, s, s', s.handles[k]);
    }
    NewHandle(cfg, s, hid, d, size, head, bytes, ssd, hdd);
  }

  lemma OpenApart(cfg: Config, s: Sys, hid: nat, d: Digest, size: nat, head: Head, bytes: seq<byte>, ssd: Fds, hdd: Fds)
    requires cfg.Valid() && AllHandles(cfg, s) && HandlesApart(s)
             && CanOpen(cfg, s, hid, d, size, head, bytes, ssd, hdd)
    ensures HandlesApart(OpenHandle(s, hid, d, size, head, bytes, ssd, hdd))
  {
    hide AllHandles, TmpNames, FreshFiles, OpenedDrives;
    forall k | k in s.handles ensures Private(s.handles[k]) <= s.inodes.Keys && s.handles[k].tmp < s.storeSeq {
      NotFrozen(cfg, s, k);
      OldTmp(cfg, s, k);
    }
  }

  lemma OldTmp(cfg: Config, s: Sys, k: nat)
    requires cfg.Valid() && AllHandles(cfg, s) && k in s.handles
    ensures s.handles[k].tmp < s.storeSeq
  {
    hide OnDisk, OpenedDrives;
    assert HandleOk(cfg, s, s.handles[k]);
  }

  lemma NewHandle(cfg: Config, s: Sys, hid: nat, d: Digest, size: nat, head: Head, bytes: seq<byte>, ssd: Fds, hdd: Fds)
    requires cfg.Valid() && Counters(s) && CanOpen(cfg, s, hid, d, size, head, bytes, ssd, hdd)
    ensures var s' := OpenHandle(s, hid, d, size, head, bytes, ssd, hdd);
            HandleOk(cfg, s', s'.handles[hid])
  {
    hide OpenedDrives, TmpNames;
    TmpNamesSuffix(d, s.storeSeq, ssd, hdd);
  }

  lemma OpenStep(cfg: Config, s: Sys, hid: nat, d: Digest, size: nat, head: Head, bytes: seq<byte>, ssd: Fds, hdd: Fds)
    requires cfg.Valid() && SysInv(cfg, s) && CanOpen(cfg, s, hid, d, size, head, bytes, ssd, hdd)
    ensures SysInv(cfg, OpenHandle(s, hid, d, size, head, bytes, ssd, hdd))
  {
    hide AllEntries, AllReaders, AllHandles, HandlesApart, Inv, Counters, CanOpen, OpenHandle;
    OpenInv(cfg, s, hid, d, size, head, bytes, ssd, hdd);
    OpenExtends(cfg, s, hid, d, size, head, bytes, ssd, hdd);
    OpenEntries(cfg, s, hid, d, size, head, bytes, ssd, hdd);
    OpenHandles(cfg, s, hid, d, size, head, bytes, ssd, hdd);
    OpenApart(cfg, s, hid, d, size, head, bytes, ssd, hdd);
  }

  lemma AbortInv(cfg: Config, s: Sys, hid: nat)
    requires cfg.Valid() && SysInv(cfg, s) && hid in s.handles
    ensures var s' := DoAbort(cfg, s, hid);
            Inv(cfg, s'.core, HandleHeads(s'), PinHolders(s'))
  {
    hide Owned, AllEntries, AllReaders, AllHandles, HandlesApart, NamesOf;
    var s' := DoAbort(cfg, s, hid);
    assert HandleHeads(s') == HandleHeads(s) - {hid} && PinHolders(s') == PinHolders(s);
    AbortOwned(s.core, hid, HandleHeads(s), PinHolders(s));
    var h := s.handles[hid];
    var c := if h.head.Head? then s.core.(regions := s.core.regions - {h.head.rid}) else s.core;
    OwnedNames(c, s'.core, HandleHeads(s'), PinHolders(s'));
  }

  lemma AbortStep(cfg: Config, s: Sys, hid: nat)
    requires cfg.Valid() && SysInv(cfg, s) && hid in s.handles
    ensures SysInv(cfg, DoAbort(cfg, s, hid))
  {
    hide EntryOk, AllReaders, HandleOk, NamesOf, Inv;
    var s', h := DoAbort(cfg, s, hid), s.handles[hid];
    AbortInv(cfg, s, hid);
    NamesAreOwn(cfg, h.digest, h.size, Tmp(h.tmp));
    forall e | e in s.core.index ensures EntryOk(cfg, s', e) {
      EntryKept(cfg, s, s', e);
    }
    ReadersKept(cfg, s, s');
    forall k | k in s'.handles ensures HandleOk(cfg, s', s'.handles[k]) {
      NotFrozen(cfg, s, k);
      HandleKept(cfg, s, s', s.handles[k]);
    }
  }

  // ---------------------------------------------------------------- publication

  /** What a publication does to names: live names of the object change, its scratch names go. */
  lemma PublishNames(cfg: Config, names: map<Name, Inode>, d: Digest, size: nat, tmp: nat)
    requires cfg.Valid() && NamesOf(cfg, d, size, Tmp(tmp)) <= names.Keys
    ensures var names' := Publish(cfg, names, d, size, tmp);
            && (forall n :: n in NamesOf(cfg, d, size, Live) ==> n in names' && names'[n] == names[TmpOf(n, tmp)])
            && (forall n: Name :: n.digest != d && n in names ==> n in names' && names'[n] == names[n])
            && (forall n: Name :: n.digest != d && n in names' ==> n in names)
            && (forall n: Name :: n.suffix.Tmp? && n.suffix != Tmp(tmp) && n in names ==>
                n in names' && names'[n] == names[n])
  {
    hide OpenedDrives;
    NamesAreOwn(cfg, d, size, Tmp(tmp));
    NamesAreOwn(cfg, d, size, Live);
  }

  lemma NamesListed(cfg: Config, d: Digest, size: nat, suffix: Suffix)
    requires cfg.Valid()
    ensures forall x :: x in OpenedDrives(cfg.ssdPool, d.bucket, cfg.LayoutOf(size).ssdBytes) ==>
              Name(Ssd, x, d, suffix) in NamesOf(cfg, d, size, suffix)
    ensures forall x :: x in OpenedDrives(cfg.hddPool, d.bucket, cfg.LayoutOf(size).hddBytes) ==>
              Name(Hdd, x, d, suffix) in NamesOf(cfg, d, size, suffix)
  {
    hide OpenedDrives;
  }

  /** After publication the live names lead to the files the handle wrote. */
  lemma PublishedFds(cfg: Config, s: Sys, h: Handle)
    requires cfg.Valid() && HandleOk(cfg, s, h) && NamesOf(cfg, h.digest, h.size, Tmp(h.tmp)) <= s.core.names.Keys
    ensures var names' := Publish(cfg, s.core.names, h.digest, h.size, h.tmp);
            && LiveFds(cfg, names', Ssd, h.digest, cfg.LayoutOf(h.size).ssdBytes) == h.ssd
            && LiveFds(cfg, names', Hdd, h.digest, cfg.LayoutOf(h.size).hddBytes) == h.hdd
  {
    hide OpenedDrives, NamesOf, OnDisk, Publish;
    PublishNames(cfg, s.core.names, h.digest, h.size, h.tmp);
    NamesListed(cfg, h.digest, h.size, Live);
  }

  lemma PublishedEntry(cfg: Config, s: Sys, s': Sys, h: Handle, m: Meta)
    requires cfg.Valid() && HandleOk(cfg, s, h) && h.flushed
    requires NamesOf(cfg, h.digest, h.size, Tmp(h.tmp)) <= s.core.names.Keys
    requires h.digest in s'.core.index && s'.core.index[h.digest] == m && m.size == h.size && m.head == h.head
    requires m.etag in s'.history && s'.history[m.etag] == Version(h.digest, h.fed)
    requires s'.core.names == Publish(cfg, s.core.names, h.digest, h.size, h.tmp)
    requires s'.mem == s.mem && s'.inodes == s.inodes && Private(h) <= s'.frozen
    ensures EntryOk(cfg, s', h.digest)
  {
    hide OpenedDrives, NamesOf, TierHolds, Publish, LiveFds;
    PublishedFds(cfg, s, h);
  }

  lemma PublishedCore(cfg: Config, s: Sys, hid: nat, flags: nat, expiry: nat)
    requires cfg.Valid() && SysInv(cfg, s) && hid in s.handles
    requires NamesOf(cfg, s.handles[hid].digest, s.handles[hid].size, Tmp(s.handles[hid].tmp)) <= s.core.names.Keys
    ensures var s', h := Published(cfg, s, hid, flags, expiry), s.handles[hid];
            && Inv(cfg, s'.core, HandleHeads(s'), PinHolders(s'))
            && s'.core.index == s.core.index[h.digest := Meta(h.size, flags, expiry, s.core.etagSeq + 1, h.head)]
            && s'.core.names == Publish(cfg, s.core.names, h.digest, h.size, h.tmp)
               && s'.core.etagSeq == s.core.etagSeq + 1
  {
    hide Inv, AllEntries, AllReaders, AllHandles, HandlesApart, NamesOf, RetireHead, Publish;
    var s', h := Published(cfg, s, hid, flags, expiry), s.handles[hid];
    assert HandleHeads(s') == HandleHeads(s) - {hid} && PinHolders(s') == PinHolders(s);
    HandleFits(cfg, s, hid);
    PublicationInv(cfg, s.core, h.digest, h.size, h.tmp, flags, expiry, hid, HandleHeads(s), PinHolders(s));
    PublicationNames(cfg, s.core, h.digest, h.size, h.tmp, h.head, flags, expiry);
  }

  lemma PublicationNames(cfg: Config, c: State, d: Digest, size: nat, tmp: nat, head: Head, flags: nat, expiry: nat)
    requires cfg.Valid() && NamesOf(cfg, d, size, Tmp(tmp)) <= c.names.Keys
    ensures var c' := Publication(cfg, c, d, size, tmp, head, flags, expiry);
            c'.names == Publish(cfg, c.names, d, size, tmp) && c'.etagSeq == c.etagSeq + 1
  {
    hide NamesOf, Publish;
  }

  lemma HandleFits(cfg: Config, s: Sys, hid: nat)
    requires cfg.Valid() && AllHandles(cfg, s) && hid in s.handles
    ensures HeadFits(cfg, s.handles[hid].size, s.handles[hid].head)
  {
    hide OnDisk, OpenedDrives;
    assert HandleOk(cfg, s, s.handles[hid]);
  }

  lemma PublishedExtends(cfg: Config, s: Sys, hid: nat, flags: nat, expiry: nat)
    requires cfg.Valid() && SysInv(cfg, s) && hid in s.handles
    requires NamesOf(cfg, s.handles[hid].digest, s.handles[hid].size, Tmp(s.handles[hid].tmp)) <= s.core.names.Keys
    ensures var s' := Published(cfg, s, hid, flags, expiry);
            Extends(s, s') && Counters(s') && HandlesApart(s')
  {
    hide Inv, AllEntries, AllReaders, AllHandles, NamesOf, Publication, HandlesApart, Extends, Counters, Publish,
         HandleHeads, PinHolders;
    PublishedCore(cfg, s, hid, flags, expiry);
    NotFrozen(cfg, s, hid);
    var s', h := Published(cfg, s, hid, flags, expiry), s.handles[hid];
    FewerApart(s, s', hid);
    NewVersion(s, s', Version(h.digest, h.fed), Private(h));
  }

  lemma NewVersion(s: Sys, s': Sys, v: Version, files: set<Inode>)
    requires Counters(s) && files <= s.inodes.Keys
    requires s'.history == s.history[s.core.etagSeq + 1 := v] && s'.core.etagSeq == s.core.etagSeq + 1
    requires s'.inodes == s.inodes && s'.frozen == s.frozen + files
    ensures Extends(s, s') && Counters(s')
  {
  }

  lemma FewerApart(s: Sys, s': Sys, hid: nat)
    requires HandlesApart(s) && s'.handles == s.handles - {hid}
    ensures HandlesApart(s')
  {
  }

  lemma PublishedEntries(cfg: Config, s: Sys, hid: nat, flags: nat, expiry: nat)
    requires cfg.Valid() && SysInv(cfg, s) && hid in s.handles && s.handles[hid].flushed
    requires NamesOf(cfg, s.handles[hid].digest, s.handles[hid].size, Tmp(s.handles[hid].tmp)) <= s.core.names.Keys
    ensures var s' := Published(cfg, s, hid, flags, expiry);
            AllEntries(cfg, s') && AllReaders(cfg, s')
  {
    hide EntryOk, AllReaders, HandleOk, Inv, HandlesApart, Counters, Extends, NamesOf, Publication, Publish;
    var s', h := Published(cfg, s, hid, flags, expiry), s.handles[hid];
    PublishedCore(cfg, s, hid, flags, expiry);
    PublishedExtends(cfg, s, hid, flags, expiry);
    PublishNames(cfg, s.core.names, h.digest, h.size, h.tmp);
    PublishedEntry(cfg, s, s', h, s'.core.index[h.digest]);
    forall e | e in s'.core.index && e != h.digest ensures EntryOk(cfg, s', e) {
      EntryKept(cfg, s, s', e);
    }
    ReadersKept(cfg, s, s');
  }

  lemma PublishedHandles(cfg: Config, s: Sys, hid: nat, flags: nat, expiry: nat)
    requires cfg.Valid() && SysInv(cfg, s) && hid in s.handles
    requires NamesOf(cfg, s.handles[hid].digest, s.handles[hid].size, Tmp(s.handles[hid].tmp)) <= s.core.names.Keys
    ensures AllHandles(cfg, Published(cfg, s, hid, flags, expiry))
  {
    hide AllEntries, AllReaders, HandleOk, Inv, Counters, NamesOf, Publication, Publish;
    var s', h := Published(cfg, s, hid, flags, expiry), s.handles[hid];
    PublishedCore(cfg, s, hid, flags, expiry);
    PublishNames(cfg, s.core.names, h.digest, h.size, h.tmp);
    forall k | k in s'.handles ensures HandleOk(cfg, s', s'.handles[k]) {
      NotFrozen(cfg, s, k);
      HandleKept(cfg, s, s', s.handles[k]);
    }
  }

  lemma CommitStep(cfg: Config, s: Sys, hid: nat, flags: nat, expiry: nat, cas: nat, now: nat, victims: seq<Digest>)
    requires cfg.Valid() && SysInv(cfg, s) && CanCommit(cfg, s, hid, cas, now)
    ensures SysInv(cfg, DoCommit(cfg, s, hid, flags, expiry, victims))
    ensures SysInv(cfg, Published(cfg, s, hid, flags, expiry))
  {
    hide AllEntries, AllReaders, AllHandles, HandlesApart, Inv, Counters, NamesOf, Published, DropObjects;
    PublishedCore(cfg, s, hid, flags, expiry);
    PublishedExtends(cfg, s, hid, flags, expiry);
    PublishedEntries(cfg, s, hid, flags, expiry);
    PublishedHandles(cfg, s, hid, flags, expiry);
    var p := Published(cfg, s, hid, flags, expiry);
    DropObjectsInv(cfg, p.core, victims, HandleHeads(p), PinHolders(p));
    ShrinkStep(cfg, p, DropObjects(cfg, p.core, victims));
  }

  // ---------------------------------------------------------------- every step, every run

  /** Every step keeps the invariant. */
  lemma StepInv(cfg: Config, s: Sys, step: Step)
    requires cfg.Valid() && SysInv(cfg, s) && Enabled(cfg, s, step)
    ensures SysInv(cfg, Apply(cfg, s, step))
  {
    hide AllEntries, AllReaders, AllHandles, HandlesApart, Inv, Counters, NamesOf, CanOpen, CanWrite, CanFlush,
         OpenHandle, DoWrite, DoFlush, DoCommit, DoAbort, DoSnapshot, CopyReader, DoUnpin, DropObject;
    match step
    case Begin(hid, d, size, victims, head, bytes, ssd, hdd) =>
      EvictHeadsInv(cfg, s.core, victims, HandleHeads(s), PinHolders(s));
      ShrinkStep(cfg, s, EvictHeads(cfg, s.core, victims));
      OpenStep(cfg, s.(core := EvictHeads(cfg, s.core, victims)), hid, d, size, head, bytes, ssd, hdd);
    case Blocked(_, victims) =>
      EvictHeadsInv(cfg, s.core, victims, HandleHeads(s), PinHolders(s));
      ShrinkStep(cfg, s, EvictHeads(cfg, s.core, victims));
    case Write(hid, chunk, bytes, files) => WriteStep(cfg, s, hid, chunk, bytes, files);
    case Flush(hid, files) => FlushStep(cfg, s, hid, files);
    case Commit(hid, flags, expiry, cas, now, victims) => CommitStep(cfg, s, hid, flags, expiry, cas, now, victims);
    case Abort(hid) => AbortStep(cfg, s, hid);
    case Remove(d) =>
      DropObjectInv(cfg, s.core, d, HandleHeads(s), PinHolders(s));
      ShrinkStep(cfg, s, DropObject(cfg, s.core, d));
    case TouchTtl(d, expiry) =>
      TouchedInv(cfg, s.core, d, expiry, HandleHeads(s), PinHolders(s));
      ShrinkStep(cfg, s, Touched(s.core, d, expiry));
    case OpenSnapshot(sid, d, now) => SnapshotStep(cfg, s, sid, d);
    case OpenCopy(sid, d) => CopyStep(cfg, s, sid, d);
    case Unpin(sid) => UnpinStep(cfg, s, sid);
    case Close(sid) => CloseStep(cfg, s, sid);
  }
}
