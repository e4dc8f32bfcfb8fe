/**
  The storage engine as a concurrent system (src/goblin/storage/tier_manager.cpp): many store
  handles and readers over the state the lock guards. One step is one critical section, one
  `write()` of a handle, or the final flush of a handle; steps of all of them interleave freely.

  RAM is a map from allocated region to its bytes (BufferPool.Pool.RegionsDisjoint is why distinct
  regions may be kept apart), disk is a map from inode to bytes. Names lead to inodes; an open file
  holds its inode whatever happens to the name.
*/
module Engine {
  import opened Arith
  import opened Striping
  import opened StripedIo
  import opened Layout
  import opened S3Fifo
  import opened Core
  import opened HeadRoom

  type Fds = map<nat, Inode>

  /** A store in progress: `fed` is what has been written so far. */
  datatype Handle = Handle(digest: Digest, size: nat, head: Head, tmp: nat, ssd: Fds, hdd: Fds, fed: seq<byte>,
                           flushed: bool)

  /** An open read: what it saw of the index, whether it pins the head, and the files it opened. */
  datatype Reader = Reader(digest: Digest, meta: Meta, pinned: bool, copied: seq<byte>, ssd: Option<Fds>,
                           hdd: Option<Fds>)

  /** A published value; versions are told apart by their etag. */
  datatype Version = Version(digest: Digest, value: seq<byte>)

  datatype Sys = Sys(core: State, mem: map<Rid, seq<byte>>, inodes: map<Inode, File>, frozen: set<Inode>,
                     handles: map<nat, Handle>, readers: map<nat, Reader>, history: map<nat, Version>, storeSeq: nat)

  // ---------------------------------------------------------------- views

  function HandleHeads(s: Sys): map<nat, Head> { map k | k in s.handles :: s.handles[k].head }

  function PinHolders(s: Sys): map<nat, Rid>
  {
    map k | k in s.readers && s.readers[k].pinned && s.readers[k].meta.head.Head? :: s.readers[k].meta.head.rid
  }

  function FilesOf(p: DrivePool, fds: Fds, inodes: map<Inode, File>): (files: seq<File>)
    ensures |files| == p.n
  {
    seq(p.n, i => if i in fds && fds[i] in inodes then inodes[fds[i]] else map[])
  }

  /** The files that the live names of an object lead to, in the tier that holds `bytes` of it. */
  ghost function LiveFds(cfg: Config, names: map<Name, Inode>, t: Tier, d: Digest, bytes: nat): Fds
    requires cfg.Valid()
  {
    map x | x in OpenedDrives(cfg.PoolOf(t), d.bucket, bytes)
      && Name(t, x, d, Live) in names :: names[Name(t, x, d, Live)]
  }

  /** The open files hold the bytes of `value` from `from` on, striped as that tier stripes them. */
  ghost predicate TierHolds(cfg: Config, t: Tier, d: Digest, fds: Fds, inodes: map<Inode, File>, value: seq<byte>,
                            from: nat, bytes: nat)
    requires cfg.Valid()
  {
    var p := cfg.PoolOf(t);
    && fds.Keys == OpenedDrives(p, d.bucket, bytes)
    && from + bytes <= |value|
    && forall o: nat {:trigger At(p, d.bucket, FilesOf(p, fds, inodes), o)} :: o < bytes ==>
         At(p, d.bucket, FilesOf(p, fds, inodes), o) == Some(value[from + o])
  }

  ghost predicate OnDisk(cfg: Config, d: Digest, value: seq<byte>, ssd: Fds, hdd: Fds, inodes: map<Inode, File>)
    requires cfg.Valid()
  {
    var l := cfg.LayoutOf(|value|);
    && TierHolds(cfg, Ssd, d, ssd, inodes, value, 0, l.ssdBytes)
    && TierHolds(cfg, Hdd, d, hdd, inodes, value, l.ssdBytes, l.hddBytes)
  }

  // ---------------------------------------------------------------- the invariant

  ghost predicate VersionOk(s: Sys, d: Digest, m: Meta)
  {
    m.etag in s.history && s.history[m.etag].digest == d && |s.history[m.etag].value| == m.size
  }

  ghost predicate HeadBytesOk(s: Sys, m: Meta)
    requires m.etag in s.history
  {
    m.head.Head? ==>
      && m.head.len <= |s.history[m.etag].value| && m.head.rid in s.mem
      && s.mem[m.head.rid] == s.history[m.etag].value[..m.head.len]
  }

  /** An index entry stands for one version: head in RAM, files under the live names, all of it. */
  ghost predicate EntryOk(cfg: Config, s: Sys, d: Digest)
    requires cfg.Valid() && d in s.core.index
  {
    var m := s.core.index[d];
    && VersionOk(s, d, m) && HeadBytesOk(s, m)
    && (var l := cfg.LayoutOf(m.size);
        var ssd, hdd := LiveFds(cfg, s.core.names, Ssd, d, l.ssdBytes), LiveFds(cfg, s.core.names, Hdd, d, l.hddBytes);
        && OnDisk(cfg, d, s.history[m.etag].value, ssd, hdd, s.inodes)
        && ssd.Values <= s.frozen && hdd.Values <= s.frozen)
  }

  /** A reader's pinned head, copied head and open files are those of the version it opened. */
  ghost predicate ReaderOk(cfg: Config, s: Sys, r: Reader)
    requires cfg.Valid()
  {
    && VersionOk(s, r.digest, r.meta)
    && (r.meta.head.Head? ==> r.meta.head.len == Min(r.meta.size, cfg.tiers.ramHead))
    && (r.pinned ==> r.meta.head.Head? && HeadBytesOk(s, r.meta))
    && (var value, l := s.history[r.meta.etag].value, cfg.LayoutOf(r.meta.size);
        && r.copied <= value
        && (r.ssd.Some? ==>
            TierHolds(cfg, Ssd, r.digest, r.ssd.value, s.inodes, value, 0, l.ssdBytes)
            && r.ssd.value.Values <= s.frozen)
        && (r.hdd.Some? ==>
            TierHolds(cfg, Hdd, r.digest, r.hdd.value, s.inodes, value, l.ssdBytes, l.hddBytes)
            && r.hdd.value.Values <= s.frozen))
  }

  /** A handle writes only to what is its own; once flushed, that holds the whole value. */
  ghost predicate HandleOk(cfg: Config, s: Sys, h: Handle)
    requires cfg.Valid()
  {
    && HeadFits(cfg, h.size, h.head) && |h.fed| <= h.size && h.tmp < s.storeSeq
    && (h.head.Head? ==> h.head.rid in s.mem && |s.mem[h.head.rid]| == h.head.len)
    && h.ssd.Keys == OpenedDrives(cfg.ssdPool, h.digest.bucket, cfg.LayoutOf(h.size).ssdBytes)
    && h.hdd.Keys == OpenedDrives(cfg.hddPool, h.digest.bucket, cfg.LayoutOf(h.size).hddBytes)
    && Private(h) <= s.inodes.Keys && Private(h) !! s.frozen
    && (forall x :: x in h.ssd ==>
        Name(Ssd, x, h.digest, Tmp(h.tmp)) in s.core.names
        && s.core.names[Name(Ssd, x, h.digest, Tmp(h.tmp))] == h.ssd[x])
    && (forall x :: x in h.hdd ==>
        Name(Hdd, x, h.digest, Tmp(h.tmp)) in s.core.names
        && s.core.names[Name(Hdd, x, h.digest, Tmp(h.tmp))] == h.hdd[x])
    && (h.flushed ==>
          && |h.fed| == h.size && OnDisk(cfg, h.digest, h.fed, h.ssd, h.hdd, s.inodes)
          && (h.head.Head? ==> s.mem[h.head.rid] == h.fed[..h.head.len]))
  }

  function Private(h: Handle): set<Inode> { h.ssd.Values + h.hdd.Values }

  ghost predicate HandlesApart(s: Sys)
  {
    forall j, k :: j in s.handles && k in s.handles && j != k ==>
      Private(s.handles[j]) !! Private(s.handles[k]) && s.handles[j].tmp != s.handles[k].tmp
  }

  ghost predicate Counters(s: Sys)
  {
    && (forall e :: e in s.history ==> 0 < e <= s.core.etagSeq)
    && s.frozen <= s.inodes.Keys
  }

  ghost predicate SysInv(cfg: Config, s: Sys)
    requires cfg.Valid()
  {
    && Inv(cfg, s.core, HandleHeads(s), PinHolders(s))
    && AllEntries(cfg, s) && AllReaders(cfg, s) && AllHandles(cfg, s)
    && HandlesApart(s) && Counters(s)
  }

  ghost predicate AllEntries(cfg: Config, s: Sys)
    requires cfg.Valid()
  {
    forall d :: d in s.core.index ==> EntryOk(cfg, s, d)
  }

  ghost predicate AllReaders(cfg: Config, s: Sys)
    requires cfg.Valid()
  {
    forall k :: k in s.readers ==> ReaderOk(cfg, s, s.readers[k])
  }

  ghost predicate AllHandles(cfg: Config, s: Sys)
    requires cfg.Valid()
  {
    forall k :: k in s.handles ==> HandleOk(cfg, s, s.handles[k])
  }

  // ---------------------------------------------------------------- steps

  datatype Step =
    | Begin(hid: nat, digest: Digest, size: nat, victims: seq<Digest>, head: Head, bytes: seq<byte>, ssd: Fds, hdd: Fds)
    | Blocked(size: nat, victims: seq<Digest>)
    | Write(hid: nat, chunk: seq<byte>, bytes: seq<byte>, files: map<Inode, File>)
    | Flush(hid: nat, files: map<Inode, File>)
    | Commit(hid: nat, flags: nat, expiry: nat, cas: nat, now: nat, victims: seq<Digest>)
    | Abort(hid: nat)
    | Remove(digest: Digest)
    | TouchTtl(digest: Digest, expiry: nat)
    | OpenSnapshot(sid: nat, digest: Digest, now: nat)
    | OpenCopy(sid: nat, digest: Digest)
    | Unpin(sid: nat)
    | Close(sid: nat)

  function FreshFiles(ssd: Fds, hdd: Fds): map<Inode, File> { map i | i in ssd.Values + hdd.Values :: map[] }

  function TmpNames(d: Digest, tmp: nat, ssd: Fds, hdd: Fds): map<Name, Inode>
  {
    (map n | n in (set x | x in ssd :: Name(Ssd, x, d, Tmp(tmp))) :: ssd[n.drive]) +
    (map n | n in (set x | x in hdd :: Name(Hdd, x, d, Tmp(tmp))) :: hdd[n.drive])
  }

  /** The compare-and-swap test of commit, made under the lock. */
  predicate CasPasses(c: State, d: Digest, cas: nat, now: nat)
  {
    cas != 0 ==> d in c.index && !Expired(c.index[d], now) && c.index[d].etag == cas
  }

  // Opening a store: heads are evicted for room, a region reserved, scratch files created.

  ghost predicate CanOpen(cfg: Config, s: Sys, hid: nat, d: Digest, size: nat, head: Head, bytes: seq<byte>, ssd: Fds,
                          hdd: Fds)
    requires cfg.Valid()
  {
    && hid !in s.handles && HeadFits(cfg, size, head)
    && (head.Head? ==> head.rid !in s.core.regions && |bytes| == head.len)
    && ssd.Keys == OpenedDrives(cfg.ssdPool, d.bucket, cfg.LayoutOf(size).ssdBytes)
    && hdd.Keys == OpenedDrives(cfg.hddPool, d.bucket, cfg.LayoutOf(size).hddBytes)
    && (ssd.Values + hdd.Values) !! s.inodes.Keys
  }

  /**
    A refusal: nothing is evicted for want of a staging buffer, and everything for want of RAM that the object
    must live in.
  */
  ghost predicate MayBlock(cfg: Config, c: State, size: nat, victims: seq<Digest>)
    requires cfg.Valid()
  {
    victims == [] || (0 < size <= cfg.tiers.ramHead && Reserves(cfg, c, victims, size, NoHead))
  }

  function OpenHandle(s: Sys, hid: nat, d: Digest, size: nat, head: Head, bytes: seq<byte>, ssd: Fds, hdd: Fds): Sys
  {
    var c := if head.Head? then s.core.(regions := s.core.regions[head.rid := head.len]) else s.core;
    s.(core := c.(names := c.names + TmpNames(d, s.storeSeq, ssd, hdd)),
       mem := if head.Head? then s.mem[head.rid := bytes] else s.mem,
       inodes := s.inodes + FreshFiles(ssd, hdd),
       handles := s.handles[hid := Handle(d, size, head, s.storeSeq, ssd, hdd, [], false)],
       storeSeq := s.storeSeq + 1)
  }

  // `write()`: the handle's own head and files become whatever the write path makes of them.

  ghost predicate CanWrite(s: Sys, hid: nat, chunk: seq<byte>, bytes: seq<byte>, files: map<Inode, File>)
  {
    && hid in s.handles && |s.handles[hid].fed| + |chunk| <= s.handles[hid].size
    && (s.handles[hid].head.Head? ==> |bytes| == s.handles[hid].head.len)
    && files.Keys == Private(s.handles[hid])
  }

  function DoWrite(s: Sys, hid: nat, chunk: seq<byte>, bytes: seq<byte>, files: map<Inode, File>): Sys
    requires hid in s.handles
  {
    var h := s.handles[hid];
    s.(mem := if h.head.Head? then s.mem[h.head.rid := bytes] else s.mem,
       inodes := s.inodes + files,
       handles := s.handles[hid := h.(fed := h.fed + chunk, flushed := false)])
  }

  // The final flush, whose promise is `WritePath.StoreHandle.FinishFlush`: head and files hold the value.

  ghost predicate CanFlush(cfg: Config, s: Sys, hid: nat, files: map<Inode, File>)
    requires cfg.Valid()
  {
    && hid in s.handles
    && var h := s.handles[hid];
       && |h.fed| == h.size && files.Keys == Private(h)
       && OnDisk(cfg, h.digest, h.fed, h.ssd, h.hdd, s.inodes + files)
       && (h.head.Head? ==> h.head.rid in s.mem && h.head.len <= |h.fed| && s.mem[h.head.rid] == h.fed[..h.head.len])
  }

  function DoFlush(s: Sys, hid: nat, files: map<Inode, File>): Sys
    requires hid in s.handles
  {
    s.(inodes := s.inodes + files, handles := s.handles[hid := s.handles[hid].(flushed := true)])
  }

  // Publication under the lock, followed by the evictions that the object bound asks for.

  ghost predicate CanCommit(cfg: Config, s: Sys, hid: nat, cas: nat, now: nat)
    requires cfg.Valid()
  {
    && hid in s.handles && s.handles[hid].flushed && CasPasses(s.core, s.handles[hid].digest, cas, now)
    && Publishable(cfg, s.handles[hid].digest, s.handles[hid].size)
    && NamesOf(cfg, s.handles[hid].digest, s.handles[hid].size, Tmp(s.handles[hid].tmp)) <= s.core.names.Keys
  }

  ghost function Published(cfg: Config, s: Sys, hid: nat, flags: nat, expiry: nat): Sys
    requires cfg.Valid() && hid in s.handles
    requires NamesOf(cfg, s.handles[hid].digest, s.handles[hid].size, Tmp(s.handles[hid].tmp)) <= s.core.names.Keys
  {
    var h := s.handles[hid];
    s.(core := Publication(cfg, s.core, h.digest, h.size, h.tmp, h.head, flags, expiry),
       frozen := s.frozen + Private(h),
       handles := s.handles - {hid},
       history := s.history[s.core.etagSeq + 1 := Version(h.digest, h.fed)])
  }

  ghost function DoCommit(cfg: Config, s: Sys, hid: nat, flags: nat, expiry: nat, victims: seq<Digest>): Sys
    requires cfg.Valid() && hid in s.handles
    requires NamesOf(cfg, s.handles[hid].digest, s.handles[hid].size, Tmp(s.handles[hid].tmp)) <= s.core.names.Keys
  {
    var p := Published(cfg, s, hid, flags, expiry);
    p.(core := DropObjects(cfg, p.core, victims))
  }

  // Abandoning a store.

  ghost function DoAbort(cfg: Config, s: Sys, hid: nat): Sys
    requires cfg.Valid() && hid in s.handles
  {
    var h := s.handles[hid];
    var c := if h.head.Head? then s.core.(regions := s.core.regions - {h.head.rid}) else s.core;
    s.(core := c.(names := c.names - NamesOf(cfg, h.digest, h.size, Tmp(h.tmp))), handles := s.handles - {hid})
  }

  // A GET's snapshot: entry, pinned head and open files in one critical section.

  ghost function SnapshotReader(cfg: Config, c: State, d: Digest): Reader
    requires cfg.Valid() && d in c.index
  {
    var m := c.index[d];
    var l := cfg.LayoutOf(m.size);
    var tail := m.size > if m.head.Head? then m.head.len else 0;
    Reader(d, m, m.head.Head?, [],
           if tail then Some(LiveFds(cfg, c.names, Ssd, d, l.ssdBytes)) else None,
           if tail && l.hddBytes > 0 then Some(LiveFds(cfg, c.names, Hdd, d, l.hddBytes)) else None)
  }

  function Pinned(c: State, d: Digest): State
    requires d in c.index
  {
    if c.index[d].head.Head? then PinRegion(c, c.index[d].head.rid, c.index[d].head.len) else c
  }

  ghost function DoSnapshot(cfg: Config, s: Sys, sid: nat, d: Digest): Sys
    requires cfg.Valid() && d in s.core.index
  {
    s.(core := Pinned(s.core, d), readers := s.readers[sid := SnapshotReader(cfg, s.core, d)])
  }

  // The critical section of `read()`: the head is copied and the files are opened.

  ghost function CopyReader(cfg: Config, s: Sys, d: Digest): Reader
    requires cfg.Valid() && d in s.core.index
  {
    var m := s.core.index[d];
    var l := cfg.LayoutOf(m.size);
    Reader(d, m, false, if m.head.Head? && m.head.rid in s.mem then s.mem[m.head.rid] else [],
           Some(LiveFds(cfg, s.core.names, Ssd, d, l.ssdBytes)), Some(LiveFds(cfg, s.core.names, Hdd, d, l.hddBytes)))
  }

  function DoUnpin(s: Sys, sid: nat): Sys
    requires sid in s.readers && s.readers[sid].meta.head.Head?
  {
    s.(core := UnpinRegion(s.core, s.readers[sid].meta.head.rid),
       readers := s.readers[sid := s.readers[sid].(pinned := false)])
  }

  ghost predicate Enabled(cfg: Config, s: Sys, step: Step)
    requires cfg.Valid()
  {
    match step
    case Begin(hid, d, size, victims, head, bytes, ssd, hdd) =>
      && Reserves(cfg, s.core, victims, Min(size, cfg.tiers.ramHead), head)
      && CanOpen(cfg, s.(core := EvictHeads(cfg, s.core, victims)), hid, d, size, head, bytes, ssd, hdd)
    case Blocked(size, victims) => MayBlock(cfg, s.core, size, victims)
    case Write(hid, chunk, bytes, files) => CanWrite(s, hid, chunk, bytes, files)
    case Flush(hid, files) => CanFlush(cfg, s, hid, files)
    case Commit(hid, flags, expiry, cas, now, victims) => CanCommit(cfg, s, hid, cas, now)
    case Abort(hid) => hid in s.handles
    case Remove(d) => true
    case TouchTtl(d, expiry) => d in s.core.index
    case OpenSnapshot(sid, d, now) => sid !in s.readers && d in s.core.index && !Expired(s.core.index[d], now)
    case OpenCopy(sid, d) => sid !in s.readers && d in s.core.index
    case Unpin(sid) => sid in s.readers && s.readers[sid].pinned && s.readers[sid].meta.head.Head?
    case Close(sid) => sid in s.readers && !s.readers[sid].pinned
  }

  ghost function Apply(cfg: Config, s: Sys, step: Step): Sys
    requires cfg.Valid() && Enabled(cfg, s, step)
  {
    match step
    case Begin(hid, d, size, victims, head, bytes, ssd, hdd) =>
      OpenHandle(s.(core := EvictHeads(cfg, s.core, victims)), hid, d, size, head, bytes, ssd, hdd)
    case Blocked(_, victims) => s.(core := EvictHeads(cfg, s.core, victims))
    case Write(hid, chunk, bytes, files) => DoWrite(s, hid, chunk, bytes, files)
    case Flush(hid, files) => DoFlush(s, hid, files)
    case Commit(hid, flags, expiry, cas, now, victims) => DoCommit(cfg, s, hid, flags, expiry, victims)
    case Abort(hid) => DoAbort(cfg, s, hid)
    case Remove(d) => s.(core := DropObject(cfg, s.core, d))
    case TouchTtl(d, expiry) => s.(core := Touched(s.core, d, expiry))
    case OpenSnapshot(sid, d, now) => DoSnapshot(cfg, s, sid, d)
    case OpenCopy(sid, d) => s.(readers := s.readers[sid := CopyReader(cfg, s, d)])
    case Unpin(sid) => DoUnpin(s, sid)
    case Close(sid) => s.(readers := s.readers - {sid})
  }
}
