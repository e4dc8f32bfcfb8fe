/**
  What holds in every run of the storage engine, for every interleaving of stores, commits,
  evictions, removals and reads.
*/
module EngineRuns {
  import opened Arith
  import opened Striping
  import opened StripedIo
  import opened Layout
  import opened S3Fifo
  import opened Core
  import opened HeadRoom
  import opened Engine
  import opened EngineInv

  const EMPTY_STORE: Sys :=
    Sys(State(map[], map[], map[], {}, {}, map[], 0), map[], map[], {}, map[], map[], map[], 0)

  ghost predicate IsRun(cfg: Config, run: seq<Sys>, steps: seq<Step>)
    requires cfg.Valid()
  {
    && |run| == |steps| + 1 && run[0] == EMPTY_STORE
    && forall i {:trigger steps[i]} :: 0 <= i < |steps| ==> Goes(cfg, run[i], steps[i], run[i + 1])
  }

  ghost predicate Goes(cfg: Config, s: Sys, step: Step, s': Sys)
    requires cfg.Valid()
  {
    Enabled(cfg, s, step) && s' == Apply(cfg, s, step)
  }

  lemma {:induction false} RunInv(cfg: Config, run: seq<Sys>, steps: seq<Step>, i: nat)
    requires cfg.Valid() && IsRun(cfg, run, steps) && i < |run|
    ensures SysInv(cfg, run[i])
    decreases i
  {
    hide Apply, Enabled;
    if i == 0 {
      assert HandleHeads(EMPTY_STORE) == map[] && PinHolders(EMPTY_STORE) == map[];
    } else {
      RunInv(cfg, run, steps, i - 1);
      assert Goes(cfg, run[i - 1], steps[i - 1], run[i - 1 + 1]);
      StepInv(cfg, run[i - 1], steps[i - 1]);
    }
  }

  // ---------------------------------------------------------------- versions and files stay

  /** The versions and the published files stay, etags count up, and a key keeps its etag or gets a new one. */
  ghost predicate Monotone(s: Sys, s': Sys)
  {
    && Extends(s, s') && s.core.etagSeq <= s'.core.etagSeq
    && (forall d :: d in s'.core.index ==>
          (d in s.core.index && s'.core.index[d].etag == s.core.index[d].etag)
            || s'.core.index[d].etag > s.core.etagSeq)
  }

  lemma ShrinkMonotone(s: Sys, c: State)
    requires Shrinks(s.core, c)
    ensures Monotone(s, s.(core := c))
  {
  }

  lemma CommitMonotone(cfg: Config, s: Sys, hid: nat, flags: nat, expiry: nat, cas: nat, now: nat, victims: seq<Digest>)
    requires cfg.Valid() && SysInv(cfg, s) && CanCommit(cfg, s, hid, cas, now)
    ensures Monotone(s, DoCommit(cfg, s, hid, flags, expiry, victims))
  {
    hide AllEntries, AllReaders, AllHandles, HandlesApart, Inv, Counters, NamesOf, DropObjects, Published, HandleHeads,
         PinHolders;
    CommitStep(cfg, s, hid, flags, expiry, cas, now, victims);
    PublishedCore(cfg, s, hid, flags, expiry);
    PublishedExtends(cfg, s, hid, flags, expiry);
    var p := Published(cfg, s, hid, flags, expiry);
    DropObjectsInv(cfg, p.core, victims, HandleHeads(p), PinHolders(p));
    ShrinkMonotone(p, DropObjects(cfg, p.core, victims));
    hide Extends;
    ExtendsTrans(s, p, DoCommit(cfg, s, hid, flags, expiry, victims));
  }

  lemma ExtendsTrans(a: Sys, b: Sys, c: Sys)
    requires Extends(a, b) && Extends(b, c)
    ensures Extends(a, c)
  {
  }

  lemma BeginMonotone(cfg: Config, s: Sys, c: State, hid: nat, d: Digest, size: nat, head: Head, bytes: seq<byte>,
                      ssd: Fds, hdd: Fds)
    requires cfg.Valid() && Counters(s) && Shrinks(s.core, c)
             && CanOpen(cfg, s.(core := c), hid, d, size, head, bytes, ssd, hdd)
    ensures Monotone(s, OpenHandle(s.(core := c), hid, d, size, head, bytes, ssd, hdd))
  {
    hide CanOpen, Extends, TmpNames, FreshFiles;
    assert Counters(s.(core := c));
    OpenExtends(cfg, s.(core := c), hid, d, size, head, bytes, ssd, hdd);
    assert Extends(s, s.(core := c)) by { ShrinkMonotone(s, c); }
    ExtendsTrans(s, s.(core := c), OpenHandle(s.(core := c), hid, d, size, head, bytes, ssd, hdd));
  }

  lemma OwnWorkMonotone(cfg: Config, s: Sys, s': Sys, hid: nat)
    requires cfg.Valid() && SysInv(cfg, s) && hid in s.handles && OwnWork(s, s', hid)
    ensures Monotone(s, s')
  {
    hide AllEntries, AllReaders, AllHandles, HandlesApart, Inv, Counters, Extends;
    OwnWorkExtends(cfg, s, s', hid);
  }

  /** Steps that leave the index, the versions and the files alone. */
  lemma SameDataMonotone(s: Sys, s': Sys)
    requires s'.core.index == s.core.index && s'.core.etagSeq == s.core.etagSeq
    requires s'.history == s.history && s'.frozen == s.frozen && s'.inodes == s.inodes
    ensures Monotone(s, s')
  {
  }

  lemma StepMonotone(cfg: Config, s: Sys, step: Step)
    requires cfg.Valid() && SysInv(cfg, s) && Enabled(cfg, s, step)
    ensures Monotone(s, Apply(cfg, s, step))
  {
    hide AllEntries, AllReaders, AllHandles, HandlesApart, Inv, Counters, NamesOf, CanOpen, CanWrite, OnDisk, Monotone,
         OwnWork,
         OpenHandle, DoWrite, DoFlush, DoCommit, SnapshotReader, CopyReader, UnpinRegion, PinRegion, DropObject,
           EvictHeads, Touched;
    match step
    case Begin(hid, d, size, victims, head, bytes, ssd, hdd) =>
      EvictHeadsInv(cfg, s.core, victims, HandleHeads(s), PinHolders(s));
      BeginMonotone(cfg, s, EvictHeads(cfg, s.core, victims), hid, d, size, head, bytes, ssd, hdd);
    case Blocked(_, victims) =>
      EvictHeadsInv(cfg, s.core, victims, HandleHeads(s), PinHolders(s));
      ShrinkMonotone(s, EvictHeads(cfg, s.core, victims));
    case Write(hid, chunk, bytes, files) =>
      WriteWork(cfg, s, hid, chunk, bytes, files);
    case Flush(hid, files) =>
      NotFrozen(cfg, s, hid);
      FlushIsOwnWork(s, hid, files);
      OwnWorkMonotone(cfg, s, DoFlush(s, hid, files), hid);
    case Commit(hid, flags, expiry, cas, now, victims) => CommitMonotone(cfg, s, hid, flags, expiry, cas, now, victims);
    case Abort(hid) => SameDataMonotone(s, DoAbort(cfg, s, hid));
    case Remove(d) =>
      DropObjectInv(cfg, s.core, d, HandleHeads(s), PinHolders(s));
      ShrinkMonotone(s, DropObject(cfg, s.core, d));
    case TouchTtl(d, expiry) =>
      TouchedInv(cfg, s.core, d, expiry, HandleHeads(s), PinHolders(s));
      ShrinkMonotone(s, Touched(s.core, d, expiry));
    case OpenSnapshot(sid, d, now) =>
      if s.core.index[d].head.Head? {
        PinKeeps(cfg, s.core, s.core.index[d].head.rid, s.core.index[d].head.len);
      }
      SameDataMonotone(s, DoSnapshot(cfg, s, sid, d));
    case OpenCopy(sid, d) => SameDataMonotone(s, Apply(cfg, s, step));
    case Unpin(sid) =>
      UnpinKeeps(cfg, s.core, s.readers[sid].meta.head.rid);
      SameDataMonotone(s, DoUnpin(s, sid));
    case Close(sid) => SameDataMonotone(s, Apply(cfg, s, step));
  }

  lemma WriteWork(cfg: Config, s: Sys, hid: nat, chunk: seq<byte>, bytes: seq<byte>, files: map<Inode, File>)
    requires cfg.Valid() && SysInv(cfg, s) && CanWrite(s, hid, chunk, bytes, files)
    ensures Monotone(s, DoWrite(s, hid, chunk, bytes, files))
  {
    hide AllEntries, AllReaders, AllHandles, HandlesApart, Inv, Counters, OwnWork, Monotone;
    NotFrozen(cfg, s, hid);
    WriteIsOwnWork(s, hid, chunk, bytes, files);
    OwnWorkMonotone(cfg, s, DoWrite(s, hid, chunk, bytes, files), hid);
  }

  lemma EtagsCounted(cfg: Config, s: Sys, d: Digest)
    requires cfg.Valid() && SysInv(cfg, s) && d in s.core.index
    ensures 0 < s.core.index[d].etag <= s.core.etagSeq
  {
    hide AllReaders, AllHandles, HandlesApart, Inv, OnDisk, LiveFds;
    assert EntryOk(cfg, s, d);
  }

  lemma {:induction false} RunMonotone(cfg: Config, run: seq<Sys>, steps: seq<Step>, i: nat, j: nat)
    requires cfg.Valid() && IsRun(cfg, run, steps) && i <= j < |run|
    ensures Monotone(run[i], run[j])
    decreases j
  {
    hide Apply, Enabled, SysInv;
    if i < j {
      RunMonotone(cfg, run, steps, i, j - 1);
      RunInv(cfg, run, steps, j - 1);
      assert Goes(cfg, run[j - 1], steps[j - 1], run[j - 1 + 1]);
      StepMonotone(cfg, run[j - 1], steps[j - 1]);
      MonotoneTrans(run[i], run[j - 1], run[j]);
    }
  }

  lemma MonotoneTrans(a: Sys, b: Sys, c: Sys)
    requires Monotone(a, b) && Monotone(b, c)
    ensures Monotone(a, c)
  {
    hide Extends;
    ExtendsTrans(a, b, c);
  }

  // ---------------------------------------------------------------- compare and swap

  /** An etag that is gone from a key never comes back to it. */
  lemma EtagNeverReturns(cfg: Config, run: seq<Sys>, steps: seq<Step>, i: nat, j: nat, k: nat, d: Digest)
    requires cfg.Valid() && IsRun(cfg, run, steps) && i <= j <= k < |run|
    requires d in run[k].core.index && run[k].core.index[d].etag <= run[i].core.etagSeq
    ensures d in run[j].core.index && run[j].core.index[d].etag == run[k].core.index[d].etag
  {
    RunMonotone(cfg, run, steps, i, j);
    RunMonotone(cfg, run, steps, j, k);
  }

  /** The key is indexed under etag `e`, as the version that `seen` knows by it. */
  ghost predicate StillAt(s: Sys, d: Digest, e: nat, seen: Sys)
  {
    && d in s.core.index && s.core.index[d].etag == e
    && e in s.history && e in seen.history && s.history[e] == seen.history[e]
  }

  /** `step` publishes key `d`, provided that its etag is `e`. */
  ghost predicate SwapsFrom(s: Sys, step: Step, d: Digest, e: nat)
  {
    step.Commit? && step.hid in s.handles && s.handles[step.hid].digest == d && step.cas == e != 0
  }

  /**
    Compare-and-swap loses no update. If a commit of a run passes with the etag `e` that the key had
    at state `i`, then nothing happened to the key in between: at every state up to the commit the
    key is indexed under `e`, that is, no store, delete or eviction of it took effect, and the
    version is the one the client saw. The commit then gives the key an etag no state had before.
  */
  lemma CasLosesNoUpdate(cfg: Config, run: seq<Sys>, steps: seq<Step>, i: nat, k: nat, d: Digest, e: nat)
    requires cfg.Valid() && IsRun(cfg, run, steps) && i <= k < |steps|
    requires SwapsFrom(run[k], steps[k], d, e) && d in run[i].core.index && run[i].core.index[d].etag == e
    ensures forall j :: i <= j <= k ==> StillAt(run[j], d, e, run[i])
    ensures d in run[k + 1].core.index ==> run[k + 1].core.index[d].etag == run[k].core.etagSeq + 1 > e
  {
    hide SysInv, Apply;
    assert Goes(cfg, run[k], steps[k], run[k + 1]);
    RunInv(cfg, run, steps, i);
    RunInv(cfg, run, steps, k);
    EtagsCounted(cfg, run[i], d);
    HasVersion(cfg, run[i], d);
    SwapNeedsEtag(cfg, run[k], steps[k], d, e);
    forall j | i <= j <= k ensures StillAt(run[j], d, e, run[i]) {
      EtagNeverReturns(cfg, run, steps, i, j, k, d);
      RunMonotone(cfg, run, steps, i, j);
    }
    EtagsCounted(cfg, run[k], d);
    CommitEtag(cfg, run[k], steps[k]);
  }

  lemma SwapNeedsEtag(cfg: Config, s: Sys, step: Step, d: Digest, e: nat)
    requires cfg.Valid() && Enabled(cfg, s, step) && SwapsFrom(s, step, d, e)
    ensures d in s.core.index && s.core.index[d].etag == e
  {
  }

  lemma HasVersion(cfg: Config, s: Sys, d: Digest)
    requires cfg.Valid() && SysInv(cfg, s) && d in s.core.index
    ensures VersionOk(s, d, s.core.index[d])
  {
    hide AllReaders, AllHandles, HandlesApart, Inv, OnDisk, LiveFds;
    assert EntryOk(cfg, s, d);
  }

  lemma CommitEtag(cfg: Config, s: Sys, step: Step)
    requires cfg.Valid() && SysInv(cfg, s) && step.Commit? && Enabled(cfg, s, step)
    ensures var d, s' := s.handles[step.hid].digest, Apply(cfg, s, step);
            d in s'.core.index ==> s'.core.index[d].etag == s.core.etagSeq + 1
  {
    hide AllEntries, AllReaders, AllHandles, HandlesApart, Inv, Counters, NamesOf, DropObjects, Published, HandleHeads,
         PinHolders, DropObject, Publish;
    CommitStep(cfg, s, step.hid, step.flags, step.expiry, step.cas, step.now, step.victims);
    PublishedCore(cfg, s, step.hid, step.flags, step.expiry);
    var p := Published(cfg, s, step.hid, step.flags, step.expiry);
    DropObjectsInv(cfg, p.core, step.victims, HandleHeads(p), PinHolders(p));
    assert Apply(cfg, s, step) == DoCommit(cfg, s, step.hid, step.flags, step.expiry, step.victims);
  }

  // ---------------------------------------------------------------- one version a read

  /** How much of the object `d` the index says is in RAM now. */
  function LiveHeadEnd(s: Sys, d: Digest): nat
  {
    if d in s.core.index && s.core.index[d].head.Head? then s.core.index[d].head.len else 0
  }

  /** The byte a reader's open files hold at object offset `pos`. */
  ghost function DiskByte(cfg: Config, inodes: map<Inode, File>, r: Reader, pos: nat): Option<byte>
    requires cfg.Valid()
  {
    var l := cfg.LayoutOf(r.meta.size);
    if pos < l.ssdBytes then
      if r.ssd.Some? then At(cfg.ssdPool, r.digest.bucket, FilesOf(cfg.ssdPool, r.ssd.value, inodes), pos) else None
    else
      if r.hdd.Some? then At(cfg.hddPool, r.digest.bucket, FilesOf(cfg.hddPool, r.hdd.value, inodes), pos - l.ssdBytes)
        else None
  }

  /**
    The byte that a piece planned at state `plan` and read from disk at state `read` delivers at
    `pos`. Planning copies from the head that the index names at that moment, whatever version it
    belongs to; only what lies behind that head comes from the reader's own files.
  */
  ghost function PlannedByte(cfg: Config, plan: Sys, read: Sys, r: Reader, pos: nat): Option<byte>
    requires cfg.Valid()
  {
    if pos < LiveHeadEnd(plan, r.digest) then
      var rid := plan.core.index[r.digest].head.rid;
      if rid in plan.mem && pos < |plan.mem[rid]| then Some(plan.mem[rid][pos]) else None
    else DiskByte(cfg, read.inodes, r, pos)
  }

  /** The reader has files for everything that is on disk. */
  predicate HasTail(cfg: Config, r: Reader)
  {
    r.ssd.Some? && (cfg.LayoutOf(r.meta.size).hddBytes > 0 ==> r.hdd.Some?)
  }

  ghost predicate ValueAt(s: Sys, etag: nat, pos: nat, b: Option<byte>)
  {
    etag in s.history && pos < |s.history[etag].value| && b == Some(s.history[etag].value[pos])
  }

  /** A reader's files hold its version, now and at every later state. */
  lemma DiskByteIsVersion(cfg: Config, s: Sys, s': Sys, r: Reader, pos: nat)
    requires cfg.Valid() && ReaderOk(cfg, s, r) && Extends(s, s') && HasTail(cfg, r) && pos < r.meta.size
    requires r.meta.size > cfg.tiers.ramHead
    ensures ValueAt(s, r.meta.etag, pos, DiskByte(cfg, s'.inodes, r, pos))
  {
    hide At, OpenedDrives, FilesOf;
    var l, value := cfg.LayoutOf(r.meta.size), s.history[r.meta.etag].value;
    if pos < l.ssdBytes {
      AgreeSub(r.ssd.value.Values, s.frozen, s.inodes, s'.inodes);
      TierKept(cfg, Ssd, r.digest, r.ssd.value, s.inodes, s'.inodes, value, 0, l.ssdBytes);
      assert At(cfg.ssdPool, r.digest.bucket, FilesOf(cfg.ssdPool, r.ssd.value, s'.inodes), pos) ==
             Some(value[0 + pos]);
    } else {
      AgreeSub(r.hdd.value.Values, s.frozen, s.inodes, s'.inodes);
      TierKept(cfg, Hdd, r.digest, r.hdd.value, s.inodes, s'.inodes, value, l.ssdBytes, l.hddBytes);
      var o := pos - l.ssdBytes;
      assert At(cfg.hddPool, r.digest.bucket, FilesOf(cfg.hddPool, r.hdd.value, s'.inodes), o) ==
             Some(value[l.ssdBytes + o]);
    }
  }

  lemma LiveHeadIsVersion(cfg: Config, s: Sys, d: Digest, pos: nat)
    requires cfg.Valid() && SysInv(cfg, s) && pos < LiveHeadEnd(s, d)
    ensures d in s.core.index && s.core.index[d].head.Head?
    ensures LiveHeadEnd(s, d) <= cfg.tiers.ramHead
    ensures var rid := s.core.index[d].head.rid;
            rid in s.mem && pos < |s.mem[rid]| && ValueAt(s, s.core.index[d].etag, pos, Some(s.mem[rid][pos]))
  {
    hide AllReaders, AllHandles, HandlesApart, Owned, OnDisk, LiveFds;
    assert EntryOk(cfg, s, d);
  }

  /** The etag of the version that a planned byte is taken from. */
  ghost function SourceEtag(plan: Sys, r: Reader, pos: nat): nat
  {
    if pos < LiveHeadEnd(plan, r.digest) then plan.core.index[r.digest].etag else r.meta.etag
  }

  /** Which version a planned byte comes from, in every run and for every later disk read. */
  lemma PlannedByteSource(cfg: Config, run: seq<Sys>, steps: seq<Step>, i: nat, j: nat, sid: nat, pos: nat)
    requires cfg.Valid() && IsRun(cfg, run, steps) && i <= j < |run| && sid in run[i].readers
    requires var r := run[i].readers[sid]; HasTail(cfg, r) && pos < r.meta.size && r.meta.size > cfg.tiers.ramHead
    ensures var r := run[i].readers[sid];
            ValueAt(run[i], SourceEtag(run[i], r, pos), pos, PlannedByte(cfg, run[i], run[j], r, pos))
  {
    hide IsRun, DiskByte, ReaderOk, AllEntries, AllHandles, HandlesApart, Inv;
    RunInv(cfg, run, steps, i);
    RunMonotone(cfg, run, steps, i, j);
    var r := run[i].readers[sid];
    if pos < LiveHeadEnd(run[i], r.digest) {
      LiveHeadIsVersion(cfg, run[i], r.digest, pos);
    } else {
      DiskByteIsVersion(cfg, run[i], run[j], r, pos);
    }
  }

  /**
    Exactly when the tail of a GET is of the version that its snapshot opened: at each byte, when
    the index names no resident head that reaches over the byte at planning time, or names the same
    version, or a version with the same byte there.
  */
  lemma PlannedByteIff(cfg: Config, run: seq<Sys>, steps: seq<Step>, i: nat, j: nat, sid: nat, pos: nat)
    requires cfg.Valid() && IsRun(cfg, run, steps) && i <= j < |run| && sid in run[i].readers
    requires var r := run[i].readers[sid]; HasTail(cfg, r) && pos < r.meta.size && r.meta.size > cfg.tiers.ramHead
    ensures var r := run[i].readers[sid];
            ValueAt(run[i], r.meta.etag, pos, PlannedByte(cfg, run[i], run[j], r, pos)) <==>
            (pos >= LiveHeadEnd(run[i], r.digest) ||
             run[i].core.index[r.digest].etag == r.meta.etag ||
             SameByte(run[i], run[i].core.index[r.digest].etag, r.meta.etag, pos))
  {
    hide IsRun, PlannedByte, AllEntries, AllHandles, HandlesApart, Inv, TierHolds;
    RunInv(cfg, run, steps, i);
    PlannedByteSource(cfg, run, steps, i, j, sid, pos);
    assert ReaderOk(cfg, run[i], run[i].readers[sid]);
  }

  ghost predicate SameByte(s: Sys, e: nat, f: nat, pos: nat)
  {
    && e in s.history && f in s.history && pos < |s.history[e].value| && pos < |s.history[f].value|
    && s.history[e].value[pos] == s.history[f].value[pos]
  }

  /** `read()` copies the head and opens the files in one critical section: always one version. */
  lemma ReadIsOneVersion(cfg: Config, run: seq<Sys>, steps: seq<Step>, i: nat, j: nat, sid: nat, d: Digest, pos: nat)
    requires cfg.Valid() && IsRun(cfg, run, steps) && i < |steps| && i + 1 <= j < |run| && steps[i] == OpenCopy(sid, d)
    requires d in run[i].core.index && pos < run[i].core.index[d].size && sid in run[i + 1].readers
    ensures var r := run[i + 1].readers[sid];
            && r.meta == run[i].core.index[d]
            && ValueAt(run[i], run[i].core.index[d].etag, pos,
                       if pos < |r.copied| then Some(r.copied[pos]) else DiskByte(cfg, run[j].inodes, r, pos))
  {
    hide DiskByte, AllEntries, AllHandles, HandlesApart, Inv, TierHolds, LiveFds, Enabled;
    assert Goes(cfg, run[i], steps[i], run[i + 1]);
    RunInv(cfg, run, steps, i);
    RunInv(cfg, run, steps, i + 1);
    RunMonotone(cfg, run, steps, i, i + 1);
    RunMonotone(cfg, run, steps, i + 1, j);
    hide IsRun, SysInv;
    CopyFacts(cfg, run[i], run[i + 1], sid, d, pos);
    var r := run[i + 1].readers[sid];
    if pos >= |r.copied| {
      DiskByteIsVersion(cfg, run[i + 1], run[j], r, pos);
    }
  }

  lemma CopyFacts(cfg: Config, s: Sys, s': Sys, sid: nat, d: Digest, pos: nat)
    requires cfg.Valid() && SysInv(cfg, s) && d in s.core.index && SysInv(cfg, s')
    requires s' == s.(readers := s.readers[sid := CopyReader(cfg, s, d)]) && pos < s.core.index[d].size
    ensures var r := s'.readers[sid];
            && r.meta == s.core.index[d] && HasTail(cfg, r) && ReaderOk(cfg, s', r)
            && s'.history == s.history && r.meta.etag in s.history && |s.history[r.meta.etag].value| == r.meta.size
            && (pos < |r.copied| ==> r.copied[pos] == s.history[r.meta.etag].value[pos])
            && (pos >= |r.copied| ==> r.meta.size > cfg.tiers.ramHead)
  {
    hide AllHandles, HandlesApart, Owned, TierHolds, LiveFds, PoliciesAgree;
    var r := s'.readers[sid];
    assert ReaderOk(cfg, s', r);
    assert EntryOk(cfg, s, d);
  }

  // ---------------------------------------------------------------- head regions

  /** Over every run: a store is opened with a head if and only if evicting every head would leave room for one. */
  lemma BeginHasHeadIff(cfg: Config, run: seq<Sys>, steps: seq<Step>, i: nat)
    requires cfg.Valid() && IsRun(cfg, run, steps) && i < |steps| && steps[i].Begin?
    ensures var len := Min(steps[i].size, cfg.tiers.ramHead);
            steps[i].head.Head? <==> len > 0 && Room(cfg.ram, Left(run[i].core), len)
  {
    hide Apply, CanOpen, Room, Left, Placed, EvictHeads, NoRoomYet, Inv;
    assert Goes(cfg, run[i], steps[i], run[i + 1]);
    RunInv(cfg, run, steps, i);
    hide IsRun;
    var s, v, len := run[i], steps[i].victims, Min(steps[i].size, cfg.tiers.ramHead);
    ReservesIff(cfg, s.core, v, len, steps[i].head);
    EvictionsKeepLeft(cfg, s.core, v, HandleHeads(s), PinHolders(s));
    var e := EvictHeads(cfg, s.core, v);
    if steps[i].head.Head? {
      RoomLeft(cfg.ram, e, len);
    } else if len > 0 {
      AllEvicted(cfg, e, HandleHeads(s), PinHolders(s));
    }
  }

  /**
    Exactly one owner for every allocated region, in every reachable state: one kind of owner, and of
    that kind one index entry, one handle or one pin.
  */
  lemma RegionHasOneOwner(cfg: Config, run: seq<Sys>, steps: seq<Step>, i: nat, r: Rid)
    requires cfg.Valid() && IsRun(cfg, run, steps) && i < |run| && r in run[i].core.regions
    ensures var c, hh := run[i].core, HandleHeads(run[i]);
            var orphan := r in c.pins && c.pins[r].orphaned;
            && (IndexHead(c.index, r) || HandleHead(hh, r) || orphan)
            && !(IndexHead(c.index, r) && HandleHead(hh, r)) && !(IndexHead(c.index, r) && orphan)
               && !(HandleHead(hh, r) && orphan)
    ensures forall d, e :: HasHead(run[i].core.index, d, r) && HasHead(run[i].core.index, e, r) ==> d == e
    ensures forall j, k :: Reserved(HandleHeads(run[i]), j, r) && Reserved(HandleHeads(run[i]), k, r) ==> j == k
  {
    hide IsRun, AllEntries, AllReaders, AllHandles, HandlesApart, IndexHead;
    RunInv(cfg, run, steps, i);
    var c, hh, ph := run[i].core, HandleHeads(run[i]), PinHolders(run[i]);
    assert r in c.pins ==> PinOk(c, ph, r);
  }

  predicate HasHead(index: map<Digest, Meta>, d: Digest, r: Rid) { d in index && index[d].head.Head?
                                                                  && index[d].head.rid == r }

  predicate Reserved(hh: map<nat, Head>, k: nat, r: Rid) { k in hh && hh[k].Head? && hh[k].rid == r }

  /** With no reader pinning and no store open, the allocated regions are exactly the resident heads. */
  lemma QuietRam(cfg: Config, run: seq<Sys>, steps: seq<Step>, i: nat, r: Rid)
    requires cfg.Valid() && IsRun(cfg, run, steps) && i < |run|
    requires run[i].handles == map[] && forall k :: k in run[i].readers ==> !run[i].readers[k].pinned
    ensures r in run[i].core.regions <==> IndexHead(run[i].core.index, r)
    ensures run[i].core.pins == map[]
  {
    hide IsRun, AllEntries, AllReaders, AllHandles, HandlesApart;
    RunInv(cfg, run, steps, i);
    var c, ph := run[i].core, PinHolders(run[i]);
    assert ph == map[];
    assert forall x :: Holders(ph, x) == {};
    assert forall x :: x in c.pins ==> PinOk(c, ph, x);
    assert c.pins == map[];
    if r in c.regions {
      RegionHasOneOwner(cfg, run, steps, i, r);
    }
  }

  lemma PinnedHere(cfg: Config, s: Sys, sid: nat)
    requires cfg.Valid() && SysInv(cfg, s) && sid in s.readers && s.readers[sid].pinned
    ensures var m := s.readers[sid].meta;
            && m.head.Head? && m.head.rid in s.core.regions && m.head.rid in s.mem
            && m.etag in s.history && m.head.len <= |s.history[m.etag].value|
               && s.mem[m.head.rid] == s.history[m.etag].value[..m.head.len]
  {
    hide AllEntries, AllHandles, HandlesApart, TierHolds;
    assert ReaderOk(cfg, s, s.readers[sid]);
    var ph := PinHolders(s);
    assert sid in ph && ph[sid] in s.core.pins;
    assert PinOk(s.core, ph, ph[sid]);
  }

  /** Index and policies agree in every reachable state; a small object is resident as a whole. */
  lemma PoliciesTrackIndex(cfg: Config, run: seq<Sys>, steps: seq<Step>, i: nat, d: Digest)
    requires cfg.Valid() && IsRun(cfg, run, steps) && i < |run|
    ensures var c := run[i].core;
            && c.objects == c.index.Keys
            && (d in c.heads <==> d in c.index && c.index[d].head.Head?)
            && (d in c.index && 0 < c.index[d].size <= cfg.tiers.ramHead ==>
                d in c.heads && c.index[d].head.len == c.index[d].size)
  {
    hide IsRun, AllEntries, AllReaders, AllHandles, HandlesApart, Owned;
    RunInv(cfg, run, steps, i);
  }
}
