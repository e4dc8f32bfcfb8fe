/**
  What the storage engine keeps for an open reader is what the event loop asks of the files it reads a GET's
  tail from, and of the head that the planner copies from.
*/
module ReadPromise {
  import opened Arith
  import opened StripedIo
  import opened Layout
  import opened S3Fifo
  import opened Core
  import opened Engine
  import opened EngineRuns
  import opened EngineGets
  import opened ReadPlan
  import Pipeline

  /** The disk side of what a reader has open. */
  function Opened(cfg: Config, r: Reader): Object {
    Object(cfg.LayoutOf(r.meta.size), cfg.ssdPool, cfg.hddPool, r.digest.bucket)
  }

  /** Its files of one tier, as they are on disk. */
  function TierFiles(cfg: Config, r: Reader, t: Tier, inodes: map<Inode, File>): (files: seq<File>)
    ensures |files| == cfg.PoolOf(t).n
  {
    var fds := if t == Ssd then r.ssd else r.hdd;
    FilesOf(cfg.PoolOf(t), if fds.Some? then fds.value else map[], inodes)
  }

  lemma OpenedFacts(cfg: Config, r: Reader)
    requires cfg.Valid() && r.meta.size > cfg.tiers.ramHead
    ensures Opened(cfg, r).Valid() && Opened(cfg, r).layout.size == r.meta.size
    ensures cfg.tiers.ramHead % DEVICE_BLOCK == 0 && cfg.tiers.ramHead <= Opened(cfg, r).layout.ssdBytes
  {
  }

  lemma DiskByteIsObjAt(cfg: Config, r: Reader, inodes: map<Inode, File>, pos: nat)
    requires cfg.Valid() && r.meta.size > cfg.tiers.ramHead && HasTail(cfg, r) && pos < r.meta.size
    ensures Opened(cfg, r).Valid()
    ensures ObjAt(Opened(cfg, r), TierFiles(cfg, r, Ssd, inodes), TierFiles(cfg, r, Hdd, inodes), pos) ==
            DiskByte(cfg, inodes, r, pos)
  {
    hide At;
    OpenedFacts(cfg, r);
  }

  /**
    In every run the files of an open reader hold the version it opened, from then on: what `Pipeline.Conn`
    starts from.
  */
  lemma ReaderHasObject(cfg: Config, run: seq<Sys>, steps: seq<Step>, i: nat, j: nat, sid: nat)
    requires cfg.Valid() && IsRun(cfg, run, steps) && i <= j < |run| && sid in run[i].readers
    requires var r := run[i].readers[sid]; HasTail(cfg, r) && r.meta.size > cfg.tiers.ramHead
    ensures var r := run[i].readers[sid];
            var o := Opened(cfg, r);
            && r.meta.etag in run[i].history && o.Valid() && o.layout.size == |run[i].history[r.meta.etag].value|
            && cfg.tiers.ramHead % DEVICE_BLOCK == 0 && cfg.tiers.ramHead <= o.layout.ssdBytes
            && Pipeline.OnFiles(o, TierFiles(cfg, r, Ssd, run[j].inodes), TierFiles(cfg, r, Hdd, run[j].inodes),
                                run[i].history[r.meta.etag].value)
  {
    hide IsRun, SysInv, ObjAt, DiskByte, TierFiles, HasTail;
    RunInv(cfg, run, steps, i);
    RunMonotone(cfg, run, steps, i, j);
    var r := run[i].readers[sid];
    OpenedFacts(cfg, r);
    ReaderHere(cfg, run[i], sid);
    forall pos: nat | pos < r.meta.size
      ensures ObjAt(Opened(cfg, r), TierFiles(cfg, r, Ssd, run[j].inodes), TierFiles(cfg, r, Hdd, run[j].inodes), pos)
              == Some(run[i].history[r.meta.etag].value[pos])
    {
      DiskByteIsVersion(cfg, run[i], run[j], r, pos);
      DiskByteIsObjAt(cfg, r, run[j].inodes, pos);
    }
  }

  lemma ReaderHere(cfg: Config, s: Sys, sid: nat)
    requires cfg.Valid() && SysInv(cfg, s) && sid in s.readers
    ensures ReaderOk(cfg, s, s.readers[sid]) && VersionOk(s, s.readers[sid].digest, s.readers[sid].meta)
  {
    hide AllEntries, AllHandles, HandlesApart, Inv, Counters, TierHolds;
    assert ReaderOk(cfg, s, s.readers[sid]);
  }

  /** How much of the piece `[off, off + n)` the planner copies from the head that the index names. */
  function Copied(s: Sys, d: Digest, off: nat, n: nat): nat { Max(0, Min(off + n, LiveHeadEnd(s, d)) - off) }

  /**
    In the two cases in which a GET is of one version, what the planner copies of a piece of its tail is
    nothing, the whole piece, or ends with a resident head of the configured size; and it is of that version.
  */
  lemma CopiedPart(cfg: Config, run: seq<Sys>, steps: seq<Step>, k: nat, i: nat, sid: nat, d: Digest, now: nat,
                   off: nat, n: nat)
    requires cfg.Valid() && IsRun(cfg, run, steps) && k < |steps| && k < i < |run|
    requires steps[k] == OpenSnapshot(sid, d, now) && StaysOpen(steps, sid, k + 1, i)
    requires d in run[k].core.index && HeadEnd(run[k].core.index[d]) <= off && off + n <= run[k].core.index[d].size
    requires run[k].core.index[d].head.Head? || NoCommit(run, steps, d, k + 1, i)
    ensures var cp := Copied(run[i], d, off, n);
            && (cp == 0 || cp == n || (off + cp) % DEVICE_BLOCK == 0)
            && (cp > 0 ==> LiveHeadEnd(run[i], d) == cfg.tiers.ramHead)
            && forall pos: nat :: off <= pos < off + cp ==> CopiedRight(run[k], run[i], d, pos)
  {
    hide Apply, SysInv, Enabled, PlannedByte;
    if n > 0 {
      ReaderOfKey(cfg, run, steps, k, i, sid, d, now);
      LiveHead(cfg, run, steps, k, i, sid, d, now);
      forall pos: nat | off <= pos < off + Copied(run[i], d, off, n)
        ensures CopiedRight(run[k], run[i], d, pos)
      {
        GetIsOneVersion(cfg, run, steps, k, i, i, sid, d, now, pos);
        FromHead(cfg, run[k], run[i], sid, d, pos);
      }
    }
  }

  /**
    The head that a piece of the tail can meet is of the configured size, if the snapshot found none, and in
    front of it otherwise.
  */
  lemma LiveHead(cfg: Config, run: seq<Sys>, steps: seq<Step>, k: nat, i: nat, sid: nat, d: Digest, now: nat)
    requires cfg.Valid() && IsRun(cfg, run, steps) && k < |steps| && k < i < |run|
             && steps[k] == OpenSnapshot(sid, d, now)
    requires d in run[k].core.index && HeadEnd(run[k].core.index[d]) < run[k].core.index[d].size
    requires run[k].core.index[d].head.Head? || NoCommit(run, steps, d, k + 1, i)
    ensures var m, e := run[k].core.index[d], LiveHeadEnd(run[i], d);
            e <= cfg.tiers.ramHead && (m.head.NoHead? && e > 0 ==> e == cfg.tiers.ramHead)
              && (m.head.Head? ==> m.head.len == cfg.tiers.ramHead)
  {
    hide Apply, SysInv, Enabled;
    assert Goes(cfg, run[k], steps[k], run[k + 1]);
    RunInv(cfg, run, steps, k);
    RunInv(cfg, run, steps, i);
    RunMonotone(cfg, run, steps, k, i);
    SnapshotFacts(cfg, run[k], sid, d, now);
    if LiveHeadEnd(run[i], d) > 0 {
      EntryHere(cfg, run[i], d);
      if run[k].core.index[d].head.NoHead? {
        SnapshotUnchanged(cfg, run, steps, k, i, d);
      }
    }
  }

  lemma ReaderOfKey(cfg: Config, run: seq<Sys>, steps: seq<Step>, k: nat, i: nat, sid: nat, d: Digest, now: nat)
    requires cfg.Valid() && IsRun(cfg, run, steps) && k < |steps| && k < i < |run|
    requires steps[k] == OpenSnapshot(sid, d, now) && StaysOpen(steps, sid, k + 1, i)
    ensures sid in run[i].readers && run[i].readers[sid].digest == d
  {
    hide Apply, SysInv, Enabled;
    assert Goes(cfg, run[k], steps[k], run[k + 1]);
    RunInv(cfg, run, steps, k);
    SnapshotFacts(cfg, run[k], sid, d, now);
    RunKeepsReader(cfg, run, steps, k + 1, i, sid);
  }

  lemma EntryHere(cfg: Config, s: Sys, d: Digest)
    requires cfg.Valid() && SysInv(cfg, s) && d in s.core.index
    ensures var m := s.core.index[d];
            VersionOk(s, d, m) && (m.head.Head? ==> m.head.len == Min(m.size, cfg.tiers.ramHead))
  {
    hide AllReaders, AllHandles, HandlesApart, Owned, PoliciesAgree, Counters, OnDisk, LiveFds;
    assert EntryOk(cfg, s, d);
  }

  lemma FromHead(cfg: Config, snap: Sys, s: Sys, sid: nat, d: Digest, pos: nat)
    requires cfg.Valid() && sid in s.readers && s.readers[sid].digest == d && pos < LiveHeadEnd(s, d)
             && d in snap.core.index
    requires ValueAt(snap, snap.core.index[d].etag, pos, PlannedByte(cfg, s, s, s.readers[sid], pos))
    ensures CopiedRight(snap, s, d, pos)
  {
  }

  /** The byte that the index's head has at `pos` in state `s` is that of the version indexed in state `snap`. */
  ghost predicate CopiedRight(snap: Sys, s: Sys, d: Digest, pos: nat) {
    && d in snap.core.index && d in s.core.index && s.core.index[d].head.Head?
    && var rid := s.core.index[d].head.rid;
       rid in s.mem && pos < |s.mem[rid]| && ValueAt(snap, snap.core.index[d].etag, pos, Some(s.mem[rid][pos]))
  }
}
