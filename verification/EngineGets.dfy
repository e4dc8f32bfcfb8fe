/**
  What a whole GET delivers, over every run of the storage engine: from the critical section that takes
  its snapshot, through any number of planned pieces, to disk reads that run at any later time.
*/
module EngineGets {
  import opened Arith
  import opened S3Fifo
  import opened Core
  import opened Engine
  import opened EngineInv
  import opened EngineRuns

  // ---------------------------------------------------------------- an open reader stays what it is

  /** The same reader; it may have dropped its pin meanwhile. */
  ghost predicate SameReader(s: Sys, s': Sys, sid: nat) {
    && sid in s.readers && sid in s'.readers
    && s'.readers[sid] == s.readers[sid].(pinned := s'.readers[sid].pinned)
    && (s'.readers[sid].pinned ==> s.readers[sid].pinned)
  }

  lemma StepKeepsReader(cfg: Config, s: Sys, step: Step, sid: nat)
    requires cfg.Valid() && Enabled(cfg, s, step) && sid in s.readers && step != Close(sid)
    ensures SameReader(s, Apply(cfg, s, step), sid)
  {
    hide EvictHeads, DropObject, DropObjects, Touched, SnapshotReader, CopyReader, PinRegion, UnpinRegion, NamesOf,
         CanOpen, Publication;
  }

  /** No step from `i` up to `j` closes the reader. */
  ghost predicate StaysOpen(steps: seq<Step>, sid: nat, i: nat, j: nat)
    requires i <= j <= |steps|
  {
    forall m {:trigger steps[m]} :: i <= m < j ==> steps[m] != Close(sid)
  }

  lemma {:induction false} RunKeepsReader(cfg: Config, run: seq<Sys>, steps: seq<Step>, i: nat, j: nat, sid: nat)
    requires cfg.Valid() && IsRun(cfg, run, steps) && i <= j < |run| && sid in run[i].readers
             && StaysOpen(steps, sid, i, j)
    ensures SameReader(run[i], run[j], sid)
    decreases j
  {
    hide Apply, Enabled;
    if i < j {
      RunKeepsReader(cfg, run, steps, i, j - 1, sid);
      assert Goes(cfg, run[j - 1], steps[j - 1], run[j - 1 + 1]);
      StepKeepsReader(cfg, run[j - 1], steps[j - 1], sid);
    }
  }

  // ---------------------------------------------------------------- a key that is not committed

  /** `step` publishes a new version of key `d`. */
  ghost predicate Publishes(s: Sys, step: Step, d: Digest) {
    step.Commit? && step.hid in s.handles && s.handles[step.hid].digest == d
  }

  /** The key, if it is still there, has the version it had. */
  ghost predicate NotNewer(s: Sys, s': Sys, d: Digest) {
    d in s'.core.index ==> d in s.core.index && s'.core.index[d].etag == s.core.index[d].etag
  }

  lemma StepKeepsEtag(cfg: Config, s: Sys, step: Step, d: Digest)
    requires cfg.Valid() && SysInv(cfg, s) && Enabled(cfg, s, step) && !Publishes(s, step, d)
    ensures NotNewer(s, Apply(cfg, s, step), d)
  {
    hide AllEntries, AllReaders, AllHandles, HandlesApart, Inv, Counters, NamesOf, CanOpen, CanWrite, OnDisk,
         SnapshotReader, CopyReader,
         UnpinRegion, PinRegion, DropObject, DropObjects, EvictHeads, Touched, Published, HandleHeads, PinHolders;
    match step
    case Begin(hid, _, size, victims, head, bytes, ssd, hdd) =>
      EvictHeadsInv(cfg, s.core, victims, HandleHeads(s), PinHolders(s));
    case Blocked(_, victims) =>
      EvictHeadsInv(cfg, s.core, victims, HandleHeads(s), PinHolders(s));
    case Write(hid, chunk, bytes, files) =>
    case Flush(hid, files) =>
    case Commit(hid, flags, expiry, cas, now, victims) =>
      CommitKeepsEtag(cfg, s, hid, flags, expiry, cas, now, victims, d);
    case Abort(hid) =>
    case Remove(x) =>
      DropObjectInv(cfg, s.core, x, HandleHeads(s), PinHolders(s));
    case TouchTtl(x, expiry) =>
      TouchedInv(cfg, s.core, x, expiry, HandleHeads(s), PinHolders(s));
    case OpenSnapshot(sid, x, now) =>
      if s.core.index[x].head.Head? {
        PinKeeps(cfg, s.core, s.core.index[x].head.rid, s.core.index[x].head.len);
      }
    case OpenCopy(sid, x) =>
    case Unpin(sid) =>
      UnpinKeeps(cfg, s.core, s.readers[sid].meta.head.rid);
    case Close(sid) =>
  }

  lemma CommitKeepsEtag(cfg: Config, s: Sys, hid: nat, flags: nat, expiry: nat, cas: nat, now: nat,
                        victims: seq<Digest>, d: Digest)
    requires cfg.Valid() && SysInv(cfg, s) && CanCommit(cfg, s, hid, cas, now) && s.handles[hid].digest != d
    ensures NotNewer(s, DoCommit(cfg, s, hid, flags, expiry, victims), d)
  {
    hide AllEntries, AllReaders, AllHandles, HandlesApart, Inv, Counters, NamesOf, DropObjects, Published, HandleHeads,
         PinHolders;
    PublishedCore(cfg, s, hid, flags, expiry);
    var p := Published(cfg, s, hid, flags, expiry);
    DropObjectsInv(cfg, p.core, victims, HandleHeads(p), PinHolders(p));
  }

  /** No step from `i` up to `j` commits key `d`. */
  ghost predicate NoCommit(run: seq<Sys>, steps: seq<Step>, d: Digest, i: nat, j: nat)
    requires i <= j <= |steps| && j < |run|
  {
    forall m {:trigger steps[m]} :: i <= m < j ==> !Publishes(run[m], steps[m], d)
  }

  lemma {:induction false} RunKeepsEtag(cfg: Config, run: seq<Sys>, steps: seq<Step>, i: nat, j: nat, d: Digest)
    requires cfg.Valid() && IsRun(cfg, run, steps) && i <= j < |run| && NoCommit(run, steps, d, i, j)
    ensures NotNewer(run[i], run[j], d)
    decreases j
  {
    hide Apply, Enabled, SysInv;
    if i < j {
      RunKeepsEtag(cfg, run, steps, i, j - 1, d);
      RunInv(cfg, run, steps, j - 1);
      assert Goes(cfg, run[j - 1], steps[j - 1], run[j - 1 + 1]);
      StepKeepsEtag(cfg, run[j - 1], steps[j - 1], d);
    }
  }

  // ---------------------------------------------------------------- the whole GET

  /** What the snapshot of `d` at `s` is of. */
  function HeadEnd(m: Meta): nat { if m.head.Head? then m.head.len else 0 }

  lemma SnapshotFacts(cfg: Config, s: Sys, sid: nat, d: Digest, now: nat)
    requires cfg.Valid() && SysInv(cfg, s) && Enabled(cfg, s, OpenSnapshot(sid, d, now))
    ensures var s' := Apply(cfg, s, OpenSnapshot(sid, d, now));
            && d in s.core.index && sid in s'.readers
            && var r := s'.readers[sid];
               && r.digest == d && r.meta == s.core.index[d] && r.pinned == r.meta.head.Head?
               && (HeadEnd(r.meta) < r.meta.size ==> HasTail(cfg, r) && r.meta.size > cfg.tiers.ramHead)
               && (r.meta.head.Head? ==> r.meta.head.len == Min(r.meta.size, cfg.tiers.ramHead))
    ensures var m := s.core.index[d];
            m.etag in s.history && |s.history[m.etag].value| == m.size && 0 < m.etag <= s.core.etagSeq
  {
    hide AllReaders, AllHandles, HandlesApart, Owned, OnDisk, LiveFds, PoliciesAgree;
    assert EntryOk(cfg, s, d);
  }

  /**
    A GET is of one version. Its snapshot is taken at step `k`; a piece is planned at any later state `i`
    while the reader is open, and its disk reads happen at any state `j` from then on. If a head was
    resident at the snapshot, or if nobody committed the key between snapshot and planning, every byte is
    that of the version indexed at the snapshot: from the pinned head in front, from the plan behind it.
  */
  lemma GetIsOneVersion(cfg: Config, run: seq<Sys>, steps: seq<Step>, k: nat, i: nat, j: nat, sid: nat, d: Digest,
                        now: nat, pos: nat)
    requires cfg.Valid() && IsRun(cfg, run, steps) && k < |steps| && k < i <= j < |run|
    requires steps[k] == OpenSnapshot(sid, d, now) && StaysOpen(steps, sid, k + 1, i)
    requires d in run[k].core.index && pos < run[k].core.index[d].size
    requires run[k].core.index[d].head.Head? || NoCommit(run, steps, d, k + 1, i)
    ensures sid in run[i].readers
    ensures var m, r := run[k].core.index[d], run[i].readers[sid];
            if pos < HeadEnd(m)
            then r.pinned ==>
              m.head.rid in run[i].mem && pos < |run[i].mem[m.head.rid]|
              && ValueAt(run[k], m.etag, pos, Some(run[i].mem[m.head.rid][pos]))
            else ValueAt(run[k], m.etag, pos, PlannedByte(cfg, run[i], run[j], r, pos))
  {
    hide Apply, SysInv, PlannedByte, Enabled;
    assert Goes(cfg, run[k], steps[k], run[k + 1]);
    RunInv(cfg, run, steps, k);
    SnapshotFacts(cfg, run[k], sid, d, now);
    RunKeepsReader(cfg, run, steps, k + 1, i, sid);
    RunMonotone(cfg, run, steps, k, i);
    if pos < HeadEnd(run[k].core.index[d]) {
      if run[i].readers[sid].pinned {
        RunInv(cfg, run, steps, i);
        PinnedHere(cfg, run[i], sid);
      }
    } else {
      TailIsOneVersion(cfg, run, steps, k, i, j, sid, d, pos);
    }
  }

  lemma TailIsOneVersion(cfg: Config, run: seq<Sys>, steps: seq<Step>, k: nat, i: nat, j: nat, sid: nat, d: Digest,
                         pos: nat)
    requires cfg.Valid() && IsRun(cfg, run, steps) && k < i <= j < |run| && sid in run[i].readers
             && d in run[k].core.index
    requires steps[k].OpenSnapshot?
    requires var r := run[i].readers[sid]; r.digest == d && r.meta == run[k].core.index[d] && HasTail(cfg, r)
    requires var m := run[k].core.index[d];
             && HeadEnd(m) <= pos < m.size && m.size > cfg.tiers.ramHead
                && (m.head.Head? ==> m.head.len == Min(m.size, cfg.tiers.ramHead))
             && (m.head.Head? || NoCommit(run, steps, d, k + 1, i))
             && m.etag in run[k].history && |run[k].history[m.etag].value| == m.size
    ensures ValueAt(run[k], run[k].core.index[d].etag, pos, PlannedByte(cfg, run[i], run[j], run[i].readers[sid], pos))
  {
    hide PlannedByte, HasTail, SysInv;
    assert |run| == |steps| + 1;
    hide IsRun;
    PlannedByteSource(cfg, run, steps, i, j, sid, pos);
    RunMonotone(cfg, run, steps, k, i);
    if pos < LiveHeadEnd(run[i], d) {
      RunInv(cfg, run, steps, i);
      LiveHeadIsVersion(cfg, run[i], d, pos);
      if run[k].core.index[d].head.NoHead? {
        SnapshotUnchanged(cfg, run, steps, k, i, d);
      }
    }
  }

  lemma SnapshotUnchanged(cfg: Config, run: seq<Sys>, steps: seq<Step>, k: nat, i: nat, d: Digest)
    requires cfg.Valid() && IsRun(cfg, run, steps) && k < i < |run| && NoCommit(run, steps, d, k + 1, i)
    requires steps[k].OpenSnapshot?
    ensures NotNewer(run[k], run[i], d)
  {
    hide Goes, NotNewer;
    assert NoCommit(run, steps, d, k, i);
    RunKeepsEtag(cfg, run, steps, k, i, d);
  }

  /** A region that a reader pins is allocated, and its bytes are the same at every state it stays pinned. */
  lemma PinnedBytesStay(cfg: Config, run: seq<Sys>, steps: seq<Step>, i: nat, j: nat, sid: nat)
    requires cfg.Valid() && IsRun(cfg, run, steps) && i <= j < |run|
    requires sid in run[i].readers && StaysOpen(steps, sid, i, j) && sid in run[j].readers && run[j].readers[sid].pinned
    ensures run[i].readers[sid].meta.head.Head?
    ensures var rid := run[i].readers[sid].meta.head.rid;
            && rid in run[i].core.regions && rid in run[j].core.regions
            && rid in run[i].mem && rid in run[j].mem && run[i].mem[rid] == run[j].mem[rid]
  {
    hide IsRun, SysInv;
    RunInv(cfg, run, steps, i);
    RunInv(cfg, run, steps, j);
    RunMonotone(cfg, run, steps, i, j);
    RunKeepsReader(cfg, run, steps, i, j, sid);
    PinnedHere(cfg, run[i], sid);
    PinnedHere(cfg, run[j], sid);
  }
}
