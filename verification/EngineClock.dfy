/**
  What time and etags decide in every run of the storage engine: until when a key can be read, what the sweep
  of expired objects takes away, and when a compare-and-swap store goes through.
*/
module EngineClock {
  import opened Arith
  import opened S3Fifo
  import opened Core
  import opened Engine
  import opened EngineInv
  import opened EngineRuns
  import opened EngineGets

  // ---------------------------------------------------------------- a key keeps its time

  /** Whatever is left in the index has the time it had. */
  ghost predicate KeepsTimes(c: State, c': State) {
    forall d :: d in c'.index ==> d in c.index && c'.index[d].expiry == c.index[d].expiry
  }

  lemma {:induction false} EvictHeadsKeepTimes(cfg: Config, c: State, victims: seq<Digest>)
    ensures KeepsTimes(c, EvictHeads(cfg, c, victims))
    decreases |victims|
  {
    if victims != [] {
      EvictHeadsKeepTimes(cfg, c, victims[..|victims| - 1]);
    }
  }

  lemma {:induction false} DropsKeepTimes(cfg: Config, c: State, victims: seq<Digest>)
    requires cfg.Valid()
    ensures KeepsTimes(c, DropObjects(cfg, c, victims))
    decreases |victims|
  {
    hide DropObject;
    if victims != [] {
      var d := victims[|victims| - 1];
      var c1 := DropObjects(cfg, c, victims[..|victims| - 1]);
      DropsKeepTimes(cfg, c, victims[..|victims| - 1]);
      DropIndex(cfg, c1.(objects := c1.objects - {d}), d);
    }
  }

  /** `step` gives key `d` the time `e`: a store that commits with it, or a touch. */
  ghost predicate Times(s: Sys, step: Step, d: Digest, e: nat) {
    (Publishes(s, step, d) && step.expiry == e) || step == TouchTtl(d, e)
  }

  /** `step` gives key `d` some time. */
  ghost predicate Retimes(s: Sys, step: Step, d: Digest) {
    Publishes(s, step, d) || (step.TouchTtl? && step.digest == d)
  }

  /** The key, if it is still there, has the time it had. */
  ghost predicate SameTime(s: Sys, s': Sys, d: Digest) {
    d in s'.core.index ==> d in s.core.index && s'.core.index[d].expiry == s.core.index[d].expiry
  }

  /** The key, if it is there, is to be read until `e`, or for ever if that is 0. */
  ghost predicate HasTime(s: Sys, d: Digest, e: nat) {
    d in s.core.index ==> s.core.index[d].expiry == e
  }

  lemma StepKeepsTime(cfg: Config, s: Sys, step: Step, d: Digest)
    requires cfg.Valid() && SysInv(cfg, s) && Enabled(cfg, s, step) && !Retimes(s, step, d)
    ensures SameTime(s, Apply(cfg, s, step), d)
  {
    hide SysInv, NamesOf, CanOpen, CanWrite, OnDisk, SnapshotReader, CopyReader, UnpinRegion, PinRegion, DropObject,
         DropObjects, EvictHeads, Published, Publishable;
    match step
    case Begin(hid, _, size, victims, head, bytes, ssd, hdd) => EvictHeadsKeepTimes(cfg, s.core, victims);
    case Blocked(_, victims) => EvictHeadsKeepTimes(cfg, s.core, victims);
    case Write(hid, chunk, bytes, files) =>
    case Flush(hid, files) =>
    case Commit(hid, flags, expiry, cas, now, victims) =>
      PublishedCore(cfg, s, hid, flags, expiry);
      DropsKeepTimes(cfg, Published(cfg, s, hid, flags, expiry).core, victims);
    case Abort(hid) =>
    case Remove(x) => DropIndex(cfg, s.core, x);
    case TouchTtl(x, expiry) =>
    case OpenSnapshot(sid, x, now) =>
      if s.core.index[x].head.Head? {
        PinKeeps(cfg, s.core, s.core.index[x].head.rid, s.core.index[x].head.len);
      }
    case OpenCopy(sid, x) =>
    case Unpin(sid) => UnpinKeeps(cfg, s.core, s.readers[sid].meta.head.rid);
    case Close(sid) =>
  }

  /** After a step that gives the key the time `e`, the key has it. */
  lemma StepSetsTime(cfg: Config, s: Sys, step: Step, d: Digest, e: nat)
    requires cfg.Valid() && SysInv(cfg, s) && Enabled(cfg, s, step) && Times(s, step, d, e)
    ensures HasTime(Apply(cfg, s, step), d, e)
  {
    hide SysInv, NamesOf, DropObjects, Published, Publishable;
    if step.Commit? {
      PublishedCore(cfg, s, step.hid, step.flags, step.expiry);
      DropsKeepTimes(cfg, Published(cfg, s, step.hid, step.flags, step.expiry).core, step.victims);
    }
  }

  /** No step from `i` up to `j` commits or touches key `d`. */
  ghost predicate LeftAlone(run: seq<Sys>, steps: seq<Step>, d: Digest, i: nat, j: nat)
    requires i <= j <= |steps| && j < |run|
  {
    forall m {:trigger steps[m]} :: i <= m < j ==> !Retimes(run[m], steps[m], d)
  }

  lemma {:induction false} RunKeepsTime(cfg: Config, run: seq<Sys>, steps: seq<Step>, i: nat, j: nat, d: Digest)
    requires cfg.Valid() && IsRun(cfg, run, steps) && i <= j < |run| && LeftAlone(run, steps, d, i, j)
    ensures SameTime(run[i], run[j], d)
    decreases j
  {
    hide Apply, Enabled, SysInv;
    if i < j {
      RunKeepsTime(cfg, run, steps, i, j - 1, d);
      RunInv(cfg, run, steps, j - 1);
      assert Goes(cfg, run[j - 1], steps[j - 1], run[j - 1 + 1]);
      StepKeepsTime(cfg, run[j - 1], steps[j - 1], d);
    }
  }

  // ---------------------------------------------------------------- until when a key is read

  /**
    The time to live. Step `k` stored or touched key `d` with the time `e`, and nothing stored or touched it
    since. Then a read at the clock value `now` finds the key exactly if it is still indexed and `e` is 0 or
    not yet reached.
  */
  lemma ReadableUntil(cfg: Config, run: seq<Sys>, steps: seq<Step>, k: nat, i: nat, sid: nat, d: Digest, e: nat,
                      now: nat)
    requires cfg.Valid() && IsRun(cfg, run, steps) && k < |steps| && k < i < |run|
    requires Times(run[k], steps[k], d, e) && LeftAlone(run, steps, d, k + 1, i) && sid !in run[i].readers
    ensures Enabled(cfg, run[i], OpenSnapshot(sid, d, now)) <==> d in run[i].core.index && (e == 0 || now < e)
  {
    hide SysInv, Apply, LeftAlone;
    assert Goes(cfg, run[k], steps[k], run[k + 1]);
    RunInv(cfg, run, steps, k);
    StepSetsTime(cfg, run[k], steps[k], d, e);
    RunKeepsTime(cfg, run, steps, k + 1, i, d);
  }

  /**
    A key that time has taken away stays away. It is indexed at state `i`, yet a read at `now` does not find
    it; then no read finds it at any later state and any later time, until it is stored or touched again.
  */
  lemma MissStays(cfg: Config, run: seq<Sys>, steps: seq<Step>, i: nat, j: nat, sid: nat, sid': nat, d: Digest,
                  now: nat,
                  now': nat)
    requires cfg.Valid() && IsRun(cfg, run, steps) && i <= j < |run| && LeftAlone(run, steps, d, i, j)
    requires d in run[i].core.index && sid !in run[i].readers && !Enabled(cfg, run[i], OpenSnapshot(sid, d, now))
    requires now <= now'
    ensures !Enabled(cfg, run[j], OpenSnapshot(sid', d, now'))
  {
    hide SysInv, Apply, LeftAlone;
    RunKeepsTime(cfg, run, steps, i, j, d);
  }

  // ---------------------------------------------------------------- the sweep

  /** From the clock value `now` on, a reader finds the same keys at `s` and `s'`. */
  ghost predicate SameReads(cfg: Config, s: Sys, s': Sys, sid: nat, now: nat)
    requires cfg.Valid()
  {
    forall d, t: nat {:trigger OpenSnapshot(sid, d, t)} :: now <= t ==>
      (Enabled(cfg, s', OpenSnapshot(sid, d, t)) <==> Enabled(cfg, s, OpenSnapshot(sid, d, t)))
  }

  /**
    The sweep lists the keys whose time is up at `now` and removes them one by one, each under the lock, without
    a second look. The removal of a key goes unnoticed by every read from then on exactly if the key is gone or
    its time is still up when its turn comes.
  */
  lemma SweepIff(cfg: Config, run: seq<Sys>, steps: seq<Step>, k: nat, sid: nat, d: Digest, now: nat)
    requires cfg.Valid() && IsRun(cfg, run, steps) && k < |steps| && steps[k] == Remove(d) && sid !in run[k].readers
    ensures SameReads(cfg, run[k], run[k + 1], sid, now) <==>
            d !in run[k].core.index || 0 < run[k].core.index[d].expiry <= now
  {
    hide DropObject;
    assert Goes(cfg, run[k], steps[k], run[k + 1]);
    DropIndex(cfg, run[k].core, d);
    if SameReads(cfg, run[k], run[k + 1], sid, now) {
      var look := OpenSnapshot(sid, d, now);
      assert Enabled(cfg, run[k + 1], look) <==> Enabled(cfg, run[k], look);
    }
  }

  /** So it does if nobody stored or touched the key since it was listed. */
  lemma SweepUnnoticed(cfg: Config, run: seq<Sys>, steps: seq<Step>, i: nat, k: nat, sid: nat, d: Digest, now: nat)
    requires cfg.Valid() && IsRun(cfg, run, steps) && i <= k < |steps| && steps[k] == Remove(d)
    requires d in run[i].core.index && 0 < run[i].core.index[d].expiry <= now
    requires LeftAlone(run, steps, d, i, k) && sid !in run[k].readers
    ensures SameReads(cfg, run[k], run[k + 1], sid, now)
  {
    hide SysInv, Apply, Enabled, LeftAlone, SameReads;
    RunKeepsTime(cfg, run, steps, i, k, d);
    SweepIff(cfg, run, steps, k, sid, d, now);
  }

  // ---------------------------------------------------------------- when a compare-and-swap store goes through

  /** A store that is flushed still has its scratch files. */
  lemma ScratchThere(cfg: Config, s: Sys, hid: nat)
    requires cfg.Valid() && SysInv(cfg, s) && hid in s.handles
    ensures var h := s.handles[hid]; NamesOf(cfg, h.digest, h.size, Tmp(h.tmp)) <= s.core.names.Keys
  {
    hide AllEntries, AllReaders, HandlesApart, Inv, Counters, OnDisk, HeadFits;
    assert HandleOk(cfg, s, s.handles[hid]);
  }

  /** Without an etag to compare, a flushed store can be committed whenever its renames can go through. */
  lemma PlainCommitIff(cfg: Config, run: seq<Sys>, steps: seq<Step>, k: nat, hid: nat, flags: nat, expiry: nat,
                       now: nat,
                       victims: seq<Digest>)
    requires cfg.Valid() && IsRun(cfg, run, steps) && k < |run| && hid in run[k].handles && run[k].handles[hid].flushed
    ensures Enabled(cfg, run[k], Commit(hid, flags, expiry, 0, now, victims)) <==>
            Publishable(cfg, run[k].handles[hid].digest, run[k].handles[hid].size)
  {
    hide SysInv, Publishable, NamesOf;
    RunInv(cfg, run, steps, k);
    ScratchThere(cfg, run[k], hid);
  }

  /**
    Compare and swap, both ways. A client saw key `d` under etag `e` at state `i`; at state `k` its store of
    `d` is flushed. The commit that asks for `e` can take place exactly if the key is still the version the
    client saw, its time is not up, and the renames can go through.
  */
  lemma SwapIff(cfg: Config, run: seq<Sys>, steps: seq<Step>, i: nat, k: nat, hid: nat, flags: nat, expiry: nat,
                now: nat,
                victims: seq<Digest>, d: Digest, e: nat)
    requires cfg.Valid() && IsRun(cfg, run, steps) && i <= k < |run| && d in run[i].core.index
    requires run[i].core.index[d].etag == e && hid in run[k].handles && run[k].handles[hid].flushed
    requires run[k].handles[hid].digest == d
    ensures Enabled(cfg, run[k], Commit(hid, flags, expiry, e, now, victims)) <==>
            && StillAt(run[k], d, e, run[i])
            && (run[k].core.index[d].expiry == 0 || now < run[k].core.index[d].expiry)
            && Publishable(cfg, d, run[k].handles[hid].size)
  {
    hide SysInv, Publishable, NamesOf, Monotone;
    RunInv(cfg, run, steps, i);
    RunInv(cfg, run, steps, k);
    ScratchThere(cfg, run[k], hid);
    EtagsCounted(cfg, run[i], d);
    HasVersion(cfg, run[i], d);
    RunMonotone(cfg, run, steps, i, k);
    KeepsVersion(run[i], run[k], e);
  }

  lemma KeepsVersion(s: Sys, s': Sys, e: nat)
    requires Monotone(s, s') && e in s.history
    ensures e in s'.history && s'.history[e] == s.history[e]
  {
  }
}
