/**
  A run in which a GET mixes two versions: the head of the key is evicted for another object, the snapshot
  finds none, a later store of the same key brings one, and the planner copies the first bytes from that head.
*/
module EngineExample {
  import opened Arith
  import opened Striping
  import opened StripedIo
  import opened Layout
  import opened S3Fifo
  import opened Core
  import opened BuddyBlocks
  import opened BuddyAllocator
  import opened HeadRoom
  import opened Engine
  import opened EngineRuns
  import WritePath

  /** One drive, and RAM for one head. */
  const ONE_DRIVE := DrivePool(1, 8192)
  const ONE_BLOCK := Ram(1, 4096, 0)
  const SMALL := Config(TierSizes(4096, 4096), false, ONE_DRIVE, ONE_DRIVE, ONE_BLOCK, 0)
  const SIZE := 4097
  const KEY := Digest(0, 0)
  const OTHER := Digest(1, 0)
  const PLACE: Rid := (0, 0)
  const HEAD := Head(PLACE, 4096)

  /** An object of one repeated byte, just too large for the RAM head. */
  function Value(b: byte): seq<byte> { seq(SIZE, i => b) }

  /** What the write path makes of an empty file: the object, padded to whole blocks. */
  function FileOfByte(b: byte): File { Scatter(ONE_DRIVE, 0, WritePath.NoFiles(1), 0,
                                               WritePath.Padded(Value(b), 0, 8192))[0] }

  /** The open files of the object: one, on the only drive. */
  function Files(inode: nat): Fds { map[0 := inode] }

  lemma OneFile(inode: nat)
    ensures Files(inode).Keys == {0} && Files(inode).Values == {inode}
  {
  }

  lemma SmallFacts()
    ensures SMALL.Valid() && SMALL.LayoutOf(SIZE) == ObjectLayout(SIZE, 4096, SIZE, 0)
    ensures OpenedDrives(ONE_DRIVE, 0, SIZE) == {0} && OpenedDrives(ONE_DRIVE, 0, 0) == {}
  {
    assert ONE_DRIVE.FilesUsed(SIZE) == 1;
    assert ONE_DRIVE.DriveOfChunk(0, 0) == 0;
  }

  lemma ValueOnDisk(b: byte, inode: nat, inodes: map<Inode, File>)
    requires inode in inodes && inodes[inode] == FileOfByte(b)
    ensures SMALL.Valid() && OnDisk(SMALL, KEY, Value(b), Files(inode), map[], inodes)
  {
    hide Scatter, At, DistinctPlaces;
    SmallFacts();
    var files := FilesOf(ONE_DRIVE, Files(inode), inodes);
    assert files == [FileOfByte(b)] == Scatter(ONE_DRIVE, 0, WritePath.NoFiles(1), 0,
                                               WritePath.Padded(Value(b), 0, 8192));
    CleanIsDistinct(ONE_DRIVE, 0, 1, 0, 8192);
    forall o: nat | o < SIZE
      ensures At(ONE_DRIVE, 0, files, o) == Some(b)
    {
      WritePath.TierReads(ONE_DRIVE, 0, files, Value(b), 0, 8192, o);
    }
  }

  /** The only place for a head is free exactly while there is no region. */
  lemma OnlyPlace(len: nat)
    requires 0 < len <= 4096
    ensures Placed(ONE_BLOCK, map[], PLACE, len) && !Room(ONE_BLOCK, map[PLACE := 4096], len)
  {
    assert OrderOf(4096, len) == 0 && OrderOf(4096, 4096) == 0 && Size(4096, 0) == 4096;
    var full := map[PLACE := 4096];
    forall b: nat, x: Block | b < 1 && x.order == 0 && Fits(4096, 0, x)
      ensures !Untouched(ONE_BLOCK, full, b, x)
    {
      assert (b, 0) in full && !Disjoint(4096, Block(0, 0), x);
    }
  }

  // ---------------------------------------------------------------- one store, step by step

  function BeginStep(inode: nat): Step {
    Begin(0, KEY, SIZE, [], HEAD, seq(4096, i => 0), Files(inode), map[])
  }

  /** All the bytes at once; the head takes its part, the file the rest of the work at the flush. */
  function WriteStep(b: byte, inode: nat): Step {
    Write(0, Value(b), seq(4096, i => b), map[inode := map[]])
  }

  function FlushStep(b: byte, inode: nat): Step {
    Flush(0, map[inode := FileOfByte(b)])
  }

  const COMMIT := Commit(0, 0, 0, 0, 0, [])

  /** The handle of the store of `b`, as far as it is. */
  function Storing(inode: nat, tmp: nat, fed: seq<byte>, flushed: bool): map<nat, Handle> {
    map[0 := Handle(KEY, SIZE, HEAD, tmp, Files(inode), map[], fed, flushed)]
  }

  lemma Begins(s: Sys, inode: nat)
    requires s.handles == map[] && inode !in s.inodes && s.core.regions == map[]
    ensures SMALL.Valid() && Enabled(SMALL, s, BeginStep(inode))
    ensures var t := Apply(SMALL, s, BeginStep(inode));
            && t.handles == Storing(inode, s.storeSeq, [], false)
            && t.core == s.core.(regions := map[PLACE := 4096], names := t.core.names) && t.readers == s.readers
               && t.history == s.history
            && Name(Ssd, 0, KEY, Tmp(s.storeSeq)) in t.core.names && PLACE in t.mem
            && t.inodes.Keys == s.inodes.Keys + {inode}
  {
    hide Scatter, Value;
    CanBegin(s, inode);
    OneFile(inode);
    ScratchName(s.storeSeq, inode);
    hide CanOpen, TmpNames, Reserves;
    assert FreshFiles(Files(inode), map[]).Keys == {inode};
  }

  lemma CanBegin(s: Sys, inode: nat)
    requires s.handles == map[] && inode !in s.inodes && s.core.regions == map[]
    ensures SMALL.Valid() && Enabled(SMALL, s, BeginStep(inode))
  {
    hide Placed, Room;
    SmallFacts();
    OneFile(inode);
    OnlyPlace(4096);
  }

  lemma ScratchName(tmp: nat, inode: nat)
    ensures Name(Ssd, 0, KEY, Tmp(tmp)) in TmpNames(KEY, tmp, Files(inode), map[])
  {
    assert Name(Ssd, 0, KEY, Tmp(tmp)) in (set x | x in Files(inode) :: Name(Ssd, x, KEY, Tmp(tmp)));
  }

  lemma Writes(s: Sys, b: byte, inode: nat, tmp: nat)
    requires SMALL.Valid() && s.handles == Storing(inode, tmp, [], false)
    ensures Enabled(SMALL, s, WriteStep(b, inode))
    ensures var t := Apply(SMALL, s, WriteStep(b, inode));
            && t.handles == Storing(inode, tmp, Value(b), false)
            && t.core == s.core && t.readers == s.readers && t.history == s.history
               && t.inodes.Keys == s.inodes.Keys + {inode}
            && PLACE in t.mem && t.mem[PLACE] == Value(b)[..4096]
  {
    SmallFacts();
    OneFile(inode);
    assert [] + Value(b) == Value(b);
    assert seq(4096, i => b) == Value(b)[..4096];
  }

  lemma Flushes(s: Sys, b: byte, inode: nat, tmp: nat)
    requires SMALL.Valid() && s.handles == Storing(inode, tmp, Value(b), false)
    requires PLACE in s.mem && s.mem[PLACE] == Value(b)[..4096]
    ensures Enabled(SMALL, s, FlushStep(b, inode))
    ensures var t := Apply(SMALL, s, FlushStep(b, inode));
            && t.handles == Storing(inode, tmp, Value(b), true)
            && t.core == s.core && t.readers == s.readers && t.history == s.history && t.mem == s.mem
               && t.inodes.Keys == s.inodes.Keys + {inode}
  {
    hide OnDisk, Scatter, FileOfByte;
    OneFile(inode);
    ValueOnDisk(b, inode, s.inodes + map[inode := FileOfByte(b)]);
  }

  lemma Commits(s: Sys, b: byte, inode: nat, tmp: nat)
    requires SMALL.Valid() && s.handles == Storing(inode, tmp, Value(b), true)
    requires Name(Ssd, 0, KEY, Tmp(tmp)) in s.core.names && (KEY in s.core.index ==> s.core.index[KEY].head.NoHead?)
    ensures Enabled(SMALL, s, COMMIT)
    ensures var t := Apply(SMALL, s, COMMIT);
            && t.handles == map[] && t.readers == s.readers && t.mem == s.mem && t.inodes == s.inodes
            && t.core.index == s.core.index[KEY := Meta(SIZE, 0, 0, s.core.etagSeq + 1, HEAD)]
            && t.core.etagSeq == s.core.etagSeq + 1 && t.core.regions == s.core.regions && t.core.pins == s.core.pins
            && t.core.heads == s.core.heads + {KEY}
               && t.history == s.history[s.core.etagSeq + 1 := Version(KEY, Value(b))]
  {
    hide Value, FileOfByte;
    SmallFacts();
    assert NamesOf(SMALL, KEY, SIZE, Tmp(tmp)) == {Name(Ssd, 0, KEY, Tmp(tmp))};
  }

  /** The key is stored, with its head in the only place. */
  ghost predicate Stored(s: Sys, t: Sys, b: byte, inode: nat) {
    && t.handles == map[] && t.readers == s.readers && t.inodes.Keys == s.inodes.Keys + {inode}
    && t.core.index == s.core.index[KEY := Meta(SIZE, 0, 0, s.core.etagSeq + 1, HEAD)]
    && t.core.heads == s.core.heads + {KEY} && t.core.regions == map[PLACE := 4096] && t.core.pins == s.core.pins
    && t.core.etagSeq == s.core.etagSeq + 1 && t.history == s.history[s.core.etagSeq + 1 := Version(KEY, Value(b))]
  }

  /** The steps `steps` lead from `s` through the states `run`. */
  ghost predicate Leads(s: Sys, run: seq<Sys>, steps: seq<Step>)
    requires SMALL.Valid()
  {
    |run| == |steps| && forall i {:trigger steps[i]} :: 0 <= i < |steps| ==>
        Goes(SMALL, if i == 0 then s else run[i - 1], steps[i], run[i])
  }

  /** A whole store of the key. */
  lemma Stores(s: Sys, b: byte, inode: nat) returns (run: seq<Sys>, steps: seq<Step>)
    requires s.handles == map[] && inode !in s.inodes && s.core.regions == map[]
             && (KEY in s.core.index ==> s.core.index[KEY].head.NoHead?)
    ensures SMALL.Valid() && |run| == |steps| == 4 && Leads(s, run, steps) && Stored(s, run[3], b, inode)
  {
    hide Enabled, Apply, Value, FileOfByte;
    Begins(s, inode);
    var a := Apply(SMALL, s, BeginStep(inode));
    Writes(a, b, inode, s.storeSeq);
    var w := Apply(SMALL, a, WriteStep(b, inode));
    Flushes(w, b, inode, s.storeSeq);
    var f := Apply(SMALL, w, FlushStep(b, inode));
    Commits(f, b, inode, s.storeSeq);
    var t := Apply(SMALL, f, COMMIT);
    run := [a, w, f, t];
    steps := [BeginStep(inode), WriteStep(b, inode), FlushStep(b, inode), COMMIT];
  }

  // ---------------------------------------------------------------- the head goes

  /** A store of one byte under another key takes the place of the head. */
  const TAKE := Begin(0, OTHER, 1, [KEY], Head(PLACE, 1), [0], map[], map[])

  /** The key has a head, in the only place, that nobody has pinned. */
  ghost predicate HeadThere(s: Sys) {
    && s.handles == map[] && s.core.pins == map[] && s.core.regions == map[PLACE := 4096] && s.core.heads == {KEY}
    && KEY in s.core.index && s.core.index[KEY].size == SIZE && s.core.index[KEY].head == HEAD
  }

  lemma HeadEvicted(c: State)
    requires c.pins == map[] && c.regions == map[PLACE := 4096] && c.heads == {KEY}
    requires KEY in c.index && c.index[KEY].size == SIZE && c.index[KEY].head == HEAD
    ensures EvictHeads(SMALL, c, [KEY]) ==
            c.(regions := map[], heads := {}, index := c.index[KEY := c.index[KEY].(head := NoHead)])
  {
    assert [KEY][..0] == [] && EvictHeads(SMALL, c, []) == c;
    assert c.regions - {PLACE} == map[];
  }

  lemma Takes(s: Sys)
    requires HeadThere(s)
    ensures SMALL.Valid() && Enabled(SMALL, s, TAKE)
    ensures var t := Apply(SMALL, s, TAKE);
            && t.handles.Keys == {0} && t.handles[0].head == Head(PLACE, 1) && t.handles[0].digest == OTHER
               && t.handles[0].size == 1
            && t.readers == s.readers && t.history == s.history && t.inodes == s.inodes
               && t.core.regions == map[PLACE := 1]
            && t.core == s.core.(regions := t.core.regions, heads := {},
                                 index := s.core.index[KEY := s.core.index[KEY].(head := NoHead)],
                                 names := t.core.names)
  {
    hide Enabled, EvictHeads, TmpNames;
    CanTake(s);
    HeadEvicted(s.core);
    NoFreshFiles(s.inodes);
  }

  lemma NoFreshFiles(inodes: map<Inode, File>)
    ensures inodes + FreshFiles(map[], map[]) == inodes
  {
    assert FreshFiles(map[], map[]) == map[];
  }

  lemma CanTake(s: Sys)
    requires HeadThere(s)
    ensures SMALL.Valid() && Enabled(SMALL, s, TAKE)
  {
    hide EvictHeads, Reserves, OpenedDrives;
    SmallFacts();
    OneByteFacts();
    HeadEvicted(s.core);
    TakesPlace(s.core);
  }

  lemma OneByteFacts()
    ensures SMALL.LayoutOf(1) == ObjectLayout(1, 1, 0, 0) && OpenedDrives(ONE_DRIVE, 1, 0) == {}
    ensures OpenedDrives(ONE_DRIVE, OTHER.bucket, 0) == {} && HeadFits(SMALL, 1, Head(PLACE, 1))
  {
  }

  /** No room for one more byte, and after the eviction there is. */
  lemma TakesPlace(c: State)
    requires SMALL.Valid() && c.regions == map[PLACE := 4096] && c.heads == {KEY}
             && EvictHeads(SMALL, c, [KEY]).regions == map[]
    ensures Reserves(SMALL, c, [KEY], 1, Head(PLACE, 1))
  {
    hide Placed, Room;
    OnlyPlace(1);
    assert [KEY][..0] == [] && EvictHeads(SMALL, c, []) == c;
  }

  /** That store is given up. */
  lemma GivesUp(s: Sys)
    requires SMALL.Valid() && s.handles.Keys == {0} && s.handles[0].head == Head(PLACE, 1)
             && s.core.regions == map[PLACE := 1]
    ensures Enabled(SMALL, s, Abort(0))
    ensures var t := Apply(SMALL, s, Abort(0));
            && t.handles == map[] && t.readers == s.readers && t.history == s.history && t.inodes == s.inodes
            && t.core == s.core.(regions := map[], names := t.core.names)
  {
    hide NamesOf;
    assert s.core.regions - {PLACE} == map[];
    assert s.handles - {0} == map[];
  }

  lemma Opens(s: Sys)
    requires SMALL.Valid() && s.readers == map[] && KEY in s.core.index
             && s.core.index[KEY] == Meta(SIZE, 0, 0, 1, NoHead)
    ensures Enabled(SMALL, s, OpenSnapshot(0, KEY, 0))
    ensures var t := Apply(SMALL, s, OpenSnapshot(0, KEY, 0));
            && t == s.(readers := t.readers) && 0 in t.readers && HasTail(SMALL, t.readers[0])
            && t.readers[0].digest == KEY && t.readers[0].meta == s.core.index[KEY]
  {
    SmallFacts();
  }

  /**
    The run: a store of the key, a store of another key that takes the place of its head and is given up, a
    snapshot, and another store of the key. The GET of the snapshot then gets its first byte from the second
    version and its last one from the first.
  */
  lemma MixedVersionGet() returns (run: seq<Sys>, steps: seq<Step>)
    ensures SMALL.Valid() && IsRun(SMALL, run, steps) && 0 in run[|steps|].readers
    ensures forall i {:trigger steps[i]} :: 0 <= i < |steps| && steps[i].Begin? && steps[i].size > 0 ==>
              var e := EvictHeads(SMALL, run[i].core, steps[i].victims);
              steps[i].head.Head? <==> Room(ONE_BLOCK, e.regions, Min(steps[i].size, 4096))
    ensures var s := run[|steps|];
            var r := s.readers[0];
            && !ValueAt(s, r.meta.etag, 0, PlannedByte(SMALL, s, s, r, 0))
            && ValueAt(s, r.meta.etag, SIZE - 1, PlannedByte(SMALL, s, s, r, SIZE - 1))
  {
    hide Enabled, Apply, PlannedByte, HasTail, Leads, Room, Goes, IsRun, EvictHeads;
    SmallFacts();
    var run1, steps1 := Stores(EMPTY_STORE, 1, 0);
    var run2, steps2 := Between(run1[3]);
    var run3, steps3 := Stores(run2[2], 2, 1);
    run := [EMPTY_STORE] + (run1 + run2 + run3);
    steps := steps1 + steps2 + steps3;
    LeadsOn(EMPTY_STORE, run1, steps1, run2, steps2);
    LeadsOn(EMPTY_STORE, run1 + run2, steps1 + steps2, run3, steps3);
    LeadsIsRun(run1 + run2 + run3, steps);
    HeadsAsRoom(run, steps);
    var n := |steps|;
    assert run[n] == run3[3];
    PlannedByteSource(SMALL, run, steps, n, n, 0, 0);
    PlannedByteSource(SMALL, run, steps, n, n, 0, SIZE - 1);
  }

  /** From the first store to the snapshot. */
  lemma Between(s: Sys) returns (run: seq<Sys>, steps: seq<Step>)
    requires SMALL.Valid() && HeadThere(s) && s.readers == map[] && s.core.index[KEY] == Meta(SIZE, 0, 0, 1, HEAD)
    ensures |run| == |steps| == 3 && Leads(s, run, steps)
    ensures var t := run[2];
            && t.handles == map[] && t.inodes == s.inodes && t.history == s.history && t.core.etagSeq == s.core.etagSeq
            && t.core.regions == map[] && KEY in t.core.index && t.core.index[KEY] == Meta(SIZE, 0, 0, 1, NoHead)
            && 0 in t.readers && HasTail(SMALL, t.readers[0]) && t.readers[0].digest == KEY
               && t.readers[0].meta == t.core.index[KEY]
  {
    hide Enabled, Apply, HasTail;
    Takes(s);
    var a := Apply(SMALL, s, TAKE);
    GivesUp(a);
    var b := Apply(SMALL, a, Abort(0));
    Opens(b);
    var open := OpenSnapshot(0, KEY, 0);
    run := [a, b, Apply(SMALL, b, open)];
    steps := [TAKE, Abort(0), open];
  }

  lemma Touches(s: Sys, expiry: nat)
    requires SMALL.Valid() && KEY in s.core.index
    ensures Enabled(SMALL, s, TouchTtl(KEY, expiry))
    ensures var t := Apply(SMALL, s, TouchTtl(KEY, expiry));
            t.readers == s.readers && KEY in t.core.index && t.core.index[KEY].expiry == expiry
  {
  }

  /**
    The run: the key is stored and given a time that is up at 1, when the sweep lists it; a client then asks for
    it to be kept for ever, and the sweep removes it all the same.
  */
  lemma SweepHitsKept() returns (run: seq<Sys>, steps: seq<Step>)
    ensures SMALL.Valid() && IsRun(SMALL, run, steps) && |steps| == 7 && steps[6] == Remove(KEY)
    ensures KEY in run[5].core.index && run[5].core.index[KEY].expiry == 1
    ensures KEY in run[6].core.index && run[6].core.index[KEY].expiry == 0 && KEY !in run[7].core.index
  {
    hide Enabled, Apply, Leads, IsRun, DropObject;
    SmallFacts();
    var run1, steps1 := Stores(EMPTY_STORE, 1, 0);
    var run2, steps2 := Swept(run1[3]);
    run := [EMPTY_STORE] + (run1 + run2);
    steps := steps1 + steps2;
    LeadsOn(EMPTY_STORE, run1, steps1, run2, steps2);
    LeadsIsRun(run1 + run2, steps);
  }

  lemma Swept(s: Sys) returns (run: seq<Sys>, steps: seq<Step>)
    requires SMALL.Valid() && KEY in s.core.index
    ensures |run| == |steps| == 3 && Leads(s, run, steps) && steps[2] == Remove(KEY)
    ensures KEY in run[0].core.index && run[0].core.index[KEY].expiry == 1
    ensures KEY in run[1].core.index && run[1].core.index[KEY].expiry == 0 && KEY !in run[2].core.index
  {
    hide DropObject, Touched;
    Touches(s, 1);
    var a := Apply(SMALL, s, TouchTtl(KEY, 1));
    Touches(a, 0);
    var b := Apply(SMALL, a, TouchTtl(KEY, 0));
    DropIndex(SMALL, b.core, KEY);
    run := [a, b, Apply(SMALL, b, Remove(KEY))];
    steps := [TouchTtl(KEY, 1), TouchTtl(KEY, 0), Remove(KEY)];
  }

  lemma LeadsOn(s: Sys, run1: seq<Sys>, steps1: seq<Step>, run2: seq<Sys>, steps2: seq<Step>)
    requires SMALL.Valid() && run1 != [] && Leads(s, run1, steps1) && Leads(run1[|run1| - 1], run2, steps2)
    ensures Leads(s, run1 + run2, steps1 + steps2)
  {
    hide Goes;
    var run, steps, n := run1 + run2, steps1 + steps2, |run1|;
    forall i {:trigger steps[i]} | 0 <= i < |steps|
      ensures Goes(SMALL, if i == 0 then s else run[i - 1], steps[i], run[i])
    {
      if i < n {
        assert steps[i] == steps1[i];
      } else {
        assert steps[i] == steps2[i - n];
      }
    }
  }

  lemma LeadsIsRun(run: seq<Sys>, steps: seq<Step>)
    requires SMALL.Valid() && Leads(EMPTY_STORE, run, steps)
    ensures IsRun(SMALL, [EMPTY_STORE] + run, steps)
  {
    hide Goes;
  }

  lemma HeadsAsRoom(run: seq<Sys>, steps: seq<Step>)
    requires SMALL.Valid() && IsRun(SMALL, run, steps)
    ensures forall i {:trigger steps[i]} :: 0 <= i < |steps| && steps[i].Begin? && steps[i].size > 0 ==>
              var e := EvictHeads(SMALL, run[i].core, steps[i].victims);
              steps[i].head.Head? <==> Room(ONE_BLOCK, e.regions, Min(steps[i].size, 4096))
  {
    hide Room, EvictHeads, CanOpen, Apply, Reserves;
    forall i {:trigger steps[i]} | 0 <= i < |steps| && steps[i].Begin? && steps[i].size > 0
      ensures var e := EvictHeads(SMALL, run[i].core, steps[i].victims);
              steps[i].head.Head? <==> Room(ONE_BLOCK, e.regions, Min(steps[i].size, 4096))
    {
      assert Goes(SMALL, run[i], steps[i], run[i + 1]);
      ReservesIff(SMALL, run[i].core, steps[i].victims, Min(steps[i].size, 4096), steps[i].head);
    }
  }
}
