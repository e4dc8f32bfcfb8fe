/**
  The streaming write path of a store handle (src/goblin/storage/tier_manager.cpp:314-384): chunks
  fill the RAM head and a staging buffer, full staging blocks are flushed to the SSD prefix and the
  HDD tail, and the last partial block is zero-padded to 4 KiB at commit.
*/
module WritePath {
  import opened Arith
  import opened Striping
  import opened StripedIo
  import opened Layout

  datatype Status = Ok | PastEnd | Incomplete | IoError

  /** Byte `o` of a value, and zero behind its end. */
  function PadAt(value: seq<byte>, o: nat): byte { if o < |value| then value[o] else 0 }

  /** `len` bytes of the padded value, from object offset `from` on. */
  function Padded(value: seq<byte>, from: nat, len: nat): (r: seq<byte>)
    ensures |r| == len && forall i :: 0 <= i < len ==> r[i] == PadAt(value, from + i)
  {
    seq(len, i requires 0 <= i < len => PadAt(value, from + i))
  }

  function NoFiles(n: nat): (r: seq<File>)
    ensures |r| == n
  {
    seq(n, _ => map[])
  }

  /**
    The tier whose bytes start at offset `from` of the object has been given its first `len` bytes, and nothing
    else.
  */
  ghost predicate TierIs(p: DrivePool, h: nat, files: seq<File>, value: seq<byte>, from: nat, len: nat)
    requires p.Valid()
  {
    files == Scatter(p, h, NoFiles(p.n), 0, Padded(value, from, len))
  }

  /** Appending to the tier what comes next in the value. */
  lemma TierGrows(p: DrivePool, h: nat, before: seq<File>, after: seq<File>, value: seq<byte>, from: nat, len: nat,
                  data: seq<byte>)
    requires p.Valid() && TierIs(p, h, before, value, from, len) && after == Scatter(p, h, before, len, data)
    requires forall i :: 0 <= i < |data| ==> data[i] == PadAt(value, from + len + i)
    ensures TierIs(p, h, after, value, from, len + |data|)
  {
    hide Scatter;
    ScatterAppend(p, h, NoFiles(p.n), 0, Padded(value, from, len), data);
    assert Padded(value, from, len) + data == Padded(value, from, len + |data|);
  }

  /** What is on disk does not change when more of the value becomes known. */
  lemma TierKept(p: DrivePool, h: nat, files: seq<File>, value: seq<byte>, more: seq<byte>, from: nat, len: nat)
    requires p.Valid() && TierIs(p, h, files, value, from, len)
    requires len > 0 ==> from + len <= |value|
    ensures TierIs(p, h, files, value + more, from, len)
  {
    assert Padded(value + more, from, len) == Padded(value, from, len);
  }

  lemma TierEmpty(p: DrivePool, h: nat, files: seq<File>, value: seq<byte>, from: nat)
    requires p.Valid() && |files| == p.n && forall i :: 0 <= i < p.n ==> files[i] == map[]
    ensures TierIs(p, h, files, value, from, 0)
  {
    assert files == NoFiles(p.n);
  }

  /** With bytes in distinct places, a tier reads as what it was given. */
  lemma TierReads(p: DrivePool, h: nat, files: seq<File>, value: seq<byte>, from: nat, len: nat, o: nat)
    requires p.Valid() && TierIs(p, h, files, value, from, len) && |files| == p.n && DistinctPlaces(p, h, 0, len)
             && o < len
    ensures At(p, h, files, o) == Some(PadAt(value, from + o))
  {
    hide At, Scatter, DistinctPlaces;
    ScatterReadsBack(p, h, NoFiles(p.n), 0, Padded(value, from, len));
    assert At(p, h, files, 0 + o) == Some(Padded(value, from, len)[o]);
  }

  /** `memcpy` of `data` into `a` at `at`. */
  method CopyIn(a: array<byte>, at: nat, data: seq<byte>)
    requires at + |data| <= a.Length
    modifies a
    ensures a[..at + |data|] == old(a[..at]) + data
    ensures forall i :: at + |data| <= i < a.Length ==> a[i] == old(a[i])
  {
    forall i | at <= i < at + |data| {
      a[i] := data[i - at];
    }
  }

  /** The chunk bytes from `pos` on continue what is staged. */
  lemma Joined(fed: seq<byte>, flushed: nat, start: nat, chunk: seq<byte>, pos: nat, take: nat)
    requires start <= |fed| && fed[start..] == chunk && pos + take <= |chunk| && flushed <= start + pos
    ensures fed[flushed..start + pos] + chunk[pos..pos + take] == fed[flushed..start + pos + take]
  {
  }

  class StoreHandle {
    const layout: ObjectLayout
    const bucket: nat
    const ssdPool: DrivePool
    const hddPool: DrivePool
    /** The reserved RAM head, or null when none could be had. */
    const head: array?<byte>
    const stage: array<byte>
    const ssd: array<File>
    const hdd: array<File>
    var stageFill: nat
    var flushed: nat
    var off: nat
    /** The value as far as it has been handed in. */
    ghost var fed: seq<byte>

    /** How far the SSD files reach: padded to 4 KiB only when they hold the object's end. */
    ghost function SsdExtent(): nat
    {
      if layout.hddBytes > 0 then layout.ssdBytes else AlignUp(layout.ssdBytes, DEVICE_BLOCK)
    }

    ghost function SsdChunks(): nat requires ssdPool.Valid() { ssdPool.Chunks(layout.ssdBytes) }

    ghost function HddChunks(): nat requires hddPool.Valid() { hddPool.Chunks(layout.hddBytes) }

    predicate RamOnly() { layout.ssdBytes == 0 && layout.hddBytes == 0 }

    /** Fixed facts: aligned buffers, distinct objects and a layout that adds up. */
    ghost predicate Shape()
    {
      && ssdPool.Valid() && hddPool.Valid()
      && ssdPool.s % DEVICE_BLOCK == 0 && hddPool.s % DEVICE_BLOCK == 0
      && ssd.Length == ssdPool.n && hdd.Length == hddPool.n && ssd != hdd
      && 0 < stage.Length && stage.Length % DEVICE_BLOCK == 0
      && head != stage
      && (head != null ==> head.Length == layout.ramHeadBytes)
      && (RamOnly() || layout.ssdBytes + layout.hddBytes == layout.size)
      && (layout.hddBytes > 0 ==> layout.ssdBytes % DEVICE_BLOCK == 0)
      && layout.ramHeadBytes <= layout.size
    }

    ghost predicate HeadOk(value: seq<byte>)
      requires Shape()
      reads head
    {
      head != null ==>
        var n := Min(|value|, head.Length);
        head[..n] == value[..n]
    }

    /** The two tiers have been given exactly the first `len` bytes of the padded value. */
    ghost predicate DiskIs(value: seq<byte>, len: nat)
      requires Shape()
      reads ssd, hdd
    {
      && TierIs(ssdPool, bucket, ssd[..], value, 0, Min(len, SsdExtent()))
      && (layout.hddBytes > 0 ==>
            TierIs(hddPool, bucket, hdd[..], value, layout.ssdBytes, Max(len - layout.ssdBytes, 0)))
    }

    ghost predicate Valid()
      reads this, head, stage, ssd, hdd
    {
      && Shape() && off == |fed| <= layout.size
      && HeadOk(fed) && flushed % DEVICE_BLOCK == 0 && DiskIs(fed, flushed)
      && (if RamOnly() then stageFill == flushed == 0
          else off == flushed + stageFill && stageFill < stage.Length && stage[..stageFill] == fed[flushed..])
    }

    /** The block `stage[..n]` of the value, `flushed` bytes in, fits what the files may hold. */
    ghost predicate Staged(n: nat)
      requires Shape()
      reads this, stage
    {
      && !RamOnly() && 0 < n <= stage.Length && n % DEVICE_BLOCK == 0 && flushed % DEVICE_BLOCK == 0
      && flushed + n <= AlignUp(layout.size, DEVICE_BLOCK)
      && forall i :: 0 <= i < n ==> stage[i] == PadAt(fed, flushed + i)
    }

    method FlushBlock(n: nat) returns (ok: bool)
      requires Shape() && Staged(n) && DiskIs(fed, flushed)
      modifies this`flushed, this`stageFill, ssd, hdd
      ensures ok ==> DiskIs(fed, flushed) && flushed == old(flushed) + n && stageFill == 0
      ensures ok ==> flushed % DEVICE_BLOCK == 0
    {
      hide TierIs, Scatter, AlignUp;
      var o := flushed;
      Extents(n);
      var ssdStop := Min(o + n, if layout.hddBytes > 0 then layout.ssdBytes
                         else AlignUp(layout.ssdBytes, DEVICE_BLOCK));
      if o < ssdStop {
        ghost var before, done := ssd[..], 0;
        ok, done := StripedPwrite(ssdPool, bucket, ssd, o, stage[..ssdStop - o]);
        if !ok {
          return;
        }
        assert stage[..ssdStop - o][..done] == stage[..ssdStop - o];
        TierGrows(ssdPool, bucket, before, ssd[..], fed, 0, o, stage[..ssdStop - o]);
      }
      if o + n > layout.ssdBytes && layout.hddBytes > 0 {
        var begin := Max(o, layout.ssdBytes);
        var src := begin - o;
        ghost var before, done := hdd[..], 0;
        ok, done := StripedPwrite(hddPool, bucket, hdd, begin - layout.ssdBytes, stage[src..n]);
        if !ok {
          return;
        }
        assert stage[src..n][..done] == stage[src..n];
        TierGrows(hddPool, bucket, before, hdd[..], fed, layout.ssdBytes, begin - layout.ssdBytes, stage[src..n]);
      }
      SumAligned(flushed, n, DEVICE_BLOCK);
      flushed := flushed + n;
      stageFill := 0;
      ok := true;
    }

    /** How far a block may reach. */
    lemma Extents(n: nat)
      requires Shape() && Staged(n)
      ensures layout.hddBytes == 0 ==> flushed + n <= SsdExtent()
      ensures layout.ssdBytes <= SsdExtent()
    {
      hide AlignUp;
      AlignUpLeast(layout.ssdBytes, DEVICE_BLOCK);
    }

    constructor (layout: ObjectLayout, bucket: nat, ssdPool: DrivePool, hddPool: DrivePool, head: array?<byte>,
                 stage: array<byte>)
      requires ssdPool.Valid() && hddPool.Valid() && ssdPool.s % DEVICE_BLOCK == 0 && hddPool.s % DEVICE_BLOCK == 0
      requires 0 < stage.Length && stage.Length % DEVICE_BLOCK == 0 && head != stage
      requires head != null ==> head.Length == layout.ramHeadBytes
      requires exists tiers: TierSizes, three :: tiers.Valid() && layout == ComputeLayout(layout.size, tiers, three)
      ensures Valid() && fed == [] && this.layout == layout && this.head == head && this.stage == stage
      ensures this.bucket == bucket && this.ssdPool == ssdPool && this.hddPool == hddPool
      ensures fresh(ssd) && fresh(hdd)
    {
      hide AlignUp, TierIs;
      this.layout, this.bucket, this.ssdPool, this.hddPool := layout, bucket, ssdPool, hddPool;
      this.head, this.stage := head, stage;
      ssd := new File[ssdPool.n](_ => map[]);
      hdd := new File[hddPool.n](_ => map[]);
      stageFill, flushed, off, fed := 0, 0, 0, [];
      new;
      TierEmpty(ssdPool, bucket, ssd[..], fed, 0);
      TierEmpty(hddPool, bucket, hdd[..], fed, layout.ssdBytes);
    }

    /** Copies what falls into the resident head. */
    method FillHead(chunk: seq<byte>)
      requires Shape() && off == |fed| && off + |chunk| <= layout.size && HeadOk(fed)
      modifies head
      ensures HeadOk(fed + chunk)
    {
      if head != null {
        var hend := Min(off + |chunk|, head.Length);
        if off < hend {
          CopyIn(head, off, chunk[..hend - off]);
          assert (fed + chunk)[..hend] == fed + chunk[..hend - off];
        } else {
          assert (fed + chunk)[..hend] == fed[..hend];
        }
      }
    }

    /** Disk and staging buffer together hold the first `upTo` bytes of the value. */
    ghost predicate Filling(upTo: nat)
      reads this, stage, ssd, hdd
    {
      && Shape() && !RamOnly() && upTo <= |fed| <= layout.size
      && flushed % DEVICE_BLOCK == 0 && DiskIs(fed, flushed)
      && upTo == flushed + stageFill && stageFill < stage.Length
      && stage[..stageFill] == fed[flushed..upTo]
    }

    /** One turn of the staging loop: fill the buffer, flush it when full. */
    method StageSome(chunk: seq<byte>, pos: nat, ghost start: nat) returns (ok: bool, take: nat)
      requires Filling(start + pos) && pos < |chunk| && start + |chunk| == |fed| && fed[start..] == chunk
      modifies this`flushed, this`stageFill, stage, ssd, hdd
      ensures 0 < take <= |chunk| - pos
      ensures ok ==> Filling(start + pos + take)
    {
      hide DiskIs, AlignUp, Staged, PadAt;
      take := Min(|chunk| - pos, stage.Length - stageFill);
      CopyIn(stage, stageFill, chunk[pos..pos + take]);
      Joined(fed, flushed, start, chunk, pos, take);
      stageFill := stageFill + take;
      ok := true;
      if stageFill == stage.Length {
        FullBlock();
        ok := FlushBlock(stageFill);
      }
    }

    /** Appends the next bytes of the value; a chunk that overruns the object is refused untouched. */
    method Write(chunk: seq<byte>) returns (st: Status)
      requires Valid()
      modifies this, head, stage, ssd, hdd
      ensures st == PastEnd <==> old(off) + |chunk| > layout.size
      ensures st == PastEnd ==> Valid() && fed == old(fed)
      ensures st == Ok ==> Valid() && fed == old(fed) + chunk
      ensures st != Incomplete
    {
      hide DiskIs, AlignUp;
      var len := |chunk|;
      if off + len > layout.size {
        return PastEnd;
      }
      FillHead(chunk);
      DiskKept(chunk);
      if layout.ssdBytes == 0 && layout.hddBytes == 0 {
        off, fed := off + len, fed + chunk;
        return Ok;
      }
      fed := fed + chunk;
      assert fed[off..] == chunk;
      var ok := StageAll(chunk, off);
      if !ok {
        return IoError;
      }
      off := off + len;
      assert fed[flushed..off] == fed[flushed..];
      st := Ok;
    }

    /** The staging loop: the chunk, which is what the value has from `start` on, goes through the buffer. */
    method StageAll(chunk: seq<byte>, ghost start: nat) returns (ok: bool)
      requires Filling(start) && start + |chunk| == |fed| && fed[start..] == chunk
      modifies this`flushed, this`stageFill, stage, ssd, hdd
      ensures ok ==> Filling(|fed|)
    {
      hide Filling;
      var pos, remaining := 0, |chunk|;
      while remaining > 0
        invariant pos + remaining == |chunk| && 0 <= remaining
        invariant Filling(start + pos)
        decreases remaining
      {
        var take;
        ok, take := StageSome(chunk, pos, start);
        if !ok {
          return;
        }
        pos := pos + take;
        remaining := remaining - take;
      }
      ok := true;
    }

    /** A full staging buffer is a block of the value that the files have room for. */
    lemma FullBlock()
      requires Shape() && !RamOnly() && stageFill == stage.Length && flushed % DEVICE_BLOCK == 0
      requires flushed + stageFill <= |fed| <= layout.size
      requires stage[..stageFill] == fed[flushed..flushed + stageFill]
      ensures Staged(stage.Length)
    {
      hide AlignUp;
      AlignUpLeast(layout.size, DEVICE_BLOCK);
      forall i | 0 <= i < stage.Length ensures stage[i] == PadAt(fed, flushed + i) {
        assert stage[..stageFill][i] == fed[flushed..flushed + stageFill][i];
      }
    }

    lemma DiskKept(chunk: seq<byte>)
      requires Shape() && DiskIs(fed, flushed) && flushed <= |fed|
      ensures DiskIs(fed + chunk, flushed)
    {
      hide TierIs, AlignUp;
      TierKept(ssdPool, bucket, ssd[..], fed, chunk, 0, Min(flushed, SsdExtent()));
      if layout.hddBytes > 0 {
        TierKept(hddPool, bucket, hdd[..], fed, chunk, layout.ssdBytes, Max(flushed - layout.ssdBytes, 0));
      }
    }

    /**
      The handle's files and head when the whole value is down: the head is its first bytes, the
      SSD tier its prefix, the HDD tier the rest, and each file set ends within the padding of the
      last 4 KiB.
    */
    ghost predicate Sealed(value: seq<byte>)
      reads this, head, ssd, hdd
    {
      && Shape() && |value| == layout.size && HeadOk(value)
      && DiskIs(value, if RamOnly() then 0 else AlignUp(layout.size, DEVICE_BLOCK))
    }

    /** The unlocked part of commit: refuses an incomplete value, else pads and flushes the rest. */
    method FinishFlush() returns (st: Status)
      requires Valid()
      modifies this`flushed, this`stageFill, stage, ssd, hdd
      ensures st == Incomplete <==> |fed| != layout.size
      ensures st == Incomplete ==> Valid()
      ensures st == Ok ==> Sealed(fed)
      ensures st != PastEnd
    {
      hide TierIs, AlignUp;
      if off != layout.size {
        return Incomplete;
      }
      AlignUpLeast(layout.size, DEVICE_BLOCK);
      if stageFill > 0 {
        var padded := AlignUp(stageFill, DEVICE_BLOCK);
        AlignUpLeast(stageFill, DEVICE_BLOCK);
        AlignUpBelow(stageFill, stage.Length, DEVICE_BLOCK);
        AlignUpSum(flushed, stageFill, DEVICE_BLOCK);
        ghost var was := stage[..stageFill];
        forall i | stageFill <= i < padded {
          stage[i] := 0;
        }
        forall i | 0 <= i < padded ensures stage[i] == PadAt(fed, flushed + i) {
          if i < stageFill {
            assert stage[i] == was[i] == fed[flushed..][i];
          }
        }
        var ok := FlushBlock(padded);
        if !ok {
          return IoError;
        }
      }
      st := Ok;
    }
  }

  function Concat(chunks: seq<seq<byte>>): seq<byte>
  {
    if chunks == [] then [] else Concat(chunks[..|chunks| - 1]) + chunks[|chunks| - 1]
  }

  /** A whole upload: the value in any chunks, then the flush of commit. */
  method Upload(h: StoreHandle, chunks: seq<seq<byte>>) returns (st: Status)
    requires h.Valid() && h.fed == []
    modifies h, h.head, h.stage, h.ssd, h.hdd
    ensures st == Ok ==> h.Sealed(Concat(chunks))
    ensures |Concat(chunks)| > h.layout.size ==> st in {PastEnd, IoError}
    ensures |Concat(chunks)| < h.layout.size ==> st in {Incomplete, IoError}
    ensures |Concat(chunks)| == h.layout.size ==> st in {Ok, IoError}
  {
    var i := 0;
    while i < |chunks|
      invariant 0 <= i <= |chunks| && h.Valid() && h.fed == Concat(chunks[..i])
    {
      assert chunks[..i + 1][..i] == chunks[..i];
      PrefixLonger(chunks, i + 1);
      st := h.Write(chunks[i]);
      if st != Ok {
        return;
      }
      i := i + 1;
    }
    assert chunks[..|chunks|] == chunks;
    st := h.FinishFlush();
  }

  lemma {:induction false} PrefixLonger(chunks: seq<seq<byte>>, i: nat)
    requires i <= |chunks|
    ensures |Concat(chunks[..i])| <= |Concat(chunks)|
    decreases |chunks| - i
  {
    if i == |chunks| {
      assert chunks[..i] == chunks;
    } else {
      PrefixLonger(chunks, i + 1);
      assert chunks[..i + 1][..i] == chunks[..i];
    }
  }

  /**
    The write path does not see chunking: two handles for one object that were fed the same value,
    in whatever chunks, have the same head and the same files.
  */
  lemma ChunkingInvisible(a: StoreHandle, b: StoreHandle, ca: seq<seq<byte>>, cb: seq<seq<byte>>)
    requires a.Sealed(Concat(ca)) && b.Sealed(Concat(cb)) && Concat(ca) == Concat(cb)
    requires a.layout == b.layout && a.bucket == b.bucket && a.ssdPool == b.ssdPool && a.hddPool == b.hddPool
    ensures a.head != null && b.head != null ==> a.head[..] == b.head[..]
    ensures a.ssd[..] == b.ssd[..] && (a.layout.hddBytes > 0 ==> a.hdd[..] == b.hdd[..])
  {
    hide AlignUp, Scatter, Padded;
    if a.head != null && b.head != null {
      assert a.head[..] == a.head[..a.head.Length] && b.head[..] == b.head[..b.head.Length];
    }
  }
}
