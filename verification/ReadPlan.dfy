/**
  Planning and reading one piece of an object's disk tail
  (src/goblin/storage/tier_manager.cpp:480-540, src/goblin/net/stream_loop.cpp:241-269): the piece is
  cut at stripe and tier boundaries, each read is rounded up to 4 KiB, and completions come in any
  order.
*/
module ReadPlan {
  import opened Arith
  import opened Striping
  import opened StripedIo
  import opened Layout

  /** The disk side of an open object: its layout, the two pools and where the striping starts. */
  datatype Object = Object(layout: ObjectLayout, ssdPool: DrivePool, hddPool: DrivePool, bucket: nat) {
    predicate Valid()
    {
      && ssdPool.Valid() && hddPool.Valid()
      && ssdPool.s % DEVICE_BLOCK == 0 && hddPool.s % DEVICE_BLOCK == 0
      && layout.ssdBytes + layout.hddBytes == layout.size
      && (layout.hddBytes > 0 ==> layout.ssdBytes % DEVICE_BLOCK == 0)
    }

    function PoolOf(t: Tier): DrivePool { if t == Ssd then ssdPool else hddPool }

    function Base(t: Tier): nat { if t == Ssd then 0 else layout.ssdBytes }
  }

  /** One read to issue: `len` bytes wanted from a file, to be put at `out` in the piece's buffer. */
  datatype Read = Read(tier: Tier, drive: nat, fileOff: nat, len: nat, out: nat)

  // ---------------------------------------------------------------- the plan

  /** The read covers the object from `pos` on, inside one chunk of one tier. */
  ghost predicate ReadAt(o: Object, pos: nat, r: Read)
    requires o.Valid()
  {
    && Place(pos, o.layout).tier == r.tier
    && SegmentAt(o.PoolOf(r.tier), o.bucket, pos - o.Base(r.tier), Segment(r.drive, r.fileOff, r.len), true)
    && (r.tier == Ssd ==> pos + r.len <= o.layout.ssdBytes)
  }

  /** Position `end` is a boundary that a read never crosses: of a stripe, or between the tiers. */
  ghost predicate Boundary(o: Object, t: Tier, end: nat)
    requires o.Valid()
  {
    end >= o.Base(t) && ((end - o.Base(t)) % o.PoolOf(t).s == 0
                         || (t == Ssd && end == o.layout.ssdBytes && o.layout.hddBytes > 0))
  }

  /** The reads cover `[off + from, off + upTo)` of the object, in order, without gap or overlap. */
  ghost predicate Covers(o: Object, off: nat, from: nat, upTo: nat, rs: seq<Read>)
    requires o.Valid()
    decreases |rs|
  {
    if rs == [] then upTo == from
    else
      var n := |rs| - 1;
      && Covers(o, off, from, rs[n].out, rs[..n])
      && upTo == rs[n].out + rs[n].len
      && ReadAt(o, off + rs[n].out, rs[n])
      && (n > 0 ==> Boundary(o, rs[n - 1].tier, off + rs[n].out))
  }

  lemma CoversPush(o: Object, off: nat, from: nat, upTo: nat, rs: seq<Read>, r: Read)
    requires o.Valid() && Covers(o, off, from, upTo, rs) && r.out == upTo && ReadAt(o, off + upTo, r)
    requires rs != [] ==> Boundary(o, rs[|rs| - 1].tier, off + upTo)
    ensures Covers(o, off, from, upTo + r.len, rs + [r])
  {
    hide ReadAt, Boundary;
    assert (rs + [r])[..|rs|] == rs;
  }

  lemma TotalEmpty(segs: seq<Segment>)
    ensures Total(segs[..0]) == 0 && (segs == [] ==> Total(segs) == 0) && (Total(segs) > 0 ==> segs != [])
    ensures Total(segs[..|segs|]) == Total(segs)
  {
    assert segs[..|segs|] == segs;
  }

  lemma EndsOnStripe(p: DrivePool, start: nat, len: nat)
    requires p.Valid() && start % p.s + len == p.s
    ensures (start + len) % p.s == 0
  {
    assert start == start / p.s * p.s + start % p.s;
    assert (start / p.s + 1) * p.s == start / p.s * p.s + p.s;
    DivModUnique(start + len, p.s, start / p.s + 1, 0);
  }

  /** The next segment of a tier, as a read of the object. */
  lemma NextSegment(o: Object, t: Tier, pos: nat, len: nat, segs: seq<Segment>, i: nat, out: nat)
    requires o.Valid() && pos >= o.Base(t) && Tiles(o.PoolOf(t), o.bucket, pos - o.Base(t), len, segs) && i < |segs|
    requires t == Ssd ==> pos + len <= o.layout.ssdBytes
    ensures var at := pos + Total(segs[..i]);
            && ReadAt(o, at, Read(t, segs[i].drive, segs[i].fileOffset, segs[i].length, out))
            && (i + 1 < |segs| ==> Boundary(o, t, at + segs[i].length))
            && segs[i].length > 0
  {
    hide DrivePool.DriveOf, DrivePool.FileOffset, Total, SegmentAt;
    TotalNext(segs, i);
    var p, start := o.PoolOf(t), pos - o.Base(t) + Total(segs[..i]);
    PlannedAt(p, o.bucket, pos - o.Base(t), segs, i);
    SegmentFacts(p, o.bucket, pos - o.Base(t), segs, i);
    assert pos + Total(segs[..i]) + segs[i].length - o.Base(t) == start + segs[i].length;
  }

  lemma SegmentFacts(p: DrivePool, h: nat, off: nat, segs: seq<Segment>, i: nat)
    requires p.Valid() && Planned(p, h, off, segs, false) && i < |segs|
    ensures segs[i].length > 0
    ensures i + 1 < |segs| ==> (off + Total(segs[..i]) + segs[i].length) % p.s == 0
  {
    hide DrivePool.DriveOf, DrivePool.FileOffset, Total;
    assert SegmentAt(p, h, off + Total(segs[..i]), segs[i], i == |segs| - 1);
    if i + 1 < |segs| {
      EndsOnStripe(p, off + Total(segs[..i]), segs[i].length);
    }
  }

  /** `add_drive_segs`: the segments of one tier become reads. */
  method AddDriveReads(o: Object, t: Tier, off: nat, from: nat, upTo: nat, rs: seq<Read>,
                       len: nat) returns (more: seq<Read>)
    requires o.Valid() && Covers(o, off, from, upTo, rs) && off + upTo >= o.Base(t)
    requires t == Ssd ==> off + upTo + len <= o.layout.ssdBytes
    requires rs != [] && len > 0 ==> Boundary(o, rs[|rs| - 1].tier, off + upTo)
    ensures Covers(o, off, from, upTo + len, more)
    ensures rs == [] && len == 0 ==> more == []
    ensures len > 0 ==> more != [] && more[|more| - 1].tier == t
  {
    hide ReadAt, Covers, SegmentAt, Total, Boundary;
    var p := o.PoolOf(t);
    var start := off + upTo - o.Base(t);
    var segs := PlanReads(p, o.bucket, start, len);
    more := rs;
    var running := 0;
    TotalEmpty(segs);
    if segs != [] {
      TotalNext(segs, 0);
      SegmentFacts(p, o.bucket, start, segs, 0);
    }
    for i := 0 to |segs|
      invariant running == Total(segs[..i]) && Covers(o, off, from, upTo + running, more)
      invariant i == 0 ==> more == rs
      invariant i > 0 ==> more != [] && more[|more| - 1].tier == t
      invariant i < |segs| && more != [] ==> Boundary(o, more[|more| - 1].tier, off + upTo + running)
    {
      TotalNext(segs, i);
      NextSegment(o, t, off + upTo, len, segs, i, upTo + running);
      var s := segs[i];
      var r := Read(t, s.drive, s.fileOffset, s.length, upTo + running);
      CoversPush(o, off, from, upTo + running, more, r);
      more := more + [r];
      running := running + s.length;
    }
  }

  /**
    `ReadStream::plan`: the piece of at most `outLen` bytes from `off` on, of which the index's
    resident head, `ramEnd` bytes long, supplies the first `copied`; the reads supply the rest.
  */
  method PlanPiece(o: Object, off: nat, outLen: nat, ramEnd: nat) returns (total: nat, copied: nat, rs: seq<Read>)
    requires o.Valid() && ramEnd <= o.layout.ssdBytes
    ensures off >= o.layout.size ==> total == 0 && rs == []
    ensures off < o.layout.size ==>
              && total == Min(outLen, o.layout.size - off)
              && copied == Max(0, Min(off + total, ramEnd) - off)
              && Covers(o, off, copied, total, rs)
  {
    hide ReadAt, Covers;
    total, copied, rs := 0, 0, [];
    if off >= o.layout.size {
      return;
    }
    var want := Min(outLen, o.layout.size - off);
    if off < ramEnd {
      copied := Min(off + want, ramEnd) - off;
    }
    NothingCovered(o, off, copied);
    total := copied;
    var ssdBegin, ssdStop := Max(off, ramEnd), Min(off + want, o.layout.ssdBytes);
    if ssdBegin < ssdStop {
      rs := AddDriveReads(o, Ssd, off, copied, copied, rs, ssdStop - ssdBegin);
      total := total + (ssdStop - ssdBegin);
    }
    if o.layout.hddBytes > 0 && off + want > o.layout.ssdBytes {
      var begin := Max(off, o.layout.ssdBytes);
      rs := AddDriveReads(o, Hdd, off, copied, total, rs, off + want - begin);
      total := total + (off + want - begin);
    }
  }

  lemma NothingCovered(o: Object, off: nat, from: nat)
    requires o.Valid()
    ensures Covers(o, off, from, from, [])
  {
  }

  // ---------------------------------------------------------------- rounding the reads up

  /** How many bytes the read asks for: a multiple of 4 KiB, as far as the buffer goes. */
  function Rounded(r: Read, bufLen: nat): int { Min(AlignUp(r.len, DEVICE_BLOCK), bufLen - r.out) }

  /** No rounded read reaches into the part of the buffer that the next read fills. */
  ghost predicate NoSpill(rs: seq<Read>, bufLen: nat)
  {
    forall i {:trigger rs[i]} :: 0 <= i < |rs| - 1 ==> rs[i].out + Rounded(rs[i], bufLen) <= rs[i + 1].out
  }

  /** What `Covers` says about each read by itself, and about two of them. */
  lemma {:induction false} CoversAt(o: Object, off: nat, from: nat, upTo: nat, rs: seq<Read>, i: nat)
    requires o.Valid() && Covers(o, off, from, upTo, rs) && i < |rs|
    ensures from <= rs[i].out && rs[i].out + rs[i].len <= upTo && ReadAt(o, off + rs[i].out, rs[i]) && rs[i].len > 0
    ensures i == 0 ==> rs[i].out == from
    ensures i + 1 == |rs| ==> rs[i].out + rs[i].len == upTo
    ensures i + 1 < |rs| ==> rs[i + 1].out == rs[i].out + rs[i].len && Boundary(o, rs[i].tier, off + rs[i + 1].out)
    decreases |rs|
  {
    hide SegmentAt, Boundary;
    var n := |rs| - 1;
    ReadNonEmpty(o, off + rs[n].out, rs[n]);
    if i < n {
      CoversAt(o, off, from, rs[n].out, rs[..n], i);
    } else if n > 0 {
      CoversAt(o, off, from, rs[n].out, rs[..n], n - 1);
    }
  }

  lemma ReadNonEmpty(o: Object, pos: nat, r: Read)
    requires o.Valid() && ReadAt(o, pos, r)
    ensures r.len > 0
  {
    hide DrivePool.DriveOf, DrivePool.FileOffset;
  }

  lemma BoundaryAligned(o: Object, t: Tier, end: nat)
    requires o.Valid() && Boundary(o, t, end) && (t == Hdd ==> o.layout.hddBytes > 0)
    ensures end % DEVICE_BLOCK == 0
  {
    var p := o.PoolOf(t);
    if (end - o.Base(t)) % p.s == 0 {
      MultipleOfMultiple(end - o.Base(t), p.s, DEVICE_BLOCK);
      SumAligned(o.Base(t), end - o.Base(t), DEVICE_BLOCK);
    }
  }

  lemma HddRead(o: Object, pos: nat, r: Read, upTo: nat)
    requires o.Valid() && ReadAt(o, pos, r) && pos < o.layout.size
    ensures r.tier == Hdd ==> o.layout.hddBytes > 0
  {
    hide SegmentAt;
  }

  /** Every read but the first starts on a 4 KiB boundary of the object. */
  lemma LaterReadsAligned(o: Object, off: nat, from: nat, upTo: nat, rs: seq<Read>, i: nat)
    requires o.Valid() && Covers(o, off, from, upTo, rs) && off + upTo <= o.layout.size && 0 < i < |rs|
    ensures (off + rs[i].out) % DEVICE_BLOCK == 0
  {
    hide ReadAt, Boundary, Covers;
    CoversAt(o, off, from, upTo, rs, i - 1);
    HddRead(o, off + rs[i - 1].out, rs[i - 1], upTo);
    BoundaryAligned(o, rs[i - 1].tier, off + rs[i].out);
  }

  /**
    Exactly when rounding up is safe for every order of completions: the piece's disk part starts on
    a 4 KiB boundary of the object, or is a single read.
  */
  lemma NoSpillIff(o: Object, off: nat, from: nat, upTo: nat, rs: seq<Read>, bufLen: nat)
    requires o.Valid() && Covers(o, off, from, upTo, rs) && off + upTo <= o.layout.size
    requires upTo <= bufLen
    ensures NoSpill(rs, bufLen) <==> ((off + from) % DEVICE_BLOCK == 0 || |rs| <= 1)
  {
    hide ReadAt, Boundary, Covers, Rounded;
    if (off + from) % DEVICE_BLOCK == 0 || |rs| <= 1 {
      forall i {:trigger rs[i]} | 0 <= i < |rs| - 1 ensures rs[i].out + Rounded(rs[i], bufLen) <= rs[i + 1].out {
        CoversAt(o, off, from, upTo, rs, i);
        LaterReadsAligned(o, off, from, upTo, rs, i + 1);
        if i > 0 {
          LaterReadsAligned(o, off, from, upTo, rs, i);
        }
        AlignedLength(off + rs[i].out, rs[i].len);
        AlignUpLeast(rs[i].len, DEVICE_BLOCK);
        RoundedAtMost(rs[i], bufLen);
      }
    } else {
      CoversAt(o, off, from, upTo, rs, 0);
      CoversAt(o, off, from, upTo, rs, 1);
      LaterReadsAligned(o, off, from, upTo, rs, 1);
      FirstReadSpills(off, from, rs[0], bufLen);
      assert rs[0].out + Rounded(rs[0], bufLen) > rs[0 + 1].out;
    }
  }

  lemma RoundedAtMost(r: Read, bufLen: nat)
    ensures Rounded(r, bufLen) <= AlignUp(r.len, DEVICE_BLOCK)
  {
  }

  lemma AlignedLength(pos: nat, len: nat)
    requires pos % DEVICE_BLOCK == 0 && (pos + len) % DEVICE_BLOCK == 0
    ensures len % DEVICE_BLOCK == 0
  {
    SumAligned(pos + len, pos, DEVICE_BLOCK);
  }

  lemma FirstReadSpills(off: nat, from: nat, r: Read, bufLen: nat)
    requires r.out == from && from + r.len < bufLen
    requires (off + from) % DEVICE_BLOCK != 0 && (off + from + r.len) % DEVICE_BLOCK == 0
    ensures Rounded(r, bufLen) > r.len
  {
    AlignUpLeast(r.len, DEVICE_BLOCK);
    if r.len % DEVICE_BLOCK == 0 {
      SumAligned(off + from + r.len, r.len, DEVICE_BLOCK);
    }
    assert AlignUp(r.len, DEVICE_BLOCK) > r.len;
  }

  /** A rounded read that starts on a 4 KiB boundary stays inside the buffer and inside its stripe chunk. */
  lemma RoundedInChunk(o: Object, pos: nat, r: Read, bufLen: nat)
    requires o.Valid() && ReadAt(o, pos, r) && pos < o.layout.size && pos % DEVICE_BLOCK == 0 && r.out <= bufLen
    ensures r.out + Rounded(r, bufLen) <= bufLen
    ensures (pos - o.Base(r.tier)) % o.PoolOf(r.tier).s + Rounded(r, bufLen) <= o.PoolOf(r.tier).s
  {
    hide DrivePool.DriveOf, DrivePool.FileOffset, AlignUp;
    var p, local := o.PoolOf(r.tier), pos - o.Base(r.tier);
    SumAligned(pos, o.Base(r.tier), DEVICE_BLOCK);
    RoomInChunk(local, p.s, r.len);
  }

  lemma RoomInChunk(local: nat, s: nat, len: nat)
    requires s > 0 && s % DEVICE_BLOCK == 0 && local % DEVICE_BLOCK == 0 && local % s + len <= s
    ensures local % s + AlignUp(len, DEVICE_BLOCK) <= s
  {
    var down := local / s * s;
    assert local == down + local % s;
    DivModUnique(down, s, local / s, 0);
    MultipleOfMultiple(down, s, DEVICE_BLOCK);
    SumAligned(local, down, DEVICE_BLOCK);
    SumAligned(s, local % s, DEVICE_BLOCK);
    AlignUpBelow(len, s - local % s, DEVICE_BLOCK);
  }

  // ---------------------------------------------------------------- completions

  /** The object's byte at `pos`, read from where layout and striping put it. */
  function ObjAt(o: Object, ssd: seq<File>, hdd: seq<File>, pos: nat): Option<byte>
    requires o.Valid() && |ssd| == o.ssdPool.n && |hdd| == o.hddPool.n
  {
    var pl := Place(pos, o.layout);
    if pl.tier == Ssd then At(o.ssdPool, o.bucket, ssd, pl.local) else At(o.hddPool, o.bucket, hdd, pl.local)
  }

  function FileFor(o: Object, ssd: seq<File>, hdd: seq<File>, r: Read): File
    requires |ssd| == o.ssdPool.n && |hdd| == o.hddPool.n && r.drive < o.PoolOf(r.tier).n
  {
    if r.tier == Ssd then ssd[r.drive] else hdd[r.drive]
  }

  /** The bytes a read wants are the object's bytes at its position. */
  lemma ReadHolds(o: Object, ssd: seq<File>, hdd: seq<File>, pos: nat, r: Read, j: nat)
    requires o.Valid() && |ssd| == o.ssdPool.n && |hdd| == o.hddPool.n && ReadAt(o, pos, r) && j < r.len
    ensures r.drive < o.PoolOf(r.tier).n
    ensures var f := FileFor(o, ssd, hdd, r);
            ObjAt(o, ssd, hdd, pos + j) == if r.fileOff + j in f then Some(f[r.fileOff + j]) else None
  {
    hide DrivePool.DriveOf, DrivePool.FileOffset;
    SameChunk(o.PoolOf(r.tier), o.bucket, pos - o.Base(r.tier), j);
  }

  ghost predicate Filled(o: Object, ssd: seq<File>, hdd: seq<File>, off: nat, buf: seq<byte>, from: nat, upTo: nat)
    requires o.Valid() && |ssd| == o.ssdPool.n && |hdd| == o.hddPool.n
  {
    upTo <= |buf| && forall k {:trigger buf[k]} :: from <= k < upTo ==> ObjAt(o, ssd, hdd, off + k) == Some(buf[k])
  }

  ghost predicate Stored(o: Object, ssd: seq<File>, hdd: seq<File>, from: nat, upTo: nat)
    requires o.Valid() && |ssd| == o.ssdPool.n && |hdd| == o.hddPool.n
  {
    forall pos {:trigger ObjAt(o, ssd, hdd, pos)} :: from <= pos < upTo ==> ObjAt(o, ssd, hdd, pos).Some?
  }

  /** One completion: at least the wanted bytes, at most the rounded length, land in the buffer. */
  method Complete(o: Object, ssd: seq<File>, hdd: seq<File>, off: nat, r: Read, buf: array<byte>)
    requires o.Valid() && |ssd| == o.ssdPool.n && |hdd| == o.hddPool.n
    requires ReadAt(o, off + r.out, r) && r.out + r.len <= buf.Length
             && Stored(o, ssd, hdd, off + r.out, off + r.out + r.len)
    modifies buf
    ensures Filled(o, ssd, hdd, off, buf[..], r.out, r.out + r.len)
    ensures forall k :: 0 <= k < buf.Length && !(r.out <= k < r.out + Rounded(r, buf.Length)) ==> buf[k] == old(buf[k])
  {
    hide ReadAt, AlignUp, ObjAt;
    ReadHoldsAll(o, ssd, hdd, off, r);
    var f := FileFor(o, ssd, hdd, r);
    AlignUpLeast(r.len, DEVICE_BLOCK);
    var got: nat := *;
    if got < r.len || got > Rounded(r, buf.Length) || !Readable(f, r.fileOff, got) {
      got := r.len;
      forall j: nat | j < got
        ensures Held(f, r.fileOff, j)
      {
        assert Wanted(o, ssd, hdd, off, r, j);
      }
    }
    assert Readable(f, r.fileOff, got);
    for j := 0 to got
      invariant forall k {:trigger buf[k]} :: r.out <= k < r.out + j ==>
                  Held(f, r.fileOff, k - r.out) && buf[k] == f[r.fileOff + (k - r.out)]
      invariant forall k :: 0 <= k < buf.Length && !(r.out <= k < r.out + got) ==> buf[k] == old(buf[k])
    {
      assert Held(f, r.fileOff, j);
      buf[r.out + j] := f[r.fileOff + j];
    }
    forall k {:trigger buf[k]} | r.out <= k < r.out + r.len
      ensures ObjAt(o, ssd, hdd, off + k) == Some(buf[k])
    {
      assert Wanted(o, ssd, hdd, off, r, k - r.out);
    }
  }

  /** Byte `j` that a read asks for is on file and is the object's. */
  ghost predicate Wanted(o: Object, ssd: seq<File>, hdd: seq<File>, off: nat, r: Read, j: nat)
    requires o.Valid() && |ssd| == o.ssdPool.n && |hdd| == o.hddPool.n && r.drive < o.PoolOf(r.tier).n
  {
    var f := FileFor(o, ssd, hdd, r);
    Held(f, r.fileOff, j) && ObjAt(o, ssd, hdd, off + r.out + j) == Some(f[r.fileOff + j])
  }

  lemma ReadHoldsAll(o: Object, ssd: seq<File>, hdd: seq<File>, off: nat, r: Read)
    requires o.Valid() && |ssd| == o.ssdPool.n && |hdd| == o.hddPool.n && ReadAt(o, off + r.out, r)
    requires Stored(o, ssd, hdd, off + r.out, off + r.out + r.len)
    ensures r.drive < o.PoolOf(r.tier).n
    ensures forall j: nat :: j < r.len ==> Wanted(o, ssd, hdd, off, r, j)
  {
    hide ObjAt;
    assert r.len > 0;
    ReadHolds(o, ssd, hdd, off + r.out, r, 0);
    forall j: nat | j < r.len
      ensures Wanted(o, ssd, hdd, off, r, j)
    {
      ReadHolds(o, ssd, hdd, off + r.out, r, j);
      assert ObjAt(o, ssd, hdd, off + r.out + j).Some?;
    }
  }

  /**
    All reads of a piece, completing in any order. When no rounded read spills into another, the
    buffer then holds the planned bytes of the object, and what was copied from the head is intact.
  */
  method CompleteAll(o: Object, ssd: seq<File>, hdd: seq<File>, off: nat, from: nat, upTo: nat, rs: seq<Read>,
                     buf: array<byte>)
    requires o.Valid() && |ssd| == o.ssdPool.n && |hdd| == o.hddPool.n
    requires Covers(o, off, from, upTo, rs) && from <= upTo <= buf.Length && NoSpill(rs, buf.Length)
    requires Stored(o, ssd, hdd, off + from, off + upTo)
    modifies buf
    ensures Filled(o, ssd, hdd, off, buf[..], from, upTo) && buf[..from] == old(buf[..from])
  {
    hide ReadAt, Covers, ObjAt, Rounded, Boundary;
    var pending: set<nat> := set i: nat | i < |rs| && rs[i] == rs[i];
    while pending != {}
      invariant forall i :: i in pending ==> i < |rs|
      invariant forall i {:trigger rs[i]} :: 0 <= i < |rs| && i !in pending ==>
                  Filled(o, ssd, hdd, off, buf[..], rs[i].out, rs[i].out + rs[i].len)
      invariant forall k :: 0 <= k < from ==> buf[k] == old(buf[k])
      decreases |pending|
    {
      var i: nat :| i in pending;
      CoversAt(o, off, from, upTo, rs, i);
      ghost var was := buf[..];
      Complete(o, ssd, hdd, off, rs[i], buf);
      forall k {:trigger rs[k]} | 0 <= k < |rs| && k !in pending
        ensures Filled(o, ssd, hdd, off, buf[..], rs[k].out, rs[k].out + rs[k].len)
      {
        CoversAt(o, off, from, upTo, rs, k);
        Apart(o, off, from, upTo, rs, buf.Length, i, k);
        FilledKept(o, ssd, hdd, off, was, buf[..], rs[k].out, rs[k].out + rs[k].len);
      }
      pending := pending - {i};
    }
    AllFilled(o, ssd, hdd, off, buf[..], from, upTo, rs);
  }

  lemma FilledKept(o: Object, ssd: seq<File>, hdd: seq<File>, off: nat, was: seq<byte>, buf: seq<byte>, from: nat,
                   upTo: nat)
    requires o.Valid() && |ssd| == o.ssdPool.n && |hdd| == o.hddPool.n && |was| == |buf|
    requires Filled(o, ssd, hdd, off, was, from, upTo) && forall k :: from <= k < upTo ==> buf[k] == was[k]
    ensures Filled(o, ssd, hdd, off, buf, from, upTo)
  {
    hide ObjAt;
  }

  lemma {:induction false} OutsOrdered(o: Object, off: nat, from: nat, upTo: nat, rs: seq<Read>, i: nat, k: nat)
    requires o.Valid() && Covers(o, off, from, upTo, rs) && i < k < |rs|
    ensures rs[i].out + rs[i].len <= rs[k].out && rs[i + 1].out <= rs[k].out
    decreases k
  {
    hide Covers, ReadAt, Boundary;
    CoversAt(o, off, from, upTo, rs, i);
    if i + 1 < k {
      OutsOrdered(o, off, from, upTo, rs, i, k - 1);
      CoversAt(o, off, from, upTo, rs, k - 1);
    }
  }

  /** The range read `i` may write and the range read `k` wants do not meet. */
  lemma Apart(o: Object, off: nat, from: nat, upTo: nat, rs: seq<Read>, bufLen: nat, i: nat, k: nat)
    requires o.Valid() && Covers(o, off, from, upTo, rs) && NoSpill(rs, bufLen) && i < |rs| && k < |rs| && i != k
    ensures rs[i].out + Rounded(rs[i], bufLen) <= rs[k].out || rs[k].out + rs[k].len <= rs[i].out
  {
    hide Covers, Rounded;
    if i < k {
      OutsOrdered(o, off, from, upTo, rs, i, k);
    } else {
      OutsOrdered(o, off, from, upTo, rs, k, i);
    }
  }

  lemma {:induction false} AllFilled(o: Object, ssd: seq<File>, hdd: seq<File>, off: nat, buf: seq<byte>, from: nat,
                                     upTo: nat, rs: seq<Read>)
    requires o.Valid() && |ssd| == o.ssdPool.n && |hdd| == o.hddPool.n && Covers(o, off, from, upTo, rs)
             && upTo <= |buf|
    requires forall i {:trigger rs[i]} :: 0 <= i < |rs| ==>
               Filled(o, ssd, hdd, off, buf, rs[i].out, rs[i].out + rs[i].len)
    ensures Filled(o, ssd, hdd, off, buf, from, upTo)
    decreases |rs|
  {
    hide ReadAt, ObjAt, Boundary;
    if rs != [] {
      var n := |rs| - 1;
      CoversAt(o, off, from, upTo, rs, n);
      AllFilled(o, ssd, hdd, off, buf, from, rs[n].out, rs[..n]);
      assert Filled(o, ssd, hdd, off, buf, rs[n].out, rs[n].out + rs[n].len);
    }
  }

  /**
    What a spilling read brings in: behind the end of its chunk a file goes on with the chunk one
    stripe row further on, not with the next chunk of the object.
  */
  lemma SpillSource(p: DrivePool, h: nat, files: seq<File>, start: nat, len: nat, j: nat)
    requires p.Valid() && |files| == p.n && start % p.s + len == p.s && j < p.s
    requires p.DriveOfChunk(h, start / p.s + p.n) == p.DriveOfChunk(h, start / p.s)
    ensures var f, fo := files[p.DriveOf(h, start)], p.FileOffset(start) + len + j;
            At(p, h, files, (start / p.s + p.n) * p.s + j) == if fo in f then Some(f[fo]) else None
  {
    hide DrivePool.DriveOfChunk;
    NextRow(start, len, p.n, p.s, j);
  }

  /** Offset arithmetic of the chunk `n` chunks after the one `start` lies in. */
  lemma NextRow(start: nat, len: nat, n: nat, s: nat, j: nat)
    requires n > 0 && s > 0 && start % s + len == s && j < s
    ensures var far := (start / s + n) * s + j;
            far / s == start / s + n && far / s / n * s + far % s == start / s / n * s + start % s + len + j
  {
    var c := start / s;
    DivModUnique((c + n) * s + j, s, c + n, j);
    DivModUnique(c + n, n, c / n + 1, c % n);
    assert (c / n + 1) * s == c / n * s + s;
  }
}
