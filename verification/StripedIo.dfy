/**
  The read planner of a drive pool and the scatter / gather built on it
  (src/goblin/storage/drive_pool.cpp, src/goblin/storage/striped_io.cpp).
*/
module StripedIo {
  import opened Arith
  import opened Striping

  /** The bytes written to one drive's file so far, by file offset. */
  type File = map<nat, byte>

  // ---------------------------------------------------------------- planning

  function Total(segs: seq<Segment>): nat
  {
    if segs == [] then 0 else Total(segs[..|segs| - 1]) + segs[|segs| - 1].length
  }

  lemma TotalOfNone(segs: seq<Segment>)
    ensures Total(segs[..0]) == 0
  {
  }

  lemma TotalPush(segs: seq<Segment>, s: Segment)
    ensures Total(segs + [s]) == Total(segs) + s.length
  {
    assert (segs + [s])[..|segs|] == segs;
  }

  lemma {:induction false} TotalMonotone(segs: seq<Segment>, i: nat, j: nat)
    requires i <= j <= |segs|
    ensures Total(segs[..i]) <= Total(segs[..j])
    ensures i < j ==> Total(segs[..i]) + segs[i].length <= Total(segs[..j])
    decreases j
  {
    if i < j {
      TotalMonotone(segs, i, j - 1);
      assert segs[..j][..j - 1] == segs[..j - 1];
    }
  }

  /** `seg` is the part of the chunk holding tier offset `start` that is wanted next. */
  ghost predicate SegmentAt(p: DrivePool, h: nat, start: nat, seg: Segment, last: bool)
    requires p.Valid()
  {
    && 0 < seg.length
    && start % p.s + seg.length <= p.s
    && (last || start % p.s + seg.length == p.s)
    && seg.drive == p.DriveOf(h, start)
    && seg.fileOffset == p.FileOffset(start)
  }

  /** The segments planned so far, when the range goes on after the last of them (`open`). */
  ghost predicate Planned(p: DrivePool, h: nat, off: nat, segs: seq<Segment>, open: bool)
    requires p.Valid()
  {
    forall i {:trigger segs[i]} :: 0 <= i < |segs| ==>
      SegmentAt(p, h, off + Total(segs[..i]), segs[i], i == |segs| - 1 && !open)
  }

  /**
    `segs` cut the tier range `[off, off + len)` at its chunk boundaries: in logical order, one
    segment a chunk, none missing and none twice.
  */
  ghost predicate Tiles(p: DrivePool, h: nat, off: nat, len: nat, segs: seq<Segment>)
    requires p.Valid()
  {
    Total(segs) == len && Planned(p, h, off, segs, false)
  }

  lemma FirstSegment(p: DrivePool, h: nat, cur: nat, remaining: nat, seg: Segment)
    requires p.Valid() && remaining > 0
    requires seg == Segment(p.DriveOf(h, cur), p.FileOffset(cur), Min(remaining, p.s - cur % p.s))
    ensures SegmentAt(p, h, cur, seg, !(seg.length < remaining))
  {
    hide DrivePool.DriveOf, DrivePool.FileOffset;
  }

  lemma PlanStep(p: DrivePool, h: nat, off: nat, segs: seq<Segment>, remaining: nat, seg: Segment)
    requires p.Valid() && remaining > 0
    requires Planned(p, h, off, segs, true)
    requires var cur := off + Total(segs);
             seg == Segment(p.DriveOf(h, cur), p.FileOffset(cur), Min(remaining, p.s - cur % p.s))
    ensures Total(segs + [seg]) == Total(segs) + seg.length
    ensures Planned(p, h, off, segs + [seg], seg.length < remaining)
  {
    hide DrivePool.DriveOf, DrivePool.FileOffset, SegmentAt;
    TotalPush(segs, seg);
    FirstSegment(p, h, off + Total(segs), remaining, seg);
    var more := segs + [seg];
    forall i {:trigger more[i]} | 0 <= i < |more|
      ensures SegmentAt(p, h, off + Total(more[..i]), more[i], i == |more| - 1 && !(seg.length < remaining))
    {
      assert more[..i] == segs[..i];
      assert segs[..|segs|] == segs;
      if i < |segs| {
        assert more[i] == segs[i];
      }
    }
  }

  lemma PlannedAt(p: DrivePool, h: nat, off: nat, segs: seq<Segment>, i: nat)
    requires p.Valid() && Planned(p, h, off, segs, false) && i < |segs|
    ensures SegmentAt(p, h, off + Total(segs[..i]), segs[i], true)
  {
    assert segs[i] == segs[i];
  }

  method PlanReads(p: DrivePool, h: nat, off: nat, len: nat) returns (segs: seq<Segment>)
    requires p.Valid()
    ensures Tiles(p, h, off, len, segs)
  {
    hide DrivePool.DriveOfChunk, DrivePool.FileOffset, SegmentAt;
    segs := [];
    var cur, remaining := off, len;
    while remaining > 0
      invariant 0 <= remaining && cur + remaining == off + len && cur == off + Total(segs)
      invariant Planned(p, h, off, segs, remaining > 0)
      decreases remaining
    {
      var intra := cur % p.s;
      var segLen := Min(remaining, p.s - intra);
      var seg := Segment(p.DriveOf(h, cur), p.FileOffset(cur), segLen);
      PlanStep(p, h, off, segs, remaining, seg);
      segs := segs + [seg];
      cur := cur + segLen;
      remaining := remaining - segLen;
    }
    assert Planned(p, h, off, segs, false);
  }

  // ---------------------------------------------------------------- the bytes of a tier

  /** The byte of the tier at offset `off`, read from the drive and the place the striping names. */
  function At(p: DrivePool, h: nat, files: seq<File>, off: nat): Option<byte>
    requires p.Valid() && |files| == p.n
  {
    var f := files[p.DriveOf(h, off)];
    if p.FileOffset(off) in f then Some(f[p.FileOffset(off)]) else None
  }

  /** `pwrite` of `data` at `fo`. */
  function WriteAt(f: File, fo: nat, data: seq<byte>): (r: File)
    ensures forall i :: i in r <==> i in f || fo <= i < fo + |data|
    ensures forall i :: i in r ==> r[i] == if fo <= i < fo + |data| then data[i - fo] else f[i]
  {
    if data == [] then f else WriteAt(f, fo, data[..|data| - 1])[fo + |data| - 1 := data[|data| - 1]]
  }

  lemma SameChunk(p: DrivePool, h: nat, start: nat, j: nat)
    requires p.Valid() && start % p.s + j < p.s
    ensures p.DriveOf(h, start + j) == p.DriveOf(h, start)
    ensures p.FileOffset(start + j) == p.FileOffset(start) + j
    ensures (start + j) / p.s == start / p.s && (start + j) % p.s == start % p.s + j
  {
    assert start == start / p.s * p.s + start % p.s;
    DivModUnique(start + j, p.s, start / p.s, start % p.s + j);
  }

  // ---------------------------------------------------------------- scatter

  /**
    The files once the bytes of `data` have been put, first to last, where the striping has them from tier
    offset `offset` on.
  */
  function Scatter(p: DrivePool, h: nat, files: seq<File>, offset: nat, data: seq<byte>): (r: seq<File>)
    requires p.Valid() && |files| == p.n
    ensures |r| == p.n
  {
    if data == [] then files
    else
      var k := |data| - 1;
      var r := Scatter(p, h, files, offset, data[..k]);
      var d := p.DriveOf(h, offset + k);
      var f: File := r[d][p.FileOffset(offset + k) := data[k]];
      r[d := f]
  }

  /** A `pwrite` inside a chunk puts a piece of the data where it belongs. */
  lemma {:induction false} ScatterPiece(p: DrivePool, h: nat, files: seq<File>, offset: nat, data: seq<byte>, k: nat,
                                        w: nat)
    requires p.Valid() && |files| == p.n && k + w <= |data| && (w > 0 ==> (offset + k) % p.s + w <= p.s)
    ensures var mid, d := Scatter(p, h, files, offset, data[..k]), p.DriveOf(h, offset + k);
            Scatter(p, h, files, offset, data[..k + w]) ==
              mid[d := WriteAt(mid[d], p.FileOffset(offset + k), data[k..k + w])]
    decreases w
  {
    hide DrivePool.DriveOf, DrivePool.FileOffset;
    if w > 0 {
      ScatterPiece(p, h, files, offset, data, k, w - 1);
      assert data[..k + w][..k + w - 1] == data[..k + w - 1];
      assert data[k..k + w][..w - 1] == data[k..k + w - 1];
      SameChunk(p, h, offset + k, w - 1);
    }
  }

  /** One range after the other is both at once. */
  lemma {:induction false} ScatterAppend(p: DrivePool, h: nat, files: seq<File>, offset: nat, a: seq<byte>,
                                         b: seq<byte>)
    requires p.Valid() && |files| == p.n
    ensures Scatter(p, h, Scatter(p, h, files, offset, a), offset + |a|, b) == Scatter(p, h, files, offset, a + b)
    decreases |b|
  {
    hide DrivePool.DriveOf, DrivePool.FileOffset;
    if b == [] {
      assert a + b == a;
    } else {
      ScatterAppend(p, h, files, offset, a, b[..|b| - 1]);
      assert (a + b)[..|a + b| - 1] == a + b[..|b| - 1];
    }
  }

  /** Two tier offsets share their drive and their place in its file. */
  predicate SamePlace(p: DrivePool, h: nat, a: nat, b: nat)
    requires p.Valid()
  {
    p.DriveOf(h, a) == p.DriveOf(h, b) && p.FileOffset(a) == p.FileOffset(b)
  }

  /** A byte that none of the data was put over is as before. */
  lemma {:induction false} ScatterElsewhere(p: DrivePool, h: nat, files: seq<File>, offset: nat, data: seq<byte>,
                                            off: nat)
    requires p.Valid() && |files| == p.n && forall pos :: offset <= pos < offset + |data| ==> !SamePlace(p, h, pos, off)
    ensures At(p, h, Scatter(p, h, files, offset, data), off) == At(p, h, files, off)
    decreases |data|
  {
    hide DrivePool.DriveOf, DrivePool.FileOffset;
    if data != [] {
      ScatterElsewhere(p, h, files, offset, data[..|data| - 1], off);
      assert !SamePlace(p, h, offset + |data| - 1, off);
    }
  }

  /** Where several bytes of the data share a place, the last one is there afterwards. */
  lemma {:induction false} LastWriterWins(p: DrivePool, h: nat, files: seq<File>, offset: nat, data: seq<byte>, j: nat,
                                          off: nat)
    requires p.Valid() && |files| == p.n && j < |data| && SamePlace(p, h, offset + j, off)
    requires forall pos :: offset + j < pos < offset + |data| ==> !SamePlace(p, h, pos, off)
    ensures At(p, h, Scatter(p, h, files, offset, data), off) == Some(data[j])
    decreases |data|
  {
    hide DrivePool.DriveOf, DrivePool.FileOffset;
    var n := |data| - 1;
    if j < n {
      LastWriterWins(p, h, files, offset, data[..n], j, off);
      assert !SamePlace(p, h, offset + n, off);
    }
  }

  ghost predicate DistinctPlaces(p: DrivePool, h: nat, offset: nat, len: nat)
    requires p.Valid()
  {
    forall a, b :: offset <= a < b < offset + len ==> !SamePlace(p, h, a, b)
  }

  /** A striping without clashes gives every byte its own place. */
  lemma CleanIsDistinct(p: DrivePool, h: nat, nc: nat, offset: nat, len: nat)
    requires p.Valid() && NoClash(p, h, nc) && offset + len <= nc * p.s
    ensures DistinctPlaces(p, h, offset, len)
  {
    hide NoClash, DrivePool.DriveOf, DrivePool.FileOffset;
    forall a, b | offset <= a < b < offset + len ensures !SamePlace(p, h, a, b) {
      QuotientBelow(a, p.s, nc);
      QuotientBelow(b, p.s, nc);
      if SamePlace(p, h, a, b) {
        PlaceInjective(p, h, nc, a, b);
      }
    }
  }

  lemma ScatterReadsBack(p: DrivePool, h: nat, files: seq<File>, offset: nat, data: seq<byte>)
    requires p.Valid() && |files| == p.n && DistinctPlaces(p, h, offset, |data|)
    ensures Gathered(p, h, Scatter(p, h, files, offset, data), offset, data)
  {
    hide DrivePool.DriveOf, DrivePool.FileOffset, At, Scatter;
    forall k {:trigger data[k]} | 0 <= k < |data| ensures At(p, h, Scatter(p, h, files, offset, data), offset + k) ==
      Some(data[k]) {
      var off := offset + k;
      forall pos | off < pos < offset + |data| ensures !SamePlace(p, h, pos, off) {
        if SamePlace(p, h, pos, off) {
          SameTurned(p, h, pos, off);
        }
      }
      LastWriterWins(p, h, files, offset, data, k, off);
    }
  }

  /** The last offset below `hi` that shares the place of offset `a`. */
  lemma {:induction false} LastTwin(p: DrivePool, h: nat, a: nat, hi: nat) returns (b: nat)
    requires p.Valid() && a < hi
    ensures a <= b < hi && SamePlace(p, h, b, a) && forall pos :: b < pos < hi ==> !SamePlace(p, h, pos, a)
    decreases hi
  {
    hide DrivePool.DriveOf, DrivePool.FileOffset;
    if SamePlace(p, h, hi - 1, a) {
      b := hi - 1;
    } else {
      b := LastTwin(p, h, a, hi - 1);
    }
  }

  /** Whatever is scattered over a range of `len` bytes can be read back. */
  ghost predicate ReadsBack(p: DrivePool, h: nat, files: seq<File>, offset: nat, len: nat)
    requires p.Valid() && |files| == p.n
  {
    forall data: seq<byte> {:trigger Scatter(p, h, files, offset, data)} ::
      |data| == len ==> Gathered(p, h, Scatter(p, h, files, offset, data), offset, data)
  }

  /** That is so if and only if the bytes of the range have distinct places. */
  lemma ReadsBackIff(p: DrivePool, h: nat, files: seq<File>, offset: nat, len: nat)
    requires p.Valid() && |files| == p.n
    ensures ReadsBack(p, h, files, offset, len) <==> DistinctPlaces(p, h, offset, len)
  {
    hide DrivePool.DriveOf, DrivePool.FileOffset, At, Scatter, SamePlace;
    if DistinctPlaces(p, h, offset, len) {
      forall data: seq<byte> {:trigger Scatter(p, h, files, offset, data)} | |data| == len
        ensures Gathered(p, h, Scatter(p, h, files, offset, data), offset, data)
      {
        ScatterReadsBack(p, h, files, offset, data);
      }
    } else {
      var a, twin :| offset <= a < twin < offset + len && SamePlace(p, h, a, twin);
      var b := LastTwin(p, h, a, offset + len);
      SameTurned(p, h, a, twin);
      var data: seq<byte> := seq(len, k => if k == a - offset then 1 else 0);
      LastWriterWins(p, h, files, offset, data, b - offset, a);
      assert data[a - offset] == 1 && data[b - offset] == 0;
      assert !Gathered(p, h, Scatter(p, h, files, offset, data), offset, data);
    }
  }

  /** Chunks that clash have their first bytes in one place. */
  lemma DistinctIsClean(p: DrivePool, h: nat, len: nat)
    requires p.Valid() && DistinctPlaces(p, h, 0, len)
    ensures NoClash(p, h, p.Chunks(len))
  {
    hide DrivePool.DriveOfChunk;
    forall c, d {:trigger p.DriveOfChunk(h, c), p.DriveOfChunk(h, d)} | 0 <= c < d < p.Chunks(len) && c / p.n == d / p.n
      ensures p.DriveOfChunk(h, c) != p.DriveOfChunk(h, d)
    {
      StartBelow(c, p.s, len);
      StartBelow(d, p.s, len);
      MulMono(c + 1, d, p.s);
      assert (c + 1) * p.s == c * p.s + p.s;
      DivModUnique(c * p.s, p.s, c, 0);
      DivModUnique(d * p.s, p.s, d, 0);
      assert !SamePlace(p, h, c * p.s, d * p.s);
    }
  }

  /**
    Every tier of `len` bytes reads back as it was written, if and only if the wrap of the 64-bit sum is
    harmless in it.
  */
  lemma TierReadsBackIff(p: DrivePool, h: nat, files: seq<File>, len: nat)
    requires p.Valid() && |files| == p.n && h < WORD && p.Chunks(len) <= WORD
    ensures ReadsBack(p, h, files, 0, len) <==> WrapHarmless(p, h, p.Chunks(len))
  {
    hide ReadsBack, DistinctPlaces, NoClash, WrapHarmless;
    ReadsBackIff(p, h, files, 0, len);
    NoClashIff(p, h, p.Chunks(len));
    if DistinctPlaces(p, h, 0, len) {
      DistinctIsClean(p, h, len);
    } else if NoClash(p, h, p.Chunks(len)) {
      AlignUpLeast(len, p.s);
      assert p.Chunks(len) * p.s == AlignUp(len, p.s);
      CleanIsDistinct(p, h, p.Chunks(len), 0, len);
    }
  }

  lemma SameTurned(p: DrivePool, h: nat, a: nat, b: nat)
    requires p.Valid() && SamePlace(p, h, a, b)
    ensures SamePlace(p, h, b, a)
  {
  }

  /** The writes of one segment, which holds `data` from position `dst` on. */
  method PwriteSegment(p: DrivePool, h: nat, files: array<File>, seg: Segment, data: seq<byte>, dst: nat,
                       ghost offset: nat, ghost before: seq<File>)
    returns (ok: bool, ghost done: nat)
    requires p.Valid() && files.Length == p.n == |before|
    requires dst + seg.length <= |data| && SegmentAt(p, h, offset + dst, seg, true)
    requires files[..] == Scatter(p, h, before, offset, data[..dst])
    modifies files
    ensures dst <= done <= dst + seg.length && (ok <==> done == dst + seg.length)
    ensures files[..] == Scatter(p, h, before, offset, data[..done])
  {
    hide DrivePool.DriveOf, DrivePool.FileOffset, Scatter, WriteAt;
    var left, fo, src := seg.length, seg.fileOffset, dst;
    done := dst;
    while left > 0
      invariant 0 <= left <= seg.length && src == dst + (seg.length - left) == done
      invariant fo == seg.fileOffset + (seg.length - left)
      invariant files[..] == Scatter(p, h, before, offset, data[..done])
      decreases left
    {
      var w: int := *;
      if w <= 0 {
        return false, done;
      }
      w := Min(w, left);
      SameChunk(p, h, offset + dst, src - dst);
      ghost var mid := files[..];
      files[seg.drive] := WriteAt(files[seg.drive], fo, data[src..src + w]);
      ScatterPiece(p, h, before, offset, data, src, w);
      assert files[..] == mid[seg.drive := WriteAt(mid[seg.drive], fo, data[src..src + w])];
      src, fo, left, done := src + w, fo + w, left - w, done + w;
    }
    ok := true;
  }

  lemma TotalNext(segs: seq<Segment>, i: nat)
    requires i < |segs|
    ensures Total(segs[..i + 1]) == Total(segs[..i]) + segs[i].length <= Total(segs)
    ensures i + 1 == |segs| ==> Total(segs[..i + 1]) == Total(segs)
  {
    assert segs[..i + 1] == segs[..i] + [segs[i]];
    TotalPush(segs[..i], segs[i]);
    TotalMonotone(segs, i + 1, |segs|);
    assert segs[..|segs|] == segs;
  }

  /**
    Short `pwrite`s are retried from where they stopped; a failing one gives up, with a prefix of the data in
    place.
  */
  method StripedPwrite(p: DrivePool, h: nat, files: array<File>, offset: nat, data: seq<byte>)
    returns (ok: bool, ghost done: nat)
    requires p.Valid() && files.Length == p.n
    modifies files
    ensures done <= |data| && (ok <==> done == |data|)
    ensures files[..] == Scatter(p, h, old(files[..]), offset, data[..done])
  {
    hide DrivePool.DriveOf, DrivePool.FileOffset, Scatter, SegmentAt;
    var segs := PlanReads(p, h, offset, |data|);
    NothingScattered(p, h, files[..], offset, data);
    var dst, i := 0, 0;
    done := 0;
    while i < |segs|
      invariant 0 <= i <= |segs| && dst == Total(segs[..i]) == done <= |data|
      invariant i == |segs| ==> done == |data|
      invariant files[..] == Scatter(p, h, old(files[..]), offset, data[..done])
    {
      TotalNext(segs, i);
      PlannedAt(p, h, offset, segs, i);
      ok, done := PwriteSegment(p, h, files, segs[i], data, dst, offset, old(files[..]));
      if !ok {
        return;
      }
      dst := dst + segs[i].length;
      i := i + 1;
    }
    ok := true;
  }

  lemma NothingScattered(p: DrivePool, h: nat, files: seq<File>, offset: nat, data: seq<byte>)
    requires p.Valid() && |files| == p.n
    ensures Scatter(p, h, files, offset, data[..0]) == files
  {
  }

  // ---------------------------------------------------------------- gather

  predicate Held(f: File, fileOff: nat, j: nat) {
    fileOff + j in f
  }

  predicate Readable(f: File, fileOff: nat, got: nat) {
    forall j: nat :: j < got ==> Held(f, fileOff, j)
  }

  /** `out` holds the tier bytes from `offset` on. */
  ghost predicate Gathered(p: DrivePool, h: nat, files: seq<File>, offset: nat, out: seq<byte>)
    requires p.Valid() && |files| == p.n
  {
    forall k {:trigger out[k]} :: 0 <= k < |out| ==> At(p, h, files, offset + k) == Some(out[k])
  }

  /** A completed read of one segment into the slice of `out` that starts at `at`: it may be short. */
  method ReadSegment(p: DrivePool, h: nat, files: seq<File>, seg: Segment, out: array<byte>, at: nat,
                     ghost offset: nat) returns (got: nat)
    requires p.Valid() && |files| == p.n && at + seg.length <= out.Length
    requires SegmentAt(p, h, offset + at, seg, true)
    modifies out
    ensures got <= seg.length && SliceDone(p, h, files, offset, out[..], at, got)
    ensures forall k :: 0 <= k < out.Length && !(at <= k < at + seg.length) ==> out[k] == old(out[k])
  {
    hide DrivePool.DriveOf, DrivePool.FileOffset;
    var res: int := *;
    got := if 0 <= res <= seg.length && Readable(files[seg.drive], seg.fileOffset, res) then res else 0;
    for j := 0 to got
      invariant SliceDone(p, h, files, offset, out[..], at, j)
      invariant forall k :: 0 <= k < out.Length && !(at <= k < at + seg.length) ==> out[k] == old(out[k])
    {
      SameChunk(p, h, offset + at, j);
      assert Held(files[seg.drive], seg.fileOffset, j);
      out[at + j] := files[seg.drive][seg.fileOffset + j];
    }
  }

  function Sum(got: seq<nat>): nat {
    if got == [] then 0 else Sum(got[..|got| - 1]) + got[|got| - 1]
  }

  lemma {:induction false} SumZero(n: nat)
    ensures Sum(seq(n, _ => 0)) == 0
  {
    if n > 0 {
      var z: seq<nat> := seq(n, _ => 0);
      SumZero(n - 1);
      assert z[..n - 1] == seq(n - 1, _ => 0);
    }
  }

  lemma {:induction false} SumUpdate(got: seq<nat>, i: nat, x: nat)
    requires i < |got|
    ensures Sum(got[i := x]) == Sum(got) - got[i] + x
    decreases |got|
  {
    var n := |got| - 1;
    if i < n {
      SumUpdate(got[..n], i, x);
      assert got[i := x][..n] == got[..n][i := x];
    } else {
      assert got[i := x][..n] == got[..n];
    }
  }

  /** Reads that bring no more than their segments bring as much in all only if each brings its whole segment. */
  lemma {:induction false} SumIsTotal(got: seq<nat>, segs: seq<Segment>)
    requires |got| == |segs| && forall i {:trigger got[i]} :: 0 <= i < |got| ==> got[i] <= segs[i].length
    ensures Sum(got) <= Total(segs)
    ensures Sum(got) == Total(segs) <==> forall i {:trigger got[i]} :: 0 <= i < |got| ==> got[i] == segs[i].length
    decreases |got|
  {
    if got != [] {
      var n := |got| - 1;
      SumIsTotal(got[..n], segs[..n]);
      if Sum(got) == Total(segs) {
        forall i {:trigger got[i]} | 0 <= i < |got| ensures got[i] == segs[i].length {
          if i < n {
            assert got[..n][i] == segs[..n][i].length;
          }
        }
      }
    }
  }

  /**
    One read a segment, completing in any order, each into its own slice of `out`; a failing completion ends
    the call. What each read brought is the tier's, and the total is the length of `out` if and only if
    no read was short: then `out` is the tier range.
  */
  method StripedRead(p: DrivePool, h: nat, files: seq<File>, offset: nat, out: array<byte>)
    returns (ok: bool, total: nat, ghost segs: seq<Segment>, ghost got: seq<nat>)
    requires p.Valid() && |files| == p.n
    modifies out
    ensures Tiles(p, h, offset, out.Length, segs)
    ensures ok ==> |got| == |segs| && total == Sum(got) <= out.Length
    ensures ok ==> forall i {:trigger got[i]} :: 0 <= i < |got| ==>
              got[i] <= segs[i].length && SliceDone(p, h, files, offset, out[..], Total(segs[..i]), got[i])
    ensures ok ==> (total == out.Length <==> forall i {:trigger got[i]} :: 0 <= i < |got| ==> got[i] == segs[i].length)
    ensures ok && total == out.Length ==> Gathered(p, h, files, offset, out[..])
  {
    hide DrivePool.DriveOf, DrivePool.FileOffset, At, SliceDone, SegmentAt, Planned, Sum, Total, Gathered;
    var plan := PlanReads(p, h, offset, out.Length);
    segs := plan;
    TotalOfNone(plan);
    var slices: seq<nat> := [];
    var dst := 0;
    for i := 0 to |plan|
      invariant |slices| == i && dst == Total(plan[..i])
      invariant forall k {:trigger slices[k]} :: 0 <= k < i ==> slices[k] == Total(plan[..k])
    {
      slices := slices + [dst];
      TotalNext(plan, i);
      dst := dst + plan[i].length;
    }
    var pending: set<nat> := set i: nat | i < |slices| && slices[i] == slices[i];
    got, total := seq(|segs|, _ => 0), 0;
    SumZero(|segs|);
    while pending != {}
      invariant forall i :: i in pending ==> 0 <= i < |plan|
      invariant |got| == |segs| && total == Sum(got)
      invariant forall i {:trigger got[i]} :: 0 <= i < |got| ==> got[i] <= segs[i].length
      invariant forall i {:trigger got[i]} :: 0 <= i < |got| && i in pending ==> got[i] == 0
      invariant forall i {:trigger got[i]} :: 0 <= i < |got| && i !in pending ==>
                  SliceDone(p, h, files, offset, out[..], slices[i], got[i])
      decreases |pending|
    {
      var i :| i in pending;
      var res: int := *;
      if res < 0 {
        return false, total, segs, got;
      }
      var at := slices[i];
      TotalNext(plan, i);
      PlannedAt(p, h, offset, plan, i);
      ghost var was := out[..];
      var n := ReadSegment(p, h, files, plan[i], out, at, offset);
      forall k {:trigger got[k]} | 0 <= k < |got| && k !in pending
        ensures SliceDone(p, h, files, offset, out[..], slices[k], got[k])
      {
        SliceKept(p, h, files, offset, was, out[..], segs, k, i, got[k]);
      }
      SumUpdate(got, i, n);
      got := got[i := n];
      total := total + n;
      pending := pending - {i};
    }
    SumIsTotal(got, segs);
    if total == out.Length {
      AllSlices(p, h, files, offset, out[..], segs, slices, got);
    }
    ok := true;
  }

  lemma AllSlices(p: DrivePool, h: nat, files: seq<File>, offset: nat, out: seq<byte>, segs: seq<Segment>,
                  slices: seq<nat>, got: seq<nat>)
    requires p.Valid() && |files| == p.n && Total(segs) == |out| && |slices| == |segs| == |got|
    requires forall i {:trigger got[i]} :: 0 <= i < |segs| ==>
               slices[i] == Total(segs[..i]) && got[i] == segs[i].length
                 && SliceDone(p, h, files, offset, out, slices[i], got[i])
    ensures Gathered(p, h, files, offset, out)
  {
    forall k {:trigger out[k]} | 0 <= k < |out| ensures At(p, h, files, offset + k) == Some(out[k]) {
      var i := SegmentOf(segs, k);
      assert got[i] == segs[i].length;
    }
  }

  ghost predicate SliceDone(p: DrivePool, h: nat, files: seq<File>, offset: nat, out: seq<byte>, at: nat, len: nat)
    requires p.Valid() && |files| == p.n
  {
    && at + len <= |out|
    && forall k {:trigger out[k]} :: at <= k < at + len ==> At(p, h, files, offset + k) == Some(out[k])
  }

  /** A read into the slice of segment `i` leaves what segment `k` has got as it was. */
  lemma SliceKept(p: DrivePool, h: nat, files: seq<File>, offset: nat, was: seq<byte>, out: seq<byte>,
                  segs: seq<Segment>, k: nat, i: nat, got: nat)
    requires p.Valid() && |files| == p.n && |was| == |out| && k < |segs| && i < |segs| && k != i
             && got <= segs[k].length
    requires SliceDone(p, h, files, offset, was, Total(segs[..k]), got)
    requires forall j :: 0 <= j < |out| && !(Total(segs[..i]) <= j < Total(segs[..i]) + segs[i].length) ==>
               out[j] == was[j]
    ensures SliceDone(p, h, files, offset, out, Total(segs[..k]), got)
  {
    hide At;
    TotalMonotone(segs, if k < i then k else i, if k < i then i else k);
  }

  /** The segment that holds position `k` of the planned range. */
  lemma {:induction false} SegmentOf(segs: seq<Segment>, k: nat) returns (i: nat)
    requires k < Total(segs)
    ensures i < |segs| && Total(segs[..i]) <= k < Total(segs[..i]) + segs[i].length
    decreases |segs|
  {
    var n := |segs| - 1;
    if k < Total(segs[..n]) {
      i := SegmentOf(segs[..n], k);
      assert segs[..n][..i] == segs[..i];
    } else {
      i := n;
    }
  }

  /** Gathering any sub-range of what was scattered to distinct places gives back that part of the data. */
  lemma RoundTrip(p: DrivePool, h: nat, before: seq<File>, offset: nat, data: seq<byte>, from: nat, out: seq<byte>)
    requires p.Valid() && |before| == p.n && DistinctPlaces(p, h, offset, |data|)
    requires offset <= from && from + |out| <= offset + |data|
    requires Gathered(p, h, Scatter(p, h, before, offset, data), from, out)
    ensures out == data[from - offset..from - offset + |out|]
  {
    hide At, Scatter, DistinctPlaces;
    ScatterReadsBack(p, h, before, offset, data);
    forall k | 0 <= k < |out| ensures out[k] == data[from - offset + k] {
      assert At(p, h, Scatter(p, h, before, offset, data), from + k) == Some(out[k]);
      assert At(p, h, Scatter(p, h, before, offset, data), offset + (from - offset + k)) ==
             Some(data[from - offset + k]);
    }
  }
}
