/**
  Rounding the reads of a piece up to 4 KiB (src/goblin/net/stream_loop.cpp:241-269): which pieces of a GET
  are safe, exactly when a piece ends up right under every order and length of completions, and a piece
  that does not.
*/
module PaddedReads {
  import opened Arith
  import opened Striping
  import opened StripedIo
  import opened Layout
  import opened ReadPlan

  // ---------------------------------------------------------------- the pieces of a GET

  /** Object bytes `[pos, pos + len)` lie in one chunk of one tier. */
  predicate OneChunk(o: Object, pos: nat, len: nat)
    requires o.Valid()
  {
    len == 0 ||
    (var t, last := Place(pos, o.layout).tier, pos + len - 1;
     Place(last, o.layout).tier == t && (pos - o.Base(t)) / o.PoolOf(t).s == (last - o.Base(t)) / o.PoolOf(t).s)
  }

  /** A piece that rounding cannot harm: it starts on a 4 KiB boundary, or takes a single read. */
  predicate PieceSafe(o: Object, pos: nat, len: nat)
    requires o.Valid()
  {
    pos % DEVICE_BLOCK == 0 || OneChunk(o, pos, len)
  }

  /** All pieces of a GET from `pos` on are safe: each takes a buffer, and the last what is left. */
  predicate SafeFrom(o: Object, pos: nat, getSize: nat, bufLen: nat)
    requires o.Valid() && bufLen > 0
    decreases getSize - pos
  {
    pos >= getSize || (PieceSafe(o, pos, Min(bufLen, getSize - pos)) && SafeFrom(o, pos + bufLen, getSize, bufLen))
  }

  /** A GET whose tail starts on a 4 KiB boundary, through buffers of a multiple of 4 KiB, is safe all the way. */
  lemma {:induction false} AlignedIsSafe(o: Object, pos: nat, getSize: nat, bufLen: nat)
    requires o.Valid() && bufLen > 0 && pos % DEVICE_BLOCK == 0 && bufLen % DEVICE_BLOCK == 0
    ensures SafeFrom(o, pos, getSize, bufLen)
    decreases getSize - pos
  {
    if pos < getSize {
      assert (pos + bufLen) % DEVICE_BLOCK == 0;
      AlignedIsSafe(o, pos + bufLen, getSize, bufLen);
    }
  }

  /** A range inside one chunk takes at most one read. */
  lemma OneChunkOneRead(o: Object, off: nat, from: nat, upTo: nat, rs: seq<Read>)
    requires o.Valid() && Covers(o, off, from, upTo, rs) && OneChunk(o, off, upTo) && off + upTo <= o.layout.size
    ensures |rs| <= 1
  {
    hide Covers, ReadAt;
    if |rs| > 1 {
      CoversAt(o, off, from, upTo, rs, 0);
      CoversAt(o, off, from, upTo, rs, 1);
      FirstTier(o, off, rs[0]);
      NotInside(o, off, upTo, rs[0].tier, rs[1].out);
    }
  }

  lemma FirstTier(o: Object, off: nat, r: Read)
    requires o.Valid() && ReadAt(o, off + r.out, r)
    ensures Place(off + r.out, o.layout).tier == r.tier
  {
  }

  /** A boundary strictly inside a range means that the range is not in one chunk. */
  lemma NotInside(o: Object, off: nat, upTo: nat, t: Tier, mid: nat)
    requires o.Valid() && 0 < mid < upTo && off + upTo <= o.layout.size && Boundary(o, t, off + mid)
    requires Place(off, o.layout).tier == t || Place(off + upTo - 1, o.layout).tier == t
    ensures !OneChunk(o, off, upTo)
  {
    var p, last := o.PoolOf(t), off + upTo - 1;
    if Place(off, o.layout).tier == t && Place(last, o.layout).tier == t {
      StripeBetween(off - o.Base(t), off + mid - o.Base(t), last - o.Base(t), p.s);
    }
  }

  lemma StripeBetween(a: nat, m: nat, b: nat, s: nat)
    requires s > 0 && a < m <= b && m % s == 0
    ensures a / s < b / s
  {
    QuotientBelow(a, s, m / s);
    DivUp(m, b, s);
  }

  lemma DivUp(x: nat, y: nat, n: nat)
    requires n > 0 && x <= y
    ensures x / n <= y / n
  {
    if x / n > y / n {
      MulMono(y / n + 1, x / n, n);
    }
  }

  /**
    A safe piece: whatever part of it the resident head supplies, up to a 4 KiB boundary, its rounded
    reads stay out of each other's way.
  */
  lemma SafePiece(o: Object, off: nat, from: nat, upTo: nat, rs: seq<Read>, bufLen: nat)
    requires o.Valid() && Covers(o, off, from, upTo, rs) && off + upTo <= o.layout.size && upTo <= bufLen
    requires PieceSafe(o, off, upTo) && (from == 0 || from == upTo || (off + from) % DEVICE_BLOCK == 0)
    ensures NoSpill(rs, bufLen)
  {
    hide Covers;
    if from == upTo {
      NothingToRead(o, off, from, rs);
    } else if (off + from) % DEVICE_BLOCK != 0 {
      OneChunkOneRead(o, off, from, upTo, rs);
    }
    NoSpillIff(o, off, from, upTo, rs, bufLen);
  }

  lemma NothingToRead(o: Object, off: nat, from: nat, rs: seq<Read>)
    requires o.Valid() && Covers(o, off, from, from, rs)
    ensures rs == []
  {
    if rs != [] {
      CoversAt(o, off, from, from, rs, 0);
    }
  }

  /**
    Every piece of a GET with an aligned tail: piece `k` starts aligned, no rounded read of it reaches
    another's part of the buffer, and each stays inside the buffer and its own chunk.
  */
  lemma AlignedPiece(o: Object, tail: nat, bufLen: nat, k: nat, pos: nat, from: nat, upTo: nat, rs: seq<Read>, i: nat)
    requires o.Valid() && bufLen > 0 && tail % DEVICE_BLOCK == 0 && bufLen % DEVICE_BLOCK == 0
             && pos == tail + k * bufLen
    requires Covers(o, pos, from, upTo, rs) && pos + upTo <= o.layout.size && upTo <= bufLen && i < |rs|
    requires from == 0 || (pos + from) % DEVICE_BLOCK == 0
    ensures pos % DEVICE_BLOCK == 0 && NoSpill(rs, bufLen) && rs[i].out + Rounded(rs[i], bufLen) <= bufLen
            && pos + rs[i].out >= o.Base(rs[i].tier)
    ensures (pos + rs[i].out - o.Base(rs[i].tier)) % o.PoolOf(rs[i].tier).s
            + Rounded(rs[i], bufLen) <= o.PoolOf(rs[i].tier).s
  {
    hide Covers, NoSpill, Rounded;
    PieceAligned(tail, bufLen, k);
    PieceInChunks(o, pos, bufLen, from, upTo, rs, i);
  }

  lemma PieceAligned(tail: nat, bufLen: nat, k: nat)
    requires tail % DEVICE_BLOCK == 0 && bufLen % DEVICE_BLOCK == 0
    ensures (tail + k * bufLen) % DEVICE_BLOCK == 0
  {
    MultipleAligned(k, bufLen);
    var x := k * bufLen;
    assert (tail + x) % DEVICE_BLOCK == 0;
  }

  lemma PieceInChunks(o: Object, pos: nat, bufLen: nat, from: nat, upTo: nat, rs: seq<Read>, i: nat)
    requires o.Valid() && pos % DEVICE_BLOCK == 0 && Covers(o, pos, from, upTo, rs) && pos + upTo <= o.layout.size
             && upTo <= bufLen && i < |rs|
    requires from == 0 || (pos + from) % DEVICE_BLOCK == 0
    ensures NoSpill(rs, bufLen) && rs[i].out + Rounded(rs[i], bufLen) <= bufLen && pos + rs[i].out >= o.Base(rs[i].tier)
    ensures (pos + rs[i].out - o.Base(rs[i].tier)) % o.PoolOf(rs[i].tier).s
            + Rounded(rs[i], bufLen) <= o.PoolOf(rs[i].tier).s
  {
    hide Covers, NoSpill, Rounded;
    SafePiece(o, pos, from, upTo, rs, bufLen);
    CoversAt(o, pos, from, upTo, rs, i);
    if i > 0 {
      LaterReadsAligned(o, pos, from, upTo, rs, i);
    }
    RoundedInChunk(o, pos + rs[i].out, rs[i], bufLen);
  }

  lemma MultipleAligned(k: nat, b: nat)
    requires b % DEVICE_BLOCK == 0
    ensures k * b % DEVICE_BLOCK == 0
  {
    if b > 0 {
      DivModUnique(k * b, b, k, 0);
      MultipleOfMultiple(k * b, b, DEVICE_BLOCK);
    }
  }

  // ---------------------------------------------------------------- every order of completions

  /** A completed read puts `got` bytes of its file into the buffer. */
  function Landed(buf: seq<byte>, f: File, r: Read, got: nat): (b: seq<byte>)
    requires r.out + got <= |buf| && Readable(f, r.fileOff, got)
    ensures |b| == |buf|
    ensures forall k :: 0 <= k < |b| && !(r.out <= k < r.out + got) ==> b[k] == buf[k]
  {
    seq(|buf|, k requires 0 <= k < |buf| =>
      if r.out <= k < r.out + got then assert Held(f, r.fileOff, k - r.out); f[r.fileOff + (k - r.out)] else buf[k])
  }

  /** Read `i` of the piece completes with `got` bytes. */
  datatype Landing = Landing(i: nat, got: nat)

  /** The files, and a piece planned over them, for a buffer of `bufLen` bytes. */
  datatype Batch = Batch(o: Object, ssd: seq<File>, hdd: seq<File>, off: nat, from: nat, upTo: nat, rs: seq<Read>,
                         bufLen: nat) {
    ghost predicate Valid() {
      && o.Valid() && |ssd| == o.ssdPool.n && |hdd| == o.hddPool.n && from <= upTo <= bufLen
         && off + upTo <= o.layout.size
      && Covers(o, off, from, upTo, rs) && Stored(o, ssd, hdd, off + from, off + upTo)
      && forall i {:trigger rs[i]} :: 0 <= i < |rs| ==> rs[i].drive < o.PoolOf(rs[i].tier).n
    }

    function FileOf(i: nat): File
      requires |ssd| == o.ssdPool.n && |hdd| == o.hddPool.n && i < |rs| && rs[i].drive < o.PoolOf(rs[i].tier).n
    {
      FileFor(o, ssd, hdd, rs[i])
    }

    /** At least what was wanted, at most the rounded length, and no more than the file has. */
    ghost predicate MayLand(l: Landing)
      requires Valid()
    {
      l.i < |rs| && rs[l.i].len <= l.got <= Rounded(rs[l.i], bufLen) && Readable(FileOf(l.i), rs[l.i].fileOff, l.got)
    }

    ghost predicate AllMayLand(ls: seq<Landing>)
      requires Valid()
    {
      forall j {:trigger ls[j]} :: 0 <= j < |ls| ==> MayLand(ls[j])
    }

    /** The buffer after the completions `ls`, in that order. */
    ghost function After(buf: seq<byte>, ls: seq<Landing>): (b: seq<byte>)
      requires Valid() && |buf| == bufLen && AllMayLand(ls)
      ensures |b| == bufLen
      decreases |ls|
    {
      if ls == [] then buf
      else
        var l := ls[|ls| - 1];
        Landed(After(buf, ls[..|ls| - 1]), FileOf(l.i), rs[l.i], l.got)
    }

    ghost predicate Lands(ls: seq<Landing>, i: nat) {
      exists j :: 0 <= j < |ls| && ls[j].i == i
    }

    /** Every read completes once, in any order and with any length. */
    ghost predicate Schedule(ls: seq<Landing>)
      requires Valid()
    {
      AllMayLand(ls) && |ls| == |rs| && forall i: nat :: i < |rs| ==> Lands(ls, i)
    }

    /** The piece is right whenever all its reads are back. */
    ghost predicate AlwaysRight()
      requires Valid()
    {
      forall buf: seq<byte>, ls: seq<Landing> {:trigger After(buf, ls)} ::
        |buf| == bufLen && Schedule(ls) ==> Filled(o, ssd, hdd, off, After(buf, ls), from, upTo)
    }

    /** Byte `k` of the buffer, as the completion `l` writes it, is the object's. */
    ghost predicate WritesRight(l: Landing, k: nat)
      requires Valid() && MayLand(l) && rs[l.i].out <= k < rs[l.i].out + l.got
    {
      Held(FileOf(l.i), rs[l.i].fileOff, k - rs[l.i].out)
        && ObjAt(o, ssd, hdd, off + k) == Some(FileOf(l.i)[rs[l.i].fileOff + (k - rs[l.i].out)])
    }

    /** What the rounded reads bring along, as far as the piece goes, is what the object has there. */
    ghost predicate Harmless()
      requires Valid()
    {
      forall l: Landing, k: nat {:trigger WritesRight(l, k)} ::
        MayLand(l) && rs[l.i].out <= k < rs[l.i].out + l.got && k < upTo ==> WritesRight(l, k)
    }
  }

  lemma ScheduleMore(b: Batch, ls: seq<Landing>, l: Landing)
    requires b.Valid() && b.AllMayLand(ls + [l]) && |ls| >= 0
    ensures b.AllMayLand(ls) && b.MayLand(l)
    ensures forall buf {:trigger b.After(buf, ls + [l])} :: |buf| == b.bufLen ==>
              b.After(buf, ls + [l]) == Landed(b.After(buf, ls), b.FileOf(l.i), b.rs[l.i], l.got)
  {
    assert (ls + [l])[|ls|] == l;
    assert forall j :: 0 <= j < |ls| ==> (ls + [l])[j] == ls[j];
    assert (ls + [l])[..|ls|] == ls;
  }

  /** What is landed stays right, when everything that lands is right. */
  lemma {:induction false} HarmlessKeeps(b: Batch, buf: seq<byte>, ls: seq<Landing>, i: nat)
    requires b.Valid() && b.Harmless() && |buf| == b.bufLen && b.AllMayLand(ls) && i < |b.rs| && b.Lands(ls, i)
    ensures b.rs[i].out + b.rs[i].len <= b.upTo
    ensures Filled(b.o, b.ssd, b.hdd, b.off, b.After(buf, ls), b.rs[i].out, b.rs[i].out + b.rs[i].len)
    decreases |ls|
  {
    hide Covers, ObjAt, Rounded, Held, Readable, Batch.After, Stored;
    CoversAt(b.o, b.off, b.from, b.upTo, b.rs, i);
    var n := |ls| - 1;
    var front, l := ls[..n], ls[n];
    assert ls == front + [l];
    ScheduleMore(b, front, l);
    var was, now, r := b.After(buf, front), b.After(buf, ls), b.rs[i];
    if l.i != i {
      var j :| 0 <= j < |ls| && ls[j].i == i;
      assert front[j].i == i;
      HarmlessKeeps(b, buf, front, i);
    }
    forall k {:trigger now[k]} | r.out <= k < r.out + r.len ensures ObjAt(b.o, b.ssd, b.hdd, b.off + k) ==
      Some(now[k]) {
      LandedByte(b, was, l, k);
    }
  }

  lemma LandedByte(b: Batch, was: seq<byte>, l: Landing, k: nat)
    requires b.Valid() && b.Harmless() && |was| == b.bufLen && b.MayLand(l) && k < b.upTo
    ensures var now := Landed(was, b.FileOf(l.i), b.rs[l.i], l.got);
            if b.rs[l.i].out <= k < b.rs[l.i].out + l.got then ObjAt(b.o, b.ssd, b.hdd, b.off + k) == Some(now[k])
              else now[k] == was[k]
  {
    hide Covers, ObjAt, Stored;
    if b.rs[l.i].out <= k < b.rs[l.i].out + l.got {
      assert b.WritesRight(l, k);
    }
  }

  lemma HarmlessIsRight(b: Batch)
    requires b.Valid() && b.Harmless()
    ensures b.AlwaysRight()
  {
    hide Covers, ObjAt, Batch.Harmless, Stored;
    forall buf: seq<byte>, ls: seq<Landing> {:trigger b.After(buf, ls)} | |buf| == b.bufLen && b.Schedule(ls)
      ensures Filled(b.o, b.ssd, b.hdd, b.off, b.After(buf, ls), b.from, b.upTo)
    {
      forall i {:trigger b.rs[i]} | 0 <= i < |b.rs|
        ensures Filled(b.o, b.ssd, b.hdd, b.off, b.After(buf, ls), b.rs[i].out, b.rs[i].out + b.rs[i].len)
      {
        HarmlessKeeps(b, buf, ls, i);
      }
      AllFilled(b.o, b.ssd, b.hdd, b.off, b.After(buf, ls), b.from, b.upTo, b.rs);
    }
  }

  /** All reads below `n` but `i`, each with just what was wanted. */
  function Others(rs: seq<Read>, i: nat, n: nat): seq<Landing>
    requires n <= |rs|
  {
    if n == 0 then [] else if n - 1 == i then Others(rs, i, n - 1)
      else Others(rs, i, n - 1) + [Landing(n - 1, rs[n - 1].len)]
  }

  lemma {:induction false} OthersLand(b: Batch, i: nat, n: nat)
    requires b.Valid() && n <= |b.rs|
    ensures b.AllMayLand(Others(b.rs, i, n)) && |Others(b.rs, i, n)| == (if i < n then n - 1 else n)
    ensures forall j: nat :: j < n && j != i ==> b.Lands(Others(b.rs, i, n), j)
  {
    hide Covers, ObjAt, Stored, Rounded;
    if n > 0 {
      OthersLand(b, i, n - 1);
      var ls := Others(b.rs, i, n - 1);
      if n - 1 != i {
        WantedLands(b, n - 1);
        var l := Landing(n - 1, b.rs[n - 1].len);
        forall j: nat | j < n && j != i ensures b.Lands(ls + [l], j) {
          if j == n - 1 {
            assert (ls + [l])[|ls|].i == j;
          } else {
            assert b.Lands(ls, j);
            var m :| 0 <= m < |ls| && ls[m].i == j;
            assert (ls + [l])[m].i == j;
          }
        }
      }
    }
  }

  /** A read may come back with just what was wanted. */
  lemma WantedLands(b: Batch, i: nat)
    requires b.Valid() && i < |b.rs|
    ensures b.MayLand(Landing(i, b.rs[i].len))
  {
    hide ObjAt, Covers, ReadAt;
    CoversAt(b.o, b.off, b.from, b.upTo, b.rs, i);
    AlignUpLeast(b.rs[i].len, DEVICE_BLOCK);
    ReadHoldsAll(b.o, b.ssd, b.hdd, b.off, b.rs[i]);
    forall j: nat | j < b.rs[i].len ensures Held(b.FileOf(i), b.rs[i].fileOff, j) {
      assert Wanted(b.o, b.ssd, b.hdd, b.off, b.rs[i], j);
    }
  }

  /** A completion that can write a wrong byte does so when it comes last. */
  lemma HarmfulGoesWrong(b: Batch, l: Landing, k: nat, buf: seq<byte>) returns (ls: seq<Landing>)
    requires b.Valid() && b.MayLand(l) && b.rs[l.i].out <= k < b.rs[l.i].out + l.got && k < b.upTo
             && !b.WritesRight(l, k) && |buf| == b.bufLen
    ensures b.Schedule(ls) && b.from <= k && ObjAt(b.o, b.ssd, b.hdd, b.off + k) != Some(b.After(buf, ls)[k])
    ensures Held(b.FileOf(l.i), b.rs[l.i].fileOff, k - b.rs[l.i].out)
            && b.After(buf, ls)[k] == b.FileOf(l.i)[b.rs[l.i].fileOff + (k - b.rs[l.i].out)]
  {
    hide Covers, ObjAt, Stored, AlignUp, Batch.After, Batch.Schedule, Landed;
    var front;
    front, ls := LandsLast(b, l);
    ScheduleMore(b, front, l);
    CoversAt(b.o, b.off, b.from, b.upTo, b.rs, l.i);
    LandedThere(b.After(buf, front), b.FileOf(l.i), b.rs[l.i], l.got, k);
  }

  lemma LandedThere(buf: seq<byte>, f: File, r: Read, got: nat, k: nat)
    requires r.out + got <= |buf| && Readable(f, r.fileOff, got) && r.out <= k < r.out + got
    ensures Held(f, r.fileOff, k - r.out) && Landed(buf, f, r, got)[k] == f[r.fileOff + (k - r.out)]
  {
    assert Held(f, r.fileOff, k - r.out);
  }

  lemma LandsLast(b: Batch, l: Landing) returns (front: seq<Landing>, ls: seq<Landing>)
    requires b.Valid() && b.MayLand(l)
    ensures ls == front + [l] && b.AllMayLand(ls) && b.Schedule(ls)
  {
    hide Covers, ObjAt, Stored, Rounded, Batch.MayLand, Others;
    front := Others(b.rs, l.i, |b.rs|);
    assert l.i < |b.rs| by { MayLandIndex(b, l); }
    OthersLand(b, l.i, |b.rs|);
    ls := front + [l];
    forall j: nat | j < |b.rs| ensures b.Lands(ls, j) {
      if j == l.i {
        assert ls[|front|].i == j;
      } else {
        assert b.Lands(front, j);
        var m :| 0 <= m < |front| && front[m].i == j;
        assert ls[m].i == j;
      }
    }
    assert forall j :: 0 <= j < |ls| ==> ls[j] == if j < |front| then front[j] else l;
  }

  lemma MayLandIndex(b: Batch, l: Landing)
    requires b.Valid() && b.MayLand(l)
    ensures l.i < |b.rs|
  {
  }

  /**
    Exactly when a piece is right under every order and every length of completions: when the bytes
    behind each read, as far as it is rounded up, as far as its file goes and as far as the piece goes,
    are the bytes the object has there.
  */
  lemma RoundingIff(b: Batch)
    requires b.Valid()
    ensures b.AlwaysRight() <==> b.Harmless()
  {
    hide Covers, ObjAt, Stored, Rounded, Batch.After, Batch.WritesRight;
    if b.Harmless() {
      HarmlessIsRight(b);
    } else {
      var l: Landing, k: nat :| b.MayLand(l) && b.rs[l.i].out <= k < b.rs[l.i].out + l.got && k < b.upTo
        && !b.WritesRight(l, k);
      var buf := seq(b.bufLen, _ => 0);
      var ls := HarmfulGoesWrong(b, l, k, buf);
      assert b.After(buf, ls)[k] == b.After(buf, ls)[k];
    }
  }

  /** Where no rounded read reaches the next one's part of the buffer, nothing is brought along. */
  lemma NoSpillIsHarmless(b: Batch)
    requires b.Valid() && NoSpill(b.rs, b.bufLen)
    ensures b.Harmless()
  {
    hide Covers, ObjAt, ReadAt, Rounded, Stored;
    forall l: Landing, k: nat | b.MayLand(l) && b.rs[l.i].out <= k < b.rs[l.i].out + l.got && k < b.upTo
      ensures b.WritesRight(l, k)
    {
      CoversAt(b.o, b.off, b.from, b.upTo, b.rs, l.i);
      assert k < b.rs[l.i].out + b.rs[l.i].len;
      WantedRight(b, l, k);
    }
  }

  lemma WantedRight(b: Batch, l: Landing, k: nat)
    requires b.Valid() && b.MayLand(l) && b.rs[l.i].out <= k < b.rs[l.i].out + b.rs[l.i].len
    ensures b.WritesRight(l, k)
  {
    hide Covers, ObjAt, ReadAt, Rounded;
    CoversAt(b.o, b.off, b.from, b.upTo, b.rs, l.i);
    ReadHoldsAll(b.o, b.ssd, b.hdd, b.off, b.rs[l.i]);
    assert Wanted(b.o, b.ssd, b.hdd, b.off, b.rs[l.i], k - b.rs[l.i].out);
  }

  // ---------------------------------------------------------------- what the layout alone decides

  ghost predicate SameExtents(a: seq<File>, b: seq<File>) {
    |a| == |b| && forall i {:trigger a[i]} {:trigger b[i]} :: 0 <= i < |a| ==> a[i].Keys == b[i].Keys
  }

  /** The same piece over files of the same extents, with any contents. */
  ghost predicate Refilled(b: Batch, c: Batch) {
    c == b.(ssd := c.ssd, hdd := c.hdd) && SameExtents(b.ssd, c.ssd) && SameExtents(b.hdd, c.hdd)
  }

  lemma RefilledValid(b: Batch, c: Batch)
    requires b.Valid() && Refilled(b, c)
    ensures c.Valid() && forall i :: 0 <= i < |b.rs| ==> c.FileOf(i).Keys == b.FileOf(i).Keys
  {
    hide Covers, DrivePool.DriveOf, DrivePool.FileOffset;
    forall pos {:trigger ObjAt(b.o, c.ssd, c.hdd, pos)} | b.off + b.from <= pos < b.off + b.upTo
      ensures ObjAt(b.o, c.ssd, c.hdd, pos).Some?
    {
      assert ObjAt(b.o, b.ssd, b.hdd, pos).Some?;
    }
  }

  /** The second read goes on in the file where the first one stops, as it does on a single drive. */
  predicate GoesOn(b: Batch)
    requires |b.rs| > 1
  {
    b.rs[1].tier == b.rs[0].tier && b.rs[1].drive == b.rs[0].drive && b.rs[1].fileOff == b.rs[0].fileOff + b.rs[0].len
  }

  /**
    The disk part starts on a 4 KiB boundary, or is a single read, or the file of the first read ends with
    what is wanted of it, or has next what the second read wants.
  */
  ghost predicate SafeByLayout(b: Batch)
    requires b.Valid()
  {
    (b.off + b.from) % DEVICE_BLOCK == 0 || |b.rs| <= 1 || !Held(b.FileOf(0), b.rs[0].fileOff, b.rs[0].len) || GoesOn(b)
  }

  /** Only the first read of a piece can reach further than it is wanted, and by less than 4 KiB. */
  lemma OnlyFirstSpills(b: Batch, l: Landing, k: nat)
    requires b.Valid() && b.MayLand(l) && b.rs[l.i].out + b.rs[l.i].len <= k < b.rs[l.i].out + l.got && k < b.upTo
    ensures l.i == 0 && |b.rs| > 1 && b.rs[1].out <= k < b.rs[1].out + b.rs[1].len
            && b.rs[1].out == b.rs[0].out + b.rs[0].len
    ensures l.got > b.rs[0].len
  {
    hide Covers, ReadAt, ObjAt, Stored, AlignUp;
    var i, rs := l.i, b.rs;
    CoversAt(b.o, b.off, b.from, b.upTo, rs, i);
    RoundedAtMost(rs[i], b.bufLen);
    AlignUpLeast(rs[i].len, DEVICE_BLOCK);
    LaterReadsAligned(b.o, b.off, b.from, b.upTo, rs, i + 1);
    if i > 0 {
      LaterReadsAligned(b.o, b.off, b.from, b.upTo, rs, i);
      AlignedLength(b.off + rs[i].out, rs[i].len);
    }
    CoversAt(b.o, b.off, b.from, b.upTo, rs, 1);
    if |rs| > 2 {
      LaterReadsAligned(b.o, b.off, b.from, b.upTo, rs, 2);
      AlignedLength(b.off + rs[1].out, rs[1].len);
    }
  }

  lemma SafeLayoutIsHarmless(b: Batch)
    requires b.Valid() && SafeByLayout(b)
    ensures b.Harmless()
  {
    hide Covers, ObjAt, ReadAt, Rounded, Stored;
    if (b.off + b.from) % DEVICE_BLOCK == 0 || |b.rs| <= 1 {
      NoSpillIff(b.o, b.off, b.from, b.upTo, b.rs, b.bufLen);
      NoSpillIsHarmless(b);
    } else {
      forall l: Landing, k: nat | b.MayLand(l) && b.rs[l.i].out <= k < b.rs[l.i].out + l.got && k < b.upTo
        ensures b.WritesRight(l, k)
      {
        if k < b.rs[l.i].out + b.rs[l.i].len {
          WantedRight(b, l, k);
        } else {
          OnlyFirstSpills(b, l, k);
          assert Held(b.FileOf(0), b.rs[0].fileOff, b.rs[0].len);
          NextRight(b, k);
        }
      }
    }
  }

  /** What the first read brings of the second one's part is what the second one wants. */
  lemma NextRight(b: Batch, k: nat)
    requires b.Valid() && |b.rs| > 1 && GoesOn(b) && b.rs[1].out == b.rs[0].out + b.rs[0].len
             && b.rs[1].out <= k < b.rs[1].out + b.rs[1].len
    ensures var f, x := b.FileOf(0), b.rs[0].fileOff + (k - b.rs[0].out);
            Held(f, b.rs[0].fileOff, k - b.rs[0].out) && ObjAt(b.o, b.ssd, b.hdd, b.off + k) == Some(f[x])
  {
    hide Covers, ObjAt, ReadAt;
    CoversAt(b.o, b.off, b.from, b.upTo, b.rs, 1);
    ReadHoldsAll(b.o, b.ssd, b.hdd, b.off, b.rs[1]);
    assert Wanted(b.o, b.ssd, b.hdd, b.off, b.rs[1], k - b.rs[1].out);
  }

  /** Zeros, and a one at `fo` if that is `here`. */
  function Marked(f: File, fo: nat, here: bool): File { map x | x in f :: if here && x == fo then 1 else 0 }

  function MarkedTier(files: seq<File>, drive: nat, fo: nat, here: bool): (r: seq<File>)
    ensures |r| == |files| && SameExtents(files, r)
  {
    seq(|files|, i requires 0 <= i < |files| => Marked(files[i], fo, here && i == drive))
  }

  /** The piece over files of zeros, with a one behind what the first read wants. */
  function MarkedBatch(b: Batch): Batch
    requires |b.rs| > 0
  {
    var r := b.rs[0];
    b.(ssd := MarkedTier(b.ssd, r.drive, r.fileOff + r.len, r.tier == Ssd),
       hdd := MarkedTier(b.hdd, r.drive, r.fileOff + r.len, r.tier == Hdd))
  }

  /** A first read whose file goes on behind what is wanted may bring one byte more. */
  lemma OneByteMore(b: Batch)
    requires b.Valid() && |b.rs| > 1 && (b.off + b.from) % DEVICE_BLOCK != 0
             && Held(b.FileOf(0), b.rs[0].fileOff, b.rs[0].len)
    ensures b.MayLand(Landing(0, b.rs[0].len + 1)) && b.rs[1].out == b.rs[0].out + b.rs[0].len < b.upTo
  {
    hide Covers, ObjAt, ReadAt, Rounded;
    CoversAt(b.o, b.off, b.from, b.upTo, b.rs, 0);
    CoversAt(b.o, b.off, b.from, b.upTo, b.rs, 1);
    LaterReadsAligned(b.o, b.off, b.from, b.upTo, b.rs, 1);
    FirstReadSpills(b.off, b.from, b.rs[0], b.bufLen);
    ReadHoldsAll(b.o, b.ssd, b.hdd, b.off, b.rs[0]);
    forall j: nat | j <= b.rs[0].len ensures Held(b.FileOf(0), b.rs[0].fileOff, j) {
      if j < b.rs[0].len {
        assert Wanted(b.o, b.ssd, b.hdd, b.off, b.rs[0], j);
      }
    }
  }

  lemma MarkedGoesWrong(b: Batch)
    requires b.Valid() && !SafeByLayout(b)
    ensures Refilled(b, MarkedBatch(b)) && MarkedBatch(b).Valid() && !MarkedBatch(b).AlwaysRight()
  {
    hide Covers, ObjAt, ReadAt, Rounded, Stored, Batch.AlwaysRight, Batch.MayLand;
    var c := MarkedBatch(b);
    RefilledValid(b, c);
    OneByteMore(c);
    CoversAt(c.o, c.off, c.from, c.upTo, c.rs, 1);
    ReadHolds(c.o, c.ssd, c.hdd, c.off + c.rs[1].out, c.rs[1], 0);
    assert !c.WritesRight(Landing(0, c.rs[0].len + 1), c.rs[1].out);
    RoundingIff(c);
  }

  /**
    The layout decides: whatever the files hold, the piece is right under every order and every length of
    completions, if and only if it is safe by its layout and the extents of its files.
  */
  lemma RoundingByLayoutIff(b: Batch)
    requires b.Valid()
    ensures (forall c: Batch :: Refilled(b, c) ==> c.Valid() && c.AlwaysRight()) <==> SafeByLayout(b)
  {
    hide Covers, Stored, Batch.AlwaysRight, Batch.Harmless, MarkedBatch;
    if SafeByLayout(b) {
      forall c: Batch | Refilled(b, c) ensures c.Valid() && c.AlwaysRight() {
        RefilledValid(b, c);
        SafeLayoutIsHarmless(c);
        RoundingIff(c);
      }
    } else {
      MarkedGoesWrong(b);
    }
  }

  // ---------------------------------------------------------------- a piece that goes wrong

  const TWO_DRIVES := DrivePool(2, 4096)

  /** Four chunks on two drives; every byte is the number of its chunk. */
  const FOUR_CHUNKS := Object(ObjectLayout(16384, 0, 16384, 0), TWO_DRIVES, TWO_DRIVES, 0)

  /** Two chunks of one drive, one after the other. */
  function TwoChunks(a: byte, b: byte): File {
    WriteAt(map[], 0, seq(8192, i => if i < 4096 then a else b))
  }

  function Numbered(): (r: seq<File>)
    ensures |r| == 2 && r[0] == TwoChunks(0, 2)
  {
    [TwoChunks(0, 2), TwoChunks(1, 3)]
  }

  lemma NumberedBytes(pos: nat)
    requires pos < 16384
    ensures FOUR_CHUNKS.Valid() && ObjAt(FOUR_CHUNKS, Numbered(), Numbered(), pos) == Some((pos / 4096) as byte)
  {
    var c := pos / 4096;
    assert TWO_DRIVES.DriveOf(0, pos) == c % 2 && TWO_DRIVES.FileOffset(pos) == c / 2 * 4096 + pos % 4096;
  }

  /** A range from byte 100 to the end of the second chunk: the rest of the first chunk, and the second. */
  const FIRST := Read(Ssd, 0, 100, 3996, 0)
  const SECOND := Read(Ssd, 1, 0, 4096, 3996)
  const UNALIGNED := Batch(FOUR_CHUNKS, Numbered(), Numbered(), 100, 0, 8092, [FIRST, SECOND], 16384)

  lemma TheFirst()
    ensures FOUR_CHUNKS.Valid() && ReadAt(FOUR_CHUNKS, 100, FIRST)
  {
    assert TWO_DRIVES.DriveOf(0, 100) == 0 && TWO_DRIVES.FileOffset(100) == 100;
  }

  lemma TheSecond()
    ensures FOUR_CHUNKS.Valid() && ReadAt(FOUR_CHUNKS, 4096, SECOND) && Boundary(FOUR_CHUNKS, Ssd, 4096)
  {
    assert TWO_DRIVES.DriveOf(0, 4096) == 1 && TWO_DRIVES.FileOffset(4096) == 0;
  }

  lemma ThePlan()
    ensures FOUR_CHUNKS.Valid() && Covers(FOUR_CHUNKS, 100, 0, 8092, [FIRST, SECOND])
  {
    hide ReadAt, Boundary;
    TheFirst();
    TheSecond();
    NothingCovered(FOUR_CHUNKS, 100, 0);
    CoversPush(FOUR_CHUNKS, 100, 0, 0, [], FIRST);
    assert [] + [FIRST] == [FIRST] && [FIRST] + [SECOND] == [FIRST, SECOND];
    CoversPush(FOUR_CHUNKS, 100, 0, 3996, [FIRST], SECOND);
  }

  lemma TheBytes()
    ensures FOUR_CHUNKS.Valid() && Stored(FOUR_CHUNKS, Numbered(), Numbered(), 100, 8192)
  {
    hide ObjAt, Numbered;
    assert FOUR_CHUNKS.Valid();
    forall pos: nat | 100 <= pos < 8192 ensures ObjAt(FOUR_CHUNKS, Numbered(), Numbered(), pos).Some? {
      NumberedBytes(pos);
    }
  }

  lemma UnalignedIsPlanned()
    ensures UNALIGNED.Valid()
  {
    hide Covers, Stored, ObjAt, TwoChunks;
    ThePlan();
    TheBytes();
  }

  lemma FirstMayLand()
    ensures UNALIGNED.Valid() && UNALIGNED.MayLand(Landing(0, 4096))
    ensures Held(TwoChunks(0, 2), 100, 3996) && TwoChunks(0, 2)[100 + 3996] == 2
  {
    UnalignedIsPlanned();
    hide Batch.Valid;
    assert Readable(TwoChunks(0, 2), 100, 4096);
  }

  /**
    The first read, rounded up to 4096 bytes, brings along 100 bytes of the third chunk, which follows the
    first one in its file. When it completes last they stand where the second chunk belongs.
  */
  lemma UnalignedGoesWrong(buf: seq<byte>) returns (b: Batch, ls: seq<Landing>)
    requires |buf| == 16384
    ensures b == UNALIGNED && b.Valid() && b.Schedule(ls)
    ensures |b.After(buf, ls)| == 16384 && b.After(buf, ls)[3996] == 2
    ensures ObjAt(b.o, b.ssd, b.hdd, b.off + 3996) == Some(1)
  {
    hide Covers, ObjAt, Stored, Batch.Valid, Batch.Schedule, Batch.After, Batch.MayLand, TwoChunks, Numbered;
    b := UNALIGNED;
    FirstMayLand();
    NumberedBytes(4096);
    ls := HarmfulGoesWrong(b, Landing(0, 4096), 3996, buf);
  }
}
