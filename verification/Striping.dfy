/**
  RAID-0 striping of one tier of an object over the drives of a pool
  (src/goblin/storage/drive_pool.cpp).

  A tier-local offset is cut into chunks of one stripe unit; chunk `c` lies on drive
  `(key_hash + c) % n`, where the sum is a 64-bit sum that may wrap.
*/
module Striping {
  import opened Arith
  import opened Collections

  /** One past the largest 64-bit value. */
  const WORD: nat := 0x1_0000_0000_0000_0000

  /** One contiguous read or write against one drive's file of an object. */
  datatype Segment = Segment(drive: nat, fileOffset: nat, length: nat)

  datatype DrivePool = DrivePool(n: nat, s: nat) {

    predicate Valid() { n > 0 && s > 0 }

    function DriveOfChunk(h: nat, c: nat): (drive: nat)
      requires Valid()
      ensures drive < n
    {
      (h + c) % WORD % n
    }

    function DriveOf(h: nat, off: nat): (drive: nat)
      requires Valid()
      ensures drive < n
    {
      DriveOfChunk(h, off / s)
    }

    function FileOffset(off: nat): nat
      requires Valid()
    {
      off / s / n * s + off % s
    }

    /** Number of chunks of a tier of `tierBytes` bytes, rounded up. */
    function Chunks(tierBytes: nat): nat
      requires Valid()
    {
      (tierBytes + s - 1) / s
    }

    /** Number of per-drive files such a tier occupies. */
    function FilesUsed(tierBytes: nat): nat
      requires Valid()
    {
      if Chunks(tierBytes) < n then Chunks(tierBytes) else n
    }
  }

  // ---------------------------------------------------------------- where bytes lie

  /** Chunks of one stripe row lie on different drives, for the first `nc` chunks. */
  ghost predicate NoClash(p: DrivePool, h: nat, nc: nat)
    requires p.Valid()
  {
    forall c, d {:trigger p.DriveOfChunk(h, c), p.DriveOfChunk(h, d)} ::
      0 <= c < d < nc && c / p.n == d / p.n ==> p.DriveOfChunk(h, c) != p.DriveOfChunk(h, d)
  }

  /**
    The wrap of the 64-bit sum `h + c` does no harm: the number of drives divides 2^64, or the
    wrap falls on a row boundary, or the object ends before two chunks can meet.
  */
  predicate WrapHarmless(p: DrivePool, h: nat, nc: nat)
    requires p.Valid() && h < WORD
  {
    var r := WORD % p.n;
    var wrap := WORD - h;
    var row := wrap / p.n * p.n;
    r == 0 || wrap == row || nc <= Max(row + r, wrap)
  }

  lemma DriveBeforeWrap(p: DrivePool, h: nat, c: nat)
    requires p.Valid() && h + c < WORD
    ensures p.DriveOfChunk(h, c) == (h + c) % p.n
  {
    DivModUnique(h + c, WORD, 0, h + c);
  }

  lemma DriveAfterWrap(p: DrivePool, h: nat, c: nat)
    requires p.Valid() && WORD <= h + c < 2 * WORD
    ensures p.DriveOfChunk(h, c) == (h + c - WORD) % p.n
  {
    DivModUnique(h + c, WORD, 1, h + c - WORD);
  }

  /** Adding `gap` and dropping `word` keeps the remainder exactly when `gap` is `word % n`. */
  lemma ShiftKeepsRemainder(x: int, gap: nat, word: nat, n: nat)
    requires gap < n
    ensures x % n == (x + gap - word) % n <==> gap == word % n
  {
    var y := x + gap - word;
    var k := x / n - y / n;
    assert x == x / n * n + x % n && y == y / n * n + y % n;
    assert k * n == x / n * n - y / n * n;
    if gap == word % n {
      assert word == word / n * n + gap;
      assert y == x + (-(word / n)) * n;
      ModAddMultiple(x, -(word / n), n);
    }
    if x % n == y % n {
      DivModUnique(word, n, k, gap);
    }
  }

  /** Two chunks on either side of the wrap share a drive exactly when they are `2^64 % n` apart. */
  lemma AcrossWrap(p: DrivePool, h: nat, c: nat, d: nat)
    requires p.Valid() && h + c < WORD <= h + d < 2 * WORD && 0 < d - c < p.n
    ensures p.DriveOfChunk(h, c) == p.DriveOfChunk(h, d) <==> d - c == WORD % p.n
  {
    DriveBeforeWrap(p, h, c);
    DriveAfterWrap(p, h, d);
    ShiftKeepsRemainder(h + c, d - c, WORD, p.n);
  }

  /** Two chunks on the same side of the wrap and in one row never share a drive. */
  lemma SameSide(p: DrivePool, h: nat, c: nat, d: nat)
    requires p.Valid() && 0 < d - c < p.n
    requires h + d < WORD || WORD <= h + c < h + d < 2 * WORD
    ensures p.DriveOfChunk(h, c) != p.DriveOfChunk(h, d)
  {
    if h + d < WORD {
      DriveBeforeWrap(p, h, c);
      DriveBeforeWrap(p, h, d);
      if (h + c) % p.n == (h + d) % p.n {
        EqualModClose(h + c, h + d, p.n);
      }
    } else {
      DriveAfterWrap(p, h, c);
      DriveAfterWrap(p, h, d);
      if (h + c - WORD) % p.n == (h + d - WORD) % p.n {
        EqualModClose(h + c - WORD, h + d - WORD, p.n);
      }
    }
  }

  lemma RowBounds(c: nat, d: nat, n: nat)
    requires n > 0 && c < d && c / n == d / n
    ensures d - c < n && c / n * n <= c && d < c / n * n + n
  {
    assert c == c / n * n + c % n && d == d / n * n + d % n;
  }

  lemma {:induction false} HarmlessIsEnough(p: DrivePool, h: nat, nc: nat, c: nat, d: nat)
    requires p.Valid() && h < WORD && nc <= WORD
    requires WrapHarmless(p, h, nc)
    requires c < d < nc && c / p.n == d / p.n
    ensures p.DriveOfChunk(h, c) != p.DriveOfChunk(h, d)
  {
    RowBounds(c, d, p.n);
    if h + c < WORD <= h + d {
      var wrap := WORD - h;
      DivModUnique(wrap, p.n, c / p.n, wrap - c / p.n * p.n);
      AcrossWrap(p, h, c, d);
    } else {
      SameSide(p, h, c, d);
    }
  }

  /** The first two chunks that share a drive and a row once the wrap does harm. */
  lemma HarmfulWrapClashes(p: DrivePool, h: nat, nc: nat) returns (c: nat, d: nat)
    requires p.Valid() && h < WORD && nc <= WORD
    requires !WrapHarmless(p, h, nc)
    ensures c < d < nc && c / p.n == d / p.n
    ensures p.DriveOfChunk(h, c) == p.DriveOfChunk(h, d)
  {
    hide DrivePool.DriveOfChunk;
    var r := WORD % p.n;
    var wrap := WORD - h;
    var q := wrap / p.n;
    var row := q * p.n;
    assert wrap == row + wrap % p.n;
    c := Max(row, wrap - r);
    d := c + r;
    DivModUnique(c, p.n, q, c - row);
    DivModUnique(d, p.n, q, d - row);
    AcrossWrap(p, h, c, d);
  }

  /**
    Exactly when the striping keeps chunks of a row apart: on any prefix of the 2^64 chunks the
    layout is clash-free if and only if the wrap of `key_hash + c` is harmless there.
  */
  lemma NoClashIff(p: DrivePool, h: nat, nc: nat)
    requires p.Valid() && h < WORD && nc <= WORD
    ensures NoClash(p, h, nc) <==> WrapHarmless(p, h, nc)
  {
    if WrapHarmless(p, h, nc) {
      forall c, d {:trigger p.DriveOfChunk(h, c), p.DriveOfChunk(h, d)}
        | 0 <= c < d < nc && c / p.n == d / p.n
        ensures p.DriveOfChunk(h, c) != p.DriveOfChunk(h, d)
      {
        HarmlessIsEnough(p, h, nc, c, d);
      }
    } else {
      var c, d := HarmfulWrapClashes(p, h, nc);
    }
  }

  /** A concrete clash: three drives, and a key hash whose sum wraps at the second chunk. */
  lemma WrapClashExample()
    ensures var p := DrivePool(3, 4096);
            var h := WORD - 1;
            p.DriveOf(h, 0) == p.DriveOf(h, 4096) && p.FileOffset(0) == p.FileOffset(4096)
  {
  }

  lemma FileOffsetParts(p: DrivePool, off: nat)
    requires p.Valid()
    ensures p.FileOffset(off) / p.s == off / p.s / p.n
    ensures p.FileOffset(off) % p.s == off % p.s
    ensures off == off / p.s * p.s + off % p.s
  {
    DivModUnique(p.FileOffset(off), p.s, off / p.s / p.n, off % p.s);
  }

  /** No two bytes of a tier share a place on disk. */
  lemma PlaceInjective(p: DrivePool, h: nat, nc: nat, a: nat, b: nat)
    requires p.Valid() && NoClash(p, h, nc)
    requires a / p.s < nc && b / p.s < nc
    requires p.DriveOf(h, a) == p.DriveOf(h, b) && p.FileOffset(a) == p.FileOffset(b)
    ensures a == b
  {
    hide DrivePool.DriveOfChunk, DrivePool.FileOffset;
    FileOffsetParts(p, a);
    FileOffsetParts(p, b);
    var c, d := a / p.s, b / p.s;
    assert p.DriveOfChunk(h, c) == p.DriveOfChunk(h, d);
    assert c == d;
  }

  // ---------------------------------------------------------------- opened drives

  /** The drives on which `open_object` opens, publishes or unlinks a file of the object. */
  ghost function OpenedDrives(p: DrivePool, h: nat, tierBytes: nat): set<nat>
    requires p.Valid()
  {
    set c: nat | c < p.FilesUsed(tierBytes) :: p.DriveOfChunk(h, c)
  }

  ghost function FirstDrives(p: DrivePool, h: nat, k: nat): (r: set<nat>)
    requires p.Valid()
  {
    set c: nat | c < k :: p.DriveOfChunk(h, c)
  }

  lemma {:induction false} FirstDrivesCount(p: DrivePool, h: nat, k: nat)
    requires p.Valid() && k <= p.n && NoClash(p, h, k)
    ensures |FirstDrives(p, h, k)| == k
  {
    hide DrivePool.DriveOfChunk;
    if k == 0 {
      assert FirstDrives(p, h, k) == {};
    } else {
      FirstDrivesCount(p, h, k - 1);
      var e := p.DriveOfChunk(h, k - 1);
      if e in FirstDrives(p, h, k - 1) {
        var c: nat :| c < k - 1 && p.DriveOfChunk(h, c) == e;
        DivModUnique(c, p.n, 0, c);
        DivModUnique(k - 1, p.n, 0, k - 1);
        assert false;
      } else {
        assert FirstDrives(p, h, k) == FirstDrives(p, h, k - 1) + {e};
      }
    }
  }

  /** The chunks of a tier have room for its padding. */
  lemma PaddedFits(p: DrivePool, tierBytes: nat)
    requires p.Valid() && p.s % DEVICE_BLOCK == 0
    ensures AlignUp(tierBytes, DEVICE_BLOCK) <= p.Chunks(tierBytes) * p.s
  {
    var m := p.Chunks(tierBytes) * p.s;
    assert m == AlignUp(tierBytes, p.s);
    AlignUpLeast(tierBytes, p.s);
    MultipleOfMultiple(m, p.s, DEVICE_BLOCK);
    AlignUpBelow(tierBytes, m, DEVICE_BLOCK);
  }

  lemma LastChunk(p: DrivePool, tierBytes: nat, off: nat)
    requires p.Valid() && p.s % DEVICE_BLOCK == 0
    requires off < AlignUp(tierBytes, DEVICE_BLOCK)
    ensures off / p.s < p.Chunks(tierBytes)
  {
    PaddedFits(p, tierBytes);
    QuotientBelow(off, p.s, p.Chunks(tierBytes));
  }

  /** Every byte of the tier, and every padding byte up to the next 4 KiB, lies on a drive whose file is open. */
  ghost predicate AllOpened(p: DrivePool, h: nat, tierBytes: nat)
    requires p.Valid()
  {
    forall off: nat {:trigger p.DriveOf(h, off)} :: off < AlignUp(tierBytes, DEVICE_BLOCK) ==>
        p.DriveOf(h, off) in OpenedDrives(p, h, tierBytes)
  }

  /**
    What that takes of `nc` chunks: at most one a drive; or a sum that wraps without harm or only after
    the first row; or an end before the first chunk that falls on a drive left out.
  */
  predicate OpensEnough(p: DrivePool, h: nat, nc: nat)
    requires p.Valid() && h < WORD
  {
    nc <= p.n || WORD % p.n == 0 || WORD - h >= p.n || nc <= WORD - h + WORD % p.n
  }

  /** The first `n` chunks take all drives when the sum does not wrap among them, or wraps without harm. */
  lemma FirstRowIsAll(p: DrivePool, h: nat)
    requires p.Valid() && h < WORD && p.n <= WORD && (WORD % p.n == 0 || WORD - h >= p.n)
    ensures FirstDrives(p, h, p.n) == Below(p.n)
  {
    hide DrivePool.DriveOfChunk;
    FirstRowHarmless(p, h);
    NoClashIff(p, h, p.n);
    FirstDrivesCount(p, h, p.n);
    FullSubset(FirstDrives(p, h, p.n), Below(p.n));
  }

  lemma FirstRowHarmless(p: DrivePool, h: nat)
    requires p.Valid() && h < WORD && (WORD % p.n == 0 || WORD - h >= p.n)
    ensures WrapHarmless(p, h, p.n)
  {
  }

  /** A chunk behind the wrap takes the drive of a chunk before it, or of one a whole row earlier. */
  lemma ChunkAfterWrap(p: DrivePool, h: nat, c: nat, j: nat)
    requires p.Valid() && h < WORD && j < WORD - h <= c && h + c < 2 * WORD
    ensures p.DriveOfChunk(h, c) == p.DriveOfChunk(h, j) <==> (c - j - WORD % p.n) % p.n == 0
  {
    hide DrivePool.DriveOfChunk;
    DriveBeforeWrap(p, h, j);
    DriveAfterWrap(p, h, c);
    SameRemainder(h + j, h + c - WORD, p.n);
    LessWord(c - j, WORD, p.n);
  }

  lemma LessWord(x: int, w: nat, n: nat)
    requires n > 0
    ensures (x - w) % n == (x - w % n) % n
  {
    assert w == w / n * n + w % n;
    ModAddMultiple(x - w % n, -(w / n), n);
  }

  lemma SameRemainder(x: nat, y: nat, n: nat)
    requires n > 0
    ensures x % n == y % n <==> (y - x) % n == 0
  {
    var k := y / n - x / n;
    assert k * n == y / n * n - x / n * n;
    assert x == x / n * n + x % n && y == y / n * n + y % n;
    if x % n == y % n {
      DivModUnique(y - x, n, k, 0);
    } else if (y - x) % n == 0 {
      var m := (y - x) / n;
      assert y - x == m * n;
      ModAddMultiple(x, m, n);
    }
  }

  /** The first chunk left out, when the wrap comes inside the first row and is not harmless. */
  lemma ChunkLeftOut(p: DrivePool, h: nat)
    requires p.Valid() && h < WORD && 2 * p.n <= WORD && WORD % p.n != 0 && WORD - h < p.n
    ensures var c := Max(p.n, WORD - h + WORD % p.n);
            p.DriveOfChunk(h, c) !in FirstDrives(p, h, p.n)
  {
    var w, r := WORD - h, WORD % p.n;
    var c := Max(p.n, w + r);
    hide DrivePool.DriveOfChunk;
    forall j: nat | j < p.n ensures p.DriveOfChunk(h, j) != p.DriveOfChunk(h, c) {
      if j < w {
        ChunkAfterWrap(p, h, c, j);
        NotMultiple(c - j - r, p.n);
      } else {
        DriveAfterWrap(p, h, j);
        DriveAfterWrap(p, h, c);
        SameRemainder(h + j - WORD, h + c - WORD, p.n);
        NotMultiple(c - j, p.n);
      }
    }
  }

  lemma NotMultiple(x: int, n: nat)
    requires 0 < x < n
    ensures x % n != 0
  {
  }

  lemma ChunkOpened(p: DrivePool, h: nat, nc: nat, c: nat)
    requires p.Valid() && h < WORD && 2 * p.n <= WORD && OpensEnough(p, h, nc) && c < nc <= WORD
    ensures p.DriveOfChunk(h, c) in FirstDrives(p, h, Min(nc, p.n))
  {
    hide DrivePool.DriveOfChunk;
    if c >= p.n {
      if WORD % p.n == 0 || WORD - h >= p.n {
        FirstRowIsAll(p, h);
        assert p.DriveOfChunk(h, c) in Below(p.n);
      } else {
        var j := c - WORD % p.n;
        ChunkAfterWrap(p, h, c, j);
        DivModUnique(0, p.n, 0, 0);
        assert j < p.n;
      }
    }
  }

  /** Exactly when opening the object opens every drive that its bytes are on. */
  lemma SegmentsHitOpenedDrivesIff(p: DrivePool, h: nat, tierBytes: nat)
    requires p.Valid() && p.s % DEVICE_BLOCK == 0 && h < WORD && 2 * p.n <= WORD && p.Chunks(tierBytes) <= WORD
    ensures AllOpened(p, h, tierBytes) <==> OpensEnough(p, h, p.Chunks(tierBytes))
  {
    hide DrivePool.DriveOfChunk, AlignUp;
    var nc := p.Chunks(tierBytes);
    assert OpenedDrives(p, h, tierBytes) == FirstDrives(p, h, Min(nc, p.n));
    if OpensEnough(p, h, nc) {
      forall off: nat | off < AlignUp(tierBytes, DEVICE_BLOCK) ensures p.DriveOf(h, off) in OpenedDrives(p, h,
          tierBytes) {
        LastChunk(p, tierBytes, off);
        ChunkOpened(p, h, nc, off / p.s);
      }
    } else {
      var c := Max(p.n, WORD - h + WORD % p.n);
      ChunkLeftOut(p, h);
      ChunkStart(p, tierBytes, c);
      assert p.DriveOf(h, c * p.s) == p.DriveOfChunk(h, c);
    }
  }

  /** Every chunk of a tier has a first byte. */
  lemma ChunkStart(p: DrivePool, tierBytes: nat, c: nat)
    requires p.Valid() && c < p.Chunks(tierBytes)
    ensures c * p.s / p.s == c && c * p.s < AlignUp(tierBytes, DEVICE_BLOCK)
  {
    hide AlignUp;
    DivModUnique(c * p.s, p.s, c, 0);
    AlignUpLeast(tierBytes, DEVICE_BLOCK);
    StartBelow(c, p.s, tierBytes);
  }

  lemma StartBelow(c: nat, s: nat, t: nat)
    requires s > 0 && c < (t + s - 1) / s
    ensures c * s < t
  {
    var q := (t + s - 1) / s;
    MulMono(c + 1, q, s);
    assert q * s <= t + s - 1 && (c + 1) * s == c * s + s;
  }

  /** Three drives, the largest hash and four chunks: the last one lies on a drive that is not opened. */
  lemma LeftOutExample()
    ensures var p := DrivePool(3, 4096);
            p.Valid() && !AllOpened(p, WORD - 1, 4 * 4096)
            && p.DriveOf(WORD - 1, 3 * 4096) == 2
  {
    SegmentsHitOpenedDrivesIff(DrivePool(3, 4096), WORD - 1, 4 * 4096);
  }
}
