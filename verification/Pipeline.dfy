/**
  One GET response as the event loop of src/goblin/net/stream_loop.cpp drives it: the protocol header,
  the pinned head sent zero-copy, the disk tail through one or two read lanes, and the trailer.

  `Conn` has the source's fields; its methods are the completion handlers. The kernel is the caller: it
  completes an operation in flight at any time and in any order, and may write into the part of a buffer
  that an outstanding read was given at any moment. Submissions succeed, and a read that succeeds brings at
  least what was wanted. Head and files are of one version, `obj` (EngineGets says when that is so). Ghost
  state records what has been handed to the peer (`wire`), what the disk reads delivered at each position of
  the object (`val`), and whether a send is in flight (`sending`).
*/
module Pipeline {
  import opened Arith
  import opened Collections
  import opened Environment
  import opened Layout
  import opened StripedIo
  import opened ReadPlan
  import opened PaddedReads

  datatype St = GetHeader | GetSendHead | GetStream | GetTrailer | Idle

  datatype Lane = Lane(len: nat, sent: nat, pending: nat, err: bool, ready: bool)

  const EAGAIN := -11

  const FREE := Lane(0, 0, 0, false, false)

  // ---------------------------------------------------------------- the window over the lanes

  ghost predicate Piece(b: seq<byte>, obj: seq<byte>, at: nat, len: nat) {
    len <= |b| && at + len <= |obj| && b[..len] == obj[at..at + len]
  }

  /** The lane bookkeeping of a connection, as a value. */
  datatype Win = Win(lane: seq<Lane>, n: nat, readLane: int, sendLane: int, fillI: nat, sendI: nat, planPos: nat,
                     sendPos: nat) {
    ghost predicate Shape() {
      && |lane| == 2 && n <= 2 && -1 <= readLane < n && -1 <= sendLane < n
      && (n > 0 ==> fillI < n && sendI < n)
    }

    ghost predicate Idle() {
      lane == [FREE, FREE] && readLane == -1 && sendLane == -1 && fillI == 0 && sendI == 0
    }

    /** The object position of lane `i`'s piece: pieces follow each other from `sendPos`, in lane order from `sendI`. */
    function PieceAt(i: nat): nat
      requires |lane| == 2 && sendI < 2
    {
      if i == sendI then sendPos else sendPos + lane[sendI].len
    }

    /** A lane is in use from the moment its piece is planned until its last byte is sent. */
    ghost predicate LaneOk(i: nat, cap: nat)
      requires Shape() && i < n
    {
      var l := lane[i];
      && l.len <= cap
      && (l.len == 0 ==> l == FREE)
      && (l.ready <==> l.len > 0 && i != readLane)
      && (l.pending > 0 <==> i == readLane)
      && (l.err ==> i == readLane)
      && (i == readLane ==> l.len > 0)
      && (i != sendLane ==> l.sent == 0)
      && (i == sendLane ==> i == sendI && l.ready && l.sent < l.len)
    }

    /** The pieces [sendPos, planPos) are in the lanes, oldest at `sendI`, and `fillI` is the lane after them. */
    ghost predicate Queue(getSize: nat)
      requires Shape()
    {
      && sendPos <= planPos <= getSize
      && (n == 0 ==> Idle() && sendPos == getSize)
      && (n == 1 ==> planPos == sendPos + lane[0].len)
      && (n == 2 ==>
            && planPos == sendPos + lane[0].len + lane[1].len
            && (lane[1 - sendI].len > 0 ==> lane[sendI].len > 0)
            && (fillI == sendI <==> (lane[0].len > 0 <==> lane[1].len > 0))
            && (readLane == sendI ==> lane[1 - sendI].len == 0))
    }

    /** A piece that has been read holds the object's bytes at its position. */
    ghost predicate Filled(i: nat, b: seq<byte>, obj: seq<byte>)
      requires Shape() && i < n
    {
      lane[i].ready ==> Piece(b, obj, PieceAt(i), lane[i].len)
    }

    ghost predicate Lanes(data: seq<seq<byte>>)
      requires Shape() && |data| == n
    {
      (n > 0 ==> LaneOk(0, |data[0]|)) && (n > 1 ==> LaneOk(1, |data[1]|))
    }

    ghost predicate Contents(data: seq<seq<byte>>, obj: seq<byte>)
      requires Shape() && |data| == n
    {
      (n > 0 ==> Filled(0, data[0], obj)) && (n > 1 ==> Filled(1, data[1], obj))
    }

    ghost predicate Ok(data: seq<seq<byte>>, obj: seq<byte>, getSize: nat) {
      Shape() && |data| == n && Lanes(data) && Queue(getSize) && Contents(data, obj)
    }

    /** Bytes of the piece being sent that have gone out. */
    function InLane(): nat
      requires |lane| == 2 && sendLane < 2
    {
      if sendLane >= 0 then lane[sendLane].sent else 0
    }

    // ------------------------------------------------------------ what the handlers do to it

    /** Plan `want` bytes into the fill lane; `segs` reads are issued. */
    function Planned(want: nat, segs: nat): Win
      requires |lane| == 2 && fillI < 2 && 0 < n
    {
      this.(lane := lane[fillI := Lane(want, 0, segs, false, segs == 0)],
            planPos := planPos + want, fillI := (fillI + 1) % n, readLane := if segs == 0 then readLane else fillI)
    }

    /** The read batch is complete. */
    function ReadDone(): Win
      requires |lane| == 2 && 0 <= readLane < 2
    {
      this.(lane := lane[readLane := lane[readLane].(pending := 0, ready := true)], readLane := -1)
    }

    /** The piece at `sendI` starts to be sent. */
    function SendStarted(): Win
      requires |lane| == 2 && sendI < 2
    {
      this.(sendLane := sendI, lane := lane[sendI := lane[sendI].(sent := 0)])
    }

    /** The piece is fully sent and its lane is free again. */
    function PieceSent(): Win
      requires |lane| == 2 && 0 <= sendLane < 2 && 0 < n
    {
      this.(lane := lane[sendLane := FREE], sendPos := sendPos + lane[sendLane].len, sendLane := -1,
            sendI := (sendI + 1) % n)
    }
  }

  lemma PlannedOk(w: Win, data: seq<seq<byte>>, data': seq<seq<byte>>, obj: seq<byte>, getSize: nat, want: nat,
                  segs: nat)
    requires w.Ok(data, obj, getSize) && w.readLane == -1 && w.planPos + want <= getSize && w.n > 0
    requires !w.lane[w.fillI].ready && |data'| == |data| && 0 < want <= |data'[w.fillI]|
    requires w.n == 2 ==> data'[1 - w.fillI] == data[1 - w.fillI]
    requires segs == 0 ==> Piece(data'[w.fillI], obj, w.planPos, want)
    ensures w.lane[w.fillI] == FREE && w.Planned(want, segs).Ok(data', obj, getSize)
  {
    hide Piece;
  }

  lemma ReadDoneOk(w: Win, data: seq<seq<byte>>, obj: seq<byte>, getSize: nat)
    requires w.Ok(data, obj, getSize) && w.readLane >= 0 && !w.lane[w.readLane].err
    requires Piece(data[w.readLane], obj, w.PieceAt(w.readLane), w.lane[w.readLane].len)
    ensures w.ReadDone().Ok(data, obj, getSize)
  {
    hide Piece;
  }

  /** Buffers matter only to lanes whose piece is ready. */
  lemma DataOk(w: Win, data: seq<seq<byte>>, data': seq<seq<byte>>, obj: seq<byte>, getSize: nat)
    requires w.Ok(data, obj, getSize) && w.readLane >= 0 && |data'| == |data|
             && |data'[w.readLane]| == |data[w.readLane]|
    requires w.n == 2 ==> data'[1 - w.readLane] == data[1 - w.readLane]
    ensures w.Ok(data', obj, getSize)
  {
    hide Piece;
  }

  /** What the reads deliver at the position being read matters to no piece that is ready. */
  lemma ValueOk(w: Win, data: seq<seq<byte>>, obj: seq<byte>, obj': seq<byte>, getSize: nat)
    requires w.Ok(data, obj, getSize) && w.readLane >= 0 && Differ(obj, obj', w.PieceAt(w.readLane), w.planPos)
    ensures w.Ok(data, obj', getSize)
  {
    hide Piece, Differ;
    WinFacts(w, data, obj, getSize);
    forall i: nat | i < w.n && w.lane[i].ready ensures Piece(data[i], obj', w.PieceAt(i), w.lane[i].len) {
      PieceKept(data[i], obj, obj', w.PieceAt(i), w.lane[i].len, w.PieceAt(w.readLane), w.planPos);
    }
  }

  /** The same but for positions in [from, upTo). */
  ghost predicate Differ(a: seq<byte>, b: seq<byte>, from: nat, upTo: nat) {
    |a| == |b| && forall k :: 0 <= k < |a| && !(from <= k < upTo) ==> a[k] == b[k]
  }

  lemma PieceKept(b: seq<byte>, obj: seq<byte>, obj': seq<byte>, at: nat, len: nat, from: nat, upTo: nat)
    requires Piece(b, obj, at, len) && Differ(obj, obj', from, upTo) && (at + len <= from || upTo <= at)
    ensures Piece(b, obj', at, len)
  {
    assert obj'[at..at + len] == obj[at..at + len];
  }

  lemma SendStartedOk(w: Win, data: seq<seq<byte>>, obj: seq<byte>, getSize: nat)
    requires w.Ok(data, obj, getSize) && w.n > 0 && w.sendLane == -1 && w.lane[w.sendI].ready
    ensures w.SendStarted().Ok(data, obj, getSize)
  {
    hide Piece;
  }

  lemma PieceSentOk(w: Win, data: seq<seq<byte>>, obj: seq<byte>, getSize: nat)
    requires w.Ok(data, obj, getSize) && w.sendLane >= 0
    ensures w.PieceSent().Ok(data, obj, getSize)
  {
    hide Piece;
  }

  /** A read of the batch that is not the last, and a send that is short, change only the counters. */
  lemma CountersOk(w: Win, w': Win, data: seq<seq<byte>>, obj: seq<byte>, getSize: nat, i: nat)
    requires w.Ok(data, obj, getSize) && i < w.n
    requires |w'.lane| == 2 && w' == w.(lane := w.lane[i := w'.lane[i]])
    requires var l, l' := w.lane[i], w'.lane[i];
             || (i == w.readLane && l'.pending > 0 && l' == l.(pending := l'.pending, err := l'.err))
             || (i == w.sendLane && l'.sent < l.len && l' == l.(sent := l'.sent))
    ensures w'.Ok(data, obj, getSize)
  {
    hide Piece;
  }

  lemma WinFacts(w: Win, data: seq<seq<byte>>, obj: seq<byte>, getSize: nat)
    requires w.Ok(data, obj, getSize)
    ensures w.Shape() && |data| == w.n && w.sendPos <= w.planPos <= getSize
            && (w.sendPos == getSize ==> w.readLane == -1)
    ensures w.sendLane >= 0 ==>
              var l := w.lane[w.sendLane];
              w.sendLane == w.sendI && w.sendLane != w.readLane && l.ready && l.sent < l.len <= |data[w.sendLane]|
                && w.sendPos + l.len <= getSize
              && Piece(data[w.sendLane], obj, w.sendPos, l.len)
    ensures w.readLane >= 0 ==>
              && w.lane[w.readLane].pending > 0 && 0 < w.lane[w.readLane].len <= |data[w.readLane]|
              && w.PieceAt(w.readLane) + w.lane[w.readLane].len == w.planPos
                 && w.sendPos + w.InLane() <= w.PieceAt(w.readLane)
  {
    hide Piece;
  }

  lemma PieceSlice(b: seq<byte>, obj: seq<byte>, at: nat, len: nat, sent: nat, res: nat)
    requires Piece(b, obj, at, len) && sent + res <= len
    ensures b[sent..sent + res] == obj[at + sent..at + sent + res]
  {
    SubSlice(b, 0, len, sent, sent + res);
    SubSlice(obj, at, at + len, sent, sent + res);
  }

  lemma SubSlice(s: seq<byte>, a: nat, b: nat, c: nat, d: nat)
    requires a <= b <= |s| && c <= d <= b - a
    ensures s[a..b][c..d] == s[a + c..a + d]
  {
    assert forall k :: 0 <= k < d - c ==> s[a..b][c..d][k] == s[a + c..a + d][k];
  }

  /**
    With pieces left, a lane is sending, being read, ready to send or free to fill: there is always something to
    start or to wait for.
  */
  lemma NeverStuck(w: Win, data: seq<seq<byte>>, obj: seq<byte>, getSize: nat)
    requires w.Ok(data, obj, getSize) && w.sendPos < getSize && w.sendLane == -1 && w.readLane == -1
    ensures w.n > 0 && (w.lane[w.sendI].ready || (w.planPos < getSize && !w.lane[w.fillI].ready))
  {
  }

  // ---------------------------------------------------------------- the batch of reads in flight

  /** The files hold the object. */
  ghost predicate OnFiles(o: Object, ssd: seq<File>, hdd: seq<File>, obj: seq<byte>)
    requires o.Valid() && |ssd| == o.ssdPool.n && |hdd| == o.hddPool.n
  {
    forall pos: nat {:trigger ObjAt(o, ssd, hdd, pos)} :: pos < |obj| ==> ObjAt(o, ssd, hdd, pos) == Some(obj[pos])
  }

  /** The reads that are back have put the object's bytes in their places. */
  ghost predicate Back(b: Batch, buf: seq<byte>, left: set<nat>)
    requires b.Valid()
  {
    forall i {:trigger b.rs[i]} :: 0 <= i < |b.rs| && i !in left ==>
        Filled(b.o, b.ssd, b.hdd, b.off, buf, b.rs[i].out, b.rs[i].out + b.rs[i].len)
  }

  /**
    A piece being read: `left` are the outstanding reads, `pending` their number. If the piece is safe
    to round up, what was copied from the head and what the reads brought is the object's.
  */
  ghost predicate Reading(b: Batch, buf: seq<byte>, obj: seq<byte>, left: set<nat>, pending: nat, err: bool,
                          safe: bool) {
    && b.Valid() && |buf| == b.bufLen && b.off + b.upTo <= |obj| && |left| == pending
       && (forall i :: i in left ==> i < |b.rs|)
    && (safe ==>
        NoSpill(b.rs, b.bufLen) && buf[..b.from] == obj[b.off..b.off + b.from]
        && (!err ==> Back(b, buf, left)))
  }

  lemma ReadingStarts(b: Batch, buf: seq<byte>, obj: seq<byte>, safe: bool)
    requires b.Valid() && |buf| == b.bufLen && b.off + b.upTo <= |obj| && buf[..b.from] == obj[b.off..b.off + b.from]
    requires safe ==> NoSpill(b.rs, b.bufLen)
    ensures Reading(b, buf, obj, Below(|b.rs|), |b.rs|, false, safe)
  {
  }

  /** What a read may write is apart from what was copied and from what other reads want. */
  lemma OutOfTheWay(b: Batch, i: nat, k: nat)
    requires b.Valid() && NoSpill(b.rs, b.bufLen) && i < |b.rs| && k < |b.rs| && i != k
    ensures b.from <= b.rs[i].out
    ensures b.rs[i].out + Rounded(b.rs[i], b.bufLen) <= b.rs[k].out || b.rs[k].out + b.rs[k].len <= b.rs[i].out
    ensures b.rs[k].out + b.rs[k].len <= b.upTo
  {
    hide Covers, Stored;
    CoversAt(b.o, b.off, b.from, b.upTo, b.rs, i);
    CoversAt(b.o, b.off, b.from, b.upTo, b.rs, k);
    Apart(b.o, b.off, b.from, b.upTo, b.rs, b.bufLen, i, k);
  }

  lemma OthersKept(b: Batch, buf: seq<byte>, buf': seq<byte>, left: set<nat>, i: nat)
    requires b.Valid() && NoSpill(b.rs, b.bufLen) && Back(b, buf, left) && i in left && i < |b.rs|
             && |buf| == |buf'| == b.bufLen
    requires forall k :: 0 <= k < |buf| && !(b.rs[i].out <= k < b.rs[i].out + Rounded(b.rs[i], b.bufLen)) ==>
               buf'[k] == buf[k]
    ensures Back(b, buf', left)
  {
    hide Covers, Stored, Rounded, NoSpill;
    forall k {:trigger b.rs[k]} | 0 <= k < |b.rs| && k !in left
      ensures Filled(b.o, b.ssd, b.hdd, b.off, buf', b.rs[k].out, b.rs[k].out + b.rs[k].len)
    {
      OutOfTheWay(b, i, k);
      FilledKept(b.o, b.ssd, b.hdd, b.off, buf, buf', b.rs[k].out, b.rs[k].out + b.rs[k].len);
    }
  }

  lemma FromBelow(b: Batch, i: nat)
    requires b.Valid() && i < |b.rs|
    ensures b.from <= b.rs[i].out && b.rs[i].out + b.rs[i].len <= b.upTo && ReadAt(b.o, b.off + b.rs[i].out, b.rs[i])
  {
    hide Covers, Stored, ReadAt;
    CoversAt(b.o, b.off, b.from, b.upTo, b.rs, i);
  }

  /** The kernel writes something where an outstanding read was to put its bytes. */
  lemma ReadingWrites(b: Batch, buf: seq<byte>, buf': seq<byte>, obj: seq<byte>, left: set<nat>, pending: nat,
                      err: bool, safe: bool, i: nat)
    requires Reading(b, buf, obj, left, pending, err, safe) && i in left && |buf'| == |buf|
    requires forall k :: 0 <= k < |buf| && !(b.rs[i].out <= k < b.rs[i].out + Rounded(b.rs[i], b.bufLen)) ==>
               buf'[k] == buf[k]
    ensures Reading(b, buf', obj, left, pending, err, safe)
  {
    hide Covers, Stored, Rounded, NoSpill, Filled;
    FromBelow(b, i);
    if safe {
      assert buf'[..b.from] == buf[..b.from];
      if !err {
        OthersKept(b, buf, buf', left, i);
      }
    }
  }

  /** Read `i` is back, with its bytes in the buffer or with an error. */
  lemma ReadingBack(b: Batch, buf: seq<byte>, obj: seq<byte>, left: set<nat>, pending: nat, err: bool, safe: bool,
                    i: nat, failed: bool)
    requires Reading(b, buf, obj, left, pending, err, safe) && i in left
    requires failed || !safe || Filled(b.o, b.ssd, b.hdd, b.off, buf, b.rs[i].out, b.rs[i].out + b.rs[i].len)
    ensures pending > 0 && Reading(b, buf, obj, left - {i}, pending - 1, err || failed, safe)
  {
    hide Covers, Stored, NoSpill, Filled;
    assert |left - {i}| == |left| - 1;
  }

  /** Without the promise that the piece is the object's, less is kept. */
  lemma ReadingCut(b: Batch, buf: seq<byte>, obj: seq<byte>, left: set<nat>, pending: nat, err: bool, safe: bool)
    requires Reading(b, buf, obj, left, pending, err, safe)
    ensures Reading(b, buf, obj, left, pending, err, false)
  {
  }

  /** All reads are back and none failed: the piece is the object's. */
  lemma ReadingDone(b: Batch, buf: seq<byte>, obj: seq<byte>, left: set<nat>)
    requires Reading(b, buf, obj, left, 0, false, true) && OnFiles(b.o, b.ssd, b.hdd, obj)
    ensures Piece(buf, obj, b.off, b.upTo)
  {
    hide Covers, Stored, NoSpill, ObjAt;
    assert left == {};
    AllFilled(b.o, b.ssd, b.hdd, b.off, buf, b.from, b.upTo, b.rs);
    forall k | 0 <= k < b.upTo ensures buf[k] == obj[b.off + k] {
      if k < b.from {
        assert buf[k] == buf[..b.from][k];
      } else {
        assert ObjAt(b.o, b.ssd, b.hdd, b.off + k) == Some(buf[k]);
      }
    }
    assert buf[..b.upTo] == obj[b.off..b.off + b.upTo];
  }

  lemma NothingLeft(o: Object, off: nat, from: nat, upTo: nat)
    requires o.Valid() && Covers(o, off, from, upTo, [])
    ensures from == upTo
  {
  }

  /** Bytes put in place. */
  function Patched(s: seq<byte>, at: nat, b: seq<byte>): (r: seq<byte>)
    requires at + |b| <= |s|
    ensures |r| == |s| && r[at..at + |b|] == b && r[..at] == s[..at] && r[at + |b|..] == s[at + |b|..]
  {
    s[..at] + b + s[at + |b|..]
  }

  lemma PatchedDiffers(s: seq<byte>, at: nat, b: seq<byte>)
    requires at + |b| <= |s|
    ensures Differ(s, Patched(s, at, b), at, at + |b|)
  {
  }

  lemma PieceIs(b: seq<byte>, obj: seq<byte>, at: nat, len: nat)
    ensures Piece(b, obj, at, len) <==> len <= |b| && at + len <= |obj| && b[..len] == obj[at..at + len]
  {
  }

  lemma PrefixKept(s: seq<byte>, t: seq<byte>, at: nat, from: nat, pos: nat)
    requires from <= pos <= at <= |s| && |s| == |t| && s[..at] == t[..at]
    ensures s[from..pos] == t[from..pos] && s[..pos] == t[..pos]
  {
    assert s[from..pos] == s[..at][from..pos] && s[..pos] == s[..at][..pos];
  }

  lemma PatchedSame(s: seq<byte>, at: nat, b: seq<byte>)
    requires at + |b| <= |s| && b == s[at..at + |b|]
    ensures Patched(s, at, b) == s
  {
  }

  /**
    What a completed piece makes of the delivered value `val`: nothing changes but the piece, and a safe piece
    is the object's.
  */
  lemma PieceDelivered(w: Win, data: seq<seq<byte>>, val: seq<byte>, obj: seq<byte>, getSize: nat, b: Batch,
                       left: set<nat>, i: nat, safe: bool)
    requires w.Ok(data, val, getSize) && w.readLane >= 0 && !w.lane[w.readLane].err && getSize <= |val| == |obj|
    requires b.off == w.PieceAt(w.readLane) && b.upTo == w.lane[w.readLane].len
    requires Reading(b, data[w.readLane], obj, left, 1, false, safe) && i in left
    requires OnFiles(b.o, b.ssd, b.hdd, obj)
    requires safe ==> val == obj && Filled(b.o, b.ssd, b.hdd, b.off, data[w.readLane], b.rs[i].out,
                                           b.rs[i].out + b.rs[i].len)
    ensures b.upTo <= |data[w.readLane]| && w.sendPos + w.InLane() <= b.off && b.off + b.upTo == w.planPos <= |val|
    ensures var v := Patched(val, b.off, data[w.readLane][..b.upTo]);
            w.ReadDone().Ok(data, v, getSize) && (safe ==> v == obj)
  {
    hide Win.Ok, Piece, Reading, OnFiles, Filled, Batch.Valid, Patched;
    WinFacts(w, data, val, getSize);
    var buf := data[w.readLane];
    var v := Patched(val, b.off, buf[..b.upTo]);
    PieceIs(buf, v, b.off, b.upTo);
    PatchedDiffers(val, b.off, buf[..b.upTo]);
    ValueOk(w, data, val, v, getSize);
    ReadDoneOk(w, data, v, getSize);
    ReadingBack(b, buf, obj, left, 1, false, safe, i, false);
    if safe {
      ReadingDone(b, buf, obj, left - {i});
      PieceIs(buf, obj, b.off, b.upTo);
      PatchedSame(obj, b.off, buf[..b.upTo]);
    }
  }

  /** A read that brings only the first `got` bytes, as far as its file has them. */
  method ReadShort(f: File, r: Read, buf: array<byte>, got: nat)
    requires got <= r.len && r.out + r.len <= buf.Length
    modifies buf
    ensures forall k :: 0 <= k < buf.Length && !(r.out <= k < r.out + got) ==> buf[k] == old(buf[k])
    ensures forall k {:trigger buf[k]} :: r.out <= k < r.out + got && r.fileOff + (k - r.out) in f ==>
              buf[k] == f[r.fileOff + (k - r.out)]
  {
    for j := 0 to got
      invariant forall k :: 0 <= k < buf.Length && !(r.out <= k < r.out + j) ==> buf[k] == old(buf[k])
      invariant forall k {:trigger buf[k]} :: r.out <= k < r.out + j && r.fileOff + (k - r.out) in f ==>
                  buf[k] == f[r.fileOff + (k - r.out)]
    {
      if r.fileOff + j in f {
        buf[r.out + j] := f[r.fileOff + j];
      }
    }
  }

  // ---------------------------------------------------------------- the connection

  class Conn {
    const obj: seq<byte>             // the version the open read stream serves
    const header: seq<byte>
    const trailer: seq<byte>         // empty for HTTP
    const start: nat                 // the range asked for is [start, getSize)
    const getSize: nat
    const pinLen: nat                // bytes of the pinned head; 0 when nothing was pinned
    const bufs: seq<array<byte>>     // the I/O buffers borrowed for this GET: none, one or two
    const bufLen: nat                // the size all I/O buffers have
    const ramHead: nat               // how much of an object the RAM head holds
    const o: Object                  // layout and striping of the open object
    const ssd: seq<File>             // its open files
    const hdd: seq<File>

    var state: St
    var closing: bool
    var inflight: nat
    var out: seq<byte>
    var outSent: nat
    var getPos: nat
    var pinned: bool
    var headSent: nat
    var lane: seq<Lane>
    var nLanes: nat
    var readLane: int
    var sendLane: int
    var fillI: nat
    var sendI: nat
    var planPos: nat
    var sendPos: nat

    var batch: seq<Read>             // the reads of the piece being read
    ghost var copied: nat            // how much of that piece the resident head supplied
    var left: set<nat>               // which of its reads are outstanding
    ghost var wire: seq<byte>        // every byte the peer was sent, in order
    ghost var sending: bool          // a send is in flight
    ghost var val: seq<byte>         // the object as the disk reads delivered it
    ghost var cut: bool              // a read came back with less than was wanted

    // -------------------------------------------------------------- invariants

    function View(): Win
      reads this
    {
      Win(lane, nLanes, readLane, sendLane, fillI, sendI, planPos, sendPos)
    }

    ghost function Data(): seq<seq<byte>>
      reads bufs
    {
      if |bufs| == 0 then [] else if |bufs| == 1 then [bufs[0][..]] else [bufs[0][..], bufs[1][..]]
    }

    /** What never changes during a GET. */
    ghost predicate Fixed() {
      && start <= getSize <= |obj| && pinLen <= |obj| && |header| > 0
      && |bufs| <= 2 && (|bufs| == 2 ==> bufs[0] != bufs[1])
      && (|bufs| == 0 ==> getSize <= pinLen)
      && (|bufs| > 0 ==> OpenTail())
    }

    /** A tail to read: open files that hold the object, and buffers of one size to read it into. */
    ghost predicate OpenTail() {
      && o.Valid() && o.layout.size == |obj| && |ssd| == o.ssdPool.n && |hdd| == o.hddPool.n
         && OnFiles(o, ssd, hdd, obj)
      && ramHead % DEVICE_BLOCK == 0 && ramHead <= o.layout.ssdBytes
      && bufLen > 0 && forall i :: 0 <= i < |bufs| ==> bufs[i].Length == bufLen
    }

    /** Where the disk tail starts: behind the pinned head if the range reaches into it. */
    function TailStart(): (r: nat)
      ensures start <= getSize ==> start <= r <= getSize
    {
      if start < Min(pinLen, getSize) then Min(pinLen, getSize) else start
    }

    /** No piece of the tail can be harmed by rounding its reads up. */
    ghost predicate Safe()
      requires Fixed()
    {
      |bufs| > 0 ==> SafeFrom(o, TailStart(), getSize, bufLen)
    }

    /** So far nothing stands in the way of the tail being the object's. */
    ghost predicate Right()
      requires Fixed()
      reads this`cut
    {
      Safe() && !cut
    }

    /** The value as it was delivered, up to object position `pos`, after its header. */
    ghost function Upto(pos: nat): seq<byte>
      requires start <= pos <= |val|
      reads this`val
    {
      header + val[start..pos]
    }

    /** What the whole response is, by what was delivered. */
    ghost function Delivered(): seq<byte>
      requires Fixed() && |val| == |obj|
      reads this`val
    {
      Upto(getSize) + trailer
    }

    /** What the whole response should be. */
    ghost function Response(): seq<byte>
      requires Fixed()
    {
      header + obj[start..getSize] + trailer
    }

    /** Before the tail nothing comes from disk; in a safe tail what comes is the object's. */
    ghost predicate ValueOkSoFar()
      requires Fixed()
      reads this`val, this`cut
    {
      |val| == |obj| && val[..TailStart()] == obj[..TailStart()] && (Right() ==> val == obj)
    }

    ghost predicate InHeader()
      requires Fixed()
      reads this
    {
      View().Idle() && nLanes == |bufs| && out == header && outSent < |out| && getPos == start
        && wire == header[..outSent] && pinned == (pinLen > 0) && val == obj
    }

    ghost predicate InHead()
      requires Fixed()
      reads this
    {
      View().Idle() && nLanes == |bufs| && pinned && start <= headSent < Min(pinLen, getSize) && val == obj
        && wire == Upto(headSent)
    }

    ghost predicate Streaming()
      requires Fixed()
      reads this, bufs
    {
      && !pinned && ValueOkSoFar() && View().Ok(Data(), val, getSize) && Ahead()
      && TailStart() <= sendPos && sendPos + View().InLane() <= getSize && wire == Upto(sendPos + View().InLane())
    }

    /** What is not delivered yet: the piece being read, and the rest. */
    ghost predicate Ahead()
      requires Fixed() && View().Ok(Data(), val, getSize)
      reads this, bufs
    {
      && |val| == |obj| && val[planPos..] == obj[planPos..]
      && (Safe() && |bufs| > 0 ==> SafeFrom(o, planPos, getSize, bufLen))
      && (readLane >= 0 ==> Reading(BatchNow(), Data()[readLane], obj, left, lane[readLane].pending, lane[readLane].err,
                                    Right()))
    }

    /** The piece being read. */
    ghost function BatchNow(): Batch
      requires |lane| == 2 && 0 <= readLane < 2 && lane[readLane].len <= planPos
      reads this
    {
      Batch(o, ssd, hdd, planPos - lane[readLane].len, copied, lane[readLane].len, batch, bufLen)
    }

    ghost predicate InTrailer()
      requires Fixed()
      reads this
    {
      && !pinned && ValueOkSoFar() && out == trailer && outSent < |out| && |lane| == 2 && readLane == -1
         && sendLane == -1
      && wire == Upto(getSize) + trailer[..outSent]
    }

    ghost predicate Finished()
      requires Fixed()
      reads this
    {
      !pinned && ValueOkSoFar() && View().Idle() && nLanes == 0 && wire == Delivered()
    }

    /** Per state: where the transfer is, and exactly what has been sent. */
    ghost predicate Progress()
      requires Fixed()
      reads this, bufs
    {
      match state
      case GetHeader => InHeader()
      case GetSendHead => InHead()
      case GetStream => Streaming()
      case GetTrailer => InTrailer()
      case Idle => Finished()
    }

    /** A send is due or in flight. */
    predicate Sends()
      reads this
    {
      if state.GetStream? then sendLane >= 0 else !state.Idle?
    }

    /** What is in flight: at most one send, and one batch of reads into one lane. */
    ghost predicate Flight()
      reads this
    {
      && |lane| == 2 && readLane < 2
      && inflight == (if sending then 1 else 0) + (if readLane >= 0 then lane[readLane].pending else 0)
      && (sending <==> Sends())
    }

    /** An open connection, between the statements of a handler. */
    ghost predicate Steady()
      reads this, bufs
    {
      !closing && Fixed() && Progress() && Flight()
    }

    /** An open connection between events: unless its response is complete, an operation is in flight. */
    ghost predicate Valid()
      reads this, bufs
    {
      Steady() && (!state.Idle? ==> inflight > 0)
    }

    // -------------------------------------------------------------- begin_get

    /** A hit: lanes are borrowed when a tail remains behind the pinned head, and the header is submitted. */
    constructor (obj: seq<byte>, o: Object, ssd: seq<File>, hdd: seq<File>, ramHead: nat, header: seq<byte>,
                 trailer: seq<byte>,
                 start: nat, getSize: nat, pinLen: nat, bufs: seq<array<byte>>, bufLen: nat)
      requires start <= getSize <= |obj| && pinLen <= |obj| && |header| > 0
      requires |bufs| <= 2 && (|bufs| == 2 ==> bufs[0] != bufs[1]) && bufLen > 0 && forall i :: 0 <= i < |bufs| ==>
                 bufs[i].Length == bufLen
      requires if |bufs| == 0 then |obj| <= pinLen
               else
                 && o.Valid() && o.layout.size == |obj| && |ssd| == o.ssdPool.n && |hdd| == o.hddPool.n
                    && OnFiles(o, ssd, hdd, obj)
                 && ramHead % DEVICE_BLOCK == 0 && ramHead <= o.layout.ssdBytes
      ensures Valid() && state == GetHeader && wire == [] && !cut
      ensures this.obj == obj && this.header == header && this.trailer == trailer && this.start == start
              && this.getSize == getSize && this.pinLen == pinLen
      ensures this.bufs == bufs && this.bufLen == bufLen && this.o == o
    {
      this.obj, this.header, this.trailer, this.start, this.getSize, this.pinLen, this.bufs := obj, header, trailer,
        start, getSize, pinLen, bufs;
      this.o, this.ssd, this.hdd, this.ramHead, this.bufLen := o, ssd, hdd, ramHead, bufLen;
      state, closing, out, outSent := GetHeader, false, header, 0;
      getPos, pinned, headSent := start, pinLen > 0, 0;
      lane, nLanes := [FREE, FREE], |bufs|;
      readLane, sendLane, fillI, sendI, planPos, sendPos := -1, -1, 0, 0, 0, 0;
      inflight := 1;
      batch, copied, left := [], 0, {};
      wire, sending, val, cut := [], true, obj, false;
    }

    // -------------------------------------------------------------- submissions

    /** Submit a send unless the connection is closing. */
    method Submit()
      requires !sending
      modifies this`inflight, this`sending
      ensures sending == !closing && inflight == old(inflight) + (if closing then 0 else 1)
    {
      if !closing {
        inflight := inflight + 1;
        sending := true;
      }
    }

    method ReleaseLanes()
      modifies this`lane, this`nLanes, this`readLane, this`sendLane, this`fillI, this`sendI
      ensures View().Idle() && nLanes == 0
    {
      lane, nLanes, readLane, sendLane, fillI, sendI := [FREE, FREE], 0, -1, -1, 0, 0;
    }

    // -------------------------------------------------------------- the stream

    /** Plan the next piece into the fill lane; either it is all head and ready at once, or a batch of reads starts. */
    method PlanLaneRead() returns (want: nat, segs: nat)
      requires Fixed() && View().Ok(Data(), val, getSize) && Ahead() && readLane == -1 && planPos < getSize
      requires nLanes > 0 && !lane[fillI].ready && fillI != sendLane
      modifies this`lane, this`planPos, this`fillI, this`readLane, this`inflight, this`batch, this`copied, this`left,
               bufs
      ensures want > 0 && View() == old(View()).Planned(want, segs) && View().Ok(Data(), val, getSize) && Ahead()
      ensures inflight == old(inflight) + segs && old(lane[fillI]) == FREE
    {
      hide Data, Win.Ok, Piece, SafeFrom, Safe, Reading, Fixed, Ahead;
      ghost var w, data, at := View(), Data(), planPos;
      WinFacts(w, data, val, getSize);
      want := PlanBatch();
      segs := |batch|;
      ghost var data' := Data();
      PlannedOk(w, data, data', val, getSize, want, segs);
      FillLane(want, segs);
      PlannedAhead(at, want);
    }

    /** The planned piece takes the fill lane. */
    method FillLane(want: nat, segs: nat)
      requires |lane| == 2 && fillI < 2 && 0 < nLanes && readLane == -1
      modifies this`lane, this`planPos, this`fillI, this`readLane, this`inflight
      ensures View() == old(View()).Planned(want, segs) && inflight == old(inflight) + segs
      ensures readLane >= 0 ==>
              segs > 0 && readLane == old(fillI)
              && lane[readLane] == Lane(want, 0, segs, false, false)
    {
      if segs > 0 {
        inflight := inflight + segs;
        readLane := fillI;
      }
      lane := lane[fillI := Lane(want, 0, segs, false, segs == 0)];
      planPos := planPos + want;
      fillI := (fillI + 1) % nLanes;
    }

    /** The reads of the next piece, for the fill lane. */
    method PlanBatch() returns (want: nat)
      requires Fixed() && View().Ok(Data(), val, getSize) && Ahead() && planPos < getSize && fillI < nLanes
      modifies this`batch, this`copied, this`left, bufs
      ensures |val| == |obj| && val[planPos..] == obj[planPos..] && |Data()| == |old(Data())| == |bufs| == nLanes
      ensures |bufs| == 2 ==> Data()[1 - fillI] == old(Data())[1 - fillI]
      ensures 0 < want <= |Data()[fillI]| && planPos + want <= getSize
      ensures Safe() ==> SafeFrom(o, planPos + want, getSize, bufLen)
      ensures left == Below(|batch|) && Reading(Batch(o, ssd, hdd, planPos, copied, want, batch, bufLen), Data()[fillI],
                                                obj, left, |batch|, false, Right())
      ensures batch == [] ==> Piece(Data()[fillI], val, planPos, want)
    {
      hide Data, Win.Ok, Piece, SafeFrom, Safe, Reading, OnFiles, OpenTail, Ahead, Covers, Below;
      WinFacts(View(), Data(), val, getSize);
      assert |Data()| == |bufs| by {
        DataPerBuffer();
      }
      TailIsOpen();
      AheadFacts();
      want := Min(bufs[fillI].Length, getSize - planPos);
      ghost var cp;
      cp, batch := Plan(fillI, planPos, want);
      copied, left := cp, Below(|batch|);
      PlanFacts(planPos, want, cp, batch, Data()[fillI]);
    }

    lemma AheadFacts()
      requires Fixed() && View().Ok(Data(), val, getSize) && Ahead()
      ensures |val| == |obj| && val[planPos..] == obj[planPos..]
              && (Safe() && |bufs| > 0 ==> SafeFrom(o, planPos, getSize, bufLen))
    {
      hide Win.Ok, SafeFrom, Reading, OpenTail, Safe;
    }

    lemma PlannedAhead(at: nat, want: nat)
      requires Fixed() && View().Ok(Data(), val, getSize) && |bufs| > 0 && planPos == at + want <= getSize
               && |val| == |obj| && val[at..] == obj[at..]
      requires Safe() ==> SafeFrom(o, planPos, getSize, bufLen)
      requires readLane >= 0 ==>
                 && lane[readLane] == Lane(want, 0, |batch|, false, false) && left == Below(|batch|)
                 && Reading(Batch(o, ssd, hdd, at, copied, want, batch, bufLen), Data()[readLane], obj, left, |batch|,
                            false, Right())
      ensures Ahead()
    {
      hide Win.Ok, SafeFrom, Reading, OpenTail, Safe;
      WinFacts(View(), Data(), val, getSize);
      assert val[planPos..] == val[at..][want..] == obj[at..][want..] == obj[planPos..];
    }

    lemma DataPerBuffer()
      requires |bufs| <= 2
      ensures |Data()| == |bufs|
    {
    }

    /** The files and buffers that a held lane comes with. */
    lemma TailIsOpen()
      requires Fixed() && |bufs| > 0
      ensures o.Valid() && o.layout.size == |obj| && |ssd| == o.ssdPool.n && |hdd| == o.hddPool.n && bufLen > 0
              && |Data()| == |bufs|
      ensures forall i :: 0 <= i < |bufs| ==> bufs[i].Length == bufLen
      ensures forall i {:trigger Data()[i]} :: 0 <= i < |bufs| ==> |Data()[i]| == bufLen
    {
    }

    /**
      A planned piece as a batch of reads: valid, safe to round up if the tail is, and ready at once when there
      is nothing to read.
    */
    lemma PlanFacts(at: nat, want: nat, cp: nat, rs: seq<Read>, buf: seq<byte>)
      requires Fixed() && |bufs| > 0 && at < getSize && |val| == |obj| && val[at..] == obj[at..] && |buf| == bufLen
      requires want == Min(bufLen, getSize - at) && cp <= want && Covers(o, at, cp, want, rs)
      requires cp == 0 || cp == want || (at + cp) % DEVICE_BLOCK == 0
      requires buf[..cp] == obj[at..at + cp]
      requires Safe() ==> SafeFrom(o, at, getSize, bufLen)
      ensures Safe() ==> SafeFrom(o, at + want, getSize, bufLen)
      ensures Reading(Batch(o, ssd, hdd, at, cp, want, rs, bufLen), buf, obj, Below(|rs|), |rs|, false, Right())
      ensures rs == [] ==> Piece(buf, val, at, want)
    {
      hide Covers, ObjAt;
      var b := Batch(o, ssd, hdd, at, cp, want, rs, bufLen);
      DrivesInRange(at, want, cp, rs);
      if Safe() {
        SafePiece(o, at, cp, want, rs, bufLen);
      }
      ReadingStarts(b, buf, obj, Right());
      if rs == [] {
        NothingLeft(o, at, cp, want);
        assert val[at..at + want] == val[at..][..want] == obj[at..][..want] == obj[at..at + want];
      }
    }

    lemma DrivesInRange(at: nat, want: nat, cp: nat, rs: seq<Read>)
      requires Fixed() && |bufs| > 0 && Covers(o, at, cp, want, rs)
      ensures forall i {:trigger rs[i]} :: 0 <= i < |rs| ==> rs[i].drive < o.PoolOf(rs[i].tier).n
    {
      hide Covers, ReadAt, OnFiles;
      forall i {:trigger rs[i]} | 0 <= i < |rs| ensures rs[i].drive < o.PoolOf(rs[i].tier).n {
        CoversAt(o, at, cp, want, rs, i);
        ReadHolds(o, ssd, hdd, at + rs[i].out, rs[i], 0);
      }
    }

    /**
      The planner: the resident head, when the index has one now, is copied, and the rest of the piece becomes
      disk reads.
    */
    method Plan(i: nat, at: nat, want: nat) returns (ghost cp: nat, rs: seq<Read>)
      requires Fixed() && i < |bufs| && at + want <= getSize && 0 < want <= bufLen
      modifies bufs[i]
      ensures |Data()| == |old(Data())| && forall j {:trigger Data()[j]} :: 0 <= j < |bufs| ==>
                |Data()[j]| == bufLen && (j != i ==> Data()[j] == old(Data())[j])
      ensures cp <= want && Covers(o, at, cp, want, rs) && (cp == 0 || cp == want || (at + cp) % DEVICE_BLOCK == 0)
      ensures Data()[i][..cp] == obj[at..at + cp]
    {
      hide Covers, OnFiles;
      var resident := Any();
      var total, head;
      total, head, rs := PlanPiece(o, at, want, if resident then ramHead else 0);
      cp := head;
      var b := bufs[i];
      for k := 0 to head
        invariant forall j :: 0 <= j < k ==> b[j] == obj[at + j]
      {
        b[k] := obj[at + k];
      }
      assert b[..][..cp] == obj[at..at + cp];
    }

    /** The piece whose turn it is goes out. */
    method StartPiece()
      requires Steady() && state == GetStream && CanSend()
      modifies this`lane, this`sendLane, this`inflight, this`sending
      ensures Steady() && View() == old(View()).SendStarted()
    {
      hide Ahead, Win.Ok, Piece, Fixed, Upto, ValueOkSoFar, TailStart, Steady;
      StreamIsSteady();
      ghost var w := View();
      WinFacts(w, Data(), val, getSize);
      SendStartedOk(w, Data(), val, getSize);
      sendLane := sendI;
      lane := lane[sendI := lane[sendI].(sent := 0)];
      Submit();
      assert View() == w.SendStarted();
      WinFacts(View(), Data(), val, getSize);
      AheadKept();
      StreamIsSteady();
    }

    /** The next piece is read ahead. */
    method ReadAhead()
      requires Steady() && state == GetStream && CanRead()
      modifies this`lane, this`planPos, this`fillI, this`readLane, this`inflight, this`batch, this`copied, this`left,
               bufs
      ensures Steady() && sendLane == old(sendLane) && planPos > old(planPos)
    {
      hide Ahead, Win.Ok, Piece, Fixed, Upto, ValueOkSoFar, TailStart, Steady;
      StreamIsSteady();
      ghost var w := View();
      WinFacts(w, Data(), val, getSize);
      var want, segs := PlanLaneRead();
      WinFacts(View(), Data(), val, getSize);
      assert View().InLane() == w.InLane();
      StreamIsSteady();
    }

    /** The value is out: queue the trailer, or finish at once when the protocol has none. */
    method OnValueSent()
      requires Steady() && state == GetStream && sendLane < 0 && readLane < 0 && sendPos >= getSize
      modifies this
      ensures cut == old(cut)
      ensures Valid() && wire == old(wire) && val == old(val) && (state == GetTrailer || state == Idle)
      ensures planPos == old(planPos) && sendPos == old(sendPos) && readLane == old(readLane)
    {
      hide Ahead, Win.Ok, Piece, OpenTail, SafeFrom, Safe, InHeader, InHead;
      WinFacts(View(), Data(), val, getSize);
      assert wire == Upto(getSize);
      if |trailer| > 0 {
        out, outSent := trailer, 0;
        state := GetTrailer;
        Submit();
      } else {
        FinishGet();
      }
    }

    /** Nothing is in flight on a lane when its buffer goes back to the pool. */
    method FinishGet()
      requires !closing && Fixed() && inflight == 0 && !sending && !pinned && ValueOkSoFar() && wire == Delivered()
      modifies this
      ensures cut == old(cut)
      ensures Valid() && state == Idle && wire == old(wire) && val == old(val) && planPos == old(planPos)
              && sendPos == old(sendPos)
    {
      hide OnFiles, SafeFrom;
      ReleaseLanes();
      state := Idle;
    }

    predicate CanSend()
      reads this
    {
      sendLane < 0 && sendPos < getSize && 0 < nLanes && sendI < |lane| && lane[sendI].ready
    }

    predicate CanRead()
      reads this
    {
      readLane < 0 && planPos < getSize && fillI < nLanes && fillI < |lane| && !lane[fillI].ready && fillI != sendLane
    }

    /** What `Steady` says of a stream, in terms of the window. */
    ghost predicate StreamState()
      reads this, bufs
    {
      && !closing && Fixed() && !pinned && ValueOkSoFar() && View().Ok(Data(), val, getSize) && View().Shape()
         && Ahead()
      && TailStart() <= sendPos && sendPos + View().InLane() <= getSize && wire == Upto(sendPos + View().InLane())
      && inflight == (if sending then 1 else 0) + (if readLane >= 0 then lane[readLane].pending else 0)
      && (sending <==> sendLane >= 0)
    }

    lemma AheadIs()
      requires Fixed() && View().Ok(Data(), val, getSize) && |val| == |obj| && planPos <= |val|
      requires |lane| == 2 && readLane < |Data()| && readLane < 2 && (readLane >= 0 ==> lane[readLane].len <= planPos)
      requires |bufs| > 0 ==> o.Valid() && bufLen > 0
      ensures Ahead() <==>
                && val[planPos..] == obj[planPos..] && (Safe() && |bufs| > 0 ==> SafeFrom(o, planPos, getSize, bufLen))
                && (readLane >= 0 ==> Reading(BatchNow(), Data()[readLane], obj, left, lane[readLane].pending,
                                              lane[readLane].err, Right()))
    {
      hide Win.Ok, Reading, SafeFrom, OpenTail, Safe;
    }

    /** Sending does not touch what is read ahead. */
    twostate lemma AheadKept()
      requires Fixed() && old(View().Ok(Data(), val, getSize)) && View().Ok(Data(), val, getSize) && old(Ahead())
      requires unchanged(`val, `cut, `batch, `copied, `left, `planPos, `readLane) && unchanged(bufs)
      requires 0 <= readLane ==> readLane < |lane| == |old(lane)| && lane[readLane] == old(lane[readLane])
      ensures Ahead()
    {
      hide Win.Ok, Reading, SafeFrom, OpenTail, Safe;
      WinFacts(View(), Data(), val, getSize);
      assert old(Data()) == Data();
    }

    lemma StreamIsSteady()
      requires state == GetStream
      ensures Steady() <==> StreamState()
    {
      hide InHeader, InHead, InTrailer, Finished, Win.Queue, Win.Lanes, Win.Contents, Reading, SafeFrom, OpenTail;
    }

    lemma InRange()
      requires Steady() && state == GetStream
      ensures start <= sendPos <= planPos <= getSize && -1 <= readLane < |lane| && -1 <= sendLane < |lane|
    {
    }

    /** When nothing can be started, something is in flight or the value is out. */
    lemma Waiting()
      requires Steady() && state == GetStream && !CanSend() && !CanRead()
      ensures sendPos < getSize ==> sendLane >= 0 || readLane >= 0
      ensures (sendLane >= 0 || readLane >= 0) ==> inflight > 0
    {
      if sendPos < getSize && sendLane < 0 && readLane < 0 {
        NeverStuck(View(), Data(), val, getSize);
      }
    }

    /** One round of the pump. */
    method PumpOnce() returns (progress: bool)
      requires Steady() && state == GetStream
      modifies this, bufs
      ensures cut == old(cut)
      ensures Steady() && wire == old(wire) && val == old(val) && sendPos == old(sendPos)
      ensures old(planPos) <= planPos <= getSize && (planPos == old(planPos) ==> readLane == old(readLane))
      ensures progress ==> state == GetStream && (planPos > old(planPos) || (old(sendLane) < 0 && sendLane >= 0))
      ensures !progress ==> Valid() && (sendPos < getSize ==> state == GetStream && (sendLane >= 0 || readLane >= 0))
    {
      hide Progress, Flight;
      progress := false;
      InRange();
      if CanSend() {
        StartPiece();
        progress := true;
      }
      if CanRead() {
        ReadAhead();
        InRange();
        progress := true;
      }
      if sendLane < 0 && readLane < 0 && sendPos >= getSize {
        OnValueSent();
        return false;
      }
      if !progress {
        Waiting();
      }
    }

    /**
      Start the next ordered send and the next read-ahead until nothing more can be started, or finish
      the value. On return an open connection with bytes left has a send or a batch of reads in flight.
    */
    method PumpStream()
      requires Steady() && state == GetStream
      modifies this, bufs
      ensures cut == old(cut)
      ensures Valid() && wire == old(wire) && val == old(val)
      ensures sendPos < getSize ==> state == GetStream && (sendLane >= 0 || readLane >= 0)
      ensures old(planPos) <= planPos <= getSize && sendPos == old(sendPos)
              && (planPos == old(planPos) ==> readLane == old(readLane))
    {
      hide Steady, Valid;
      InRange();
      var progress := true;
      while progress
        invariant Steady() && wire == old(wire) && val == old(val) && cut == old(cut) && sendPos == old(sendPos)
        invariant old(planPos) <= planPos <= getSize && (planPos == old(planPos) ==> readLane == old(readLane))
        invariant progress ==> state == GetStream
        invariant !progress ==> Valid() && (sendPos < getSize ==>
                                            state == GetStream && (sendLane >= 0 || readLane >= 0))
        decreases progress, getSize - planPos, if sendLane < 0 then 1 else 0
      {
        progress := PumpOnce();
      }
    }

    /** Header and head are out: the tail [getPos, getSize) goes through the lanes. */
    method EnterStream()
      requires !closing && Fixed() && View().Idle() && nLanes == |bufs| && !pinned && !sending && inflight == 0
      requires getPos == TailStart() && val == obj && wire == Upto(getPos)
      modifies this, bufs
      ensures cut == old(cut)
      ensures Valid() && wire == old(wire)
    {
      hide SafeFrom, OnFiles, Reading;
      sendPos, planPos := getPos, getPos;
      state := GetStream;
      StreamIsSteady();
      PumpStream();
    }

    // -------------------------------------------------------------- completions

    /** What the send in flight was given. */
    ghost function Outgoing(): seq<byte>
      requires Steady() && sending
      reads this, bufs
    {
      if state.GetSendHead? then obj[headSent..Min(pinLen, getSize)]
      else if state.GetStream? then bufs[sendLane][..][lane[sendLane].sent..lane[sendLane].len]
      else out[outSent..]
    }

    /**
      The kernel may write anything where an outstanding read was to put its bytes, at any time: no promise of
      an open connection depends on it.
    */
    method KernelWrites(i: nat, k: nat, v: byte)
      requires Valid() && readLane >= 0 && i in left
      requires i < |batch| && batch[i].out <= k < batch[i].out + Rounded(batch[i], bufLen)
      modifies bufs
      ensures Valid() && (sending ==> Outgoing() == old(Outgoing()))
      ensures forall j :: 0 <= j < bufs[readLane].Length ==> bufs[readLane][j] == if j == k then v
              else old(bufs[readLane][j])
    {
      hide Win.Ok, Piece, Reading, SafeFrom, OnFiles, Upto, Safe, ValueOkSoFar, Progress, Flight, Rounded;
      ReadsOnlyInStream();
      ReadFacts(i);
      StreamIsSteady();
      ghost var data, s := Data(), Max(sendLane, 0);
      bufs[readLane][k] := v;
      assert sending ==> bufs[s][..] == old(bufs[s][..]);
      BufferWritten(data, i);
      StreamIsSteady();
    }

    /** What is known of an outstanding read. */
    lemma ReadFacts(i: nat)
      requires Valid() && state == GetStream && readLane >= 0 && i in left
      ensures 0 <= readLane < |bufs| && lane[readLane].len <= planPos <= |obj| && bufs[readLane].Length == bufLen
      ensures i < |batch| && BatchNow().Valid() && batch[i].out + batch[i].len <= bufLen
              && batch[i].out + Rounded(batch[i], bufLen) <= bufLen && batch[i].len <= Rounded(batch[i], bufLen)
      ensures ReadAt(o, BatchNow().off + batch[i].out, batch[i])
      ensures Stored(o, ssd, hdd, BatchNow().off + batch[i].out, BatchNow().off + batch[i].out + batch[i].len)
    {
      hide Win.Ok, Piece, SafeFrom, Upto, Safe, Progress, Flight, ReadAt, NoSpill, Covers, Back;
      StreamIsSteady();
      WinFacts(View(), Data(), val, getSize);
      FromBelow(BatchNow(), i);
      AlignUpLeast(batch[i].len, DEVICE_BLOCK);
    }

    /** Bytes that landed where an outstanding read may write leave the rest of the stream as it was. */
    lemma BufferWritten(data: seq<seq<byte>>, i: nat)
      requires Fixed() && View().Ok(data, val, getSize) && 0 <= readLane < |bufs| && |data| == |bufs| && |lane| == 2
               && lane[readLane].len <= planPos
      requires |val| == |obj| && val[planPos..] == obj[planPos..]
               && (Safe() && |bufs| > 0 ==> SafeFrom(o, planPos, getSize, bufLen))
      requires Reading(BatchNow(), data[readLane], obj, left, lane[readLane].pending, lane[readLane].err, Right())
               && i in left && i < |batch|
      requires |bufs| == 2 ==> bufs[1 - readLane][..] == data[1 - readLane]
      requires |data[readLane]| == bufs[readLane].Length
      requires forall k ::
               0 <= k < bufs[readLane].Length
               && !(batch[i].out <= k < batch[i].out + Rounded(batch[i], bufLen)) ==>
                    bufs[readLane][k] == data[readLane][k]
      ensures View().Ok(Data(), val, getSize) && Ahead()
    {
      hide Win.Ok, Piece, Reading, SafeFrom, OnFiles, Safe, Rounded;
      WinFacts(View(), data, val, getSize);
      DataOk(View(), data, Data(), val, getSize);
      ReadingWrites(BatchNow(), data[readLane], Data()[readLane], obj, left, lane[readLane].pending, lane[readLane].err,
                    Right(), i);
    }

    lemma ReadsOnlyInStream()
      requires Valid() && readLane >= 0
      ensures state == GetStream && lane[readLane].pending > 0 && planPos <= getSize && View().Shape()
              && readLane < |bufs|
      ensures lane[readLane].len <= bufs[readLane].Length && View().PieceAt(readLane) + lane[readLane].len == planPos
              && sendLane != readLane && sendLane < |bufs|
    {
      hide Win.Ok, Piece, Reading, SafeFrom, Upto, Safe, ValueOkSoFar;
      StreamIsSteady();
      WinFacts(View(), Data(), val, getSize);
    }

    lemma UptoMore(a: nat, b: nat)
      requires start <= a <= b <= |val|
      ensures Upto(a) + val[a..b] == Upto(b)
    {
    }

    method HeaderSent(res: nat)
      requires Valid() && state == GetHeader && 0 < res <= |out| - outSent
      modifies this, bufs
      ensures cut == old(cut)
      ensures Valid() && wire == old(wire) + old(out)[old(outSent)..old(outSent) + res]
    {
      hide Streaming, InTrailer, Finished, InHead, Win.Ok, OpenTail, SafeFrom;
      inflight := inflight - 1;
      sending := false;
      wire := wire + out[outSent..outSent + res];
      outSent := outSent + res;
      assert wire == header[..outSent];
      if outSent < |out| {
        Submit();
      } else {
        assert wire == Upto(start);
        out, outSent := [], 0;
        HeaderDone();
      }
    }

    /** The pinned head serves the part of the range it covers; the tail follows, or takes all of it. */
    method HeaderDone()
      requires !closing && Fixed() && View().Idle() && nLanes == |bufs| && pinned == (pinLen > 0) && !sending
               && inflight == 0
      requires getPos == start && val == obj && wire == Upto(start)
      modifies this, bufs
      ensures cut == old(cut)
      ensures Valid() && wire == old(wire)
    {
      hide Streaming, InTrailer, Finished, InHeader, Win.Ok, OpenTail, SafeFrom;
      var headHi := if pinned then Min(pinLen, getSize) else 0;
      if getPos < headHi {
        headSent := getPos;
        state := GetSendHead;
        Submit();
      } else {
        pinned := false;
        EnterStream();
      }
    }

    method TrailerSent(res: nat)
      requires Valid() && state == GetTrailer && 0 < res <= |out| - outSent
      modifies this
      ensures cut == old(cut)
      ensures Valid() && wire == old(wire) + old(out)[old(outSent)..old(outSent) + res]
    {
      hide Streaming, InHeader, InHead, OpenTail, SafeFrom;
      inflight := inflight - 1;
      sending := false;
      wire := wire + out[outSent..outSent + res];
      outSent := outSent + res;
      assert wire == Upto(getSize) + trailer[..outSent];
      if outSent < |out| {
        Submit();
      } else {
        assert trailer[..outSent] == trailer;
        FinishGet();
      }
    }

    method HeadSent(res: nat)
      requires Valid() && state == GetSendHead && 0 < res <= Min(pinLen, getSize) - headSent
      modifies this, bufs
      ensures cut == old(cut)
      ensures Valid() && wire == old(wire) + obj[old(headSent)..old(headSent) + res]
    {
      hide Streaming, InTrailer, Finished, InHeader, Win.Ok, Upto, OpenTail, SafeFrom;
      inflight := inflight - 1;
      sending := false;
      UptoMore(headSent, headSent + res);
      wire := wire + obj[headSent..headSent + res];
      headSent := headSent + res;
      if headSent < Min(pinLen, getSize) {
        Submit();
      } else {
        HeadDone();
      }
    }

    /** The head slice is out: its pin is dropped and the tail continues from its end. */
    method HeadDone()
      requires !closing && Fixed() && View().Idle() && nLanes == |bufs| && !sending && inflight == 0
      requires start < headSent == Min(pinLen, getSize) && val == obj && wire == Upto(headSent)
      modifies this, bufs
      ensures cut == old(cut)
      ensures Valid() && wire == old(wire)
    {
      hide Streaming, InTrailer, Finished, InHeader, InHead, Win.Ok, OpenTail, SafeFrom;
      pinned := false;
      getPos := Min(pinLen, getSize);
      EnterStream();
    }

    /** The bytes a lane hands out are the object's next ones. */
    lemma PieceBytes(res: nat)
      requires Valid() && state == GetStream && sending && 0 < res <= lane[sendLane].len - lane[sendLane].sent
      ensures var at := sendPos + lane[sendLane].sent;
              at + res <= getSize && |Outgoing()| == lane[sendLane].len - lane[sendLane].sent
                && wire + Outgoing()[..res] == Upto(at + res)
    {
      hide Win.Ok, Piece, Reading, SafeFrom, OpenTail, Safe, InHeader, InHead, InTrailer, Finished;
      WinFacts(View(), Data(), val, getSize);
      var l, at := lane[sendLane], sendPos + lane[sendLane].sent;
      PieceSlice(Data()[sendLane], val, sendPos, l.len, l.sent, res);
      assert Outgoing()[..res] == Data()[sendLane][l.sent..l.sent + res];
      UptoMore(at, at + res);
    }

    lemma PieceRest()
      requires Valid() && state == GetStream && sending
      ensures sendPos + lane[sendLane].len <= getSize && wire + Outgoing() == Upto(sendPos + lane[sendLane].len)
    {
      hide Win.Ok, Piece, Reading, SafeFrom, OpenTail, Safe, Progress, Flight;
      StreamIsSteady();
      WinFacts(View(), Data(), val, getSize);
      var rest := lane[sendLane].len - lane[sendLane].sent;
      PieceBytes(rest);
      assert Outgoing()[..rest] == Outgoing();
    }

    /** A short send: the rest of the piece is submitted again. */
    method PieceShort(res: nat)
      requires Valid() && state == GetStream && sending && 0 < res < lane[sendLane].len - lane[sendLane].sent
      modifies this
      ensures cut == old(cut)
      ensures Valid() && wire == old(wire) + old(Outgoing())[..res]
    {
      hide Ahead, Win.Ok, Piece, Fixed, ValueOkSoFar, TailStart, Upto, Steady, Outgoing;
      StreamIsSteady();
      PieceBytes(res);
      WinFacts(View(), Data(), val, getSize);
      ghost var w := View();
      wire := wire + Outgoing()[..res];
      inflight := inflight - 1;
      sending := false;
      lane := lane[sendLane := lane[sendLane].(sent := lane[sendLane].sent + res)];
      Submit();
      CountersOk(w, View(), Data(), val, getSize, sendLane);
      AheadKept();
      StreamIsSteady();
    }

    /** The rest of the piece went out: its lane is free and the next piece has its turn. */
    method PieceOut()
      requires Valid() && state == GetStream && sending
      modifies this
      ensures cut == old(cut)
      ensures Steady() && state == GetStream && wire == old(wire) + old(Outgoing()) && View() == old(View()).PieceSent()
    {
      hide Ahead, Win.Ok, Piece, Fixed, ValueOkSoFar, TailStart, Steady, Outgoing, Upto;
      StreamIsSteady();
      WinFacts(View(), Data(), val, getSize);
      ghost var w := View();
      PieceRest();
      PieceSentOk(w, Data(), val, getSize);
      wire := wire + Outgoing();
      LaneSent();
      AheadKept();
      StreamIsSteady();
    }

    /** The bookkeeping of a piece that is out. */
    method LaneSent()
      requires |lane| == 2 && 0 <= sendLane < 2 && nLanes > 0 && inflight > 0
      modifies this`inflight, this`sending, this`sendPos, this`lane, this`sendLane, this`sendI
      ensures View() == old(View()).PieceSent() && !sending && inflight == old(inflight) - 1
      ensures forall i :: 0 <= i < 2 && i != old(sendLane) ==> lane[i] == old(lane[i])
    {
      inflight := inflight - 1;
      sending := false;
      sendPos := sendPos + lane[sendLane].len;
      lane := lane[sendLane := FREE];
      sendLane := -1;
      sendI := (sendI + 1) % nLanes;
    }

    method PieceMoved(res: nat)
      requires Valid() && state == GetStream && sending && 0 < res <= lane[sendLane].len - lane[sendLane].sent
      modifies this, bufs
      ensures cut == old(cut)
      ensures Valid() && wire == old(wire) + old(Outgoing())[..res]
    {
      if res < lane[sendLane].len - lane[sendLane].sent {
        PieceShort(res);
      } else {
        assert Outgoing()[..res] == Outgoing();
        PieceOut();
        PumpStream();
      }
    }

    /** Read `i` brings something, but less than is wanted of it. */
    predicate Short(i: nat, res: int)
      reads this
    {
      0 < res && i < |batch| && res < batch[i].len
    }

    /** A read brings its bytes, or some of them; the piece being sent is not touched. */
    method BytesArrive(i: nat, res: nat)
      requires Valid() && state == GetStream && readLane >= 0 && i in left && res > 0
      modifies this`cut, bufs
      ensures Valid() && readLane < |bufs| && i < |batch| && BatchNow().Valid() && cut == (old(cut) || Short(i, res))
      ensures !cut ==> Filled(o, ssd, hdd, BatchNow().off, Data()[readLane], batch[i].out, batch[i].out + batch[i].len)
    {
      hide Win.Ok, Piece, Reading, SafeFrom, OnFiles, Upto, Safe, ValueOkSoFar, Progress, Flight, Rounded, Filled,
           ReadAt, Stored, Covers;
      ReadsOnlyInStream();
      ReadFacts(i);
      if Short(i, res) {
        CutShort();
      }
      StreamIsSteady();
      ghost var data := Data();
      if Short(i, res) {
        ReadShort(FileFor(o, ssd, hdd, batch[i]), batch[i], bufs[readLane], res);
      } else {
        Complete(o, ssd, hdd, planPos - lane[readLane].len, batch[i], bufs[readLane]);
      }
      BufferWritten(data, i);
      StreamIsSteady();
    }

    ghost method CutShort()
      requires Valid() && state == GetStream
      modifies this`cut
      ensures Valid() && cut
    {
      hide Win.Ok, Piece, Reading, SafeFrom, OpenTail, Safe, Upto, Progress, Flight;
      StreamIsSteady();
      if readLane >= 0 {
        WinFacts(View(), Data(), val, getSize);
        ReadingCut(BatchNow(), Data()[readLane], obj, left, lane[readLane].pending, lane[readLane].err, Right());
      }
      cut := true;
      StreamIsSteady();
    }

    /** A read that is not the last of its batch. */
    method ReadCounted(i: nat, res: int)
      requires Valid() && state == GetStream && readLane >= 0 && lane[readLane].pending > 1 && i in left
      requires res > 0 && !cut ==>
               i < |batch| && BatchNow().Valid()
               && Filled(o, ssd, hdd, BatchNow().off, Data()[readLane], batch[i].out, batch[i].out + batch[i].len)
      modifies this`lane, this`inflight, this`left
      ensures Valid() && View() == old(View()).(lane := lane) && readLane >= 0
              && lane[readLane].pending == old(lane[readLane].pending) - 1
      ensures lane[readLane].err == (old(lane[readLane].err) || res <= 0) && left == old(left) - {i}
    {
      hide Ahead, Win.Ok, Piece, Reading, SafeFrom, Safe, Fixed, ValueOkSoFar, TailStart, Upto, Filled, Batch.Valid,
           Steady;
      StreamIsSteady();
      ghost var w := View();
      StreamFacts();
      AheadIs();
      ReadingBack(BatchNow(), Data()[readLane], obj, left, lane[readLane].pending, lane[readLane].err, Right(), i,
                  res <= 0);
      var l := lane[readLane];
      inflight := inflight - 1;
      left := left - {i};
      lane := lane[readLane := l.(err := l.err || res <= 0, pending := l.pending - 1)];
      CountersOk(w, View(), Data(), val, getSize, readLane);
      AheadIs();
      StreamIsSteady();
    }

    lemma StreamFacts()
      requires StreamState()
      ensures |val| == |obj| && planPos <= getSize <= |val| && (|bufs| > 0 ==> o.Valid() && bufLen > 0)
              && |Data()| == |bufs|
      ensures View().Shape() && nLanes == |bufs| && (readLane >= 0 ==>
                                                     lane[readLane].len <= planPos && readLane < |bufs|
                                                       && readLane != sendLane)
      ensures readLane >= 0 ==> lane[readLane].pending > 0
    {
      hide Ahead, Win.Ok, Piece, Reading, SafeFrom, Safe, OnFiles;
      WinFacts(View(), Data(), val, getSize);
    }

    /** The value with the piece as its completed reads left it. */
    lemma NextValue(i: nat) returns (v: seq<byte>)
      requires StreamState() && readLane >= 0 && lane[readLane].pending == 1 && !lane[readLane].err && i in left
      requires !cut ==>
               i < |batch| && BatchNow().Valid()
               && Filled(o, ssd, hdd, BatchNow().off, Data()[readLane], batch[i].out, batch[i].out + batch[i].len)
      ensures |v| == |obj| && View().ReadDone().Ok(Data(), v, getSize) && (Right() ==> v == obj)
      ensures v[start..sendPos + View().InLane()] == val[start..sendPos + View().InLane()]
      ensures v[..TailStart()] == obj[..TailStart()] && planPos <= |v| && v[planPos..] == obj[planPos..]
    {
      hide Win.Ok, Piece, Reading, SafeFrom, Safe, OnFiles, Filled, Batch.Valid, Patched, Upto, TailStart;
      WinFacts(View(), Data(), val, getSize);
      var b := BatchNow();
      PieceDelivered(View(), Data(), val, obj, getSize, b, left, i, Right());
      v := Patched(val, b.off, Data()[readLane][..b.upTo]);
      PrefixKept(val, v, b.off, start, sendPos + View().InLane());
      PrefixKept(val, v, b.off, 0, TailStart());
    }

    /**
      The last read of a batch without an error: the piece is what the buffer holds now, and it is ready for its
      turn.
    */
    method PieceRead(i: nat)
      requires Valid() && state == GetStream && readLane >= 0 && lane[readLane].pending == 1 && !lane[readLane].err
               && i in left
      requires !cut ==>
               i < |batch| && BatchNow().Valid()
               && Filled(o, ssd, hdd, BatchNow().off, Data()[readLane], batch[i].out, batch[i].out + batch[i].len)
      modifies this`val, this`inflight, this`left, this`readLane, this`lane
      ensures Steady() && View() == old(View()).ReadDone()
    {
      hide Ahead, Win.Ok, Piece, Reading, SafeFrom, Safe, Fixed, TailStart, Filled, Batch.Valid, Steady;
      StreamIsSteady();
      ghost var w := View();
      StreamFacts();
      AheadIs();
      ghost var v := NextValue(i);
      ValueReplaced(v);
      val := v;
      LaneRead(i);
      assert View().InLane() == w.InLane();
      AheadIs();
      StreamIsSteady();
    }

    /** The delivered value may become `v`, which is the same as far as it has been sent. */
    lemma ValueReplaced(v: seq<byte>)
      requires StreamState() && |v| == |obj| && v[..TailStart()] == obj[..TailStart()] && (Right() ==> v == obj)
      requires v[start..sendPos + View().InLane()] == val[start..sendPos + View().InLane()]
      ensures start <= sendPos + View().InLane() <= |v| && header + v[start..sendPos + View().InLane()] == wire
    {
      hide Ahead, Win.Ok, OpenTail, SafeFrom, Safe;
    }

    /** The bookkeeping of a piece that is read. */
    method LaneRead(i: nat)
      requires |lane| == 2 && 0 <= readLane < 2 && inflight > 0
      modifies this`inflight, this`left, this`readLane, this`lane
      ensures View() == old(View()).ReadDone() && inflight == old(inflight) - 1 && left == old(left) - {i}
    {
      inflight := inflight - 1;
      left := left - {i};
      var done := readLane;
      readLane := -1;
      lane := lane[done := lane[done].(pending := 0, ready := true)];
    }

    /**
      A disk read completes: with its bytes, with some of them, which the handler takes for all, or with an
      error. A failed batch aborts the GET; the lanes are then released while an operation is still in flight
      exactly when a send was.
    */
    method OnRead(i: nat, res: int)
      requires Valid() && readLane >= 0 && i in left
      modifies this, bufs
      ensures wire == old(wire) && (closing <==>
                                    old(lane[readLane].pending) == 1
                                    && (old(lane[readLane].err) || res <= 0))
      ensures !closing ==>
              Valid() && old(planPos) <= planPos <= getSize
              && (planPos == old(planPos) ==> Pending() < old(Pending()))
      ensures closing ==> nLanes == 0 && (inflight > 0 <==> old(sendLane) >= 0) && val == old(val)
      ensures cut == (old(cut) || old(Short(i, res)))
    {
      hide Win.Ok, Piece, Streaming, Fixed, InHeader, InHead, InTrailer, Finished, Filled, Batch.Valid;
      ReadsOnlyInStream();
      var l := lane[readLane];
      if res > 0 {
        BytesArrive(i, res);
      }
      if l.pending > 1 {
        ReadCounted(i, res);
      } else if l.err || res <= 0 {
        inflight := inflight - 1;
        left := left - {i};
        ReleaseLanes();
        closing := true;
      } else {
        PieceRead(i);
        PumpStream();
      }
    }

    ghost function Pending(): nat
      reads this
    {
      if 0 <= readLane < |lane| then lane[readLane].pending else 0
    }

    /** Bytes the send in flight was given. */
    function Remaining(): (n: nat)
      requires Steady() && sending
      reads this, bufs
      ensures 0 < n == |Outgoing()|
    {
      if state.GetSendHead? then Min(pinLen, getSize) - headSent
      else if state.GetStream? then lane[sendLane].len - lane[sendLane].sent
      else |out| - outSent
    }

    /**
      A send completes: with part of what it was given, with a full socket buffer (retried), with an error or a
      closed peer.
    */
    method OnSend(res: int)
      requires Valid() && sending && res <= |Outgoing()|
      modifies this, bufs
      ensures cut == old(cut)
      ensures closing <==> res <= 0 && res != EAGAIN
      ensures wire == old(wire) + old(Outgoing())[..Max(res, 0)]
      ensures if closing then val == old(val) else Valid()
      ensures res == EAGAIN ==> View() == old(View()) && state == old(state)
    {
      hide Win.Ok, Piece, Streaming, OpenTail, SafeFrom, Safe, ValueOkSoFar;
      var n := Remaining();
      if res <= 0 {
        inflight := inflight - 1;
        sending := false;
        if res == EAGAIN {
          Submit();
        } else {
          closing := true;
        }
      } else if state == GetStream {
        PieceMoved(res);
      } else if state == GetSendHead {
        SubSlice(obj, headSent, Min(pinLen, getSize), 0, res);
        assert Outgoing()[..res] == obj[headSent..headSent + res];
        HeadSent(res);
      } else {
        SubSlice(out, outSent, |out|, 0, res);
        assert Outgoing()[..res] == out[outSent..outSent + res];
        if state == GetHeader {
          HeaderSent(res);
        } else {
          TrailerSent(res);
        }
      }
    }

    // -------------------------------------------------------------- whole runs

    /** Nothing but the response is ever sent, in order and once each. */
    lemma SentIsPrefix()
      requires Valid()
      ensures |val| == |obj| && wire <= Delivered() && (Right() ==> val == obj)
      ensures state == Idle <==> wire == Delivered()
    {
      hide Win.Ok, Piece, Reading, SafeFrom, OpenTail, Safe;
      if state == GetStream {
        StreamIsSteady();
        WinFacts(View(), Data(), val, getSize);
      }
    }

    lemma Events()
      requires Valid() && state != Idle
      ensures (sending <==> Sends()) && (sending || readLane >= 0)
    {
      hide Win.Ok, Progress;
    }

    /** A batch in flight has an outstanding read. */
    lemma SomeReadLeft()
      requires Valid() && readLane >= 0
      ensures exists i :: i in left
    {
      hide Win.Ok, Piece, Batch.Valid, NoSpill, Back, SafeFrom, OpenTail, Safe;
      ReadsOnlyInStream();
      StreamIsSteady();
      assert |left| > 0;
    }

    /**
      A whole GET under any schedule: at every turn the environment completes a send or a read of its
      choice with a result of its choice, with at most `retries` full socket buffers in all. The run ends,
      and unless the connection failed the peer has received the whole response, each piece as its
      completed reads left it. When the tail is safe to round up, that is exactly the object.
    */
    method Serve(retries: nat)
      requires Valid()
      modifies this, bufs
      ensures |val| == |obj| && wire <= Delivered() && |Delivered()| == |Response()|
      ensures !closing ==> state == Idle && wire == Delivered()
      ensures Right() ==> Delivered() == Response()
    {
      hide Win.Ok, Progress, Flight, Outgoing, SafeFrom, Reading, OpenTail;
      var budget := retries;
      SentIsPrefix();
      while !closing && state != Idle
        invariant |val| == |obj| && wire <= Delivered() && (Right() ==> val == obj) && (!closing ==> Valid())
        decreases !closing, |Response()| - |wire|, Max(0, getSize - planPos), Pending(), budget
      {
        var which := AnyNat();
        var res := AnyInt();
        Events();
        if Sends() && (readLane < 0 || which % 2 == 0) {
          var n := Remaining();
          if res > n || (res == EAGAIN && budget == 0) {
            res := n;
          }
          if res == EAGAIN {
            budget := budget - 1;
          }
          OnSend(res);
        } else {
          SomeReadLeft();
          var i :| i in left;
          OnRead(i, res);
        }
        if !closing {
          SentIsPrefix();
        }
      }
      if !closing {
        SentIsPrefix();
      }
    }

    /** The tail of a GET is safe when it starts on a 4 KiB boundary and buffers are a multiple of 4 KiB. */
    lemma AlignedTailIsSafe()
      requires Fixed() && TailStart() % DEVICE_BLOCK == 0 && bufLen % DEVICE_BLOCK == 0
      ensures Safe()
    {
      if |bufs| > 0 {
        AlignedIsSafe(o, TailStart(), getSize, bufLen);
      }
    }
  }
}
