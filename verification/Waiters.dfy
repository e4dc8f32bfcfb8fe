/**
  The event loop's bookkeeping over all its connections, src/goblin/net/stream_loop.cpp: the read I/O
  buffers, which are free or held by the lanes of one connection, and the queues of connections parked on
  buffer exhaustion. A connection is reduced to what matters here: its phase, what it has queued to send, the
  buffers it holds and what it has in flight on which of them. What the clients ask for, and the answers of
  the storage engine, are the environment's next turns.
*/
module Waiters {
  import opened Arith
  import opened Collections
  import opened Environment
  import opened RequestLoop

  datatype Send = NoSend | Plain | From(b: nat)

  /**
    `pending` disk reads are in flight into buffer `into`; `send` is a receive, a reply or header, or a piece
    from a buffer.
  */
  datatype Conn = Conn(phase: Phase, closing: bool, quit: bool, out: bool, lanes: seq<nat>, pending: nat, into: nat,
                       send: Send) {
    /** Operations in flight. */
    function Ops(): nat {
      pending + if send.NoSend? then 0 else 1
    }

    predicate Parked() {
      phase.SetWait? || phase.GetWait?
    }

    /** Open, with nothing held and nothing in flight. */
    predicate Bare() {
      lanes == [] && Ops() == 0 && !closing
    }

    /**
      Operations in flight touch only buffers this connection holds, and not the same one; only a GET being
      served holds any.
    */
    predicate Safe() {
      && (pending > 0 ==> into in lanes)
      && (send.From? ==> send.b in lanes && !(pending > 0 && into == send.b))
      && (lanes != [] && !closing ==> phase == Serving)
    }

    /** An open connection is parked or has an operation in flight; a closing one that has none holds no buffer. */
    ghost predicate Tended() {
      if closing then !Parked() && (Ops() == 0 ==> lanes == []) else (Ops() == 0 <==> Parked())
    }

    /** Closing with nothing in flight: no completion will ever come to retire it. */
    predicate Stuck() {
      closing && Ops() == 0
    }
  }

  type Conns = map<nat, Conn>

  // ---------------------------------------------------------------- where the buffers are

  ghost predicate FreeOk(count: nat, free: seq<nat>, owner: map<nat, nat>) {
    NoDup(free) && forall b: nat :: (b in free || b in owner <==> b < count) && !(b in free && b in owner)
  }

  ghost predicate LanesOk(conns: Conns, owner: map<nat, nat>) {
    && (forall b :: b in owner ==> owner[b] in conns && b in conns[owner[b]].lanes)
    && (forall c, b :: c in conns && b in conns[c].lanes ==> b in owner && owner[b] == c)
    && (forall c :: c in conns ==> NoDup(conns[c].lanes))
  }

  /** Every buffer is free, or in one lane of one connection: in exactly one place. */
  ghost predicate Partition(count: nat, free: seq<nat>, conns: Conns, owner: map<nat, nat>) {
    FreeOk(count, free, owner) && LanesOk(conns, owner)
  }

  lemma BorrowPartition(count: nat, free: seq<nat>, conns: Conns, owner: map<nat, nat>, c: nat)
    requires Partition(count, free, conns, owner) && c in conns && free != []
    ensures var b := free[|free| - 1];
            Partition(count, free[..|free| - 1], conns[c := conns[c].(lanes := conns[c].lanes + [b])], owner[b := c])
  {
    var b := free[|free| - 1];
    var rest, own' := free[..|free| - 1], owner[b := c];
    assert free == rest + [b];
    assert b in free;
    forall x: nat
      ensures (x in rest || x in own' <==> x < count) && !(x in rest && x in own')
    {
      assert x in free <==> x in rest || x == b;
    }
  }

  /** The first lane's buffer goes back to the pool. */
  lemma ReleasePartition(count: nat, free: seq<nat>, conns: Conns, owner: map<nat, nat>, c: nat, l: Conn)
    requires Partition(count, free, conns, owner) && c in conns && conns[c].lanes != []
    requires l.lanes == conns[c].lanes[1..]
    ensures var b := conns[c].lanes[0];
            Partition(count, free + [b], conns[c := l], owner - {b})
  {
    var b := conns[c].lanes[0];
    assert b in conns[c].lanes;
    FreeReleased(count, free, owner, b);
    LanesReleased(conns, owner, c, l);
  }

  lemma FreeReleased(count: nat, free: seq<nat>, owner: map<nat, nat>, b: nat)
    requires FreeOk(count, free, owner) && b in owner
    ensures FreeOk(count, free + [b], owner - {b})
  {
    forall x: nat
      ensures (x in free + [b] || x in owner - {b} <==> x < count) && !(x in free + [b] && x in owner - {b})
    {
      assert x in free + [b] <==> x in free || x == b;
    }
  }

  lemma LanesReleased(conns: Conns, owner: map<nat, nat>, c: nat, l: Conn)
    requires LanesOk(conns, owner) && c in conns && conns[c].lanes != [] && l.lanes == conns[c].lanes[1..]
    ensures LanesOk(conns[c := l], owner - {conns[c].lanes[0]})
  {
    hide NoDup;
    var b := conns[c].lanes[0];
    TailOf(conns[c].lanes);
    assert b in owner && owner[b] == c;
    var conns', owner' := conns[c := l], owner - {b};
    forall x | x in owner'
      ensures owner'[x] in conns' && x in conns'[owner'[x]].lanes
    {
      assert x in conns[owner[x]].lanes;
    }
    forall d, x | d in conns' && x in conns'[d].lanes
      ensures x in owner' && owner'[x] == d
    {
      assert x in conns[d].lanes && x in owner && owner[x] == d;
      assert x != b;
    }
  }

  lemma SameLanes(count: nat, free: seq<nat>, conns: Conns, owner: map<nat, nat>, c: nat, k: Conn)
    requires Partition(count, free, conns, owner)
    requires k.lanes == if c in conns then conns[c].lanes else []
    ensures Partition(count, free, conns[c := k], owner)
  {
  }

  lemma GonePartition(count: nat, free: seq<nat>, conns: Conns, owner: map<nat, nat>, c: nat)
    requires Partition(count, free, conns, owner) && c in conns && conns[c].lanes == []
    ensures Partition(count, free, conns - {c}, owner)
  {
  }

  /** Free read buffers plus held lanes always equal the pool count. */
  lemma Conservation(count: nat, free: seq<nat>, conns: Conns, owner: map<nat, nat>)
    requires Partition(count, free, conns, owner)
    ensures |free| + |owner.Keys| == count
    ensures forall b :: b in owner <==> exists c :: c in conns && b in conns[c].lanes
  {
    CountFree(count, free, owner);
    hide FreeOk;
  }

  lemma CountFree(count: nat, free: seq<nat>, owner: map<nat, nat>)
    requires FreeOk(count, free, owner)
    ensures |free| + |owner.Keys| == count
  {
    hide NoDup;
    ElementsCount(free);
    var f := Elements(free);
    assert f !! owner.Keys;
    assert forall x: nat :: x in f + owner.Keys <==> x in Below(count);
    assert f + owner.Keys == Below(count);
  }

  // ---------------------------------------------------------------- who is queued

  /**
    A connection is queued exactly once if and only if it is in the queue's phase; `x` is being dealt with right
    now.
  */
  ghost predicate QueueOk(q: seq<nat>, conns: Conns, ph: Phase, x: Option<nat>) {
    NoDup(q) && forall c :: c in q <==> c in conns && conns[c].phase == ph && x != Some(c)
  }

  lemma PushQueue(q: seq<nat>, conns: Conns, ph: Phase, c: nat, k: Conn)
    requires QueueOk(q, conns, ph, Some(c)) && k.phase == ph
    ensures QueueOk(q + [c], conns[c := k], ph, None)
  {
    assert c !in q;
    assert forall d :: d in q + [c] <==> d in q || d == c;
  }

  lemma PopQueue(q: seq<nat>, conns: Conns, ph: Phase)
    requires QueueOk(q, conns, ph, None) && q != []
    ensures q[0] in conns && QueueOk(q[1..], conns, ph, Some(q[0]))
  {
    assert q[0] in q;
    TailOf(q);
  }

  /** The connection being dealt with may change in any way. */
  lemma KeepQueue(q: seq<nat>, conns: Conns, ph: Phase, c: nat, k: Conn)
    requires QueueOk(q, conns, ph, Some(c))
    ensures QueueOk(q, conns[c := k], ph, Some(c))
    ensures k.phase != ph ==> QueueOk(q, conns[c := k], ph, None)
    ensures QueueOk(q, conns - {c}, ph, None)
  {
  }

  lemma FrontParked(q: seq<nat>, conns: Conns, ph: Phase)
    requires QueueOk(q, conns, ph, None) && q != []
    ensures q[0] in conns && conns[q[0]].phase == ph
  {
    assert q[0] in q;
  }

  lemma TakeOut(q: seq<nat>, conns: Conns, ph: Phase, c: nat)
    requires QueueOk(q, conns, ph, None) && (c in conns ==> conns[c].phase != ph)
    ensures QueueOk(q, conns, ph, Some(c))
  {
  }

  ghost predicate ConnsOk(conns: Conns, x: Option<nat>) {
    forall c :: c in conns && x != Some(c) ==>
      conns[c].Safe() && (conns[c].Parked() ==> conns[c].Bare())
      && conns[c].Tended()
  }

  /** All connections but `c` are as before. */
  ghost predicate Others(was: Conns, now: Conns, c: nat) { c in now && now == was[c := now[c]] }

  lemma OthersSelf(conns: Conns, c: nat)
    requires c in conns
    ensures Others(conns, conns, c)
  {
  }

  lemma OthersThen(a: Conns, b: Conns, d: Conns, c: nat)
    requires (a == b || Others(a, b, c)) && Others(b, d, c)
    ensures Others(a, d, c)
  {
  }

  /** `c` is `k` now, and the other connections are as before. */
  ghost predicate Now(was: Conns, now: Conns, c: nat, k: Conn) {
    c in now && now[c] == k && Others(was, now, c)
  }

  // ---------------------------------------------------------------- the request loop of one connection

  datatype Snapshot = Snapshot(conns: Conns, free: nat, gets: seq<nat>, sets: seq<nat>, turns: seq<Turn>)

  /** The queues of `b` are those of `a`, with `c` at the back of the one it is parked in. */
  ghost predicate Queued(a: Snapshot, b: Snapshot, c: nat)
    requires c in b.conns
  {
    && b.gets == (if b.conns[c].phase.GetWait? then a.gets + [c] else a.gets)
    && b.sets == (if b.conns[c].phase.SetWait? then a.sets + [c] else a.sets)
  }

  /** Where the last pass of the loop leaves `c`, before anything is submitted. */
  ghost predicate Broken(a: Snapshot, b: Snapshot, c: nat, h: Outcome)
    requires c in a.conns
  {
    && c in b.conns && |b.conns[c].lanes| == h.lanes && b.free == a.free - h.lanes && b.turns == h.left
    && Now(a.conns, b.conns, c, a.conns[c].(phase := h.phase, quit := h.quit, out := h.out, lanes := b.conns[c].lanes))
       && Queued(a, b, c)
  }

  ghost function HaltOf(a: Snapshot, c: nat, t: Turn, readAhead: bool): Outcome
    requires c in a.conns
  {
    Halt(t, a.turns, a.conns[c].phase, a.conns[c].out, a.conns[c].quit, a.free, readAhead)
  }

  ghost function HandleOf(a: Snapshot, c: nat, readAhead: bool): Outcome
    requires c in a.conns && (a.conns[c].phase.Idle? || a.conns[c].phase.SetBody?)
  {
    Handle(a.turns, a.conns[c].phase, a.conns[c].out, a.conns[c].quit, a.free, readAhead)
  }

  /**
    A pass of the loop whose turn is `t` takes `a` to `b`; `again` if the loop goes round, `parked` if it has
    returned.
  */
  ghost predicate Passed(a: Snapshot, b: Snapshot, c: nat, t: Turn, readAhead: bool, again: bool, parked: bool)
    requires c in a.conns
  {
    var k := a.conns[c];
    && again == Goes(t, k.phase)
    && (again ==>
        !parked && b == a.(conns := b.conns)
        && Now(a.conns, b.conns, c, k.(phase := After(t, k.phase), out := k.out || Answers(t, k.phase))))
    && (!again ==> Broken(a, b, c, HaltOf(a, c, t, readAhead)) && (parked <==> b.conns[c].Parked()))
  }

  lemma NotBoth(a: Snapshot, b: Snapshot, c: nat, t: Turn, readAhead: bool, again: bool, parked: bool)
    requires c in a.conns && Passed(a, b, c, t, readAhead, again, parked)
    ensures !(again && parked)
  {
  }

  lemma PassedQuietly(a: Snapshot, b: Snapshot, c: nat, t: Turn, readAhead: bool)
    requires c in a.conns && a.conns[c].Bare() && a.conns[c].phase.Idle?
             && (t.ask.NeedMore? || t.ask.Quit? || t.ask.Other?) && b == a.(conns := b.conns)
    requires var k := a.conns[c]; Now(a.conns, b.conns, c, k.(quit := k.quit || t.ask.Quit?, out := k.out
                                                              || (t.ask.Other? && t.reply)))
    ensures Passed(a, b, c, t, readAhead, t.ask.Other?, false)
  {
    hide Others;
  }

  /** Still in the loop: nothing but phase, queued output and the turns left differ, and the outcome is the same. */
  ghost predicate Going(s: Snapshot, a: Snapshot, c: nat, readAhead: bool)
    requires c in a.conns
  {
    && c in s.conns && s.conns[c].Bare() && (s.conns[c].phase.Idle? || s.conns[c].phase.SetBody?)
       && (a.conns[c].phase.Idle? || a.conns[c].phase.SetBody?)
    && a == s.(conns := a.conns, turns := a.turns)
       && Now(s.conns, a.conns, c, s.conns[c].(phase := a.conns[c].phase, out := a.conns[c].out))
    && HandleOf(s, c, readAhead) == HandleOf(a, c, readAhead)
  }

  lemma GoesOn(s: Snapshot, a: Snapshot, b: Snapshot, c: nat, t: Turn, readAhead: bool)
    requires c in a.conns && Going(s, a, c, readAhead) && t == First(a.turns)
             && Passed(a.(turns := Rest(a.turns)), b, c, t, readAhead, true, false)
    ensures c in b.conns && Going(s, b, c, readAhead) && |b.turns| < |a.turns|
  {
    hide Others;
    OthersThen(s.conns, a.conns, b.conns, c);
  }

  lemma Stops(s: Snapshot, a: Snapshot, b: Snapshot, c: nat, t: Turn, readAhead: bool, parked: bool)
    requires c in a.conns && Going(s, a, c, readAhead) && t == First(a.turns)
             && Passed(a.(turns := Rest(a.turns)), b, c, t, readAhead, false, parked)
    ensures c in b.conns && Broken(s, b, c, HandleOf(s, c, readAhead)) && (parked <==> b.conns[c].Parked())
    ensures parked ==> Handled(s, b, c, HandleOf(s, c, readAhead))
    ensures !parked ==> var k := b.conns[c];
            !k.closing && k.Ops() == 0 && (k.lanes != [] ==> k.phase == Serving)
            && (k.phase == Serving ==> k.out)
    ensures !parked ==> var e := HandleOf(s, c, readAhead).end;
            (if Closes(b.conns[c], t.overlong) then e.Close? else e.Wait? || e.Stream?)
  {
    hide Others;
    OthersThen(s.conns, a.conns, b.conns, c);
  }

  /**
    What the end of the loop does: close an overlong command line or a client that has quit, once there is
    nothing to send.
  */
  predicate Closes(k: Conn, overlong: bool) { (k.phase.Idle? && overlong) || (!k.out && k.quit) }

  lemma Submitted(s: Snapshot, b: Snapshot, d: Snapshot, c: nat, r: Outcome, close: bool)
    requires c in s.conns && s.conns[c].Bare() && Broken(s, b, c, r) && d == b.(conns := d.conns)
             && !b.conns[c].Parked()
    requires Now(b.conns, d.conns, c, b.conns[c].(closing := close, send := if close then NoSend else Plain))
    requires if close then r.end.Close? else r.end.Wait? || r.end.Stream?
    ensures Handled(s, d, c, r)
  {
    hide Others;
    OthersThen(s.conns, b.conns, d.conns, c);
  }

  /** `c` is as the request loop left it, with an operation in flight unless it is parked or closing. */
  ghost predicate Handled(a: Snapshot, b: Snapshot, c: nat, r: Outcome)
    requires c in a.conns
  {
    && c in b.conns && b.turns == r.left && |b.conns[c].lanes| == r.lanes && b.free == a.free - r.lanes
       && Queued(a, b, c)
    && Now(a.conns, b.conns, c, a.conns[c].(phase := r.phase, closing := r.end.Close?, quit := r.quit, out := r.out,
                                            lanes := b.conns[c].lanes,
                                           send := if r.end.Wait? || r.end.Stream? then Plain else NoSend))
  }

  // ---------------------------------------------------------------- who is stuck

  ghost function StuckIn(conns: Conns): set<nat> { set c | c in conns && conns[c].Stuck() }

  lemma StuckAfter(conns: Conns, c: nat, k: Conn)
    requires c in conns ==> !conns[c].Stuck()
    ensures StuckIn(conns[c := k]) == StuckIn(conns) + (if k.Stuck() then {c} else {})
    ensures |StuckIn(conns[c := k])| == |StuckIn(conns)| + if k.Stuck() then 1 else 0
  {
    hide Conn.Stuck;
    assert StuckIn(conns[c := k]) == StuckIn(conns) + (if k.Stuck() then {c} else {});
    assert c !in StuckIn(conns);
  }

  lemma StuckWithout(conns: Conns, c: nat)
    requires c in conns ==> !conns[c].Stuck()
    ensures StuckIn(conns - {c}) == StuckIn(conns)
  {
    hide Conn.Stuck;
  }

  /** Who is stuck stays so, and is left alone. */
  ghost predicate StuckStay(was: Conns, now: Conns) {
    forall c :: c in was && was[c].Stuck() ==> c in now && now[c] == was[c]
  }

  lemma StuckStaySelf(conns: Conns)
    ensures StuckStay(conns, conns)
  {
  }

  lemma StuckStayThen(a: Conns, b: Conns, d: Conns)
    requires StuckStay(a, b) && StuckStay(b, d)
    ensures StuckStay(a, d)
  {
  }

  /** A connection that was not stuck has changed. */
  lemma OneMore(was: Conns, now: Conns, c: nat)
    requires c in was && !was[c].Stuck() && Others(was, now, c)
    ensures StuckStay(was, now) && now.Keys == was.Keys && |StuckIn(now)| == |StuckIn(was)| + if now[c].Stuck() then 1
            else 0
  {
    StuckAfter(was, c, now[c]);
  }

  /** A handler has dealt with a connection that was not stuck, and it is gone or not stuck now. */
  lemma NoneMore(was: Conns, now: Conns, c: nat)
    requires c in was && !was[c].Stuck() && ((c in now && Others(was, now, c) && !now[c].Stuck()) || now == was - {c})
    ensures StuckStay(was, now) && StuckIn(now) == StuckIn(was)
  {
    if now == was - {c} {
      StuckWithout(was, c);
    } else {
      StuckAfter(was, c, now[c]);
    }
  }

  lemma AddedStuck(conns: Conns, c: nat)
    requires c !in conns
    ensures var now := conns[c := Conn(Idle, false, false, false, [], 0, 0, Plain)];
            StuckStay(conns, now) && StuckIn(now) == StuckIn(conns)
  {
    StuckAfter(conns, c, Conn(Idle, false, false, false, [], 0, 0, Plain));
  }

  lemma OthersGone(was: Conns, now: Conns, c: nat)
    requires Others(was, now, c)
    ensures now - {c} == was - {c}
  {
  }

  // ---------------------------------------------------------------- the drains

  /** What a queued connection has to send. */
  ghost function WaiterOf(c: nat, conns: Conns): Waiter {
    if c in conns then Waiter(conns[c].out, conns[c].quit) else Waiter(false, false)
  }

  ghost function WaitersOf(q: seq<nat>, conns: Conns): (r: seq<Waiter>)
    ensures |r| == |q|
  {
    seq(|q|, i requires 0 <= i < |q| => WaiterOf(q[i], conns))
  }

  /** The front of the queue has been dealt with, and may be at its back again. */
  lemma WaitersNext(q: seq<nat>, conns: Conns, now: Conns, again: bool)
    requires q != [] && NoDup(q) && Others(conns, now, q[0])
    ensures WaitersOf(q[1..] + (if again then [q[0]] else []), now) == WaitersOf(q, conns)[1..]
            + (if again then [WaiterOf(q[0], now)] else [])
  {
    var back := if again then [q[0]] else [];
    forall i | 0 <= i < |q[1..] + back|
      ensures WaitersOf(q[1..] + back, now)[i] == (WaitersOf(q, conns)[1..]
                                                   + (if again then [WaiterOf(q[0], now)] else []))[i]
    {
      if i < |q| - 1 {
        assert q[i + 1] != q[0];
      }
    }
  }

  ghost function GetsLeft(s: Snapshot, readAhead: bool): Drained { DrainGets(WaitersOf(s.gets, s.conns), s.turns,
                            s.free, readAhead) }

  ghost function SetsLeft(s: Snapshot, readAhead: bool): Drained { DrainSets(WaitersOf(s.sets, s.conns), s.turns,
                            s.free, readAhead) }

  /** The connections that a drain serves and that go on with their requests, each with its own turns. */
  ghost function GetsVisited(s: Snapshot, readAhead: bool): seq<Visit> { GetVisits(WaitersOf(s.gets, s.conns), s.turns,
                               s.free, readAhead) }

  ghost function SetsVisited(s: Snapshot, readAhead: bool): seq<Visit> { SetVisits(WaitersOf(s.sets, s.conns), s.turns,
                               s.free, readAhead) }

  lemma GetsClosed(s: Snapshot, readAhead: bool)
    ensures GetsLeft(s, readAhead).closed == 0 <==> forall v :: v in GetsVisited(s, readAhead) ==> !v.Closes()
  {
    hide DrainGets, GetVisits, Visit.Closes;
    GetsCloseIff(WaitersOf(s.gets, s.conns), s.turns, s.free, readAhead);
  }

  lemma SetsClosed(s: Snapshot, readAhead: bool)
    ensures SetsLeft(s, readAhead).closed == 0 <==> forall v :: v in SetsVisited(s, readAhead) ==> !v.Closes()
  {
    hide DrainSets, SetVisits, Visit.Closes;
    SetsCloseIff(WaitersOf(s.sets, s.conns), s.turns, s.free, readAhead);
  }

  /** Some turns are used up, or, when there are none, somebody has left the queue. */
  ghost predicate Fewer(ts: seq<Turn>, q: seq<nat>, ts': seq<Turn>, q': seq<nat>) {
    |ts'| < |ts| || (|ts'| == |ts| && |q'| < |q|)
  }

  /** The first GET in the queue was retried: put back for want of a buffer, or dealt with. */
  ghost predicate GetRetried(a: Snapshot, b: Snapshot, putBack: bool, readAhead: bool)
    requires a.gets != []
  {
    var c := a.gets[0];
    && c in b.conns && Others(a.conns, b.conns, c) && a.sets <= b.sets
    && (putBack ==>
        b.gets == a.gets[1..] + [c] && b.free == a.free == 0 && !b.conns[c].Stuck()
        && GetsLeft(a, readAhead) == Drained(b.turns, b.free, 0, true, 0))
    && (!putBack ==>
          && b.gets == a.gets[1..] + (if b.conns[c].phase.GetWait? then [c] else [])
          && Fewer(a.turns, a.gets, b.turns, b.gets)
          && GetsLeft(a, readAhead) == Also(GetsLeft(b, readAhead), b.conns[c].Stuck()))
  }

  lemma RetriedInVain(a: Snapshot, b: Snapshot, readAhead: bool)
    requires a.gets != [] && a.gets[0] in a.conns && a.conns[a.gets[0]].Bare() && First(a.turns).hit
             && First(a.turns).tail && a.free == 0
    requires Now(a.conns, b.conns, a.gets[0], a.conns[a.gets[0]])
    requires b == a.(turns := Rest(a.turns), gets := a.gets[1..] + [a.gets[0]], conns := b.conns)
    ensures GetRetried(a, b, true, readAhead)
  {
    hide Others, DrainGets;
    PutBackStep(WaitersOf(a.gets, a.conns), a.turns, readAhead);
  }

  /** It was a hit, which streams now. */
  lemma RetriedHit(a: Snapshot, b: Snapshot, readAhead: bool)
    requires a.gets != [] && NoDup(a.gets) && a.gets[0] in b.conns && Others(a.conns, b.conns, a.gets[0])
             && b.turns == Rest(a.turns) && b.gets == a.gets[1..] && b.sets == a.sets
    requires var t := First(a.turns);
             t.hit && (t.tail ==> a.free > 0)
             && b.free == a.free - LanesFor(t.tail, a.free, readAhead)
    requires var k := b.conns[a.gets[0]]; !k.phase.GetWait? && !k.Stuck()
    ensures GetRetried(a, b, false, readAhead)
  {
    hide Others, LanesFor, DrainGets;
    HitStep(WaitersOf(a.gets, a.conns), a.turns, a.free, readAhead);
    WaitersNext(a.gets, a.conns, b.conns, false);
    assert a.gets[1..] + [] == a.gets[1..] && WaitersOf(a.gets, a.conns)[1..] + [] == WaitersOf(a.gets, a.conns)[1..];
  }

  /** It was a miss, and the request loop took over, from state `m`. */
  lemma RetriedMiss(a: Snapshot, m: Snapshot, b: Snapshot, readAhead: bool)
    requires a.gets != [] && NoDup(a.gets) && a.gets[0] in a.conns && a.conns[a.gets[0]].Bare() && !First(a.turns).hit
    requires m == a.(turns := Rest(a.turns), gets := a.gets[1..], conns := m.conns)
    requires var c, k := a.gets[0], a.conns[a.gets[0]];
             Now(a.conns, m.conns, c, k.(phase := Idle, out := k.out || First(a.turns).reply))
    requires Handled(m, b, a.gets[0], HandleOf(m, a.gets[0], readAhead))
    ensures GetRetried(a, b, false, readAhead)
  {
    hide Others, Handle, DrainGets;
    var c := a.gets[0];
    OthersThen(a.conns, m.conns, b.conns, c);
    WaitersNext(a.gets, a.conns, b.conns, b.conns[c].phase.GetWait?);
    var r, t, q := HandleOf(m, c, readAhead), First(a.turns), WaitersOf(a.gets, a.conns);
    assert r == Handle(Rest(a.turns), Idle, q[0].out || t.reply, q[0].quit, a.free, readAhead);
    assert WaitersOf(b.gets, b.conns) == q[1..] + if r.end.ParkGet? then [Waiter(r.out, r.quit)] else [];
    assert b.conns[c].Stuck() <==> r.end.Close?;
    MissStep(q, a.turns, a.free, readAhead, r, WaitersOf(b.gets, b.conns));
  }

  /** The first write in the queue was retried: it stays, or it has been dealt with. */
  ghost predicate SetRetried(a: Snapshot, b: Snapshot, stays: bool, readAhead: bool)
    requires a.sets != []
  {
    var c := a.sets[0];
    && c in b.conns && (stays ==>
                        b == a.(turns := b.turns) && SetsLeft(a, readAhead) ==
                        Drained(b.turns, b.free, 0, false, 0))
    && (!stays ==>
          && Others(a.conns, b.conns, c) && a.gets <= b.gets
          && b.sets == a.sets[1..] + (if b.conns[c].phase.SetWait? then [c] else [])
          && Fewer(a.turns, a.sets, b.turns, b.sets)
          && SetsLeft(a, readAhead) == Also(SetsLeft(b, readAhead), b.conns[c].Stuck()))
  }

  lemma StaysBlocked(a: Snapshot, b: Snapshot, readAhead: bool)
    requires a.sets != [] && a.sets[0] in a.conns && First(a.turns).blocked && b == a.(turns := Rest(a.turns))
    ensures SetRetried(a, b, true, readAhead)
  {
    hide DrainSets;
    StillBlocked(WaitersOf(a.sets, a.conns), a.turns, a.free, readAhead);
  }

  lemma RetriedSet(a: Snapshot, m: Snapshot, b: Snapshot, readAhead: bool)
    requires a.sets != [] && NoDup(a.sets) && a.sets[0] in a.conns && a.conns[a.sets[0]].Bare()
             && !First(a.turns).blocked
    requires m == a.(turns := Rest(a.turns), sets := a.sets[1..], conns := m.conns)
    requires Now(a.conns, m.conns, a.sets[0], a.conns[a.sets[0]].(phase := SetBody))
             && Handled(m, b, a.sets[0], HandleOf(m, a.sets[0], readAhead))
    ensures SetRetried(a, b, false, readAhead)
  {
    hide Others, Handle, DrainSets;
    var c := a.sets[0];
    OthersThen(a.conns, m.conns, b.conns, c);
    WaitersNext(a.sets, a.conns, b.conns, b.conns[c].phase.SetWait?);
    var r, q := HandleOf(m, c, readAhead), WaitersOf(a.sets, a.conns);
    assert r == Handle(Rest(a.turns), SetBody, q[0].out, q[0].quit, a.free, readAhead);
    assert WaitersOf(b.sets, b.conns) == q[1..] + if r.end.ParkSet? then [Waiter(r.out, r.quit)] else [];
    assert b.conns[c].Stuck() <==> r.end.Close?;
    SetStep(q, a.turns, a.free, readAhead, r, WaitersOf(b.sets, b.conns));
  }

  /**
    A drain came from `s` to `b`, closing `closed` connections that are stuck now; the others that were stuck
    still are.
  */
  ghost predicate Closed(s: Snapshot, b: Snapshot, closed: nat) {
    s.conns.Keys == b.conns.Keys && |StuckIn(b.conns)| == |StuckIn(s.conns)| + closed && StuckStay(s.conns, b.conns)
  }

  lemma ClosedMore(s: Snapshot, a: Snapshot, b: Snapshot, closed: nat, c: nat)
    requires Closed(s, a, closed) && c in a.conns && c in b.conns && !a.conns[c].Stuck() && Others(a.conns, b.conns, c)
    ensures Closed(s, b, closed + if b.conns[c].Stuck() then 1 else 0)
  {
    hide Others, StuckIn, StuckStay;
    OneMore(a.conns, b.conns, c);
    StuckStayThen(s.conns, a.conns, b.conns);
  }

  /** After `served` connections left the queue `q`, `d` is what is left of `all`. */
  ghost predicate SoFar(all: Drained, d: Drained, q: seq<nat>, now: seq<nat>, served: nat, closed: nat) {
    served <= |q| && now == q[served..] && all == d.(served := d.served + served, closed := d.closed + closed)
  }

  lemma OneServed(all: Drained, d: Drained, d': Drained, q: seq<nat>, now: seq<nat>, now': seq<nat>, served: nat,
                  closed: nat, closes: bool, back: seq<nat>)
    requires SoFar(all, d, q, now, served, closed) && d == Also(d', closes) && now != [] && now' == now[1..] + back
    ensures SoFar(all, d', q + back, now', served + 1, closed + if closes then 1 else 0)
  {
    assert q[served..][1..] + back == (q + back)[served + 1..];
  }

  lemma NobodyWaits(s: Snapshot, readAhead: bool)
    ensures s.gets == [] ==> GetsLeft(s, readAhead) == Drained(s.turns, s.free, 0, false, 0)
    ensures s.sets == [] ==> SetsLeft(s, readAhead) == Drained(s.turns, s.free, 0, false, 0)
  {
  }

  /** Rotating a queue of distinct connections by one keeps its order only if it is of one. */
  lemma Rotated(q: seq<nat>, r: seq<nat>)
    requires q != [] && r == q[1..] + [q[0]] && NoDup(r)
    ensures r == q <==> |q| == 1
  {
    if |q| > 1 {
      assert r[0] == q[1] && r[|r| - 1] == q[0];
    }
  }

  lemma DrainStarts(s: Snapshot, readAhead: bool)
    ensures SoFar(GetsLeft(s, readAhead), GetsLeft(s, readAhead), s.gets + [], s.gets, 0, 0)
    ensures SoFar(SetsLeft(s, readAhead), SetsLeft(s, readAhead), s.sets + [], s.sets, 0, 0)
    ensures Closed(s, s, 0)
  {
    hide DrainGets, DrainSets, WaitersOf;
  }

  lemma SameClosed(s: Snapshot, a: Snapshot, b: Snapshot, closed: nat)
    requires Closed(s, a, closed) && b.conns == a.conns
    ensures Closed(s, b, closed)
  {
  }

  /** What a drain comes to, in terms of the connections that are stuck. */
  ghost predicate DrainOk(s: Snapshot, b: Snapshot, d: Drained) {
    && s.conns.Keys == b.conns.Keys && StuckStay(s.conns, b.conns)
       && |StuckIn(b.conns)| == |StuckIn(s.conns)| + d.closed
    && (StuckIn(b.conns) == {} <==> StuckIn(s.conns) == {} && d.closed == 0)
  }

  lemma GetServed(s: Snapshot, a: Snapshot, b: Snapshot, parked: seq<nat>, served: nat, closed: nat,
                  readAhead: bool) returns (back: seq<nat>, closes: nat)
    requires a.gets != [] && a.gets[0] in a.conns && !a.conns[a.gets[0]].Stuck() && GetRetried(a, b, false, readAhead)
             && Closed(s, a, closed)
    requires SoFar(GetsLeft(s, readAhead), GetsLeft(a, readAhead), s.gets + parked, a.gets, served, closed)
    ensures |back| <= 1 && Closed(s, b, closed + closes) && Fewer(a.turns, a.gets, b.turns, b.gets) && a.sets <= b.sets
    ensures SoFar(GetsLeft(s, readAhead), GetsLeft(b, readAhead), s.gets + (parked + back), b.gets, served + 1,
                  closed + closes)
  {
    hide Others, DrainGets, WaitersOf, Closed, SoFar;
    var c := a.gets[0];
    back, closes := if b.conns[c].phase.GetWait? then [c] else [], if b.conns[c].Stuck() then 1 else 0;
    ClosedMore(s, a, b, closed, c);
    OneServed(GetsLeft(s, readAhead), GetsLeft(a, readAhead), GetsLeft(b, readAhead), s.gets + parked, a.gets, b.gets,
              served, closed, b.conns[c].Stuck(), back);
    assert s.gets + parked + back == s.gets + (parked + back);
  }

  lemma SetServed(s: Snapshot, a: Snapshot, b: Snapshot, parked: seq<nat>, served: nat, closed: nat,
                  readAhead: bool) returns (back: seq<nat>, closes: nat)
    requires a.sets != [] && a.sets[0] in a.conns && !a.conns[a.sets[0]].Stuck() && SetRetried(a, b, false, readAhead)
             && Closed(s, a, closed)
    requires SoFar(SetsLeft(s, readAhead), SetsLeft(a, readAhead), s.sets + parked, a.sets, served, closed)
    ensures Closed(s, b, closed + closes) && Fewer(a.turns, a.sets, b.turns, b.sets) && a.gets <= b.gets
    ensures SoFar(SetsLeft(s, readAhead), SetsLeft(b, readAhead), s.sets + (parked + back), b.sets, served + 1,
                  closed + closes)
  {
    hide Others, DrainSets, WaitersOf, Closed, SoFar;
    var c := a.sets[0];
    back, closes := if b.conns[c].phase.SetWait? then [c] else [], if b.conns[c].Stuck() then 1 else 0;
    ClosedMore(s, a, b, closed, c);
    OneServed(SetsLeft(s, readAhead), SetsLeft(a, readAhead), SetsLeft(b, readAhead), s.sets + parked, a.sets, b.sets,
              served, closed, b.conns[c].Stuck(), back);
    assert s.sets + parked + back == s.sets + (parked + back);
  }

  lemma SetStays(s: Snapshot, a: Snapshot, b: Snapshot, parked: seq<nat>, served: nat, closed: nat, readAhead: bool)
    requires a.sets != [] && SetRetried(a, b, true, readAhead) && Closed(s, a, closed)
    requires SoFar(SetsLeft(s, readAhead), SetsLeft(a, readAhead), s.sets + parked, a.sets, served, closed)
    ensures Closed(s, b, closed) && b.gets == a.gets
    ensures SoFar(SetsLeft(s, readAhead), Drained(b.turns, b.free, 0, false, 0), s.sets + parked, b.sets, served,
                  closed)
  {
    hide Others, DrainSets, WaitersOf, Closed;
    SameClosed(s, a, b, closed);
  }

  lemma GetsDone(s: Snapshot, b: Snapshot, q: seq<nat>, served: nat, closed: nat, readAhead: bool)
    requires SoFar(GetsLeft(s, readAhead), GetsLeft(b, readAhead), q, b.gets, served, closed) && Closed(s, b, closed)
             && b.gets == []
    ensures GetsLeft(s, readAhead) == Drained(b.turns, b.free, served, false, closed)
            && DrainOk(s, b, GetsLeft(s, readAhead)) && served == |q|
  {
    hide DrainGets, WaitersOf, StuckIn, StuckStay;
    NobodyWaits(b, readAhead);
  }

  lemma GetsEnd(s: Snapshot, a: Snapshot, b: Snapshot, q: seq<nat>, served: nat, closed: nat, readAhead: bool)
    requires a.gets != [] && SoFar(GetsLeft(s, readAhead), GetsLeft(a, readAhead), q, a.gets, served, closed)
             && Closed(s, a, closed)
    requires a.gets[0] in a.conns && !a.conns[a.gets[0]].Stuck() && GetRetried(a, b, true, readAhead) && NoDup(b.gets)
    ensures GetsLeft(s, readAhead) == Drained(b.turns, b.free, served, true, closed)
            && DrainOk(s, b, GetsLeft(s, readAhead))
    ensures a.sets <= b.sets && b.free == 0 && served < |q| && b.gets == q[served + 1..] + [q[served]]
            && (b.gets == q[served..] <==> served + 1 == |q|)
  {
    hide DrainGets, WaitersOf, StuckIn, StuckStay, Others, NoDup;
    ClosedMore(s, a, b, closed, a.gets[0]);
    Rotated(q[served..], b.gets);
    assert q[served..][1..] == q[served + 1..];
  }

  lemma SetsDone(s: Snapshot, b: Snapshot, q: seq<nat>, served: nat, closed: nat, readAhead: bool, stays: bool)
    requires Closed(s, b, closed) && (stays || b.sets == [])
    requires SoFar(SetsLeft(s, readAhead), if stays then Drained(b.turns, b.free, 0, false, 0)
                   else SetsLeft(b, readAhead), q, b.sets, served, closed)
    ensures SetsLeft(s, readAhead) == Drained(b.turns, b.free, served, false, closed)
            && DrainOk(s, b, SetsLeft(s, readAhead))
    ensures served <= |q| && b.sets == q[served..]
  {
    hide DrainSets, WaitersOf, StuckIn, StuckStay;
    NobodyWaits(b, readAhead);
  }

  // ---------------------------------------------------------------- the loop

  class Loop {
    const count: nat                 // buffers in the pool
    const readAhead: bool

    var free: seq<nat>
    var conns: Conns
    var getWaiters: seq<nat>
    var setWaiters: seq<nat>
    var turns: seq<Turn>             // what the environment does next
    ghost var owner: map<nat, nat>   // the connection that holds a buffer

    ghost predicate Inv(x: Option<nat>)
      reads this`free, this`conns, this`getWaiters, this`setWaiters, this`owner
    {
      && Partition(count, free, conns, owner)
      && QueueOk(getWaiters, conns, GetWait, x) && QueueOk(setWaiters, conns, SetWait, x)
      && ConnsOk(conns, x)
    }

    constructor (count: nat, readAhead: bool, turns: seq<Turn>)
      ensures Inv(None) && this.count == count && this.readAhead == readAhead && this.turns == turns
      ensures free == seq(count, i => i) && conns == map[] && getWaiters == [] && setWaiters == []
    {
      this.count, this.readAhead, this.turns := count, readAhead, turns;
      free := seq(count, i => i);
      conns, getWaiters, setWaiters, owner := map[], [], [], map[];
      new;
      forall b: nat
        ensures b in free <==> b < count
      {
        assert b < count ==> free[b] == b;
      }
    }

    ghost function Snap(): Snapshot
      reads this`conns, this`free, this`getWaiters, this`setWaiters, this`turns
    {
      Snapshot(conns, |free|, getWaiters, setWaiters, turns)
    }

    /** The environment's next turn. */
    method NextTurn() returns (t: Turn)
      modifies this`turns
      ensures t == First(old(turns)) && turns == Rest(old(turns))
    {
      t := First(turns);
      turns := Rest(turns);
    }

    /** The connection being dealt with changes, keeping its buffers. */
    method Update(c: nat, k: Conn)
      requires Inv(Some(c)) && c in conns && k.lanes == conns[c].lanes
      modifies this`conns
      ensures Inv(Some(c)) && Now(old(conns), conns, c, k)
      ensures !k.Parked() && k.Safe() && k.Tended() ==> Inv(None)
    {
      hide Partition, QueueOk;
      SameLanes(count, free, conns, owner, c, k);
      KeepQueue(getWaiters, conns, GetWait, c, k);
      KeepQueue(setWaiters, conns, SetWait, c, k);
      conns := conns[c := k];
    }

    /** Take a buffer from the pool into a lane of `c`. */
    method Borrow(c: nat)
      requires Inv(Some(c)) && c in conns && free != []
      modifies this`free, this`conns, this`owner
      ensures Inv(Some(c)) && c in conns && Now(old(conns), conns, c, old(conns[c]).(lanes := conns[c].lanes))
      ensures |conns[c].lanes| == |old(conns[c].lanes)| + 1 && |free| == |old(free)| - 1
    {
      hide Partition, QueueOk;
      BorrowPartition(count, free, conns, owner, c);
      var b := free[|free| - 1];
      var k := conns[c].(lanes := conns[c].lanes + [b]);
      KeepQueue(getWaiters, conns, GetWait, c, k);
      KeepQueue(setWaiters, conns, SetWait, c, k);
      free := free[..|free| - 1];
      owner := owner[b := c];
      conns := conns[c := k];
    }

    /** All lanes of `c` go back to the pool. */
    method ReleaseLanes(c: nat)
      requires Inv(Some(c)) && c in conns
      modifies this`free, this`conns, this`owner
      ensures Inv(Some(c)) && Now(old(conns), conns, c, old(conns[c]).(lanes := []))
      ensures |free| == |old(free)| + |old(conns[c].lanes)|
      ensures forall b :: b in old(conns[c].lanes) || b in old(free) ==> b in free
    {
      hide Inv, Others;
      OthersSelf(conns, c);
      while conns[c].lanes != []
        invariant Inv(Some(c)) && c in conns && Now(old(conns), conns, c, old(conns[c]).(lanes := conns[c].lanes))
        invariant |free| + |conns[c].lanes| == |old(free)| + |old(conns[c].lanes)|
        invariant forall b :: b in old(conns[c].lanes) || b in old(free) ==> b in free || b in conns[c].lanes
        decreases |conns[c].lanes|
      {
        ghost var was := conns;
        ReleaseOne(c);
        OthersThen(old(conns), was, conns, c);
      }
    }

    method ReleaseOne(c: nat)
      requires Inv(Some(c)) && c in conns && conns[c].lanes != []
      modifies this`free, this`conns, this`owner
      ensures Inv(Some(c)) && Now(old(conns), conns, c, old(conns[c]).(lanes := old(conns[c].lanes)[1..]))
              && free == old(free) + [old(conns[c].lanes)[0]]
    {
      hide Partition, QueueOk;
      var b := conns[c].lanes[0];
      var k := conns[c].(lanes := conns[c].lanes[1..]);
      ReleasePartition(count, free, conns, owner, c, k);
      KeepQueue(getWaiters, conns, GetWait, c, k);
      KeepQueue(setWaiters, conns, SetWait, c, k);
      free := free + [b];
      owner := owner - {b};
      conns := conns[c := k];
    }

    // -------------------------------------------------------------- GETs

    /** Park `c` at the back of the GET queue. */
    method ParkGet(c: nat)
      requires Inv(Some(c)) && c in conns && conns[c].Bare()
      modifies this`conns, this`getWaiters
      ensures Inv(None) && Now(old(conns), conns, c, old(conns[c]).(phase := GetWait))
              && getWaiters == old(getWaiters) + [c]
    {
      hide Partition, QueueOk;
      var k := conns[c].(phase := GetWait);
      SameLanes(count, free, conns, owner, c, k);
      PushQueue(getWaiters, conns, GetWait, c, k);
      KeepQueue(setWaiters, conns, SetWait, c, k);
      conns := conns[c := k];
      getWaiters := getWaiters + [c];
    }

    method ParkSet(c: nat)
      requires Inv(Some(c)) && c in conns && conns[c].Bare()
      modifies this`conns, this`setWaiters
      ensures Inv(None) && Now(old(conns), conns, c, old(conns[c]).(phase := SetWait))
              && setWaiters == old(setWaiters) + [c]
    {
      hide Partition, QueueOk;
      var k := conns[c].(phase := SetWait);
      SameLanes(count, free, conns, owner, c, k);
      KeepQueue(getWaiters, conns, GetWait, c, k);
      PushQueue(setWaiters, conns, SetWait, c, k);
      conns := conns[c := k];
      setWaiters := setWaiters + [c];
    }

    /**
      Open a GET: a miss, a hit that the pinned head covers, or a hit with a tail, which needs a buffer
      and takes a second one when read-ahead is on and one is free. It parks exactly when it needs a
      buffer and the pool is empty.
    */
    method BeginGet(c: nat, t: Turn) returns (ok: bool)
      requires Inv(Some(c)) && c in conns && conns[c].Bare()
      modifies this`free, this`conns, this`owner, this`getWaiters
      ensures ok <==> !(t.hit && t.tail && old(free) == [])
      ensures !ok ==>
              Inv(None) && Now(old(conns), conns, c, old(conns[c]).(phase := GetWait)) && free == old(free)
              && getWaiters == old(getWaiters) + [c]
      ensures ok ==>
              Inv(Some(c)) && getWaiters == old(getWaiters) && c in conns
              && |free| == |old(free)| - |conns[c].lanes|
      ensures ok && !t.hit ==> free == old(free) && Now(old(conns), conns, c,
                                                        old(conns[c]).(phase := Idle, out := old(conns[c].out)
                                                            || t.reply))
      ensures ok && t.hit ==> Now(old(conns), conns, c, old(conns[c]).(phase := Serving, out := true,
                lanes := conns[c].lanes))
      ensures ok && t.hit ==>
                |conns[c].lanes| == if !t.tail then 0 else if readAhead && |old(free)| > 1 then 2 else 1
    {
      hide Inv, Others;
      if !t.hit {
        Update(c, conns[c].(phase := Idle, out := conns[c].out || t.reply));
        return true;
      }
      if t.tail {
        if free == [] {
          ParkGet(c);
          return false;
        }
        Borrow(c);
        if readAhead && free != [] {
          ghost var one := conns;
          Borrow(c);
          OthersThen(old(conns), one, conns, c);
        }
      }
      ghost var held := conns;
      Update(c, conns[c].(phase := Serving, out := true));
      OthersThen(old(conns), held, conns, c);
      ok := true;
    }

    // -------------------------------------------------------------- the request loop of one connection

    /** The next operation of `c` is submitted: a reply, a response header or a receive. */
    method Submit(c: nat)
      requires Inv(Some(c)) && c in conns && !conns[c].Parked() && !conns[c].closing && conns[c].Ops() == 0
      requires conns[c].lanes != [] ==> conns[c].phase == Serving
      modifies this`conns
      ensures Inv(None) && Now(old(conns), conns, c, old(conns[c]).(send := Plain))
    {
      Update(c, conns[c].(send := Plain));
    }

    /** One pass of the loop: it goes round again, breaks out, or has parked the connection. */
    method OneRequest(c: nat, t: Turn) returns (again: bool, parked: bool)
      requires Inv(Some(c)) && c in conns && conns[c].Bare() && (conns[c].phase.Idle? || conns[c].phase.SetBody?)
      modifies this`free, this`conns, this`owner, this`getWaiters, this`setWaiters
      ensures c in conns && !(again && parked) && Passed(old(Snap()), Snap(), c, t, readAhead, again, parked)
              && if parked then Inv(None) else Inv(Some(c))
    {
      hide Inv, Others;
      OthersSelf(conns, c);
      if conns[c].phase.SetBody? {
        if t.complete {
          Update(c, conns[c].(phase := Idle, out := conns[c].out || t.reply));
        }
        return t.complete, false;
      }
      again, parked := OneCommand(c, t);
    }

    method GetCommand(c: nat, t: Turn) returns (parked: bool)
      requires Inv(Some(c)) && c in conns && conns[c].Bare() && conns[c].phase.Idle? && t.ask.Get?
      modifies this`free, this`conns, this`owner, this`getWaiters
      ensures c in conns && Passed(old(Snap()), Snap(), c, t, readAhead, !t.hit, parked) && if parked then Inv(None)
              else Inv(Some(c))
    {
      hide Inv, Others;
      var ok := BeginGet(c, t);
      parked := !ok;
    }

    method SetCommand(c: nat, t: Turn) returns (parked: bool)
      requires Inv(Some(c)) && c in conns && conns[c].Bare() && conns[c].phase.Idle? && t.ask.Set?
      modifies this`conns, this`setWaiters
      ensures c in conns && Passed(old(Snap()), Snap(), c, t, readAhead, !parked, parked) && if parked then Inv(None)
              else Inv(Some(c))
    {
      hide Inv, Others;
      if t.blocked {
        ParkSet(c);
      } else {
        Update(c, conns[c].(phase := SetBody));
      }
      parked := t.blocked;
    }

    method OneCommand(c: nat, t: Turn) returns (again: bool, parked: bool)
      requires Inv(Some(c)) && c in conns && conns[c].Bare() && conns[c].phase.Idle?
      modifies this`free, this`conns, this`owner, this`getWaiters, this`setWaiters
      ensures c in conns && !(again && parked) && Passed(old(Snap()), Snap(), c, t, readAhead, again, parked)
              && if parked then Inv(None) else Inv(Some(c))
    {
      hide Inv, Others, Passed;
      OthersSelf(conns, c);
      if t.ask.Get? {
        parked := GetCommand(c, t);
        again := !t.hit;
        NotBoth(old(Snap()), Snap(), c, t, readAhead, again, parked);
      } else if t.ask.Set? {
        parked := SetCommand(c, t);
        again := !parked;
      } else {
        if t.ask.Quit? {
          Update(c, conns[c].(quit := true));
        } else if t.ask.Other? {
          Update(c, conns[c].(out := conns[c].out || t.reply));
        }
        again, parked := t.ask.Other?, false;
        PassedQuietly(old(Snap()), Snap(), c, t, readAhead);
      }
    }

    /** The loop is over: close, send what is queued, or receive. */
    method Finish(c: nat, overlong: bool)
      requires Inv(Some(c)) && c in conns && !conns[c].Parked() && !conns[c].closing && conns[c].Ops() == 0
      requires conns[c].lanes != [] ==> conns[c].phase == Serving
      requires conns[c].phase == Serving ==> conns[c].out
      modifies this`conns
      ensures var k := old(conns[c]);
              var close := Closes(k, overlong);
              Inv(None) && Now(old(conns), conns, c, k.(closing := close, send := if close then NoSend else Plain))
    {
      var k := conns[c];
      if k.phase.Idle? && overlong {
        Update(c, k.(closing := true));
      } else if k.out {
        Submit(c);
      } else if k.quit {
        Update(c, k.(closing := true));
      } else {
        Submit(c);
      }
    }

    /**
      Go through the requests buffered for `c` until one parks it, starts a stream, or there is nothing to do
      but wait or close.
    */
    method Process(c: nat)
      requires Inv(Some(c)) && c in conns && conns[c].Bare() && (conns[c].phase.Idle? || conns[c].phase.SetBody?)
      modifies this
      ensures Inv(None) && Handled(old(Snap()), Snap(), c, HandleOf(old(Snap()), c, readAhead))
    {
      hide Inv, Others, Passed, Broken, Handle, Halt, Goes;
      OthersSelf(conns, c);
      ghost var s := Snap();
      var again, parked := true, false;
      var t := NO_NEWS;
      ghost var before := s;
      while again
        invariant c in before.conns && Going(s, before, c, readAhead)
        invariant again ==> before == Snap() && Inv(Some(c))
        invariant !again ==>
                  t == First(before.turns) && turns == Rest(before.turns)
                  && Passed(before.(turns := turns), Snap(), c, t, readAhead, false, parked)
        invariant !again ==> if parked then Inv(None) else Inv(Some(c))
        decreases again, |turns|
      {
        t := NextTurn();
        again, parked := OneRequest(c, t);
        if again {
          GoesOn(s, before, Snap(), c, t, readAhead);
          before := Snap();
        }
      }
      Stops(s, before, Snap(), c, t, readAhead, parked);
      if !parked {
        ghost var broken := Snap();
        Finish(c, t.overlong);
        Submitted(s, broken, Snap(), c, HandleOf(s, c, readAhead), Closes(broken.conns[c], t.overlong));
      }
    }

    // -------------------------------------------------------------- waking up

    /** The connection at the front of the GET queue leaves it. */
    method PopGet() returns (c: nat)
      requires Inv(None) && getWaiters != []
      modifies this`getWaiters
      ensures Inv(Some(c)) && c == old(getWaiters)[0] && getWaiters == old(getWaiters)[1..] && c in conns
              && conns[c].Bare() && conns[c].phase.GetWait?
      ensures NoDup(old(getWaiters))
    {
      hide Partition, NoDup;
      c := getWaiters[0];
      FrontParked(getWaiters, conns, GetWait);
      PopQueue(getWaiters, conns, GetWait);
      TakeOut(setWaiters, conns, SetWait, c);
      getWaiters := getWaiters[1..];
    }

    method PopSet() returns (c: nat)
      requires Inv(None) && setWaiters != []
      modifies this`setWaiters
      ensures Inv(Some(c)) && c == old(setWaiters)[0] && setWaiters == old(setWaiters)[1..] && c in conns
              && conns[c].Bare()
      ensures NoDup(old(setWaiters))
    {
      hide Partition, NoDup;
      c := setWaiters[0];
      FrontParked(setWaiters, conns, SetWait);
      PopQueue(setWaiters, conns, SetWait);
      TakeOut(getWaiters, conns, GetWait, c);
      setWaiters := setWaiters[1..];
    }

    /** Retry the GET at the front of the queue; without a buffer for it, it goes to the back. */
    method RetryGet() returns (putBack: bool)
      requires Inv(None) && getWaiters != []
      modifies this
      ensures Inv(None) && GetRetried(old(Snap()), Snap(), putBack, readAhead)
      ensures var c := old(getWaiters)[0]; c in old(conns) && !old(conns[c]).Stuck()
    {
      hide Inv, NoDup, Others, Handled, GetRetried;
      ghost var a := Snap();
      var c := PopGet();
      var t := NextTurn();
      var ok := BeginGet(c, t);
      if !ok {
        RetriedInVain(a, Snap(), readAhead);
        return true;
      }
      ghost var m := Snap();
      if conns[c].phase == Serving {
        Submit(c);
        OthersThen(a.conns, m.conns, conns, c);
        RetriedHit(a, Snap(), readAhead);
      } else {
        Process(c);
        RetriedMiss(a, m, Snap(), readAhead);
      }
      putBack := false;
    }

    /** Retry the write at the front of the queue; without a staging buffer it stays there. */
    method RetrySet() returns (stays: bool)
      requires Inv(None) && setWaiters != []
      modifies this
      ensures Inv(None) && SetRetried(old(Snap()), Snap(), stays, readAhead)
      ensures var c := old(setWaiters)[0]; c in old(conns) && !old(conns[c]).Stuck()
    {
      hide Inv, NoDup, Others, Handled, SetRetried;
      ghost var a := Snap();
      FrontSet();
      var t := NextTurn();
      if t.blocked {
        StaysBlocked(a, Snap(), readAhead);
        return true;
      }
      var c := PopSet();
      Update(c, conns[c].(phase := SetBody));
      ghost var m := Snap();
      Process(c);
      RetriedSet(a, m, Snap(), readAhead);
      stays := false;
    }

    lemma FrontSet()
      requires Inv(None) && setWaiters != []
      ensures setWaiters[0] in conns && !conns[setWaiters[0]].Stuck()
    {
      hide Partition, NoDup;
      FrontParked(setWaiters, conns, SetWait);
    }

    /**
      Retry parked GETs. Afterwards a connection waits only if the pool is empty. The queue goes through in
      order, those that park anew joining at the back; the one that ends the drain for want of a buffer goes
      to the back too. So the order is kept if and only if nobody was put back, or nobody else was left.
      Every connection that the drain closes is stuck.
    */
    method DrainGetWaiters() returns (served: nat, putBack: bool, ghost parked: seq<nat>)
      requires Inv(None)
      modifies this
      ensures Inv(None) && conns.Keys == old(conns.Keys) && (getWaiters != [] ==> free == [])
              && old(setWaiters) <= setWaiters
      ensures var d := GetsLeft(old(Snap()), readAhead);
              d == Drained(turns, |free|, served, putBack, d.closed)
                && |StuckIn(conns)| == |StuckIn(old(conns))| + d.closed
      ensures StuckIn(conns) == {} <==>
                StuckIn(old(conns)) == {} && forall v :: v in GetsVisited(old(Snap()), readAhead) ==> !v.Closes()
      ensures StuckStay(old(conns), conns) && |parked| <= served
      ensures var q := old(getWaiters) + parked;
              if putBack then served < |q| && getWaiters == q[served + 1..] + [q[served]]
                else served == |q| && getWaiters == []
      ensures var q := old(getWaiters) + parked;
              getWaiters == q[served..] <==> !putBack || served + 1 == |q|
    {
      hide Inv, NoDup, Others, GetsLeft, GetsVisited, Visit.Closes, GetRetried, StuckIn, StuckStay, Closed, SoFar;
      served, putBack, parked := 0, false, [];
      ghost var s, closed := Snap(), 0;
      GetsClosed(s, readAhead);
      DrainStarts(s, readAhead);
      while getWaiters != []
        invariant Inv(None) && old(setWaiters) <= setWaiters && |parked| <= served
        invariant SoFar(GetsLeft(s, readAhead), GetsLeft(Snap(), readAhead), s.gets + parked, getWaiters, served,
                        closed) && Closed(s, Snap(), closed)
        decreases |turns|, |getWaiters|
      {
        ghost var a := Snap();
        putBack := RetryGet();
        if putBack {
          DistinctQueue();
          GetsEnd(s, a, Snap(), s.gets + parked, served, closed, readAhead);
          return;
        }
        ghost var back, closes := GetServed(s, a, Snap(), parked, served, closed, readAhead);
        parked, served, closed := parked + back, served + 1, closed + closes;
      }
      GetsDone(s, Snap(), s.gets + parked, served, closed, readAhead);
    }

    lemma DistinctQueue()
      requires Inv(None)
      ensures NoDup(getWaiters)
    {
    }

    /**
      Retry parked writes in the order they were parked: whoever still waits, waits in the same order. Every
      connection that the drain closes is stuck.
    */
    method DrainSetWaiters() returns (served: nat, ghost parked: seq<nat>)
      requires Inv(None)
      modifies this
      ensures Inv(None) && conns.Keys == old(conns.Keys) && old(getWaiters) <= getWaiters
      ensures var d := SetsLeft(old(Snap()), readAhead);
              d == Drained(turns, |free|, served, false, d.closed)
                && |StuckIn(conns)| == |StuckIn(old(conns))| + d.closed
      ensures StuckIn(conns) == {} <==>
                StuckIn(old(conns)) == {} && forall v :: v in SetsVisited(old(Snap()), readAhead) ==> !v.Closes()
      ensures StuckStay(old(conns), conns)
      ensures var q := old(setWaiters) + parked; served <= |q| && setWaiters == q[served..]
    {
      hide Inv, NoDup, Others, SetsLeft, SetsVisited, Visit.Closes, SetRetried, StuckIn, StuckStay, Closed, SoFar;
      served, parked := 0, [];
      ghost var s, closed := Snap(), 0;
      SetsClosed(s, readAhead);
      DrainStarts(s, readAhead);
      var stays := false;
      while setWaiters != [] && !stays
        invariant Inv(None) && old(getWaiters) <= getWaiters
        invariant !stays ==> SoFar(SetsLeft(s, readAhead), SetsLeft(Snap(), readAhead), s.sets + parked, setWaiters,
                                   served, closed)
        invariant stays ==> SoFar(SetsLeft(s, readAhead), Drained(turns, |free|, 0, false, 0), s.sets + parked,
                                  setWaiters, served, closed)
        invariant Closed(s, Snap(), closed)
        decreases !stays, |turns|, |setWaiters|
      {
        ghost var a := Snap();
        stays := RetrySet();
        if stays {
          SetStays(s, a, Snap(), parked, served, closed, readAhead);
        } else {
          ghost var back, closes := SetServed(s, a, Snap(), parked, served, closed, readAhead);
          parked, served, closed := parked + back, served + 1, closed + closes;
        }
      }
      SetsDone(s, Snap(), s.sets + parked, served, closed, readAhead, stays);
    }

    /** The end of every turn of the loop: both queues are drained. `mid` is the state between the two. */
    method WakeUp() returns (ghost mid: Snapshot)
      requires Inv(None)
      modifies this
      ensures Inv(None) && conns.Keys == old(conns.Keys) && (getWaiters != [] ==> free == [])
              && StuckStay(old(conns), conns)
      ensures var d := SetsLeft(old(Snap()), readAhead);
              && mid.turns == d.left && mid.free == d.free && old(getWaiters) <= mid.gets
              && |StuckIn(conns)| == |StuckIn(old(conns))| + d.closed + GetsLeft(mid, readAhead).closed
    {
      hide Inv, WaitersOf, DrainGets, DrainSets, StuckIn, StuckStay;
      StuckStaySelf(conns);
      NobodyWaits(Snap(), readAhead);
      if setWaiters != [] {
        var _, _ := DrainSetWaiters();
      }
      mid := Snap();
      StuckStaySelf(conns);
      NobodyWaits(mid, readAhead);
      if getWaiters != [] {
        var _, _, _ := DrainGetWaiters();
      }
      StuckStayThen(old(conns), mid.conns, conns);
    }

    /**
      A wake-up is never lost: while a GET waits after a turn, some connection holds a buffer and has an
      operation in flight.
    */
    lemma NoLostWakeUp()
      requires Inv(None) && getWaiters != [] && free == [] && count > 0
      ensures exists c :: c in conns && conns[c].lanes != [] && conns[c].Ops() > 0
    {
      hide QueueOk, NoDup;
      var b: nat := 0;
      assert b !in free && b in owner;
      var c := owner[b];
      assert c in conns && b in conns[c].lanes;
      assert conns[c].Tended();
    }

    /**
      GET waiters are not first come, first served: with the pool empty, a turn moves the front of the queue to
      its back.
    */
    method GetQueueRotates()
      requires Inv(None) && getWaiters != [] && free == [] && First(turns).hit && First(turns).tail
      modifies this
      ensures Inv(None) && getWaiters == old(getWaiters)[1..] + [old(getWaiters)[0]]
    {
      hide Inv, StuckIn, StuckStay;
      PutBackStep(WaitersOf(getWaiters, conns), turns, readAhead);
      var served, putBack, parked := DrainGetWaiters();
      assert parked == [];
    }

    // -------------------------------------------------------------- completions

    /** An event of a connection that is not parked is being handled. */
    lemma Enter(c: nat)
      requires Inv(None) && c in conns && (!conns[c].Parked() || conns[c].Ops() > 0)
      ensures Inv(Some(c)) && conns[c].Safe() && conns[c].Tended() && !conns[c].Parked()
    {
      hide Partition, QueueOk;
      TakeOut(getWaiters, conns, GetWait, c);
      TakeOut(setWaiters, conns, SetWait, c);
    }

    method Accept(c: nat)
      requires Inv(None) && c !in conns
      modifies this
      ensures Inv(None) && conns == old(conns)[c := Conn(Idle, false, false, false, [], 0, 0, Plain)]
      ensures getWaiters == old(getWaiters) && setWaiters == old(setWaiters) && free == old(free) && turns == old(turns)
      ensures StuckStay(old(conns), conns) && StuckIn(conns) == StuckIn(old(conns))
    {
      hide Partition, QueueOk, StuckIn, StuckStay;
      AddedStuck(conns, c);
      TakeOut(getWaiters, conns, GetWait, c);
      TakeOut(setWaiters, conns, SetWait, c);
      var k := Conn(Idle, false, false, false, [], 0, 0, Plain);
      SameLanes(count, free, conns, owner, c, k);
      KeepQueue(getWaiters, conns, GetWait, c, k);
      KeepQueue(setWaiters, conns, SetWait, c, k);
      conns := conns[c := k];
    }

    /** A closing connection with nothing in flight goes: its buffers return to the pool with no operation on them. */
    method Retire(c: nat)
      requires Inv(Some(c)) && c in conns && conns[c].Stuck()
      modifies this`free, this`conns, this`owner
      ensures Inv(None) && conns == old(conns) - {c} && |free| == |old(free)| + |old(conns[c].lanes)|
    {
      hide Partition, QueueOk;
      ReleaseLanes(c);
      OthersGone(old(conns), conns, c);
      GonePartition(count, free, conns, owner, c);
      KeepQueue(getWaiters, conns, GetWait, c, conns[c]);
      KeepQueue(setWaiters, conns, SetWait, c, conns[c]);
      conns := conns - {c};
    }

    /** The requests buffered for `c` are gone through in a handler; if that closes it, it is retired at once. */
    method ProcessHere(c: nat)
      requires Inv(Some(c)) && c in conns && conns[c].Bare() && (conns[c].phase.Idle? || conns[c].phase.SetBody?)
      modifies this
      ensures Inv(None)
      ensures var r := HandleOf(old(Snap()), c, readAhead);
              if r.end.Close? then conns == old(conns) - {c} && |free| == |old(free)| && getWaiters == old(getWaiters)
                && setWaiters == old(setWaiters)
              else Handled(old(Snap()), Snap(), c, r)
      ensures StuckStay(old(conns), conns) && StuckIn(conns) == StuckIn(old(conns))
    {
      hide Inv, Others, Handle;
      ghost var was := conns;
      Process(c);
      if conns[c].closing {
        Enter(c);
        ghost var m := conns;
        Retire(c);
        OthersGone(was, m, c);
      }
      NoneMore(was, conns, c);
    }

    /** What a receive brings is processed; an error or a closed peer ends the connection. */
    method OnRecv(c: nat, ok: bool)
      requires Inv(None) && c in conns && conns[c].send.Plain? && conns[c].pending == 0 && !conns[c].closing
      requires (conns[c].phase.Idle? || conns[c].phase.SetBody?) && !conns[c].out
      modifies this
      ensures Inv(None) && StuckStay(old(conns), conns) && StuckIn(conns) == StuckIn(old(conns))
      ensures !ok ==> conns == old(conns) - {c}
      ensures ok ==> var s := old(Snap()); var r := Handle(s.turns, s.conns[c].phase, false, s.conns[c].quit, s.free,
                                                           readAhead);
                     if r.end.Close? then conns == s.conns - {c} else Handled(s, Snap(), c, r)
    {
      hide Inv, Others, Handle;
      Enter(c);
      ghost var was := conns;
      Update(c, conns[c].(send := NoSend, closing := !ok));
      ghost var m := conns;
      OthersGone(was, m, c);
      if ok {
        ProcessHere(c);
      } else {
        Retire(c);
      }
      if c in conns {
        OthersThen(was, m, conns, c);
      }
      NoneMore(was, conns, c);
    }

    /** A reply is out: receive the next request, or close after a `quit`. */
    method ReplySent(c: nat)
      requires Inv(None) && c in conns && conns[c].send.Plain? && conns[c].pending == 0 && !conns[c].closing
      requires (conns[c].phase.Idle? || conns[c].phase.SetBody?) && conns[c].out
      modifies this
      ensures Inv(None) && StuckStay(old(conns), conns) && StuckIn(conns) == StuckIn(old(conns))
      ensures if old(conns[c].quit) then conns == old(conns) - {c}
              else Now(old(conns), conns, c, old(conns[c]).(out := false))
    {
      hide Inv, Others;
      Enter(c);
      ghost var was := conns;
      Update(c, conns[c].(send := NoSend, out := false, closing := conns[c].quit));
      ghost var m := conns;
      OthersGone(was, m, c);
      if conns[c].closing {
        Retire(c);
      } else {
        Submit(c);
        OthersThen(was, m, conns, c);
      }
      NoneMore(was, conns, c);
    }

    /** Submissions and completions of a GET being served that leave it with an operation in flight. */
    method Streams(c: nat, pending: nat, into: nat, send: Send)
      requires Inv(None) && c in conns && conns[c].phase == Serving && !conns[c].closing
      requires var k := conns[c].(pending := pending, into := into, send := send); k.Safe() && k.Ops() > 0
      modifies this`conns
      ensures Inv(None) && Now(old(conns), conns, c, old(conns[c]).(pending := pending, into := into, send := send))
      ensures StuckStay(old(conns), conns) && StuckIn(conns) == StuckIn(old(conns))
    {
      hide Inv, Others;
      Enter(c);
      Update(c, conns[c].(pending := pending, into := into, send := send));
      NoneMore(old(conns), conns, c);
    }

    /**
      The last operation of a GET is done: its buffers go back with nothing in flight, and the next requests are
      processed.
    */
    method FinishGet(c: nat)
      requires Inv(None) && c in conns && conns[c].phase == Serving && conns[c].Ops() == 1 && conns[c].pending == 0
               && !conns[c].closing
      modifies this
      ensures Inv(None) && StuckStay(old(conns), conns) && StuckIn(conns) == StuckIn(old(conns))
      ensures old(getWaiters) <= getWaiters && old(setWaiters) <= setWaiters
    {
      hide Inv, Others, Handle;
      Enter(c);
      ghost var was := conns;
      Update(c, conns[c].(send := NoSend));
      ghost var m1 := conns;
      ReleaseLanes(c);
      ghost var m2 := conns;
      Update(c, conns[c].(phase := Idle, out := false));
      ghost var m3 := conns;
      OthersThen(was, m1, m2, c);
      OthersThen(was, m2, m3, c);
      OthersGone(was, m3, c);
      ProcessHere(c);
      if c in conns {
        OthersThen(was, m3, conns, c);
      }
      NoneMore(was, conns, c);
    }

    /** An error or a stalled transfer: the connection closes, and waits for what it has in flight. */
    method Drop(c: nat)
      requires Inv(None) && c in conns && conns[c].Ops() > 0 && !conns[c].closing
      modifies this`conns
      ensures Inv(None) && Now(old(conns), conns, c, old(conns[c]).(closing := true))
      ensures StuckStay(old(conns), conns) && StuckIn(conns) == StuckIn(old(conns))
    {
      hide Others;
      Enter(c);
      Update(c, conns[c].(closing := true));
      NoneMore(old(conns), conns, c);
    }

    /**
      An operation of a closing connection completes; the last one retires it, and only then do its buffers go
      back.
    */
    method OnClosing(c: nat, read: bool)
      requires Inv(None) && c in conns && conns[c].closing && conns[c].Ops() > 0
      modifies this
      ensures Inv(None) && StuckStay(old(conns), conns) && StuckIn(conns) == StuckIn(old(conns))
      ensures old(conns[c].Ops()) == 1 ==> conns == old(conns) - {c} && |free| == |old(free)| + |old(conns[c].lanes)|
      ensures old(conns[c].Ops()) > 1 ==>
              c in conns && conns[c].Ops() == old(conns[c].Ops()) - 1
              && conns[c].lanes == old(conns[c].lanes) && free == old(free)
    {
      hide Inv, Others;
      Enter(c);
      ghost var was := conns;
      var k := conns[c];
      if k.pending > 0 && (read || k.send.NoSend?) {
        Update(c, k.(pending := k.pending - 1));
      } else {
        Update(c, k.(send := NoSend));
      }
      if conns[c].Ops() == 0 {
        OthersGone(was, conns, c);
        Retire(c);
      }
      NoneMore(was, conns, c);
    }

    /**
      The last read of a batch fails: the GET gives its lanes back at once and closes. Every buffer is still
      in exactly one place, and the connection is gone if nothing else was in flight. But the invariant
      survives if and only if no piece was being sent: a buffer that is sent from is in the pool.
    */
    method AbortGet(c: nat)
      requires Inv(None) && c in conns && conns[c].phase == Serving && conns[c].pending == 1 && !conns[c].closing
      modifies this
      ensures Partition(count, free, conns, owner) && QueueOk(getWaiters, conns, GetWait, None)
              && QueueOk(setWaiters, conns, SetWait, None)
      ensures |free| == |old(free)| + |old(conns[c].lanes)|
      ensures if old(conns[c].send).NoSend? then conns == old(conns) - {c}
              else Now(old(conns), conns, c, old(conns[c]).(closing := true, pending := 0, lanes := []))
      ensures Inv(None) <==> !old(conns[c].send).From?
      ensures old(conns[c].send).From? ==> old(conns[c].send).b in free
    {
      hide Partition, QueueOk, Others;
      Enter(c);
      ghost var was := conns;
      ReleaseLanes(c);
      ghost var m := conns;
      Update(c, conns[c].(pending := 0, closing := true));
      OthersThen(was, m, conns, c);
      OthersGone(was, conns, c);
      if conns[c].Ops() == 0 {
        Retire(c);
      } else {
        NotQueued(c);
      }
    }

    lemma NotQueued(c: nat)
      requires Inv(Some(c)) && c in conns && !conns[c].Parked()
      ensures QueueOk(getWaiters, conns, GetWait, None) && QueueOk(setWaiters, conns, SetWait, None)
    {
    }

    // -------------------------------------------------------------- whole runs

    /** Any completion that can come now, except a failed read under a piece being sent. */
    method AnyEvent()
      requires Inv(None)
      modifies this
      ensures Inv(None) && StuckStay(old(conns), conns) && StuckIn(conns) == StuckIn(old(conns))
    {
      hide Inv, StuckIn, StuckStay, Others, Handle, Handled;
      StuckStaySelf(conns);
      var c := AnyNat();
      var yes := Any();
      if c !in conns {
        if yes {
          Accept(c);
        }
      } else if conns[c].Ops() > 0 {
        if conns[c].closing {
          OnClosing(c, yes);
        } else if yes {
          Drop(c);
        } else {
          Completion(c);
        }
      }
    }

    method Completion(c: nat)
      requires Inv(None) && c in conns && conns[c].Ops() > 0 && !conns[c].closing
      modifies this
      ensures Inv(None) && StuckStay(old(conns), conns) && StuckIn(conns) == StuckIn(old(conns))
    {
      hide Inv, StuckIn, StuckStay, Others, Handle, Handled;
      StuckStaySelf(conns);
      var k := conns[c];
      if k.phase.Serving? {
        ServingEvent(c);
      } else if (k.phase.Idle? || k.phase.SetBody?) && k.send.Plain? && k.pending == 0 {
        if k.out {
          ReplySent(c);
        } else {
          var ok := Any();
          OnRecv(c, ok);
        }
      }
    }

    method ServingEvent(c: nat)
      requires Inv(None) && c in conns && conns[c].Ops() > 0 && !conns[c].closing && conns[c].phase.Serving?
      modifies this
      ensures Inv(None) && StuckStay(old(conns), conns) && StuckIn(conns) == StuckIn(old(conns))
    {
      hide Inv, StuckIn, StuckStay, Others, Handle, Handled;
      StuckStaySelf(conns);
      var k := conns[c];
      var which := AnyNat();
      if which % 3 == 0 && k.pending == 1 && !k.send.From? {
        AbortGet(c);
        NoneMore(old(conns), conns, c);
      } else if which % 3 == 1 && k.Ops() == 1 && k.pending == 0 {
        FinishGet(c);
      } else {
        var pending := AnyNat();
        var into := AnyNat();
        var b := AnyNat();
        var send := if which % 5 == 0 then NoSend else if which % 5 == 1 then Plain else From(b);
        var l := k.(pending := pending, into := into, send := send);
        if l.Safe() && l.Ops() > 0 {
          Streams(c, pending, into, send);
        }
      }
    }

    /**
      Any number of turns of the loop, each with any number of completions: buffers stay in one place, a
      GET waits only if the pool is empty, and whoever gets stuck stays so, unchanged, for good.
    */
    method Run(n: nat)
      requires Inv(None)
      modifies this
      ensures Inv(None) && StuckStay(old(conns), conns) && (n > 0 && getWaiters != [] ==> free == [])
    {
      hide Inv, StuckIn, StuckStay, Others, Handle;
      StuckStaySelf(conns);
      for i := 0 to n
        invariant Inv(None) && StuckStay(old(conns), conns) && (i > 0 && getWaiters != [] ==> free == [])
      {
        ghost var a := conns;
        var events := AnyNat();
        for j := 0 to events
          invariant Inv(None) && StuckStay(old(conns), conns)
        {
          ghost var b := conns;
          AnyEvent();
          StuckStayThen(old(conns), b, conns);
        }
        ghost var m := conns;
        var _ := WakeUp();
        StuckStayThen(old(conns), m, conns);
      }
    }
  }

  // ---------------------------------------------------------------- a connection that is never retired

  const BLOCKED_SET := Turn(Set, false, false, true, false, false, false)
  const RETRY := Turn(NeedMore, false, false, false, false, false, false)
  const SILENT_BODY := Turn(NeedMore, false, false, false, true, false, false)
  const QUIT := Turn(Quit, false, false, false, false, false, false)

  /**
    A `set … noreply` is parked for want of a staging buffer; once there is one its body is stored, and the
    client quits.
  */
  lemma QuitBehindSilentSet()
    ensures Handle([BLOCKED_SET, RETRY, SILENT_BODY, QUIT], Idle, false, false, 1, true) ==
            Outcome([RETRY, SILENT_BODY, QUIT], ParkSet, 0, SetWait, false, false)
    ensures DrainSets([Waiter(false, false)], [RETRY, SILENT_BODY, QUIT], 1, true).closed == 1
  {
    assert Handle([QUIT], Idle, false, false, 1, true).end == Close;
    assert [SILENT_BODY, QUIT][1..] == [QUIT];
    assert Handle([SILENT_BODY, QUIT], SetBody, false, false, 1, true) == Handle([QUIT], Idle, false, false, 1, true);
    assert [RETRY, SILENT_BODY, QUIT][1..] == [SILENT_BODY, QUIT];
  }

  /** Such a connection ends closing with nothing in flight, and is still there after any number of turns. */
  method NeverRetired(n: nat) returns (l: Loop)
    ensures l.Inv(None) && 0 in l.conns && l.conns[0].Stuck()
  {
    hide Loop.Inv, Handle, DrainSets, DrainGets, StuckIn, Others;
    l := new Loop(1, true, [BLOCKED_SET, RETRY, SILENT_BODY, QUIT]);
    QuitBehindSilentSet();
    l.Accept(0);
    ghost var accepted := l.conns;
    l.OnRecv(0, true);
    OnlyOne(accepted, l.conns);
    assert WaitersOf(l.setWaiters, l.conns) == [Waiter(false, false)];
    assert SetsLeft(l.Snap(), true).closed == 1;
    var _ := l.WakeUp();
    ZeroIsStuck(l.conns);
    l.Run(n);
  }

  lemma OnlyOne(was: Conns, now: Conns)
    requires was.Keys == {0} && Others(was, now, 0)
    ensures now.Keys == {0}
  {
  }

  lemma ZeroIsStuck(conns: Conns)
    requires conns.Keys == {0} && |StuckIn(conns)| > 0
    ensures conns[0].Stuck()
  {
    var c :| c in StuckIn(conns);
    assert c in conns.Keys;
  }
}
