/**
  The request loop of one connection, src/goblin/protocol/memcache/event_loop.cpp:99-380, and the two drains of
  parked connections, src/goblin/net/stream_loop.cpp:191-230, as functions of what the environment does next.
  A `Turn` holds the environment's answers for one pass of the loop, or for one retry of a parked request.
*/
module RequestLoop {
  datatype Phase = Idle | SetBody | SetWait | GetWait | Serving

  datatype Ask = NeedMore | Quit | Get | Set | Other

  datatype Turn = Turn(
    ask: Ask,          // the command at the front of the input, if one is complete
    hit: bool,         // a GET finds its object
    tail: bool,        // which is not all in the pinned head
    blocked: bool,     // no staging buffer for a SET
    complete: bool,    // the body of a SET is all there
    reply: bool,       // what completes is answered (not `noreply`, not a quiet miss)
    overlong: bool     // what is left of the input is over the limit for a command line
  )

  const NO_NEWS := Turn(NeedMore, false, false, true, false, false, false)

  function First(ts: seq<Turn>): Turn { if ts == [] then NO_NEWS else ts[0] }

  function Rest(ts: seq<Turn>): seq<Turn> { if ts == [] then [] else ts[1..] }

  // ---------------------------------------------------------------- one connection

  datatype End = ParkGet | ParkSet | Stream | Wait | Close

  /** Where the loop left a connection: the turns not taken, the number of buffers it borrowed, and its state. */
  datatype Outcome = Outcome(left: seq<Turn>, end: End, lanes: nat, phase: Phase, out: bool, quit: bool)

  /** The loop goes round again after this turn. */
  predicate Goes(t: Turn, p: Phase) {
    if p.SetBody? then t.complete else t.ask.Other? || (t.ask.Get? && !t.hit) || (t.ask.Set? && !t.blocked)
  }

  function After(t: Turn, p: Phase): Phase { if !p.SetBody? && t.ask.Set? then SetBody else Idle }

  /** A reply is queued by this turn. */
  predicate Answers(t: Turn, p: Phase) { t.reply && (p.SetBody? || !t.ask.Set?) }

  /** Buffers a hit borrows: none if the head covers it, else one, and a second one for read-ahead if there is one. */
  function LanesFor(tail: bool, free: nat, readAhead: bool): (n: nat)
    ensures !tail || free > 0 ==> n <= free
  {
    if !tail then 0 else if readAhead && free > 1 then 2 else 1
  }

  /** The turn that ends the loop. */
  function Halt(t: Turn, left: seq<Turn>, p: Phase, out: bool, quit: bool, free: nat, readAhead: bool): Outcome {
    if p.Idle? && t.ask.Set? then Outcome(left, ParkSet, 0, SetWait, out, quit)
    else if p.Idle? && t.ask.Get? then
      if t.tail && free == 0 then Outcome(left, ParkGet, 0, GetWait, out, quit)
      else Outcome(left, Stream, LanesFor(t.tail, free, readAhead), Serving, true, quit)
    else
      var quits := quit || (p.Idle? && t.ask.Quit?);
      Outcome(left, if p.Idle? && t.overlong then Close else if out || !quits then Wait else Close, 0, p, out, quits)
  }

  function Handle(ts: seq<Turn>, p: Phase, out: bool, quit: bool, free: nat, readAhead: bool): (r: Outcome)
    requires p.Idle? || p.SetBody?
    ensures |r.left| <= |ts| && (ts != [] || r.end.ParkGet? || r.end.ParkSet? ==> |r.left| < |ts|)
    ensures r.lanes <= free && (r.lanes > 0 ==> r.end.Stream?)
    ensures (r.end.ParkGet? <==> r.phase.GetWait?) && (r.end.ParkGet? ==> free == 0)
            && (r.end.ParkSet? <==> r.phase.SetWait?)
  {
    var t := First(ts);
    if Goes(t, p) then Handle(Rest(ts), After(t, p), out || Answers(t, p), quit, free, readAhead)
    else Halt(t, Rest(ts), p, out, quit, free, readAhead)
  }

  /** How many times the loop goes round. */
  ghost function Rounds(ts: seq<Turn>, p: Phase): (n: nat)
    ensures n <= |ts|
  {
    if Goes(First(ts), p) then 1 + Rounds(Rest(ts), After(First(ts), p)) else 0
  }

  ghost function PhaseAt(ts: seq<Turn>, p: Phase, k: nat): Phase
    requires k <= |ts|
  {
    if k == 0 then p else PhaseAt(ts[1..], After(ts[0], p), k - 1)
  }

  /** None of the first `k` turns queues a reply. */
  ghost predicate Silent(ts: seq<Turn>, p: Phase, k: nat)
    requires k <= |ts|
  {
    forall i :: 0 <= i < k ==> !Answers(ts[i], PhaseAt(ts, p, i))
  }

  lemma SilentMore(ts: seq<Turn>, p: Phase, k: nat)
    requires k < |ts|
    ensures Silent(ts, p, k + 1) <==> !Answers(ts[0], p) && Silent(ts[1..], After(ts[0], p), k)
  {
    if Silent(ts, p, k + 1) {
      assert PhaseAt(ts, p, 0) == p;
      forall i | 0 <= i < k ensures !Answers(ts[1..][i], PhaseAt(ts[1..], After(ts[0], p), i)) {
        assert PhaseAt(ts, p, i + 1) == PhaseAt(ts[1..], After(ts[0], p), i);
        assert !Answers(ts[i + 1], PhaseAt(ts, p, i + 1));
      }
    }
    if !Answers(ts[0], p) && Silent(ts[1..], After(ts[0], p), k) {
      forall i | 0 <= i < k + 1 ensures !Answers(ts[i], PhaseAt(ts, p, i)) {
        if i > 0 {
          assert !Answers(ts[1..][i - 1], PhaseAt(ts[1..], After(ts[0], p), i - 1));
        }
      }
    }
  }

  /**
    The last turn of the loop starts nothing, and either the command line is overlong, or the client has quit
    and there is nothing to send.
  */
  ghost predicate Closing(ts: seq<Turn>, p: Phase, out: bool, quit: bool) {
    var k := Rounds(ts, p);
    var t, q := First(ts[k..]), PhaseAt(ts, p, k);
    && (q.SetBody? || t.ask.NeedMore? || t.ask.Quit?)
    && ((q.Idle? && t.overlong) || ((quit || (q.Idle? && t.ask.Quit?)) && !out && Silent(ts, p, k)))
  }

  /** That is exactly when the loop closes the connection. */
  lemma {:induction false} ClosesIff(ts: seq<Turn>, p: Phase, out: bool, quit: bool, free: nat, readAhead: bool)
    requires p.Idle? || p.SetBody?
    ensures Handle(ts, p, out, quit, free, readAhead).end.Close? <==> Closing(ts, p, out, quit)
    decreases |ts|
  {
    hide Silent;
    var t, k := First(ts), Rounds(ts, p);
    if Goes(t, p) {
      ClosesIff(ts[1..], After(t, p), out || Answers(t, p), quit, free, readAhead);
      SilentMore(ts, p, k - 1);
      assert ts[1..][k - 1..] == ts[k..];
    } else {
      SilentAtOnce(ts, p);
    }
  }

  lemma SilentAtOnce(ts: seq<Turn>, p: Phase)
    ensures Silent(ts, p, 0)
  {
  }

  /** The turns that the loop takes for one connection: one for each round, and the last one. */
  ghost function Own(ts: seq<Turn>, p: Phase): seq<Turn> {
    if Rounds(ts, p) < |ts| then ts[..Rounds(ts, p) + 1] else ts
  }

  lemma OneRound(ts: seq<Turn>, p: Phase, out: bool, quit: bool, free: nat, readAhead: bool)
    requires (p.Idle? || p.SetBody?) && ts != [] && Goes(ts[0], p)
    ensures Own(ts, p) == [ts[0]] + Own(ts[1..], After(ts[0], p))
    ensures Handle(ts, p, out, quit, free, readAhead) ==
            Handle(ts[1..], After(ts[0], p), out || Answers(ts[0], p), quit, free, readAhead)
  {
    hide Goes, Answers;
    assert Rounds(ts, p) == 1 + Rounds(ts[1..], After(ts[0], p));
  }

  lemma LastRound(ts: seq<Turn>, p: Phase, out: bool, quit: bool, free: nat, readAhead: bool)
    requires (p.Idle? || p.SetBody?) && ts != [] && !Goes(ts[0], p)
    ensures Own(ts, p) == [ts[0]] && Handle(ts, p, out, quit, free, readAhead) ==
            Halt(ts[0], ts[1..], p, out, quit, free, readAhead)
  {
    hide Goes, Halt;
    assert Rounds(ts, p) == 0;
  }

  /** What the loop does depends on its own turns, and it leaves the others. */
  lemma {:induction false} OwnIsEnough(ts: seq<Turn>, p: Phase, out: bool, quit: bool, free: nat, readAhead: bool)
    requires p.Idle? || p.SetBody?
    ensures var r := Handle(ts, p, out, quit, free, readAhead);
            Own(ts, p) + r.left == ts && Handle(Own(ts, p), p, out, quit, free, readAhead) == r.(left := [])
    decreases |ts|
  {
    hide Halt, Goes, Handle, Own, Answers;
    if ts == [] {
      NothingOwn(p, out, quit, free, readAhead);
    } else if Goes(ts[0], p) {
      var t, q := ts[0], After(ts[0], p);
      var next := Own(ts[1..], q);
      OneRound(ts, p, out, quit, free, readAhead);
      OwnIsEnough(ts[1..], q, out || Answers(t, p), quit, free, readAhead);
      assert ([t] + next)[1..] == next;
      OneRound([t] + next, p, out, quit, free, readAhead);
      assert [t] + next + Handle(ts[1..], q, out || Answers(t, p), quit, free, readAhead).left == [t] + ts[1..] == ts;
    } else {
      LastRound(ts, p, out, quit, free, readAhead);
      assert [ts[0]][1..] == [];
      LastRound([ts[0]], p, out, quit, free, readAhead);
      HaltLeaves(ts[0], ts[1..], p, out, quit, free, readAhead);
    }
  }

  lemma HaltLeaves(t: Turn, left: seq<Turn>, p: Phase, out: bool, quit: bool, free: nat, readAhead: bool)
    ensures Halt(t, left, p, out, quit, free, readAhead).left == left
    ensures Halt(t, [], p, out, quit, free, readAhead) == Halt(t, left, p, out, quit, free, readAhead).(left := [])
  {
  }

  lemma NothingOwn(p: Phase, out: bool, quit: bool, free: nat, readAhead: bool)
    requires p.Idle? || p.SetBody?
    ensures Own([], p) == [] && Handle([], p, out, quit, free, readAhead).left == []
  {
  }

  // ---------------------------------------------------------------- the drains

  /** What a parked connection has queued already. */
  datatype Waiter = Waiter(out: bool, quit: bool)

  /** A drain of a queue: how many left it, whether the last one tried was put back, and how many were closed. */
  datatype Drained = Drained(left: seq<Turn>, free: nat, served: nat, putBack: bool, closed: nat)

  function Also(d: Drained, closes: bool): Drained {
    d.(served := d.served + 1, closed := d.closed + if closes then 1 else 0)
  }

  /** Retry parked GETs: each turn answers a lookup, and a miss goes on with the connection's other requests. */
  function DrainGets(q: seq<Waiter>, ts: seq<Turn>, free: nat, readAhead: bool): Drained
    decreases |ts|, |q|
  {
    if q == [] then Drained(ts, free, 0, false, 0)
    else
      var t, w := First(ts), q[0];
      if t.hit && t.tail && free == 0 then Drained(Rest(ts), free, 0, true, 0)
      else if t.hit then Also(DrainGets(q[1..], Rest(ts), free - LanesFor(t.tail, free, readAhead), readAhead), false)
      else
        var r := Handle(Rest(ts), Idle, w.out || t.reply, w.quit, free, readAhead);
        var back := if r.end.ParkGet? then [Waiter(r.out, r.quit)] else [];
        Also(DrainGets(q[1..] + back, r.left, free - r.lanes, readAhead), r.end.Close?)
  }

  /** Retry parked writes: each turn says if there is a staging buffer now, and the buffered body follows. */
  function DrainSets(q: seq<Waiter>, ts: seq<Turn>, free: nat, readAhead: bool): Drained
    decreases |ts|, |q|
  {
    var t := First(ts);
    if q == [] then Drained(ts, free, 0, false, 0)
    else if t.blocked then Drained(Rest(ts), free, 0, false, 0)
    else
      var r := Handle(Rest(ts), SetBody, q[0].out, q[0].quit, free, readAhead);
      var back := if r.end.ParkSet? then [Waiter(r.out, r.quit)] else [];
      Also(DrainSets(q[1..] + back, r.left, free - r.lanes, readAhead), r.end.Close?)
  }

  lemma NobodyLeft(ts: seq<Turn>, free: nat, readAhead: bool)
    ensures DrainGets([], ts, free, readAhead) == Drained(ts, free, 0, false, 0)
  {
  }

  lemma StillBlocked(q: seq<Waiter>, ts: seq<Turn>, free: nat, readAhead: bool)
    requires q == [] || First(ts).blocked
    ensures DrainSets(q, ts, free, readAhead) == Drained(if q == [] then ts else Rest(ts), free, 0, false, 0)
  {
  }

  lemma HitStep(q: seq<Waiter>, ts: seq<Turn>, free: nat, readAhead: bool)
    requires q != [] && First(ts).hit && (First(ts).tail ==> free > 0)
    ensures DrainGets(q, ts, free, readAhead) == Also(DrainGets(q[1..], Rest(ts),
                                                                free - LanesFor(First(ts).tail, free, readAhead),
                                                                  readAhead), false)
  {
  }

  lemma PutBackStep(q: seq<Waiter>, ts: seq<Turn>, readAhead: bool)
    requires q != [] && First(ts).hit && First(ts).tail
    ensures DrainGets(q, ts, 0, readAhead) == Drained(Rest(ts), 0, 0, true, 0)
  {
  }

  lemma MissStep(q: seq<Waiter>, ts: seq<Turn>, free: nat, readAhead: bool, r: Outcome, next: seq<Waiter>)
    requires q != [] && !First(ts).hit && r == Handle(Rest(ts), Idle, q[0].out
                                                      || First(ts).reply, q[0].quit, free, readAhead)
    requires next == q[1..] + if r.end.ParkGet? then [Waiter(r.out, r.quit)] else []
    ensures DrainGets(q, ts, free, readAhead) == Also(DrainGets(next, r.left, free - r.lanes, readAhead), r.end.Close?)
  {
  }

  lemma SetStep(q: seq<Waiter>, ts: seq<Turn>, free: nat, readAhead: bool, r: Outcome, next: seq<Waiter>)
    requires q != [] && !First(ts).blocked && r == Handle(Rest(ts), SetBody, q[0].out, q[0].quit, free, readAhead)
    requires next == q[1..] + if r.end.ParkSet? then [Waiter(r.out, r.quit)] else []
    ensures DrainSets(q, ts, free, readAhead) == Also(DrainSets(next, r.left, free - r.lanes, readAhead), r.end.Close?)
  {
  }

  // ---------------------------------------------------------------- who is closed by a drain

  /** A served connection whose requests go on: where it stands, and its own turns. */
  datatype Visit = Visit(phase: Phase, out: bool, quit: bool, own: seq<Turn>) {
    ghost predicate Closes() { Closing(own, phase, out, quit) }
  }

  ghost function GetVisits(q: seq<Waiter>, ts: seq<Turn>, free: nat, readAhead: bool): seq<Visit>
    decreases |ts|, |q|
  {
    if q == [] then []
    else
      var t, w := First(ts), q[0];
      if t.hit && t.tail && free == 0 then []
      else if t.hit then GetVisits(q[1..], Rest(ts), free - LanesFor(t.tail, free, readAhead), readAhead)
      else
        var r := Handle(Rest(ts), Idle, w.out || t.reply, w.quit, free, readAhead);
        var back := if r.end.ParkGet? then [Waiter(r.out, r.quit)] else [];
        [Visit(Idle, w.out || t.reply, w.quit, Own(Rest(ts), Idle))]
          + GetVisits(q[1..] + back, r.left, free - r.lanes, readAhead)
  }

  ghost function SetVisits(q: seq<Waiter>, ts: seq<Turn>, free: nat, readAhead: bool): seq<Visit>
    decreases |ts|, |q|
  {
    if q == [] || First(ts).blocked then []
    else
      var r := Handle(Rest(ts), SetBody, q[0].out, q[0].quit, free, readAhead);
      var back := if r.end.ParkSet? then [Waiter(r.out, r.quit)] else [];
      [Visit(SetBody, q[0].out, q[0].quit, Own(Rest(ts), SetBody))]
        + SetVisits(q[1..] + back, r.left, free - r.lanes, readAhead)
  }

  /** How many of the visits close their connection. */
  ghost function ClosedBy(vs: seq<Visit>): (n: nat)
    ensures n > 0 <==> exists v :: v in vs && v.Closes()
  {
    if vs == [] then 0 else (if vs[0].Closes() then 1 else 0) + ClosedBy(vs[1..])
  }

  lemma ClosedFirst(v: Visit, vs: seq<Visit>)
    ensures ClosedBy([v] + vs) == (if v.Closes() then 1 else 0) + ClosedBy(vs)
  {
    hide Visit.Closes;
    assert ([v] + vs)[1..] == vs;
  }

  lemma VisitCloses(ts: seq<Turn>, p: Phase, out: bool, quit: bool, free: nat, readAhead: bool)
    requires p.Idle? || p.SetBody?
    ensures Visit(p, out, quit, Own(ts, p)).Closes() <==> Handle(ts, p, out, quit, free, readAhead).end.Close?
  {
    hide Handle, Own, Closing;
    OwnIsEnough(ts, p, out, quit, free, readAhead);
    ClosesIff(Own(ts, p), p, out, quit, free, readAhead);
  }

  lemma MissVisit(q: seq<Waiter>, ts: seq<Turn>, free: nat, readAhead: bool, r: Outcome, next: seq<Waiter>)
    requires q != [] && !First(ts).hit && r == Handle(Rest(ts), Idle, q[0].out
                                                      || First(ts).reply, q[0].quit, free, readAhead)
    requires next == q[1..] + if r.end.ParkGet? then [Waiter(r.out, r.quit)] else []
    ensures ClosedBy(GetVisits(q, ts, free, readAhead)) ==
            (if r.end.Close? then 1 else 0) + ClosedBy(GetVisits(next, r.left, free - r.lanes, readAhead))
  {
    hide Handle, Own, ClosedBy, Visit.Closes;
    var out := q[0].out || First(ts).reply;
    VisitCloses(Rest(ts), Idle, out, q[0].quit, free, readAhead);
    ClosedFirst(Visit(Idle, out, q[0].quit, Own(Rest(ts), Idle)), GetVisits(next, r.left, free - r.lanes, readAhead));
  }

  lemma HitVisit(q: seq<Waiter>, ts: seq<Turn>, free: nat, readAhead: bool)
    requires q != [] && First(ts).hit
    ensures First(ts).tail && free == 0 ==> GetVisits(q, ts, free, readAhead) == []
    ensures (First(ts).tail ==> free > 0) ==>
              GetVisits(q, ts, free, readAhead) ==
                GetVisits(q[1..], Rest(ts), free - LanesFor(First(ts).tail, free, readAhead), readAhead)
  {
  }

  /** A drain of parked GETs closes those, and only those, served connections whose own turns meet the condition. */
  lemma {:induction false} GetsCloseIff(q: seq<Waiter>, ts: seq<Turn>, free: nat, readAhead: bool)
    ensures DrainGets(q, ts, free, readAhead).closed == ClosedBy(GetVisits(q, ts, free, readAhead))
    decreases |ts|, |q|
  {
    hide Handle, Own, ClosedBy, Visit.Closes, LanesFor, DrainGets, GetVisits;
    if q == [] {
      NobodyLeft(ts, free, readAhead);
      NoVisits(ts, free, readAhead);
    } else {
      var t, w := First(ts), q[0];
      NoVisits(ts, free, readAhead);
      if t.hit {
        HitVisit(q, ts, free, readAhead);
        if t.tail ==> free > 0 {
          HitStep(q, ts, free, readAhead);
          GetsCloseIff(q[1..], Rest(ts), free - LanesFor(t.tail, free, readAhead), readAhead);
        } else {
          PutBackStep(q, ts, readAhead);
        }
      } else {
        var r := Handle(Rest(ts), Idle, w.out || t.reply, w.quit, free, readAhead);
        var next := q[1..] + if r.end.ParkGet? then [Waiter(r.out, r.quit)] else [];
        MissStep(q, ts, free, readAhead, r, next);
        MissVisit(q, ts, free, readAhead, r, next);
        GetsCloseIff(next, r.left, free - r.lanes, readAhead);
      }
    }
  }

  lemma NoVisits(ts: seq<Turn>, free: nat, readAhead: bool)
    ensures ClosedBy([]) == 0 && GetVisits([], ts, free, readAhead) == []
  {
  }

  lemma SetVisit(q: seq<Waiter>, ts: seq<Turn>, free: nat, readAhead: bool, r: Outcome, next: seq<Waiter>)
    requires q != [] && !First(ts).blocked && r == Handle(Rest(ts), SetBody, q[0].out, q[0].quit, free, readAhead)
    requires next == q[1..] + if r.end.ParkSet? then [Waiter(r.out, r.quit)] else []
    ensures ClosedBy(SetVisits(q, ts, free, readAhead)) ==
            (if r.end.Close? then 1 else 0) + ClosedBy(SetVisits(next, r.left, free - r.lanes, readAhead))
  {
    hide Handle, Own, ClosedBy, Visit.Closes;
    VisitCloses(Rest(ts), SetBody, q[0].out, q[0].quit, free, readAhead);
    ClosedFirst(Visit(SetBody, q[0].out, q[0].quit, Own(Rest(ts), SetBody)),
                SetVisits(next, r.left, free - r.lanes, readAhead));
  }

  lemma NoSetVisits(q: seq<Waiter>, ts: seq<Turn>, free: nat, readAhead: bool)
    requires q == [] || First(ts).blocked
    ensures ClosedBy(SetVisits(q, ts, free, readAhead)) == 0
  {
  }

  /** So does a drain of parked writes. */
  lemma {:induction false} SetsCloseIff(q: seq<Waiter>, ts: seq<Turn>, free: nat, readAhead: bool)
    ensures DrainSets(q, ts, free, readAhead).closed == ClosedBy(SetVisits(q, ts, free, readAhead))
    decreases |ts|, |q|
  {
    hide Handle, ClosedBy, DrainSets, SetVisits;
    if q == [] || First(ts).blocked {
      StillBlocked(q, ts, free, readAhead);
      NoSetVisits(q, ts, free, readAhead);
    } else {
      var r := Handle(Rest(ts), SetBody, q[0].out, q[0].quit, free, readAhead);
      var next := q[1..] + if r.end.ParkSet? then [Waiter(r.out, r.quit)] else [];
      SetStep(q, ts, free, readAhead, r, next);
      SetVisit(q, ts, free, readAhead, r, next);
      SetsCloseIff(next, r.left, free - r.lanes, readAhead);
    }
  }

  /** No client quits and no command line is overlong. */
  ghost predicate Polite(ts: seq<Turn>) { forall t :: t in ts ==> !t.ask.Quit? && !t.overlong }

  ghost predicate Staying(q: seq<Waiter>) { forall w :: w in q ==> !w.quit }

  lemma {:induction false} PoliteHandle(ts: seq<Turn>, p: Phase, out: bool, free: nat, readAhead: bool)
    requires (p.Idle? || p.SetBody?) && Polite(ts)
    ensures var r := Handle(ts, p, out, false, free, readAhead); !r.end.Close? && !r.quit && Polite(r.left)
    decreases |ts|
  {
    var t := First(ts);
    if Goes(t, p) {
      PoliteHandle(ts[1..], After(t, p), out || Answers(t, p), free, readAhead);
    }
  }

  lemma PoliteRest(ts: seq<Turn>)
    requires Polite(ts)
    ensures Polite(Rest(ts))
  {
  }

  lemma StayingTail(q: seq<Waiter>)
    requires Staying(q) && q != []
    ensures !q[0].quit && Staying(q[1..])
  {
  }

  lemma StayingMore(q: seq<Waiter>, back: seq<Waiter>)
    requires Staying(q) && (back == [] || (|back| == 1 && !back[0].quit))
    ensures Staying(q + back)
  {
  }

  /** As long as nobody quits and no command line is overlong, a drain closes nobody. */
  lemma {:induction false} PoliteGets(q: seq<Waiter>, ts: seq<Turn>, free: nat, readAhead: bool)
    requires Polite(ts) && Staying(q)
    ensures DrainGets(q, ts, free, readAhead).closed == 0
    decreases |ts|, |q|
  {
    hide Handle, DrainGets, Polite, Staying, LanesFor;
    if q == [] {
      NobodyLeft(ts, free, readAhead);
    } else {
      var t, w := First(ts), q[0];
      PoliteRest(ts);
      StayingTail(q);
      if t.hit && (t.tail ==> free > 0) {
        HitStep(q, ts, free, readAhead);
        PoliteGets(q[1..], Rest(ts), free - LanesFor(t.tail, free, readAhead), readAhead);
      } else if t.hit {
        PutBackStep(q, ts, readAhead);
      } else {
        PoliteHandle(Rest(ts), Idle, w.out || t.reply, free, readAhead);
        var r := Handle(Rest(ts), Idle, w.out || t.reply, w.quit, free, readAhead);
        var next := q[1..] + if r.end.ParkGet? then [Waiter(r.out, r.quit)] else [];
        StayingMore(q[1..], if r.end.ParkGet? then [Waiter(r.out, r.quit)] else []);
        MissStep(q, ts, free, readAhead, r, next);
        PoliteGets(next, r.left, free - r.lanes, readAhead);
      }
    }
  }

  lemma {:induction false} PoliteSets(q: seq<Waiter>, ts: seq<Turn>, free: nat, readAhead: bool)
    requires Polite(ts) && Staying(q)
    ensures DrainSets(q, ts, free, readAhead).closed == 0
    decreases |ts|, |q|
  {
    hide Handle, DrainSets, Polite, Staying;
    if q == [] || First(ts).blocked {
      StillBlocked(q, ts, free, readAhead);
    } else {
      PoliteRest(ts);
      StayingTail(q);
      PoliteHandle(Rest(ts), SetBody, q[0].out, free, readAhead);
      var r := Handle(Rest(ts), SetBody, q[0].out, q[0].quit, free, readAhead);
      var next := q[1..] + if r.end.ParkSet? then [Waiter(r.out, r.quit)] else [];
      StayingMore(q[1..], if r.end.ParkSet? then [Waiter(r.out, r.quit)] else []);
      SetStep(q, ts, free, readAhead, r, next);
      PoliteSets(next, r.left, free - r.lanes, readAhead);
    }
  }
}
