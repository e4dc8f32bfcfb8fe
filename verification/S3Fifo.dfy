/**
  The S3-FIFO eviction policy (src/goblin/storage/s3fifo.cpp). Deletion is lazy: the queues may hold
  stale and duplicate digests, and the map `meta` alone says what is resident and where.
*/
module S3Fifo {
  import opened Arith
  import opened Collections

  /** A 256-bit key digest: its first 64 bits, which place it, and the rest. */
  datatype Digest = Digest(bucket: nat, rest: nat)

  datatype Queue = Small | Main
  datatype Entry = Entry(q: Queue, visited: bool)
  type Table = map<Digest, Entry>

  predicate Resident(m: Table, d: Digest, q: Queue) { d in m && m[d].q == q }

  ghost function In(m: Table, q: Queue): set<Digest>
  {
    set d | d in m && m[d].q == q
  }

  /** The first entry of `s` that counts for queue `q`, if any, is at index `i`. */
  ghost predicate FirstResident(m: Table, s: seq<Digest>, q: Queue, i: nat)
  {
    i <= |s| && (i < |s| ==> Resident(m, s[i], q)) && forall j :: 0 <= j < i ==> !Resident(m, s[j], q)
  }

  // ---------------------------------------------------------------- what evict does

  /** Draining the small queue stops at `i`: the first resident there that was not visited. */
  ghost predicate SmallStop(m: Table, small: seq<Digest>, i: nat)
  {
    && i <= |small|
    && (i < |small| ==> Resident(m, small[i], Small) && !m[small[i]].visited)
    && forall j :: 0 <= j < i ==> Resident(m, small[j], Small) ==> m[small[j]].visited
  }

  /** The small residents met before index `i` move to the main queue. */
  ghost function Promoted(m: Table, small: seq<Digest>, i: nat): (r: Table)
    requires i <= |small|
    ensures r.Keys == m.Keys
  {
    map d | d in m :: if m[d].q == Small && d in small[..i] then Entry(Main, false) else m[d]
  }

  /** Those residents in the order in which they are appended to the main queue, each once. */
  ghost function Arrivals(m: Table, small: seq<Digest>, i: nat): seq<Digest>
    requires i <= |small|
  {
    if i == 0 then []
    else if Resident(m, small[i - 1], Small) && small[i - 1] !in small[..i - 1]
    then Arrivals(m, small, i - 1) + [small[i - 1]]
    else Arrivals(m, small, i - 1)
  }

  /** An entry of the main queue with no second chance: not visited, or met a second time. */
  ghost predicate MainHit(m: Table, main: seq<Digest>, i: nat)
    requires i < |main|
  {
    Resident(m, main[i], Main) && (!m[main[i]].visited || main[i] in main[..i])
  }

  ghost predicate MainStop(m: Table, main: seq<Digest>, i: nat)
  {
    i <= |main| && (i < |main| ==> MainHit(m, main, i)) && forall j :: 0 <= j < i ==> !MainHit(m, main, j)
  }

  /** The main residents met before index `i` have used up their visited bit. */
  ghost function Cleared(m: Table, main: seq<Digest>, i: nat): (r: Table)
    requires i <= |main|
    ensures r.Keys == m.Keys
  {
    map d | d in m :: if m[d].q == Main && d in main[..i] then Entry(Main, false) else m[d]
  }

  /** The victim of a scan of the main queue: where the scan stops, else the first resident. */
  ghost predicate MainVictim(m: Table, main: seq<Digest>, i: nat, d: Digest)
  {
    && MainStop(m, main, i)
    && if i < |main| then d == main[i]
       else exists j :: 0 <= j < |main| && FirstResident(m, main, Main, j) && d == main[j]
  }

  /**
    The whole effect of `evict` on what is resident: which queue is drained, which residents are
    promoted or lose their visited bit, and which one goes.
  */
  ghost predicate Evicted(m: Table, small: seq<Digest>, main: seq<Digest>, cap: nat, d: Digest, m': Table)
  {
    if DrainsSmall(Count(m, Small), Count(m, Main), cap) then
      exists i: nat :: SmallStop(m, small, i) && Drained(m, small, main, i, d, m')
    else EvictedFromMain(m, main, d, m')
  }

  /** The drain of the small queue stopped at `i`; without a victim there, the main queue is next. */
  ghost predicate Drained(m: Table, small: seq<Digest>, main: seq<Digest>, i: nat, d: Digest, m': Table)
    requires i <= |small|
  {
    if i < |small| then d == small[i] && m' == Promoted(m, small, i) - {d}
    else EvictedFromMain(Promoted(m, small, i), main + Arrivals(m, small, i), d, m')
  }

  ghost predicate EvictedFromMain(m: Table, main: seq<Digest>, d: Digest, m': Table)
  {
    exists k: nat :: MainVictim(m, main, k, d) && Resident(m, d, Main) && m' == Cleared(m, main, k) - {d}
  }

  predicate DrainsSmall(smallN: nat, mainN: nat, cap: nat)
  {
    smallN > 0 && (mainN == 0 || smallN >= if cap / 10 > 1 then cap / 10 else 1)
  }

  // ---------------------------------------------------------------- counting

  /** Number of residents of a queue. */
  ghost function Count(m: Table, q: Queue): nat { |In(m, q)| }

  lemma CountSet(m: Table, d: Digest, e: Entry, q: Queue)
    ensures Count(m[d := e], q) == Count(m, q) - (if Resident(m, d, q) then 1 else 0) + (if e.q == q then 1 else 0)
  {
    var m' := m[d := e];
    var rest := In(m, q) - {d};
    assert In(m, q) == if Resident(m, d, q) then rest + {d} else rest;
    assert In(m', q) == if e.q == q then rest + {d} else rest;
  }

  lemma CountDrop(m: Table, d: Digest, q: Queue)
    ensures Count(m - {d}, q) == Count(m, q) - (if Resident(m, d, q) then 1 else 0)
  {
    var rest := In(m, q) - {d};
    assert In(m, q) == if Resident(m, d, q) then rest + {d} else rest;
    assert In(m - {d}, q) == rest;
  }

  /** The counter counts the residents of the queue, and each of them is found in it. */
  ghost predicate QueueOk(m: Table, s: seq<Digest>, n: nat, q: Queue)
  {
    n == Count(m, q) && forall d :: Resident(m, d, q) ==> d in s
  }

  lemma PushOk(m: Table, s: seq<Digest>, n: nat, q: Queue, d: Digest, e: Entry)
    requires QueueOk(m, s, n, q) && !Resident(m, d, q) && e.q == q
    ensures QueueOk(m[d := e], s + [d], n + 1, q)
  {
    CountSet(m, d, e, q);
  }

  /** Entries up to the first resident may go, together with that resident. */
  lemma PopOk(m: Table, s: seq<Digest>, n: nat, q: Queue, i: nat, m': Table)
    requires QueueOk(m, s, n, q) && i < |s| && FirstResident(m, s, q, i)
    requires m' == m - {s[i]} || exists e: Entry :: e.q != q && m' == m[s[i] := e]
    ensures n > 0 && QueueOk(m', s[i + 1..], n - 1, q)
  {
    CountDrop(m, s[i], q);
    if e: Entry :| e.q != q && m' == m[s[i] := e] {
      CountSet(m, s[i], e, q);
    }
    forall d | Resident(m', d, q) ensures d in s[i + 1..] {
      assert Resident(m, d, q);
      var k :| 0 <= k < |s| && s[k] == d;
      assert s[k] == s[i + 1..][k - i - 1];
    }
  }

  lemma OtherOk(m: Table, s: seq<Digest>, n: nat, q: Queue, d: Digest, m': Table)
    requires QueueOk(m, s, n, q) && !Resident(m, d, q)
    requires m' == m - {d} || exists e: Entry :: e.q != q && m' == m[d := e]
    ensures QueueOk(m', s, n, q)
  {
    CountDrop(m, d, q);
    if e: Entry :| e.q != q && m' == m[d := e] {
      CountSet(m, d, e, q);
    }
  }

  lemma NoneCounted(m: Table)
    ensures Count(m, Small) == 0 && Count(m, Main) == 0 <==> m == map[]
  {
    forall d | d in m ensures d in In(m, Small) || d in In(m, Main) {
    }
  }

  lemma SmallStopResident(m: Table, small: seq<Digest>, i: nat)
    requires SmallStop(m, small, i) && i < |small|
    ensures small[i] in m
  {
  }

  /** The small queue was drained without a victim: all its residents had been visited, and are in main now. */
  lemma AllVisited(m: Table, s: seq<Digest>, n: nat, stop: nat)
    requires QueueOk(m, s, n, Small) && SmallStop(m, s, stop) && stop >= |s|
    ensures forall d :: Resident(m, d, Small) ==> m[d].visited
  {
  }

  /**
    Who pays, in numbers. With at least a tenth of the capacity in the small queue, or nothing in the main
    queue, a small resident that nobody visited goes, if there is one, and the main residents stay as they are.
  */
  lemma SmallPays(m: Table, small: seq<Digest>, main: seq<Digest>, cap: nat, d: Digest, m': Table)
    requires Evicted(m, small, main, cap, d, m') && forall x :: Resident(m, x, Small) ==> x in small
    requires cap < 10 * (|In(m, Small)| + 1) || In(m, Main) == {}
    requires exists x :: Resident(m, x, Small) && !m[x].visited
    ensures d in m && m[d] == Entry(Small, false)
    ensures forall x :: Resident(m, x, Main) ==> x in m' && m'[x] == m[x]
  {
    var x :| Resident(m, x, Small) && !m[x].visited;
    assert x in In(m, Small);
    var i: nat :| SmallStop(m, small, i) && Drained(m, small, main, i, d, m');
    assert x in small && i < |small|;
  }

  /** With less than that in the small queue and something in the main queue, the small residents stay as they are. */
  lemma MainPays(m: Table, small: seq<Digest>, main: seq<Digest>, cap: nat, d: Digest, m': Table)
    requires Evicted(m, small, main, cap, d, m') && In(m, Main) != {}
    requires In(m, Small) == {} || 10 * (|In(m, Small)| + 1) <= cap
    ensures Resident(m, d, Main)
    ensures forall x :: Resident(m, x, Small) ==> x in m' && m'[x] == m[x]
  {
  }

  /** Enough of the capacity is in the small queue for it to pay, or nothing else can. */
  ghost predicate Drains(m: Table, cap: nat) { cap < 10 * (|In(m, Small)| + 1) || In(m, Main) == {} }

  ghost predicate SomeUnvisited(m: Table) { exists x :: Resident(m, x, Small) && !m[x].visited }

  /** The residents of queue `q` stay as they are. */
  ghost predicate StayAsTheyAre(m: Table, m': Table, q: Queue) {
    forall x :: Resident(m, x, q) ==> x in m' && m'[x] == m[x]
  }

  lemma WhoPays(m: Table, small: seq<Digest>, n: nat, main: seq<Digest>, cap: nat, d: Digest, m': Table)
    requires Evicted(m, small, main, cap, d, m') && QueueOk(m, small, n, Small)
    ensures Drains(m, cap) && SomeUnvisited(m) ==> d in m && m[d] == Entry(Small, false) && StayAsTheyAre(m, m', Main)
    ensures (!Drains(m, cap) || In(m, Small) == {}) && In(m, Main) != {} ==>
              Resident(m, d, Main) && StayAsTheyAre(m, m', Small)
  {
    hide Evicted;
    if Drains(m, cap) && SomeUnvisited(m) {
      SmallPays(m, small, main, cap, d, m');
    }
    if (!Drains(m, cap) || In(m, Small) == {}) && In(m, Main) != {} {
      MainPays(m, small, main, cap, d, m');
    }
  }

  /** The drained small queue had only visited residents: those that stay are in the main queue now. */
  lemma SmallMovesUp(m: Table, small: seq<Digest>, main: seq<Digest>, cap: nat, d: Digest, m': Table)
    requires Evicted(m, small, main, cap, d, m') && forall x :: Resident(m, x, Small) ==> x in small && m[x].visited
    requires In(m, Small) != {} && (cap < 10 * (|In(m, Small)| + 1) || In(m, Main) == {})
    ensures In(m', Small) == {}
    ensures forall x :: Resident(m, x, Small) && x != d ==> x in m' && m'[x] == Entry(Main, false)
  {
    hide Arrivals, MainVictim;
    var i: nat :| SmallStop(m, small, i) && Drained(m, small, main, i, d, m');
    assert i == |small| && small[..i] == small;
  }

  lemma NoneLeft(m: Table, s: seq<Digest>, n: nat, q: Queue)
    requires QueueOk(m, s, n, q) && FirstResident(m, s, q, |s|)
    ensures n == 0 && QueueOk(m, [], 0, q)
  {
    forall d | d in In(m, q) ensures false {
      assert Resident(m, d, q);
    }
    assert In(m, q) == {};
  }

  lemma NothingPromoted(m: Table, q: seq<Digest>)
    ensures Promoted(m, q, 0) == m && Arrivals(m, q, 0) == []
  {
  }

  lemma {:induction false} NoArrivals(m: Table, q: seq<Digest>, stop: nat, i: nat)
    requires stop + i <= |q|
    requires forall j :: 0 <= j < i ==> !Resident(Promoted(m, q, stop), q[stop..][j], Small)
    ensures Arrivals(m, q, stop + i) == Arrivals(m, q, stop)
    decreases i
  {
    if i > 0 {
      NoArrivals(m, q, stop, i - 1);
      var x := q[stop + i - 1];
      assert q[stop..][i - 1] == x;
      assert forall d :: d in q[..stop] ==> d in q[..stop + i - 1];
    }
  }

  /** How a pop of the small queue moves the drain forward from `stop`. */
  lemma DrainStep(m: Table, q: seq<Digest>, stop: nat, i: nat)
    requires stop + i <= |q| && FirstResident(Promoted(m, q, stop), q[stop..], Small, i)
    requires forall j :: 0 <= j < stop ==> Resident(m, q[j], Small) ==> m[q[j]].visited
    ensures forall j :: 0 <= j < stop + i ==> Resident(m, q[j], Small) ==> m[q[j]].visited
    ensures Promoted(m, q, stop + i) == Promoted(m, q, stop) && Arrivals(m, q, stop + i) == Arrivals(m, q, stop)
    ensures stop + i < |q| ==>
              var x := q[stop + i];
              && Resident(m, x, Small) && Promoted(m, q, stop)[x] == m[x]
              && Promoted(m, q, stop + i + 1) == Promoted(m, q, stop)[x := Entry(Main, false)]
              && Arrivals(m, q, stop + i + 1) == Arrivals(m, q, stop) + [x]
  {
    NoArrivals(m, q, stop, i);
    forall j | stop <= j < stop + i ensures Resident(m, q[j], Small) ==> q[j] in q[..stop] {
      assert q[stop..][j - stop] == q[j];
    }
    assert forall d :: d in q[..stop + i] && Resident(m, d, Small) ==> d in q[..stop];
    assert forall d :: d in q[..stop] ==> d in q[..stop + i];
    if stop + i < |q| {
      assert q[stop..][i] == q[stop + i];
      assert q[..stop + i + 1] == q[..stop + i] + [q[stop + i]];
    }
  }

  /** The main queue after a scan of its first `k` entries: the rest, then those given a second chance. */
  ghost predicate Scanned(m: Table, q: seq<Digest>, k: nat, again: seq<Digest>)
  {
    && k <= |q|
    && (forall j :: 0 <= j < k ==> !MainHit(m, q, j))
    && (forall x :: x in again <==> Resident(m, x, Main) && x in q[..k])
    && (again != [] ==> exists j :: 0 <= j < k && FirstResident(m, q, Main, j) && q[j] == again[0])
  }

  lemma NoneBetween(m: Table, q: seq<Digest>, k: nat, i: nat)
    requires k + i <= |q| && forall j :: k <= j < k + i ==> !Resident(m, q[j], Main)
    ensures forall d :: Resident(m, d, Main) ==> (d in q[..k + i] <==> d in q[..k])
    ensures Cleared(m, q, k + i) == Cleared(m, q, k)
  {
    assert q[..k + i] == q[..k] + q[k..k + i];
    forall d | Resident(m, d, Main) ensures d !in q[k..k + i] {
    }
  }

  lemma ClearedOn(m: Table, q: seq<Digest>, k: nat)
    requires k < |q| && Resident(m, q[k], Main)
    ensures Cleared(m, q, k + 1) == Cleared(m, q, k)[q[k] := Entry(Main, false)]
  {
    assert q[..k + 1] == q[..k] + [q[k]];
  }

  /** A resident with its visited bit set is requeued and the scan goes on behind it. */
  lemma ScanOn(m: Table, q: seq<Digest>, k: nat, again: seq<Digest>, i: nat)
    requires Scanned(m, q, k, again) && k + i < |q|
    requires forall j :: k <= j < k + i ==> !Resident(m, q[j], Main)
    requires Resident(m, q[k + i], Main) && m[q[k + i]].visited && q[k + i] !in q[..k]
    ensures Scanned(m, q, k + i + 1, again + [q[k + i]])
    ensures Cleared(m, q, k + i + 1) == Cleared(m, q, k)[q[k + i] := Entry(Main, false)]
  {
    hide Cleared;
    var x := q[k + i];
    NoneBetween(m, q, k, i);
    ClearedOn(m, q, k + i);
    assert q[..k + i + 1] == q[..k + i] + [x];
    assert forall y :: y in again + [x] <==> y in again || y == x;
    if again != [] {
      assert (again + [x])[0] == again[0];
    } else {
      forall j | 0 <= j < k ensures !Resident(m, q[j], Main) {
        assert q[j] in q[..k];
      }
      assert FirstResident(m, q, Main, k + i);
    }
  }

  /** How the next main resident met at `k + i` moves the scan forward. */
  lemma ScanStep(m: Table, q: seq<Digest>, k: nat, again: seq<Digest>, i: nat)
    requires Scanned(m, q, k, again) && k + i < |q|
    requires forall j :: k <= j < k + i ==> !Resident(m, q[j], Main)
    requires Resident(m, q[k + i], Main)
    ensures Cleared(m, q, k + i) == Cleared(m, q, k)
    ensures var x := q[k + i];
            if Cleared(m, q, k)[x].visited
            then Scanned(m, q, k + i + 1, again + [x])
              && Cleared(m, q, k + i + 1) == Cleared(m, q, k)[x := Entry(Main, false)]
            else MainStop(m, q, k + i)
  {
    NoneBetween(m, q, k, i);
    if Cleared(m, q, k)[q[k + i]].visited {
      ScanOn(m, q, k, again, i);
    }
  }

  /** The scan ran through: every main resident was met once and had its visited bit. */
  lemma ScanEnd(m: Table, q: seq<Digest>, k: nat, again: seq<Digest>)
    requires Scanned(m, q, k, again) && again != []
    requires forall j :: k <= j < |q| ==> !Resident(m, q[j], Main)
    ensures MainVictim(m, q, |q|, again[0])
    ensures Cleared(m, q, |q|) == Cleared(m, q, k) && !Cleared(m, q, k)[again[0]].visited
  {
    assert again[0] in again;
    assert forall d :: d in q && Resident(m, d, Main) ==> d in q[..k];
    assert forall d :: d in q[..k] ==> d in q;
    assert q[..|q|] == q;
  }

  lemma NothingCleared(m: Table, q: seq<Digest>)
    ensures Cleared(m, q, 0) == m && Scanned(m, q, 0, [])
  {
  }

  /** What the first resident of the remaining main queue says about the original one. */
  lemma SameResidents(m: Table, q: seq<Digest>, k: nat, again: seq<Digest>, i: nat)
    requires Scanned(m, q, k, again) && i < |q| - k + |again|
    requires FirstResident(Cleared(m, q, k), q[k..] + again, Main, i)
    ensures forall j :: k <= j < k + i && j < |q| ==> !Resident(m, q[j], Main)
    ensures Resident(m, (q[k..] + again)[i], Main)
    ensures if k + i < |q| then (q[k..] + again)[i] == q[k + i]
            else i == |q| - k && again != [] && (q[k..] + again)[i] == again[0]
  {
    var s := q[k..] + again;
    forall j | k <= j < k + i && j < |q| ensures !Resident(m, q[j], Main) {
      assert s[j - k] == q[j];
    }
    if k + i >= |q| {
      var n := |q| - k;
      assert s[n] == again[0];
      assert again[0] in again;
    }
  }

  lemma RequeueOk(m: Table, s: seq<Digest>, n: nat, i: nat)
    requires QueueOk(m, s, n, Main) && i < |s| && FirstResident(m, s, Main, i)
    ensures QueueOk(m[s[i] := Entry(Main, false)], s[i + 1..] + [s[i]], n, Main)
  {
    var m' := m[s[i] := Entry(Small, false)];
    PopOk(m, s, n, Main, i, m');
    PushOk(m', s[i + 1..], n - 1, Main, s[i], Entry(Main, false));
    assert m'[s[i] := Entry(Main, false)] == m[s[i] := Entry(Main, false)];
  }

  lemma SameQueueOk(m: Table, s: seq<Digest>, n: nat, q: Queue, d: Digest, e: Entry)
    requires QueueOk(m, s, n, q) && d in m && e.q == m[d].q
    ensures QueueOk(m[d := e], s, n, q)
  {
    CountSet(m, d, e, q);
  }

  // ---------------------------------------------------------------- the history of evicted digests

  /** The history after `d` was evicted: the oldest entry makes room when it is full. */
  function Remember(cap: nat, ghosts: seq<Digest>, d: Digest): seq<Digest> {
    if |ghosts| < cap || ghosts == [] then ghosts + [d] else ghosts[1..] + [d]
  }

  /** What is remembered then: the oldest entry is forgotten, be it `d` itself. */
  function Remembered(cap: nat, ghosts: seq<Digest>, set': set<Digest>, d: Digest): set<Digest> {
    set' + {d} - (if |ghosts| < cap || ghosts == [] then {} else {ghosts[0]})
  }

  class Policy {
    const cap: nat
    var small: seq<Digest>
    var main: seq<Digest>
    var ghosts: seq<Digest>
    var meta: Table
    var ghostSet: set<Digest>
    var smallN: nat
    var mainN: nat

    /** Counters count residents, and every resident is found in its own queue. */
    ghost predicate Queues()
      reads this
    {
      QueueOk(meta, small, smallN, Small) && QueueOk(meta, main, mainN, Main)
    }

    ghost predicate Ghosts()
      reads this
    {
      && cap > 0 && |ghosts| <= cap
      && ghostSet !! meta.Keys
      && forall d :: d in ghostSet ==> d in ghosts
    }

    ghost predicate Valid()
      reads this
    {
      Queues() && Ghosts()
    }

    constructor (capacityHint: nat)
      ensures Valid() && meta == map[] && cap == if capacityHint == 0 then 1 else capacityHint
      ensures ghosts == [] && ghostSet == {}
    {
      cap := if capacityHint == 0 then 1 else capacityHint;
      small, main, ghosts, meta, ghostSet, smallN, mainN := [], [], [], map[], {}, 0, 0;
    }

    /** The ghost set never outgrows the capacity hint. */
    lemma GhostBound()
      requires Valid()
      ensures |ghostSet| <= cap
    {
      ElementsCount(ghosts);
      SubsetCount(ghostSet, Elements(ghosts));
    }

    /** A resident counts as hit; a recently evicted digest enters main, any other enters small. */
    method Insert(d: Digest)
      requires Valid()
      modifies this
      ensures Valid()
      ensures meta == old(meta)[d := if d in old(meta) then old(meta)[d].(visited := true)
                                     else Entry(if d in old(ghostSet) then Main else Small, false)]
      ensures ghostSet == old(ghostSet) - {d} && ghosts == old(ghosts)
    {
      hide Count;
      ghost var e := if d in meta then meta[d].(visited := true)
                     else Entry(if d in ghostSet then Main else Small, false);
      CountSet(meta, d, e, Small);
      CountSet(meta, d, e, Main);
      if d in meta {
        meta := meta[d := meta[d].(visited := true)];
        return;
      }
      if d in ghostSet {
        ghostSet := ghostSet - {d};
        meta := meta[d := Entry(Main, false)];
        main := main + [d];
        mainN := mainN + 1;
      } else {
        meta := meta[d := Entry(Small, false)];
        small := small + [d];
        smallN := smallN + 1;
      }
    }

    method Touch(d: Digest)
      requires Valid()
      modifies this
      ensures Valid()
      ensures meta == if d in old(meta) then old(meta)[d := old(meta)[d].(visited := true)] else old(meta)
      ensures ghostSet == old(ghostSet) && ghosts == old(ghosts)
    {
      if d in meta {
        hide Count;
        CountSet(meta, d, meta[d].(visited := true), Small);
        CountSet(meta, d, meta[d].(visited := true), Main);
        meta := meta[d := meta[d].(visited := true)];
      }
    }

    /** Forgets `d` everywhere but in the queues, where its entries become stale. */
    method Remove(d: Digest)
      requires Valid()
      modifies this
      ensures Valid()
      ensures meta == old(meta) - {d} && ghostSet == old(ghostSet) - {d} && ghosts == old(ghosts)
    {
      hide Count;
      CountDrop(meta, d, Small);
      CountDrop(meta, d, Main);
      if d in meta {
        if meta[d].q == Small {
          smallN := smallN - 1;
        } else {
          mainN := mainN - 1;
        }
      }
      meta := meta - {d};
      ghostSet := ghostSet - {d};
    }

    /** Pops `s` up to and including its first entry that still counts for `which`. */
    method PopFrontResident(s: seq<Digest>, which: Queue) returns (d: Option<Digest>, rest: seq<Digest>, ghost i: nat)
      ensures FirstResident(meta, s, which, i)
      ensures d.None? ==> i == |s| && rest == []
      ensures d.Some? ==> i < |s| && d.value == s[i] && rest == s[i + 1..]
      ensures d.None? <==> FirstResident(meta, s, which, |s|)
    {
      rest, i := s, 0;
      while rest != []
        invariant i <= |s| && rest == s[i..]
        invariant forall j :: 0 <= j < i ==> !Resident(meta, s[j], which)
        decreases |rest|
      {
        var x := rest[0];
        rest := rest[1..];
        if Resident(meta, x, which) {
          return Some(x), rest, i;
        }
        i := i + 1;
      }
      d := None;
    }

    /**
      Remembers an evicted digest. It can be forgotten at once: when the queue is full and an older
      entry of the same digest is at its front, popping that entry erases the digest from the set.
    */
    method GhostPush(d: Digest)
      requires cap > 0 && |ghosts| <= cap && d !in meta
      requires ghostSet !! meta.Keys && forall x :: x in ghostSet ==> x in ghosts
      modifies this`ghosts, this`ghostSet
      ensures Ghosts()
      ensures d in ghostSet <==> !(|old(ghosts)| == cap && old(ghosts)[0] == d)
      ensures ghosts == Remember(cap, old(ghosts), d) && ghostSet == Remembered(cap, old(ghosts), old(ghostSet), d)
    {
      ghosts := ghosts + [d];
      ghostSet := ghostSet + {d};
      while |ghosts| > cap
        invariant (ghosts == old(ghosts) + [d] && ghostSet == old(ghostSet) + {d}) ||
                  (|old(ghosts)| == cap && ghosts == (old(ghosts) + [d])[1..]
                   && ghostSet == old(ghostSet) + {d} - {old(ghosts)[0]})
        decreases |ghosts|
      {
        ghostSet := ghostSet - {ghosts[0]};
        ghosts := ghosts[1..];
      }
      forall x | x in ghostSet ensures x in ghosts {
        if |old(ghosts)| == cap {
          assert x in old(ghosts) + [d];
          assert old(ghosts) + [d] == [old(ghosts)[0]] + ghosts;
        }
      }
    }

    /**
      Drains the small queue: visited residents move to main, the first one not visited is evicted
      to the ghosts. Without such a resident every small resident has moved.
    */
    method DrainSmall() returns (r: Option<Digest>, ghost stop: nat)
      requires Valid()
      modifies this
      ensures Valid() && SmallStop(old(meta), old(small), stop)
      ensures r.Some? <==> stop < |old(small)|
      ensures r.Some? ==> r.value == old(small)[stop] && meta == Promoted(old(meta), old(small), stop) - {r.value}
      ensures r.None? ==> meta == Promoted(old(meta), old(small), stop) && smallN == 0
      ensures r.None? ==> main == old(main) + Arrivals(old(meta), old(small), stop)
      ensures r.None? ==> ghostSet == old(ghostSet) && ghosts == old(ghosts)
      ensures r.Some? ==> Resident(old(meta), r.value, Small) && !old(meta)[r.value].visited
      ensures r.Some? ==>
              ghosts == Remember(cap, old(ghosts), r.value)
              && ghostSet == Remembered(cap, old(ghosts), old(ghostSet), r.value)
    {
      hide QueueOk, Promoted, Arrivals, Remember, Remembered;
      ghost var m, q := meta, small;
      stop := 0;
      NothingPromoted(m, q);
      while true
        invariant stop <= |q| && small == q[stop..] && meta == Promoted(m, q, stop)
        invariant main == old(main) + Arrivals(m, q, stop)
        invariant Valid() && ghostSet == old(ghostSet) && ghosts == old(ghosts)
        invariant forall j :: 0 <= j < stop ==> Resident(m, q[j], Small) ==> m[q[j]].visited
        decreases |q| - stop
      {
        var d, rest, i := PopFrontResident(small, Small);
        DrainStep(m, q, stop, i);
        if d.None? {
          NoneLeft(meta, small, smallN, Small);
          stop := |q|;
          small := [];
          return None, stop;
        }
        var x := d.value;
        if meta[x].visited {
          PopOk(meta, small, smallN, Small, i, meta[x := Entry(Main, false)]);
          PushOk(meta, main, mainN, Main, x, Entry(Main, false));
          small := rest;
          smallN := smallN - 1;
          meta := meta[x := Entry(Main, false)];
          main := main + [x];
          mainN := mainN + 1;
          stop := stop + i + 1;
        } else {
          PopOk(meta, small, smallN, Small, i, meta - {x});
          OtherOk(meta, main, mainN, Main, x, meta - {x});
          small := rest;
          smallN := smallN - 1;
          meta := meta - {x};
          GhostPush(x);
          stop := stop + i;
          return Some(x), stop;
        }
      }
    }

    /** Scans the main queue: a visited resident is requeued once, the first other one is evicted. */
    method DrainMain() returns (r: Digest, ghost stop: nat)
      requires Valid() && mainN > 0
      modifies this
      ensures Valid() && MainVictim(old(meta), old(main), stop, r)
      ensures Resident(old(meta), r, Main) && meta == Cleared(old(meta), old(main), stop) - {r}
      ensures ghostSet == old(ghostSet) && ghosts == old(ghosts)
    {
      hide QueueOk, Cleared, Scanned, MainStop;
      ghost var m, q := meta, main;
      ghost var k, again := 0, [];
      NothingCleared(m, q);
      while true
        invariant Scanned(m, q, k, again) && k <= |q| && main == q[k..] + again && meta == Cleared(m, q, k)
        invariant Valid() && mainN > 0 && ghostSet == old(ghostSet) && ghosts == old(ghosts)
        decreases |q| - k
      {
        var d, rest, i := PopFrontResident(main, Main);
        if d.None? {
          NoneLeft(meta, main, mainN, Main);
          assert false;
        }
        var x := d.value;
        SameResidents(m, q, k, again, i);
        if k + i < |q| {
          ScanStep(m, q, k, again, i);
        } else {
          ScanEnd(m, q, k, again);
        }
        if meta[x].visited {
          RequeueOk(meta, main, mainN, i);
          SameQueueOk(meta, small, smallN, Small, x, Entry(Main, false));
          meta := meta[x := Entry(Main, false)];
          main := rest + [x];
          again := again + [x];
          k := k + i + 1;
        } else {
          PopOk(meta, main, mainN, Main, i, meta - {x});
          OtherOk(meta, small, smallN, Small, x, meta - {x});
          main := rest;
          mainN := mainN - 1;
          meta := meta - {x};
          return x, k + i;
        }
      }
    }

    /** The next victim: there is one exactly when something is resident, and only it leaves. */
    method Evict() returns (r: Option<Digest>)
      requires Valid()
      modifies this
      ensures Valid()
      ensures r.None? <==> old(meta) == map[]
      ensures r.None? ==> meta == old(meta)
      ensures r.Some? ==> r.value in old(meta) && meta.Keys == old(meta).Keys - {r.value}
      ensures r.Some? ==> Evicted(old(meta), old(small), old(main), cap, r.value, meta)
      ensures var m := old(meta);
              cap < 10 * (|In(m, Small)| + 1) || In(m, Main) == {} ==>
                SomeUnvisited(m) ==> r.Some? && m[r.value] == Entry(Small, false) && StayAsTheyAre(m, meta, Main)
      ensures var m := old(meta);
              10 * (|In(m, Small)| + 1) <= cap || In(m, Small) == {} ==>
                In(m, Main) != {} ==> r.Some? && Resident(m, r.value, Main) && StayAsTheyAre(m, meta, Small)
      ensures var unused := r.Some? && old(meta)[r.value] == Entry(Small, false);
              && ghosts == (if unused then Remember(cap, old(ghosts), r.value) else old(ghosts))
              && ghostSet == (if unused then Remembered(cap, old(ghosts), old(ghostSet), r.value) else old(ghostSet))
    {
      hide Promoted, Cleared, Arrivals, MainVictim, SmallStop, Remember, Remembered, StayAsTheyAre;
      NoneCounted(meta);
      if smallN == 0 && mainN == 0 {
        return None;
      }
      var fromSmall: bool;
      if smallN == 0 {
        fromSmall := false;
      } else if mainN == 0 {
        fromSmall := true;
      } else {
        fromSmall := smallN >= if cap / 10 > 1 then cap / 10 else 1;
      }
      if fromSmall {
        var d, i := DrainSmall();
        if d.Some? {
          SmallStopResident(old(meta), old(small), i);
          WhoPays(old(meta), old(small), old(smallN), old(main), cap, d.value, meta);
          return d;
        }
        AllVisited(old(meta), old(small), old(smallN), i);
        NoneCounted(meta);
      }
      ghost var m, q := meta, main;
      var d, k := DrainMain();
      assert EvictedFromMain(m, q, d, meta);
      WhoPays(old(meta), old(small), old(smallN), old(main), cap, d, meta);
      r := Some(d);
    }
  }

  /** Evicting until nothing is left yields every resident exactly once. */
  method EvictAll(p: Policy) returns (victims: seq<Digest>)
    requires p.Valid()
    modifies p
    ensures p.Valid() && p.meta == map[]
    ensures multiset(victims) == multiset(old(p.meta.Keys))
  {
    hide Evicted, Remember, Remembered, Policy.Queues, Policy.Ghosts;
    victims := [];
    var d := p.Evict();
    while d.Some?
      invariant p.Valid()
      invariant d.None? ==> p.meta == map[]
      invariant multiset(victims) + multiset(p.meta.Keys) + (if d.Some? then multiset{d.value} else multiset{}) ==
                multiset(old(p.meta.Keys))
      decreases |p.meta.Keys| + if d.Some? then 1 else 0
    {
      victims := victims + [d.value];
      d := p.Evict();
    }
  }

  /**
    An eviction whose victim is forgotten at once: the history holds an older entry of the same digest
    in front, left there when the digest came back.
  */
  method ForgottenAtOnce(d: Digest) returns (p: Policy, victim: Option<Digest>)
    ensures fresh(p) && p.Valid() && p.cap == 1 && victim == Some(d) && p.ghosts == [d] && d !in p.ghostSet
  {
    hide Evicted, Policy.Queues, Policy.Ghosts;
    p := new Policy(1);
    p.Insert(d);
    victim := p.Evict();
    assert victim == Some(d) && p.ghosts == [d] && p.ghostSet == {d};
    p.Insert(d);
    p.Remove(d);
    p.Insert(d);
    assert p.meta == map[d := Entry(Small, false)];
    victim := p.Evict();
  }
}
