/**
  Request framing of the memcache event loop, `EventLoop::process` in
  src/goblin/protocol/memcache/event_loop.cpp: command lines, SET bodies and pipelined GETs are taken from
  a receive buffer that fills in arbitrary pieces.

  Line parsing is a pure function of one line. The storage engine is a function from the operations this
  connection has performed so far to the answer of the last one, so two runs are compared under an engine
  that answers alike. `Exec` runs a whole byte stream at once; the class `Session` is the loop.
*/
module Framing {
  import opened Arith
  import opened Environment

  type Bytes = seq<byte>

  const CR: byte := 13
  const LF: byte := 10
  const MAX_LINE := 8192

  /** What a command line asks for. */
  datatype Cmd =
    | Reply(text: Bytes)         // version, mn, stats, a line that does not parse
    | Do                         // one engine operation and its reply: delete, md, mg without v
    | Get                        // get, gets, mg with v
    | Store(n: nat)              // set, add, replace, cas, ms: a body of n bytes follows
    | Quit

  /** Operations on the engine; the line carries their arguments. */
  datatype Op = DoOp(line: Bytes) | Open(line: Bytes) | Admit(line: Bytes) | Begin(line: Bytes) | Commit(line: Bytes,
                       body: Bytes)

  /** An answer. `failAt` is the body position at which a write fails, for `Begin`. */
  datatype Ans = Ans(reject: bool, text: Bytes, value: Bytes, trailer: Bytes, failAt: Option<nat>)

  datatype Cfg = Cfg(parse: Bytes -> Cmd, engine: seq<Op> -> Ans, badChunk: Bytes -> Bytes, notStored: Bytes -> Bytes)

  // ---------------------------------------------------------------- lines

  function FindCrlf(s: Bytes): (r: Option<nat>)
    ensures r.Some? ==> r.value + 1 < |s| && s[r.value] == CR && s[r.value + 1] == LF && NoCrlf(s, r.value)
    ensures r.None? ==> NoCrlf(s, |s|)
    decreases |s|
  {
    if |s| < 2 then None
    else if s[0] == CR && s[1] == LF then Some(0)
    else match FindCrlf(s[1..])
      case None => None
      case Some(i) => Some(i + 1)
  }

  /** No line end starts before position `n`. */
  ghost predicate NoCrlf(s: Bytes, n: nat) {
    forall i :: 0 <= i < n && i + 1 < |s| ==> !(s[i] == CR && s[i + 1] == LF)
  }

  lemma FindUnique(s: Bytes, i: nat)
    requires i + 1 < |s| && s[i] == CR && s[i + 1] == LF && NoCrlf(s, i)
    ensures FindCrlf(s) == Some(i)
  {
  }

  /** The first line of a buffer is the first line of anything it grows into. */
  lemma FindMore(s: Bytes, f: Bytes)
    requires FindCrlf(s).Some?
    ensures FindCrlf(s + f) == FindCrlf(s)
  {
    var i := FindCrlf(s).value;
    assert NoCrlf(s + f, i);
    FindUnique(s + f, i);
  }

  /** A line that was taken out is found again at the front of what is left. */
  lemma LineAgain(s: Bytes, e: nat)
    requires FindCrlf(s) == Some(e)
    ensures FindCrlf(s[..e] + [CR, LF]) == Some(e) && s[..e] + [CR, LF] + s[e + 2..] == s
  {
    assert NoCrlf(s[..e] + [CR, LF], e);
    FindUnique(s[..e] + [CR, LF], e);
  }

  // ---------------------------------------------------------------- the reference

  /** The store a body belongs to: refused with a reply, or open until a write fails. */
  datatype Verdict = Refused(text: Bytes) | Open(failAt: Option<nat>)

  datatype Mode = Line | NeedBegin(line: Bytes, n: nat) | Body(line: Bytes, n: nat, verdict: Verdict) | Over

  /** What has been done, what has been sent, and what is expected next. */
  datatype Ref = Ref(hist: seq<Op>, sent: Bytes, mode: Mode)

  function Perform(cfg: Cfg, r: Ref, op: Op): Ans {
    cfg.engine(r.hist + [op])
  }

  /** A complete command line. */
  function DoLine(cfg: Cfg, r: Ref, line: Bytes): Ref {
    match cfg.parse(line)
    case Reply(text) => r.(sent := r.sent + text)
    case Do =>
      var a := Perform(cfg, r, DoOp(line));
      r.(hist := r.hist + [DoOp(line)], sent := r.sent + a.text)
    case Get =>
      var a := Perform(cfg, r, Op.Open(line));
      r.(hist := r.hist + [Op.Open(line)], sent := r.sent + a.text + (if a.reject then [] else a.value + a.trailer))
    case Store(n) =>
      var a := Perform(cfg, r, Admit(line));
      r.(hist := r.hist + [Admit(line)], mode := if a.reject then Body(line, n, Refused(a.text))
         else NeedBegin(line, n))
    case Quit => r.(mode := Over)
  }

  function DoBegin(cfg: Cfg, r: Ref): Ref
    requires r.mode.NeedBegin?
  {
    var op := Begin(r.mode.line);
    var a := Perform(cfg, r, op);
    r.(hist := r.hist + [op], mode := Body(r.mode.line, r.mode.n, if a.reject then Refused(cfg.notStored(r.mode.line))
                                           else Verdict.Open(a.failAt)))
  }

  predicate Failed(v: Verdict, written: nat) {
    v.Open? && v.failAt.Some? && v.failAt.value < written
  }

  /** A complete body and the two bytes after it. */
  function DoBody(cfg: Cfg, r: Ref, body: Bytes, crlf: bool): Ref
    requires r.mode.Body?
  {
    var line := r.mode.line;
    if !crlf then r.(sent := r.sent + cfg.badChunk(line), mode := Line)
    else if r.mode.verdict.Refused? then r.(sent := r.sent + r.mode.verdict.text, mode := Line)
    else if Failed(r.mode.verdict, |body|) then r.(sent := r.sent + cfg.notStored(line), mode := Line)
    else
      var a := Perform(cfg, r, Commit(line, body));
      r.(hist := r.hist + [Commit(line, body)], sent := r.sent + a.text, mode := Line)
  }

  predicate Ready(r: Ref, s: Bytes) {
    match r.mode
    case Line => FindCrlf(s).Some?
    case NeedBegin(_, _) => true
    case Body(_, n, _) => n + 2 <= |s|
    case Over => false
  }

  /** One request, or the body that goes with it. */
  function Step(cfg: Cfg, r: Ref, s: Bytes): (p: (Ref, Bytes))
    requires Ready(r, s)
    ensures |p.1| < |s| || (|p.1| == |s| && r.mode.NeedBegin? && p.0.mode.Body?)
  {
    match r.mode
    case Line => var e := FindCrlf(s).value; (DoLine(cfg, r, s[..e]), s[e + 2..])
    case NeedBegin(_, _) => (DoBegin(cfg, r), s)
    case Body(_, n, _) => (DoBody(cfg, r, s[..n], s[n] == CR && s[n + 1] == LF), s[n + 2..])
  }

  /** The whole stream: everything complete is carried out in order, and the rest is left. */
  function Exec(cfg: Cfg, r: Ref, s: Bytes): (p: (Ref, Bytes))
    ensures !Ready(p.0, p.1)
    decreases |s|, if r.mode.NeedBegin? then 1 else 0
  {
    if Ready(r, s) then var (r', s') := Step(cfg, r, s); Exec(cfg, r', s') else (r, s)
  }

  lemma StepMore(cfg: Cfg, r: Ref, s: Bytes, f: Bytes)
    requires Ready(r, s)
    ensures Ready(r, s + f) && Step(cfg, r, s + f) == (Step(cfg, r, s).0, Step(cfg, r, s).1 + f)
  {
    match r.mode
    case Line =>
      FindMore(s, f);
      var e := FindCrlf(s).value;
      assert (s + f)[..e] == s[..e] && (s + f)[e + 2..] == s[e + 2..] + f;
    case NeedBegin(_, _) =>
    case Body(_, n, _) =>
      assert (s + f)[..n] == s[..n] && (s + f)[n + 2..] == s[n + 2..] + f;
  }

  /** Running a prefix first and the rest behind what it left over is the same as running all at once. */
  lemma {:induction false} ExecMore(cfg: Cfg, r: Ref, s: Bytes, f: Bytes)
    ensures Exec(cfg, r, s + f) == Exec(cfg, Exec(cfg, r, s).0, Exec(cfg, r, s).1 + f)
    decreases |s|, if r.mode.NeedBegin? then 1 else 0
  {
    if Ready(r, s) {
      StepMore(cfg, r, s, f);
      ExecMore(cfg, Step(cfg, r, s).0, Step(cfg, r, s).1, f);
    }
  }

  // ---------------------------------------------------------------- line lengths

  /** Wherever a line is expected, its end comes within the bound, or no more than the bound is ever received. */
  ghost predicate LinesFit(cfg: Cfg, r: Ref, s: Bytes)
    decreases |s|, if r.mode.NeedBegin? then 1 else 0
  {
    && (r.mode.Line? ==> LineFits(s))
    && (r.mode.Over? ==> |s| <= MAX_LINE)
    && (Ready(r, s) ==> LinesFit(cfg, Step(cfg, r, s).0, Step(cfg, r, s).1))
  }

  /** The bound that matters to one line: its end, or all there is, comes soon enough. */
  ghost predicate LineFits(s: Bytes) {
    if FindCrlf(s).Some? then FindCrlf(s).value < MAX_LINE else |s| <= MAX_LINE
  }

  ghost predicate Overlong(s: Bytes, n: nat)
    requires n <= |s|
  {
    FindCrlf(s[..n]).None? && n > MAX_LINE
  }

  /**
    Exactly when no way of cutting the stream makes the loop see more than the bound without a line end.
    A line of exactly 8 KiB is already too long: a piece may end between its CR and its LF.
  */
  lemma NeverOverlongIff(s: Bytes)
    ensures LineFits(s) <==> forall n: nat :: n <= |s| ==> !Overlong(s, n)
  {
    assert s[..|s|] == s;
    match FindCrlf(s) {
      case None =>
        assert Overlong(s, |s|) <==> |s| > MAX_LINE;
      case Some(e) =>
        forall n: nat | n <= |s|
          ensures FindCrlf(s[..n]).None? <==> n < e + 2
        {
          CutLine(s, e, n);
        }
        assert e >= MAX_LINE ==> Overlong(s, e + 1);
    }
  }

  lemma CutLine(s: Bytes, e: nat, n: nat)
    requires FindCrlf(s) == Some(e) && n <= |s|
    ensures FindCrlf(s[..n]).None? <==> n < e + 2
  {
    var p := s[..n];
    if n >= e + 2 {
      FindUnique(p, e);
    }
  }

  /** One step of the reference keeps what the rest of the stream will lead to. */
  lemma StepKeeps(cfg: Cfg, r: Ref, s: Bytes, f: Bytes)
    requires Ready(r, s)
    ensures Exec(cfg, Step(cfg, r, s).0, Step(cfg, r, s).1 + f) == Exec(cfg, r, s + f)
    ensures LinesFit(cfg, r, s + f) ==> LinesFit(cfg, Step(cfg, r, s).0, Step(cfg, r, s).1 + f)
  {
    StepMore(cfg, r, s, f);
  }

  /** A buffered piece of a line stays within the bound, whatever follows. */
  lemma PieceFits(cfg: Cfg, r: Ref, s: Bytes, f: Bytes)
    requires LinesFit(cfg, r, s + f) && (r.mode.Line? || r.mode.Over?) && !Ready(r, s)
    ensures |s| <= MAX_LINE
  {
    if r.mode.Line? && FindCrlf(s + f).Some? {
      var e := FindCrlf(s + f).value;
      assert e + 1 >= |s|;
    }
  }

  // ---------------------------------------------------------------- the loop

  datatype Phase =
    | Working                    // inside `Process`
    | Receiving
    | Sending                    // replies are on their way; nothing is received meanwhile
    | Streaming(rest: Bytes)     // a GET hit: value and trailer follow the queued header
    | WaitGet(line: Bytes)       // parked on the read pool; the GET is opened when woken
    | WaitSet                    // parked on the staging pool
    | Closed

  const START := Ref([], [], Line)

  class Session {
    const cfg: Cfg
    ghost const total: Bytes     // everything the client sends
    ghost var got: nat           // how much of it has been received

    var phase: Phase
    var input: Bytes
    var out: Bytes
    var sent: Bytes
    var hist: seq<Op>
    var mode: Mode
    var written: Bytes           // body bytes already handed to the store
    var remaining: nat
    var failed: bool

    ghost function AbsRef(): Ref
      reads this
    {
      Ref(hist, sent + out + (if phase.Streaming? then phase.rest else []), mode)
    }

    /** What has been received and is not yet dealt with; a parked GET and a partial body still count. */
    ghost function AbsInput(): Bytes
      reads this
    {
      (if phase.WaitGet? then phase.line + [CR, LF] else written) + input
    }

    /**
      From `r`, with `s` buffered and the rest of the stream to come, the session ends where the whole stream
      leads.
    */
    ghost predicate TracksAt(r: Ref, s: Bytes)
      reads this`got
    {
      && got <= |total|
      && Exec(cfg, r, s + total[got..]) == Exec(cfg, START, total)
      && LinesFit(cfg, r, s + total[got..])
    }

    ghost predicate Tracks()
      reads this
    {
      TracksAt(AbsRef(), AbsInput())
    }

    lemma Stepped(r: Ref, s: Bytes)
      requires TracksAt(r, s) && Ready(r, s)
      ensures TracksAt(Step(cfg, r, s).0, Step(cfg, r, s).1)
    {
      StepKeeps(cfg, r, s, total[got..]);
    }

    ghost predicate Shape()
      reads this
    {
      && (if mode.Body? then |written| + remaining == mode.n && failed == Failed(mode.verdict, |written|)
          else written == [])
      && (phase.WaitGet? ==>
          mode.Line? && cfg.parse(phase.line).Get?
          && FindCrlf(phase.line + [CR, LF]) == Some(|phase.line|))
      && (phase.Streaming? ==> mode.Line?)
      && (phase.WaitSet? <==> mode.NeedBegin? && !phase.Working?)
      && (phase.Closed? ==> mode.Over? && out == [])
      && (mode.Over? ==> phase.Working? || phase.Closed? || phase.Sending?)
      && (phase.Receiving? ==> out == [])
      && (phase.Receiving? || phase.Sending? ==> !Ready(AbsRef(), AbsInput()))
    }

    ghost predicate Valid()
      reads this
    {
      Tracks() && Shape()
    }

    constructor (cfg: Cfg, ghost total: Bytes)
      requires LinesFit(cfg, START, total)
      ensures Valid() && phase == Receiving && got == 0 && this.total == total && this.cfg == cfg
    {
      this.cfg, this.total := cfg, total;
      got, phase, input, out, sent, hist, mode, written, remaining, failed := 0, Receiving, [], [], [], [], Line, [], 0,
        false;
      new;
      assert [] + total[0..] == total;
      assert AbsInput() == [];
    }

    // -------------------------------------------------------------- SET bodies

    /** Hand what has arrived of the body to the store, up to its length. */
    method EatBody()
      requires Valid() && phase == Working && mode.Body?
      modifies this`input, this`written, this`remaining, this`failed
      ensures Valid() && AbsInput() == old(AbsInput()) && (remaining == 0 || input == []) && |input| <= |old(input)|
    {
      hide TracksAt, FindCrlf;
      while remaining > 0 && input != []
        invariant Shape() && phase == Working && AbsInput() == old(AbsInput()) && |input| <= |old(input)|
        decreases |input|
      {
        var take := Min(|input|, remaining);
        if mode.verdict.Open? && !failed {
          failed := Failed(mode.verdict, |written| + take);
        }
        assert written + input == written + input[..take] + input[take..];
        written := written + input[..take];
        input := input[take..];
        remaining := remaining - take;
      }
    }

    /** The object is committed exactly if its two last bytes are right, it was let in, and no write failed. */
    method FinishBody()
      requires Valid() && phase == Working && mode.Body? && remaining == 0 && 2 <= |input|
      modifies this
      ensures Valid() && phase == Working && |input| < |old(input)| && got == old(got)
      ensures mode == Line && input == old(input)[2..] && sent == old(sent)
      ensures hist == old(hist) + if old(input)[0] == CR && old(input)[1] == LF && old(mode).verdict.Open?
              && !old(failed)
              then [Commit(old(mode).line, old(written))] else []
    {
      hide TracksAt, FindCrlf, NoCrlf, DoLine, DoBegin;
      ghost var r, s := AbsRef(), AbsInput();
      Stepped(r, s);
      assert s[..mode.n] == written && s[mode.n..] == input;
      var crlf := input[0] == CR && input[1] == LF;
      input := input[2..];
      var line, verdict := mode.line, mode.verdict;
      if !crlf {
        out := out + cfg.badChunk(line);
      } else if verdict.Refused? {
        out := out + verdict.text;
      } else if failed {
        out := out + cfg.notStored(line);
      } else {
        hist := hist + [Commit(line, written)];
        out := out + cfg.engine(hist).text;
      }
      written := [];
      mode := Line;
      assert AbsRef() == Step(cfg, r, s).0 && AbsInput() == Step(cfg, r, s).1;
    }

    // -------------------------------------------------------------- command lines

    /** A parked or immediate start of the store that was admitted. */
    method BeginStore() returns (parked: bool)
      requires Valid() && phase == Working && mode.NeedBegin?
      modifies this
      ensures Valid() && input == old(input) && got == old(got)
      ensures if parked then phase == WaitSet else phase == Working && mode.Body?
    {
      hide TracksAt, FindCrlf, NoCrlf, DoLine, DoBody;
      parked := Any();
      if parked {
        phase := WaitSet;
        return;
      }
      Begun();
    }

    method Begun()
      requires Valid() && (phase == Working || phase == WaitSet) && mode.NeedBegin?
      modifies this
      ensures Valid() && input == old(input) && got == old(got) && phase == Working && mode.Body?
    {
      hide TracksAt, FindCrlf, NoCrlf, DoLine, DoBody;
      ghost var r, s := AbsRef(), AbsInput();
      Stepped(r, s);
      var line, n := mode.line, mode.n;
      phase := Working;
      hist := hist + [Begin(line)];
      var a := cfg.engine(hist);
      mode := Body(line, n, if a.reject then Refused(cfg.notStored(line)) else Verdict.Open(a.failAt));
      remaining, failed := n, false;
      assert AbsRef() == Step(cfg, r, s).0 && AbsInput() == Step(cfg, r, s).1;
    }

    /** Open a GET: on a hit header, value and trailer are due; on a miss its reply. */
    method OpenGet(line: Bytes)
      requires mode.Line? && written == [] && cfg.parse(line).Get? && !phase.Streaming?
      modifies this`hist, this`out, this`phase
      ensures phase == Working || phase.Streaming?
      ensures AbsRef() == DoLine(cfg, Ref(old(hist), old(sent + out), mode), line)
    {
      hist := hist + [Op.Open(line)];
      var a := cfg.engine(hist);
      out := out + a.text;
      phase := if a.reject then Working else Streaming(a.value + a.trailer);
      assert phase.Streaming? ==> sent + out + phase.rest == old(sent + out) + a.text + (a.value + a.trailer);
      assert phase.Working? ==> sent + out + [] == old(sent + out) + a.text + [];
    }

    /** Carry out one command line. */
    method TakeLine(e: nat)
      requires Valid() && phase == Working && mode.Line? && FindCrlf(input) == Some(e)
      modifies this
      ensures Valid() && |input| < |old(input)| && got == old(got)
      ensures phase == Working || phase.Streaming?
    {
      hide TracksAt, FindCrlf, NoCrlf, DoBegin, DoBody, DoLine;
      assert AbsInput() == input;
      ghost var r, s := AbsRef(), AbsInput();
      Stepped(r, s);
      var line := input[..e];
      input := input[e + 2..];
      DoneLine(line);
      assert AbsInput() == Step(cfg, r, s).1;
      assert AbsRef() == Step(cfg, r, s).0;
    }

    method DoneLine(line: Bytes)
      requires phase == Working && mode.Line? && written == []
      modifies this
      ensures AbsRef() == DoLine(cfg, old(AbsRef()), line)
      ensures phase == Working || (phase.Streaming? && mode.Line?)
      ensures unchanged(`input, `sent, `got, `written)
              && (mode.Body? ==> remaining == mode.n && failed == Failed(mode.verdict, 0))
    {
      match cfg.parse(line) {
        case Reply(text) =>
          out := out + text;
        case Do =>
          hist := hist + [DoOp(line)];
          out := out + cfg.engine(hist).text;
        case Get =>
          OpenGet(line);
        case Store(n) =>
          hist := hist + [Admit(line)];
          var a := cfg.engine(hist);
          if a.reject {
            mode := Body(line, n, Refused(a.text));
            remaining, failed := n, false;
          } else {
            mode := NeedBegin(line, n);
          }
        case Quit =>
          mode := Over;
      }
    }

    /** The read pool is exhausted: the GET is put off, its line already taken from the buffer. */
    method ParkGet(e: nat)
      requires Valid() && phase == Working && mode.Line? && FindCrlf(input) == Some(e) && cfg.parse(input[..e]).Get?
      modifies this`phase, this`input
      ensures Valid() && phase.WaitGet? && |input| < |old(input)|
    {
      hide TracksAt, DoBegin, DoBody, FindCrlf, NoCrlf;
      assert AbsInput() == input;
      var line := input[..e];
      LineAgain(input, e);
      phase := WaitGet(line);
      input := input[e + 2..];
      assert AbsInput() == old(AbsInput());
    }

    // -------------------------------------------------------------- the loop

    method Turn() returns (going: bool)
      requires Valid() && phase == Working
      modifies this
      ensures Valid() && got == old(got) && (going ==> phase == Working)
      ensures |input| < |old(input)| || (|input| == |old(input)| && (!going || (old(mode).NeedBegin? && mode.Body?)))
      ensures |input| == |old(input)| && !old(mode).NeedBegin? ==> phase == Working && !mode.NeedBegin?
      ensures !going ==> if phase == Working then !Ready(AbsRef(), AbsInput())
              else phase.Streaming? || phase.WaitGet? || phase.WaitSet?
    {
      hide TracksAt, FindCrlf, NoCrlf, DoBegin, DoBody, DoLine;
      if mode.Body? {
        EatBody();
        if remaining > 0 || |input| < 2 {
          return false;
        }
        FinishBody();
        return true;
      }
      if mode.NeedBegin? {
        var parked := BeginStore();
        return !parked;
      }
      if mode.Over? {
        return false;
      }
      assert AbsInput() == input;
      match FindCrlf(input) {
        case None =>
          going := false;
        case Some(e) =>
          var exhausted := Any();
          if exhausted && cfg.parse(input[..e]).Get? {
            ParkGet(e);
            return false;
          }
          TakeLine(e);
          going := phase == Working;
      }
    }

    /**
      Go on until a request cannot be completed, starts a stream or parks; then receive, send, or close after
      `quit`.
    */
    method Process()
      requires Valid() && phase == Working && !mode.NeedBegin?
      modifies this
      ensures Valid() && got == old(got) && phase != Working
      ensures |input| < |old(input)| || (|input| == |old(input)| && Rank() < 2)
    {
      hide TracksAt, FindCrlf, NoCrlf, DoBegin, DoBody, DoLine;
      var going := true;
      while going
        invariant Valid() && got == old(got) && (going ==> phase == Working)
                  && (mode.NeedBegin? ==> |input| < |old(input)|)
        invariant |input| < |old(input)| || (|input| == |old(input)| && phase == Working)
        invariant !going ==> if phase == Working then !Ready(AbsRef(), AbsInput())
                  else phase.Streaming? || phase.WaitGet? || phase.WaitSet?
        decreases going, |input|, if mode.NeedBegin? then 1 else 0
      {
        going := Turn();
      }
      if phase != Working {
        return;
      }
      if !mode.Body? {
        NeverTooLong();   // so the connection is not closed for an overlong line
      }
      if out != [] {
        phase := Sending;
      } else if mode.Over? {
        phase := Closed;
      } else {
        phase := Receiving;
      }
    }

    lemma NeverTooLong()
      requires Valid() && phase == Working && !Ready(AbsRef(), AbsInput()) && !mode.Body?
      ensures |input| <= MAX_LINE
    {
      hide Exec;
      PieceFits(cfg, AbsRef(), AbsInput(), total[got..]);
    }

    function Rank(): nat
      reads this
    {
      match phase
      case Receiving => 0
      case Closed => 0
      case Sending => 1
      case Streaming(_) => 2
      case _ => 3
    }

    // -------------------------------------------------------------- events

    method OnRecv(chunk: Bytes)
      requires Valid() && phase == Receiving && 0 < |chunk| && got + |chunk| <= |total|
               && chunk == total[got..got + |chunk|]
      modifies this
      ensures Valid() && got == old(got) + |chunk| && phase != Working
    {
      hide Exec, LinesFit, FindCrlf;
      assert AbsInput() + total[got..] == AbsInput() + chunk + total[got + |chunk|..];
      input := input + chunk;
      got := got + |chunk|;
      phase := Working;
      assert AbsInput() == old(AbsInput()) + chunk;
      assert AbsRef() == old(AbsRef());
      Process();
    }

    /** Queued replies are out. */
    method OnSent()
      requires Valid() && phase == Sending
      modifies this
      ensures Valid() && got == old(got) && input == old(input) && Rank() == 0
    {
      hide TracksAt, FindCrlf;
      sent := sent + out;
      out := [];
      phase := if mode.Over? then Closed else Receiving;
      assert sent + [] + [] == sent;
      assert AbsRef() == old(AbsRef()) && AbsInput() == old(AbsInput());
    }

    /** A GET is completely out, with whatever was queued before it: the next request is looked at. */
    method OnStreamed()
      requires Valid() && phase.Streaming?
      modifies this
      ensures Valid() && got == old(got) && phase != Working
      ensures |input| < |old(input)| || (|input| == |old(input)| && Rank() < 2)
    {
      hide TracksAt, FindCrlf;
      sent := sent + out + phase.rest;
      out := [];
      phase := Working;
      assert sent + [] + [] == sent;
      assert AbsRef() == old(AbsRef()) && AbsInput() == old(AbsInput());
      Process();
    }

    /** A read buffer is free: the parked GET is opened after all. */
    method OnWakeGet()
      requires Valid() && phase.WaitGet?
      modifies this
      ensures Valid() && got == old(got) && phase != Working
      ensures |input| < |old(input)| || (|input| == |old(input)| && Rank() < 3)
    {
      hide TracksAt, FindCrlf, NoCrlf, DoLine;
      ghost var r, s := AbsRef(), AbsInput();
      var line := phase.line;
      ParkedIsReady(line, input);
      Stepped(r, s);
      assert r.sent == sent + out;
      OpenGet(line);
      assert AbsInput() == input;
      assert AbsRef() == Step(cfg, r, s).0 && AbsInput() == Step(cfg, r, s).1;
      if phase == Working {
        Process();
      }
    }

    /** A staging buffer is free: the parked store starts. */
    method OnWakeSet()
      requires Valid() && phase == WaitSet
      modifies this
      ensures Valid() && got == old(got) && phase != Working
      ensures |input| < |old(input)| || (|input| == |old(input)| && Rank() < 2)
    {
      hide TracksAt, FindCrlf;
      Begun();
      Process();
    }

    /**
      Once everything is received, or after `quit`, the session has done and sent what the reference does and
      sends.
    */
    lemma Complete()
      requires Valid() && (phase == Closed || (phase == Receiving && got == |total|))
      ensures Ref(hist, sent, mode) == Exec(cfg, START, total).0
    {
      hide LinesFit, FindCrlf;
      assert sent + out + [] == sent;
      assert got == |total| ==> AbsInput() + total[got..] == AbsInput();
    }
  }

  lemma ParkedIsReady(line: Bytes, input: Bytes)
    requires FindCrlf(line + [CR, LF]) == Some(|line|)
    ensures FindCrlf(line + [CR, LF] + input) == Some(|line|)
    ensures (line + [CR, LF] + input)[..|line|] == line && (line + [CR, LF] + input)[|line| + 2..] == input
  {
    FindMore(line + [CR, LF], input);
  }

  /**
    A connection under any schedule: the stream arrives in pieces of any size, GETs and stores park and
    are woken as they may. What is done to the engine and what the client receives depend on the stream alone.
  */
  method Run(cfg: Cfg, total: Bytes) returns (sent: Bytes, hist: seq<Op>)
    requires LinesFit(cfg, START, total)
    ensures hist == Exec(cfg, START, total).0.hist && sent == Exec(cfg, START, total).0.sent
  {
    hide Exec, LinesFit, Session.Valid;
    var c := new Session(cfg, total);
    var pos := 0;
    while !(c.phase == Closed || (c.phase == Receiving && pos == |total|))
      invariant fresh(c) && c.cfg == cfg && c.total == total && c.Valid() && c.phase != Working
                && c.got == pos <= |total|
      decreases |total| - pos, |c.input|, c.Rank()
    {
      match c.phase {
        case Receiving =>
          var n := AnyBetween(1, |total| - pos);
          c.OnRecv(total[pos..pos + n]);
          pos := pos + n;
        case Sending => c.OnSent();
        case Streaming(_) => c.OnStreamed();
        case WaitGet(_) => c.OnWakeGet();
        case WaitSet => c.OnWakeSet();
      }
    }
    c.Complete();
    return c.sent, c.hist;
  }
}
