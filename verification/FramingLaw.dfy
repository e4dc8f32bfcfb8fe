/**
  What the memcache event loop owes a client that pipelines well-formed requests: each request has its own
  operations and its own reply, in order, and the bytes of one are never taken for those of another.

  Operations and replies are written down here from the list of requests and the answers of the engine, not
  from the byte stream.
*/
module FramingLaw {
  import opened Arith
  import opened Framing

  /** A command line alone, or a store: its line, its body and the two bytes where the line end belongs. */
  datatype Request = Ask(line: Bytes) | Put(line: Bytes, body: Bytes, end: Bytes)

  const CRLF: Bytes := [CR, LF]

  ghost predicate WellFormed(cfg: Cfg, q: Request) {
    && NoCrlf(q.line, |q.line|)
    && match q
       case Ask(line) => !cfg.parse(line).Store? && !cfg.parse(line).Quit?
       case Put(line, body, end) => cfg.parse(line) == Store(|body|) && |end| == 2
  }

  ghost predicate AllWellFormed(cfg: Cfg, qs: seq<Request>) {
    forall i :: 0 <= i < |qs| ==> WellFormed(cfg, qs[i])
  }

  function Encode(q: Request): Bytes {
    match q
    case Ask(line) => line + CRLF
    case Put(line, body, end) => line + CRLF + (body + end)
  }

  function EncodeAll(qs: seq<Request>): Bytes {
    if qs == [] then [] else Encode(qs[0]) + EncodeAll(qs[1..])
  }

  // ---------------------------------------------------------------- what one request does and gets

  /** The engine lets the store in, opens it, and takes every byte of the body. */
  predicate Taken(cfg: Cfg, hist: seq<Op>, line: Bytes, n: nat) {
    && !cfg.engine(hist + [Admit(line)]).reject
    && var begun := cfg.engine(hist + [Admit(line), Begin(line)]);
       !begun.reject && (begun.failAt.None? || n <= begun.failAt.value)
  }

  /** What a request does, after the operations `hist` of those before it. */
  function OpsOf(cfg: Cfg, hist: seq<Op>, q: Request): seq<Op> {
    match q
    case Ask(line) =>
      if cfg.parse(line).Do? then [DoOp(line)] else if cfg.parse(line).Get? then [Op.Open(line)] else []
    case Put(line, body, end) =>
      if cfg.engine(hist + [Admit(line)]).reject then [Admit(line)]
      else if end == CRLF && Taken(cfg, hist, line, |body|) then [Admit(line), Begin(line), Commit(line, body)]
      else [Admit(line), Begin(line)]
  }

  function ReplyOf(cfg: Cfg, hist: seq<Op>, q: Request): Bytes {
    match q
    case Ask(line) =>
      (match cfg.parse(line)
       case Reply(text) => text
       case Do => cfg.engine(hist + [DoOp(line)]).text
       case Get =>
         var a := cfg.engine(hist + [Op.Open(line)]);
         if a.reject then a.text else a.text + (a.value + a.trailer)
       case Store(_) => []
       case Quit => [])
    case Put(line, body, end) =>
      if end != CRLF then cfg.badChunk(line)
      else if cfg.engine(hist + [Admit(line)]).reject then cfg.engine(hist + [Admit(line)]).text
      else if Taken(cfg, hist, line, |body|)
      then cfg.engine(hist + [Admit(line), Begin(line), Commit(line, body)]).text
      else cfg.notStored(line)
  }

  function OpsOfAll(cfg: Cfg, hist: seq<Op>, qs: seq<Request>): seq<Op>
    decreases |qs|
  {
    if qs == [] then [] else OpsOf(cfg, hist, qs[0]) + OpsOfAll(cfg, hist + OpsOf(cfg, hist, qs[0]), qs[1..])
  }

  function RepliesOf(cfg: Cfg, hist: seq<Op>, qs: seq<Request>): Bytes
    decreases |qs|
  {
    if qs == [] then [] else ReplyOf(cfg, hist, qs[0]) + RepliesOf(cfg, hist + OpsOf(cfg, hist, qs[0]), qs[1..])
  }

  // ---------------------------------------------------------------- one request

  lemma LineOf(line: Bytes, rest: Bytes)
    requires NoCrlf(line, |line|)
    ensures FindCrlf(line + CRLF + rest) == Some(|line|)
    ensures (line + CRLF + rest)[..|line|] == line && (line + CRLF + rest)[|line| + 2..] == rest
  {
    var s := line + CRLF + rest;
    assert s[|line|] == CR && s[|line| + 1] == LF;
    assert NoCrlf(s, |line|);
    FindUnique(s, |line|);
  }

  /** The next line, wherever it is expected. */
  lemma TakesLine(cfg: Cfg, r: Ref, line: Bytes, rest: Bytes)
    requires r.mode == Line && NoCrlf(line, |line|)
    ensures Exec(cfg, r, line + CRLF + rest) == Exec(cfg, DoLine(cfg, r, line), rest)
    ensures |line| < MAX_LINE && LinesFit(cfg, DoLine(cfg, r, line), rest) ==> LinesFit(cfg, r, line + CRLF + rest)
  {
    LineOf(line, rest);
  }

  lemma TakesBody(cfg: Cfg, r: Ref, body: Bytes, end: Bytes, rest: Bytes)
    requires r.mode.Body? && r.mode.n == |body| && |end| == 2
    ensures Exec(cfg, r, body + end + rest) == Exec(cfg, DoBody(cfg, r, body, end == CRLF), rest)
    ensures LinesFit(cfg, DoBody(cfg, r, body, end == CRLF), rest) ==> LinesFit(cfg, r, body + end + rest)
  {
    var s := body + end + rest;
    assert s[..|body|] == body && s[|body| + 2..] == rest && s[|body|] == end[0] && s[|body| + 1] == end[1];
    assert end == CRLF <==> s[|body|] == CR && s[|body| + 1] == LF;
  }

  function After(cfg: Cfg, r: Ref, q: Request): Ref {
    Ref(r.hist + OpsOf(cfg, r.hist, q), r.sent + ReplyOf(cfg, r.hist, q), Line)
  }

  lemma AskDone(cfg: Cfg, r: Ref, q: Request)
    requires r.mode == Line && q.Ask? && WellFormed(cfg, q)
    ensures DoLine(cfg, r, q.line) == After(cfg, r, q)
  {
    if cfg.parse(q.line).Get? {
      var a := Perform(cfg, r, Op.Open(q.line));
      assert r.sent + a.text + (a.value + a.trailer) == r.sent + (a.text + (a.value + a.trailer));
    }
    assert r.hist + [] == r.hist && r.sent + [] == r.sent;
  }

  /** A store that is refused at once still takes its body off the stream. */
  lemma RefusedDone(cfg: Cfg, r: Ref, q: Request)
    requires r.mode == Line && q.Put? && WellFormed(cfg, q) && cfg.engine(r.hist + [Admit(q.line)]).reject
    ensures var r1 := DoLine(cfg, r, q.line);
            && r1.mode.Body? && r1.mode.n == |q.body|
            && DoBody(cfg, r1, q.body, q.end == CRLF) == After(cfg, r, q)
  {
  }

  lemma AdmittedDone(cfg: Cfg, r: Ref, q: Request)
    requires r.mode == Line && q.Put? && WellFormed(cfg, q) && !cfg.engine(r.hist + [Admit(q.line)]).reject
    ensures var r1 := DoLine(cfg, r, q.line);
            && r1.mode.NeedBegin?
            && var r2 := DoBegin(cfg, r1);
               && r2.mode.Body? && r2.mode.n == |q.body|
               && DoBody(cfg, r2, q.body, q.end == CRLF) == After(cfg, r, q)
  {
    var line := q.line;
    assert r.hist + [Admit(line)] + [Begin(line)] == r.hist + [Admit(line), Begin(line)];
    assert r.hist + [Admit(line), Begin(line)] + [Commit(line, q.body)] ==
           r.hist + [Admit(line), Begin(line), Commit(line, q.body)];
  }

  lemma RequestDone(cfg: Cfg, r: Ref, q: Request, rest: Bytes)
    requires r.mode == Line && WellFormed(cfg, q)
    ensures Exec(cfg, r, Encode(q) + rest) == Exec(cfg, After(cfg, r, q), rest)
    ensures |q.line| < MAX_LINE && LinesFit(cfg, After(cfg, r, q), rest) ==> LinesFit(cfg, r, Encode(q) + rest)
  {
    hide DoLine, DoBody, DoBegin, After, FindCrlf;
    match q
    case Ask(line) =>
      TakesLine(cfg, r, line, rest);
      AskDone(cfg, r, q);
    case Put(line, body, end) =>
      assert Encode(q) + rest == line + CRLF + (body + end + rest);
      TakesLine(cfg, r, line, body + end + rest);
      var r1 := DoLine(cfg, r, line);
      if cfg.engine(r.hist + [Admit(line)]).reject {
        RefusedDone(cfg, r, q);
        TakesBody(cfg, r1, body, end, rest);
      } else {
        AdmittedDone(cfg, r, q);
        TakesBody(cfg, DoBegin(cfg, r1), body, end, rest);
      }
  }

  // ---------------------------------------------------------------- the whole list

  /** A list of well-formed requests is carried out request by request, whatever bytes follow it. */
  lemma {:induction false} RequestsDone(cfg: Cfg, hist: seq<Op>, sent: Bytes, qs: seq<Request>, rest: Bytes)
    requires AllWellFormed(cfg, qs)
    ensures Exec(cfg, Ref(hist, sent, Line), EncodeAll(qs) + rest) ==
            Exec(cfg, Ref(hist + OpsOfAll(cfg, hist, qs), sent + RepliesOf(cfg, hist, qs), Line), rest)
    decreases |qs|
  {
    hide Exec, OpsOf, ReplyOf, WellFormed, Encode;
    if qs == [] {
      assert [] + rest == rest && hist + [] == hist && sent + [] == sent;
    } else {
      var q := qs[0];
      var r := Ref(hist, sent, Line);
      assert EncodeAll(qs) + rest == Encode(q) + (EncodeAll(qs[1..]) + rest);
      RequestDone(cfg, r, q, EncodeAll(qs[1..]) + rest);
      var r1 := After(cfg, r, q);
      RequestsDone(cfg, r1.hist, r1.sent, qs[1..], rest);
      assert r1.hist + OpsOfAll(cfg, r1.hist, qs[1..]) == hist + OpsOfAll(cfg, hist, qs);
      assert r1.sent + RepliesOf(cfg, r1.hist, qs[1..]) == sent + RepliesOf(cfg, hist, qs);
    }
  }

  /** Nothing is left over, and the next line is expected. */
  lemma Pipelined(cfg: Cfg, qs: seq<Request>)
    requires AllWellFormed(cfg, qs)
    ensures Exec(cfg, START, EncodeAll(qs)) == (Ref(OpsOfAll(cfg, [], qs), RepliesOf(cfg, [], qs), Line), [])
  {
    hide OpsOfAll, RepliesOf, AllWellFormed;
    RequestsDone(cfg, [], [], qs, []);
    assert EncodeAll(qs) + [] == EncodeAll(qs);
    assert [] + OpsOfAll(cfg, [], qs) == OpsOfAll(cfg, [], qs) && [] + RepliesOf(cfg, [], qs) == RepliesOf(cfg, [], qs);
  }

  /** `quit` ends the session: what comes behind it is neither carried out nor answered. */
  lemma QuitEnds(cfg: Cfg, qs: seq<Request>, quit: Bytes, rest: Bytes)
    requires AllWellFormed(cfg, qs) && cfg.parse(quit).Quit? && NoCrlf(quit, |quit|)
    ensures Exec(cfg, START, EncodeAll(qs) + (quit + CRLF + rest)) ==
            (Ref(OpsOfAll(cfg, [], qs), RepliesOf(cfg, [], qs), Over), rest)
  {
    hide OpsOfAll, RepliesOf, AllWellFormed;
    RequestsDone(cfg, [], [], qs, quit + CRLF + rest);
    assert [] + OpsOfAll(cfg, [], qs) == OpsOfAll(cfg, [], qs) && [] + RepliesOf(cfg, [], qs) == RepliesOf(cfg, [], qs);
    TakesLine(cfg, Ref(OpsOfAll(cfg, [], qs), RepliesOf(cfg, [], qs), Line), quit, rest);
  }

  // ---------------------------------------------------------------- under every schedule

  lemma {:induction false} RequestsFit(cfg: Cfg, hist: seq<Op>, sent: Bytes, qs: seq<Request>)
    requires AllWellFormed(cfg, qs) && forall i :: 0 <= i < |qs| ==> |qs[i].line| < MAX_LINE
    ensures LinesFit(cfg, Ref(hist, sent, Line), EncodeAll(qs))
    decreases |qs|
  {
    hide Exec, OpsOf, ReplyOf, WellFormed, Encode;
    if qs != [] {
      var r1 := After(cfg, Ref(hist, sent, Line), qs[0]);
      RequestsFit(cfg, r1.hist, r1.sent, qs[1..]);
      RequestDone(cfg, Ref(hist, sent, Line), qs[0], EncodeAll(qs[1..]));
    }
  }

  /**
    The event loop, however the stream is cut into pieces and whenever GETs and stores are parked and woken:
    each request of the list has been carried out and answered, in order, and nothing else.
  */
  method Converse(cfg: Cfg, qs: seq<Request>) returns (sent: Bytes, hist: seq<Op>)
    requires AllWellFormed(cfg, qs) && forall i :: 0 <= i < |qs| ==> |qs[i].line| < MAX_LINE
    ensures hist == OpsOfAll(cfg, [], qs) && sent == RepliesOf(cfg, [], qs)
  {
    hide Exec, LinesFit;
    RequestsFit(cfg, [], [], qs);
    Pipelined(cfg, qs);
    sent, hist := Run(cfg, EncodeAll(qs));
  }
}
