/**
  Key derivation from an HTTP request or from a file below the source directory,
  src/goblin/http/key_derivation.cpp. Strings are sequences of bytes written as characters.
*/
module KeyPath {
  import opened Arith

  // ---------------------------------------------------------------- percent decoding

  function HexVal(c: char): (v: Option<nat>)
    ensures v.Some? ==> v.value < 16
  {
    if '0' <= c <= '9' then Some(c as nat - '0' as nat)
    else if 'a' <= c <= 'f' then Some(c as nat - 'a' as nat + 10)
    else if 'A' <= c <= 'F' then Some(c as nat - 'A' as nat + 10)
    else None
  }

  /** An escape stands at the front: a percent sign and two hexadecimal digits. */
  predicate Escape(s: string) {
    3 <= |s| && s[0] == '%' && HexVal(s[1]).Some? && HexVal(s[2]).Some?
  }

  function Decoded(s: string): string
    decreases |s|
  {
    if s == "" then ""
    else if Escape(s) then [(16 * HexVal(s[1]).value + HexVal(s[2]).value) as char] + Decoded(s[3..])
    else [s[0]] + Decoded(s[1..])
  }

  lemma DecodeStep(s: string, i: nat)
    requires i < |s|
    ensures Escape(s[i..]) <==> s[i] == '%' && i + 2 < |s| && HexVal(s[i + 1]).Some? && HexVal(s[i + 2]).Some?
    ensures Decoded(s[i..]) == if Escape(s[i..]) then [(16 * HexVal(s[i + 1]).value + HexVal(s[i + 2]).value) as char]
            + Decoded(s[i + 3..])
                               else [s[i]] + Decoded(s[i + 1..])
  {
    assert i + 3 <= |s| ==> s[i..][3..] == s[i + 3..];
    assert s[i..][1..] == s[i + 1..];
  }

  lemma DecodeEnd(s: string)
    ensures Decoded(s[|s|..]) == ""
  {
  }

  method PercentDecode(s: string) returns (out: string)
    ensures out == Decoded(s)
  {
    hide Decoded, Escape, HexVal;
    out := "";
    var i := 0;
    assert s[0..] == s;
    DecodeEnd(s);
    while i < |s|
      invariant 0 <= i <= |s| && out + Decoded(s[i..]) == Decoded(s)
    {
      DecodeStep(s, i);
      if s[i] == '%' && i + 2 < |s| {
        var hi, lo := HexVal(s[i + 1]), HexVal(s[i + 2]);
        if hi.Some? && lo.Some? {
          out := out + [(16 * hi.value + lo.value) as char];
          i := i + 3;
          continue;
        }
      }
      out := out + [s[i]];
      i := i + 1;
    }
  }

  function HexDigit(v: nat): (c: char)
    requires v < 16
    ensures HexVal(c) == Some(v)
  {
    if v < 10 then ('0' as nat + v) as char else ('A' as nat + v - 10) as char
  }

  /** Every byte written as an escape. */
  function Encoded(s: string): string
    requires forall i :: 0 <= i < |s| ==> s[i] as nat < 256
  {
    if s == "" then "" else ['%', HexDigit(s[0] as nat / 16), HexDigit(s[0] as nat % 16)] + Encoded(s[1..])
  }

  /** Decoding undoes encoding. */
  lemma {:induction false} DecodeEncode(s: string)
    requires forall i :: 0 <= i < |s| ==> s[i] as nat < 256
    ensures Decoded(Encoded(s)) == s
  {
    if s != "" {
      var e := Encoded(s);
      assert Escape(e) && e[3..] == Encoded(s[1..]);
      assert 16 * (s[0] as nat / 16) + s[0] as nat % 16 == s[0] as nat;
      DecodeEncode(s[1..]);
    }
  }

  lemma {:induction false} DecodePlain(s: string)
    requires '%' !in s
    ensures Decoded(s) == s
  {
    if s != "" {
      assert s[0] in s;
      DecodePlain(s[1..]);
    }
  }

  // ---------------------------------------------------------------- paths

  function FindChar(s: string, c: char): (r: Option<nat>)
    ensures r.Some? ==> r.value < |s| && s[r.value] == c && c !in s[..r.value]
    ensures r.None? <==> c !in s
  {
    if s == "" then None
    else if s[0] == c then Some(0)
    else match FindChar(s[1..], c)
      case None => None
      case Some(i) => assert s[..i + 1] == [s[0]] + s[1..][..i]; Some(i + 1)
  }

  /** The segments between slashes. */
  function Split(s: string): (segs: seq<string>)
    ensures segs != [] && forall k :: 0 <= k < |segs| ==> '/' !in segs[k]
    decreases |s|
  {
    match FindChar(s, '/')
    case None => [s]
    case Some(i) => [s[..i]] + Split(s[i + 1..])
  }

  function Join(segs: seq<string>): string {
    if segs == [] then "" else if |segs| == 1 then segs[0] else segs[0] + "/" + Join(segs[1..])
  }

  /** One segment: `..` removes the last one if there is one, `.` and the empty segment change nothing. */
  function Push(stack: seq<string>, seg: string): seq<string> {
    if seg == ".." then (if stack == [] then [] else stack[..|stack| - 1])
    else if seg == "" || seg == "." then stack
    else stack + [seg]
  }

  function Resolve(stack: seq<string>, segs: seq<string>): seq<string>
    decreases |segs|
  {
    if segs == [] then stack else Resolve(Push(stack, segs[0]), segs[1..])
  }

  function Canonical(path: string): (c: string)
    ensures c != "" && c[0] == '/'
  {
    "/" + Join(Resolve([], Split(path)))
  }

  /** The slash due before segment `k`. */
  function Joint(stack: seq<string>, k: nat): string {
    if 0 < k < |stack| then "/" else ""
  }

  lemma JoinEmpty(stack: seq<string>)
    ensures stack[0..] == stack && Join(stack[|stack|..]) == ""
  {
  }

  lemma JoinStep(stack: seq<string>, k: nat)
    requires k < |stack|
    ensures Join(stack[k..]) == stack[k] + Joint(stack, k + 1) + Join(stack[k + 1..])
  {
    assert stack[k..][1..] == stack[k + 1..];
  }

  method CanonicalPath(path: string, decode: bool) returns (out: string)
    ensures out == Canonical(if decode then Decoded(path) else path)
  {
    var sv := path;
    if decode {
      sv := PercentDecode(path);
    }
    var stack := Segments(sv);
    out := Joined(stack);
  }

  method Joined(stack: seq<string>) returns (out: string)
    ensures out == "/" + Join(stack)
  {
    hide Join;
    out := "/";
    var k := 0;
    JoinEmpty(stack);
    while k < |stack|
      invariant 0 <= k <= |stack|
      invariant out + Joint(stack, k) + Join(stack[k..]) == "/" + Join(stack)
    {
      JoinStep(stack, k);
      if k > 0 {
        out := out + "/";
      }
      out := out + stack[k];
      k := k + 1;
    }
  }

  lemma ResolveStep(stack: seq<string>, s: string)
    ensures Resolve(stack, Split(s)) ==
              match FindChar(s, '/')
              case None => Push(stack, s)
              case Some(i) => Resolve(Push(stack, s[..i]), Split(s[i + 1..]))
  {
    if FindChar(s, '/').Some? {
      var i := FindChar(s, '/').value;
      assert Split(s)[1..] == Split(s[i + 1..]);
    }
  }

  method Segments(sv: string) returns (stack: seq<string>)
    ensures stack == Resolve([], Split(sv))
  {
    hide Push, Split, Resolve;
    stack := [];
    var start := 0;
    assert sv[0..] == sv;
    while true
      invariant 0 <= start <= |sv| && Resolve(stack, Split(sv[start..])) == Resolve([], Split(sv))
      decreases |sv| - start
    {
      var rest := sv[start..];
      ResolveStep(stack, rest);
      var slash := FindChar(rest, '/');
      if slash.None? {
        stack := Push(stack, rest);
        return;
      }
      stack := Push(stack, rest[..slash.value]);
      assert rest[slash.value + 1..] == sv[start + slash.value + 1..];
      start := start + slash.value + 1;
    }
  }

  /** A proper name: not empty, not a dot segment, and without a slash. */
  predicate Plain(seg: string) {
    seg != "" && seg != "." && seg != ".." && '/' !in seg
  }

  ghost predicate AllPlain(segs: seq<string>) {
    forall k :: 0 <= k < |segs| ==> Plain(segs[k])
  }

  lemma {:induction false} ResolvePlain(stack: seq<string>, segs: seq<string>)
    requires AllPlain(stack) && forall k :: 0 <= k < |segs| ==> '/' !in segs[k]
    ensures AllPlain(Resolve(stack, segs))
    decreases |segs|
  {
    if segs != [] {
      ResolvePlain(Push(stack, segs[0]), segs[1..]);
    }
  }

  lemma {:induction false} ResolveKeeps(stack: seq<string>, segs: seq<string>)
    requires AllPlain(segs)
    ensures Resolve(stack, segs) == stack + segs
    decreases |segs|
  {
    if segs != [] {
      ResolveKeeps(stack + [segs[0]], segs[1..]);
      assert Push(stack, segs[0]) == stack + [segs[0]];
      assert stack + [segs[0]] + segs[1..] == stack + segs;
    }
  }

  /** The front segment of a path. */
  lemma SplitFront(a: string, b: string)
    requires '/' !in a
    ensures Split(a + "/" + b) == [a] + Split(b) && Split(a) == [a]
  {
    var s := a + "/" + b;
    assert s[..|a|] == a && s[|a| + 1..] == b;
    FindAt(s, '/', |a|);
  }

  lemma FindAt(s: string, c: char, i: nat)
    requires i < |s| && s[i] == c && c !in s[..i]
    ensures FindChar(s, c) == Some(i)
  {
  }

  /** Splitting undoes joining. */
  lemma {:induction false} SplitJoin(segs: seq<string>)
    requires segs != [] && forall k :: 0 <= k < |segs| ==> '/' !in segs[k]
    ensures Split(Join(segs)) == segs
    decreases |segs|
  {
    if |segs| == 1 {
      SplitFront(segs[0], "");
    } else {
      SplitJoin(segs[1..]);
      SplitFront(segs[0], Join(segs[1..]));
    }
  }

  /** The canonical path starts with a slash; what follows is empty or is made of proper names only. */
  lemma CanonicalSegments(path: string)
    ensures Canonical(path)[0] == '/'
    ensures Canonical(path) == "/" || AllPlain(Split(Canonical(path)[1..]))
  {
    var st := Resolve([], Split(path));
    ResolvePlain([], Split(path));
    if st != [] {
      SplitJoin(st);
      assert Canonical(path)[1..] == Join(st);
    }
  }

  lemma Idempotent(path: string)
    ensures Canonical(Canonical(path)) == Canonical(path)
  {
    var st := Resolve([], Split(path));
    ResolvePlain([], Split(path));
    CanonicalOfPlain(st);
  }

  /** A path made of proper names is its own canonical form. */
  lemma CanonicalOfPlain(st: seq<string>)
    requires AllPlain(st)
    ensures Canonical("/" + Join(st)) == "/" + Join(st)
  {
    hide Split, Resolve, FindChar;
    SplitFront("", Join(st));
    assert "" + "/" + Join(st) == "/" + Join(st);
    if st == [] {
      SplitFront("", "");
      ResolveBlanks();
    } else {
      SplitJoin(st);
      ResolveKeeps([], st);
      ResolveBlank(st);
      assert [] + st == st;
    }
  }

  lemma ResolveBlank(segs: seq<string>)
    ensures Resolve([], [""] + segs) == Resolve([], segs)
  {
    assert ([""] + segs)[1..] == segs;
  }

  lemma ResolveBlanks()
    ensures Resolve([], [""] + [""]) == []
  {
    ResolveBlank([""]);
  }

  // ---------------------------------------------------------------- section 5.2.4 of RFC 3986

  /** Remove the last segment and the slash before it, if any. */
  function DropLast(out: string): string {
    if out == "" then "" else if out[|out| - 1] == '/' then out[..|out| - 1] else DropLast(out[..|out| - 1])
  }

  /** The standard's algorithm on an absolute path: rules B, C and E; its rules A and D are for relative ones. */
  function RemoveDots(inp: string, out: string): string
    requires inp == "" || inp[0] == '/'
    decreases |inp|
  {
    if inp == "" then out
    else if "/./" <= inp then RemoveDots(inp[2..], out)
    else if inp == "/." then RemoveDots("/", out)
    else if "/../" <= inp then RemoveDots(inp[3..], DropLast(out))
    else if inp == "/.." then RemoveDots("/", DropLast(out))
    else
      var n := 1 + |Before(inp[1..], '/')|;
      AfterSegment(inp[1..]);
      RemoveDots(inp[n..], out + inp[..n])
  }

  lemma AfterSegment(s: string)
    ensures |Before(s, '/')| <= |s| && (|Before(s, '/')| < |s| ==> s[|Before(s, '/')|] == '/')
  {
  }

  /** A stack of segments as the standard's output buffer holds it. */
  function Buffer(stack: seq<string>): string {
    if stack == [] then "" else Buffer(stack[..|stack| - 1]) + "/" + stack[|stack| - 1]
  }

  lemma DropSegment(a: string, b: string)
    requires '/' !in b
    ensures DropLast(a + "/" + b) == a
  {
    if b == "" {
      assert (a + "/" + b)[..|a|] == a;
    } else {
      var s := a + "/" + b;
      assert s[..|s| - 1] == a + "/" + b[..|b| - 1];
      assert s[|s| - 1] == b[|b| - 1] && b[|b| - 1] in b;
      DropSegment(a, b[..|b| - 1]);
    }
  }

  lemma PushBuffer(stack: seq<string>, seg: string)
    requires AllPlain(stack) && '/' !in seg && seg != ""
    ensures Buffer(Push(stack, seg)) ==
              if seg == "." then Buffer(stack) else if seg == ".." then DropLast(Buffer(stack))
                else Buffer(stack) + "/" + seg
    ensures AllPlain(Push(stack, seg))
  {
    if seg == ".." && stack != [] {
      DropSegment(Buffer(stack[..|stack| - 1]), stack[|stack| - 1]);
    } else if seg != "." && seg != ".." {
      assert (stack + [seg])[..|stack|] == stack;
    }
  }

  /** One segment of the standard's algorithm, with more to come. */
  lemma RemoveInner(seg: string, rest: string, out: string)
    requires '/' !in seg && seg != ""
    ensures RemoveDots("/" + seg + "/" + rest, out) ==
              RemoveDots("/" + rest, if seg == "." then out else if seg == ".." then DropLast(out) else out + "/" + seg)
  {
    hide RemoveDots, DropLast;
    var inp := "/" + seg + "/" + rest;
    if seg == "." {
      assert inp == "/./" + rest;
      RemoveDot(rest, out);
    } else if seg == ".." {
      assert inp == "/../" + rest;
      RemoveDotDot(rest, out);
    } else {
      RemoveName(seg, rest, out);
    }
  }

  lemma RemoveDot(rest: string, out: string)
    ensures RemoveDots("/./" + rest, out) == RemoveDots("/" + rest, out)
  {
    assert ("/./" + rest)[2..] == "/" + rest;
  }

  lemma RemoveDotDot(rest: string, out: string)
    ensures RemoveDots("/../" + rest, out) == RemoveDots("/" + rest, DropLast(out))
  {
    hide DropLast;
    var inp := "/../" + rest;
    assert inp[2] == '.' && inp[3..] == "/" + rest;
  }

  /** Rule E: the first segment of the input is moved to the output. */
  lemma RemoveFirst(inp: string, out: string, n: nat)
    requires inp != "" && inp[0] == '/' && n == 1 + |Before(inp[1..], '/')| && n < |inp| && inp[n] == '/'
    requires !("/./" <= inp) && inp != "/." && !("/../" <= inp) && inp != "/.."
    ensures RemoveDots(inp, out) == RemoveDots(inp[n..], out + inp[..n])
  {
    hide Before, DropLast;
  }

  lemma RemoveName(seg: string, rest: string, out: string)
    requires '/' !in seg && seg != "" && seg != "." && seg != ".."
    ensures RemoveDots("/" + seg + "/" + rest, out) == RemoveDots("/" + rest, out + "/" + seg)
  {
    hide FindChar, RemoveDots;
    var inp, tail := "/" + seg + "/" + rest, seg + "/" + rest;
    assert inp[1..] == tail && tail[..|seg|] == seg;
    FindAt(tail, '/', |seg|);
    assert inp[..1 + |seg|] == "/" + seg && inp[1 + |seg|..] == "/" + rest;
    NotDot(inp, seg);
    RemoveFirst(inp, out, 1 + |seg|);
    assert out + ("/" + seg) == out + "/" + seg;
  }

  lemma NotDot(inp: string, seg: string)
    requires '/' !in seg && seg != "" && seg != "." && seg != ".." && |inp| > 1 + |seg| && inp[..1 + |seg|] == "/" + seg
             && inp[1 + |seg|] == '/'
    ensures !("/./" <= inp) && inp != "/." && !("/../" <= inp) && inp != "/.."
  {
    assert inp[1] == seg[0] && seg[0] in seg;
    if |seg| > 1 {
      assert inp[2] == seg[1] && seg[1] in seg;
    }
    if |seg| > 2 {
      assert inp[3] == seg[2] && seg[2] in seg;
    }
  }

  /** The last segment leaves a slash at the end unless it is a proper name. */
  lemma RemoveFinal(seg: string, out: string)
    requires '/' !in seg
    ensures RemoveDots("/" + seg, out) ==
              if seg == "" || seg == "." then out + "/" else if seg == ".." then DropLast(out) + "/"
                else out + "/" + seg
  {
    var inp := "/" + seg;
    FinalSlash(out);
    if seg == ".." {
      FinalSlash(DropLast(out));
    } else if seg != "" && seg != "." {
      assert inp[1..] == seg && Before(seg, '/') == seg;
      assert inp[..1 + |seg|] == inp && inp[1 + |seg|..] == "";
      assert seg[0] in seg && (|seg| > 1 ==> seg[1] in seg) && (|seg| > 2 ==> seg[2] in seg);
      assert out + ("/" + seg) == out + "/" + seg;
    }
  }

  lemma FinalSlash(out: string)
    ensures RemoveDots("/", out) == out + "/"
  {
    assert "/"[1..] == "" && "/"[..1] == "/";
  }

  /** Without the slash at the end, unless that is all there is. */
  function TrimSlash(s: string): string {
    if 1 < |s| && s[|s| - 1] == '/' then s[..|s| - 1] else s
  }

  /** No empty segment, except after a slash at the end. */
  ghost predicate InnerNonEmpty(segs: seq<string>) {
    forall k :: 0 <= k < |segs| - 1 ==> segs[k] != ""
  }

  lemma {:induction false} RemoveAll(segs: seq<string>, stack: seq<string>)
    requires segs != [] && InnerNonEmpty(segs) && AllPlain(stack) && forall k :: 0 <= k < |segs| ==> '/' !in segs[k]
    ensures TrimSlash(RemoveDots("/" + Join(segs), Buffer(stack))) == "/" + Join(Resolve(stack, segs))
    decreases |segs|
  {
    hide RemoveDots, Buffer, Push, DropLast;
    if |segs| == 1 {
      RemoveFinal(segs[0], Buffer(stack));
      FinalBuffer(stack, segs[0]);
    } else {
      var rest := Join(segs[1..]);
      assert "/" + Join(segs) == "/" + segs[0] + "/" + rest;
      RemoveInner(segs[0], rest, Buffer(stack));
      PushBuffer(stack, segs[0]);
      RemoveAll(segs[1..], Push(stack, segs[0]));
    }
  }

  lemma FinalBuffer(stack: seq<string>, seg: string)
    requires AllPlain(stack) && '/' !in seg
    ensures var out := Buffer(stack);
            var r := if seg == "" || seg == "." then out + "/" else if seg == ".." then DropLast(out) + "/"
              else out + "/" + seg;
            TrimSlash(r) == "/" + Join(Resolve(stack, [seg]))
  {
    hide Buffer, DropLast, Join;
    var st := Push(stack, seg);
    assert Resolve(stack, [seg]) == st;
    if seg != "" {
      PushBuffer(stack, seg);
    }
    ResolvePlain(stack, [seg]);
    BufferJoin(st);
    if Plain(seg) {
      NoSlashBehind(Buffer(stack), seg);
    } else {
      assert (Buffer(st) + "/")[..|Buffer(st)|] == Buffer(st);
    }
  }

  lemma NoSlashBehind(out: string, seg: string)
    requires seg != "" && '/' !in seg
    ensures TrimSlash(out + "/" + seg) == out + "/" + seg
  {
    assert (out + "/" + seg)[|out + "/" + seg| - 1] == seg[|seg| - 1] && seg[|seg| - 1] in seg;
  }

  lemma {:induction false} BufferJoin(stack: seq<string>)
    requires AllPlain(stack)
    ensures stack != [] ==> Buffer(stack) == "/" + Join(stack)
    ensures stack == [] ==> Buffer(stack) == "" && Join(stack) == ""
  {
    if |stack| > 1 {
      var front, last := stack[..|stack| - 1], stack[|stack| - 1];
      BufferJoin(front);
      JoinLast(front, last);
      assert front + [last] == stack;
    }
  }

  lemma {:induction false} JoinLast(front: seq<string>, last: string)
    requires front != []
    ensures Join(front + [last]) == Join(front) + "/" + last
  {
    if |front| > 1 {
      JoinLast(front[1..], last);
      assert (front + [last])[1..] == front[1..] + [last];
    } else {
      assert (front + [last])[1..] == [last];
    }
  }

  /** On absolute paths without empty segments the canonical path is the standard's, less a slash at the end. */
  lemma AgreesWithStandard(path: string)
    requires path != "" && path[0] == '/' && InnerNonEmpty(Split(path[1..]))
    ensures Canonical(path) == TrimSlash(RemoveDots(path, ""))
  {
    var segs := Split(path[1..]);
    JoinSplit(path[1..]);
    assert path == "/" + path[1..] == "" + "/" + path[1..];
    SplitFront("", path[1..]);
    ResolveBlank(segs);
    RemoveAll(segs, []);
  }

  lemma {:induction false} JoinSplit(s: string)
    ensures Join(Split(s)) == s
    decreases |s|
  {
    if FindChar(s, '/').Some? {
      var i := FindChar(s, '/').value;
      JoinSplit(s[i + 1..]);
      assert Split(s)[1..] == Split(s[i + 1..]);
      assert s == s[..i] + "/" + s[i + 1..];
    }
  }

  // ---------------------------------------------------------------- keys

  datatype Mode = Path | Vhost

  datatype Options = Options(mode: Mode, keepQuery: bool, stripSlash: bool, indexName: string)

  /** The part of `s` before the first `c`. */
  function Before(s: string, c: char): string {
    match FindChar(s, c)
    case None => s
    case Some(i) => s[..i]
  }

  function From(s: string, c: char): string {
    match FindChar(s, c)
    case None => ""
    case Some(i) => s[i..]
  }

  function TrimDots(s: string): (t: string)
    ensures t == "" || t[|t| - 1] != '.'
    ensures t <= s
  {
    if s != "" && s[|s| - 1] == '.' then TrimDots(s[..|s| - 1]) else s
  }

  function ToLower(c: char): char {
    if 'A' <= c <= 'Z' then (c as nat + 32) as char else c
  }

  function Lower(s: string): string {
    seq(|s|, i requires 0 <= i < |s| => ToLower(s[i]))
  }

  /** Host names are compared without port, trailing dots and case. */
  function Host(host: string): string {
    Lower(TrimDots(Before(host, ':')))
  }

  /** The canonical path of a request target, with the directory index appended and the query kept as configured. */
  function TargetKey(uri: string, opt: Options): (key: string)
    ensures key != ""
  {
    var u := Before(uri, '#');
    var path := Before(u, '?');
    var dir := opt.indexName != "" && (path == "" || path[|path| - 1] == '/');
    Canonical(Decoded(if dir then path + opt.indexName else path)) + (if opt.keepQuery then From(u, '?') else "")
  }

  /** `derive_key`. */
  function RequestKey(host: string, uri: string, opt: Options): Option<string> {
    var key := TargetKey(uri, opt);
    if opt.mode == Vhost then (if Host(host) == "" then None else Some(Host(host) + key))
    else Some(if opt.stripSlash then key[1..] else key)
  }

  /** `derive_key_from_relpath`. */
  function FileKey(rel: string, opt: Options): string {
    if opt.mode == Vhost then
      var rest := From(rel, '/');
      Host(Before(rel, '/')) + (if rest == "" then "/" else Canonical(rest))
    else
      var key := Canonical("/" + rel);
      if opt.stripSlash then key[1..] else key
  }

  /** A path that reads the same in a request line and in the file system. */
  predicate Literal(path: string) {
    '%' !in path && '?' !in path && '#' !in path && path != "" && path[|path| - 1] != '/'
  }

  lemma LiteralTarget(path: string, opt: Options)
    requires Literal(path)
    ensures TargetKey("/" + path, opt) == Canonical("/" + path)
  {
    hide Canonical;
    var p := "/" + path;
    DecodePlain(p);
    assert Before(p, '#') == p && Before(p, '?') == p && From(p, '?') == "";
    assert Canonical(p) + "" == Canonical(p);
  }

  /** A file below the source directory is served under the path it has there. */
  lemma PathKeysCoincide(host: string, path: string, opt: Options)
    requires opt.mode == Path && Literal(path)
    ensures RequestKey(host, "/" + path, opt) == Some(FileKey(path, opt))
  {
    hide Canonical, TargetKey;
    LiteralTarget(path, opt);
  }

  /** With virtual hosts, below a directory named after the host. */
  lemma VhostKeysCoincide(host: string, path: string, opt: Options)
    requires opt.mode == Vhost && Literal(path) && '/' !in host && Host(host) != ""
    ensures RequestKey(host, "/" + path, opt) == Some(FileKey(host + "/" + path, opt))
  {
    hide Canonical, TargetKey, Host, FindChar;
    LiteralTarget(path, opt);
    var rel := host + "/" + path;
    assert rel[..|host|] == host && rel[|host|..] == "/" + path;
    FindAt(rel, '/', |host|);
  }

  // ---------------------------------------------------------------- what the parts of a target are for

  /** Where the first `c` is, if what comes before has none. */
  lemma CutAt(s: string, c: char, rest: string)
    requires c !in s && (rest == "" || rest[0] == c)
    ensures Before(s + rest, c) == s && From(s + rest, c) == rest
  {
    hide FindChar;
    if rest == "" {
      assert s + rest == s;
      FindNone(s, c);
    } else {
      FindAt(s + rest, c, |s|);
    }
  }

  lemma FindNone(s: string, c: char)
    requires c !in s
    ensures FindChar(s, c) == None
  {
  }

  /** A fragment changes nothing. */
  lemma FragmentIgnored(host: string, uri: string, fragment: string, opt: Options)
    ensures RequestKey(host, uri + "#" + fragment, opt) == RequestKey(host, uri, opt)
  {
    hide Canonical, Decoded, Before, From, Host;
    BeforeFragment(uri, fragment);
  }

  lemma BeforeFragment(uri: string, fragment: string)
    ensures Before(uri + "#" + fragment, '#') == Before(uri, '#')
  {
    hide Before, From;
    var u, rest := Before(uri, '#'), From(uri, '#');
    BeforeFrom(uri, '#');
    assert uri + "#" + fragment == u + (rest + "#" + fragment);
    CutAt(u, '#', rest + "#" + fragment);
  }

  lemma BeforeFrom(s: string, c: char)
    ensures s == Before(s, c) + From(s, c) && c !in Before(s, c)
    ensures From(s, c) == "" || From(s, c)[0] == c
  {
  }

  /** A query is kept as it is behind the key of the path, or dropped. */
  lemma QueryKept(host: string, path: string, query: string, opt: Options)
    requires '?' !in path && '#' !in path && '#' !in query
    ensures var key := RequestKey(host, path, opt);
            RequestKey(host, path + "?" + query, opt) ==
            if opt.keepQuery && key.Some? then Some(key.value + "?" + query) else key
  {
    hide Canonical, Decoded, Before, From;
    var uri := path + "?" + query;
    CutAt(path, '#', "");
    CutAt(uri, '#', "");
    CutAt(path, '?', "");
    CutAt(path, '?', "?" + query);
    assert uri == path + ("?" + query) && uri + "" == uri && path + "" == path;
    var k := TargetKey(path, opt);
    var dir := opt.indexName != "" && (path == "" || path[|path| - 1] == '/');
    var bare := Canonical(Decoded(if dir then path + opt.indexName else path));
    assert k == bare + "" == bare;
    assert TargetKey(uri, opt) == if opt.keepQuery then k + ("?" + query) else k;
    var more := if opt.keepQuery then "?" + query else "";
    assert TargetKey(uri, opt) == k + more;
    KeyOfLonger(host, path, uri, more, opt);
    hide RequestKey, TargetKey;
    var key := RequestKey(host, path, opt);
    if key.Some? {
      assert key.value + more == if opt.keepQuery then key.value + "?" + query else key.value;
    }
  }

  lemma KeyOfLonger(host: string, uri: string, uri': string, more: string, opt: Options)
    requires TargetKey(uri', opt) == TargetKey(uri, opt) + more
    ensures var key := RequestKey(host, uri, opt);
            RequestKey(host, uri', opt) == if key.Some? then Some(key.value + more) else None
  {
    hide TargetKey, Host;
    var k := TargetKey(uri, opt);
    assert (k + more)[1..] == k[1..] + more && Host(host) + (k + more) == Host(host) + k + more;
  }

  /** A directory is its index file: it has the key of the target with the index name written out. */
  lemma DirectoryIsItsIndex(host: string, path: string, tail: string, opt: Options)
    requires '?' !in path && '#' !in path && (path == "" || path[|path| - 1] == '/')
    requires tail == "" || tail[0] == '?' || tail[0] == '#'
    requires var name := opt.indexName; '?' !in name && '#' !in name && (name == "" || name[|name| - 1] != '/')
    ensures RequestKey(host, path + tail, opt) == RequestKey(host, path + opt.indexName + tail, opt)
  {
    hide Canonical, Decoded, Before, From;
    var name := opt.indexName;
    if name == "" {
      assert path + name == path;
    } else {
      Parts(path, tail);
      Parts(path + name, tail);
      assert (path + name)[|path + name| - 1] == name[|name| - 1];
    }
  }

  /** Path and query of a target that starts with the path `path`. */
  lemma Parts(path: string, tail: string)
    requires '?' !in path && '#' !in path && (tail == "" || tail[0] == '?' || tail[0] == '#')
    ensures var u := Before(path + tail, '#');
            Before(u, '?') == path && From(u, '?') == Before(tail, '#')
  {
    hide FindChar;
    var t := Before(tail, '#');
    BeforeFrom(tail, '#');
    assert path + tail == path + t + From(tail, '#');
    CutAt(path + t, '#', From(tail, '#'));
    assert t == "" || t[0] == tail[0];
    CutAt(path, '?', t);
  }

  lemma HostIdempotent(host: string)
    ensures Host(Host(host)) == Host(host)
    ensures ':' !in Host(host) && (Host(host) != "" ==> Host(host)[|Host(host)| - 1] != '.')
  {
    var t := TrimDots(Before(host, ':'));
    var h := Lower(t);
    assert ':' !in t;
    forall i | 0 <= i < |h|
      ensures h[i] != ':' && ToLower(h[i]) == h[i] && (h[i] == '.' ==> t[i] == '.')
    {
      assert t[i] in t;
    }
    assert Before(h, ':') == h && TrimDots(h) == h && Lower(h) == h;
  }

  /** Behind a colon there is only the port; a dot at the end of the name says nothing. */
  lemma HostIgnores(name: string, port: string)
    requires ':' !in name
    ensures Host(name + ":" + port) == Host(name) && Host(name + ".") == Host(name)
  {
    hide Lower;
    CutAt(name, ':', "");
    CutAt(name, ':', ":" + port);
    CutAt(name + ".", ':', "");
    assert name + "" == name && name + "." + "" == name + "." && name + ":" + port == name + (":" + port);
    assert (name + ".")[..|name|] == name;
  }

  /** What is left has no capital, and each of its letters is the one at that place, capital or not. */
  lemma HostLetters(name: string, i: nat)
    requires i < |Host(name)|
    ensures |Host(name)| <= |name| && !('A' <= Host(name)[i] <= 'Z')
    ensures Host(name)[i] == name[i] || ('A' <= name[i] <= 'Z' && Host(name)[i] as int == name[i] as int + 32)
  {
    BeforeFrom(name, ':');
    assert TrimDots(Before(name, ':'))[i] == name[i];
  }

  /** A name without port and trailing dot keeps its length. */
  lemma HostWhole(name: string)
    requires ':' !in name && (name == "" || name[|name| - 1] != '.')
    ensures |Host(name)| == |name|
  {
    CutAt(name, ':', "");
    assert name + "" == name;
  }

  method NormalizeHost(host: string) returns (out: string)
    ensures out == Host(host)
  {
    var h := Before(host, ':');
    while h != "" && h[|h| - 1] == '.'
      invariant TrimDots(h) == TrimDots(Before(host, ':'))
      decreases |h|
    {
      h := h[..|h| - 1];
    }
    out := "";
    var i := 0;
    while i < |h|
      invariant 0 <= i <= |h| && out == Lower(h[..i])
    {
      out := out + [ToLower(h[i])];
      i := i + 1;
    }
    assert h[..|h|] == h;
  }

  method DeriveKey(host: string, uri: string, opt: Options) returns (key: Option<string>)
    ensures key == RequestKey(host, uri, opt)
  {
    hide Canonical, Decoded;
    var u := Before(uri, '#');
    var path, query := Before(u, '?'), From(u, '?');
    var k;
    if opt.indexName != "" && (path == "" || path[|path| - 1] == '/') {
      k := CanonicalPath(path + opt.indexName, true);
    } else {
      k := CanonicalPath(path, true);
    }
    var bare := k;
    if opt.keepQuery && query != "" {
      k := k + query;
    }
    assert bare + "" == bare && k == TargetKey(uri, opt);
    if opt.mode == Vhost {
      var h := NormalizeHost(host);
      return if h == "" then None else Some(h + k);
    }
    key := Some(if opt.stripSlash then k[1..] else k);
  }

  method DeriveKeyFromRelpath(rel: string, opt: Options) returns (key: string)
    ensures key == FileKey(rel, opt)
  {
    hide Canonical;
    if opt.mode == Vhost {
      var h := NormalizeHost(Before(rel, '/'));
      var rest := From(rel, '/');
      if rest == "" {
        return h + "/";
      }
      var path := CanonicalPath(rest, false);
      return h + path;
    }
    key := CanonicalPath("/" + rel, false);
    key := if opt.stripSlash then key[1..] else key;
  }
}
