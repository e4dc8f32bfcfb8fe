/**
  SHA-256 as src/goblin/crypto/sha256.cpp computes it, block by block in place with a buffer for the last
  one or two blocks, against FIPS 180-4: padding (section 5.1.1), preprocessing of the message schedule and
  the compression function (section 6.2.2).
*/
module Sha256 {
  type Bytes = seq<bv8>

  /** The round constants, in rows of eight. */
  const K: seq<seq<bv32>> := [
    [0x428a2f98, 0x71374491, 0xb5c0fbcf, 0xe9b5dba5, 0x3956c25b, 0x59f111f1, 0x923f82a4, 0xab1c5ed5],
    [0xd807aa98, 0x12835b01, 0x243185be, 0x550c7dc3, 0x72be5d74, 0x80deb1fe, 0x9bdc06a7, 0xc19bf174],
    [0xe49b69c1, 0xefbe4786, 0x0fc19dc6, 0x240ca1cc, 0x2de92c6f, 0x4a7484aa, 0x5cb0a9dc, 0x76f988da],
    [0x983e5152, 0xa831c66d, 0xb00327c8, 0xbf597fc7, 0xc6e00bf3, 0xd5a79147, 0x06ca6351, 0x14292967],
    [0x27b70a85, 0x2e1b2138, 0x4d2c6dfc, 0x53380d13, 0x650a7354, 0x766a0abb, 0x81c2c92e, 0x92722c85],
    [0xa2bfe8a1, 0xa81a664b, 0xc24b8b70, 0xc76c51a3, 0xd192e819, 0xd6990624, 0xf40e3585, 0x106aa070],
    [0x19a4c116, 0x1e376c08, 0x2748774c, 0x34b0bcb5, 0x391c0cb3, 0x4ed8aa4a, 0x5b9cca4f, 0x682e6ff3],
    [0x748f82ee, 0x78a5636f, 0x84c87814, 0x8cc70208, 0x90befffa, 0xa4506ceb, 0xbef9a3f7, 0xc67178f2]]

  const H0: seq<bv32> := [0x6a09e667, 0xbb67ae85, 0x3c6ef372, 0xa54ff53a, 0x510e527f, 0x9b05688c, 0x1f83d9ab,
                          0x5be0cd19]

  // ---------------------------------------------------------------- the standard

  function Rotr(x: bv32, n: bv6): bv32
    requires 0 < n < 32
  {
    (x >> n) | (x << (32 - n))
  }

  /** Addition modulo 2^32. */
  function Add(x: bv32, y: bv32): bv32 { x + y }

  function Add4(a: bv32, b: bv32, c: bv32, d: bv32): bv32 { a + b + c + d }

  function Shr(x: bv32, n: bv6): bv32
    requires n < 32
  {
    x >> n
  }

  function Xor3(x: bv32, y: bv32, z: bv32): bv32 { x ^ y ^ z }

  function LowSigma0(x: bv32): bv32 { Xor3(Rotr(x, 7), Rotr(x, 18), Shr(x, 3)) }

  function LowSigma1(x: bv32): bv32 { Xor3(Rotr(x, 17), Rotr(x, 19), Shr(x, 10)) }

  function Sigma0(x: bv32): bv32 { Xor3(Rotr(x, 2), Rotr(x, 13), Rotr(x, 22)) }

  function Sigma1(x: bv32): bv32 { Xor3(Rotr(x, 6), Rotr(x, 11), Rotr(x, 25)) }

  function Ch(x: bv32, y: bv32, z: bv32): bv32 { (x & y) ^ (!x & z) }

  function Maj(x: bv32, y: bv32, z: bv32): bv32 { Xor3(x & y, x & z, y & z) }

  function Joined(a: bv8, b: bv8, c: bv8, d: bv8): bv32 {
    ((a as bv32) << 24) | ((b as bv32) << 16) | ((c as bv32) << 8) | (d as bv32)
  }

  /** Word `t` of a block, most significant byte first. */
  function Word(b: Bytes, t: nat): bv32
    requires 4 * t + 4 <= |b|
  {
    Joined(b[4 * t], b[4 * t + 1], b[4 * t + 2], b[4 * t + 3])
  }

  /** The message schedule. */
  function Schedule(b: Bytes, t: nat): bv32
    requires |b| == 64 && t < 64
  {
    if t < 16 then Word(b, t)
    else Add4(LowSigma1(Schedule(b, t - 2)), Schedule(b, t - 7), LowSigma0(Schedule(b, t - 15)), Schedule(b, t - 16))
  }

  function RoundConstant(t: nat): bv32
    requires t < 64
  {
    K[t / 8][t % 8]
  }

  datatype Regs = Regs(a: bv32, b: bv32, c: bv32, d: bv32, e: bv32, f: bv32, g: bv32, h: bv32)

  function Round(r: Regs, k: bv32, w: bv32): Regs {
    var t1 := Add(Add4(r.h, Sigma1(r.e), Ch(r.e, r.f, r.g), k), w);
    var t2 := Add(Sigma0(r.a), Maj(r.a, r.b, r.c));
    Regs(Add(t1, t2), r.a, r.b, r.c, Add(r.d, t1), r.e, r.f, r.g)
  }

  /** The working variables after `t` rounds. */
  function Rounds(r: Regs, b: Bytes, t: nat): Regs
    requires |b| == 64 && t <= 64
  {
    if t == 0 then r else Round(Rounds(r, b, t - 1), RoundConstant(t - 1), Schedule(b, t - 1))
  }

  function Load(h: seq<bv32>): Regs
    requires |h| == 8
  {
    Regs(h[0], h[1], h[2], h[3], h[4], h[5], h[6], h[7])
  }

  function Sum(h: seq<bv32>, r: Regs): (s: seq<bv32>)
    requires |h| == 8
    ensures |s| == 8
  {
    [Add(h[0], r.a), Add(h[1], r.b), Add(h[2], r.c), Add(h[3], r.d), Add(h[4], r.e), Add(h[5], r.f), Add(h[6], r.g),
     Add(h[7], r.h)]
  }

  /** The compression function. */
  function Compress(h: seq<bv32>, b: Bytes): (s: seq<bv32>)
    requires |h| == 8 && |b| == 64
    ensures |s| == 8
  {
    Sum(h, Rounds(Load(h), b, 64))
  }

  function HashBlocks(h: seq<bv32>, m: Bytes): (s: seq<bv32>)
    requires |h| == 8 && |m| % 64 == 0
    ensures |s| == 8
    decreases |m|
  {
    if m == [] then h else HashBlocks(Compress(h, m[..64]), m[64..])
  }

  function Pow256(i: nat): (p: nat)
    ensures p > 0
  {
    if i == 0 then 1 else 256 * Pow256(i - 1)
  }

  function ByteOf(n: nat, i: nat): bv8 {
    (n / Pow256(i) % 256) as bv8
  }

  /** A number as eight bytes, most significant first. */
  function BigEndian64(n: nat): (s: Bytes)
    ensures |s| == 8
  {
    seq(8, j requires 0 <= j < 8 => ByteOf(n, 7 - j))
  }

  function Zeros(n: nat): Bytes {
    seq(n, i => 0)
  }

  /** The least number of zero bytes that leaves the length field at the end of a block. */
  function ZeroPad(len: nat): (k: nat)
    ensures (len + 1 + k + 8) % 64 == 0 && k < 64
  {
    (119 - len % 64) % 64
  }

  /** The message, a one bit, zeros, and the message length in bits. */
  function Pad(m: Bytes): (p: Bytes)
    ensures |p| % 64 == 0
  {
    m + [0x80] + Zeros(ZeroPad(|m|)) + BigEndian64(8 * |m|)
  }

  function DigestOf(h: seq<bv32>): Bytes
    requires |h| == 8
  {
    seq(32, j requires 0 <= j < 32 => WordByte(h[j / 4], j % 4))
  }

  /** Byte `i` of a word, most significant first. */
  function WordByte(x: bv32, i: nat): bv8
    requires i < 4
  {
    match i
    case 0 => ((x >> 24) & 0xFF) as bv8
    case 1 => ((x >> 16) & 0xFF) as bv8
    case 2 => ((x >> 8) & 0xFF) as bv8
    case 3 => (x & 0xFF) as bv8
  }

  function Hash(m: Bytes): Bytes {
    DigestOf(HashBlocks(H0, Pad(m)))
  }

  // ---------------------------------------------------------------- the program

  lemma AddOrder(a: bv32, b: bv32, c: bv32, d: bv32)
    ensures Add4(a, b, c, d) == Add4(d, c, b, a)
  {
  }

  lemma ScheduleStep(b: Bytes, t: nat)
    requires |b| == 64 && 16 <= t < 64
    ensures Schedule(b, t) == Add4(Schedule(b, t - 16), LowSigma0(Schedule(b, t - 15)), Schedule(b, t - 7),
                                   LowSigma1(Schedule(b, t - 2)))
  {
    hide LowSigma0, LowSigma1, Add4, Word;
    AddOrder(LowSigma1(Schedule(b, t - 2)), Schedule(b, t - 7), LowSigma0(Schedule(b, t - 15)), Schedule(b, t - 16));
  }

  lemma ScheduleStart(b: Bytes, t: nat)
    requires |b| == 64 && t < 16
    ensures Schedule(b, t) == Word(b, t)
  {
    hide Word;
  }

  /** The schedule, filled into an array. */
  method Expand(p: Bytes, w: array<bv32>)
    requires |p| == 64 && w.Length == 64
    modifies w
    ensures forall t :: 0 <= t < 64 ==> w[t] == Schedule(p, t)
  {
    hide *;
    for i := 0 to 16
      invariant forall t :: 0 <= t < i ==> w[t] == Schedule(p, t)
    {
      ScheduleStart(p, i);
      w[i] := Word(p, i);
    }
    for i := 16 to 64
      invariant forall t :: 0 <= t < i ==> w[t] == Schedule(p, t)
    {
      ScheduleStep(p, i);
      w[i] := Add4(w[i - 16], LowSigma0(w[i - 15]), w[i - 7], LowSigma1(w[i - 2]));
    }
  }

  lemma RoundsStep(r: Regs, b: Bytes, t: nat)
    requires |b| == 64 && t < 64
    ensures Rounds(r, b, 0) == r && Rounds(r, b, t + 1) == Round(Rounds(r, b, t), RoundConstant(t), Schedule(b, t))
  {
    hide Round, RoundConstant, Schedule;
  }

  lemma RoundIs(r: Regs, k: bv32, w: bv32)
    ensures var t1 := Add(Add4(r.h, Sigma1(r.e), Ch(r.e, r.f, r.g), k), w);
            Round(r, k, w) == Regs(Add(t1, Add(Sigma0(r.a), Maj(r.a, r.b, r.c))), r.a, r.b, r.c, Add(r.d, t1), r.e, r.f,
                                   r.g)
  {
    hide Sigma0, Sigma1, Ch, Maj, Add, Add4;
  }

  /** The 64 rounds over the working variables. */
  method Mix(r: Regs, w: array<bv32>, ghost p: Bytes) returns (r': Regs)
    requires |p| == 64 && w.Length == 64 && forall t :: 0 <= t < 64 ==> w[t] == Schedule(p, t)
    ensures r' == Rounds(r, p, 64)
  {
    hide *;
    var a, b, c, d := r.a, r.b, r.c, r.d;
    var e, f, g, h := r.e, r.f, r.g, r.h;
    RoundsStep(r, p, 0);
    for i := 0 to 64
      invariant Regs(a, b, c, d, e, f, g, h) == Rounds(r, p, i)
    {
      RoundsStep(r, p, i);
      RoundIs(Regs(a, b, c, d, e, f, g, h), RoundConstant(i), w[i]);
      var t1 := Add(Add4(h, Sigma1(e), Ch(e, f, g), RoundConstant(i)), w[i]);
      var t2 := Add(Sigma0(a), Maj(a, b, c));
      h, g, f, e := g, f, e, Add(d, t1);
      d, c, b, a := c, b, a, Add(t1, t2);
    }
    r' := Regs(a, b, c, d, e, f, g, h);
  }

  method AddInto(state: array<bv32>, r: Regs)
    requires state.Length == 8
    modifies state
    ensures state[..] == Sum(old(state[..]), r)
  {
    hide Add;
    AddHalf(state, 0, r.a, r.b, r.c, r.d);
    AddHalf(state, 4, r.e, r.f, r.g, r.h);
  }

  method AddHalf(state: array<bv32>, i: nat, a: bv32, b: bv32, c: bv32, d: bv32)
    requires i + 4 <= state.Length
    modifies state
    ensures state[i] == Add(old(state[i]), a) && state[i + 1] == Add(old(state[i + 1]), b)
    ensures state[i + 2] == Add(old(state[i + 2]), c) && state[i + 3] == Add(old(state[i + 3]), d)
    ensures forall k :: 0 <= k < state.Length && !(i <= k < i + 4) ==> state[k] == old(state[k])
  {
    hide Add;
    state[i], state[i + 1] := Add(state[i], a), Add(state[i + 1], b);
    state[i + 2], state[i + 3] := Add(state[i + 2], c), Add(state[i + 3], d);
  }

  /** One block is folded into the state, in place. */
  method Sha256Block(state: array<bv32>, p: Bytes)
    requires state.Length == 8 && |p| == 64
    modifies state
    ensures state[..] == Compress(old(state[..]), p)
  {
    hide Rounds, Schedule, Sum;
    var w := new bv32[64];
    Expand(p, w);
    var r := Mix(Load(state[..]), w, p);
    AddInto(state, r);
  }

  /** What follows the full blocks: the rest of the message and its padding. */
  function Last(rest: Bytes, bits: nat): Bytes {
    rest + [0x80] + Zeros(ZeroPad(|rest|)) + BigEndian64(bits)
  }

  lemma PadSplits(m: Bytes, at: nat)
    requires at % 64 == 0 && at <= |m|
    ensures Pad(m)[at..] == Last(m[at..], 8 * |m|)
    ensures at + 64 <= |m| ==> Pad(m)[at..][..64] == m[at..at + 64] && Pad(m)[at..][64..] == Pad(m)[at + 64..]
  {
    hide BigEndian64;
    assert (|m| - at) % 64 == |m| % 64;
    assert ZeroPad(|m|) == ZeroPad(|m[at..]|);
    var tail := [0x80] + Zeros(ZeroPad(|m|)) + BigEndian64(8 * |m|);
    assert Pad(m) == m + tail;
    assert Last(m[at..], 8 * |m|) == m[at..] + tail;
  }

  /** Copy the rest of the message into the buffer, then the one bit and zeros up to `upTo`. */
  method CopyRest(rest: Bytes, tail: array<bv8>, upTo: nat)
    requires |rest| < upTo <= tail.Length
    modifies tail
    ensures tail[..upTo] == rest + [0x80] + Zeros(upTo - |rest| - 1)
  {
    var rem := |rest|;
    for i := 0 to rem
      invariant tail[..i] == rest[..i]
    {
      tail[i] := rest[i];
    }
    tail[rem] := 0x80;
    assert tail[..rem + 1] == rest + [0x80] + Zeros(0);
    for i := rem + 1 to upTo
      invariant tail[..i] == rest + [0x80] + Zeros(i - rem - 1)
    {
      tail[i] := 0;
    }
  }

  /** Write the length field, from its last byte to its first. */
  method WriteLength(bits: nat, tail: array<bv8>, padlen: nat)
    requires 8 <= padlen <= tail.Length
    modifies tail
    ensures tail[..padlen - 8] == old(tail[..padlen - 8]) && tail[padlen - 8..padlen] == BigEndian64(bits)
  {
    hide ByteOf;
    for i := 0 to 8
      invariant tail[..padlen - 8] == old(tail[..padlen - 8])
      invariant forall j :: padlen - i <= j < padlen ==> tail[j] == ByteOf(bits, padlen - 1 - j)
    {
      tail[padlen - 1 - i] := ByteOf(bits, i);
    }
  }

  /** The buffer for the last one or two blocks. */
  method FillTail(rest: Bytes, bits: nat, tail: array<bv8>) returns (padlen: nat)
    requires |rest| < 64 && tail.Length == 128
    modifies tail
    ensures padlen == 64 || padlen == 128
    ensures tail[..padlen] == Last(rest, bits)
  {
    hide BigEndian64;
    padlen := if |rest| < 56 then 64 else 128;
    CopyRest(rest, tail, padlen - 8);
    WriteLength(bits, tail, padlen);
    assert tail[..padlen] == tail[..padlen - 8] + tail[padlen - 8..padlen];
  }

  /** The last one or two blocks. */
  method Finish(state: array<bv32>, tail: array<bv8>, padlen: nat)
    requires state.Length == 8 && tail.Length == 128 && (padlen == 64 || padlen == 128)
    modifies state
    ensures state[..] == HashBlocks(old(state[..]), tail[..padlen])
  {
    hide Compress, HashBlocks;
    FirstBlock(state[..], tail[..padlen]);
    assert tail[..padlen][..64] == tail[..64] && tail[..padlen][64..] == tail[64..padlen];
    Sha256Block(state, tail[..64]);
    if padlen == 128 {
      OneBlock(state[..], tail[64..128]);
      Sha256Block(state, tail[64..128]);
    } else {
      assert tail[64..padlen] == [];
      NoBlock(state[..]);
    }
  }

  lemma NoBlock(h: seq<bv32>)
    requires |h| == 8
    ensures HashBlocks(h, []) == h
  {
  }

  lemma OneBlock(h: seq<bv32>, m: Bytes)
    requires |h| == 8 && |m| == 64
    ensures HashBlocks(h, m) == Compress(h, m)
  {
    assert m[..64] == m && m[64..] == [];
  }

  lemma FirstBlock(h: seq<bv32>, m: Bytes)
    requires |h| == 8 && |m| >= 64 && |m| % 64 == 0
    ensures HashBlocks(h, m) == HashBlocks(Compress(h, m[..64]), m[64..])
  {
    hide Compress;
  }

  method Sha256(data: Bytes) returns (dgst: Bytes)
    requires |data| < 0x2000_0000_0000_0000
    ensures dgst == Hash(data)
  {
    hide Pad, HashBlocks, Compress, DigestOf;
    var state := Initial();
    var full := |data| / 64;
    assert Pad(data)[0..] == Pad(data);
    for i := 0 to full
      invariant Rest(data, 64 * i) && HashBlocks(state[..], Pad(data)[64 * i..]) == HashBlocks(H0, Pad(data))
    {
      PadSplits(data, 64 * i);
      FirstBlock(state[..], Pad(data)[64 * i..]);
      Sha256Block(state, data[64 * i..64 * i + 64]);
    }
    var tail := new bv8[128];
    PadSplits(data, 64 * full);
    var bits := 8 * |data| % 0x1_0000_0000_0000_0000;
    var padlen := FillTail(data[64 * full..], bits, tail);
    Finish(state, tail, padlen);
    dgst := DigestOf(state[..]);
  }

  method Initial() returns (state: array<bv32>)
    ensures fresh(state) && state.Length == 8 && state[..] == H0
  {
    state := new bv32[8][0x6a09e667, 0xbb67ae85, 0x3c6ef372, 0xa54ff53a, 0x510e527f, 0x9b05688c, 0x1f83d9ab,
                         0x5be0cd19];
  }

  ghost predicate Rest(data: Bytes, at: nat) {
    at <= |data| && at % 64 == 0 && at <= |Pad(data)| && |Pad(data)[at..]| % 64 == 0
  }
}
