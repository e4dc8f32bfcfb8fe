/**
  The words of SHA-256 as numbers and as bits: how FIPS 180-4 reads bytes into words and back (sections 3.1
  and 3.2), adds them (section 3.2) and takes its six functions of them (section 4.1.2).
*/
module Sha256Words {
  import opened Arith
  import opened Sha256

  // ---------------------------------------------------------------- bits

  /** Bit `i` of a word, counted from the least significant one; positions are taken modulo 32. */
  predicate Bit(x: bv32, i: bv5) { (x >> i) & 1 == 1 }

  function Parity(a: bool, b: bool, c: bool): bool { (a != b) != c }

  lemma OneMoreBit(x: bv32, y: bv32, k: bv6)
    requires k < 32 && x << (32 - k) == y << (32 - k) && ((x >> k) & 1 == 1) == ((y >> k) & 1 == 1)
    ensures x << (31 - k) == y << (31 - k)
  {
  }

  /** Two words with the same bits are the same word, so that what follows says all about the functions. */
  lemma BitsDecide(x: bv32, y: bv32)
    requires forall i: bv5 :: Bit(x, i) == Bit(y, i)
    ensures x == y
  {
    var k: bv6 := 0;
    while k < 32
      invariant k <= 32 && x << (32 - k) == y << (32 - k)
      decreases 32 - k
    {
      assert Bit(x, k as bv5) == Bit(y, k as bv5);
      OneMoreBit(x, y, k);
      k := k + 1;
    }
  }

  lemma RotatedBit(x: bv32, n: bv6, i: bv5)
    requires 0 < n < 32
    ensures ((((x >> n) | (x << (32 - n))) >> i) & 1 == 1) <==> ((x >> (i + n as bv5)) & 1 == 1)
  {
  }

  /** Rotation moves every bit down by `n` places, and those at the end to the other end. */
  lemma RotrBit(x: bv32, n: bv6, i: bv5)
    requires 0 < n < 32
    ensures Bit(Rotr(x, n), i) <==> Bit(x, i + n as bv5)
  {
    RotatedBit(x, n, i);
    assert Rotr(x, n) == (x >> n) | (x << (32 - n));
  }

  function And(x: bv32, y: bv32): bv32 { x & y }

  function Xor(x: bv32, y: bv32): bv32 { x ^ y }

  function Not(x: bv32): bv32 { !x }

  lemma XoredBit(x: bv32, y: bv32, i: bv5)
    ensures Bit(x ^ y, i) <==> Bit(x, i) != Bit(y, i)
  {
  }

  lemma XorOf(x: bv32, y: bv32, i: bv5)
    ensures Bit(Xor(x, y), i) <==> Bit(x, i) != Bit(y, i)
  {
    hide Bit;
    XoredBit(x, y, i);
  }

  lemma AndOf(x: bv32, y: bv32, i: bv5)
    ensures Bit(And(x, y), i) <==> Bit(x, i) && Bit(y, i)
  {
  }

  lemma NotOf(x: bv32, i: bv5)
    ensures Bit(Not(x), i) <==> !Bit(x, i)
  {
  }

  lemma XorInSteps(x: bv32, y: bv32, z: bv32)
    ensures Xor3(x, y, z) == Xor(Xor(x, y), z)
  {
    assert Xor(Xor(x, y), z) == (x ^ y) ^ z;
  }

  lemma ChInSteps(x: bv32, y: bv32, z: bv32)
    ensures Ch(x, y, z) == Xor(And(x, y), And(Not(x), z))
  {
    assert And(x, y) == x & y && And(Not(x), z) == !x & z;
  }

  lemma MajInSteps(x: bv32, y: bv32, z: bv32)
    ensures Maj(x, y, z) == Xor3(And(x, y), And(x, z), And(y, z))
  {
    hide Xor3;
  }

  lemma XorBit(x: bv32, y: bv32, z: bv32, i: bv5)
    ensures Bit(Xor3(x, y, z), i) <==> Parity(Bit(x, i), Bit(y, i), Bit(z, i))
  {
    hide Bit, Xor, Xor3;
    XorInSteps(x, y, z);
    XorOf(x, y, i);
    XorOf(Xor(x, y), z, i);
  }

  /** `Ch` chooses by its first argument. */
  lemma ChBit(x: bv32, y: bv32, z: bv32, i: bv5)
    ensures Bit(Ch(x, y, z), i) <==> if Bit(x, i) then Bit(y, i) else Bit(z, i)
  {
    hide Bit, Xor, And, Not, Ch;
    ChInSteps(x, y, z);
    AndOf(x, y, i);
    NotOf(x, i);
    AndOf(Not(x), z, i);
    XorOf(And(x, y), And(Not(x), z), i);
  }

  /** `Maj` takes the majority. */
  lemma MajBit(x: bv32, y: bv32, z: bv32, i: bv5)
    ensures Bit(Maj(x, y, z), i) <==> if Bit(x, i) == Bit(y, i) then Bit(x, i) else Bit(z, i)
  {
    hide Bit, Xor3, And, Maj;
    MajInSteps(x, y, z);
    AndOf(x, y, i);
    AndOf(x, z, i);
    AndOf(y, z, i);
    XorBit(And(x, y), And(x, z), And(y, z), i);
  }

  lemma ShiftedBit(x: bv32, n: bv6, i: bv5)
    requires n < 32
    ensures ((x >> n) >> i) & 1 == 1 <==> i as bv6 + n < 32 && (x >> (i + n as bv5)) & 1 == 1
  {
  }

  /** A shift moves bits down as well, and fills with zeros. */
  lemma ShrBit(x: bv32, n: bv6, i: bv5)
    requires n < 32
    ensures Bit(Shr(x, n), i) <==> i as bv6 + n < 32 && Bit(x, i + n as bv5)
  {
    ShiftedBit(x, n, i);
    assert Shr(x, n) == x >> n;
  }

  lemma Sigma0Bit(x: bv32, i: bv5)
    ensures Bit(Sigma0(x), i) <==> Parity(Bit(x, i + 2), Bit(x, i + 13), Bit(x, i + 22))
  {
    hide Bit, Rotr, Xor3;
    RotrBit(x, 2, i);
    RotrBit(x, 13, i);
    RotrBit(x, 22, i);
    XorBit(Rotr(x, 2), Rotr(x, 13), Rotr(x, 22), i);
  }

  lemma Sigma1Bit(x: bv32, i: bv5)
    ensures Bit(Sigma1(x), i) <==> Parity(Bit(x, i + 6), Bit(x, i + 11), Bit(x, i + 25))
  {
    hide Bit, Rotr, Xor3;
    RotrBit(x, 6, i);
    RotrBit(x, 11, i);
    RotrBit(x, 25, i);
    XorBit(Rotr(x, 6), Rotr(x, 11), Rotr(x, 25), i);
  }

  lemma LowSigma0Bit(x: bv32, i: bv5)
    ensures Bit(LowSigma0(x), i) <==> Parity(Bit(x, i + 7), Bit(x, i + 18), i < 29 && Bit(x, i + 3))
  {
    hide Bit, Rotr, Shr, Xor3;
    RotrBit(x, 7, i);
    RotrBit(x, 18, i);
    ShrBit(x, 3, i);
    XorBit(Rotr(x, 7), Rotr(x, 18), Shr(x, 3), i);
  }

  lemma LowSigma1Bit(x: bv32, i: bv5)
    ensures Bit(LowSigma1(x), i) <==> Parity(Bit(x, i + 17), Bit(x, i + 19), i < 22 && Bit(x, i + 10))
  {
    hide Bit, Rotr, Shr, Xor3;
    RotrBit(x, 17, i);
    RotrBit(x, 19, i);
    ShrBit(x, 10, i);
    XorBit(Rotr(x, 17), Rotr(x, 19), Shr(x, 10), i);
  }

  // ---------------------------------------------------------------- addition

  lemma Extended(x: bv32, y: bv32)
    ensures (x as bv33 + y as bv33) as nat == x as nat + y as nat
  {
  }

  function Low(z: bv33): bv32 { (z & 0xffff_ffff) as bv32 }

  function Top(z: bv33): bv1 { (z >> 32) as bv1 }

  lemma TwoParts(h: bv1, l: bv32)
    ensures (((h as bv33) << 32) | (l as bv33)) as nat == h as nat * 0x1_0000_0000 + l as nat
  {
  }

  lemma Split(z: bv33)
    ensures z == ((Top(z) as bv33) << 32) | (Low(z) as bv33)
  {
  }

  lemma Numbered(z: bv33)
    ensures z as nat == Top(z) as nat * 0x1_0000_0000 + Low(z) as nat
  {
    hide Low, Top;
    TwoParts(Top(z), Low(z));
    Split(z);
  }

  lemma LowOfSum(x: bv32, y: bv32)
    ensures Add(x, y) == Low(x as bv33 + y as bv33)
  {
  }

  lemma BelowTwo32(x: bv32)
    ensures x as nat < 0x1_0000_0000
  {
  }

  lemma LowNumber(x: bv32, y: bv32, w: bv33)
    requires w == x as bv33 + y as bv33
    ensures Low(w) as nat == (x as nat + y as nat) % 0x1_0000_0000
  {
    hide Low, Top;
    Extended(x, y);
    Numbered(w);
    BelowTwo32(Low(w));
    DivModUnique(x as nat + y as nat, 0x1_0000_0000, Top(w) as nat, Low(w) as nat);
  }

  /** Addition is addition of the numbers modulo 2^32. */
  lemma AddIsModular(x: bv32, y: bv32)
    ensures Add(x, y) as nat == (x as nat + y as nat) % 0x1_0000_0000
  {
    hide Low, Add;
    LowOfSum(x, y);
    LowNumber(x, y, x as bv33 + y as bv33);
  }

  // ---------------------------------------------------------------- bytes

  /** The number that a sequence of bytes is, most significant first. */
  function Number(s: Bytes): nat {
    if s == [] then 0 else 256 * Number(s[..|s| - 1]) + s[|s| - 1] as nat
  }

  lemma FourBytes(a: bv8, b: bv8, c: bv8, d: bv8)
    ensures (((a as bv32) << 24) | ((b as bv32) << 16) | ((c as bv32) << 8) | (d as bv32)) as nat ==
            a as nat * 0x100_0000 + b as nat * 0x1_0000 + c as nat * 0x100 + d as nat
  {
  }

  lemma JoinedIsNumber(a: bv8, b: bv8, c: bv8, d: bv8)
    ensures Joined(a, b, c, d) as nat == a as nat * 0x100_0000 + b as nat * 0x1_0000 + c as nat * 0x100 + d as nat
  {
    FourBytes(a, b, c, d);
    assert Joined(a, b, c, d) == ((a as bv32) << 24) | ((b as bv32) << 16) | ((c as bv32) << 8) | (d as bv32);
  }

  lemma NumberOfFour(s: Bytes)
    requires |s| == 4
    ensures Number(s) == s[0] as nat * 0x100_0000 + s[1] as nat * 0x1_0000 + s[2] as nat * 0x100 + s[3] as nat
  {
    assert s[..3][..2] == s[..2] && s[..2][..1] == s[..1] && s[..1][..0] == [];
    assert Number(s[..1]) == s[0] as nat && Number(s[..2]) == 256 * Number(s[..1]) + s[1] as nat;
    assert Number(s[..3]) == 256 * Number(s[..2]) + s[2] as nat;
  }

  lemma WordJoins(b: Bytes, t: nat, s: Bytes)
    requires 4 * t + 4 <= |b| && s == b[4 * t..4 * t + 4]
    ensures Word(b, t) == Joined(s[0], s[1], s[2], s[3])
  {
    hide Joined;
  }

  /** Word `t` of a block is the number its four bytes are. */
  lemma WordIsNumber(b: Bytes, t: nat)
    requires 4 * t + 4 <= |b|
    ensures Word(b, t) as nat == Number(b[4 * t..4 * t + 4])
  {
    hide Number, Joined, Word;
    var s := b[4 * t..4 * t + 4];
    WordJoins(b, t, s);
    NumberOfFour(s);
    JoinedIsNumber(s[0], s[1], s[2], s[3]);
  }

  lemma FourBack(x: bv32)
    ensures Joined(WordByte(x, 0), WordByte(x, 1), WordByte(x, 2), WordByte(x, 3)) == x
  {
  }

  /** Reading the digest back word by word gives the eight words: no byte is lost or out of place. */
  lemma DigestReadsBack(h: seq<bv32>, i: nat)
    requires |h| == 8 && i < 8
    ensures |DigestOf(h)| == 32 && Word(DigestOf(h), i) == h[i]
    ensures Number(DigestOf(h)[4 * i..4 * i + 4]) == h[i] as nat
  {
    hide Number, WordByte, Joined;
    var d := DigestOf(h);
    assert d[4 * i] == WordByte(h[i], 0) && d[4 * i + 1] == WordByte(h[i], 1);
    assert d[4 * i + 2] == WordByte(h[i], 2) && d[4 * i + 3] == WordByte(h[i], 3);
    FourBack(h[i]);
    WordIsNumber(d, i);
  }

  lemma ByteUp(b: bv8)
    requires b as nat < 255
    ensures (b + 1) as nat == b as nat + 1
  {
  }

  lemma ByteIs(b: bv8, m: nat)
    requires b as nat == m
    ensures m as bv8 == b
  {
  }

  lemma ByteBack(m: nat)
    requires m < 256
    ensures (m as bv8) as nat == m
  {
    var b: bv8, k := 0, 0;
    while k < m
      invariant k <= m && b as nat == k
    {
      ByteUp(b);
      b, k := b + 1, k + 1;
    }
    ByteIs(b, m);
  }

  lemma Quotient(n: nat, p: nat)
    requires p > 0
    ensures n / (256 * p) == n / p / 256
  {
    var q, r := n / p, n % p;
    var a, b := q / 256, q % 256;
    assert n == q * p + r && q == a * 256 + b;
    assert b * p + p <= 256 * p by { MulMono(b + 1, 256, p); }
    assert n == a * (256 * p) + (b * p + r);
    DivModUnique(n, 256 * p, a, b * p + r);
  }

  /** The first `k` bytes of the length field are the leading digits of the number. */
  lemma {:induction false} LeadingDigits(n: nat, k: nat)
    requires k <= 8 && n < Pow256(8)
    ensures Number(BigEndian64(n)[..k]) == n / Pow256(8 - k)
    decreases k
  {
    hide Pow256;
    var s := BigEndian64(n);
    if k > 0 {
      LeadingDigits(n, k - 1);
      assert s[..k][..k - 1] == s[..k - 1] && s[k - 1] == ByteOf(n, 8 - k);
      Power(8 - k);
      Quotient(n, Pow256(8 - k));
      ByteBack(n / Pow256(8 - k) % 256);
    } else {
      SmallQuotient(n, Pow256(8));
    }
  }

  lemma Power(k: nat)
    ensures Pow256(k + 1) == 256 * Pow256(k) && Pow256(0) == 1
  {
  }

  lemma SmallQuotient(n: nat, p: nat)
    requires n < p
    ensures n / p == 0
  {
    DivModUnique(n, p, 0, n);
  }

  /** The eight bytes of the length field are the number of bits. */
  lemma LengthField(n: nat)
    requires n < 0x1_0000_0000_0000_0000
    ensures Number(BigEndian64(n)) == n
  {
    hide Number, BigEndian64;
    assert Pow256(8) == 0x1_0000_0000_0000_0000;
    LeadingDigits(n, 8);
    assert BigEndian64(n)[..8] == BigEndian64(n);
  }
}
