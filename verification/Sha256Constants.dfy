/**
  The constants of SHA-256 are the ones FIPS 180-4 defines: the round constants are the first 32 bits of the
  fractional parts of the cube roots of the first 64 primes (section 4.2.2), the initial hash value those of
  the square roots of the first eight (section 5.3.3).
*/
module Sha256Constants {
  import opened Arith
  import opened Sha256

  // ---------------------------------------------------------------- the first primes

  ghost predicate IsPrime(p: nat) {
    p >= 2 && forall d: nat :: 2 <= d < p ==> p % d != 0
  }

  ghost function PrimesBelow(n: nat): nat {
    if n == 0 then 0 else PrimesBelow(n - 1) + if IsPrime(n - 1) then 1 else 0
  }

  const PRIMES: seq<seq<nat>> := [
    [2, 3, 5, 7, 11, 13, 17, 19],
    [23, 29, 31, 37, 41, 43, 47, 53],
    [59, 61, 67, 71, 73, 79, 83, 89],
    [97, 101, 103, 107, 109, 113, 127, 131],
    [137, 139, 149, 151, 157, 163, 167, 173],
    [179, 181, 191, 193, 197, 199, 211, 223],
    [227, 229, 233, 239, 241, 251, 257, 263],
    [269, 271, 277, 281, 283, 293, 307, 311]]

  function Prime(t: nat): nat
    requires t < 64
  {
    PRIMES[t / 8][t % 8]
  }

  /** A multiple of one of the primes up to 17, and not that prime itself. */
  predicate Struck(n: nat) {
    || (n % 2 == 0 && n > 2) || (n % 3 == 0 && n > 3) || (n % 5 == 0 && n > 5) || (n % 7 == 0 && n > 7)
    || (n % 11 == 0 && n > 11) || (n % 13 == 0 && n > 13) || (n % 17 == 0 && n > 17)
  }

  lemma StruckBy(n: nat, p: nat)
    requires p in {2, 3, 5, 7, 11, 13, 17} && p < n && n % p == 0
    ensures Struck(n)
  {
  }

  lemma SmallDivisor(n: nat, d: nat)
    requires 2 <= d < 19 && d < n && n % d == 0
    ensures Struck(n)
  {
    hide Struck;
    var p := if d % 2 == 0 then 2 else if d % 3 == 0 then 3 else if d % 5 == 0 then 5 else d;
    Divides(n, d, p);
    StruckBy(n, p);
  }

  lemma Divides(n: nat, d: nat, p: nat)
    requires 0 < p && 0 < d && n % d == 0 && d % p == 0
    ensures n % p == 0
  {
    var a, b := n / d, d / p;
    assert n == d * a && d == p * b;
    assert n == p * (b * a);
    DivModUnique(n, p, b * a, 0);
  }

  lemma StruckIsNoPrime(n: nat, p: nat)
    requires 2 <= p < n && n % p == 0
    ensures !IsPrime(n)
  {
  }

  lemma FactorIsStruck(n: nat, d: nat)
    requires 2 <= d < n < 361 && n % d == 0
    ensures Struck(n)
  {
    hide Struck;
    var e := n / d;
    assert n == d * e && 2 <= e < n;
    if d < 19 {
      SmallDivisor(n, d);
    } else {
      assert e < 19 by {
        if e >= 19 {
          MulMono(19, d, e);
        }
      }
      DivModUnique(n, e, d, 0);
      SmallDivisor(n, e);
    }
  }

  /** Below 19 * 19, striking out the multiples of the primes up to 17 leaves the primes. */
  lemma SieveIff(n: nat)
    requires 2 <= n < 361
    ensures IsPrime(n) <==> !Struck(n)
  {
    if Struck(n) {
      hide IsPrime;
      var p := if n % 2 == 0 && n > 2 then 2 else if n % 3 == 0 && n > 3 then 3 else if n % 5 == 0 && n > 5 then 5
        else if n % 7 == 0 && n > 7 then 7 else if n % 11 == 0 && n > 11 then 11
        else if n % 13 == 0 && n > 13 then 13 else 17;
      StruckIsNoPrime(n, p);
    } else if !IsPrime(n) {
      hide Struck;
      var d: nat :| 2 <= d < n && n % d == 0;
      FactorIsStruck(n, d);
    }
  }

  /** Everything between `a` and `b` is struck. */
  predicate Gap(a: nat, b: nat)
    decreases b - a
  {
    a + 1 >= b || (Struck(a + 1) && Gap(a + 1, b))
  }

  lemma {:induction false} NoneBetween(a: nat, b: nat)
    requires 2 <= a < b < 361 && Gap(a, b)
    ensures PrimesBelow(b) == PrimesBelow(a + 1)
    decreases b - a
  {
    hide IsPrime, Struck;
    if a + 1 < b {
      SieveIff(a + 1);
      NoneBetween(a + 1, b);
    }
  }

  /** `p` is the prime with `t` primes below it. */
  ghost predicate Nth(t: nat, p: nat) { IsPrime(p) && PrimesBelow(p) == t }

  lemma Next(a: nat, b: nat, t: nat)
    requires 2 <= a < b < 361 && Nth(t, a) && !Struck(b) && Gap(a, b)
    ensures Nth(t + 1, b)
  {
    hide IsPrime, Struck, Gap;
    NoneBetween(a, b);
    SieveIff(b);
  }

  lemma Two()
    ensures Nth(0, 2)
  {
    assert PrimesBelow(2) == PrimesBelow(1) == PrimesBelow(0);
  }

  /** A row of the table holds the primes of its places. */
  ghost predicate RowOk(i: nat)
    requires i < 8
  {
    forall j: nat {:trigger PRIMES[i][j]} :: j < 8 ==> Nth(8 * i + j, PRIMES[i][j])
  }

  lemma Row0()
    ensures RowOk(0)
  {
    hide Nth;
    Two();
    Next(2, 3, 0);
    Next(3, 5, 1);
    Next(5, 7, 2);
    Next(7, 11, 3);
    Next(11, 13, 4);
    Next(13, 17, 5);
    Next(17, 19, 6);
  }

  lemma Row1()
    requires RowOk(0)
    ensures RowOk(1)
  {
    hide Nth;
    assert PRIMES[0][7] == 19;
    Next(19, 23, 7);
    Next(23, 29, 8);
    Next(29, 31, 9);
    Next(31, 37, 10);
    Next(37, 41, 11);
    Next(41, 43, 12);
    Next(43, 47, 13);
    Next(47, 53, 14);
  }

  lemma Row2()
    requires RowOk(1)
    ensures RowOk(2)
  {
    hide Nth;
    assert PRIMES[1][7] == 53;
    Next(53, 59, 15);
    Next(59, 61, 16);
    Next(61, 67, 17);
    Next(67, 71, 18);
    Next(71, 73, 19);
    Next(73, 79, 20);
    Next(79, 83, 21);
    Next(83, 89, 22);
  }

  lemma Row3()
    requires RowOk(2)
    ensures RowOk(3)
  {
    hide Nth;
    assert PRIMES[2][7] == 89;
    Next(89, 97, 23);
    Next(97, 101, 24);
    Next(101, 103, 25);
    Next(103, 107, 26);
    Next(107, 109, 27);
    Next(109, 113, 28);
    Next(113, 127, 29);
    Next(127, 131, 30);
  }

  lemma Row4()
    requires RowOk(3)
    ensures RowOk(4)
  {
    hide Nth;
    assert PRIMES[3][7] == 131;
    Next(131, 137, 31);
    Next(137, 139, 32);
    Next(139, 149, 33);
    Next(149, 151, 34);
    Next(151, 157, 35);
    Next(157, 163, 36);
    Next(163, 167, 37);
    Next(167, 173, 38);
  }

  lemma Row5()
    requires RowOk(4)
    ensures RowOk(5)
  {
    hide Nth;
    assert PRIMES[4][7] == 173;
    Next(173, 179, 39);
    Next(179, 181, 40);
    Next(181, 191, 41);
    Next(191, 193, 42);
    Next(193, 197, 43);
    Next(197, 199, 44);
    Next(199, 211, 45);
    Next(211, 223, 46);
  }

  lemma Row6()
    requires RowOk(5)
    ensures RowOk(6)
  {
    hide Nth;
    assert PRIMES[5][7] == 223;
    Next(223, 227, 47);
    Next(227, 229, 48);
    Next(229, 233, 49);
    Next(233, 239, 50);
    Next(239, 241, 51);
    Next(241, 251, 52);
    Next(251, 257, 53);
    Next(257, 263, 54);
  }

  lemma Row7()
    requires RowOk(6)
    ensures RowOk(7)
  {
    hide Nth;
    assert PRIMES[6][7] == 263;
    Next(263, 269, 55);
    Next(269, 271, 56);
    Next(271, 277, 57);
    Next(277, 281, 58);
    Next(281, 283, 59);
    Next(283, 293, 60);
    Next(293, 307, 61);
    Next(307, 311, 62);
  }

  /** The table holds the first 64 primes, in order. */
  lemma TableOfPrimes(t: nat)
    requires t < 64
    ensures IsPrime(Prime(t)) && PrimesBelow(Prime(t)) == t
  {
    hide RowOk;
    Row0();
    Row1();
    Row2();
    Row3();
    Row4();
    Row5();
    Row6();
    Row7();
    TableRow(t / 8, t % 8);
  }

  lemma TableRow(i: nat, j: nat)
    requires i < 8 && j < 8 && RowOk(i)
    ensures Nth(8 * i + j, PRIMES[i][j])
  {
  }

  // ---------------------------------------------------------------- their roots

  /** `k` is the first 32 bits behind the point of the cube root of `p`, whose whole part is `c`. */
  predicate CubeRoot(p: nat, c: nat, k: bv32) { CubeBetween(p, c * 0x1_00000000 + k as nat) }

  predicate CubeBetween(p: nat, x: nat) {
    x * x * x <= p * 0x1_00000000_00000000_00000000 < (x + 1) * (x + 1) * (x + 1)
  }

  /** The same of the square root. */
  predicate SquareRoot(p: nat, c: nat, h: bv32) { SquareBetween(p, c * 0x1_00000000 + h as nat) }

  predicate SquareBetween(p: nat, x: nat) {
    x * x <= p * 0x1_00000000_00000000 < (x + 1) * (x + 1)
  }

  /** The whole part of a cube root below 7. */
  function WholeCubeRoot(p: nat): nat {
    if p < 8 then 1 else if p < 27 then 2 else if p < 64 then 3 else if p < 125 then 4 else if p < 216 then 5 else 6
  }

  /** The constant of row `i`, column `j` belongs to the prime there. */
  ghost predicate RootAt(i: nat, j: nat)
    requires i < 8 && j < 8
  {
    CubeBetween(PRIMES[i][j], WholeCubeRoot(PRIMES[i][j]) * 0x1_00000000 + K[i][j] as nat)
  }

  lemma Root0(j: nat)
    requires j < 8
    ensures RootAt(0, j)
  {
  }

  lemma Root1(j: nat)
    requires j < 8
    ensures RootAt(1, j)
  {
  }

  lemma Root2(j: nat)
    requires j < 8
    ensures RootAt(2, j)
  {
  }

  lemma Root3(j: nat)
    requires j < 8
    ensures RootAt(3, j)
  {
  }

  lemma Root4(j: nat)
    requires j < 8
    ensures RootAt(4, j)
  {
  }

  lemma Root5(j: nat)
    requires j < 8
    ensures RootAt(5, j)
  {
  }

  lemma Root6(j: nat)
    requires j < 8
    ensures RootAt(6, j)
  {
  }

  lemma Root7(j: nat)
    requires j < 8
    ensures RootAt(7, j)
  {
  }

  lemma EveryRoot(i: nat, j: nat)
    requires i < 8 && j < 8
    ensures RootAt(i, j)
  {
    hide RootAt;
    match i
    case 0 => Root0(j);
    case 1 => Root1(j);
    case 2 => Root2(j);
    case 3 => Root3(j);
    case 4 => Root4(j);
    case 5 => Root5(j);
    case 6 => Root6(j);
    case 7 => Root7(j);
  }

  lemma RootIs(i: nat, j: nat)
    requires i < 8 && j < 8 && RootAt(i, j)
    ensures CubeRoot(PRIMES[i][j], WholeCubeRoot(PRIMES[i][j]), K[i][j])
  {
    hide CubeBetween, WholeCubeRoot;
  }

  /** Section 4.2.2: the `t`-th round constant is the first 32 fractional bits of the cube root of the `t`-th prime. */
  lemma RoundConstants(t: nat)
    requires t < 64
    ensures IsPrime(Prime(t)) && PrimesBelow(Prime(t)) == t
    ensures exists c: nat :: CubeRoot(Prime(t), c, RoundConstant(t))
  {
    hide IsPrime, PrimesBelow, CubeRoot, WholeCubeRoot, RootAt;
    TableOfPrimes(t);
    EveryRoot(t / 8, t % 8);
    RootIs(t / 8, t % 8);
    assert CubeRoot(Prime(t), WholeCubeRoot(Prime(t)), RoundConstant(t));
  }

  /** Section 5.3.3: the initial hash value is the same of the square roots of the first eight primes. */
  lemma InitialHash(t: nat)
    requires t < 8
    ensures IsPrime(Prime(t)) && PrimesBelow(Prime(t)) == t
    ensures exists c: nat :: SquareRoot(Prime(t), c, H0[t])
  {
    hide IsPrime, PrimesBelow, SquareRoot;
    TableOfPrimes(t);
    SquareRoots(t);
  }

  lemma SquareRoots(t: nat)
    requires t < 8
    ensures SquareRoot(PRIMES[0][t], if t < 2 then 1 else if t < 4 then 2 else if t < 6 then 3 else 4, H0[t])
  {
  }
}
