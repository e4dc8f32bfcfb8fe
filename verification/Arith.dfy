/**
  Bytes, options, and the integer facts shared by the storage proofs: division with remainder,
  powers of two and the 4 KiB device block that every disk offset is rounded to.
*/
module Arith {

  newtype byte = b: int | 0 <= b < 256

  datatype Option<T> = None | Some(value: T)

  /** O_DIRECT alignment: 4 KiB. */
  const DEVICE_BLOCK: nat := 4096

  function Min(a: int, b: int): int { if a < b then a else b }

  function Max(a: int, b: int): int { if a < b then b else a }

  /** Smallest multiple of `a` that is at least `v`. */
  function AlignUp(v: nat, a: nat): nat
    requires a > 0
  {
    (v + a - 1) / a * a
  }

  function Pow2(k: nat): (r: nat)
    ensures r > 0
  {
    if k == 0 then 1 else 2 * Pow2(k - 1)
  }

  ghost predicate IsPow2(x: nat) { exists k: nat :: x == Pow2(k) }

  lemma {:induction false} Pow2Sum(a: nat, b: nat)
    ensures Pow2(a + b) == Pow2(a) * Pow2(b)
    decreases b
  {
    if b > 0 {
      Pow2Sum(a, b - 1);
    }
  }

  /** Bitwise exclusive or. */
  function Xor(a: nat, b: nat): nat
    decreases a + b
  {
    if a == 0 && b == 0 then 0 else 2 * Xor(a / 2, b / 2) + (a + b) % 2
  }

  lemma {:induction false} XorZero(a: nat)
    ensures Xor(a, 0) == a
  {
    if a > 0 {
      XorZero(a / 2);
    }
  }

  lemma XorDouble(a: nat, b: nat)
    ensures Xor(2 * a, 2 * b) == 2 * Xor(a, b)
  {
    DivModUnique(2 * a, 2, a, 0);
    DivModUnique(2 * b, 2, b, 0);
    DivModUnique(2 * a + 2 * b, 2, a + b, 0);
  }

  lemma XorOne(a: nat)
    ensures Xor(a, 1) == if a % 2 == 0 then a + 1 else a - 1
  {
    XorZero(a / 2);
  }

  lemma {:induction false} XorMultiple(q: nat, k: nat)
    ensures Xor(q * Pow2(k), Pow2(k)) == if q % 2 == 0 then q * Pow2(k) + Pow2(k) else q * Pow2(k) - Pow2(k)
    decreases k
  {
    hide Xor;
    if k == 0 {
      XorOne(q);
    } else {
      var half := q * Pow2(k - 1);
      assert q * Pow2(k) == 2 * half;
      XorDouble(half, Pow2(k - 1));
      XorMultiple(q, k - 1);
    }
  }

  /** On a multiple of a power of two, exclusive or with that power adds or takes it away. */
  lemma XorAligned(a: nat, k: nat)
    requires a % Pow2(k) == 0
    ensures Xor(a, Pow2(k)) == if a / Pow2(k) % 2 == 0 then a + Pow2(k) else a - Pow2(k)
  {
    hide Xor;
    var q := a / Pow2(k);
    assert a == q * Pow2(k);
    XorMultiple(q, k);
  }

  /** A multiple of `n` strictly between `-n` and `n` is zero. */
  lemma MulBound(k: int, n: int)
    requires n > 0
    ensures k >= 1 ==> k * n >= n
    ensures k <= -1 ==> k * n <= -n
  {
    assert k * n - n == (k - 1) * n;
    assert k * n + n == (k + 1) * n;
  }

  /** Quotient and remainder are the only pair with these two properties. */
  lemma DivModUnique(x: int, n: int, q: int, r: int)
    requires n > 0 && 0 <= r < n && x == q * n + r
    ensures x / n == q && x % n == r
  {
    var k := q - x / n;
    assert k * n == q * n - x / n * n;
    assert x == x / n * n + x % n;
    MulBound(k, n);
  }

  /** Two numbers with equal remainders that differ by less than the modulus are equal. */
  lemma EqualModClose(x: int, y: int, n: int)
    requires n > 0 && x % n == y % n && -n < x - y < n
    ensures x == y
  {
    var k := x / n - y / n;
    assert k * n == x / n * n - y / n * n;
    assert x == x / n * n + x % n && y == y / n * n + y % n;
    MulBound(k, n);
  }

  /** Adding a multiple of the modulus does not change the remainder. */
  lemma ModAddMultiple(x: int, k: int, n: int)
    requires n > 0
    ensures (x + k * n) % n == x % n && (x + k * n) / n == x / n + k
  {
    assert (x / n + k) * n == x / n * n + k * n;
    DivModUnique(x + k * n, n, x / n + k, x % n);
  }

  /** `AlignUp` is the least multiple of `a` that is not below `v`. */
  lemma AlignUpLeast(v: nat, a: nat)
    requires a > 0
    ensures v <= AlignUp(v, a) < v + a
    ensures AlignUp(v, a) % a == 0
    ensures v % a == 0 ==> AlignUp(v, a) == v
  {
    var t := v + a - 1;
    assert t == t / a * a + t % a;
    DivModUnique(t / a * a, a, t / a, 0);
    if v % a == 0 {
      assert v == v / a * a;
      DivModUnique(t, a, v / a, a - 1);
    }
  }

  lemma AlignUpBelow(v: nat, m: nat, a: nat)
    requires a > 0 && m % a == 0 && v <= m
    ensures AlignUp(v, a) <= m
  {
    AlignUpLeast(v, a);
    var u := AlignUp(v, a);
    assert u == u / a * a && m == m / a * a;
    var k := u / a - m / a;
    assert k * a == u - m;
    MulBound(k, a);
  }

  lemma MultipleOfMultiple(x: nat, m: nat, a: nat)
    requires a > 0 && m > 0 && m % a == 0 && x % m == 0
    ensures x % a == 0
  {
    assert x == x / m * (m / a) * a;
    DivModUnique(x, a, x / m * (m / a), 0);
  }

  lemma SumAligned(x: nat, y: nat, a: nat)
    requires a > 0 && x % a == 0 && y % a == 0
    ensures (x + y) % a == 0
    ensures x >= y ==> (x - y) % a == 0
  {
    DivModUnique(x + y, a, x / a + y / a, 0);
    if x >= y {
      DivModUnique(x - y, a, x / a - y / a, 0);
    }
  }

  lemma QuotientBelow(x: nat, n: nat, k: nat)
    requires n > 0 && x < k * n
    ensures x / n < k
  {
    assert x == x / n * n + x % n;
    assert (x / n - k) * n == x / n * n - k * n;
    MulBound(x / n - k, n);
  }

  lemma AlignUpSum(x: nat, y: nat, a: nat)
    requires a > 0 && x % a == 0
    ensures AlignUp(x + y, a) == x + AlignUp(y, a)
  {
    var k := x / a;
    assert x == k * a;
    ModAddMultiple(y + a - 1, k, a);
    assert ((y + a - 1) / a + k) * a == (y + a - 1) / a * a + k * a;
  }

  lemma MulMono(a: int, b: int, k: nat)
    requires a <= b
    ensures a * k <= b * k
  {
    assert b * k - a * k == (b - a) * k;
  }
}
