/** Choices that the program does not make: what the kernel, the clients and the other threads do. */
module Environment {
  method Any() returns (b: bool) {
    b := *;
  }

  method AnyNat() returns (n: nat) {
    n := *;
  }

  method AnyInt() returns (n: int) {
    n := *;
  }

  method AnyBetween(lo: nat, hi: nat) returns (n: nat)
    requires lo <= hi
    ensures lo <= n <= hi
  {
    n := *;
    if n < lo || n > hi {
      n := hi;
    }
  }
}
