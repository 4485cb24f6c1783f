/** Go's fixed-width integers: uint64 arithmetic wraps modulo 2^64, and
    the summing loops of the monitor accumulate in uint64. */
module Integers {
  const U64_LIMIT: int := 0x1_0000_0000_0000_0000
  const INT64_MIN: int := -0x8000_0000_0000_0000
  const INT64_MAX: int := 0x7FFF_FFFF_FFFF_FFFF

  /** Go's uint64. */
  type u64 = x: int | 0 <= x < U64_LIMIT

  /** The value a uint64 computation leaves: the exact result modulo 2^64. */
  function Wrap(x: int): (r: u64)
    ensures 0 <= x < U64_LIMIT ==> r == x
  {
    x % U64_LIMIT
  }

  lemma ModShift(x: int, q: int)
    ensures (x - q * U64_LIMIT) % U64_LIMIT == x % U64_LIMIT
  {
    var k := x / U64_LIMIT;
    var r := x % U64_LIMIT;
    assert x == k * U64_LIMIT + r;
    assert x - q * U64_LIMIT == (k - q) * U64_LIMIT + r;
  }

  /** Adding to an already wrapped value wraps the same as adding first. */
  lemma WrapAdd(a: int, b: int)
    ensures Wrap(Wrap(a) + b) == Wrap(a + b)
  {
    var q := a / U64_LIMIT;
    assert Wrap(a) + b == (a + b) - q * U64_LIMIT;
    ModShift(a + b, q);
  }

  /** One step of a uint64 accumulator that holds a wrapped running sum. */
  lemma WrapAccumulate(total: int, sum: int, x: int)
    requires total == Wrap(sum)
    ensures Wrap(total + x) == Wrap(sum + x)
  {
    WrapAdd(sum, x);
  }

  // ---------------------------------------------------------------- sums

  /** The sum of a sequence of naturals. */
  function Sum(xs: seq<nat>): nat
  {
    if xs == [] then 0 else Sum(xs[..|xs| - 1]) + xs[|xs| - 1]
  }

  /** A sum of n values, each at most m, is at most n * m. */
  lemma {:induction false} SumAtMost(xs: seq<nat>, m: nat)
    requires forall i :: 0 <= i < |xs| ==> xs[i] <= m
    ensures Sum(xs) <= |xs| * m
  {
    if xs != [] {
      SumAtMost(xs[..|xs| - 1], m);
    }
  }

  /** A sum of n values, each at least m, is at least n * m. */
  lemma {:induction false} SumAtLeast(xs: seq<nat>, m: nat)
    requires forall i :: 0 <= i < |xs| ==> m <= xs[i]
    ensures |xs| * m <= Sum(xs)
  {
    if xs != [] {
      SumAtLeast(xs[..|xs| - 1], m);
    }
  }
}
