/**
 Bit-level helpers of the matrix kernel: the power-of-two test that the
 matrix product uses to choose a strategy, and `nearest_power_of_2`.

 Extents are `std::size_t` in the C++ header; here they are naturals, and the
 one place where the 64-bit width matters (`cols - 1` when `cols == 0`) is
 written out explicitly.
 */
module Bits {

  /** 2^64, the number of values of a `std::size_t`. */
  const SizeTModulus: nat := 0x1_0000_0000_0000_0000

  /** n is 1, 2, 4, 8, ... */
  predicate IsPowerOfTwo(n: nat)
    decreases n
  {
    n == 1 || (n > 1 && n % 2 == 0 && IsPowerOfTwo(n / 2))
  }

  /** Bitwise AND of two naturals, bit by bit from the least significant. */
  function BitAnd(a: nat, b: nat): (r: nat)
    decreases a
  {
    if a == 0 || b == 0 then 0
    else 2 * BitAnd(a / 2, b / 2) + (if a % 2 == 1 && b % 2 == 1 then 1 else 0)
  }

  /** `n - 1` on a `std::size_t`: wraps to 2^64 - 1 when n is 0. */
  function SizeTDecrement(n: nat): (r: nat)
    ensures n < SizeTModulus ==> r < SizeTModulus && (r + 1) % SizeTModulus == n
  {
    if n == 0 then SizeTModulus - 1 else n - 1
  }

  /** The test `(cols & (cols - 1)) == 0` exactly as the header writes it. */
  predicate PowerOfTwoGuard(n: nat)
  {
    BitAnd(n, SizeTDecrement(n)) == 0
  }

  /** The test the dispatcher means: n is a power of two (0 excluded). */
  predicate UsesStrassen(n: nat)
  {
    n != 0 && PowerOfTwoGuard(n)
  }

  lemma {:induction false} BitAndSelf(a: nat)
    ensures BitAnd(a, a) == a
    decreases a
  {
    if a != 0 {
      BitAndSelf(a / 2);
    }
  }

  /** For a positive n, n & (n - 1) clears exactly the lowest set bit, so it
      is zero iff n has a single set bit. */
  lemma {:induction false} PositiveGuardIsPowerOfTwo(n: nat)
    requires n >= 1
    ensures BitAnd(n, n - 1) == 0 <==> IsPowerOfTwo(n)
    decreases n
  {
    if n == 1 {
    } else if n % 2 == 0 {
      PositiveGuardIsPowerOfTwo(n / 2);
      assert (n - 1) / 2 == n / 2 - 1;
      assert BitAnd(n, n - 1) == 2 * BitAnd(n / 2, n / 2 - 1);
    } else {
      BitAndSelf(n / 2);
      assert (n - 1) / 2 == n / 2;
      assert BitAnd(n, n - 1) == 2 * (n / 2);
    }
  }

  /** The guard as written holds for 0 and for the powers of two, and for
      nothing else. */
  lemma GuardAsWritten(n: nat)
    ensures PowerOfTwoGuard(n) <==> n == 0 || IsPowerOfTwo(n)
  {
    if n >= 1 {
      PositiveGuardIsPowerOfTwo(n);
    }
  }

  /** The corrected test selects exactly the powers of two. */
  lemma UsesStrassenIffPowerOfTwo(n: nat)
    ensures UsesStrassen(n) <==> IsPowerOfTwo(n)
  {
    GuardAsWritten(n);
  }

  /** A power of two above 1 halves to a power of two. */
  lemma HalfOfPowerOfTwo(n: nat)
    requires IsPowerOfTwo(n) && n > 1
    ensures n % 2 == 0 && n / 2 >= 1 && IsPowerOfTwo(n / 2)
  {
  }

  /** The extent after d levels of Strassen's recursion started on extent n:
      each level works on quadrants of half the extent. */
  function Halved(n: nat, d: nat): (r: nat)
    ensures r <= n
    decreases d
  {
    if d == 0 then n else Halved(n / 2, d - 1)
  }

  /** The guard as written admits extent 0, and from extent 0 no depth of the
      recursion reaches the base case of extent 1. */
  lemma GuardAdmitsEmpty(d: nat)
    ensures PowerOfTwoGuard(0) && !IsPowerOfTwo(0) && Halved(0, d) != 1
  {
  }

  /** From a power of two the recursion reaches extent 1, after
      finitely many halvings. */
  lemma {:induction false} PowerOfTwoReachesBase(n: nat)
    requires IsPowerOfTwo(n)
    ensures exists d: nat :: Halved(n, d) == 1
    decreases n
  {
    if n == 1 {
      assert Halved(n, 0) == 1;
    } else {
      PowerOfTwoReachesBase(n / 2);
      var d: nat :| Halved(n / 2, d) == 1;
      assert Halved(n, d + 1) == 1;
    }
  }

  /** `nearest_power_of_2`: round up by smearing the highest set bit of
      value - 1 into every lower position, then adding one. The shifts stop
      at 16, so only inputs up to 2^32 are smeared completely: 2^32 + 1
      already gives 2^33 - 1, which is no power of two. "Power of two"
      is stated on `bv64` as `value != 0 && value & (value - 1) == 0`, the
      same single-set-bit test that PositiveGuardIsPowerOfTwo proves equal to
      IsPowerOfTwo on naturals. */
  method NearestPowerOf2(v: bv64) returns (value: bv64)
    ensures v == 0 ==> value == 0
    ensures 1 <= v <= 0x1_0000_0000 ==>
              value != 0 && value & (value - 1) == 0 && v <= value && value < 2 * v
    ensures v == 0x1_0000_0001 ==> value == 0x1_FFFF_FFFF
  {
    value := v;
    value := value - 1;
    value := value | (value >> 1);
    value := value | (value >> 2);
    value := value | (value >> 4);
    value := value | (value >> 8);
    value := value | (value >> 16);
    value := value + 1;
  }
}
