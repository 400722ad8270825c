/** Size arithmetic of the allocator: the byte-unit macros and the three
    request-size normalisers. Every quantity is a C `uint64_t`, so sums and
    products are reduced modulo 2^64 exactly where the C code could wrap. */
module Sizing {

  const U64_MODULUS: int := 0x1_0000_0000_0000_0000

  /** The values of a C `uint64_t`. */
  type u64 = x: int | 0 <= x < U64_MODULUS

  /** C's conversion of an integer to `uint64_t`: reduction modulo 2^64. */
  function ToU64(x: int): (r: u64)
    ensures 0 <= x < U64_MODULUS ==> r == x
    ensures (r - x) % U64_MODULUS == 0
  {
    x % U64_MODULUS
  }

  /** SFA_ALLOCATION_ALIGNMENT_SIZE: sizeof(uint64_t) * 4. */
  const ALLOCATION_ALIGNMENT_SIZE: u64 := 8 * 4
  /** SFA_ALLOCATION_MINIMUM_SIZE: sizeof(uint64_t) * 4. */
  const ALLOCATION_MINIMUM_SIZE: u64 := 8 * 4
  /** SFA_ALLOCATION_MINIMUM_PAGES_PER_POOL. */
  const MINIMUM_PAGES_PER_POOL: u64 := 4

  // --- Unit macros ----------------------------------------------------------

  /** The macro chain: level 0 is SFA_BYTES, the uint64 cast of n, and each
      further level is the uint64 product of 1024 and the level below. */
  function Unit(level: nat, n: int): u64
  {
    if level == 0 then ToU64(n) else ToU64(1024 * Unit(level - 1, n))
  }

  function Bytes(n: int): u64 { Unit(0, n) }
  function Kilobytes(n: int): u64 { Unit(1, n) }
  function Megabytes(n: int): u64 { Unit(2, n) }
  function Gigabytes(n: int): u64 { Unit(3, n) }
  function Terabytes(n: int): u64 { Unit(4, n) }

  /** SFA_DEFAULT_INITIAL_POOL_SIZE. */
  const DEFAULT_INITIAL_POOL_SIZE: u64 := Kilobytes(256)

  function Pow1024(level: nat): nat
  {
    if level == 0 then 1 else 1024 * Pow1024(level - 1)
  }

  /** Multiplying by a constant commutes with the reduction modulo 2^64. */
  lemma {:induction false} ScaleThenWrap(c: int, x: int)
    ensures ToU64(c * ToU64(x)) == ToU64(c * x)
  {
    var q := x / U64_MODULUS;
    var r := x % U64_MODULUS;
    assert x == q * U64_MODULUS + r;
    assert c * x == (c * q) * U64_MODULUS + c * r;
    ModuloAbsorbsMultiples(c * q, c * r);
  }

  lemma {:induction false} ModuloAbsorbsMultiples(k: int, y: int)
    ensures (k * U64_MODULUS + y) % U64_MODULUS == y % U64_MODULUS
  {
    var q := y / U64_MODULUS;
    assert y == q * U64_MODULUS + y % U64_MODULUS;
    assert k * U64_MODULUS + y == (k + q) * U64_MODULUS + y % U64_MODULUS;
    DivModUnique(k * U64_MODULUS + y, k + q, y % U64_MODULUS, U64_MODULUS);
  }

  /** Level k of the macro chain is 1024^k times n, reduced once modulo 2^64:
      the intermediate wrap-arounds lose nothing the final one keeps. */
  lemma {:induction false} UnitIsPowerOf1024(level: nat, n: int)
    ensures Unit(level, n) == ToU64(Pow1024(level) * n)
  {
    if level > 0 {
      UnitIsPowerOf1024(level - 1, n);
      ScaleThenWrap(1024, Pow1024(level - 1) * n);
      assert 1024 * (Pow1024(level - 1) * n) == Pow1024(level) * n;
    }
  }

  /** KILOBYTES … TERABYTES scale by 1024, 1024^2, 1024^3 and 1024^4. */
  lemma UnitsScaleByPowersOf1024(n: int)
    ensures Kilobytes(n) == ToU64(0x400 * n)
    ensures Megabytes(n) == ToU64(0x10_0000 * n)
    ensures Gigabytes(n) == ToU64(0x4000_0000 * n)
    ensures Terabytes(n) == ToU64(0x100_0000_0000 * n)
  {
    UnitIsPowerOf1024(1, n);
    UnitIsPowerOf1024(2, n);
    UnitIsPowerOf1024(3, n);
    UnitIsPowerOf1024(4, n);
  }

  /** Terabytes keeps only the low 24 bits of its argument: the top 40 bits
      of the 64-bit product are shifted out. */
  lemma {:induction false} TerabytesKeepsLow24Bits(n: int)
    ensures Terabytes(n) == (n % 0x100_0000) * 0x100_0000_0000
    ensures 0 <= n < 0x100_0000 ==> Terabytes(n) == n * 0x100_0000_0000
  {
    UnitsScaleByPowersOf1024(n);
    var q := n / 0x100_0000;
    var r := n % 0x100_0000;
    assert n == q * 0x100_0000 + r;
    assert 0x100_0000_0000 * n == q * U64_MODULUS + r * 0x100_0000_0000;
    DivModUnique(0x100_0000_0000 * n, q, r * 0x100_0000_0000, U64_MODULUS);
  }

  // --- __sfa_request_size_to_nearest_boundary --------------------------------

  /** Adds the remainder of `size` modulo the alignment to `size`. This is not
      a round-up to a multiple of the alignment (see NearestBoundaryCounterexamples). */
  function NearestBoundary(size: u64): (r: u64)
    ensures size % ALLOCATION_ALIGNMENT_SIZE == 0 ==> r == size
    ensures size + size % ALLOCATION_ALIGNMENT_SIZE < U64_MODULUS ==>
              size <= r < size + ALLOCATION_ALIGNMENT_SIZE &&
              (r == size <==> size % ALLOCATION_ALIGNMENT_SIZE == 0)
  {
    var remainder := size % ALLOCATION_ALIGNMENT_SIZE;
    ToU64(size + remainder)
  }

  /** 40 becomes 48, which is not a multiple of 32; and the largest uint64
      wraps to 30. The pool descriptor size 64 is kept as it is. */
  lemma NearestBoundaryCounterexamples()
    ensures NearestBoundary(40) == 48 && NearestBoundary(40) % ALLOCATION_ALIGNMENT_SIZE != 0
    ensures NearestBoundary(U64_MODULUS - 1) == 30
    ensures NearestBoundary(64) == 64
  {
  }

  // --- __sfa_request_size_to_minimum_pool_size -------------------------------

  /** `size / g + (size % g > 0)`: the number of granularity units covering
      `size`, i.e. the ceiling of size / g. */
  function PagesRequired(size: u64, g: u64): (pages: u64)
    requires g > 0
    ensures pages * g >= size
    ensures pages == 0 || (pages - 1) * g < size
  {
    var q := size / g;
    var m := size % g;
    assert size == q * g + m;
    if m > 0 then
      assert g > 1;
      HalfBound(size, g);
      q + 1
    else q
  }

  lemma {:induction false} HalfBound(size: u64, g: u64)
    requires g > 1
    ensures size / g + 1 < U64_MODULUS
  {
    assert size / g <= size / 2 by { DivisorMonotone(size, 2, g); }
  }

  lemma {:induction false} DivisorMonotone(x: nat, a: nat, b: nat)
    requires 0 < a <= b
    ensures x / b <= x / a
  {
    var qa, qb := x / a, x / b;
    assert x == qa * a + x % a;
    assert x == qb * b + x % b;
    MulLe(a, b, qb);
    MulLe(qb, qa, a);
    assert qb * a <= x < (qa + 1) * a;
    MulLe(qa + 1, qb, a);
  }

  /** Multiplication by a non-negative factor is monotone. */
  lemma MulLe(x: int, y: int, c: int)
    ensures c >= 0 && x <= y ==> x * c <= y * c
  {
  }

  /** The number of units a pool is given: at least MINIMUM_PAGES_PER_POOL. */
  function PoolPages(size: u64, g: u64): (pages: u64)
    requires g > 0
    ensures pages >= MINIMUM_PAGES_PER_POOL && pages >= PagesRequired(size, g)
    ensures pages == MINIMUM_PAGES_PER_POOL || pages == PagesRequired(size, g)
  {
    var pages := PagesRequired(size, g);
    if pages > MINIMUM_PAGES_PER_POOL then pages else MINIMUM_PAGES_PER_POOL
  }

  /** `pages_required * pool_size`, a uint64 product. */
  function MinimumPoolSize(size: u64, g: u64): u64
    requires g > 0
  {
    ToU64(PoolPages(size, g) * g)
  }

  /** The product `pages_required * pool_size` does not wrap. */
  predicate PoolSizeFits(size: u64, g: u64)
    requires g > 0
  {
    PoolPages(size, g) * g < U64_MODULUS
  }

  /** Without wrap-around the pool size is a multiple of the granularity,
      covers the request and spans at least four units. */
  lemma {:induction false} MinimumPoolSizeBounds(size: u64, g: u64)
    requires g > 0 && PoolSizeFits(size, g)
    ensures MinimumPoolSize(size, g) == PoolPages(size, g) * g
    ensures MinimumPoolSize(size, g) % g == 0
    ensures MinimumPoolSize(size, g) >= size
    ensures MinimumPoolSize(size, g) >= MINIMUM_PAGES_PER_POOL * g
  {
    var pages := PoolPages(size, g);
    assert MinimumPoolSize(size, g) == pages * g;
    MulLe(PagesRequired(size, g), pages, g);
    MulLe(MINIMUM_PAGES_PER_POOL, pages, g);
    MultipleHasNoRemainder(pages, g);
  }

  /** Euclidean division is determined by quotient and remainder. */
  lemma {:induction false} DivModUnique(x: int, q: int, r: int, g: int)
    requires g > 0 && 0 <= r < g && x == q * g + r
    ensures x / g == q && x % g == r
  {
    var d := q - x / g;
    assert x == (x / g) * g + x % g;
    assert d * g == x % g - r;
    MulLe(1, d, g);
    MulLe(d, -1, g);
  }

  lemma MultipleHasNoRemainder(k: int, g: int)
    requires g > 0
    ensures (k * g) % g == 0
  {
    DivModUnique(k * g, k, 0, g);
  }

  /** Without wrap-around the pool size is the least multiple of the
      granularity that is at least both the request and four units. */
  lemma {:induction false} MinimumPoolSizeIsLeast(size: u64, g: u64, m: int)
    requires g > 0 && PoolSizeFits(size, g)
    requires m >= 0 && m % g == 0 && m >= size && m >= MINIMUM_PAGES_PER_POOL * g
    ensures MinimumPoolSize(size, g) <= m
  {
    var k := m / g;
    assert m == k * g by { assert m == (m / g) * g + m % g; }
    var pages := PoolPages(size, g);
    assert MinimumPoolSize(size, g) == pages * g;
    CeilingIsLeast(size, g, k);
    MulLe(k, MINIMUM_PAGES_PER_POOL - 1, g);
    MulLe(pages, k, g);
  }

  /** No smaller unit count than PagesRequired covers the request. */
  lemma {:induction false} CeilingIsLeast(size: u64, g: u64, k: int)
    requires g > 0 && k * g >= size
    ensures PagesRequired(size, g) <= k
  {
    var required: int := PagesRequired(size, g);
    MulLe(k, required - 1, g);
  }

  /** No wrap-around happens for any request up to 2^64 - g when four units
      fit in a uint64. */
  lemma {:induction false} PoolSizeFitsBelowLastUnit(size: u64, g: u64)
    requires g > 0 && MINIMUM_PAGES_PER_POOL * g < U64_MODULUS
    requires size <= U64_MODULUS - g
    ensures PoolSizeFits(size, g)
  {
    var required := PagesRequired(size, g);
    if required > 0 {
      assert (required - 1) * g < size;
      assert required * g < size + g;
    }
  }

  /** With the 64 KiB Windows granularity, the largest request wraps to a
      zero-byte pool: 2^48 units of 2^16 bytes is 2^64. */
  lemma MinimumPoolSizeWrapsToZero()
    ensures PagesRequired(U64_MODULUS - 1, 0x1_0000) == 0x1_0000_0000_0000
    ensures MinimumPoolSize(U64_MODULUS - 1, 0x1_0000) == 0
  {
    var size := U64_MODULUS - 1;
    assert size == 0xFFFF_FFFF_FFFF * 0x1_0000 + 0xFFFF;
    assert size / 0x1_0000 == 0xFFFF_FFFF_FFFF;
    assert size % 0x1_0000 == 0xFFFF;
  }

  /** The default initial pool is 256 KiB. With the 64 KiB Windows
      granularity it is exactly the four-unit minimum; with 4 KiB pages it is
      64 units. Either way the reservation is exactly 256 KiB. */
  lemma {:induction false} DefaultInitialPoolReservation()
    ensures DEFAULT_INITIAL_POOL_SIZE == 0x4_0000
    ensures PoolPages(DEFAULT_INITIAL_POOL_SIZE, 0x1_0000) == MINIMUM_PAGES_PER_POOL
    ensures MinimumPoolSize(DEFAULT_INITIAL_POOL_SIZE, 0x1_0000) == 0x4_0000
    ensures PoolPages(DEFAULT_INITIAL_POOL_SIZE, 0x1000) == 64
    ensures MinimumPoolSize(DEFAULT_INITIAL_POOL_SIZE, 0x1000) == 0x4_0000
  {
    UnitsScaleByPowersOf1024(256);
  }

  // --- __sfa_request_size_to_minimum_alloc_size ------------------------------

  /** The request, raised to the minimum allocation size. */
  function MinimumAllocSize(size: u64): (r: u64)
    ensures r >= ALLOCATION_MINIMUM_SIZE && r >= size
    ensures r == size || r == ALLOCATION_MINIMUM_SIZE
  {
    if size > ALLOCATION_MINIMUM_SIZE then size else ALLOCATION_MINIMUM_SIZE
  }

  /** Requests of at least the minimum size pass unchanged, and normalising
      twice is the same as normalising once. */
  lemma MinimumAllocSizeIdempotent(size: u64)
    ensures size >= ALLOCATION_MINIMUM_SIZE ==> MinimumAllocSize(size) == size
    ensures MinimumAllocSize(MinimumAllocSize(size)) == MinimumAllocSize(size)
  {
  }
}
