# SFAllocator core, modelled in Dafny

SF allocator is a header-only C allocator (`sfallocator.h`) that reserves
pools of virtual memory from the operating system and is meant to carve them
into blocks. Only part of it has code. This project models that part:

- **Sizing** (`sizing.dfy`): the `SFA_BYTES` … `SFA_TERABYTES` unit macros (a chain in which each level is
  1024 times the level below) and
  the three request-size helpers `__sfa_request_size_to_nearest_boundary`,
  `__sfa_request_size_to_minimum_pool_size` and
  `__sfa_request_size_to_minimum_alloc_size`, with the constants alignment 32,
  minimum allocation 32 and at least 4 granularity units per pool. Every value
  is a `uint64_t`: the type `u64` holds 0 ≤ x < 2^64, and `ToU64` reduces
  modulo 2^64 wherever the C arithmetic can wrap (the macros, the sum in
  `nearest_boundary`, the product `pages_required * pool_size`).
- **Pool creation** (`pools.dfy`): `__sfa_create_pool`. Memory is an `Arena`
  of reservations. A pointer is a handle `(reservation index, byte offset)`
  and NULL is `Null`. Pool and allocation descriptors are records stored at
  their addresses. A fresh reservation is zero-filled, so a descriptor written
  into it starts as the all-zero record and the code then sets its fields.
  Header sizes assume the LP64 layout: the pool descriptor is 64 bytes (seven
  8-byte fields and a bool, padded) and the allocation descriptor is 40 bytes.
  The OS allocation granularity is the arena's constant `granularity`, which
  must be positive.
- **Allocator state** (`state.dfy`): `__sfa_get_state`, the lazily initialised
  static record with `initialized`, `head_pool` and `tail_pool`, as a class
  with one method.

Where the names and comments in `sfallocator.h` suggest one thing and the code
does another, the model follows the code:

- The name `__sfa_request_size_to_nearest_boundary`, the constant
  `SFA_ALLOCATION_ALIGNMENT_SIZE` it uses, and its use for the offset of the
  memory region (sfallocator.h:250) suggest a round-up to a multiple of 32.
  The code computes `size + size % 32` (sfallocator.h:205-206): for 40 that
  gives 48, which is not a multiple of 32. `NearestBoundary` is modelled as
  written and carries no alignment promise. The pool-descriptor size 64 is a
  multiple of 32, so the region offset is still 64.
- The comment at sfallocator.h:259 says the code sets the pool's initial free
  list, but `free_head` and `free_tail` (sfallocator.h:175-176) are never
  assigned. The buffer is zero-filled, so both stay NULL, and the initial
  block is reachable only through its address, the start of the memory
  region.
- `__sfa_create_pool` is declared to return the pool but has no `return`
  statement. `CreatePool` returns the pool handle, as evidently intended.
- `__sfa_get_state` assigns `false` to the two pointer fields. That is the
  null pointer, and the model writes `Null`.

## Model

| member | source | states |
|---|---|---|
| `Sizing.ToU64` | sfallocator.h:36 | The `(uint64_t)` conversion returns the input unchanged when it is already in range, and otherwise differs from it by a multiple of 2^64. |
| `Sizing.UnitIsPowerOf1024` | sfallocator.h:36-40 | Level k of the macro chain, where each macro is the uint64 product of 1024 and the one below, equals 1024^k·n reduced once modulo 2^64. The wrap-around of each intermediate product loses nothing. Proved by induction on k. |
| `Sizing.UnitsScaleByPowersOf1024` | sfallocator.h:37-40 | KILOBYTES, MEGABYTES, GIGABYTES and TERABYTES equal 2^10·n, 2^20·n, 2^30·n and 2^40·n modulo 2^64. |
| `Sizing.TerabytesKeepsLow24Bits` | sfallocator.h:40 | TERABYTES(n) is (n mod 2^24)·2^40, so arguments of 2^24 or more lose their high bits; below 2^24 it is exactly n·2^40. |
| `Sizing.NearestBoundary` | sfallocator.h:201-209 | If the uint64 sum does not wrap, the result lies in [size, size + 32), and it equals size exactly when size is a multiple of 32. |
| `Sizing.NearestBoundaryCounterexamples` | sfallocator.h:205-206 | 40 maps to 48, which is not a multiple of 32. The largest uint64 wraps to 30. The pool-descriptor size 64 maps to itself. |
| `Sizing.PagesRequired` | sfallocator.h:216 | `size / g + (size % g > 0)` is the ceiling of size/g: the least count of units whose total covers size. It never overflows a uint64. |
| `Sizing.CeilingIsLeast` | sfallocator.h:216 | No unit count smaller than the computed one covers the request. |
| `Sizing.PoolPages` | sfallocator.h:217-218 | The unit count is the larger of the required count and the minimum of 4 units per pool. |
| `Sizing.MinimumPoolSizeBounds` | sfallocator.h:211-221 | Without wrap-around, the pool size is units·g. It is a multiple of g, at least the request and at least 4·g. |
| `Sizing.MinimumPoolSizeIsLeast` | sfallocator.h:216-219 | Without wrap-around, no multiple of g that covers both the request and 4·g is smaller than the pool size. |
| `Sizing.PoolSizeFitsBelowLastUnit` | sfallocator.h:219 | If 4·g fits in a uint64, the product does not wrap for any request up to 2^64 − g. |
| `Sizing.MinimumPoolSizeWrapsToZero` | sfallocator.h:216-219 | With a 64 KiB granularity, a request of 2^64 − 1 needs 2^48 units, and the uint64 product wraps to a pool size of 0. |
| `Sizing.DefaultInitialPoolReservation` | sfallocator.h:54 | The default initial pool size is 256 KiB. At 64 KiB granularity that is the four-unit minimum, at 4 KiB it is 64 units, and either way the reservation is exactly 262144 bytes. |
| `Sizing.MinimumAllocSize` | sfallocator.h:223-231 | The result is at least 32 and at least the request, and it is one of the two, so it is their maximum. |
| `Sizing.MinimumAllocSizeIdempotent` | sfallocator.h:227-228 | A request of 32 or more passes unchanged. Normalising twice gives the same result as normalising once. |
| `Pools.InitialLayout` | sfallocator.h:250-266 | The pool header and its block tile the reservation. The region starts at offset 64 and runs to the end of the reservation. The block lies in the region and points back to the pool. Block payload plus 40 equals the region size. |
| `Pools.AddInitialPoolKeepsWellFormed` | sfallocator.h:239-266 | Adding a fresh reservation with its initial pool and block keeps every pool inside its own reservation and every block inside its pool's region. The new reservation holds exactly one block. |
| `Pools.Arena.CreatePool` | sfallocator.h:233-268 | Appends one reservation of `MinimumPoolSize(pool_size)` bytes, which is at least pool_size when the product does not wrap. It writes the header: next/prev/free_head/free_tail null, region at offset 64, region size plus offset equal to the reservation, occupancy 40, not large. It writes one free, coalescable block at the region start with null left/right, parent the new pool and size region − 40. Nothing else changes, the arena invariant is kept and the pool is returned. |
| `AllocatorState.State.constructor` | sfallocator.h:189 | The static record starts zeroed: not initialised, both pool pointers null. |
| `AllocatorState.State.GetState` | sfallocator.h:185-199 | Afterwards the state is initialised. The first call sets head and tail to null. A call on an initialised state changes nothing, so the call is idempotent. If head and tail were both null or both set before the call, they still are afterwards. The call returns the static record itself. |

## Left out

- `__sfa_virtual_alloc`, `__sfa_virtual_free` and `__sfa_virtual_size` are Win32 calls. A reservation is modelled as a fresh, zero-filled buffer that is simply appended to the arena. Reservation failure, which the code asserts against, is not modelled. The granularity is a positive constant of the arena.
- `Pools.Arena.CreatePool` requires the reservation to hold both headers (at least 104 bytes). The C code has no such check. Below that size it writes past the buffer, or it computes a wrapped region size, and that is undefined behaviour.
- The assertion at sfallocator.h:252 takes the remainder of a pointer and asserts that it is non-zero. It is ill-formed, so it is not modelled, and neither are the `SFA_ASSERT` macros.
- `sf_init`, `sf_alloc` and `sf_free` are stubs. `sf_init` creates a pool, discards it and never links it into the pool list. `sf_alloc` returns nothing. `sf_free` is empty. No pool list is therefore ever built.
- Block carving, best-fit and fast-fit pool search, the tail-exhausted flag and coalescing exist only as comments. There is no code to model.
- `sf_alloc_ext`, `sf_alloc_large`, `sf_memzero`, `sf_memset` and `sf_memcopy` exist only as commented-out declarations.
- Thread safety: the code has none and the model is single-threaded.
