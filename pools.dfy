/** Pool creation: a reservation obtained from the virtual-memory backend gets
    a pool descriptor overlaid at its start and one free allocation descriptor
    spanning its usable region. Memory is an arena of reservations; a pointer
    is a (reservation, byte offset) handle and NULL is `Null`. */
module Pools {
  import opened Sizing

  /** sizeof(sfa_pool_descriptor) with LP64 layout: seven 8-byte fields and a
      bool padded to 8 bytes. */
  const POOL_DESCRIPTOR_SIZE: u64 := 7 * 8 + 8
  /** sizeof(sfa_allocation_descriptor): the 8-byte flags word, three pointers
      and the 8-byte size. */
  const ALLOCATION_DESCRIPTOR_SIZE: u64 := 5 * 8

  /** A byte address: the index of the reservation and the offset into it. */
  datatype Address = Address(reserve: nat, offset: nat)

  /** A pointer into the arena; `Null` is the C null pointer (all zero bits). */
  datatype Ptr = Null | To(address: Address)

  datatype PoolDescriptor = PoolDescriptor(
    nextPool: Ptr,
    prevPool: Ptr,
    freeHead: Ptr,
    freeTail: Ptr,
    memoryRegion: Ptr,
    memoryRegionSize: u64,
    memoryRegionOccupancy: u64,
    poolIsLarge: bool)

  /** The two used bits of `sfa_allocation_flags`. */
  datatype AllocationFlags = AllocationFlags(isOccupied: bool, isCoalescable: bool)

  datatype AllocationDescriptor = AllocationDescriptor(
    flags: AllocationFlags,
    leftDescriptor: Ptr,
    rightDescriptor: Ptr,
    parentPool: Ptr,
    allocationSize: u64)

  /** What a descriptor reads as in freshly reserved, zero-filled memory. */
  const ZERO_POOL_DESCRIPTOR := PoolDescriptor(Null, Null, Null, Null, Null, 0, 0, false)
  const ZERO_ALLOCATION_DESCRIPTOR := AllocationDescriptor(AllocationFlags(false, false), Null, Null, Null, 0)

  /** A reservation of `reserve` bytes holds the pool descriptor and, at the
      offset where the usable region starts, one allocation descriptor. */
  predicate CoversHeaders(reserve: u64)
  {
    NearestBoundary(POOL_DESCRIPTOR_SIZE) + ALLOCATION_DESCRIPTOR_SIZE <= reserve
  }

  /** The pool descriptor at the start of reservation `i` describes a region
      that lies after the descriptor and runs to the end of the reservation. */
  predicate PoolWellFormed(i: nat, pool: PoolDescriptor, reserve: u64)
  {
    && pool.memoryRegion.To?
    && pool.memoryRegion.address.reserve == i
    && POOL_DESCRIPTOR_SIZE <= pool.memoryRegion.address.offset
    && pool.memoryRegion.address.offset + pool.memoryRegionSize == reserve
  }

  /** The allocation descriptor at `at`, header and payload, lies inside the
      memory region of its pool, and points back to that pool. */
  predicate BlockInRegion(at: Address, block: AllocationDescriptor, pool: PoolDescriptor)
  {
    && pool.memoryRegion.To?
    && pool.memoryRegion.address.offset <= at.offset
    && at.offset + ALLOCATION_DESCRIPTOR_SIZE + block.allocationSize
       <= pool.memoryRegion.address.offset + pool.memoryRegionSize
    && block.parentPool == To(Address(at.reserve, 0))
  }

  /** The pool descriptor that `__sfa_create_pool` leaves in reservation `i`
      of `reserve` bytes. */
  function InitialPool(i: nat, reserve: u64): PoolDescriptor
    requires CoversHeaders(reserve)
  {
    var offset := NearestBoundary(POOL_DESCRIPTOR_SIZE);
    PoolDescriptor(Null, Null, Null, Null, To(Address(i, offset)),
                   reserve - offset, ALLOCATION_DESCRIPTOR_SIZE, false)
  }

  /** The free allocation descriptor that `__sfa_create_pool` leaves at the
      start of the usable region of reservation `i`. */
  function InitialBlock(i: nat, reserve: u64): AllocationDescriptor
    requires CoversHeaders(reserve)
  {
    var offset := NearestBoundary(POOL_DESCRIPTOR_SIZE);
    AllocationDescriptor(AllocationFlags(false, true), Null, Null, To(Address(i, 0)),
                         reserve - offset - ALLOCATION_DESCRIPTOR_SIZE)
  }

  /** The initial layout tiles the reservation: pool descriptor, region at
      offset 64, block header, and a free payload running exactly to the end. */
  lemma InitialLayout(i: nat, reserve: u64)
    requires CoversHeaders(reserve)
    ensures PoolWellFormed(i, InitialPool(i, reserve), reserve)
    ensures InitialPool(i, reserve).memoryRegion == To(Address(i, POOL_DESCRIPTOR_SIZE))
    ensures BlockInRegion(Address(i, POOL_DESCRIPTOR_SIZE), InitialBlock(i, reserve), InitialPool(i, reserve))
    ensures InitialBlock(i, reserve).allocationSize + ALLOCATION_DESCRIPTOR_SIZE
            == InitialPool(i, reserve).memoryRegionSize
    ensures POOL_DESCRIPTOR_SIZE + ALLOCATION_DESCRIPTOR_SIZE + InitialBlock(i, reserve).allocationSize
            == reserve
  {
    NearestBoundaryCounterexamples();
  }

  /** Every pool descriptor describes a region of its own reservation, and
      every allocation descriptor lies inside the region of its pool. */
  predicate ArenaWellFormed(reserves: seq<u64>, pools: map<nat, PoolDescriptor>,
                            allocations: map<Address, AllocationDescriptor>)
  {
    && (forall i :: i in pools ==> i < |reserves| && PoolWellFormed(i, pools[i], reserves[i]))
    && (forall at :: at in allocations ==>
          at.reserve in pools && BlockInRegion(at, allocations[at], pools[at.reserve]))
  }

  /** Adding a fresh reservation with its initial pool and block keeps the
      arena well formed, and the new reservation holds no other block. */
  lemma {:induction false} AddInitialPoolKeepsWellFormed(
    reserves: seq<u64>, pools: map<nat, PoolDescriptor>,
    allocations: map<Address, AllocationDescriptor>, reserve: u64)
    requires ArenaWellFormed(reserves, pools, allocations)
    requires CoversHeaders(reserve)
    ensures var i := |reserves|;
            var allocations' := allocations[Address(i, POOL_DESCRIPTOR_SIZE) := InitialBlock(i, reserve)];
            && i !in pools
            && ArenaWellFormed(reserves + [reserve], pools[i := InitialPool(i, reserve)], allocations')
            && (forall at :: at in allocations' && at.reserve == i ==> at == Address(i, POOL_DESCRIPTOR_SIZE))
  {
    var i := |reserves|;
    var reserves' := reserves + [reserve];
    var pools' := pools[i := InitialPool(i, reserve)];
    var allocations' := allocations[Address(i, POOL_DESCRIPTOR_SIZE) := InitialBlock(i, reserve)];
    InitialLayout(i, reserve);
    forall j | j in pools'
      ensures j < |reserves'| && PoolWellFormed(j, pools'[j], reserves'[j])
    {
      if j != i {
        assert reserves'[j] == reserves[j];
      }
    }
    forall at | at in allocations'
      ensures at.reserve in pools' && BlockInRegion(at, allocations'[at], pools'[at.reserve])
    {
      if at != Address(i, POOL_DESCRIPTOR_SIZE) {
        assert at in allocations && at.reserve in pools;
        assert at.reserve != i;
      }
    }
  }

  /** The address space: every reservation made so far with the descriptors
      written into it. */
  class Arena {
    /** The OS allocation granularity, queried once (`__sfa_virtual_size`). */
    const granularity: u64
    /** The size in bytes of each reservation, in the order obtained. */
    var reserves: seq<u64>
    /** Pool descriptors, by the reservation at whose offset 0 they sit. */
    var pools: map<nat, PoolDescriptor>
    /** Allocation descriptors, by address. */
    var allocations: map<Address, AllocationDescriptor>

    ghost predicate Valid()
      reads this
    {
      granularity > 0 && ArenaWellFormed(reserves, pools, allocations)
    }

    constructor (g: u64)
      requires g > 0
      ensures Valid()
      ensures granularity == g && reserves == [] && pools == map[] && allocations == map[]
    {
      granularity := g;
      reserves := [];
      pools := map[];
      allocations := map[];
    }

    /** `__sfa_create_pool`: reserve `MinimumPoolSize(poolSize)` zeroed bytes,
        overlay the pool descriptor at offset 0 and write one free block at
        the start of the usable region. Returns the pool. */
    method CreatePool(poolSize: u64) returns (pool: Ptr)
      requires Valid()
      requires CoversHeaders(MinimumPoolSize(poolSize, granularity))
      modifies this
      ensures Valid()
      ensures var i := |old(reserves)|;
              var reserve := MinimumPoolSize(poolSize, granularity);
              && i !in old(pools)
              && pool == To(Address(i, 0))
              && reserves == old(reserves) + [reserve]
              && pools == old(pools)[i := InitialPool(i, reserve)]
              && allocations == old(allocations)[Address(i, POOL_DESCRIPTOR_SIZE) := InitialBlock(i, reserve)]
      ensures PoolSizeFits(poolSize, granularity) ==> reserves[|old(reserves)|] >= poolSize
      ensures forall at :: at in allocations && at.reserve == |old(reserves)| ==>
                at == Address(|old(reserves)|, POOL_DESCRIPTOR_SIZE)
    {
      var actualReserveSize := MinimumPoolSize(poolSize, granularity);
      // The reservation: a fresh, zero-filled buffer of actualReserveSize bytes.
      var i := |reserves|;
      reserves := reserves + [actualReserveSize];
      pool := To(Address(i, 0));

      // The pool descriptor overlaid at offset 0 of the zeroed buffer.
      var header := ZERO_POOL_DESCRIPTOR;
      header := header.(nextPool := Null, prevPool := Null);

      var offsetSize := NearestBoundary(POOL_DESCRIPTOR_SIZE);
      var memoryOffset := Address(i, offsetSize);
      header := header.(memoryRegion := To(memoryOffset));
      header := header.(memoryRegionSize := actualReserveSize - offsetSize);
      header := header.(memoryRegionOccupancy := ALLOCATION_DESCRIPTOR_SIZE);
      header := header.(poolIsLarge := false);
      pools := pools[i := header];

      // The allocation descriptor overlaid at the start of the region.
      var freeTail := ZERO_ALLOCATION_DESCRIPTOR;
      freeTail := freeTail.(flags := freeTail.flags.(isOccupied := false));
      freeTail := freeTail.(flags := freeTail.flags.(isCoalescable := true));
      freeTail := freeTail.(leftDescriptor := Null, rightDescriptor := Null);
      freeTail := freeTail.(parentPool := pool);
      freeTail := freeTail.(allocationSize := header.memoryRegionSize - ALLOCATION_DESCRIPTOR_SIZE);
      allocations := allocations[memoryOffset := freeTail];

      assert offsetSize == POOL_DESCRIPTOR_SIZE by { NearestBoundaryCounterexamples(); }
      assert header == InitialPool(i, actualReserveSize);
      assert freeTail == InitialBlock(i, actualReserveSize);
      AddInitialPoolKeepsWellFormed(old(reserves), old(pools), old(allocations), actualReserveSize);
      if PoolSizeFits(poolSize, granularity) {
        MinimumPoolSizeBounds(poolSize, granularity);
      }
    }
  }
}
