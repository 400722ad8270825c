/** The process-wide allocator state: a static record, zero-initialised,
    that `__sfa_get_state` initialises once on first use. */
module AllocatorState {
  import opened Pools

  class State {
    var initialized: bool
    var headPool: Ptr
    var tailPool: Ptr

    /** The pool list is either empty at both ends or at neither. Nothing in
        the source links a pool into the list, so no operation here requires
        this; it is the invariant that callers of GetState may assume, since
        the constructor establishes it and GetState keeps it. */
    ghost predicate Valid()
      reads this
    {
      headPool.Null? <==> tailPool.Null?
    }

    /** The static `state = {0}`: every field zero before the first call. */
    constructor ()
      ensures !initialized && headPool == Null && tailPool == Null
      ensures Valid()
    {
      initialized := false;
      headPool := Null;
      tailPool := Null;
    }

    /** `__sfa_get_state`: on the first call, clear both pool pointers and mark
        the state initialised; on every later call change nothing, so that
        calling it again is the same as calling it once. Returns the state
        itself. */
    method GetState() returns (state: State)
      modifies this
      ensures state == this
      ensures initialized
      ensures !old(initialized) ==> headPool == Null && tailPool == Null
      ensures old(initialized) ==> unchanged(this)
      ensures old(Valid()) || !old(initialized) ==> Valid()
    {
      if !initialized {
        headPool := Null;
        tailPool := Null;
        initialized := true;
      }
      state := this;
    }
  }
}
