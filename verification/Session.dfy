/** The single-owner slot an attempt task leases for its lifetime. */
module Session {
  import opened Basics

  /** The slot after `generation` asks for it. */
  function Acquired(slot: Option<nat>, generation: nat): Option<nat> {
    if slot.None? then Some(generation) else slot
  }

  /** The slot after the lease of `generation` drops. */
  function Released(slot: Option<nat>, generation: nat): Option<nat> {
    if slot == Some(generation) then None else slot
  }

  class AttemptSlot {
    var active: Option<nat>

    constructor ()
      ensures active == None
    {
      active := None;
    }

    /** Grants the lease exactly when nobody holds the slot; a refusal changes nothing. */
    method Acquire(generation: nat) returns (granted: bool)
      modifies this
      ensures granted <==> old(active).None?
      ensures active == Acquired(old(active), generation)
      ensures active == if granted then Some(generation) else old(active)
    {
      if active.Some? {
        return false;
      }
      active := Some(generation);
      granted := true;
    }

    /** Run by the lease's drop: hands the slot back only if this generation still owns it. */
    method Release(generation: nat)
      modifies this
      ensures active == Released(old(active), generation)
      ensures active == if old(active) == Some(generation) then None else old(active)
    {
      if active == Some(generation) {
        active := None;
      }
    }
  }
}
