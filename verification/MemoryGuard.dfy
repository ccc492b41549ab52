/** The byte ledger, used by one thread at a time (src/mining/core/memory_guard.rs).
    GuardProtocol has the same operations as separate atomic steps of many threads. */
module Memory {

  class MemoryGuard {
    var used: nat
    const budget: nat

    constructor (budget: nat)
      ensures used == 0 && this.budget == budget
    {
      this.budget := budget;
      used := 0;
    }

    method TryAlloc(bytes: nat) returns (granted: bool)
      modifies this
      ensures granted <==> old(used) + bytes <= budget
      ensures used == if granted then old(used) + bytes else old(used)
    {
      var prev := used;
      used := used + bytes;
      if prev + bytes > budget {
        used := used - bytes;
        granted := false;
      } else {
        granted := true;
      }
    }

    method ForceAlloc(bytes: nat)
      modifies this
      ensures used == old(used) + bytes
    {
      used := used + bytes;
    }

    /** Releasing more than is recorded stops at zero. */
    method Free(bytes: nat)
      modifies this
      ensures used == if bytes <= old(used) then old(used) - bytes else 0
    {
      used := used - if bytes < used then bytes else used;
    }
  }
}
