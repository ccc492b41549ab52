/** Least-recently-used eviction (src/buffer_pool/eviction/lru.rs). */
module Lru {
  import opened PageLayout
  import opened Options

  class LruPolicy {
    var clock: nat
    var lastAccess: map<PageId, nat>

    ghost predicate Valid()
      reads this
    {
      && (forall p | p in lastAccess :: 1 <= lastAccess[p] <= clock)
      && (forall p, q | p in lastAccess && q in lastAccess && lastAccess[p] == lastAccess[q] :: p == q)
    }

    constructor ()
      ensures Valid() && lastAccess == map[] && clock == 0
    {
      clock := 0;
      lastAccess := map[];
    }

    /** on_access and on_insert are the same step: the page becomes the most recent one. */
    method Touch(id: PageId)
      requires Valid()
      modifies this
      ensures Valid() && clock == old(clock) + 1
      ensures lastAccess == old(lastAccess)[id := clock]
      ensures forall p | p in old(lastAccess) :: old(lastAccess[p]) < lastAccess[id]
    {
      clock := clock + 1;
      lastAccess := lastAccess[id := clock];
    }

    method OnEvict(id: PageId)
      requires Valid()
      modifies this`lastAccess
      ensures Valid() && lastAccess == old(lastAccess) - {id}
    {
      lastAccess := lastAccess - {id};
    }

    /** The unpinned page touched longest ago; none exactly when every listed page is pinned or unknown. */
    method PickVictim(frames: seq<(PageId, bool)>) returns (victim: Option<PageId>)
      ensures victim.None? <==> forall k | 0 <= k < |frames| :: frames[k].1 || frames[k].0 !in lastAccess
      ensures victim.Some? ==> (victim.value, false) in frames && victim.value in lastAccess
      ensures victim.Some? ==> forall k | 0 <= k < |frames| && !frames[k].1 && frames[k].0 in lastAccess ::
                lastAccess[victim.value] <= lastAccess[frames[k].0]
    {
      var minTime := 0;
      victim := None;
      for k := 0 to |frames|
        invariant victim.None? <==> forall i | 0 <= i < k :: frames[i].1 || frames[i].0 !in lastAccess
        invariant victim.Some? ==>
                    (victim.value, false) in frames && victim.value in lastAccess && lastAccess[victim.value] == minTime
        invariant victim.Some? ==>
                    forall i | 0 <= i < k && !frames[i].1 && frames[i].0 in lastAccess :: minTime <= lastAccess[frames[i].0]
      {
        var (id, pinned) := frames[k];
        if !pinned && id in lastAccess {
          if victim.None? || lastAccess[id] < minTime {
            minTime := lastAccess[id];
            victim := Some(id);
          }
        }
      }
    }
  }
}
