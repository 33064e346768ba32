/**
  Read leases: a count per file id.  Dropping a guard takes two steps on the map, a decrement and the
  removal of the slot if its count is still zero; other readers may acquire in between.
*/
module Lease {

  type Counts = map<nat, nat>

  function CountOf(counts: Counts, id: nat): nat {
    if id in counts then counts[id] else 0
  }

  function Incremented(counts: Counts, id: nat): Counts {
    counts[id := CountOf(counts, id) + 1]
  }

  /** Saturating, and without effect on a missing slot. */
  function Decremented(counts: Counts, id: nat): Counts {
    if id in counts then counts[id := if counts[id] == 0 then 0 else counts[id] - 1] else counts
  }

  function RemovedIfZero(counts: Counts, id: nat): Counts {
    if id in counts && counts[id] == 0 then counts - {id} else counts
  }

  predicate Leased(counts: Counts, id: nat) {
    id in counts && counts[id] > 0
  }

  /** The counts are those of the live guards, and an idle slot is about to be removed. */
  ghost predicate Exact(counts: Counts, held: multiset<nat>, releasing: multiset<nat>) {
    && (forall id :: CountOf(counts, id) == held[id])
    && (forall id :: id in counts && counts[id] == 0 ==> id in releasing)
  }

  /**
    The registry.  Each of the four small methods is one atomic step on the shared map, so calls in any
    order are the interleavings of any number of readers.
  */
  class FileLeaseRegistry {
    var counts: Counts
    ghost var held: multiset<nat>        // live guards
    ghost var releasing: multiset<nat>   // dropped guards whose slot is still to be looked at

    ghost predicate Valid()
      reads this
    {
      Exact(counts, held, releasing)
    }

    constructor ()
      ensures Valid() && held == multiset{} && releasing == multiset{}
    {
      counts, held, releasing := map[], multiset{}, multiset{};
    }

    method AcquireOne(id: nat)
      requires Valid()
      modifies this
      ensures Valid() && counts == Incremented(old(counts), id)
      ensures held == old(held) + multiset{id} && releasing == old(releasing)
    {
      counts := counts[id := (if id in counts then counts[id] else 0) + 1];
      held := held + multiset{id};
    }

    /** One guard per id, in the order of the ids. */
    method Acquire(ids: seq<nat>) returns (leases: seq<nat>)
      requires Valid()
      modifies this
      ensures Valid() && leases == ids
      ensures held == old(held) + multiset(ids) && releasing == old(releasing)
    {
      leases := [];
      for i := 0 to |ids|
        invariant Valid() && leases == ids[..i]
        invariant held == old(held) + multiset(ids[..i]) && releasing == old(releasing)
      {
        assert ids[..i + 1] == ids[..i] + [ids[i]];
        AcquireOne(ids[i]);
        leases := leases + [ids[i]];
      }
      assert ids[..|ids|] == ids;
    }

    method IsLeased(id: nat) returns (leased: bool)
      requires Valid()
      ensures leased <==> id in held
    {
      leased := id in counts && counts[id] > 0;
      assert CountOf(counts, id) == held[id];
    }

    /** First step of a drop. */
    method Decrement(id: nat) returns (shouldRemove: bool)
      requires Valid() && id in held
      modifies this
      ensures Valid() && counts == Decremented(old(counts), id)
      ensures held == old(held) - multiset{id}
      ensures shouldRemove <==> held[id] == 0
      ensures releasing == if shouldRemove then old(releasing) + multiset{id} else old(releasing)
    {
      assert CountOf(counts, id) == held[id];
      counts := counts[id := counts[id] - 1];
      shouldRemove := counts[id] == 0;
      held := held - multiset{id};
      if shouldRemove { releasing := releasing + multiset{id}; }
    }

    /** Second step: the slot goes only if nobody has acquired it since. */
    method RemoveIfZero(id: nat)
      requires Valid() && id in releasing
      modifies this
      ensures Valid() && counts == RemovedIfZero(old(counts), id)
      ensures held == old(held) && releasing == old(releasing) - multiset{id}
    {
      if id in counts && counts[id] == 0 {
        counts := counts - {id};
      }
      releasing := releasing - multiset{id};
    }

    /** Both steps with nothing in between. */
    method Release(id: nat)
      requires Valid() && id in held
      modifies this
      ensures Valid() && held == old(held) - multiset{id} && releasing == old(releasing)
    {
      var shouldRemove := Decrement(id);
      if shouldRemove { RemoveIfZero(id); }
    }
  }
}
