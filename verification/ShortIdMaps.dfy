/** The map from hashes to short ids: what enters or leaves it also enters or leaves the pool linked to it. */
module ShortIdMaps {
  import opened Bytes
  import B = BucketContainers

  class Sha256ToShortIdsMap {
    const notSeen: B.SafeBucketContainer<Sha256>
    var entries: map<Sha256, set<ShortId>>

    ghost predicate Valid()
      reads this, notSeen
    {
      notSeen.Valid()
    }

    constructor (notSeen: B.SafeBucketContainer<Sha256>)
      ensures this.notSeen == notSeen && entries == map[]
    {
      this.notSeen, entries := notSeen, map[];
    }

    /** The index access: an unknown hash gets an empty set, and enters the pool. */
    method Access(h: Sha256) returns (sids: set<ShortId>)
      requires Valid()
      modifies this, notSeen
      ensures Valid() && h in entries && sids == entries[h]
      ensures entries == if h in old(entries) then old(entries) else old(entries)[h := {}]
      ensures notSeen.State() == if h in old(entries) then old(notSeen.State()) else B.Inserted(old(notSeen.State()), h)
    {
      if h !in entries {
        entries := entries[h := {}];
        notSeen.Insert(h);
      }
      sids := entries[h];
    }

    /** Inserts into the set that was accessed. */
    method AddShortId(h: Sha256, sid: ShortId)
      requires h in entries
      modifies this
      ensures entries == old(entries)[h := old(entries)[h] + {sid}]
    {
      entries := entries[h := entries[h] + {sid}];
    }

    /** The hash also leaves the pool. */
    method Erase(h: Sha256)
      requires Valid()
      modifies this, notSeen
      ensures Valid() && entries == old(entries) - {h}
      ensures notSeen.State() == B.ErasedItem(old(notSeen.State()), h)
    {
      entries := entries - {h};
      notSeen.Erase(h);
    }

    /** So do all. `order` is the order in which they are met in the pool if it is being read. */
    method Clear() returns (ghost order: seq<(Sha256, nat)>)
      requires Valid()
      modifies this, notSeen
      ensures Valid() && entries == map[]
      ensures B.Enabled(old(notSeen.State()), B.Clear(order))
      ensures (forall e | e in order :: e.1 < |old(notSeen.buckets)|) && notSeen.State() == B.Cleared(old(notSeen.State()), order)
    {
      entries := map[];
      order := notSeen.Clear();
    }
  }
}
