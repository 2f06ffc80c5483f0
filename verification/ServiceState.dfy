/**
 The containers of the transaction service and what each operation makes of them. Times
 are parameters, and so is the order in which the short ids of a hash are met.
 */
module ServiceState {
  import opened Bytes
  import opened Wrappers
  import opened OrderedMaps
  import opened BucketContainers
  import opened ContentMaps

  const TX_COUNT_LEN := 4
  const SHA256_LEN := 32

  datatype Containers = Containers(
    pool: Pool<Sha256>,
    hashToSids: map<Sha256, set<ShortId>>,
    sidToHash: map<ShortId, Sha256>,
    contents: ContentMap<Sha256>,
    window: seq<Entry<Sha256, seq<ShortId>>>,
    assignTime: seq<Entry<ShortId, real>>,
    hashRemoved: seq<Entry<Sha256, real>>,
    sidRemoved: seq<Entry<ShortId, real>>)
  {
    predicate Valid() {
      pool.Valid()
    }

    predicate HasContents(h: Sha256) {
      h in contents.entries
    }

    predicate WasRemoved(h: Sha256) {
      Has(hashRemoved, h)
    }
  }

  /** The order lists every element once. */
  ghost predicate Enumerates(order: seq<ShortId>, s: set<ShortId>) {
    && (forall i, j | 0 <= i < j < |order| :: order[i] != order[j])
    && (forall x | x in order :: x in s) && (forall x | x in s :: x in order)
  }

  function AsSet(order: seq<ShortId>): set<ShortId> {
    set s | s in order
  }

  function ErasedAll(list: seq<Entry<ShortId, real>>, keys: seq<ShortId>): seq<Entry<ShortId, real>>
    decreases |keys|
  {
    if keys == [] then list else Erased(ErasedAll(list, keys[..|keys| - 1]), keys[|keys| - 1])
  }

  function EmplacedAll(list: seq<Entry<ShortId, real>>, keys: seq<ShortId>, time: real): seq<Entry<ShortId, real>>
    decreases |keys|
  {
    if keys == [] then list else Emplaced(EmplacedAll(list, keys[..|keys| - 1], time), keys[|keys| - 1], time)
  }

  /** The index access that makes an empty set for an unknown hash and puts it into the pool. */
  function Entered(c: Containers, h: Sha256): (r: Containers)
    requires c.Valid()
    ensures r.Valid() && h in r.hashToSids
  {
    if h in c.hashToSids then c
    else c.(hashToSids := c.hashToSids[h := {}], pool := Inserted(c.pool, h))
  }

  /** A short id that is already known stays with the hash it has. */
  function Assigned(c: Containers, h: Sha256, sid: ShortId, now: real): (r: Containers)
    requires c.Valid()
    ensures r.Valid()
  {
    if sid == NULL_TX_SID then c
    else
      var d := if sid in c.sidToHash then c
               else
                 var e := Entered(c, h);
                 e.(hashToSids := e.hashToSids[h := e.hashToSids[h] + {sid}], sidToHash := e.sidToHash[sid := h]);
      d.(assignTime := Emplaced(d.assignTime, sid, now))
  }

  /** Contents that are already known stay. */
  function WithContents(c: Containers, h: Sha256, content: seq<byte>): (r: Containers)
    requires c.Valid()
    ensures r.Valid()
  {
    if c.HasContents(h) then c else c.(contents := c.contents.Emplace(h, content))
  }

  /** The index and the pool without a hash, and without the short ids met in `order`. */
  function Unindexed(c: Containers, h: Sha256, order: seq<ShortId>, now: real): (r: Containers)
    requires c.Valid()
    ensures r.Valid() && r.contents == c.contents && r.window == c.window && r.hashRemoved == c.hashRemoved
  {
    c.(sidToHash := c.sidToHash - AsSet(order),
       assignTime := ErasedAll(c.assignTime, order),
       sidRemoved := EmplacedAll(c.sidRemoved, order, now),
       hashToSids := c.hashToSids - {h},
       pool := ErasedItem(c.pool, h))
  }

  /** How the short ids of the hash are met when it is removed. */
  ghost predicate HashOrder(c: Containers, h: Sha256, order: seq<ShortId>) {
    h in c.hashToSids ==> Enumerates(order, c.hashToSids[h])
  }

  function RemovedHash(c: Containers, h: Sha256, order: seq<ShortId>, now: real): (r: Containers)
    requires c.Valid()
    ensures r.Valid()
  {
    var d := if h in c.hashToSids then Unindexed(c, h, order, now) else c;
    d.(contents := d.contents.Erase(h), hashRemoved := Emplaced(d.hashRemoved, h, now))
  }

  /** How the other short ids of the hash are met when a short id is removed. */
  ghost predicate SidOrder(c: Containers, sid: ShortId, order: seq<ShortId>) {
    sid in c.sidToHash && c.sidToHash[sid] in c.hashToSids ==>
      var sids := c.hashToSids[c.sidToHash[sid]];
      if |sids| > 1 then Enumerates(order, sids - {sid}) else order == []
  }

  /** Removal by short id. `order` are the other short ids of its hash, reported as duplicates. */
  function RemovedSid(c: Containers, sid: ShortId, order: seq<ShortId>, now: real, later: real): (r: Containers)
    requires c.Valid()
    ensures r.Valid()
  {
    if sid !in c.sidToHash then c
    else
      var h := c.sidToHash[sid];
      var d := if h in c.hashToSids
               then var e := Unindexed(c, h, order, now); e.(sidRemoved := Emplaced(e.sidRemoved, sid, now))
               else c;
      d.(contents := d.contents.Erase(h), hashRemoved := Emplaced(d.hashRemoved, h, later),
         sidToHash := d.sidToHash - {sid}, assignTime := Erased(d.assignTime, sid))
  }

  function RemovedSize(c: Containers, sid: ShortId): nat {
    if sid in c.sidToHash then c.contents.SizeOf(c.sidToHash[sid]) else 0
  }

  function SeenTransaction(c: Containers, h: Sha256): (r: Containers)
    requires c.Valid()
    ensures r.Valid()
  {
    c.(pool := ErasedItem(c.pool, h))
  }

  /** The hashes of known short ids leave the pool. */
  function SeenSids(c: Containers, sids: seq<ShortId>): (r: Containers)
    requires c.Valid()
    ensures r.Valid() && r == c.(pool := r.pool)
    decreases |sids|
  {
    if sids == [] then c
    else
      var d := SeenSids(c, sids[..|sids| - 1]);
      var last := sids[|sids| - 1];
      if last in d.sidToHash then SeenTransaction(d, d.sidToHash[last]) else d
  }

  /** Emptying every container but the histories. The pool is cleared on its own and with the index. */
  function AllCleared(c: Containers, first: seq<(Sha256, nat)>, second: seq<(Sha256, nat)>): (r: Containers)
    requires c.Valid() && (forall e | e in first :: e.1 < |c.pool.buckets|) && (forall e | e in second :: e.1 < |c.pool.buckets|)
    ensures r.Valid()
  {
    c.(window := [], sidToHash := map[], contents := ContentMap(map[], 0), assignTime := [],
       pool := Cleared(Cleared(c.pool, first), second), hashToSids := map[])
  }

  // ---------------------------------------------------------------- the index

  /** Each short id is in the set of its hash, and each short id of a set belongs to that hash. */
  ghost predicate Mutual(hashToSids: map<Sha256, set<ShortId>>, sidToHash: map<ShortId, Sha256>) {
    && (forall s | s in sidToHash :: sidToHash[s] in hashToSids && s in hashToSids[sidToHash[s]])
    && (forall h, s | h in hashToSids && s in hashToSids[h] :: s in sidToHash && sidToHash[s] == h)
  }

  ghost predicate NoneEmpty(hashToSids: map<Sha256, set<ShortId>>) {
    forall h | h in hashToSids :: hashToSids[h] != {}
  }

  ghost predicate Timed(assignTime: seq<Entry<ShortId, real>>, sidToHash: map<ShortId, Sha256>) {
    Distinct(assignTime) && forall s: ShortId :: Has(assignTime, s) <==> s in sidToHash
  }
}
