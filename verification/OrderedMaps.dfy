/**
 The insertion-ordered map, a list with an index of handles into it, and the loops that
 drop its expired front.
 */
module OrderedMaps {
  import opened Bytes
  import opened Wrappers

  datatype Entry<K, V> = Entry(key: K, value: V)

  // ---------------------------------------------------------------- association lists

  predicate Distinct<K(==), V>(list: seq<Entry<K, V>>) {
    forall i, j | 0 <= i < j < |list| :: list[i].key != list[j].key
  }

  predicate Has<K(==), V>(list: seq<Entry<K, V>>, key: K) {
    exists i | 0 <= i < |list| :: list[i].key == key
  }

  function Lookup<K(==), V>(list: seq<Entry<K, V>>, key: K): Option<V> {
    if list == [] then None
    else if list[0].key == key then Some(list[0].value)
    else Lookup(list[1..], key)
  }

  /** A new key goes to the end; a known one keeps its place and its value. */
  function Emplaced<K(==), V>(list: seq<Entry<K, V>>, key: K, value: V): seq<Entry<K, V>> {
    if Has(list, key) then list else list + [Entry(key, value)]
  }

  function Erased<K(==), V>(list: seq<Entry<K, V>>, key: K): seq<Entry<K, V>> {
    if list == [] then []
    else if list[0].key == key then list[1..]
    else [list[0]] + Erased(list[1..], key)
  }

  lemma {:induction false} LookupAt<K, V>(list: seq<Entry<K, V>>, key: K)
    ensures Lookup(list, key).Some? <==> Has(list, key)
    ensures Lookup(list, key).Some? ==>
              exists i | 0 <= i < |list| :: list[i].key == key && list[i].value == Lookup(list, key).value
  {
    if list != [] && list[0].key != key {
      LookupAt(list[1..], key);
      if Has(list, key) {
        var i :| 0 <= i < |list| && list[i].key == key;
        assert list[1..][i - 1].key == key;
      }
    }
  }

  /** The first write of a key wins, and no other key is touched. */
  lemma {:induction false} LookupEmplaced<K, V>(list: seq<Entry<K, V>>, key: K, value: V, k: K)
    ensures Lookup(Emplaced(list, key, value), k) ==
            if k == key && !Has(list, key) then Some(value) else Lookup(list, k)
  {
    if !Has(list, key) {
      LookupSnoc(list, Entry(key, value), k);
      LookupAt(list, key);
    }
  }

  lemma {:induction false} LookupSnoc<K, V>(list: seq<Entry<K, V>>, e: Entry<K, V>, k: K)
    ensures Lookup(list + [e], k) == if Lookup(list, k).Some? then Lookup(list, k)
                                     else if k == e.key then Some(e.value) else None
  {
    if list == [] {
      assert ([e] + [])[1..] == [];
    } else {
      assert (list + [e])[1..] == list[1..] + [e];
      LookupSnoc(list[1..], e, k);
    }
  }

  /** Erasing forgets the one key. */
  lemma {:induction false} LookupErased<K, V>(list: seq<Entry<K, V>>, key: K, k: K)
    requires Distinct(list)
    ensures Lookup(Erased(list, key), k) == if k == key then None else Lookup(list, k)
  {
    if list != [] {
      if list[0].key == key {
        LookupAt(list[1..], key);
      } else {
        LookupErased(list[1..], key, k);
        var rest := Erased(list[1..], key);
        assert ([list[0]] + rest)[1..] == rest;
      }
    }
  }

  lemma {:induction false} ErasedAt<K, V>(list: seq<Entry<K, V>>, p: nat)
    requires Distinct(list) && p < |list|
    ensures Erased(list, list[p].key) == list[..p] + list[p + 1..]
  {
    if p > 0 {
      ErasedAt(list[1..], p - 1);
      assert list[..p] == [list[0]] + list[1..][..p - 1];
    }
  }

  lemma {:induction false} ErasedNothing<K, V>(list: seq<Entry<K, V>>, key: K)
    requires !Has(list, key)
    ensures Erased(list, key) == list
  {
    if list != [] {
      assert list[0].key != key;
      assert forall i | 0 <= i < |list[1..]| :: list[1..][i] == list[i + 1];
      ErasedNothing(list[1..], key);
    }
  }

  // ---------------------------------------------------------------- the map

  /** A list node. Its id stands for its address: it stays when other nodes come and go. */
  datatype Node<K, V> = Node(id: nat, entry: Entry<K, V>)

  /** The index holds, for exactly the keys of the list, the handle of their node. */
  ghost predicate Linked<K, V>(list: seq<Node<K, V>>, index: map<K, nat>, next: nat) {
    && (forall i, j | 0 <= i < j < |list| :: list[i].id != list[j].id)
    && (forall i | 0 <= i < |list| :: list[i].id < next)
    && (forall i | 0 <= i < |list| :: list[i].entry.key in index && index[list[i].entry.key] == list[i].id)
    && (forall k | k in index :: exists i | 0 <= i < |list| :: list[i].entry.key == k)
  }

  function EntriesOf<K, V>(list: seq<Node<K, V>>): (r: seq<Entry<K, V>>)
    ensures |r| == |list|
  {
    seq(|list|, i requires 0 <= i < |list| => list[i].entry)
  }

  lemma EntryAt<K, V>(list: seq<Node<K, V>>, p: nat)
    requires p < |list|
    ensures EntriesOf(list)[p] == list[p].entry
  {
  }

  lemma LinkedKnows<K, V>(list: seq<Node<K, V>>, index: map<K, nat>, next: nat, key: K)
    requires Linked(list, index, next)
    ensures Distinct(EntriesOf(list))
    ensures key in index <==> Has(EntriesOf(list), key)
  {
    if key in index {
      var i :| 0 <= i < |list| && list[i].entry.key == key;
      assert EntriesOf(list)[i].key == key;
    }
    if Has(EntriesOf(list), key) {
      var i :| 0 <= i < |EntriesOf(list)| && EntriesOf(list)[i].key == key;
      assert list[i].entry.key == key;
    }
  }

  lemma LinkedAppend<K, V>(list: seq<Node<K, V>>, index: map<K, nat>, next: nat, key: K, value: V)
    requires Linked(list, index, next) && key !in index
    ensures Linked(list + [Node(next, Entry(key, value))], index[key := next], next + 1)
  {
    var after := list + [Node(next, Entry(key, value))];
    assert forall i | 0 <= i < |list| :: after[i] == list[i];
    assert after[|list|].entry.key == key;
    forall k | k in index
      ensures exists i | 0 <= i < |after| :: after[i].entry.key == k
    {
      var i :| 0 <= i < |list| && list[i].entry.key == k;
      assert after[i].entry.key == k;
    }
  }

  lemma Unlinked<K, V>(list: seq<Node<K, V>>, p: nat)
    requires p < |list|
    ensures var after := list[..p] + list[p + 1..];
            && (forall i | 0 <= i < p :: after[i] == list[i])
            && (forall i | p <= i < |after| :: after[i] == list[i + 1])
            && (forall i | p < i < |list| :: list[i] == after[i - 1])
    ensures EntriesOf(list[..p] + list[p + 1..]) == EntriesOf(list)[..p] + EntriesOf(list)[p + 1..]
  {
  }

  lemma UnlinkedKeys<K, V>(list: seq<Node<K, V>>, index: map<K, nat>, next: nat, p: nat, k: K)
    requires Linked(list, index, next) && p < |list| && k in index && k != list[p].entry.key
    ensures var after := list[..p] + list[p + 1..];
            exists i | 0 <= i < |after| :: after[i].entry.key == k
  {
    hide EntriesOf;
    Unlinked(list, p);
    var i :| 0 <= i < |list| && list[i].entry.key == k;
    assert (list[..p] + list[p + 1..])[if i < p then i else i - 1].entry.key == k;
  }

  lemma UnlinkedNode<K, V>(list: seq<Node<K, V>>, index: map<K, nat>, next: nat, p: nat, i: nat)
    requires Linked(list, index, next) && p < |list| && i < |list| && i != p
    ensures list[i].id < next && list[i].id != list[p].id
    ensures list[i].entry.key in index - {list[p].entry.key} && index[list[i].entry.key] == list[i].id
  {
  }

  lemma LinkedUnlink<K, V>(list: seq<Node<K, V>>, index: map<K, nat>, next: nat, p: nat)
    requires Linked(list, index, next) && p < |list|
    ensures Linked(list[..p] + list[p + 1..], index - {list[p].entry.key}, next)
  {
    var after, rest := list[..p] + list[p + 1..], index - {list[p].entry.key};
    forall i | 0 <= i < |after|
      ensures after[i].id < next && after[i].entry.key in rest && rest[after[i].entry.key] == after[i].id
    {
      UnlinkedNode(list, index, next, p, if i < p then i else i + 1);
    }
    forall i, j | 0 <= i < j < |after|
      ensures after[i].id != after[j].id
    {
      LinkedApart(list, index, next, if i < p then i else i + 1, if j < p then j else j + 1);
    }
    hide Linked;
    forall k | k in rest
      ensures exists i | 0 <= i < |after| :: after[i].entry.key == k
    {
      UnlinkedKeys(list, index, next, p, k);
    }
    IsLinked(after, rest, next);
  }

  lemma LinkedApart<K, V>(list: seq<Node<K, V>>, index: map<K, nat>, next: nat, i: nat, j: nat)
    requires Linked(list, index, next) && i < j < |list|
    ensures list[i].id != list[j].id
  {
  }

  lemma IsLinked<K, V>(list: seq<Node<K, V>>, index: map<K, nat>, next: nat)
    requires forall i, j | 0 <= i < j < |list| :: list[i].id != list[j].id
    requires forall i | 0 <= i < |list| ::
               list[i].id < next && list[i].entry.key in index && index[list[i].entry.key] == list[i].id
    requires forall k | k in index :: exists i | 0 <= i < |list| :: list[i].entry.key == k
    ensures Linked(list, index, next)
  {
  }

  class OrderedMap<K(==), V> {
    var list: seq<Node<K, V>>
    var index: map<K, nat>
    var next: nat

    ghost predicate Valid()
      reads this
    {
      Linked(list, index, next)
    }

    /** What the map stands for. */
    function Entries(): (r: seq<Entry<K, V>>)
      reads this
      ensures |r| == |list|
    {
      EntriesOf(list)
    }

    constructor ()
      ensures Valid() && Entries() == []
    {
      list, index, next := [], map[], 0;
    }

    /** Follows a handle. */
    method PositionOf(id: nat) returns (p: nat)
      requires exists i | 0 <= i < |list| :: list[i].id == id
      ensures p < |list| && list[p].id == id
    {
      p := 0;
      while list[p].id != id
        invariant p < |list| && exists i | p <= i < |list| :: list[i].id == id
        decreases |list| - p
      {
        p := p + 1;
      }
    }

    method Find(key: K) returns (r: Option<V>)
      requires Valid()
      ensures r == Lookup(Entries(), key)
    {
      LinkedKnows(list, index, next, key);
      LookupAt(Entries(), key);
      if key !in index {
        return None;
      }
      var p := PositionOf(index[key]);
      assert Entries()[p].key == key;
      return Some(list[p].entry.value);
    }

    method Emplace(key: K, value: V) returns (inserted: bool)
      requires Valid()
      modifies this
      ensures Valid() && inserted == !Has(old(Entries()), key)
      ensures Entries() == Emplaced(old(Entries()), key, value)
    {
      hide Linked, Has;
      LinkedKnows(list, index, next, key);
      if key in index {
        return false;
      }
      LinkedAppend(list, index, next, key, value);
      list := list + [Node(next, Entry(key, value))];
      index := index[key := next];
      next := next + 1;
      return true;
    }

    /** The handle from the index tells which node is unlinked. */
    method Erase(key: K) returns (count: nat)
      requires Valid()
      modifies this
      ensures Valid() && count == if Has(old(Entries()), key) then 1 else 0
      ensures Entries() == Erased(old(Entries()), key)
    {
      hide Has, Distinct, Erased, EntriesOf;
      LinkedKnows(list, index, next, key);
      if key !in index {
        ErasedNothing(Entries(), key);
        return 0;
      }
      var p := PositionOf(index[key]);
      hide Linked;
      EntryAt(list, p);
      ErasedAt(Entries(), p);
      Unlinked(list, p);
      LinkedUnlink(list, index, next, p);
      index := index - {key};
      list := list[..p] + list[p + 1..];
      return 1;
    }

    /** The front of the list. */
    method Begin() returns (r: Entry<K, V>)
      requires Valid() && |list| > 0
      ensures Entries() != [] && r == Entries()[0]
    {
      return list[0].entry;
    }

    method Clear()
      modifies this
      ensures Valid() && Entries() == []
    {
      list, index := [], map[];
    }
  }

  /** Erasing the key of the front takes the front. */
  lemma ErasedFront<K, V>(list: seq<Entry<K, V>>)
    requires list != []
    ensures Erased(list, list[0].key) == list[1..]
  {
  }

  // ---------------------------------------------------------------- expiry

  /** Each entry's time, as the cleanup loops read it. */
  predicate Sorted<K, V>(list: seq<Entry<K, V>>, time: V -> real) {
    forall i, j | 0 <= i < j < |list| :: time(list[i].value) <= time(list[j].value)
  }

  /** With a clock that does not go back, every emplacement and erasure keeps the times in order. */
  lemma SortedEmplaced<K, V>(list: seq<Entry<K, V>>, time: V -> real, key: K, value: V)
    requires Sorted(list, time) && forall i | 0 <= i < |list| :: time(list[i].value) <= time(value)
    ensures Sorted(Emplaced(list, key, value), time)
  {
  }

  lemma {:induction false} SortedErased<K, V>(list: seq<Entry<K, V>>, time: V -> real, key: K)
    requires Sorted(list, time)
    ensures Sorted(Erased(list, key), time)
    ensures forall e | e in Erased(list, key) :: e in list
  {
    if list != [] && list[0].key != key {
      SortedErased(list[1..], time, key);
      forall e | e in Erased(list[1..], key)
        ensures time(list[0].value) <= time(e.value)
      {
        var i :| 0 <= i < |list[1..]| && list[1..][i] == e;
        assert list[i + 1] == e;
      }
    }
  }

  /** The list without its longest front of expired entries. */
  function DropExpired<K, V>(list: seq<Entry<K, V>>, expired: V -> bool): seq<Entry<K, V>> {
    if list != [] && expired(list[0].value) then DropExpired(list[1..], expired) else list
  }

  function Unexpired<K, V>(list: seq<Entry<K, V>>, expired: V -> bool): seq<Entry<K, V>> {
    if list == [] then []
    else (if expired(list[0].value) then [] else [list[0]]) + Unexpired(list[1..], expired)
  }

  /** No expired entry stands behind one that is not. */
  predicate ExpiredFirst<K, V>(list: seq<Entry<K, V>>, expired: V -> bool) {
    forall i, j | 0 <= i < j < |list| :: expired(list[j].value) ==> expired(list[i].value)
  }

  lemma {:induction false} UnexpiredWhole<K, V>(list: seq<Entry<K, V>>, expired: V -> bool)
    ensures |Unexpired(list, expired)| <= |list|
    ensures Unexpired(list, expired) == list <==> forall i | 0 <= i < |list| :: !expired(list[i].value)
  {
    if list != [] {
      UnexpiredWhole(list[1..], expired);
      assert list == [list[0]] + list[1..];
      var rest := Unexpired(list[1..], expired);
      if expired(list[0].value) {
        assert Unexpired(list, expired) == rest;
      } else {
        assert Unexpired(list, expired)[1..] == rest;
        assert forall i | 1 <= i < |list| :: list[i] == list[1..][i - 1];
        assert forall i | 0 <= i < |list| - 1 :: list[1..][i] == list[i + 1];
      }
    }
  }

  lemma ExpiredFirstTail<K, V>(list: seq<Entry<K, V>>, expired: V -> bool)
    requires list != []
    ensures ExpiredFirst(list, expired) <==>
            if expired(list[0].value) then ExpiredFirst(list[1..], expired)
            else forall i | 0 <= i < |list| :: !expired(list[i].value)
  {
    assert forall i | 1 <= i < |list| :: list[i] == list[1..][i - 1];
    if expired(list[0].value) && ExpiredFirst(list[1..], expired) {
      forall i, j | 0 <= i < j < |list| && expired(list[j].value)
        ensures expired(list[i].value)
      {
        if i > 0 {
          assert expired(list[1..][j - 1].value) ==> expired(list[1..][i - 1].value);
        }
      }
    }
  }

  /** Dropping the expired front removes all that is expired exactly when that is all in front. */
  lemma {:induction false} DropExpiredExact<K, V>(list: seq<Entry<K, V>>, expired: V -> bool)
    ensures DropExpired(list, expired) == Unexpired(list, expired) <==> ExpiredFirst(list, expired)
  {
    hide ExpiredFirst;
    if list == [] {
      NothingExpired(list, expired);
    } else {
      ExpiredFirstTail(list, expired);
      UnexpiredWhole(list, expired);
      if expired(list[0].value) {
        DropExpiredExact(list[1..], expired);
        assert [] + Unexpired(list[1..], expired) == Unexpired(list[1..], expired);
      }
    }
  }

  lemma NothingExpired<K, V>(list: seq<Entry<K, V>>, expired: V -> bool)
    requires list == []
    ensures ExpiredFirst(list, expired)
  {
  }

  /** With times in order and one age limit, what is expired is in front. */
  lemma SortedExpiredFirst<K, V>(list: seq<Entry<K, V>>, time: V -> real, expired: V -> bool, limit: real)
    requires Sorted(list, time)
    requires (forall v :: expired(v) <==> time(v) < limit) || (forall v :: expired(v) <==> time(v) <= limit)
    ensures ExpiredFirst(list, expired)
  {
  }

  datatype SenderNonce = SenderNonce(time: real, gasPrice: nat)

  /** Clears the sender nonces up to a time and counts them. */
  method ClearSenderNonce<K(==)>(m: OrderedMap<K, SenderNonce>, time: real) returns (cleared: nat)
    requires m.Valid()
    modifies m
    ensures m.Valid() && m.Entries() == DropExpired(old(m.Entries()), (v: SenderNonce) => v.time <= time)
    ensures cleared == |old(m.Entries())| - |m.Entries()|
  {
    cleared := 0;
    var continueClear := true;
    ghost var was := m.Entries();
    ghost var expired := (v: SenderNonce) => v.time <= time;
    while |m.list| > 0 && continueClear
      invariant m.Valid() && cleared == |was| - |m.Entries()|
      invariant DropExpired(was, expired) == DropExpired(m.Entries(), expired)
      invariant !continueClear ==> m.Entries() == DropExpired(m.Entries(), expired)
      decreases |m.list|, continueClear
    {
      var first := m.Begin();
      if first.value.time <= time {
        ErasedFront(m.Entries());
        var _ := m.Erase(first.key);
        cleared := cleared + 1;
      } else {
        continueClear := false;
      }
    }
  }

  /** Drops the front of a removal history while it is too old or the history too long. */
  method CleanupHistory<K(==)>(m: OrderedMap<K, real>, now: real, expiration: real, maxItems: nat)
    requires m.Valid()
    modifies m
    ensures m.Valid()
    ensures m.Entries() == Recent(old(m.Entries()), now, expiration, maxItems)
  {
    ghost var was := m.Entries();
    while |m.list| > 0 && (now - m.list[0].entry.value > expiration || |m.list| > maxItems)
      invariant m.Valid() && Recent(was, now, expiration, maxItems) == Recent(m.Entries(), now, expiration, maxItems)
      decreases |m.list|
    {
      ErasedFront(m.Entries());
      RecentStep(m.Entries(), now, expiration, maxItems);
      var first := m.Begin();
      var _ := m.Erase(first.key);
    }
    assert m.Entries()[0..] == m.Entries();
  }

  /** The newest `maxItems` entries, without their expired front. */
  function Recent<K>(list: seq<Entry<K, real>>, now: real, expiration: real, maxItems: nat): seq<Entry<K, real>> {
    DropExpired(list[if |list| > maxItems then |list| - maxItems else 0..], (t: real) => now - t > expiration)
  }

  lemma RecentStep<K>(list: seq<Entry<K, real>>, now: real, expiration: real, maxItems: nat)
    requires list != [] && (now - list[0].value > expiration || |list| > maxItems)
    ensures Recent(list, now, expiration, maxItems) == Recent(list[1..], now, expiration, maxItems)
  {
    if |list| > maxItems {
      assert list[|list| - maxItems..] == list[1..][|list| - 1 - maxItems..];
    } else {
      assert list[0..] == list && list[1..][0..] == list[1..];
    }
  }

  /** With times in order the cleanup keeps exactly the unexpired ones among the newest `maxItems`. */
  lemma RecentExact<K>(list: seq<Entry<K, real>>, now: real, expiration: real, maxItems: nat)
    requires Sorted(list, (t: real) => t)
    ensures var newest := list[if |list| > maxItems then |list| - maxItems else 0..];
            Recent(list, now, expiration, maxItems) == Unexpired(newest, (t: real) => now - t > expiration)
  {
    var newest := list[if |list| > maxItems then |list| - maxItems else 0..];
    DropExpiredExact(newest, (t: real) => now - t > expiration);
  }

  /** With times in order the nonces that go are exactly those up to the time. */
  lemma ClearedExactly<K>(list: seq<Entry<K, SenderNonce>>, time: real)
    requires Sorted(list, (v: SenderNonce) => v.time)
    ensures var expired := (v: SenderNonce) => v.time <= time;
            DropExpired(list, expired) == Unexpired(list, expired)
  {
    DropExpiredExact(list, (v: SenderNonce) => v.time <= time);
  }
}
