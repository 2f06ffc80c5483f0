/** A map of transaction contents whose tracker counts the stored bytes. */
module ContentMaps {
  import opened Bytes

  /** The bytes of all entries together. */
  ghost function SumSizes<K>(m: map<K, seq<byte>>): nat {
    if m == map[] then 0
    else
      var k :| k in m;
      |m[k]| + SumSizes(m - {k})
  }

  lemma {:induction false} SumWithout<K>(m: map<K, seq<byte>>, k: K)
    requires k in m
    ensures SumSizes(m) == |m[k]| + SumSizes(m - {k})
  {
    var j :| j in m && SumSizes(m) == |m[j]| + SumSizes(m - {j});
    if j != k {
      SumWithout(m - {j}, k);
      SumWithout(m - {k}, j);
      assert m - {j} - {k} == m - {k} - {j};
    }
  }

  lemma SumWith<K>(m: map<K, seq<byte>>, k: K, v: seq<byte>)
    requires k !in m
    ensures SumSizes(m[k := v]) == SumSizes(m) + |v|
  {
    SumWithout(m[k := v], k);
    assert m[k := v] - {k} == m;
  }

  /** The entries and what the tracker has counted. */
  datatype ContentMap<K(==)> = ContentMap(entries: map<K, seq<byte>>, total: int) {
    ghost predicate Accounted() {
      total == SumSizes(entries)
    }

    /** The tracker is told before the map is asked whether the key is there. */
    function Emplace(key: K, value: seq<byte>): ContentMap<K> {
      ContentMap(if key in entries then entries else entries[key := value], total + |value|)
    }

    function Erase(key: K): ContentMap<K> {
      if key in entries then ContentMap(entries - {key}, total - |entries[key]|) else this
    }

    function SizeOf(key: K): nat {
      if key in entries then |entries[key]| else 0
    }

    /** Emplacing keeps the count right exactly for an absent key or an empty value. */
    lemma EmplaceExact(key: K, value: seq<byte>)
      requires Accounted()
      ensures Emplace(key, value).Accounted() <==> key !in entries || value == []
    {
      if key !in entries {
        SumWith(entries, key, value);
      }
    }

    /** Erasing keeps it right and frees what the entry took. */
    lemma EraseKeeps(key: K)
      requires Accounted()
      ensures Erase(key).Accounted() && Erase(key).total == total - SizeOf(key)
    {
      if key in entries {
        SumWithout(entries, key);
      }
    }
  }

  /** Emplaced twice, a value is counted twice. */
  lemma EmplacedTwice<K>(key: K, value: seq<byte>)
    requires value != []
    ensures var once := ContentMap(map[], 0).Emplace(key, value);
            once.Accounted() && !once.Emplace(key, value).Accounted() && once.Emplace(key, value).total == 2 * |value|
  {
    var none: ContentMap<K> := ContentMap(map[], 0);
    none.EmplaceExact(key, value);
    none.Emplace(key, value).EmplaceExact(key, value);
  }

  class MapWrapper<K(==)> {
    var entries: map<K, seq<byte>>
    var totalBytesAllocated: int

    function State(): ContentMap<K>
      reads this
    {
      ContentMap(entries, totalBytesAllocated)
    }

    constructor ()
      ensures State().Accounted() && entries == map[]
    {
      entries, totalBytesAllocated := map[], 0;
    }

    method Emplace(key: K, value: seq<byte>) returns (inserted: bool)
      modifies this
      ensures State() == old(State()).Emplace(key, value) && inserted == (key !in old(entries))
    {
      totalBytesAllocated := totalBytesAllocated + |value|;
      inserted := key !in entries;
      if inserted {
        entries := entries[key := value];
      }
    }

    method Erase(key: K)
      modifies this
      ensures State() == old(State()).Erase(key)
    {
      if key in entries {
        var value := entries[key];
        entries := entries - {key};
        totalBytesAllocated := totalBytesAllocated - |value|;
      }
    }

    method Clear()
      modifies this
      ensures State().Accounted() && entries == map[]
    {
      entries, totalBytesAllocated := map[], 0;
    }
  }
}
