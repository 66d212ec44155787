// The cache of reconstructed versions in database.cc: a bounded number of bytes, entries thrown out at random.
module VersionCache {

  type Id = string
  type Data = string

  /** The bytes held by all entries together. */
  ghost function Total(m: map<Id, Data>): nat
    decreases |m|
  {
    if m == map[] then 0 else
      var k :| k in m;
      |m[k]| + Total(m - {k})
  }

  lemma {:induction false} TotalWithout(m: map<Id, Data>, k: Id)
    requires k in m
    ensures Total(m) == |m[k]| + Total(m - {k})
    decreases |m|
  {
    var j :| j in m && Total(m) == |m[j]| + Total(m - {j});
    if j != k {
      TotalWithout(m - {j}, k);
      TotalWithout(m - {k}, j);
      assert m - {j} - {k} == m - {k} - {j};
    }
  }

  class Cache {
    const capacity: nat
    var used: nat
    var cache: map<Id, Data>

    /** At least the bytes that are there are counted. */
    ghost predicate Valid()
      reads this
    {
      used >= Total(cache)
    }

    /** Bytes counted that are not there. */
    ghost function Waste(): nat
      requires Valid()
      reads this
    {
      used - Total(cache)
    }

    constructor (capacity: nat)
      ensures Valid() && Waste() == 0 && cache == map[] && this.capacity == capacity
    {
      this.capacity := capacity;
      used, cache := 0, map[];
    }

    /** Entries are thrown out, in any order, until the new one fits or nothing is left. */
    method MakeRoom(size: nat)
      requires Valid()
      modifies this
      ensures Valid() && Waste() == old(Waste())
      ensures forall k :: k in cache ==> k in old(cache) && cache[k] == old(cache)[k]
      ensures cache == map[] || used + size <= capacity
      ensures old(used) + size <= capacity ==> cache == old(cache)
    {
      while cache != map[] && used + size > capacity
        invariant Valid() && Waste() == old(Waste())
        invariant forall k :: k in cache ==> k in old(cache) && cache[k] == old(cache)[k]
        invariant old(used) + size <= capacity ==> cache == old(cache) && used == old(used)
        decreases |cache|
      {
        var key :| key in cache;
        TotalWithout(cache, key);
        used := used - |cache[key]|;
        cache := cache - {key};
      }
    }

    /** An entry that is still there is kept, but its size is then counted once more, for good. */
    method Put(ident: Id, dat: Data)
      requires Valid()
      modifies this
      ensures Valid() && ident in cache && (ident in old(cache) || cache[ident] == dat)
      ensures forall k :: k in cache && k != ident ==> k in old(cache) && cache[k] == old(cache)[k]
      ensures ident in old(cache) ==> cache[ident] in {dat, old(cache)[ident]}
      ensures old(used) + |dat| <= capacity ==> forall k :: k in old(cache) ==> k in cache && cache[k] == old(cache)[k]
      ensures used <= capacity || cache.Keys == {ident}
      ensures ident !in old(cache) ==> Waste() == old(Waste())
      ensures ident in old(cache) && old(used) + |dat| <= capacity ==> Waste() == old(Waste()) + |dat|
      ensures old(Waste()) <= Waste() <= old(Waste()) + |dat|
    {
      MakeRoom(|dat|);
      if ident !in cache {
        ghost var before := cache;
        cache := cache[ident := dat];
        TotalWithout(cache, ident);
        assert cache - {ident} == before;
      }
      used := used + |dat|;
    }
  }
}
