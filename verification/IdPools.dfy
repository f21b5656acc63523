/** The id pool: a queue of the unused ids, first in first out. */
module IdPools {
  import opened DesignObjects

  class IdPool {
    var ids: seq<int>

    constructor (maxNumberOfIds: nat)
      ensures |ids| == maxNumberOfIds
      ensures forall i :: 0 <= i < |ids| ==> ids[i] == i + 1
      ensures Partition(ids, {}, maxNumberOfIds)
    {
      ids := [];
      new;
      var id := 1;
      while id <= maxNumberOfIds
        invariant 1 <= id <= maxNumberOfIds + 1
        invariant |ids| == id - 1
        invariant forall i :: 0 <= i < |ids| ==> ids[i] == i + 1
      {
        ids := ids + [id];
        id := id + 1;
      }
      forall k | 1 <= k <= maxNumberOfIds
        ensures k in ids
      {
        assert ids[k - 1] == k;
      }
    }

    /** `None` is the operation failure that the original throws on an empty pool. */
    method GetId() returns (id: Option<int>)
      modifies this`ids
      ensures id.None? <==> old(ids) == []
      ensures id.None? ==> ids == old(ids)
      ensures id.Some? ==> old(ids) == [id.value] + ids
    {
      if ids == [] {
        return None;
      }
      id := Some(ids[0]);
      ids := ids[1..];
    }

    method PutUnusedId(id: int)
      modifies this`ids
      ensures ids == old(ids) + [id]
    {
      ids := ids + [id];
    }
  }

  // ---------- free ids and ids in use ----------

  /** Each of the ids 1..max is either free, and then once, or in use. */
  ghost predicate Partition(free: seq<int>, used: set<int>, max: nat) {
    && (forall i, j :: 0 <= i < j < |free| ==> free[i] != free[j])
    && (forall id :: id in free ==> id !in used)
    && (forall id :: 1 <= id <= max <==> id in free || id in used)
  }

  lemma PartitionTake(id: int, free: seq<int>, used: set<int>, max: nat)
    requires Partition([id] + free, used, max)
    ensures Partition(free, used + {id}, max) && id !in used
  {
    var before := [id] + free;
    assert before[0] == id && before[1..] == free;
    forall i, j | 0 <= i < j < |free|
      ensures free[i] != free[j]
    {
      assert before[i + 1] == free[i] && before[j + 1] == free[j];
    }
    forall k | k in free
      ensures k != id && k in before
    {
      var i :| 0 <= i < |free| && free[i] == k;
      assert before[i + 1] == k;
    }
    assert forall k :: k in before <==> k == id || k in free;
  }

  lemma PartitionPut(id: int, free: seq<int>, used: set<int>, max: nat)
    requires Partition(free, used, max) && id in used
    ensures Partition(free + [id], used - {id}, max)
  {
    assert forall k :: k in free + [id] <==> k in free || k == id;
  }

  ghost function Range(max: nat): set<int> {
    if max == 0 then {} else Range(max - 1) + {max}
  }

  lemma {:induction false} RangeSize(max: nat)
    ensures |Range(max)| == max && forall id :: id in Range(max) <==> 1 <= id <= max
  {
    if max > 0 {
      RangeSize(max - 1);
    }
  }

  lemma {:induction false} DistinctSize<T>(s: seq<T>)
    requires forall i, j :: 0 <= i < j < |s| ==> s[i] != s[j]
    ensures |set x | x in s| == |s|
  {
    if s != [] {
      var last := |s| - 1;
      DistinctSize(s[..last]);
      assert (set x | x in s) == (set x | x in s[..last]) + {s[last]};
    }
  }

  lemma DisjointSizes<T>(a: set<T>, b: set<T>)
    requires a !! b
    ensures |a + b| == |a| + |b|
  {
  }

  /** So the number of free ids is what the ids in use leave over. */
  lemma FreeCount(free: seq<int>, used: set<int>, max: nat)
    requires Partition(free, used, max)
    ensures |free| + |used| == max
  {
    var freeSet := set id | id in free;
    DistinctSize(free);
    RangeSize(max);
    forall id
      ensures id in freeSet + used <==> id in Range(max)
      ensures id in freeSet ==> id !in used
    {
    }
    assert freeSet + used == Range(max);
    DisjointSizes(freeSet, used);
  }
}
