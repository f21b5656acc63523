/**
 * The builder of atomic parts, with its id index, its id pool and the index by build
 * date, and the one step by which an operation changes a build date.
 */
module AtomicPartBuilding {
  import opened DesignObjects
  import opened IdPools

  const MIN_ATOMIC_DATE := 1000
  const MAX_ATOMIC_DATE := 1999
  /** The interval of dates, each end moved outward to the partner of its parity. */
  predicate InWidenedInterval(date: int) {
    var min := if MIN_ATOMIC_DATE % 2 == 0 then MIN_ATOMIC_DATE - 1 else MIN_ATOMIC_DATE;
    var max := if MAX_ATOMIC_DATE % 2 != 0 then MAX_ATOMIC_DATE + 1 else MAX_ATOMIC_DATE;
    min <= date <= max
  }

  /** An even number of updates gives the date back, an odd number its partner; none leaves the interval. */
  lemma {:induction false} ToggledTwice(date: int)
    ensures Toggled(Toggled(date)) == date
    ensures date % 2 == 0 ==> Toggled(date) == date - 1
    ensures date % 2 == 1 ==> Toggled(date) == date + 1
    ensures InWidenedInterval(date) ==> InWidenedInterval(Toggled(date))
  {
  }

  /** The parts that the index holds under a date. */
  ghost function Under(index: map<int, set<AtomicPart>>, date: int): set<AtomicPart> {
    if date in index then index[date] else {}
  }

  /** A part stands under a date exactly when it is live and has that date. */
  ghost predicate DatesAgree(live: set<AtomicPart>, index: map<int, set<AtomicPart>>)
    reads live`buildDate
  {
    && (forall p :: p in live ==> p in Under(index, p.buildDate))
    && (forall date, p :: p in Under(index, date) ==> p in live && p.buildDate == date)
  }

  ghost predicate EntryAdded(index: map<int, set<AtomicPart>>, index': map<int, set<AtomicPart>>, part: AtomicPart)
    reads part`buildDate
  {
    forall date :: Under(index', date) == (if date == part.buildDate then Under(index, date) + {part} else Under(index, date))
  }

  /** A large set finds the part to remove by its id. */
  ghost predicate EntryRemoved(index: map<int, set<AtomicPart>>, index': map<int, set<AtomicPart>>, part: AtomicPart)
    reads part`buildDate
  {
    forall date :: Under(index', date) ==
      (if date == part.buildDate then set p | p in Under(index, date) && p.id != part.id else Under(index, date))
  }

  lemma AgreeAfterAdding(live: set<AtomicPart>, index: map<int, set<AtomicPart>>, index': map<int, set<AtomicPart>>, part: AtomicPart)
    requires DatesAgree(live, index) && EntryAdded(index, index', part)
    ensures DatesAgree(live + {part}, index')
  {
  }

  lemma AgreeAfterRemoving(live: set<AtomicPart>, index: map<int, set<AtomicPart>>, index': map<int, set<AtomicPart>>, part: AtomicPart)
    requires DatesAgree(live, index) && EntryRemoved(index, index', part) && part in live
    requires forall p :: p in live && p.id == part.id ==> p == part
    ensures DatesAgree(live - {part}, index')
  {
  }

  lemma NoneWithId(live: set<AtomicPart>, index: map<int, set<AtomicPart>>, part: AtomicPart)
    requires DatesAgree(live, index) && forall p :: p in live ==> p.id != part.id
    ensures forall p :: p in Under(index, part.buildDate) ==> p.id != part.id
  {
  }

  /** The index by date is determined by the parts, up to dates with no part. */
  lemma AgreementIsUnique(live: set<AtomicPart>, index: map<int, set<AtomicPart>>, index': map<int, set<AtomicPart>>, date: int)
    requires DatesAgree(live, index) && DatesAgree(live, index')
    ensures Under(index, date) == Under(index', date)
  {
    forall p
      ensures p in Under(index, date) <==> p in Under(index', date)
    {
      if p in Under(index, date) {
        assert p in Under(index', p.buildDate);
      }
      if p in Under(index', date) {
        assert p in Under(index, p.buildDate);
      }
    }
  }

  lemma SameIndex(live: set<AtomicPart>, index: map<int, set<AtomicPart>>, index': map<int, set<AtomicPart>>)
    requires DatesAgree(live, index) && DatesAgree(live, index')
    ensures forall date :: Under(index, date) == Under(index', date)
  {
    forall date
      ensures Under(index, date) == Under(index', date)
    {
      AgreementIsUnique(live, index, index', date);
    }
  }

  // ---------- the parts of the id index ----------

  ghost function Entries(index: map<int, AtomicPart>): set<AtomicPart> {
    set id | id in index :: index[id]
  }

  ghost predicate Keyed(index: map<int, AtomicPart>) {
    forall id :: id in index ==> index[id].id == id
  }

  lemma PutEntry(index: map<int, AtomicPart>, part: AtomicPart)
    requires Keyed(index) && part.id !in index
    ensures Keyed(index[part.id := part]) && Entries(index[part.id := part]) == Entries(index) + {part}
    ensures part !in Entries(index) && forall p :: p in Entries(index) ==> p.id != part.id
  {
    var after := index[part.id := part];
    assert forall id :: id in index ==> id in after && after[id] == index[id];
    assert part.id in after && after[part.id] == part;
  }

  lemma RemoveEntry(index: map<int, AtomicPart>, part: AtomicPart)
    requires Keyed(index) && part in Entries(index)
    ensures part.id in index && index[part.id] == part
    ensures Keyed(index - {part.id}) && Entries(index - {part.id}) == Entries(index) - {part}
    ensures forall p :: p in Entries(index) && p.id == part.id ==> p == part
  {
    var after := index - {part.id};
    assert forall id :: id in after ==> id in index && after[id] == index[id];
    forall p | p in Entries(index) - {part}
      ensures p in Entries(after)
    {
      assert p.id in after && after[p.id] == p;
    }
  }

  lemma SameEntriesSameIndex(index: map<int, AtomicPart>, index': map<int, AtomicPart>)
    requires Keyed(index) && Keyed(index') && Entries(index) == Entries(index')
    ensures index == index'
  {
    forall id
      ensures id in index ==> id in index' && index'[id] == index[id]
      ensures id in index' ==> id in index
    {
      if id in index { assert index[id] in Entries(index'); }
      if id in index' { assert index'[id] in Entries(index); }
    }
  }

  class AtomicPartBuilder {
    const maxAtomicParts: nat
    const idPool: IdPool
    var partIdIndex: map<int, AtomicPart>
    var partBuildDateIndex: map<int, set<AtomicPart>>

    constructor (maxAtomicParts: nat)
      ensures this.maxAtomicParts == maxAtomicParts && fresh(idPool)
      ensures Valid() && Live() == {} && partIdIndex == map[]
    {
      this.maxAtomicParts := maxAtomicParts;
      idPool := new IdPool(maxAtomicParts);
      partIdIndex := map[];
      partBuildDateIndex := map[];
    }

    ghost function Live(): set<AtomicPart>
      reads this`partIdIndex
    {
      Entries(partIdIndex)
    }

    ghost predicate Valid()
      reads `partIdIndex, `partBuildDateIndex, idPool`ids, Live()`buildDate
    {
      && Keyed(partIdIndex)
      && Partition(idPool.ids, partIdIndex.Keys, maxAtomicParts)
      && DatesAgree(Live(), partBuildDateIndex)
      && (forall p :: p in Live() ==> InWidenedInterval(p.buildDate))
    }

    lemma InSet(part: AtomicPart)
      requires Valid() && part in Live()
      ensures part.buildDate in partBuildDateIndex && part in partBuildDateIndex[part.buildDate]
    {
      assert part in Under(partBuildDateIndex, part.buildDate);
    }

    /** A large set refuses a part whose id it already holds. */
    method AddAtomicPartToBuildDateIndex(atomicPart: AtomicPart)
      modifies this`partBuildDateIndex
      ensures
        if forall p :: p in Under(old(partBuildDateIndex), atomicPart.buildDate) ==> p.id != atomicPart.id
        then EntryAdded(old(partBuildDateIndex), partBuildDateIndex, atomicPart)
        else partBuildDateIndex == old(partBuildDateIndex)
    {
      var newSet := {atomicPart};
      if atomicPart.buildDate in partBuildDateIndex {
        var sameDateSet := partBuildDateIndex[atomicPart.buildDate];
        if forall p | p in sameDateSet :: p.id != atomicPart.id {
          partBuildDateIndex := partBuildDateIndex[atomicPart.buildDate := sameDateSet + newSet];
        }
      } else {
        partBuildDateIndex := partBuildDateIndex[atomicPart.buildDate := newSet];
      }
    }

    /** A date that the index does not hold is a null pointer in the original. */
    method RemoveAtomicPartFromBuildDateIndex(atomicPart: AtomicPart)
      requires atomicPart.buildDate in partBuildDateIndex
      modifies this`partBuildDateIndex
      ensures EntryRemoved(old(partBuildDateIndex), partBuildDateIndex, atomicPart)
    {
      var sameDateSet := partBuildDateIndex[atomicPart.buildDate];
      partBuildDateIndex :=
        partBuildDateIndex[atomicPart.buildDate := set p | p in sameDateSet && p.id != atomicPart.id];
    }

    method CreateAndRegisterAtomicPart() returns (created: Option<AtomicPart>)
      requires Valid()
      modifies this`partIdIndex, this`partBuildDateIndex, idPool`ids
      ensures Valid()
      ensures created.None? <==> old(idPool.ids) == []
      ensures created.None? ==>
        && idPool.ids == old(idPool.ids) && partIdIndex == old(partIdIndex)
        && partBuildDateIndex == old(partBuildDateIndex)
      ensures created.Some? ==>
        && var part := created.value;
        && fresh(part) && part !in old(Live()) && old(idPool.ids) == [part.id] + idPool.ids
        && part.id !in old(partIdIndex) && partIdIndex == old(partIdIndex)[part.id := part]
        && part.to == [] && part.from == [] && part.partOf == null && part.y == part.x + 1 && 0 <= part.x < XY_RANGE
        && MIN_ATOMIC_DATE <= part.buildDate <= MAX_ATOMIC_DATE
    {
      hide DatesAgree, EntryAdded, EntryRemoved, Entries, Keyed, Partition;
      ghost var live, index := Live(), partBuildDateIndex;
      assert DatesAgree(live, index);
      var id := idPool.GetId();
      if id.None? {
        return None;
      }
      var buildDate, x :| MIN_ATOMIC_DATE <= buildDate <= MAX_ATOMIC_DATE && 0 <= x < XY_RANGE;
      var y := x + 1;
      var part := new AtomicPart(id.value, buildDate, x, y);
      PartitionTake(id.value, idPool.ids, partIdIndex.Keys, maxAtomicParts);
      partIdIndex := partIdIndex[id.value := part];
      assert partIdIndex.Keys == old(partIdIndex).Keys + {id.value};
      PutEntry(old(partIdIndex), part);
      assert Live() == live + {part};
      NoneWithId(live, index, part);
      AddAtomicPartToBuildDateIndex(part);
      AgreeAfterAdding(live, index, partBuildDateIndex, part);
      created := Some(part);
    }

    method UnregisterAndRecycleAtomicPart(part: AtomicPart)
      requires Valid() && part in Live()
      modifies this`partIdIndex, this`partBuildDateIndex, idPool`ids
      modifies part`x, part`y, part`to, part`from, part`partOf
      ensures Valid()
      ensures part.id in old(partIdIndex) && partIdIndex == old(partIdIndex) - {part.id}
      ensures idPool.ids == old(idPool.ids) + [part.id]
      ensures part.to == [] && part.from == [] && part.partOf == null
    {
      hide DatesAgree, EntryAdded, EntryRemoved, Entries, Keyed, Partition, InWidenedInterval;
      RemoveEntry(partIdIndex, part);
      InSet(part);
      ghost var live, index := Live(), partBuildDateIndex;
      assert DatesAgree(live, index);
      var partId := part.id;
      RemoveAtomicPartFromBuildDateIndex(part);
      AgreeAfterRemoving(live, index, partBuildDateIndex, part);
      PartitionPut(partId, idPool.ids, partIdIndex.Keys, maxAtomicParts);
      partIdIndex := partIdIndex - {partId};
      part.ClearPointers();
      idPool.PutUnusedId(partId);
    }

    /** The step of the updating traversals and of operation 15. */
    method UpdateBuildDate(part: AtomicPart)
      requires Valid() && part in Live()
      modifies this`partBuildDateIndex, part`buildDate
      ensures Valid() && part.buildDate == Toggled(old(part.buildDate))
    {
      hide DatesAgree, EntryAdded, EntryRemoved, Entries, Keyed, Partition, InWidenedInterval;
      RemoveEntry(partIdIndex, part);
      InSet(part);
      ToggledTwice(part.buildDate);
      ghost var live, before := Live(), partBuildDateIndex;
      assert DatesAgree(live, before);
      RemoveAtomicPartFromBuildDateIndex(part);
      ghost var rest, index := live - {part}, partBuildDateIndex;
      AgreeAfterRemoving(live, before, index, part);
      part.UpdateBuildDate();
      assert DatesAgree(rest, index);
      NoneWithId(rest, index, part);
      AddAtomicPartToBuildDateIndex(part);
      AgreeAfterAdding(rest, index, partBuildDateIndex, part);
      assert rest + {part} == Live();
    }
  }
}
