/**
 * What the invariant of the design says, in the terms of the benchmark's own checks: the
 * indexes hold exactly the assemblies that can be reached, parents and children agree,
 * every id is free or in use and never both, and the bag relation is symmetric.
 */
module DesignInvariants {
  import opened DesignObjects
  import opened IdPools
  import opened AssemblyTrees
  import opened AssemblyBuilding
  import opened TreeEdits
  import opened ComponentBags
  import opened CompositePartBuilding
  import opened DesignSetup

  /** The indexes hold exactly the assemblies of the tree, each under its own id. */
  lemma IndexesHoldTheTree(setup: Setup, a: Assembly)
    requires setup.Valid()
    ensures a in setup.assemblies <==>
      match a
      case Base(b) =>
        b.id in setup.assemblyBuilder.baseAssemblyIdIndex && setup.assemblyBuilder.baseAssemblyIdIndex[b.id] == b
      case Complex(c) =>
        c.id in setup.assemblyBuilder.complexAssemblyIdIndex && setup.assemblyBuilder.complexAssemblyIdIndex[c.id] == c
  {
    hide Shape, NonEmpty, Apart, Symmetric, Partition, PartsOk, Assemblies;
    EntryUnderKey(setup.assemblyBuilder.baseAssemblyIdIndex, setup.assemblyBuilder.complexAssemblyIdIndex, a);
    assert a in setup.assemblyBuilder.Registered() <==> a in AsSet(Assemblies(setup.tree));
  }

  /** The assemblies that a set closed under `subAssemblies` must hold, once it holds the root. */
  ghost predicate ClosedFrom(root: ComplexAssembly, s: set<Assembly>)
    reads (set a | a in s && a.Complex? :: a.complex)`subAssemblies
  {
    && Complex(root) in s
    && forall a, sub :: a in s && a.Complex? && sub in a.complex.subAssemblies ==> sub in s
  }

  /** The assemblies of the tree are exactly those that can be reached from the design root. */
  lemma ReachableFromTheRoot(setup: Setup, s: set<Assembly>)
    requires setup.Valid()
    ensures ClosedFrom(setup.designRoot, AsSet(setup.assemblies))
    ensures ClosedFrom(setup.designRoot, s) ==> AsSet(setup.assemblies) <= s
  {
    var t, level := setup.tree, setup.assemblyBuilder.numAssmLevels;
    TreeIsClosed(t, null, level);
    if ClosedFrom(setup.designRoot, s) {
      ReachedAll(t, null, level, s);
    }
  }

  lemma TreeIsClosed(t: Tree, parent: ComplexAssembly?, level: int)
    requires Shape(t, parent, level)
    ensures forall a, sub :: a in Assemblies(t) && a.Complex? && sub in a.complex.subAssemblies ==> sub in Assemblies(t)
  {
    forall a, sub | a in Assemblies(t) && a.Complex? && sub in a.complex.subAssemblies
      ensures sub in Assemblies(t)
    {
      KidsAtShape(t, parent, level, a.complex);
      KidsAtBelow(t, a.complex);
      TopsAreInside(KidsAt(t, a.complex));
    }
  }

  lemma {:induction false} ReachedAll(t: Tree, parent: ComplexAssembly?, level: int, s: set<Assembly>)
    requires Shape(t, parent, level) && Top(t) in s
    requires forall a, sub :: a in s && a.Complex? && sub in a.complex.subAssemblies ==> sub in s
    ensures AsSet(Assemblies(t)) <= s
    decreases t
  {
    hide AssembliesOf, Branch, Tops;
    forall a | a in Assemblies(t) && a != Top(t)
      ensures a in s
    {
      ShapeOfKids(t, parent, level, a);
      var i := Branch(t.kids, a);
      ReachedAll(t.kids[i], t.complex, level - 1, s);
      assert a in AsSet(Assemblies(t.kids[i]));
    }
  }

  lemma ShapeOfKids(t: Tree, parent: ComplexAssembly?, level: int, a: Assembly)
    requires Shape(t, parent, level) && a in Assemblies(t) && a != Top(t)
    ensures t.Node? && a in AssembliesOf(t.kids)
    ensures var k := t.kids[Branch(t.kids, a)];
      Shape(k, t.complex, level - 1) && Top(k) in t.complex.subAssemblies
  {
    assert Tops(t.kids)[Branch(t.kids, a)] in t.complex.subAssemblies;
  }

  /** Children name their parent, stand one level lower, and there is always at least one. */
  lemma ChildrenFit(setup: Setup, c: ComplexAssembly, sub: Assembly)
    requires setup.Valid() && Complex(c) in setup.assemblies
    ensures 2 <= c.level <= setup.assemblyBuilder.numAssmLevels && c.subAssemblies != []
    ensures c.superAssembly == null <==> c == setup.designRoot
    ensures sub in c.subAssemblies ==> SuperOf(sub) == c && sub in setup.assemblies
    ensures sub in c.subAssemblies && c.level > 2 ==> sub.Complex? && sub.complex.level == c.level - 1
    ensures sub in c.subAssemblies && c.level == 2 ==> sub.Base?
  {
    hide Assemblies, AssembliesOf, Apart, Symmetric, Partition, PartsOk, Books, NonEmpty, Shape;
    var t, level := setup.tree, setup.assemblyBuilder.numAssmLevels;
    KidsAtShape(t, null, level, c);
    KidsAtNonEmpty(t, c);
    TreeIsClosed(t, null, level);
    setup.ComplexInTree(t, c);
    if sub in c.subAssemblies {
      var i :| 0 <= i < |KidsAt(t, c)| && sub == Top(KidsAt(t, c)[i]);
      TopFits(KidsAt(t, c)[i], c, c.level - 1);
    }
  }

  lemma TopFits(t: Tree, parent: ComplexAssembly, level: int)
    requires Shape(t, parent, level)
    ensures SuperOf(Top(t)) == parent
    ensures if level >= 2 then Top(t).Complex? && Top(t).complex.level == level else level == 1 && Top(t).Base?
  {
  }

  lemma {:induction false} FreeBaseKeys(ids: seq<int>, id: int)
    ensures multiset(BaseKeys(ids))[BaseKey(id)] == Count(ids, id)
    ensures multiset(BaseKeys(ids))[ComplexKey(id)] == 0
  {
    if ids != [] {
      FreeBaseKeys(ids[1..], id);
      assert BaseKeys(ids) == [BaseKey(ids[0])] + BaseKeys(ids[1..]);
    }
  }

  lemma {:induction false} FreeComplexKeys(ids: seq<int>, id: int)
    ensures multiset(ComplexKeys(ids))[ComplexKey(id)] == Count(ids, id)
    ensures multiset(ComplexKeys(ids))[BaseKey(id)] == 0
  {
    if ids != [] {
      FreeComplexKeys(ids[1..], id);
      assert ComplexKeys(ids) == [ComplexKey(ids[0])] + ComplexKeys(ids[1..]);
    }
  }

  /** The books add up to one of each key. */
  lemma KeyBalance(v: Store, t: Tree, maxBases: nat, maxComplexes: nat, key: Key)
    requires Books(v, t, maxBases, maxComplexes)
    ensures v.free[key] + KeyBag(Assemblies(t))[key] ==
      if 1 <= key.id <= (if key.BaseKey? then maxBases else maxComplexes) then 1 else 0
  {
    assert v.free[key] + KeyBag(Assemblies(t))[key] == AllKeys(maxBases, maxComplexes)[key];
  }

  /** Each id from 1 to the maximum is free or in use; none is both, and none is twice in a pool. */
  lemma BaseIdsArePartitioned(setup: Setup, id: int)
    requires setup.Valid()
    ensures Count(setup.assemblyBuilder.baseAssemblyIdPool.ids, id)
            + (if id in setup.assemblyBuilder.baseAssemblyIdIndex then 1 else 0)
            == if 1 <= id <= setup.maxBaseAssemblies then 1 else 0
  {
    hide Shape, NonEmpty, Apart, Symmetric, Partition, PartsOk, Count, KeyBag, Assemblies, AllKeys, FreeKeys;
    var builder, key := setup.assemblyBuilder, BaseKey(id);
    var v := builder.View({});
    KeyBalance(v, setup.tree, setup.maxBaseAssemblies, setup.maxComplexAssemblies, key);
    FreeCounts(builder.baseAssemblyIdPool.ids, builder.complexAssemblyIdPool.ids, id);
    if id in builder.baseAssemblyIdIndex {
      setup.IndexedInTree(setup.tree);
      KeyInBag(setup.assemblies, Base(builder.baseAssemblyIdIndex[id]));
    } else if key in KeyBag(setup.assemblies) {
      var a := BagKeyIn(setup.assemblies, key);
      IndexesHoldTheTree(setup, a);
    }
  }

  lemma ComplexIdsArePartitioned(setup: Setup, id: int)
    requires setup.Valid()
    ensures Count(setup.assemblyBuilder.complexAssemblyIdPool.ids, id)
            + (if id in setup.assemblyBuilder.complexAssemblyIdIndex then 1 else 0)
            == if 1 <= id <= setup.maxComplexAssemblies then 1 else 0
  {
    hide Shape, NonEmpty, Apart, Symmetric, Partition, PartsOk, Count, KeyBag, Assemblies, AllKeys, FreeKeys;
    var builder, key := setup.assemblyBuilder, ComplexKey(id);
    var v := builder.View({});
    KeyBalance(v, setup.tree, setup.maxBaseAssemblies, setup.maxComplexAssemblies, key);
    FreeCounts(builder.baseAssemblyIdPool.ids, builder.complexAssemblyIdPool.ids, id);
    if id in builder.complexAssemblyIdIndex {
      setup.IndexedInTree(setup.tree);
      KeyInBag(setup.assemblies, Complex(builder.complexAssemblyIdIndex[id]));
    } else if key in KeyBag(setup.assemblies) {
      var a := BagKeyIn(setup.assemblies, key);
      IndexesHoldTheTree(setup, a);
    }
  }

  lemma FreeCounts(baseIds: seq<int>, complexIds: seq<int>, id: int)
    ensures FreeKeys(baseIds, complexIds)[BaseKey(id)] == Count(baseIds, id)
    ensures FreeKeys(baseIds, complexIds)[ComplexKey(id)] == Count(complexIds, id)
  {
    FreeBaseKeys(baseIds, id);
    FreeComplexKeys(complexIds, id);
  }

  /** The same for the three pools of the composite parts; they are in step with each other. */
  lemma PartIdsArePartitioned(setup: Setup)
    requires setup.Valid()
    ensures var builder := setup.compositePartBuilder;
      && Partition(builder.idPool.ids, builder.compositePartIdIndex.Keys, builder.maxCompParts)
      && Partition(builder.documentBuilder.idPool.ids, DocumentIds(builder.documentBuilder.documentTitleIndex), builder.maxCompParts)
      && Partition(builder.atomicPartBuilder.idPool.ids, builder.atomicPartBuilder.partIdIndex.Keys,
                   builder.maxCompParts * builder.numAtomicPerComp)
      && |builder.documentBuilder.idPool.ids| == |builder.idPool.ids|
      && |builder.atomicPartBuilder.idPool.ids| == builder.numAtomicPerComp * |builder.idPool.ids|
  {
    hide Shape, NonEmpty, Apart, Symmetric, Partition, PartsOk, Assemblies;
    setup.compositePartBuilder.PoolsInStep();
  }

  /** A composite part is a component of an assembly as often as the assembly is among its users. */
  lemma UsesAreSymmetric(setup: Setup, b: BaseAssembly, p: CompositePart)
    requires setup.Valid() && Base(b) in setup.assemblies && p in setup.Parts()
    ensures Count(b.components, p) == Count(p.usedIn, b)
    ensures p in b.components <==> b in p.usedIn
  {
    hide Shape, NonEmpty, Apart, Partition, PartsOk, Assemblies;
    CountPositive(b.components, p);
    CountPositive(p.usedIn, b);
  }

  /** Dates stay where the benchmark draws them, but for atomic parts, whose dates are updated: they may leave the range
      by one at both ends. */
  lemma DatesAreInRange(setup: Setup, b: BaseAssembly, c: CompositePart, p: AtomicPart)
    requires setup.Valid() && Base(b) in setup.assemblies && c in setup.Parts() && p in setup.compositePartBuilder.Live()
    ensures 1000 <= b.buildDate <= 1999
    ensures 0 <= c.buildDate <= 999 || 2000 <= c.buildDate <= 2999
    ensures 999 <= p.buildDate <= 2000
  {
    hide Shape, NonEmpty, Apart, Partition, Symmetric, Books, Assemblies;
    assert b in BasesIn(Assemblies(setup.tree));
  }
}
