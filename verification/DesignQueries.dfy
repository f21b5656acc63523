/**
 * The walk ST3, up from the users of a composite part to the design root, and the two
 * queries that look for base assemblies older than one of their components: ST5 goes
 * through the index, and Q6 counts from the bottom of the tree.
 */
module DesignQueries {
  import opened DesignObjects
  import opened IdPools
  import opened ComponentBags
  import opened AssemblyTrees
  import opened TreeEdits
  import opened CompositePartBuilding
  import opened DesignSetup
  import opened DesignInvariants
  import DesignTraversals

  // ---------- ST3 ----------

  ghost predicate UpClosed(s: set<Assembly>)
    reads (set a | a in s && a.Base? :: a.base)`superAssembly, (set a | a in s && a.Complex? :: a.complex)`superAssembly
  {
    forall a :: a in s && SuperOf(a) != null ==> Complex(SuperOf(a)) in s
  }

  /** Closed under parents, except that `next` is still to be visited. */
  ghost predicate UpClosedBut(s: set<Assembly>, next: Option<Assembly>)
    reads (set a | a in s && a.Base? :: a.base)`superAssembly, (set a | a in s && a.Complex? :: a.complex)`superAssembly
  {
    forall a :: a in s && SuperOf(a) != null ==> Complex(SuperOf(a)) in s || next == Some(Complex(SuperOf(a)))
  }

  ghost predicate DistinctKeys(all: set<Assembly>) {
    forall a, b :: a in all && b in all && a.Key() == b.Key() ==> a == b
  }

  /**
   * A walk up visits what is above its start and not visited yet, and no more: nothing
   * outside `bound`, which may be any closed set that holds the start and what was visited.
   */
  method TraverseUp(assembly: Option<Assembly>, visited: set<Assembly>, ghost all: set<Assembly>, ghost bound: set<Assembly>)
    returns (result: nat, visitedAssemblies: set<Assembly>)
    requires UpClosed(all) && DistinctKeys(all) && visited <= all && (assembly.Some? ==> assembly.value in all)
    requires UpClosedBut(visited, assembly)
    requires UpClosed(bound) && visited <= bound && (assembly.Some? ==> assembly.value in bound)
    ensures visited <= visitedAssemblies <= all && UpClosed(visitedAssemblies) && visitedAssemblies <= bound
    ensures assembly.Some? ==> assembly.value in visitedAssemblies
    ensures result == |visitedAssemblies - visited|
    decreases |all - visited|
  {
    if assembly.None? || exists v | v in visited :: v.Key() == assembly.value.Key() {
      assert visited - visited == {};
      return 0, visited;
    }
    var a := assembly.value;
    visitedAssemblies := visited + {a};
    var superAssembly := if a.Base? then a.base.superAssembly else a.complex.superAssembly;
    var next := if superAssembly == null then None else Some(Complex(superAssembly));
    assert superAssembly == SuperOf(a);
    assert all - visited == (all - visitedAssemblies) + {a};
    var above;
    ghost var before := visitedAssemblies;
    above, visitedAssemblies := TraverseUp(next, visitedAssemblies, all, bound);
    assert visitedAssemblies - visited == (visitedAssemblies - before) + {a};
    result := above + 1;
  }

  /** What a set must hold that holds the users of a part and is closed under parents. */
  ghost predicate HoldsOwners(s: set<Assembly>, usedIn: seq<BaseAssembly>)
    reads (set a | a in s && a.Base? :: a.base)`superAssembly, (set a | a in s && a.Complex? :: a.complex)`superAssembly
  {
    UpClosed(s) && forall b :: b in usedIn ==> Base(b) in s
  }

  /**
   * The walk visits the users of the part and all assemblies above them, each once, whatever
   * the order and the repetitions in the bag: its result is the size of the least closed set
   * that holds the users.
   */
  method TraverseOwners(part: CompositePart, ghost all: set<Assembly>, ghost bound: set<Assembly>)
    returns (result: nat, visitedAssemblies: set<Assembly>)
    requires HoldsOwners(all, part.usedIn) && DistinctKeys(all) && HoldsOwners(bound, part.usedIn)
    ensures result == |visitedAssemblies| && visitedAssemblies <= all
    ensures HoldsOwners(visitedAssemblies, part.usedIn) && visitedAssemblies <= bound
  {
    hide UpClosed, UpClosedBut, DistinctKeys;
    visitedAssemblies := {};
    result := 0;
    NothingIsClosed();
    var i := 0;
    while i < |part.usedIn|
      invariant i <= |part.usedIn| && visitedAssemblies <= all && visitedAssemblies <= bound && UpClosed(visitedAssemblies)
      invariant result == |visitedAssemblies|
      invariant forall j :: 0 <= j < i ==> Base(part.usedIn[j]) in visitedAssemblies
    {
      var assembly := part.usedIn[i];
      assert assembly in part.usedIn;
      ClosedIsClosedBut(visitedAssemblies, Some(Base(assembly)));
      ghost var before := visitedAssemblies;
      var more;
      more, visitedAssemblies := TraverseUp(Some(Base(assembly)), visitedAssemblies, all, bound);
      assert visitedAssemblies == before + (visitedAssemblies - before);
      result := result + more;
      i := i + 1;
    }
  }

  lemma NothingIsClosed()
    ensures UpClosed({})
  {
  }

  lemma ClosedIsClosedBut(s: set<Assembly>, next: Option<Assembly>)
    requires UpClosed(s)
    ensures UpClosedBut(s, next)
  {
  }

  /** The operation on the whole design; a missing part is the operation failure. */
  method ShortTraversal3(setup: Setup, partId: int, ghost bound: set<Assembly>)
    returns (result: Option<nat>, visitedAssemblies: set<Assembly>)
    requires setup.Valid()
    ensures result.None? <==> partId !in setup.compositePartBuilder.atomicPartBuilder.partIdIndex
    ensures result.Some? ==>
      && var owner := setup.compositePartBuilder.atomicPartBuilder.partIdIndex[partId].partOf;
      && owner != null && result.value == |visitedAssemblies|
      && visitedAssemblies <= AsSet(setup.assemblies) && HoldsOwners(visitedAssemblies, owner.usedIn)
      && (HoldsOwners(bound, owner.usedIn) ==> visitedAssemblies <= bound)
  {
    hide Setup.TreeOk, Symmetric, PartsOk, Partition, HoldsOwners, DistinctKeys, Assemblies;
    visitedAssemblies := {};
    if partId !in setup.compositePartBuilder.atomicPartBuilder.partIdIndex {
      return None, {};
    }
    var part := setup.compositePartBuilder.atomicPartBuilder.partIdIndex[partId];
    PartHasOwner(setup, partId);
    OwnersAreInTree(setup, part.partOf);
    var count;
    ghost var limit := if HoldsOwners(bound, part.partOf.usedIn) then bound else AsSet(setup.assemblies);
    count, visitedAssemblies := TraverseOwners(part.partOf, AsSet(setup.assemblies), limit);
    result := Some(count);
  }

  lemma PartHasOwner(setup: Setup, partId: int)
    requires setup.Valid() && partId in setup.compositePartBuilder.atomicPartBuilder.partIdIndex
    ensures var owner := setup.compositePartBuilder.atomicPartBuilder.partIdIndex[partId].partOf;
      owner != null && owner in setup.Parts()
  {
    hide Setup.TreeOk, Symmetric, Partition;
    assert setup.compositePartBuilder.atomicPartBuilder.partIdIndex[partId] in setup.compositePartBuilder.Live();
  }

  lemma OwnersAreInTree(setup: Setup, owner: CompositePart)
    requires setup.Valid() && owner in setup.Parts()
    ensures HoldsOwners(AsSet(setup.assemblies), owner.usedIn) && DistinctKeys(AsSet(setup.assemblies))
  {
    hide PartsOk, Partition, Assemblies, AssembliesOf, Shape, NonEmpty, Books;
    var s := setup.assemblies;
    forall a | a in s && SuperOf(a) != null
      ensures Complex(SuperOf(a)) in s
    {
      TopHasNoSuper(setup.tree, setup.assemblyBuilder.numAssmLevels, a);
      var p, i := HangsBelow(setup.tree, null, setup.assemblyBuilder.numAssmLevels, a);
    }
    forall a, b | a in s && b in s && a.Key() == b.Key()
      ensures a == b
    {
      var i :| 0 <= i < |s| && s[i] == a;
      var j :| 0 <= j < |s| && s[j] == b;
    }
    assert forall b :: b in owner.usedIn ==> b in setup.Bases();
  }

  // ---------- ST5 and Q6 ----------

  /** One of the components is younger than the assembly. */
  ghost predicate Outdated(b: BaseAssembly)
    reads b`components
  {
    exists p :: p in b.components && p.buildDate > b.buildDate
  }

  /** The set is that of the outdated ones among all base assemblies. */
  ghost predicate AreOutdated(outdated: set<BaseAssembly>, all: seq<Assembly>)
    reads BasesIn(all)`components
  {
    outdated <= BasesIn(all) && forall b :: b in BasesIn(all) ==> (b in outdated <==> Outdated(b))
  }

  method CheckBaseAssembly(assembly: BaseAssembly) returns (result: nat)
    ensures result == if Outdated(assembly) then 1 else 0
  {
    var assBuildDate := assembly.buildDate;
    var i := 0;
    while i < |assembly.components|
      invariant i <= |assembly.components|
      invariant forall j :: 0 <= j < i ==> assembly.components[j].buildDate <= assBuildDate
    {
      if assembly.components[i].buildDate > assBuildDate {
        assert assembly.components[i] in assembly.components;
        return 1;
      }
      i := i + 1;
    }
    result := 0;
  }

  /** The query through the index, in any order of its entries. */
  method Query5(baseAssemblyIdIndex: map<int, BaseAssembly>, ghost all: seq<Assembly>, ghost outdated: set<BaseAssembly>)
    returns (result: nat)
    requires forall id :: id in baseAssemblyIdIndex ==> baseAssemblyIdIndex[id].id == id
    requires forall b :: b in BasesIn(all) <==> b.id in baseAssemblyIdIndex && baseAssemblyIdIndex[b.id] == b
    requires AreOutdated(outdated, all)
    ensures result == |outdated|
  {
    result := 0;
    var rest: set<int> := set id | id in baseAssemblyIdIndex;
    ghost var found: set<BaseAssembly> := {};
    while rest != {}
      invariant rest <= baseAssemblyIdIndex.Keys && result == |found| && AreOutdated(outdated, all)
      invariant forall b :: b in found <==> b in outdated && b.id !in rest
      decreases |rest|
    {
      var id := PickAny(rest);
      var assembly := baseAssemblyIdIndex[id];
      var one := CheckBaseAssembly(assembly);
      result := result + one;
      if Outdated(assembly) {
        found := found + {assembly};
      }
      rest := rest - {id};
    }
    assert found == outdated;
  }

  method PickAny<T(==)>(s: set<T>) returns (x: T)
    requires s != {}
    ensures x in s
  {
    x :| x in s;
  }

  /** The complex assemblies of a list with an outdated base assembly somewhere below them. */
  ghost function OutdatedAbove(t: Tree, s: seq<Assembly>, outdated: set<BaseAssembly>): set<ComplexAssembly> {
    set c | c in ComplexesIn(s) && HasOutdatedBelow(t, c, outdated)
  }

  ghost predicate HasOutdatedBelow(t: Tree, c: ComplexAssembly, outdated: set<BaseAssembly>) {
    Complex(c) in Assemblies(t) && exists b :: b in outdated && Base(b) in AssembliesOf(KidsAt(t, c))
  }

  ghost function OutdatedIn(s: seq<Assembly>, outdated: set<BaseAssembly>): set<BaseAssembly> {
    BasesIn(s) * outdated
  }

  method CheckAssembly(assembly: Assembly, ghost t: Tree, ghost parent: ComplexAssembly?, ghost level: int,
                       ghost all: seq<Assembly>, ghost outdated: set<BaseAssembly>) returns (result: nat)
    requires Shape(t, parent, level) && Apart(Assemblies(t)) && assembly == Top(t)
    requires DesignTraversals.Within(Assemblies(t), all) && AreOutdated(outdated, all)
    ensures result == |OutdatedIn(Assemblies(t), outdated)| + |OutdatedAbove(t, Assemblies(t), outdated)|
    decreases t, 1
  {
    match assembly {
      case Base(b) =>
        OneBaseCounts(t, b, all, outdated);
        result := CheckBaseAssembly(b);
      case Complex(c) =>
        result := CheckComplexAssembly(c, t, parent, level, all, outdated);
    }
  }

  lemma OneBaseCounts(t: Tree, b: BaseAssembly, all: seq<Assembly>, outdated: set<BaseAssembly>)
    requires Top(t) == Base(b) && DesignTraversals.Within(Assemblies(t), all) && AreOutdated(outdated, all)
    ensures |OutdatedIn(Assemblies(t), outdated)| == if Outdated(b) then 1 else 0
    ensures |OutdatedAbove(t, Assemblies(t), outdated)| == 0
  {
    assert Assemblies(t) == [Base(b)];
    assert BasesIn(Assemblies(t)) == {b} && ComplexesIn(Assemblies(t)) == {};
    assert OutdatedIn(Assemblies(t), outdated) == if Outdated(b) then {b} else {};
    assert OutdatedAbove(t, Assemblies(t), outdated) == {};
  }

  /** The query from the bottom up: outdated base assemblies, and every complex assembly above one. */
  method CheckComplexAssembly(assembly: ComplexAssembly, ghost t: Tree, ghost parent: ComplexAssembly?, ghost level: int,
                              ghost all: seq<Assembly>, ghost outdated: set<BaseAssembly>) returns (result: nat)
    requires Shape(t, parent, level) && Apart(Assemblies(t)) && Complex(assembly) == Top(t)
    requires DesignTraversals.Within(Assemblies(t), all) && AreOutdated(outdated, all)
    ensures result == |OutdatedIn(Assemblies(t), outdated)| + |OutdatedAbove(t, Assemblies(t), outdated)|
    decreases t, 0
  {
    hide Apart, Assemblies, AssembliesOf, OutdatedIn, OutdatedAbove, BasesIn, ComplexesIn, DesignTraversals.Within, AreOutdated;
    ghost var bases, complexes := BasesIn(all), ComplexesIn(all);
    DesignTraversals.WithinHolds(Assemblies(t), all);
    result := 0;
    var i := 0;
    NothingCounts(t, outdated);
    while i < |assembly.subAssemblies|
      invariant i <= |t.kids| == |assembly.subAssemblies|
      invariant Shape(t, parent, level) && AreOutdated(outdated, all)
      invariant result ==
        |OutdatedIn(AssembliesOf(t.kids[..i]), outdated)| + |OutdatedAbove(t, AssembliesOf(t.kids[..i]), outdated)|
    {
      KidIsApart(t, i);
      DesignTraversals.KidWithin(t, i, all);
      var more := CheckAssembly(assembly.subAssemblies[i], t.kids[i], assembly, level - 1, all, outdated);
      OneKidMore(t, i, outdated);
      result := result + more;
      i := i + 1;
    }
    assert t.kids[..i] == t.kids;
    TopCounts(t, outdated);
    if result == 0 {
      return 0;
    }
    result := result + 1;
  }

  lemma KidIsApart(t: Tree, i: nat)
    requires t.Node? && i < |t.kids| && Apart(Assemblies(t))
    ensures Apart(Assemblies(t.kids[i]))
  {
    NodeParts(t);
    KidsApart(t.kids, i);
  }

  lemma NothingCounts(t: Tree, outdated: set<BaseAssembly>)
    requires t.Node?
    ensures |OutdatedIn(AssembliesOf(t.kids[..0]), outdated)| == 0
    ensures |OutdatedAbove(t, AssembliesOf(t.kids[..0]), outdated)| == 0
  {
    assert AssembliesOf(t.kids[..0]) == [];
    assert OutdatedIn([], outdated) == {} && OutdatedAbove(t, [], outdated) == {};
  }

  lemma OneKidMore(t: Tree, i: nat, outdated: set<BaseAssembly>)
    requires t.Node? && i < |t.kids| && Apart(Assemblies(t))
    ensures |OutdatedIn(AssembliesOf(t.kids[..i + 1]), outdated)| ==
      |OutdatedIn(AssembliesOf(t.kids[..i]), outdated)| + |OutdatedIn(Assemblies(t.kids[i]), outdated)|
    ensures |OutdatedAbove(t, AssembliesOf(t.kids[..i + 1]), outdated)| ==
      |OutdatedAbove(t, AssembliesOf(t.kids[..i]), outdated)| + |OutdatedAbove(t.kids[i], Assemblies(t.kids[i]), outdated)|
  {
    hide Apart, Assemblies, AssembliesOf, HasOutdatedBelow;
    var before, k, after := AssembliesOf(t.kids[..i]), Assemblies(t.kids[i]), AssembliesOf(t.kids[..i + 1]);
    KidsUpTo(t.kids, i);
    PrefixShares(t, i);
    UnionOf(before, k);
    assert OutdatedIn(after, outdated) == OutdatedIn(before, outdated) + OutdatedIn(k, outdated);
    forall c | c in ComplexesIn(k)
      ensures HasOutdatedBelow(t, c, outdated) == HasOutdatedBelow(t.kids[i], c, outdated)
    {
      SameBelow(t, i, c, outdated);
    }
    assert OutdatedAbove(t, after, outdated) == OutdatedAbove(t, before, outdated) + OutdatedAbove(t.kids[i], k, outdated);
  }

  lemma UnionOf(s: seq<Assembly>, t: seq<Assembly>)
    ensures BasesIn(s + t) == BasesIn(s) + BasesIn(t) && ComplexesIn(s + t) == ComplexesIn(s) + ComplexesIn(t)
  {
    assert AsSet(s + t) == AsSet(s) + AsSet(t);
    assert forall b :: Base(b) in s + t <==> Base(b) in s || Base(b) in t;
    assert forall c :: Complex(c) in s + t <==> Complex(c) in s || Complex(c) in t;
  }

  /** A branch shares nothing with those before it. */
  lemma PrefixShares(t: Tree, i: nat)
    requires t.Node? && i < |t.kids| && Apart(Assemblies(t))
    ensures BasesIn(AssembliesOf(t.kids[..i])) !! BasesIn(Assemblies(t.kids[i]))
    ensures ComplexesIn(AssembliesOf(t.kids[..i])) !! ComplexesIn(Assemblies(t.kids[i]))
  {
    hide Apart, Assemblies, AssembliesOf;
    NodeParts(t);
    forall a, b | a in AssembliesOf(t.kids[..i]) && b in Assemblies(t.kids[i])
      ensures a.Key() != b.Key()
    {
      var j := InSomeKid(t.kids[..i], a);
      KidsApart(t.kids, j);
    }
    NothingShared(AssembliesOf(t.kids[..i]), Assemblies(t.kids[i]));
  }

  lemma SameBelow(t: Tree, i: nat, c: ComplexAssembly, outdated: set<BaseAssembly>)
    requires t.Node? && i < |t.kids| && Apart(Assemblies(t)) && Complex(c) in Assemblies(t.kids[i])
    ensures HasOutdatedBelow(t, c, outdated) == HasOutdatedBelow(t.kids[i], c, outdated)
  {
    hide Apart, AssembliesOf;
    BranchIsOnly(t, Complex(c), i);
  }

  lemma TopCounts(t: Tree, outdated: set<BaseAssembly>)
    requires t.Node? && Apart(Assemblies(t))
    ensures OutdatedIn(Assemblies(t), outdated) == OutdatedIn(AssembliesOf(t.kids), outdated)
    ensures |OutdatedAbove(t, Assemblies(t), outdated)| == |OutdatedAbove(t, AssembliesOf(t.kids), outdated)| +
      if |OutdatedIn(AssembliesOf(t.kids), outdated)| + |OutdatedAbove(t, AssembliesOf(t.kids), outdated)| == 0 then 0 else 1
  {
    hide Apart, Assemblies, AssembliesOf, HasOutdatedBelow;
    var c, below := t.complex, AssembliesOf(t.kids);
    NodeParts(t);
    TopIsNew(t);
    BelowTop(t, outdated);
    if OutdatedIn(below, outdated) == {} {
      NoneAbove(t, outdated);
      assert OutdatedAbove(t, Assemblies(t), outdated) == OutdatedAbove(t, below, outdated);
    } else {
      assert OutdatedAbove(t, Assemblies(t), outdated) == OutdatedAbove(t, below, outdated) + {c};
    }
  }

  lemma TopIsNew(t: Tree)
    requires t.Node? && Apart(Assemblies(t))
    ensures BasesIn(Assemblies(t)) == BasesIn(AssembliesOf(t.kids))
    ensures ComplexesIn(Assemblies(t)) == ComplexesIn(AssembliesOf(t.kids)) + {t.complex}
    ensures t.complex !in ComplexesIn(AssembliesOf(t.kids))
  {
    hide Apart, AssembliesOf;
    NodeParts(t);
    UnionOf([Complex(t.complex)], AssembliesOf(t.kids));
    assert BasesIn([Complex(t.complex)]) == {} && ComplexesIn([Complex(t.complex)]) == {t.complex};
  }

  lemma BelowTop(t: Tree, outdated: set<BaseAssembly>)
    requires t.Node?
    ensures HasOutdatedBelow(t, t.complex, outdated) <==> OutdatedIn(AssembliesOf(t.kids), outdated) != {}
  {
    assert Complex(t.complex) in Assemblies(t) && KidsAt(t, t.complex) == t.kids;
    assert forall b :: b in OutdatedIn(AssembliesOf(t.kids), outdated) <==> b in outdated && Base(b) in AssembliesOf(t.kids);
  }

  /** Without an outdated base assembly nothing stands above one. */
  lemma NoneAbove(t: Tree, outdated: set<BaseAssembly>)
    requires t.Node? && Apart(Assemblies(t)) && OutdatedIn(AssembliesOf(t.kids), outdated) == {}
    ensures OutdatedAbove(t, AssembliesOf(t.kids), outdated) == {}
  {
    forall c | c in ComplexesIn(AssembliesOf(t.kids))
      ensures !HasOutdatedBelow(t, c, outdated)
    {
      KidsAtBelow(t, c);
      assert forall b :: Base(b) in Assemblies(t) ==> Base(b) in AssembliesOf(t.kids);
      assert forall b :: Base(b) in AssembliesOf(t.kids) ==> b !in outdated || b in OutdatedIn(AssembliesOf(t.kids), outdated);
    }
  }

  /**
   * The two queries on the whole design: Q6 returns what ST5 returns, and one more for each
   * complex assembly with an outdated base assembly below it.
   */
  method QueriesCompared(setup: Setup, ghost outdated: set<BaseAssembly>) returns (st5: nat, q6: nat)
    requires setup.Valid() && AreOutdated(outdated, setup.assemblies)
    ensures st5 == |outdated|
    ensures q6 == st5 + |OutdatedAbove(setup.tree, setup.assemblies, outdated)|
  {
    hide PartsOk, Partition, Symmetric, Assemblies, AreOutdated, NonEmpty, Books, BasesIn, OutdatedAbove;
    ghost var all := setup.assemblies;
    IndexedBases(setup);
    DesignTraversals.WithinItself(all);
    AllOutdated(all, outdated);
    st5 := Query5(setup.assemblyBuilder.baseAssemblyIdIndex, all, outdated);
    q6 := CheckComplexAssembly(setup.designRoot, setup.tree, null, setup.assemblyBuilder.numAssmLevels, all, outdated);
  }

  lemma AllOutdated(all: seq<Assembly>, outdated: set<BaseAssembly>)
    requires AreOutdated(outdated, all)
    ensures OutdatedIn(all, outdated) == outdated
  {
  }

  lemma IndexedBases(setup: Setup)
    requires setup.Valid()
    ensures var index := setup.assemblyBuilder.baseAssemblyIdIndex;
      && (forall id :: id in index ==> index[id].id == id)
      && (forall b :: b in BasesIn(setup.assemblies) <==> b.id in index && index[b.id] == b)
  {
    hide PartsOk, Partition, Symmetric, Assemblies, NonEmpty, Shape, Apart;
    setup.IndexedInTree(setup.tree);
    forall b
      ensures b in BasesIn(setup.assemblies) <==>
        b.id in setup.assemblyBuilder.baseAssemblyIdIndex && setup.assemblyBuilder.baseAssemblyIdIndex[b.id] == b
    {
      IndexesHoldTheTree(setup, Base(b));
    }
  }
}
