/**
 * The whole shared design and the eight structural modifications.  One invariant ties
 * the tree of assemblies, its indexes and id pools, the composite parts with all they
 * own, and the bag relation between base assemblies and composite parts.
 */
module DesignSetup {
  import opened DesignObjects
  import opened IdPools
  import opened AssemblyTrees
  import opened AssemblyBuilding
  import opened TreeEdits
  import opened ComponentBags
  import opened CompositePartBuilding

  /** The books of the assembly builder show exactly the tree; each id is free or in the tree, once. */
  ghost predicate Books(v: Store, t: Tree, maxBases: nat, maxComplexes: nat) {
    && v.registered == AsSet(Assemblies(t))
    && v.free + KeyBag(Assemblies(t)) == AllKeys(maxBases, maxComplexes)
  }

  lemma BooksAfterGraft(v: Store, t: Tree, p: ComplexAssembly, k: Tree, w: Store, maxBases: nat, maxComplexes: nat)
    requires Books(v, t, maxBases, maxComplexes) && Fair(v) && Added(v, Assemblies(k), w)
    requires Apart(Assemblies(t)) && Apart(Assemblies(k)) && Complex(p) in Assemblies(t)
    ensures Books(w, Grafted(t, p, k), maxBases, maxComplexes)
    ensures Apart(Assemblies(Grafted(t, p, k)))
    ensures AsSet(Assemblies(Grafted(t, p, k))) == AsSet(Assemblies(t)) + AsSet(Assemblies(k))
  {
    hide Apart, Fair, KeyBag, AllKeys, Grafted, Assemblies;
    var before, after := GraftedSplits(t, p, k);
    forall x: Assembly, y: Assembly | x in Assemblies(k) && y in before + after
      ensures x.Key() != y.Key()
    {
      FreshKey(v, t, Assemblies(k), w, x, y);
    }
    StretchNew(before, Assemblies(k), after);
    AddThenAdd(w.free, KeyBag(Assemblies(k)), KeyBag(Assemblies(t)));
  }

  lemma GrownHasShape(v: Store, k: Tree, p: ComplexAssembly, level: int, fanOut: nat, w: Store)
    requires Grown(v, k, p, level, fanOut, w)
    ensures Shape(k, p, level) && forall b :: b in BasesIn(Assemblies(k)) ==> b.components == [] && AssemblyDate(b.buildDate)
    ensures Complete(k, fanOut) && Apart(Assemblies(k)) && Added(v, Assemblies(k), w)
  {
  }

  lemma BasesOfUnion(all: seq<Assembly>, s: seq<Assembly>, t: seq<Assembly>)
    requires AsSet(all) == AsSet(s) + AsSet(t)
    ensures BasesIn(all) == BasesIn(s) + BasesIn(t)
  {
    forall b
      ensures b in BasesIn(all) <==> b in BasesIn(s) || b in BasesIn(t)
    {
      assert Base(b) in AsSet(all) <==> Base(b) in AsSet(s) + AsSet(t);
    }
  }

  lemma BasesOfDifference(all: seq<Assembly>, s: seq<Assembly>, gone: seq<Assembly>)
    requires AsSet(all) == AsSet(s) - AsSet(gone)
    ensures BasesIn(all) == BasesIn(s) - BasesIn(gone)
  {
    forall b
      ensures b in BasesIn(all) <==> b in BasesIn(s) && b !in BasesIn(gone)
    {
      assert Base(b) in AsSet(all) <==> Base(b) in AsSet(s) - AsSet(gone);
    }
  }

  lemma BothSides(bases: set<BaseAssembly>, parts: set<CompositePart>, gone: seq<Assembly>)
    requires Symmetric(bases, parts)
    ensures SymmetricWith(bases, Uses(parts)) && SymmetricWith(bases - BasesIn(gone), Uses(parts))
    ensures Uses(parts).Keys == parts
    ensures forall q :: q in parts ==> Uses(parts)[q] == q.usedIn
    ensures forall q, b :: q in parts && b in q.usedIn ==> b in bases
    ensures forall b :: b in bases - BasesIn(gone) ==> Base(b) !in AsSet(gone)
    ensures forall b :: b in bases && Base(b) !in AsSet(gone) ==> b in bases - BasesIn(gone)
  {
  }

  lemma GraftedOk(v: Store, t: Tree, p: ComplexAssembly, k: Tree, fanOut: nat, w: Store, maxBases: nat, maxComplexes: nat)
    requires Books(v, t, maxBases, maxComplexes) && Fair(v) && Added(v, Assemblies(k), w)
    requires Apart(Assemblies(t)) && Apart(Assemblies(k)) && Complex(p) in Assemblies(t)
    requires NonEmpty(t) && Complete(k, fanOut) && fanOut >= 1
    ensures Books(w, Grafted(t, p, k), maxBases, maxComplexes) && Apart(Assemblies(Grafted(t, p, k)))
    ensures NonEmpty(Grafted(t, p, k))
    ensures BasesIn(Assemblies(Grafted(t, p, k))) == BasesIn(Assemblies(t)) + BasesIn(Assemblies(k))
    ensures Grafted(t, p, k) == Edit(t, p, KidsAt(t, p) + [k])
    ensures Grafted(t, p, k).Node? && Grafted(t, p, k).complex == t.complex
  {
    hide Books, Apart, Fair, Added, Assemblies, KidsAt;
    BooksAfterGraft(v, t, p, k, w, maxBases, maxComplexes);
    BasesOfUnion(Assemblies(Grafted(t, p, k)), Assemblies(t), Assemblies(k));
    KidsAtNonEmpty(t, p);
    CompleteIsNonEmpty(k, fanOut);
    EditNonEmpty(t, p, KidsAt(t, p) + [k]);
  }

  /** The child at `i` among the others: it is found at its place, and shares no object with them. */
  lemma Siblings(t: Tree, p: ComplexAssembly, i: nat)
    requires Apart(Assemblies(t)) && Complex(p) in Assemblies(t) && i < |KidsAt(t, p)|
    ensures FirstIndex(Keys(Tops(KidsAt(t, p))), Top(KidsAt(t, p)[i]).Key()) == i
    ensures Tops(RemoveAt(KidsAt(t, p), i)) == RemoveAt(Tops(KidsAt(t, p)), i)
    ensures forall a :: a in Assemblies(KidsAt(t, p)[i]) ==> a in AssembliesOf(KidsAt(t, p))
    ensures forall j :: 0 <= j < |KidsAt(t, p)| && j != i ==>
      && BasesIn(Assemblies(KidsAt(t, p)[i])) !! BasesIn(Assemblies(KidsAt(t, p)[j]))
      && ComplexesIn(Assemblies(KidsAt(t, p)[i])) !! ComplexesIn(Assemblies(KidsAt(t, p)[j]))
    ensures forall j :: 0 <= j < |RemoveAt(KidsAt(t, p), i)| ==>
      RemoveAt(KidsAt(t, p), i)[j] == KidsAt(t, p)[if j < i then j else j + 1]
  {
    hide Apart, Assemblies, AssembliesOf, KidsAt, BasesIn, ComplexesIn, Tops, Keys, FirstIndex;
    var kids := KidsAt(t, p);
    KidsAtApart(t, p);
    FoundAtOwnPlace(kids, i);
    var before, after := KidRemoved(kids, i);
    TopsAreInside(kids);
    forall j | 0 <= j < |kids| && j != i
      ensures BasesIn(Assemblies(kids[i])) !! BasesIn(Assemblies(kids[j]))
      ensures ComplexesIn(Assemblies(kids[i])) !! ComplexesIn(Assemblies(kids[j]))
    {
      OtherKid(kids, i, j);
    }
  }

  lemma PrunedOk(u: Store, v: Store, w: Store, t: Tree, p: ComplexAssembly, i: nat, maxBases: nat, maxComplexes: nat)
    requires Books(u, t, maxBases, maxComplexes) && v.registered == u.registered && v.free == u.free
    requires Apart(Assemblies(t)) && NonEmpty(t)
    requires Complex(p) in Assemblies(t) && i < |KidsAt(t, p)| && |KidsAt(t, p)| > 1
    requires w.registered == Without(v, Assemblies(KidsAt(t, p)[i])).registered
    requires w.free == Without(v, Assemblies(KidsAt(t, p)[i])).free
    ensures Books(w, Pruned(t, p, i), maxBases, maxComplexes) && Apart(Assemblies(Pruned(t, p, i)))
    ensures NonEmpty(Pruned(t, p, i))
    ensures BasesIn(Assemblies(Pruned(t, p, i))) == BasesIn(Assemblies(t)) - BasesIn(Assemblies(KidsAt(t, p)[i]))
    ensures Pruned(t, p, i) == Edit(t, p, RemoveAt(KidsAt(t, p), i))
    ensures Pruned(t, p, i).Node? && Pruned(t, p, i).complex == t.complex
  {
    hide Apart, Assemblies, KidsAt, AsSet, KeyBag, AllKeys;
    BooksAfterPrune(v, t, p, i, maxBases, maxComplexes);
    BasesOfDifference(Assemblies(Pruned(t, p, i)), Assemblies(t), Assemblies(KidsAt(t, p)[i]));
    KidsAtNonEmpty(t, p);
    EditNonEmpty(t, p, RemoveAt(KidsAt(t, p), i));
  }

  lemma FreshKey(v: Store, t: Tree, s: seq<Assembly>, w: Store, x: Assembly, y: Assembly)
    requires Fair(v) && Added(v, s, w) && v.registered == AsSet(Assemblies(t)) && x in s && y in Assemblies(t)
    ensures x.Key() != y.Key()
  {
    AddedKeys(v, s, w, x);
    assert y in v.registered;
  }

  lemma BooksAfterPrune(v: Store, t: Tree, p: ComplexAssembly, i: nat, maxBases: nat, maxComplexes: nat)
    requires Books(v, t, maxBases, maxComplexes) && Apart(Assemblies(t))
    requires Complex(p) in Assemblies(t) && i < |KidsAt(t, p)|
    ensures Books(Without(v, Assemblies(KidsAt(t, p)[i])), Pruned(t, p, i), maxBases, maxComplexes)
    ensures Apart(Assemblies(Pruned(t, p, i))) && Apart(Assemblies(KidsAt(t, p)[i]))
    ensures AsSet(Assemblies(Pruned(t, p, i))) == AsSet(Assemblies(t)) - AsSet(Assemblies(KidsAt(t, p)[i]))
    ensures AsSet(Assemblies(KidsAt(t, p)[i])) <= AsSet(Assemblies(t))
  {
    hide Apart, KeyBag, AllKeys, Pruned, Assemblies, KidsAt;
    var s := Assemblies(KidsAt(t, p)[i]);
    var before, after := PrunedSplits(t, p, i);
    StretchGone(before, s, after);
    AddThenAdd(v.free, KeyBag(s), KeyBag(before + after));
    assert forall a :: a in s ==> a in before + s + after;
  }

  /** The ids are different because every key is there once. */
  lemma BasesDiffer(t: Tree)
    requires Apart(Assemblies(t))
    ensures DistinctBases(BasesIn(Assemblies(t)))
  {
    var s := Assemblies(t);
    forall b, c | b in BasesIn(s) && c in BasesIn(s) && b.id == c.id
      ensures b == c
    {
      var i :| 0 <= i < |s| && s[i] == Base(b);
      var j :| 0 <= j < |s| && s[j] == Base(c);
      assert s[i].Key() == s[j].Key();
    }
  }

  lemma FirstTree(v: Store, t: Tree, level: int, fanOut: nat, w: Store, maxBases: nat, maxComplexes: nat)
    requires v.registered == {} && v.free == AllKeys(maxBases, maxComplexes)
    requires Grown(v, t, null, level, fanOut, w) && level >= 2 && fanOut >= 1
    ensures t.Node? && Shape(t, null, level) && NonEmpty(t) && Apart(Assemblies(t)) && Complete(t, fanOut)
    ensures Books(w, t, maxBases, maxComplexes)
    ensures forall b :: b in BasesIn(Assemblies(t)) ==> b.components == [] && AssemblyDate(b.buildDate)
  {
    CompleteIsNonEmpty(t, fanOut);
  }

  lemma NothingUsed(bases: set<BaseAssembly>, parts: set<CompositePart>)
    requires parts == {} && forall b :: b in bases ==> b.components == []
    ensures Symmetric(bases, parts)
  {
  }

  /** A root with a complete tree below it, linked as its shape says. */
  ghost predicate FirstDesign(builder: AssemblyBuilder, root: ComplexAssembly, t: Tree, maxBases: nat, maxComplexes: nat)
    reads builder`baseAssemblyIdIndex, builder`complexAssemblyIdIndex
    reads builder.baseAssemblyIdPool`ids, builder.complexAssemblyIdPool`ids
    reads BasesIn(Assemblies(t))`superAssembly, BasesIn(Assemblies(t))`components
    reads ComplexesIn(Assemblies(t))`superAssembly, ComplexesIn(Assemblies(t))`subAssemblies, ComplexesIn(Assemblies(t))`level
  {
    && builder.Sound() && t.Node? && t.complex == root
    && Shape(t, null, builder.numAssmLevels) && NonEmpty(t) && Apart(Assemblies(t)) && Complete(t, builder.numAssmPerAssm)
    && Books(builder.View({}), t, maxBases, maxComplexes)
    && forall b :: b in BasesIn(Assemblies(t)) ==> b.components == [] && AssemblyDate(b.buildDate)
  }

  /** The first tree; when the pools are too small for it, there is no design root. */
  method CreateDesignRoot(builder: AssemblyBuilder, ghost maxBases: nat, ghost maxComplexes: nat)
    returns (root: Option<ComplexAssembly>, ghost t: Option<Tree>)
    requires builder.numAssmPerAssm >= 1 && builder.numAssmLevels >= 2
    requires builder.Sound() && builder.Registered() == {} && builder.Free() == AllKeys(maxBases, maxComplexes)
    modifies builder`baseAssemblyIdIndex, builder`complexAssemblyIdIndex
    modifies builder.baseAssemblyIdPool`ids, builder.complexAssemblyIdPool`ids
    ensures root.Some? <==> old(builder.Enough(builder.numAssmLevels))
    ensures root.Some? ==> t.Some? && FirstDesign(builder, root.value, t.value, maxBases, maxComplexes)
  {
    hide Grown, Books, Shape, NonEmpty, Complete, Apart, AllKeys, Consistent, Assemblies, BasesIn, ComplexesIn;
    hide BaseCount, ComplexCount;
    ghost var v := builder.View({});
    var created, tree := builder.CreateAndRegisterAssembly(null);
    if created.None? {
      return None, None;
    }
    t := tree;
    FirstTree(v, t.value, builder.numAssmLevels, builder.numAssmPerAssm, builder.View({}), maxBases, maxComplexes);
    root := Some(created.value.complex);
  }

  /** The design before any composite part is made, unless the pools are too small for its first tree: then the
      original gives up with a run-time error. */
  method CreateSetup(numAssmPerAssm: nat, numAssmLevels: int, maxBaseAssemblies: nat, maxComplexAssemblies: nat,
                     numAtomicPerComp: nat, numConnPerAtomic: nat, maxCompParts: nat) returns (setup: Option<Setup>)
    requires numAssmPerAssm >= 1 && numAssmLevels >= 2 && numAtomicPerComp >= 1
    ensures setup.Some? <==>
      && maxBaseAssemblies >= BaseCount(numAssmPerAssm, numAssmLevels)
      && maxComplexAssemblies >= ComplexCount(numAssmPerAssm, numAssmLevels)
    ensures setup.Some? ==> setup.value.Valid() && Complete(setup.value.tree, numAssmPerAssm) && setup.value.Parts() == {}
    ensures setup.Some? ==>
      && var builder := setup.value.assemblyBuilder;
      && builder.numAssmPerAssm == numAssmPerAssm && builder.numAssmLevels == numAssmLevels
      && setup.value.maxBaseAssemblies == maxBaseAssemblies && setup.value.maxComplexAssemblies == maxComplexAssemblies
    ensures setup.Some? ==>
      && var builder := setup.value.compositePartBuilder;
      && builder.numAtomicPerComp == numAtomicPerComp && builder.numConnPerAtomic == numConnPerAtomic
      && builder.maxCompParts == maxCompParts
  {
    hide FirstDesign, Complete, AllKeys, BaseCount, ComplexCount, Consistent, Setup.Valid;
    var builder := new AssemblyBuilder(numAssmPerAssm, numAssmLevels, maxBaseAssemblies, maxComplexAssemblies);
    var root, t := CreateDesignRoot(builder, maxBaseAssemblies, maxComplexAssemblies);
    if root.None? {
      return None;
    }
    var created := new Setup(builder, root.value, t.value, maxBaseAssemblies, maxComplexAssemblies,
                             numAtomicPerComp, numConnPerAtomic, maxCompParts);
    setup := Some(created);
  }

  class Setup {
    const maxBaseAssemblies: nat
    const maxComplexAssemblies: nat
    const assemblyBuilder: AssemblyBuilder
    const compositePartBuilder: CompositePartBuilder
    const designRoot: ComplexAssembly
    /** The tree below the design root, and its assemblies. */
    ghost var tree: Tree
    ghost var assemblies: seq<Assembly>

    ghost function Bases(): set<BaseAssembly>
      reads this`assemblies
    {
      BasesIn(assemblies)
    }

    ghost function Parts(): set<CompositePart>
      reads compositePartBuilder`compositePartIdIndex
    {
      compositePartBuilder.Composites()
    }

    /** The assemblies: shape, guards, and agreement with indexes and pools. */
    ghost predicate TreeOk(t: Tree)
      reads assemblyBuilder`baseAssemblyIdIndex, assemblyBuilder`complexAssemblyIdIndex
      reads assemblyBuilder.baseAssemblyIdPool`ids, assemblyBuilder.complexAssemblyIdPool`ids
      reads BasesIn(Assemblies(t))`superAssembly, ComplexesIn(Assemblies(t))`superAssembly
      reads ComplexesIn(Assemblies(t))`subAssemblies, ComplexesIn(Assemblies(t))`level
    {
      && assemblyBuilder.Sound() && assemblyBuilder.numAssmPerAssm >= 1 && assemblyBuilder.numAssmLevels >= 2
      && t.Node? && t.complex == designRoot
      && Shape(t, null, assemblyBuilder.numAssmLevels)
      && NonEmpty(t) && Apart(Assemblies(t))
      && Books(assemblyBuilder.View({}), t, maxBaseAssemblies, maxComplexAssemblies)
      && forall b :: b in BasesIn(Assemblies(t)) ==> AssemblyDate(b.buildDate)
    }

    ghost predicate PoolsApart() {
      var others := {compositePartBuilder.idPool, compositePartBuilder.documentBuilder.idPool,
                     compositePartBuilder.atomicPartBuilder.idPool};
      assemblyBuilder.baseAssemblyIdPool !in others && assemblyBuilder.complexAssemblyIdPool !in others
    }

    ghost predicate Valid()
      reads this`tree, this`assemblies
      reads assemblyBuilder`baseAssemblyIdIndex, assemblyBuilder`complexAssemblyIdIndex
      reads assemblyBuilder.baseAssemblyIdPool`ids, assemblyBuilder.complexAssemblyIdPool`ids
      reads BasesIn(Assemblies(tree))`superAssembly, ComplexesIn(Assemblies(tree))`superAssembly
      reads ComplexesIn(Assemblies(tree))`subAssemblies, ComplexesIn(Assemblies(tree))`level
      reads compositePartBuilder`compositePartIdIndex, compositePartBuilder.documentBuilder`documentTitleIndex
      reads compositePartBuilder.atomicPartBuilder`partIdIndex
      reads compositePartBuilder.atomicPartBuilder`partBuildDateIndex
      reads compositePartBuilder.idPool`ids, compositePartBuilder.documentBuilder.idPool`ids
      reads compositePartBuilder.atomicPartBuilder.idPool`ids
      reads Parts()`documentation, Parts()`parts, Parts()`rootPart, Parts()`ring, Parts()`usedIn
      reads Documents(compositePartBuilder.documentBuilder.documentTitleIndex)`part
      reads compositePartBuilder.Live()`partOf, compositePartBuilder.Live()`to, compositePartBuilder.Live()`buildDate
      reads Bases()`components
    {
      && TreeOk(tree) && assemblies == Assemblies(tree)
      && PoolsApart()
      && compositePartBuilder.Valid() && compositePartBuilder.Balanced()
      && Symmetric(Bases(), Parts())
    }

    constructor (builder: AssemblyBuilder, root: ComplexAssembly, ghost t: Tree, maxBaseAssemblies: nat,
                 maxComplexAssemblies: nat, numAtomicPerComp: nat, numConnPerAtomic: nat, maxCompParts: nat)
      requires FirstDesign(builder, root, t, maxBaseAssemblies, maxComplexAssemblies)
      requires builder.numAssmPerAssm >= 1 && builder.numAssmLevels >= 2 && numAtomicPerComp >= 1
      ensures Valid() && tree == t && Parts() == {} && Complete(tree, builder.numAssmPerAssm) && assemblyBuilder == builder
      ensures this.maxBaseAssemblies == maxBaseAssemblies && this.maxComplexAssemblies == maxComplexAssemblies
      ensures compositePartBuilder.numAtomicPerComp == numAtomicPerComp
      ensures compositePartBuilder.numConnPerAtomic == numConnPerAtomic && compositePartBuilder.maxCompParts == maxCompParts
    {
      hide Books, Shape, NonEmpty, Complete, Apart, Consistent, Symmetric, PartsOk, Partition, Assemblies;
      hide BasesIn, ComplexesIn, DocumentsKeyed;
      ghost var bases, complexes := BasesIn(Assemblies(t)), ComplexesIn(Assemblies(t));
      NothingUsed(bases, {});
      this.maxBaseAssemblies := maxBaseAssemblies;
      this.maxComplexAssemblies := maxComplexAssemblies;
      assemblyBuilder := builder;
      designRoot := root;
      tree := t;
      assemblies := Assemblies(t);
      compositePartBuilder := new CompositePartBuilder(numAtomicPerComp, numConnPerAtomic, maxCompParts);
    }

    /** What the invariant says of the two builders, and of the relation between what they build. */
    lemma TakeApart()
      requires Valid()
      ensures TreeOk(tree) && assemblies == Assemblies(tree) && PoolsApart()
      ensures compositePartBuilder.Valid() && compositePartBuilder.Balanced() && Symmetric(Bases(), Parts())
    {
    }

    lemma ShapeOfTree(t: Tree)
      requires TreeOk(t)
      ensures t.Node? && t.complex == designRoot && Shape(t, null, assemblyBuilder.numAssmLevels)
    {
    }

    /** With this tree the invariant holds. */
    ghost method Adopt(t: Tree)
      requires TreeOk(t) && PoolsApart() && compositePartBuilder.Valid() && compositePartBuilder.Balanced()
      requires Symmetric(BasesIn(Assemblies(t)), Parts())
      modifies this`tree, this`assemblies
      ensures Valid() && tree == t && assemblies == Assemblies(t)
    {
      hide TreeOk, CompositePartBuilder.Valid, CompositePartBuilder.Balanced, Symmetric, Assemblies, BasesIn, ComplexesIn;
      ghost var bases, complexes, parts := BasesIn(Assemblies(t)), ComplexesIn(Assemblies(t)), Parts();
      ghost var documents := Documents(compositePartBuilder.documentBuilder.documentTitleIndex);
      ghost var live := compositePartBuilder.Live();
      tree := t;
      assemblies := Assemblies(t);
    }

    /** Children hang below an assembly of the tree with the shape that its level asks for. */
    lemma Below(t: Tree, p: ComplexAssembly)
      requires TreeOk(t) && Complex(p) in Assemblies(t)
      ensures 2 <= p.level && p.subAssemblies == Tops(KidsAt(t, p))
      ensures forall j :: 0 <= j < |KidsAt(t, p)| ==> Shape(KidsAt(t, p)[j], p, p.level - 1)
      ensures forall j :: 0 <= j < |KidsAt(t, p)| ==>
        && p !in ComplexesIn(Assemblies(KidsAt(t, p)[j]))
        && BasesIn(Assemblies(KidsAt(t, p)[j])) <= BasesIn(Assemblies(t))
        && ComplexesIn(Assemblies(KidsAt(t, p)[j])) <= ComplexesIn(Assemblies(t))
      ensures assemblyBuilder.Open(p) && Fair(assemblyBuilder.View({}))
    {
      hide Shape, Apart, NonEmpty, Assemblies, AssembliesOf, KidsAt, Tops, KeyBag, AllKeys, FreeKeys, Entries;
      KidsAtShape(t, null, assemblyBuilder.numAssmLevels, p);
      NotBelowItself(t, p);
      KidsAtBelow(t, p);
      TopsAreInside(KidsAt(t, p));
      assert forall a :: a in AssembliesOf(KidsAt(t, p)) ==> a in assemblyBuilder.Registered();
    }

    /** The creation itself, and what it leaves of the shape. */
    method CreateSubtree(ghost t: Tree, ghost all: seq<Assembly>, superAssembly: ComplexAssembly, ghost kids: seq<Tree>,
                         ghost level: int) returns (created: bool, ghost k: Option<Tree>)
      requires assemblyBuilder.Sound() && Shape(t, null, level) && all == Assemblies(t) && Apart(all)
      requires Complex(superAssembly) in all && kids == KidsAt(t, superAssembly)
      requires superAssembly.level >= 2 && assemblyBuilder.Open(superAssembly) && superAssembly.subAssemblies == Tops(kids)
      requires forall j :: 0 <= j < |kids| ==> Shape(kids[j], superAssembly, superAssembly.level - 1)
      modifies assemblyBuilder`baseAssemblyIdIndex, assemblyBuilder`complexAssemblyIdIndex
      modifies assemblyBuilder.baseAssemblyIdPool`ids, assemblyBuilder.complexAssemblyIdPool`ids
      modifies superAssembly`subAssemblies
      ensures assemblyBuilder.Sound() && (created <==> old(assemblyBuilder.Enough(superAssembly.level - 1)))
      ensures !created ==>
        && Shape(t, null, level) && assemblyBuilder.View({}) == old(assemblyBuilder.View({}))
        && assemblyBuilder.baseAssemblyIdIndex == old(assemblyBuilder.baseAssemblyIdIndex)
        && assemblyBuilder.complexAssemblyIdIndex == old(assemblyBuilder.complexAssemblyIdIndex)
      ensures created ==>
        && k.Some? && Shape(Edit(t, superAssembly, kids + [k.value]), null, level)
        && Grown(old(assemblyBuilder.View({})), k.value, superAssembly, superAssembly.level - 1,
                 assemblyBuilder.numAssmPerAssm, assemblyBuilder.View({}))
        && fresh(BasesIn(Assemblies(k.value)))
    {
      hide Shape, Apart, Assemblies, AssembliesOf, KidsAt, Edit, Grown, Consistent, Fair, NewTree, Added;
      hide AssemblyBuilder.Open, AssemblyBuilder.Sound;
      hide Tops, BasesIn, ComplexesIn, FreeKeys, Entries, AssemblyBuilder.Enough;
      ghost var p, v := superAssembly, assemblyBuilder.View({});
      ghost var bases, complexes := BasesIn(all), ComplexesIn(all);
      var assembly, subtree := assemblyBuilder.CreateAndRegisterAssembly(superAssembly);
      created, k := assembly.Some?, subtree;
      if created {
        AppendKid(kids, k.value);
        GrownHasShape(v, k.value, p, p.level - 1, assemblyBuilder.numAssmPerAssm, assemblyBuilder.View({}));
        assert OnlyEdited(all, p, []);
        GraftShape(Spot(Site(t, null), p), level, k.value);
      }
    }

    /** A creation below `p` grafts the new subtree onto the tree, or changes nothing. */
    method CreateInTree(ghost t: Tree, ghost all: seq<Assembly>, superAssembly: ComplexAssembly, ghost kids: seq<Tree>)
      returns (created: bool, ghost k: Option<Tree>)
      requires TreeOk(t) && all == Assemblies(t) && Complex(superAssembly) in all && kids == KidsAt(t, superAssembly)
      modifies assemblyBuilder`baseAssemblyIdIndex, assemblyBuilder`complexAssemblyIdIndex
      modifies assemblyBuilder.baseAssemblyIdPool`ids, assemblyBuilder.complexAssemblyIdPool`ids
      modifies superAssembly`subAssemblies
      ensures created <==> old(assemblyBuilder.Enough(superAssembly.level - 1))
      ensures !created ==>
        && TreeOk(t) && assemblyBuilder.baseAssemblyIdIndex == old(assemblyBuilder.baseAssemblyIdIndex)
        && assemblyBuilder.complexAssemblyIdIndex == old(assemblyBuilder.complexAssemblyIdIndex)
      ensures created ==>
        && k.Some? && TreeOk(Grafted(t, superAssembly, k.value))
        && Complete(k.value, assemblyBuilder.numAssmPerAssm)
        && BasesIn(Assemblies(Grafted(t, superAssembly, k.value))) == BasesIn(all) + BasesIn(Assemblies(k.value))
        && fresh(BasesIn(Assemblies(k.value))) && forall b :: b in BasesIn(Assemblies(k.value)) ==> b.components == []
    {
      hide Shape, Apart, NonEmpty, Complete, Assemblies, AssembliesOf, KidsAt, Edit, Grafted, Grown, NewTree;
      hide Books, KeyBag, AllKeys, Consistent, Fair, Tops, BasesIn, ComplexesIn, FreeKeys, Entries, Added;
      hide AssemblyBuilder.Enough;
      ghost var p, v, level := superAssembly, assemblyBuilder.View({}), assemblyBuilder.numAssmLevels;
      Below(t, p);
      created, k := CreateSubtree(t, all, superAssembly, kids, level);
      if created {
        GrownHasShape(v, k.value, p, p.level - 1, assemblyBuilder.numAssmPerAssm, assemblyBuilder.View({}));
        GraftedOk(v, t, p, k.value, assemblyBuilder.numAssmPerAssm, assemblyBuilder.View({}), maxBaseAssemblies, maxComplexAssemblies);
      }
    }

    /** The common part of SM5 and SM7. */
    method CreateBelow(superAssembly: ComplexAssembly) returns (created: bool)
      requires Valid() && Complex(superAssembly) in assemblies
      modifies this`tree, this`assemblies, assemblyBuilder`baseAssemblyIdIndex, assemblyBuilder`complexAssemblyIdIndex
      modifies assemblyBuilder.baseAssemblyIdPool`ids, assemblyBuilder.complexAssemblyIdPool`ids
      modifies superAssembly`subAssemblies
      ensures Valid()
      ensures created <==> old(assemblyBuilder.Enough(superAssembly.level - 1))
      ensures !created ==>
        && tree == old(tree) && assemblyBuilder.baseAssemblyIdIndex == old(assemblyBuilder.baseAssemblyIdIndex)
        && assemblyBuilder.complexAssemblyIdIndex == old(assemblyBuilder.complexAssemblyIdIndex)
      ensures Complex(superAssembly) in Assemblies(old(tree))
      ensures created ==>
        exists k :: Complete(k, assemblyBuilder.numAssmPerAssm) && tree == Grafted(old(tree), superAssembly, k)
    {
      hide TreeOk, PartsOk, Partition, Symmetric, Assemblies, KidsAt, Grafted, NewTree, BasesIn, ComplexesIn, DocumentsKeyed;
      hide CompositePartBuilder.Valid, CompositePartBuilder.Balanced, Setup.Valid;
      ghost var t, all := tree, assemblies;
      ghost var bases, parts := Bases(), Parts();
      ghost var documents := Documents(compositePartBuilder.documentBuilder.documentTitleIndex);
      ghost var live := compositePartBuilder.Live();
      TakeApart();
      ghost var k;
      created, k := CreateInTree(tree, assemblies, superAssembly, KidsAt(tree, superAssembly));
      if created {
        NewBases(bases, parts, BasesIn(Assemblies(k.value)));
        Adopt(Grafted(t, superAssembly, k.value));
      } else {
        Adopt(t);
      }
    }

    /** The subtree is registered and linked, as its removal asks for. */
    lemma CanBeRemoved(t: Tree, p: ComplexAssembly, i: nat, parts: set<CompositePart>)
      requires TreeOk(t) && Complex(p) in Assemblies(t) && i < |KidsAt(t, p)|
      requires SymmetricWith(BasesIn(Assemblies(t)), Uses(parts))
      requires forall q, b :: q in parts && b in q.usedIn ==> b in BasesIn(Assemblies(t))
      ensures Removable(Assemblies(KidsAt(t, p)[i]), assemblyBuilder.View(parts))
    {
      var s := Assemblies(KidsAt(t, p)[i]);
      BooksAfterPrune(assemblyBuilder.View(parts), t, p, i, maxBaseAssemblies, maxComplexAssemblies);
      BasesDiffer(t);
      assert AsSet(s) <= AsSet(Assemblies(t));
      forall b | b in BasesIn(s)
        ensures Linked(b, b.components, Uses(parts))
      {
        assert Base(b) in AsSet(s);
      }
    }

    /** The removal itself, and what it leaves of the shape. */
    method RemoveSubtree(ghost t: Tree, ghost all: seq<Assembly>, assembly: Assembly, ghost p: ComplexAssembly,
                         ghost kids: seq<Tree>, ghost i: nat, ghost level: int, ghost parts: set<CompositePart>)
      requires assemblyBuilder.Sound() && Shape(t, null, level) && all == Assemblies(t) && Apart(all)
      requires Complex(p) in all && kids == KidsAt(t, p) && i < |kids| && assembly == Top(kids[i])
      requires DistinctParts(parts) && Removable(Assemblies(kids[i]), assemblyBuilder.View(parts))
      requires p.subAssemblies == Tops(kids)
      requires forall j :: 0 <= j < |kids| ==> Shape(kids[j], p, p.level - 1)
      requires forall j :: 0 <= j < |kids| ==>
        && p !in ComplexesIn(Assemblies(kids[j]))
        && BasesIn(Assemblies(kids[j])) <= BasesIn(all) && ComplexesIn(Assemblies(kids[j])) <= ComplexesIn(all)
      modifies assemblyBuilder`baseAssemblyIdIndex, assemblyBuilder`complexAssemblyIdIndex
      modifies assemblyBuilder.baseAssemblyIdPool`ids, assemblyBuilder.complexAssemblyIdPool`ids
      modifies BasesIn(Assemblies(kids[i]))`superAssembly, BasesIn(Assemblies(kids[i]))`components
      modifies ComplexesIn(Assemblies(kids[i]))`superAssembly
      modifies ComplexesIn(Assemblies(kids[i]))`subAssemblies, ComplexesIn(Assemblies(kids[i]))`level
      modifies p`subAssemblies, parts`usedIn
      ensures Shape(Edit(t, p, RemoveAt(kids, i)), null, level)
      ensures assemblyBuilder.Sound()
      ensures assemblyBuilder.View(parts) == Without(old(assemblyBuilder.View(parts)), Assemblies(kids[i]))
      ensures Cleared(Assemblies(kids[i]))
    {
      hide Cleared, Shape, Apart, Assemblies, AssembliesOf, KidsAt, Edit, Without, Removable, Consistent, DistinctParts;
      hide Tops, BasesIn, ComplexesIn, FreeKeys, Entries, Keys, FirstIndex, RemoveAt;
      ghost var bases, complexes := BasesIn(all), ComplexesIn(all);
      Siblings(t, p, i);
      assemblyBuilder.UnregisterAndRecycleAssembly(assembly, kids[i], p, p.level - 1, parts);
      assert OnlyEdited(all, p, AssembliesOf(kids));
      assert forall j :: 0 <= j < |kids| && j != i ==> Shape(kids[j], p, p.level - 1);
      EditShape(Site(t, null), level, p, RemoveAt(kids, i), AssembliesOf(kids));
    }

    /** A removal prunes the subtree below `p` and takes its assemblies out of all uses. */
    method RemoveInTree(ghost t: Tree, ghost all: seq<Assembly>, assembly: Assembly, ghost p: ComplexAssembly,
                        ghost kids: seq<Tree>, ghost i: nat, ghost parts: set<CompositePart>)
      requires TreeOk(t) && all == Assemblies(t) && Complex(p) in all && kids == KidsAt(t, p)
      requires i < |kids| && |kids| > 1 && assembly == Top(kids[i])
      requires DistinctParts(parts) && SymmetricWith(BasesIn(all), Uses(parts))
      requires forall q, b :: q in parts && b in q.usedIn ==> b in BasesIn(all)
      modifies assemblyBuilder`baseAssemblyIdIndex, assemblyBuilder`complexAssemblyIdIndex
      modifies assemblyBuilder.baseAssemblyIdPool`ids, assemblyBuilder.complexAssemblyIdPool`ids
      modifies BasesIn(Assemblies(kids[i]))`superAssembly, BasesIn(Assemblies(kids[i]))`components
      modifies ComplexesIn(Assemblies(kids[i]))`superAssembly
      modifies ComplexesIn(Assemblies(kids[i]))`subAssemblies, ComplexesIn(Assemblies(kids[i]))`level
      modifies p`subAssemblies, parts`usedIn
      ensures TreeOk(Pruned(t, p, i))
      ensures BasesIn(Assemblies(Pruned(t, p, i))) == BasesIn(all) - BasesIn(Assemblies(kids[i]))
      ensures forall q :: q in parts ==> q.usedIn == Purged(old(q.usedIn), AsSet(Assemblies(kids[i])))
      ensures Cleared(Assemblies(kids[i]))
    {
      hide Cleared, Shape, Apart, NonEmpty, Assemblies, AssembliesOf, KidsAt, Edit, Pruned, Without, Removable, DistinctParts;
      hide Books, KeyBag, AllKeys, Consistent, Tops, BasesIn, ComplexesIn, FreeKeys, Entries, RemoveAt, Purged, SymmetricWith;
      ghost var v, u := assemblyBuilder.View(parts), assemblyBuilder.View({});
      Below(t, p);
      CanBeRemoved(t, p, i, parts);
      RemoveSubtree(t, all, assembly, p, kids, i, assemblyBuilder.numAssmLevels, parts);
      PrunedOk(u, v, assemblyBuilder.View({}), t, p, i, maxBaseAssemblies, maxComplexAssemblies);
      forall q | q in parts
        ensures q.usedIn == Purged(old(q.usedIn), AsSet(Assemblies(kids[i])))
      {
        UsesWithout(v, Assemblies(kids[i]), q);
      }
    }

    lemma Place(t: Tree, assembly: Assembly) returns (p: ComplexAssembly, i: nat)
      requires TreeOk(t) && assembly in Assemblies(t) && assembly != Complex(designRoot)
      ensures SuperOf(assembly) == p && Complex(p) in Assemblies(t)
      ensures i < |KidsAt(t, p)| && Top(KidsAt(t, p)[i]) == assembly && |KidsAt(t, p)| == |p.subAssemblies|
      ensures BasesIn(Assemblies(KidsAt(t, p)[i])) <= BasesIn(Assemblies(t))
      ensures ComplexesIn(Assemblies(KidsAt(t, p)[i])) <= ComplexesIn(Assemblies(t))
    {
      hide KidsAt, Assemblies, NonEmpty, Books;
      p, i := HangsBelow(t, null, assemblyBuilder.numAssmLevels, assembly);
      Below(t, p);
    }

    /** The removal also takes the assemblies out of the relation to the parts. */
    method RemoveAndPurge(ghost t: Tree, ghost all: seq<Assembly>, assembly: Assembly, ghost p: ComplexAssembly,
                          ghost kids: seq<Tree>, ghost i: nat, ghost parts: set<CompositePart>)
      requires TreeOk(t) && all == Assemblies(t) && Complex(p) in all && kids == KidsAt(t, p)
      requires i < |kids| && |kids| > 1 && assembly == Top(kids[i])
      requires BasesIn(Assemblies(kids[i])) <= BasesIn(all) && ComplexesIn(Assemblies(kids[i])) <= ComplexesIn(all)
      requires DistinctParts(parts) && Symmetric(BasesIn(all), parts)
      modifies assemblyBuilder`baseAssemblyIdIndex, assemblyBuilder`complexAssemblyIdIndex
      modifies assemblyBuilder.baseAssemblyIdPool`ids, assemblyBuilder.complexAssemblyIdPool`ids
      modifies BasesIn(all)`superAssembly, BasesIn(Assemblies(kids[i]))`components, ComplexesIn(all)`superAssembly
      modifies ComplexesIn(all)`subAssemblies, ComplexesIn(all)`level
      modifies parts`usedIn
      ensures TreeOk(Pruned(t, p, i)) && Symmetric(BasesIn(Assemblies(Pruned(t, p, i))), parts)
      ensures forall q :: q in parts ==> q.usedIn == Purged(old(q.usedIn), AsSet(Assemblies(kids[i])))
      ensures Cleared(Assemblies(kids[i]))
    {
      hide Cleared, TreeOk, Symmetric, Assemblies, AssembliesOf, KidsAt, Edit, Pruned, DistinctParts;
      hide BasesIn, ComplexesIn, AsSet, Purged, SymmetricWith, Consistent;
      ghost var bases, gone := BasesIn(all), Assemblies(kids[i]);
      ghost var rest, uses := bases - BasesIn(gone), Uses(parts);
      BothSides(bases, parts, gone);
      RemoveInTree(t, all, assembly, p, kids, i, parts);
      AfterPurge(rest, parts, uses, AsSet(gone), bases);
    }

    /** And the composite parts stay as they are, but for their users. */
    method RemoveFromDesign(ghost t: Tree, ghost all: seq<Assembly>, assembly: Assembly, ghost p: ComplexAssembly,
                            ghost kids: seq<Tree>, ghost i: nat, ghost parts: set<CompositePart>)
      requires TreeOk(t) && all == Assemblies(t) && Complex(p) in all && kids == KidsAt(t, p)
      requires i < |kids| && |kids| > 1 && assembly == Top(kids[i])
      requires BasesIn(Assemblies(kids[i])) <= BasesIn(all) && ComplexesIn(Assemblies(kids[i])) <= ComplexesIn(all)
      requires PoolsApart() && compositePartBuilder.Valid() && parts == Parts() && Symmetric(BasesIn(all), parts)
      modifies assemblyBuilder`baseAssemblyIdIndex, assemblyBuilder`complexAssemblyIdIndex
      modifies assemblyBuilder.baseAssemblyIdPool`ids, assemblyBuilder.complexAssemblyIdPool`ids
      modifies BasesIn(all)`superAssembly, BasesIn(Assemblies(kids[i]))`components, ComplexesIn(all)`superAssembly
      modifies ComplexesIn(all)`subAssemblies, ComplexesIn(all)`level
      modifies parts`usedIn
      ensures TreeOk(Pruned(t, p, i)) && compositePartBuilder.Valid()
      ensures Symmetric(BasesIn(Assemblies(Pruned(t, p, i))), parts)
      ensures forall q :: q in parts ==> q.usedIn == Purged(old(q.usedIn), AsSet(Assemblies(kids[i])))
      ensures Cleared(Assemblies(kids[i]))
    {
      hide Cleared, TreeOk, PartsOk, Partition, Symmetric, Assemblies, AssembliesOf, KidsAt, Edit, Pruned, DistinctParts;
      hide BasesIn, ComplexesIn, DocumentsKeyed, Consistent, CompositePartBuilder.Valid, AsSet, Purged;
      ghost var bases := BasesIn(all);
      ghost var documents := Documents(compositePartBuilder.documentBuilder.documentTitleIndex);
      ghost var live := compositePartBuilder.Live();
      PartsAreKeyed();
      RemoveAndPurge(t, all, assembly, p, kids, i, parts);
    }

    lemma GoneIs(t: Tree, p: ComplexAssembly, i: nat)
      requires TreeOk(t) && Complex(p) in Assemblies(t) && i < |KidsAt(t, p)|
      ensures AsSet(Assemblies(t)) - AsSet(Assemblies(Pruned(t, p, i))) == AsSet(Assemblies(KidsAt(t, p)[i]))
      ensures forall b :: b in BasesIn(Assemblies(t)) && Base(b) !in AsSet(Assemblies(KidsAt(t, p)[i])) ==>
        b !in BasesIn(Assemblies(KidsAt(t, p)[i]))
    {
      hide Shape, NonEmpty, Assemblies, KidsAt, Apart, Pruned, KeyBag, AllKeys;
      BooksAfterPrune(assemblyBuilder.View({}), t, p, i, maxBaseAssemblies, maxComplexAssemblies);
    }

    /** The common part of SM6 and SM8. */
    method RemoveBelow(assembly: Assembly)
      requires Valid() && assembly in assemblies && assembly != Complex(designRoot)
      requires SuperOf(assembly) != null && |SuperOf(assembly).subAssemblies| != 1
      modifies this`tree, this`assemblies, assemblyBuilder`baseAssemblyIdIndex, assemblyBuilder`complexAssemblyIdIndex
      modifies assemblyBuilder.baseAssemblyIdPool`ids, assemblyBuilder.complexAssemblyIdPool`ids
      modifies BasesIn(assemblies)`superAssembly, BasesIn(assemblies)`components, ComplexesIn(assemblies)`superAssembly
      modifies ComplexesIn(assemblies)`subAssemblies, ComplexesIn(assemblies)`level
      modifies Parts()`usedIn
      ensures Valid()
      ensures IsPruned(old(tree), assembly, tree)
      ensures OnlyUsersGone(old(Bases()), old(Parts()), old(AsSet(assemblies)) - AsSet(assemblies))
      ensures AllCleared(old(AsSet(assemblies)) - AsSet(assemblies))
    {
      hide Cleared, TreeOk, PartsOk, Partition, Symmetric, Assemblies, AssembliesOf, KidsAt, Edit, Pruned;
      hide CompositePartBuilder.Valid, CompositePartBuilder.Balanced, Setup.Valid;
      hide BasesIn, ComplexesIn, DocumentsKeyed, Consistent, AsSet, Purged;
      TakeApart();
      ghost var t, parts := tree, Parts();
      ghost var p, i := Place(t, assembly);
      GoneIs(t, p, i);
      RemoveFromDesign(t, assemblies, assembly, p, KidsAt(t, p), i, parts);
      ClearedAsSet(Assemblies(KidsAt(t, p)[i]));
      Adopt(Pruned(t, p, i));
    }

    // ---------- the structural modifications; `false` is the operation failure ----------

    /** What an index leads to stands under its own id and is in the tree. */
    lemma IndexedInTree(t: Tree)
      requires TreeOk(t)
      ensures forall id :: id in assemblyBuilder.baseAssemblyIdIndex ==>
        && assemblyBuilder.baseAssemblyIdIndex[id].id == id && Base(assemblyBuilder.baseAssemblyIdIndex[id]) in Assemblies(t)
      ensures forall id :: id in assemblyBuilder.complexAssemblyIdIndex ==>
        && assemblyBuilder.complexAssemblyIdIndex[id].id == id
        && Complex(assemblyBuilder.complexAssemblyIdIndex[id]) in Assemblies(t)
    {
      hide Shape, NonEmpty, Apart, Assemblies;
      forall id | id in assemblyBuilder.baseAssemblyIdIndex
        ensures Base(assemblyBuilder.baseAssemblyIdIndex[id]) in Assemblies(t)
      {
        assert Base(assemblyBuilder.baseAssemblyIdIndex[id]) in assemblyBuilder.Registered();
      }
      forall id | id in assemblyBuilder.complexAssemblyIdIndex
        ensures Complex(assemblyBuilder.complexAssemblyIdIndex[id]) in Assemblies(t)
      {
        assert Complex(assemblyBuilder.complexAssemblyIdIndex[id]) in assemblyBuilder.Registered();
      }
    }

    /** A base assembly hangs below one of level 2. */
    lemma BaseInTree(t: Tree, b: BaseAssembly)
      requires TreeOk(t) && Base(b) in Assemblies(t)
      ensures b.superAssembly != null && Complex(b.superAssembly) in Assemblies(t) && b.superAssembly.level == 2
    {
      hide TreeOk, Assemblies, KidsAt, Shape;
      var p, i := Place(t, Base(b));
      Below(t, p);
      LeafLevel(KidsAt(t, p)[i], p, p.level - 1);
    }

    lemma LeafLevel(t: Tree, parent: ComplexAssembly?, level: int)
      requires Shape(t, parent, level) && Top(t).Base?
      ensures level == 1
    {
    }

    /** A complex assembly hangs below another one, unless it is the design root. */
    lemma ComplexInTree(t: Tree, c: ComplexAssembly)
      requires TreeOk(t) && Complex(c) in Assemblies(t)
      ensures c.superAssembly == null <==> c == designRoot
      ensures c.superAssembly != null ==> Complex(c.superAssembly) in Assemblies(t)
    {
      hide Assemblies, KidsAt, Shape, NonEmpty, Books, Apart;
      TopHasNoSuper(t, assemblyBuilder.numAssmLevels, Complex(c));
      if c != designRoot {
        var p, i := Place(t, Complex(c));
      }
    }

    lemma PartsAreKeyed()
      requires compositePartBuilder.Valid()
      ensures DistinctParts(Parts())
      ensures forall id :: id in compositePartBuilder.compositePartIdIndex ==>
        && compositePartBuilder.compositePartIdIndex[id].id == id
        && compositePartBuilder.compositePartIdIndex[id] in Parts()
        && compositePartBuilder.compositePartIdIndex[id].parts <= compositePartBuilder.Live()
    {
      hide PartsOk;
      PartsDiffer(compositePartBuilder.compositePartIdIndex, compositePartBuilder.documentBuilder.documentTitleIndex,
                  compositePartBuilder.Live(), compositePartBuilder.numAtomicPerComp);
    }

    lemma BasesOfTreeDiffer(t: Tree)
      requires TreeOk(t)
      ensures DistinctBases(BasesIn(Assemblies(t)))
    {
      BasesDiffer(t);
    }

    method StructuralModification1() returns (done: bool)
      requires Valid()
      modifies compositePartBuilder`compositePartIdIndex, compositePartBuilder.documentBuilder`documentTitleIndex
      modifies compositePartBuilder.atomicPartBuilder`partIdIndex
      modifies compositePartBuilder.atomicPartBuilder`partBuildDateIndex, compositePartBuilder.idPool`ids
      modifies compositePartBuilder.documentBuilder.idPool`ids, compositePartBuilder.atomicPartBuilder.idPool`ids
      ensures Valid()
      ensures done <==> old(compositePartBuilder.idPool.ids) != []
      ensures done ==> exists c ::
        && fresh(c) && c !in old(Parts()) && Parts() == old(Parts()) + {c}
        && c.usedIn == [] && FullyConnected(c, compositePartBuilder.numConnPerAtomic)
      ensures !done ==>
        && compositePartBuilder.compositePartIdIndex == old(compositePartBuilder.compositePartIdIndex)
        && compositePartBuilder.documentBuilder.documentTitleIndex == old(compositePartBuilder.documentBuilder.documentTitleIndex)
        && compositePartBuilder.atomicPartBuilder.partIdIndex == old(compositePartBuilder.atomicPartBuilder.partIdIndex)
    {
      hide TreeOk, PartsOk, Partition, Symmetric, Assemblies, BasesIn, ComplexesIn, DocumentsKeyed, Consistent, Grafted;
      hide FullyConnected;
      ghost var bases, complexes, parts := Bases(), ComplexesIn(assemblies), Parts();
      assert Symmetric(bases, parts);
      compositePartBuilder.PoolsInStep();
      ghost var index := compositePartBuilder.compositePartIdIndex;
      var created := compositePartBuilder.CreateAndRegisterCompositePart();
      done := created.Some?;
      if done {
        PutComposite(index, created.value);
        NewPart(bases, parts, created.value);
      }
    }

    /** The step of SM2. */
    method RemovePart(partToRemove: CompositePart)
      requires Valid() && partToRemove in Parts()
      modifies compositePartBuilder`compositePartIdIndex, compositePartBuilder.documentBuilder`documentTitleIndex
      modifies compositePartBuilder.atomicPartBuilder`partIdIndex
      modifies compositePartBuilder.atomicPartBuilder`partBuildDateIndex, compositePartBuilder.idPool`ids
      modifies compositePartBuilder.documentBuilder.idPool`ids, compositePartBuilder.atomicPartBuilder.idPool`ids
      modifies partToRemove`usedIn, partToRemove`documentation, partToRemove`parts, partToRemove`rootPart
      modifies partToRemove.parts`x, partToRemove.parts`y, partToRemove.parts`to, partToRemove.parts`from
      modifies partToRemove.parts`partOf
      modifies Documents(compositePartBuilder.documentBuilder.documentTitleIndex)`part, BasesIn(assemblies)`components
      ensures Valid()
      ensures compositePartBuilder.compositePartIdIndex == old(compositePartBuilder.compositePartIdIndex) - {partToRemove.id}
      ensures forall b :: b in Bases() ==> b.components == Dropped(old(b.components), partToRemove)
      ensures partToRemove.usedIn == [] && partToRemove.documentation == null && partToRemove.parts == {}
    {
      hide TreeOk, PartsOk, Partition, Symmetric, Assemblies, BasesIn, ComplexesIn, DocumentsKeyed, Consistent, Dropped;
      hide CompositePartBuilder.Valid, CompositePartBuilder.Balanced, OwnedBy, OnlyOneWithId, DistinctBases;
      ghost var bases, complexes, parts := Bases(), ComplexesIn(assemblies), Parts();
      ghost var components := Components(bases);
      PartsAreKeyed();
      WithoutOne(compositePartBuilder.compositePartIdIndex, partToRemove.id);
      BasesOfTreeDiffer(tree);
      OwnersOf(bases, parts, partToRemove);
      compositePartBuilder.UnregisterAndRecycleCompositePart(partToRemove, bases);
      assert TreeOk(tree);
      AfterDrop(bases, Parts(), components, partToRemove);
    }

    /** The composite part that the index has under this id, if any. */
    ghost function Indexed(id: int): set<CompositePart>
      reads compositePartBuilder`compositePartIdIndex
    {
      if id in compositePartBuilder.compositePartIdIndex then {compositePartBuilder.compositePartIdIndex[id]} else {}
    }

    ghost function PartsOfIndexed(id: int): set<AtomicPart>
      reads compositePartBuilder`compositePartIdIndex, Indexed(id)`parts
    {
      if id in compositePartBuilder.compositePartIdIndex then compositePartBuilder.compositePartIdIndex[id].parts else {}
    }

    method StructuralModification2(partToRemoveId: int) returns (done: bool)
      requires Valid()
      modifies compositePartBuilder`compositePartIdIndex, compositePartBuilder.documentBuilder`documentTitleIndex
      modifies compositePartBuilder.atomicPartBuilder`partIdIndex
      modifies compositePartBuilder.atomicPartBuilder`partBuildDateIndex, compositePartBuilder.idPool`ids
      modifies compositePartBuilder.documentBuilder.idPool`ids, compositePartBuilder.atomicPartBuilder.idPool`ids
      modifies Indexed(partToRemoveId)`usedIn, Indexed(partToRemoveId)`documentation, Indexed(partToRemoveId)`parts
      modifies Indexed(partToRemoveId)`rootPart, PartsOfIndexed(partToRemoveId)`x, PartsOfIndexed(partToRemoveId)`y
      modifies PartsOfIndexed(partToRemoveId)`to, PartsOfIndexed(partToRemoveId)`from, PartsOfIndexed(partToRemoveId)`partOf
      modifies Documents(compositePartBuilder.documentBuilder.documentTitleIndex)`part, BasesIn(assemblies)`components
      ensures Valid()
      ensures done <==> partToRemoveId in old(compositePartBuilder.compositePartIdIndex)
      ensures done ==>
        && compositePartBuilder.compositePartIdIndex == old(compositePartBuilder.compositePartIdIndex) - {partToRemoveId}
        && forall b :: b in Bases() ==>
             b.components == Dropped(old(b.components), old(compositePartBuilder.compositePartIdIndex)[partToRemoveId])
      ensures done ==>
        && var c := old(compositePartBuilder.compositePartIdIndex)[partToRemoveId];
        && c.usedIn == [] && c.documentation == null && c.parts == {}
      ensures !done ==>
        && compositePartBuilder.compositePartIdIndex == old(compositePartBuilder.compositePartIdIndex)
        && BagsKept(old(Bases()), old(Parts()))
    {
      hide TreeOk, Assemblies, BasesIn, ComplexesIn, Setup.Valid, Dropped, CompositePartBuilder.Valid;
      hide CompositePartBuilder.Balanced;
      if partToRemoveId !in compositePartBuilder.compositePartIdIndex {
        return false;
      }
      TakeApart();
      PartsAreKeyed();
      RemovePart(compositePartBuilder.compositePartIdIndex[partToRemoveId]);
      done := true;
    }

    /** The step of SM3: one use more, on both sides. */
    method Use(baseAssembly: BaseAssembly, component: CompositePart)
      requires Valid() && baseAssembly in Bases() && component in Parts()
      modifies baseAssembly`components, component`usedIn
      ensures Valid()
      ensures Components(Bases()) == old(Components(Bases())[baseAssembly := baseAssembly.components + [component]])
      ensures Uses(Parts()) == old(Uses(Parts())[component := component.usedIn + [baseAssembly]])
    {
      hide TreeOk, PartsOk, Partition, Symmetric, Assemblies, BasesIn, ComplexesIn, DocumentsKeyed, Consistent;
      hide CompositePartBuilder.Valid, CompositePartBuilder.Balanced;
      ghost var bases, complexes, parts := Bases(), ComplexesIn(assemblies), Parts();
      ghost var documents := Documents(compositePartBuilder.documentBuilder.documentTitleIndex);
      ghost var live := compositePartBuilder.Live();
      ghost var components, uses := Components(bases), Uses(parts);
      AddPair(baseAssembly, component, bases, parts);
      OneComponentsList(bases, components, baseAssembly);
      OneUsesList(parts, uses, component);
    }

    method StructuralModification3(baseAssemblyId: int, componentId: int) returns (done: bool)
      requires Valid()
      modifies BasesIn(assemblies)`components, Parts()`usedIn
      ensures Valid()
      ensures done <==>
        && baseAssemblyId in assemblyBuilder.baseAssemblyIdIndex
        && componentId in compositePartBuilder.compositePartIdIndex
      ensures done ==>
        && var b := old(assemblyBuilder.baseAssemblyIdIndex)[baseAssemblyId];
        && var c := old(compositePartBuilder.compositePartIdIndex)[componentId];
        && Components(Bases()) == old(Components(Bases())[b := b.components + [c]])
        && Uses(Parts()) == old(Uses(Parts())[c := c.usedIn + [b]])
      ensures !done ==> BagsKept(old(Bases()), old(Parts()))
    {
      hide TreeOk, Assemblies, BasesIn, ComplexesIn, Setup.Valid, CompositePartBuilder.Valid, CompositePartBuilder.Balanced;
      if baseAssemblyId !in assemblyBuilder.baseAssemblyIdIndex || componentId !in compositePartBuilder.compositePartIdIndex {
        return false;
      }
      TakeApart();
      BaseIsIndexed(baseAssemblyId);
      PartsAreKeyed();
      Use(assemblyBuilder.baseAssemblyIdIndex[baseAssemblyId], compositePartBuilder.compositePartIdIndex[componentId]);
      done := true;
    }

    lemma BaseIsIndexed(id: int)
      requires TreeOk(tree) && assemblies == Assemblies(tree) && id in assemblyBuilder.baseAssemblyIdIndex
      ensures assemblyBuilder.baseAssemblyIdIndex[id] in Bases() && DistinctBases(Bases())
    {
      hide TreeOk;
      IndexedInTree(tree);
      BasesOfTreeDiffer(tree);
    }

    /** The step of SM4: one use of a component less, on both sides. */
    method Unuse(baseAssembly: BaseAssembly, component: CompositePart)
      requires Valid() && baseAssembly in Bases() && component in baseAssembly.components
      requires DistinctBases(Bases()) && DistinctParts(Parts())
      modifies baseAssembly`components, component`usedIn
      ensures Valid()
      ensures forall p :: p in Parts() ==>
        old(Count(baseAssembly.components, p)) == Count(baseAssembly.components, p) + (if p == component then 1 else 0)
      ensures OneUseLess(old(Components(Bases())), Components(Bases()), baseAssembly, component)
      ensures OneUserLess(old(Uses(Parts())), Uses(Parts()), component, baseAssembly)
    {
      hide TreeOk, PartsOk, Partition, Symmetric, Assemblies, BasesIn, ComplexesIn, DocumentsKeyed, Consistent, Count, OneLess;
      hide CompositePartBuilder.Valid, CompositePartBuilder.Balanced, DistinctBases, DistinctParts;
      ghost var bases, complexes, parts := Bases(), ComplexesIn(assemblies), Parts();
      ghost var documents := Documents(compositePartBuilder.documentBuilder.documentTitleIndex);
      ghost var live := compositePartBuilder.Live();
      ghost var components, uses := Components(bases), Uses(parts);
      RemovePair(baseAssembly, component, bases, parts);
      OneComponentsList(bases, components, baseAssembly);
      OneUsesList(parts, uses, component);
    }

    /** Any component can be drawn; the first use of it is removed, on both sides. */
    method StructuralModification4(baseAssemblyId: int) returns (removed: Option<CompositePart>)
      requires Valid()
      modifies BasesIn(assemblies)`components, Parts()`usedIn
      ensures Valid()
      ensures removed.Some? <==>
        && baseAssemblyId in assemblyBuilder.baseAssemblyIdIndex
        && old(assemblyBuilder.baseAssemblyIdIndex[baseAssemblyId].components) != []
      ensures removed.Some? ==>
        && var b := assemblyBuilder.baseAssemblyIdIndex[baseAssemblyId];
        && removed.value in old(b.components)
        && (forall p :: p in Parts() ==>
             old(Count(b.components, p)) == Count(b.components, p) + (if p == removed.value then 1 else 0))
      ensures removed.Some? ==>
        && OneUseLess(old(Components(Bases())), Components(Bases()), old(assemblyBuilder.baseAssemblyIdIndex)[baseAssemblyId], removed.value)
        && OneUserLess(old(Uses(Parts())), Uses(Parts()), removed.value, old(assemblyBuilder.baseAssemblyIdIndex)[baseAssemblyId])
      ensures removed.None? ==> BagsKept(old(Bases()), old(Parts()))
    {
      hide TreeOk, Symmetric, Assemblies, BasesIn, ComplexesIn, Count, OneUseLess, OneUserLess;
      hide Setup.Valid, CompositePartBuilder.Valid, CompositePartBuilder.Balanced, DistinctBases, DistinctParts;
      if baseAssemblyId !in assemblyBuilder.baseAssemblyIdIndex {
        return None;
      }
      var baseAssembly := assemblyBuilder.baseAssemblyIdIndex[baseAssemblyId];
      var numOfComponents := |baseAssembly.components|;
      if numOfComponents == 0 {
        return None;
      }
      var componentToRemove :| 0 <= componentToRemove < numOfComponents;
      var component := baseAssembly.components[componentToRemove];
      TakeApart();
      BaseIsIndexed(baseAssemblyId);
      PartsAreKeyed();
      UsedIsPart(baseAssembly, component);
      Unuse(baseAssembly, component);
      removed := Some(component);
    }

    lemma UsedIsPart(b: BaseAssembly, p: CompositePart)
      requires Symmetric(Bases(), Parts()) && b in Bases() && p in b.components
      ensures p in Parts()
    {
    }

    method StructuralModification5(siblingBaseAssemblyId: int) returns (done: bool)
      requires Valid()
      modifies this`tree, this`assemblies, assemblyBuilder`baseAssemblyIdIndex, assemblyBuilder`complexAssemblyIdIndex
      modifies assemblyBuilder.baseAssemblyIdPool`ids, assemblyBuilder.complexAssemblyIdPool`ids
      modifies ComplexesIn(assemblies)`subAssemblies
      ensures Valid()
      ensures done <==>
        && siblingBaseAssemblyId in old(assemblyBuilder.baseAssemblyIdIndex)
        && old(assemblyBuilder.baseAssemblyIdPool.ids) != []
      ensures !done ==> tree == old(tree) && assemblyBuilder.baseAssemblyIdIndex == old(assemblyBuilder.baseAssemblyIdIndex)
      ensures done ==> exists p: ComplexAssembly, k: Tree ::
        && p == old(assemblyBuilder.baseAssemblyIdIndex[siblingBaseAssemblyId].superAssembly)
        && Complex(p) in Assemblies(old(tree)) && Complete(k, assemblyBuilder.numAssmPerAssm)
        && tree == Grafted(old(tree), p, k)
    {
      hide TreeOk, PartsOk, Partition, Symmetric, Assemblies, BasesIn, ComplexesIn, DocumentsKeyed, Consistent, Grafted;
      if siblingBaseAssemblyId !in assemblyBuilder.baseAssemblyIdIndex {
        return false;
      }
      IndexedInTree(tree);
      var siblingBaseAssembly := assemblyBuilder.baseAssemblyIdIndex[siblingBaseAssemblyId];
      BaseInTree(tree, siblingBaseAssembly);
      var superAssembly := siblingBaseAssembly.superAssembly;
      done := CreateBelow(superAssembly);
    }

    method StructuralModification6(baseAssemblyToRemoveId: int) returns (done: bool)
      requires Valid()
      modifies this`tree, this`assemblies, assemblyBuilder`baseAssemblyIdIndex, assemblyBuilder`complexAssemblyIdIndex
      modifies assemblyBuilder.baseAssemblyIdPool`ids, assemblyBuilder.complexAssemblyIdPool`ids
      modifies BasesIn(assemblies)`superAssembly, BasesIn(assemblies)`components, ComplexesIn(assemblies)`superAssembly
      modifies ComplexesIn(assemblies)`subAssemblies, ComplexesIn(assemblies)`level, Parts()`usedIn
      ensures Valid()
      ensures done <==>
        && baseAssemblyToRemoveId in old(assemblyBuilder.baseAssemblyIdIndex)
        && old(HasSibling(Base(assemblyBuilder.baseAssemblyIdIndex[baseAssemblyToRemoveId])))
      ensures done ==> IsPruned(old(tree), Base(old(assemblyBuilder.baseAssemblyIdIndex)[baseAssemblyToRemoveId]), tree)
      ensures done ==> OnlyUsersGone(old(Bases()), old(Parts()), old(AsSet(assemblies)) - AsSet(assemblies))
      ensures done ==> AllCleared(old(AsSet(assemblies)) - AsSet(assemblies))
      ensures !done ==> tree == old(tree) && BagsKept(old(Bases()), old(Parts()))
    {
      hide TreeOk, PartsOk, Partition, Symmetric, Assemblies, BasesIn, ComplexesIn, DocumentsKeyed, Consistent, Grafted;
      if baseAssemblyToRemoveId !in assemblyBuilder.baseAssemblyIdIndex {
        return false;
      }
      IndexedInTree(tree);
      var baseAssemblyToRemove := assemblyBuilder.baseAssemblyIdIndex[baseAssemblyToRemoveId];
      BaseInTree(tree, baseAssemblyToRemove);
      if |baseAssemblyToRemove.superAssembly.subAssemblies| == 1 {
        return false;
      }
      RemoveBelow(Base(baseAssemblyToRemove));
      done := true;
    }

    method StructuralModification7(superAssemblyId: int) returns (done: bool)
      requires Valid()
      modifies this`tree, this`assemblies, assemblyBuilder`baseAssemblyIdIndex, assemblyBuilder`complexAssemblyIdIndex
      modifies assemblyBuilder.baseAssemblyIdPool`ids, assemblyBuilder.complexAssemblyIdPool`ids
      modifies ComplexesIn(assemblies)`subAssemblies
      ensures Valid()
      ensures done <==>
        && superAssemblyId in old(assemblyBuilder.complexAssemblyIdIndex)
        && old(assemblyBuilder.Enough(assemblyBuilder.complexAssemblyIdIndex[superAssemblyId].level - 1))
      ensures !done ==> tree == old(tree) && assemblyBuilder.complexAssemblyIdIndex == old(assemblyBuilder.complexAssemblyIdIndex)
      ensures done ==> exists p: ComplexAssembly, k: Tree ::
        && p == old(assemblyBuilder.complexAssemblyIdIndex)[superAssemblyId]
        && Complex(p) in Assemblies(old(tree)) && Complete(k, assemblyBuilder.numAssmPerAssm)
        && tree == Grafted(old(tree), p, k)
    {
      hide TreeOk, PartsOk, Partition, Symmetric, Assemblies, BasesIn, ComplexesIn, DocumentsKeyed, Consistent, Grafted;
      if superAssemblyId !in assemblyBuilder.complexAssemblyIdIndex {
        return false;
      }
      IndexedInTree(tree);
      done := CreateBelow(assemblyBuilder.complexAssemblyIdIndex[superAssemblyId]);
    }

    method StructuralModification8(complexAssemblyId: int) returns (done: bool)
      requires Valid()
      modifies this`tree, this`assemblies, assemblyBuilder`baseAssemblyIdIndex, assemblyBuilder`complexAssemblyIdIndex
      modifies assemblyBuilder.baseAssemblyIdPool`ids, assemblyBuilder.complexAssemblyIdPool`ids
      modifies BasesIn(assemblies)`superAssembly, BasesIn(assemblies)`components, ComplexesIn(assemblies)`superAssembly
      modifies ComplexesIn(assemblies)`subAssemblies, ComplexesIn(assemblies)`level, Parts()`usedIn
      ensures Valid()
      ensures done <==>
        && complexAssemblyId in old(assemblyBuilder.complexAssemblyIdIndex)
        && old(HasSibling(Complex(assemblyBuilder.complexAssemblyIdIndex[complexAssemblyId])))
      ensures done ==> IsPruned(old(tree), Complex(old(assemblyBuilder.complexAssemblyIdIndex)[complexAssemblyId]), tree)
      ensures done ==> OnlyUsersGone(old(Bases()), old(Parts()), old(AsSet(assemblies)) - AsSet(assemblies))
      ensures done ==> AllCleared(old(AsSet(assemblies)) - AsSet(assemblies))
      ensures !done ==> tree == old(tree) && BagsKept(old(Bases()), old(Parts()))
    {
      hide TreeOk, PartsOk, Partition, Symmetric, Assemblies, BasesIn, ComplexesIn, DocumentsKeyed, Consistent, Grafted;
      if complexAssemblyId !in assemblyBuilder.complexAssemblyIdIndex {
        return false;
      }
      IndexedInTree(tree);
      var complexAssembly := assemblyBuilder.complexAssemblyIdIndex[complexAssemblyId];
      ComplexInTree(tree, complexAssembly);
      var superAssembly := complexAssembly.superAssembly;
      if superAssembly == null || |superAssembly.subAssemblies| == 1 {
        return false;
      }
      RemoveBelow(Complex(complexAssembly));
      done := true;
    }
  }

  twostate predicate BagsKept(bases: set<BaseAssembly>, parts: set<CompositePart>)
    reads bases`components, parts`usedIn
  {
    && (forall b :: b in bases ==> b.components == old(b.components))
    && (forall q :: q in parts ==> q.usedIn == old(q.usedIn))
  }

  /** The assemblies that stay keep their components, and the parts lose the users that go, and no others. */
  twostate predicate OnlyUsersGone(bases: set<BaseAssembly>, parts: set<CompositePart>, gone: set<Assembly>)
    reads bases`components, parts`usedIn
  {
    && (forall b :: b in bases && Base(b) !in gone ==> b.components == old(b.components))
    && (forall q :: q in parts ==> q.usedIn == Purged(old(q.usedIn), gone))
  }

  /** What has been removed is linked to nothing any more. */
  ghost predicate AllCleared(gone: set<Assembly>)
    reads (set a | a in gone && a.Base? :: a.base)`superAssembly, (set a | a in gone && a.Base? :: a.base)`components
    reads (set a | a in gone && a.Complex? :: a.complex)`superAssembly
    reads (set a | a in gone && a.Complex? :: a.complex)`subAssemblies
  {
    forall a :: a in gone ==>
      match a
      case Base(b) => b.superAssembly == null && b.components == []
      case Complex(c) => c.superAssembly == null && c.subAssemblies == []
  }

  lemma ClearedAsSet(s: seq<Assembly>)
    requires Cleared(s)
    ensures AllCleared(AsSet(s))
  {
  }

  /** The assembly is not the only child of the one it hangs below. */
  ghost predicate HasSibling(a: Assembly)
    reads (if a.Base? then {a.base} else {})`superAssembly, (if a.Complex? then {a.complex} else {})`superAssembly
    reads (if SuperOf(a) == null then {} else {SuperOf(a)})`subAssemblies
  {
    SuperOf(a) != null && |SuperOf(a).subAssemblies| != 1
  }

  /** The tree after the removal of one assembly and all below it. */
  ghost predicate IsPruned(t: Tree, assembly: Assembly, t': Tree) {
    exists p, i ::
      && p in ComplexesIn(Assemblies(t)) && 0 <= i < |KidsAt(t, p)| && Top(KidsAt(t, p)[i]) == assembly
      && t' == Pruned(t, p, i)
  }
}
