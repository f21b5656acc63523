/**
 * The walks T1 and T3 over the whole design: down the tree of assemblies, and for every use
 * of a composite part through its graph of atomic parts.
 */
module DesignTraversals {
  import opened DesignObjects
  import opened AssemblyTrees
  import opened TreeEdits
  import opened ComponentBags
  import opened IdPools
  import opened AtomicPartBuilding
  import opened CompositePartBuilding
  import opened PartTraversals
  import opened DesignSetup

  // ---------- the uses below an assembly ----------

  /** The composite parts that the base assemblies of a list use, each as often as it is used. */
  ghost function AllUses(s: seq<Assembly>, components: map<BaseAssembly, seq<CompositePart>>): seq<CompositePart> {
    if s == [] then [] else AllUses(s[..|s| - 1], components) + UsesOf(s[|s| - 1], components)
  }

  ghost function UsesOf(a: Assembly, components: map<BaseAssembly, seq<CompositePart>>): seq<CompositePart> {
    if a.Base? && a.base in components then components[a.base] else []
  }

  lemma {:induction false} AllUsesConcat(s: seq<Assembly>, t: seq<Assembly>, components: map<BaseAssembly, seq<CompositePart>>)
    ensures AllUses(s + t, components) == AllUses(s, components) + AllUses(t, components)
  {
    hide UsesOf;
    if t == [] {
      assert s + t == s;
    } else {
      var init, last := t[..|t| - 1], UsesOf(t[|t| - 1], components);
      AllUsesConcat(s, init, components);
      assert (s + t)[..|s + t| - 1] == s + init && (s + t)[|s + t| - 1] == t[|t| - 1];
      assert AllUses(s + t, components) == (AllUses(s, components) + AllUses(init, components)) + last;
      assert AllUses(t, components) == AllUses(init, components) + last;
    }
  }

  /** How often an assembly of the list occurs in a bag of users. */
  ghost function CountAll(s: seq<Assembly>, users: seq<BaseAssembly>): nat {
    if s == [] then 0
    else
      var last := s[|s| - 1];
      CountAll(s[..|s| - 1], users) + if last.Base? then Count(users, last.base) else 0
  }

  lemma {:induction false} UsesAreCounted(s: seq<Assembly>, components: map<BaseAssembly, seq<CompositePart>>,
                                          c: CompositePart, users: seq<BaseAssembly>)
    requires forall b :: b in BasesIn(s) ==> b in components && Count(components[b], c) == Count(users, b)
    ensures Count(AllUses(s, components), c) == CountAll(s, users)
  {
    if s != [] {
      var init, last := s[..|s| - 1], s[|s| - 1];
      assert s == init + [last];
      UsesAreCounted(init, components, c, users);
      if last.Base? {
        assert last.base in BasesIn(s);
        CountConcat(AllUses(init, components), components[last.base], c);
      } else {
        assert AllUses(s, components) == AllUses(init, components);
      }
    }
  }

  lemma {:induction false} CountAllSplit(s: seq<Assembly>, users: seq<BaseAssembly>)
    requires users != []
    ensures CountAll(s, users) == CountAll(s, users[1..]) + Count(s, Base(users[0]))
  {
    if s != [] {
      var init, last := s[..|s| - 1], s[|s| - 1];
      assert s == init + [last];
      CountAllSplit(init, users);
      CountConcat(init, [last], Base(users[0]));
      OneCounts(last, Base(users[0]));
    }
  }

  lemma OneCounts(a: Assembly, b: Assembly)
    ensures Count([a], b) == if a == b then 1 else 0
  {
    assert [a][1..] == [];
  }

  lemma {:induction false} OccursOnce(s: seq<Assembly>, a: Assembly)
    requires Apart(s) && a in s
    ensures Count(s, a) == 1
  {
    if s[0] == a {
      NotUsed(s[1..], a);
    } else {
      assert forall i, j :: 0 <= i < j < |s| - 1 ==> s[1..][i] == s[i + 1] && s[1..][j] == s[j + 1];
      OccursOnce(s[1..], a);
    }
  }

  lemma {:induction false} NothingCounted(s: seq<Assembly>)
    ensures CountAll(s, []) == 0
  {
    if s != [] {
      NothingCounted(s[..|s| - 1]);
    }
  }

  /** Counted over all base assemblies, each there once, the users are counted once each. */
  lemma {:induction false} CountAllUsers(s: seq<Assembly>, users: seq<BaseAssembly>)
    requires Apart(s) && forall b :: b in users ==> Base(b) in s
    ensures CountAll(s, users) == |users|
  {
    if users == [] {
      NothingCounted(s);
    } else {
      CountAllSplit(s, users);
      OccursOnce(s, Base(users[0]));
      CountAllUsers(s, users[1..]);
    }
  }

  // ---------- the dates after T1 and T3 ----------

  /** The date of an atomic part after so many walks of its composite part. */
  function DateAfterUses(kind: Traversal, date: int, uses: nat, root: bool): int {
    if (kind.T3b? || (kind.T3a? && root)) && uses % 2 == 1 then Toggled(date) else date
  }

  /** The composite parts that are used and the live atomic parts, with the owner of each and those that are roots. */
  datatype Graph = Graph(parts: set<CompositePart>, live: set<AtomicPart>, n: nat,
                         owners: map<AtomicPart, CompositePart>, roots: set<AtomicPart>)

  ghost predicate GraphsOk(g: Graph)
    reads g.parts`parts, g.parts`rootPart, g.parts`ring, g.live`to
  {
    forall c :: c in g.parts ==> GraphOk(c, g.live, g.n) && Owns(c, g)
  }

  ghost predicate Owns(c: CompositePart, g: Graph)
    reads c`parts, c`rootPart
  {
    && (forall p :: p in g.live ==> (p in c.parts <==> p in g.owners && g.owners[p] == c))
    && (forall p :: p in c.parts ==> (p in g.roots <==> p == c.rootPart))
  }

  /** The dates after a walk of each of the composite parts. */
  ghost function AfterWalks(kind: Traversal, dates: map<AtomicPart, int>, g: Graph, uses: seq<CompositePart>):
    map<AtomicPart, int>
  {
    map p | p in dates ::
      DateAfterUses(kind, dates[p], if p in g.owners then Count(uses, g.owners[p]) else 0, p in g.roots)
  }

  lemma NoWalks(kind: Traversal, dates: map<AtomicPart, int>, g: Graph)
    ensures AfterWalks(kind, dates, g, []) == dates
  {
  }

  lemma WalksConcat(kind: Traversal, dates: map<AtomicPart, int>, g: Graph, s: seq<CompositePart>, t: seq<CompositePart>)
    ensures AfterWalks(kind, AfterWalks(kind, dates, g, s), g, t) == AfterWalks(kind, dates, g, s + t)
  {
    forall p | p in dates && p in g.owners
      ensures Count(s + t, g.owners[p]) == Count(s, g.owners[p]) + Count(t, g.owners[p])
    {
      CountConcat(s, t, g.owners[p]);
    }
    forall p | p in dates
      ensures Toggled(Toggled(dates[p])) == dates[p]
    {
      ToggledTwice(dates[p]);
    }
  }

  lemma OneWalk(kind: Traversal, dates: map<AtomicPart, int>, g: Graph, c: CompositePart, after: map<AtomicPart, int>)
    requires Owns(c, g) && dates.Keys == after.Keys == g.live
    requires forall p :: p in g.live ==>
      after[p] == if p in c.parts then DateAfter(kind, dates[p], p == c.rootPart) else dates[p]
    ensures after == AfterWalks(kind, dates, g, [c])
  {
    forall p | p in g.live && p in g.owners
      ensures Count([c], g.owners[p]) == if g.owners[p] == c then 1 else 0
    {
      assert [c][1..] == [];
    }
  }

  /** T1 and T3c leave the dates as they were. */
  lemma WalksKeepDates(kind: Traversal, dates: map<AtomicPart, int>, g: Graph, uses: seq<CompositePart>)
    requires KeepsDates(kind)
    ensures AfterWalks(kind, dates, g, uses) == dates
  {
  }

  // ---------- the walks ----------

  method TraverseBaseAssembly(kind: Traversal, baseAssembly: BaseAssembly, builder: AtomicPartBuilder, ghost g: Graph)
    returns (partsVisited: nat)
    requires builder.Valid() && g.live == builder.Live() && GraphsOk(g)
    requires forall c :: c in baseAssembly.components ==> c in g.parts
    modifies builder`partBuildDateIndex, g.live`buildDate
    ensures builder.Valid()
    ensures partsVisited == Score(kind, g.n, true) * |baseAssembly.components|
    ensures Dates(g.live) == AfterWalks(kind, old(Dates(g.live)), g, baseAssembly.components)
  {
    hide AtomicPartBuilder.Valid, Score, Dates, GraphOk, Owns, AfterWalks;
    partsVisited := 0;
    var i := 0;
    NoWalks(kind, Dates(g.live), g);
    while i < |baseAssembly.components|
      invariant i <= |baseAssembly.components|
      invariant builder.Valid() && partsVisited == Score(kind, g.n, true) * i
      invariant Dates(g.live) == AfterWalks(kind, old(Dates(g.live)), g, baseAssembly.components[..i])
    {
      var component := baseAssembly.components[i];
      assert component in g.parts;
      GraphStaysInside(component, g.live, g.n);
      var visited := TraverseInside(kind, component, builder, g);
      WalksConcat(kind, old(Dates(g.live)), g, baseAssembly.components[..i], [component]);
      assert baseAssembly.components[..i + 1] == baseAssembly.components[..i] + [component];
      partsVisited := partsVisited + visited;
      i := i + 1;
    }
    assert baseAssembly.components[..i] == baseAssembly.components;
  }

  method TraverseInside(kind: Traversal, component: CompositePart, builder: AtomicPartBuilder, ghost g: Graph)
    returns (partsVisited: nat)
    requires builder.Valid() && g.live == builder.Live() && GraphOk(component, g.live, g.n) && Owns(component, g)
    modifies builder`partBuildDateIndex, component.parts`buildDate
    ensures builder.Valid() && partsVisited == Score(kind, g.n, true)
    ensures component.parts <= g.live
    ensures Dates(g.live) == AfterWalks(kind, old(Dates(g.live)), g, [component])
  {
    hide AtomicPartBuilder.Valid, Score, GraphOk, DateAfter, AfterWalks;
    GraphStaysInside(component, g.live, g.n);
    ghost var parts := component.parts;
    ghost var dates, partDates := Dates(g.live), Dates(parts);
    partsVisited := TraverseComponent(kind, component, builder, g.n);
    forall p | p in g.live
      ensures p.buildDate == if p in parts then DateAfter(kind, dates[p], p == component.rootPart) else dates[p]
    {
      if p in parts {
        assert Dates(parts)[p] == p.buildDate && partDates[p] == dates[p];
      }
    }
    OneWalk(kind, dates, g, component, Dates(g.live));
  }

  /** The record of the components is what the heap holds, and they are among the parts. */
  ghost predicate Recorded(components: map<BaseAssembly, seq<CompositePart>>, parts: set<CompositePart>)
    reads components.Keys`components
  {
    && (forall b :: b in components ==> b.components == components[b])
    && (forall b, c :: b in components && c in components[b] ==> c in parts)
  }

  /** The walk down the tree: each use of a composite part counts with all its atomic parts. */
  method TraverseAssembly(kind: Traversal, assembly: Assembly, builder: AtomicPartBuilder, ghost t: Tree,
                          ghost parent: ComplexAssembly?, ghost level: int, ghost all: seq<Assembly>,
                          ghost components: map<BaseAssembly, seq<CompositePart>>, ghost g: Graph)
    returns (partsVisited: nat)
    requires builder.Valid() && g.live == builder.Live() && GraphsOk(g)
    requires Shape(t, parent, level) && assembly == Top(t) && Within(Assemblies(t), all)
    requires components.Keys == BasesIn(all) && Recorded(components, g.parts)
    modifies builder`partBuildDateIndex, g.live`buildDate
    ensures builder.Valid()
    ensures partsVisited == Score(kind, g.n, true) * |AllUses(Assemblies(t), components)|
    ensures Dates(g.live) == AfterWalks(kind, old(Dates(g.live)), g, AllUses(Assemblies(t), components))
    decreases t, 1
  {
    hide AtomicPartBuilder.Valid, Score, Dates, GraphsOk, AllUses, Assemblies, AssembliesOf, BasesIn, ComplexesIn, Within;
    hide Recorded, AfterWalks, Shape;
    match assembly {
      case Base(b) =>
        OneBase(b, t, all, components, g.parts);
        partsVisited := TraverseBaseAssembly(kind, b, builder, g);
      case Complex(c) =>
        partsVisited := TraverseComplexAssembly(kind, c, builder, t, parent, level, all, components, g);
    }
  }

  method TraverseComplexAssembly(kind: Traversal, complexAssembly: ComplexAssembly, builder: AtomicPartBuilder,
                                 ghost t: Tree, ghost parent: ComplexAssembly?, ghost level: int,
                                 ghost all: seq<Assembly>, ghost components: map<BaseAssembly, seq<CompositePart>>,
                                 ghost g: Graph)
    returns (partsVisited: nat)
    requires builder.Valid() && g.live == builder.Live() && GraphsOk(g)
    requires Shape(t, parent, level) && Complex(complexAssembly) == Top(t) && Within(Assemblies(t), all)
    requires components.Keys == BasesIn(all) && Recorded(components, g.parts)
    modifies builder`partBuildDateIndex, g.live`buildDate
    ensures builder.Valid()
    ensures partsVisited == Score(kind, g.n, true) * |AllUses(Assemblies(t), components)|
    ensures Dates(g.live) == AfterWalks(kind, old(Dates(g.live)), g, AllUses(Assemblies(t), components))
    decreases t, 0
  {
    hide AtomicPartBuilder.Valid, Score, Dates, GraphsOk, AllUses, Assemblies, AssembliesOf, BasesIn, ComplexesIn, Within;
    hide Shape, Tops;
    hide Recorded, AfterWalks;
    ghost var w, bases, complexes := Score(kind, g.n, true), BasesIn(all), ComplexesIn(all);
    ghost var dates := Dates(g.live);
    partsVisited := 0;
    var i := 0;
    NoKids(w, t, components);
    NoWalks(kind, dates, g);
    KidsFit(t, parent, level);
    while i < |complexAssembly.subAssemblies|
      invariant i <= |complexAssembly.subAssemblies| == |t.kids|
      invariant Shape(t, parent, level) && Recorded(components, g.parts)
      invariant builder.Valid() && partsVisited == w * |AllUses(AssembliesOf(t.kids[..i]), components)|
      invariant Dates(g.live) == AfterWalks(kind, dates, g, AllUses(AssembliesOf(t.kids[..i]), components))
    {
      KidWithin(t, i, all);
      WithinHolds(Assemblies(t), all);
      KidsFit(t, parent, level);
      var visited := TraverseAssembly(kind, complexAssembly.subAssemblies[i], builder, t.kids[i], complexAssembly,
                                      level - 1, all, components, g);
      OneKidMore(w, t.kids, i, components);
      WalksConcat(kind, dates, g, AllUses(AssembliesOf(t.kids[..i]), components), AllUses(Assemblies(t.kids[i]), components));
      partsVisited := partsVisited + visited;
      i := i + 1;
    }
    AllKids(t, i, components);
  }

  lemma KidsFit(t: Tree, parent: ComplexAssembly?, level: int)
    requires t.Node? && Shape(t, parent, level)
    ensures |t.complex.subAssemblies| == |t.kids|
    ensures forall i :: 0 <= i < |t.kids| ==>
      t.complex.subAssemblies[i] == Top(t.kids[i]) && Shape(t.kids[i], t.complex, level - 1)
  {
  }

  lemma OneKidMore(w: int, kids: seq<Tree>, i: nat, components: map<BaseAssembly, seq<CompositePart>>)
    requires i < |kids|
    ensures var before, more := AllUses(AssembliesOf(kids[..i]), components), AllUses(Assemblies(kids[i]), components);
      && AllUses(AssembliesOf(kids[..i + 1]), components) == before + more
      && w * |before + more| == w * |before| + w * |more|
  {
    hide AllUses, AssembliesOf, Assemblies;
    KidsUpTo(kids, i);
    AllUsesConcat(AssembliesOf(kids[..i]), Assemblies(kids[i]), components);
    Distribute(w, |AllUses(AssembliesOf(kids[..i]), components)|, |AllUses(Assemblies(kids[i]), components)|);
  }

  ghost predicate Within(s: seq<Assembly>, all: seq<Assembly>) {
    BasesIn(s) <= BasesIn(all) && ComplexesIn(s) <= ComplexesIn(all)
  }

  lemma WithinHolds(s: seq<Assembly>, all: seq<Assembly>)
    requires Within(s, all)
    ensures BasesIn(s) <= BasesIn(all) && ComplexesIn(s) <= ComplexesIn(all)
  {
  }

  lemma KidWithin(t: Tree, i: nat, all: seq<Assembly>)
    requires t.Node? && i < |t.kids| && Within(Assemblies(t), all)
    ensures Within(Assemblies(t.kids[i]), all)
  {
    TopsAreInside(t.kids);
  }

  lemma OneBase(b: BaseAssembly, t: Tree, all: seq<Assembly>, components: map<BaseAssembly, seq<CompositePart>>,
                parts: set<CompositePart>)
    requires Top(t) == Base(b) && Within(Assemblies(t), all)
    requires components.Keys == BasesIn(all) && Recorded(components, parts)
    ensures AllUses(Assemblies(t), components) == b.components
    ensures forall c :: c in b.components ==> c in parts
  {
    assert Assemblies(t) == [Base(b)];
    assert b in BasesIn(Assemblies(t));
    assert [Base(b)][..0] == [];
  }

  lemma NoKids(w: int, t: Tree, components: map<BaseAssembly, seq<CompositePart>>)
    requires t.Node?
    ensures AllUses(AssembliesOf(t.kids[..0]), components) == [] && w * 0 == 0
  {
  }

  lemma AllKids(t: Tree, i: nat, components: map<BaseAssembly, seq<CompositePart>>)
    requires t.Node? && i == |t.kids|
    ensures AllUses(Assemblies(t), components) == AllUses(AssembliesOf(t.kids[..i]), components)
  {
    assert t.kids[..i] == t.kids;
    AllUsesConcat([Complex(t.complex)], AssembliesOf(t.kids), components);
    assert [Complex(t.complex)][..0] == [];
  }

  lemma Distribute(w: int, a: int, b: int)
    ensures w * (a + b) == w * a + w * b
  {
  }

  /** The graph that the fields of the objects form. */
  ghost function GraphOf(parts: set<CompositePart>, live: set<AtomicPart>, n: nat): Graph
    reads parts`rootPart, live`partOf
  {
    Graph(parts, live, n, map p | p in live && p.partOf != null :: p.partOf,
          set c | c in parts && c.rootPart != null :: c.rootPart)
  }

  lemma GraphsOfParts(index: map<int, CompositePart>, docs: map<int, Document>, live: set<AtomicPart>, n: nat)
    requires PartsOk(index, docs, live, n)
    ensures GraphsOk(GraphOf(Values(index), live, n))
    ensures forall p :: p in live ==> p.partOf in Values(index)
    ensures forall p :: p in live ==> (p in GraphOf(Values(index), live, n).roots <==> p == p.partOf.rootPart)
  {
    var g := GraphOf(Values(index), live, n);
    forall c | c in Values(index)
      ensures GraphOk(c, live, n) && c.rootPart in c.parts
      ensures forall p :: p in live ==> (p in c.parts <==> p.partOf == c)
    {
      var id :| id in index && index[id] == c;
      assert PartOk(c, docs[id], live, n);
    }
    forall c | c in Values(index)
      ensures Owns(c, g)
    {
      assert c.parts <= live;
    }
  }

  lemma {:induction false} UsesAreComponents(s: seq<Assembly>, components: map<BaseAssembly, seq<CompositePart>>)
    ensures forall q :: q in AllUses(s, components) ==> exists b :: b in components && q in components[b]
  {
    if s != [] {
      UsesAreComponents(s[..|s| - 1], components);
    }
  }

  lemma UsesOfPart(setup: Setup, c: CompositePart)
    requires setup.Valid() && c in setup.Parts()
    ensures Count(AllUses(setup.assemblies, Components(setup.Bases())), c) == |c.usedIn|
    ensures forall q :: q in AllUses(setup.assemblies, Components(setup.Bases())) ==> q in setup.Parts()
  {
    hide Shape, NonEmpty, Apart, Partition, PartsOk, Assemblies, AllUses, CountAll, Count;
    UsesAreComponents(setup.assemblies, Components(setup.Bases()));
    UsesAreCounted(setup.assemblies, Components(setup.Bases()), c, c.usedIn);
    CountAllUsers(setup.assemblies, c.usedIn);
  }

  lemma DateOf(kind: Traversal, dates: map<AtomicPart, int>, g: Graph, uses: seq<CompositePart>, p: AtomicPart)
    requires p in dates && p in g.owners
    ensures AfterWalks(kind, dates, g, uses)[p] ==
            DateAfterUses(kind, dates[p], Count(uses, g.owners[p]), p in g.roots)
  {
  }

  lemma RecordOf(bases: set<BaseAssembly>, parts: set<CompositePart>)
    requires Symmetric(bases, parts)
    ensures Recorded(Components(bases), parts) && Components(bases).Keys == bases
  {
  }

  /** The walk from the design root. */
  method TraverseDesign(setup: Setup, kind: Traversal, ghost g: Graph) returns (result: nat)
    requires setup.Valid() && g.parts == setup.Parts() && g.live == setup.compositePartBuilder.Live()
    requires g.n == setup.compositePartBuilder.numAtomicPerComp && GraphsOk(g)
    modifies setup.compositePartBuilder.atomicPartBuilder`partBuildDateIndex, g.live`buildDate
    ensures setup.Valid()
    ensures result == Score(kind, g.n, true) * |AllUses(setup.assemblies, Components(setup.Bases()))|
    ensures Dates(g.live) == AfterWalks(kind, old(Dates(g.live)), g, AllUses(setup.assemblies, Components(setup.Bases())))
  {
    hide PartsOk, Partition, Symmetric, Assemblies, Score, AllUses, GraphsOk, Recorded, DatesAgree, Shape, Books;
    hide BasesIn, ComplexesIn, Dates, AfterWalks;
    hide CompositePartBuilder.Balanced, CompositePartBuilder.ContentsOk, Setup.TreeOk;
    var parts := setup.compositePartBuilder;
    ghost var bases, complexes, composites := setup.Bases(), ComplexesIn(setup.assemblies), setup.Parts();
    ghost var live, documents := parts.Live(), Documents(parts.documentBuilder.documentTitleIndex);
    ghost var components := Components(bases);
    setup.ShapeOfTree(setup.tree);
    RecordOf(bases, composites);
    WithinItself(setup.assemblies);
    result := TraverseAssembly(kind, Complex(setup.designRoot), parts.atomicPartBuilder, setup.tree, null,
                               setup.assemblyBuilder.numAssmLevels, setup.assemblies, components, g);
    assert parts.Valid() && setup.TreeOk(setup.tree) && Symmetric(bases, composites);
  }

  /**
   * The operations T1, T3a, T3b and T3c on the whole design: T1 returns the number of atomic
   * parts in a composite part times the number of uses.  T3b updates the date of every atomic
   * part as often as its composite part is used, T3a only those of the root parts, and T3c
   * leaves no trace.
   */
  method PerformTraversal(setup: Setup, kind: Traversal) returns (result: nat)
    requires setup.Valid()
    modifies setup.compositePartBuilder.atomicPartBuilder`partBuildDateIndex, setup.compositePartBuilder.Live()`buildDate
    ensures setup.Valid()
    ensures var n, uses := setup.compositePartBuilder.numAtomicPerComp, |AllUses(setup.assemblies, Components(setup.Bases()))|;
      result == match kind
        case T1 => n * uses
        case T3a => uses
        case T3b => n * uses
        case T3c => 4 * n * uses
    ensures forall p :: p in setup.compositePartBuilder.Live() ==>
      && p.partOf != null
      && var odd, root := |p.partOf.usedIn| % 2 == 1, p == p.partOf.rootPart;
      && p.buildDate ==
           match kind
           case T1 => old(p.buildDate)
           case T3a => if odd && root then Toggled(old(p.buildDate)) else old(p.buildDate)
           case T3b => if odd then Toggled(old(p.buildDate)) else old(p.buildDate)
           case T3c => old(p.buildDate)
    ensures kind.T1? || kind.T3c? ==> forall date ::
      Under(setup.compositePartBuilder.atomicPartBuilder.partBuildDateIndex, date) ==
      Under(old(setup.compositePartBuilder.atomicPartBuilder.partBuildDateIndex), date)
  {
    hide PartsOk, Score, AllUses, GraphsOk, DatesAgree, Dates, KeepsDates, Under, AgreeOn, AfterWalks, GraphOf;
    hide DateAfterUses, OwnersKnown, Setup.TreeOk, Setup.PoolsApart, Symmetric;
    hide CompositePartBuilder.Balanced, CompositePartBuilder.ContentsOk;
    var parts := setup.compositePartBuilder;
    ghost var live, n, composites := parts.Live(), parts.numAtomicPerComp, setup.Parts();
    ghost var dates, g, index := Dates(live), GraphOf(composites, live, n), parts.atomicPartBuilder.partBuildDateIndex;
    parts.ContentsAre();
    GraphHolds(parts.compositePartIdIndex, parts.documentBuilder.documentTitleIndex, live, n);
    DatesHold(live);
    AgreeByDates(live, index);
    result := TraverseDesign(setup, kind, g);
    assert OwnersKnown(g);
    DatesReached(kind, setup, dates, g);
    ScoreOfUses(kind, n, |AllUses(setup.assemblies, Components(setup.Bases()))|);
    forall p | p in live
      ensures p.partOf != null
      ensures p.buildDate == DateAfterUses(kind, old(p.buildDate), |p.partOf.usedIn|, p == p.partOf.rootPart)
    {
      assert dates[p] == old(p.buildDate);
    }
    DateByKind(kind);
    if KeepsDates(kind) {
      WalksKeepDates(kind, dates, g, AllUses(setup.assemblies, Components(setup.Bases())));
      AgreeByDates(live, index);
      SameIndex(live, index, parts.atomicPartBuilder.partBuildDateIndex);
    }
  }

  lemma ScoreOfUses(kind: Traversal, n: nat, uses: nat)
    ensures Score(kind, n, true) * uses ==
      match kind
      case T1 => n * uses
      case T3a => uses
      case T3b => n * uses
      case T3c => 4 * n * uses
  {
  }

  lemma DateByKind(kind: Traversal)
    ensures KeepsDates(kind) <==> kind.T1? || kind.T3c?
    ensures forall date, uses: nat, root :: (
      DateAfterUses(kind, date, uses, root) ==
      match kind
      case T1 => date
      case T3a => if uses % 2 == 1 && root then Toggled(date) else date
      case T3b => if uses % 2 == 1 then Toggled(date) else date
      case T3c => date)
  {
  }

  lemma DatesHold(live: set<AtomicPart>)
    ensures Dates(live).Keys == live && forall p :: p in live ==> Dates(live)[p] == p.buildDate
  {
  }

  /** The graph knows the owner of each live part and the root among its parts. */
  ghost predicate OwnersKnown(g: Graph)
    reads g.live`partOf, g.parts`rootPart
  {
    forall p :: p in g.live ==>
      && p.partOf != null && p.partOf in g.parts && p in g.owners && g.owners[p] == p.partOf
      && (p in g.roots <==> p == p.partOf.rootPart)
  }

  lemma GraphHolds(index: map<int, CompositePart>, docs: map<int, Document>, live: set<AtomicPart>, n: nat)
    requires PartsOk(index, docs, live, n)
    ensures var g := GraphOf(Values(index), live, n);
      g.parts == Values(index) && g.live == live && g.n == n && GraphsOk(g) && OwnersKnown(g)
  {
    hide PartsOk;
    GraphsOfParts(index, docs, live, n);
  }

  lemma DatesReached(kind: Traversal, setup: Setup, dates: map<AtomicPart, int>, g: Graph)
    requires setup.Valid() && g.parts == setup.Parts() && g.live == setup.compositePartBuilder.Live() && OwnersKnown(g)
    requires dates.Keys == g.live
    requires Dates(g.live) == AfterWalks(kind, dates, g, AllUses(setup.assemblies, Components(setup.Bases())))
    ensures forall p :: p in g.live ==>
      && p.partOf != null
      && p.buildDate == DateAfterUses(kind, dates[p], |p.partOf.usedIn|, p == p.partOf.rootPart)
  {
    hide PartsOk, Partition, Symmetric, Assemblies, AllUses, GraphsOk, DatesAgree, Shape, Books, NonEmpty, Apart;
    hide AfterWalks, DateAfterUses;
    forall p | p in g.live
      ensures p.buildDate == DateAfterUses(kind, dates[p], |p.partOf.usedIn|, p == p.partOf.rootPart)
    {
      UsesOfPart(setup, p.partOf);
      DateOf(kind, dates, g, AllUses(setup.assemblies, Components(setup.Bases())), p);
      assert Dates(g.live)[p] == p.buildDate;
    }
  }

  /** The agreement of index and parts depends on nothing but the dates. */
  ghost predicate AgreeOn(dates: map<AtomicPart, int>, index: map<int, set<AtomicPart>>) {
    && (forall p :: p in dates ==> p in Under(index, dates[p]))
    && (forall date, p :: p in Under(index, date) ==> p in dates && dates[p] == date)
  }

  lemma AgreeByDates(live: set<AtomicPart>, index: map<int, set<AtomicPart>>)
    ensures DatesAgree(live, index) <==> AgreeOn(Dates(live), index)
  {
    assert Dates(live).Keys == live && forall p :: p in live ==> Dates(live)[p] == p.buildDate;
  }

  lemma WithinItself(s: seq<Assembly>)
    ensures Within(s, s)
  {
  }
}
