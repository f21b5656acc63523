/**
 * The many-to-many relation between base assemblies and composite parts.  It is
 * kept twice, as `components` on one side and as `usedIn` on the other, and both
 * are bags: a part can be a component of the same assembly several times.
 */
module ComponentBags {
  import opened DesignObjects

  /** How often `x` is in the list. */
  ghost function Count<T>(s: seq<T>, x: T): nat {
    if s == [] then 0 else (if s[0] == x then 1 else 0) + Count(s[1..], x)
  }

  lemma {:induction false} CountPositive<T>(s: seq<T>, x: T)
    ensures x in s <==> Count(s, x) > 0
  {
    if s != [] {
      CountPositive(s[1..], x);
      assert s == [s[0]] + s[1..];
    }
  }

  lemma {:induction false} CountConcat<T>(s: seq<T>, t: seq<T>, x: T)
    ensures Count(s + t, x) == Count(s, x) + Count(t, x)
  {
    if s == [] {
      assert s + t == t;
    } else {
      CountConcat(s[1..], t, x);
      assert (s + t)[1..] == s[1..] + t;
    }
  }

  lemma {:induction false} CountRemoveAt<T>(s: seq<T>, i: nat, x: T)
    requires i < |s|
    ensures Count(s, x) == Count(RemoveAt(s, i), x) + if s[i] == x then 1 else 0
  {
    var r := RemoveAt(s, i);
    if i == 0 {
      assert r == s[1..];
    } else {
      CountRemoveAt(s[1..], i - 1, x);
      assert r[1..] == RemoveAt(s[1..], i - 1);
    }
  }

  /** `s` without the occurrences of assemblies in `gone`; the rest keeps its order. */
  ghost function Purged(s: seq<BaseAssembly>, gone: set<Assembly>): seq<BaseAssembly> {
    if s == [] then []
    else if Base(s[0]) in gone then Purged(s[1..], gone)
    else [s[0]] + Purged(s[1..], gone)
  }

  lemma {:induction false} PurgedCount(s: seq<BaseAssembly>, gone: set<Assembly>, b: BaseAssembly)
    ensures Count(Purged(s, gone), b) == if Base(b) in gone then 0 else Count(s, b)
  {
    if s != [] {
      PurgedCount(s[1..], gone, b);
      assert Base(s[0]) !in gone ==> Purged(s, gone)[1..] == Purged(s[1..], gone);
    }
  }

  lemma {:induction false} PurgedUses(s: seq<BaseAssembly>, gone: set<Assembly>)
    ensures forall b :: b in Purged(s, gone) ==> b in s && Base(b) !in gone
  {
    if s != [] {
      PurgedUses(s[1..], gone);
    }
  }

  lemma {:induction false} PurgedTwice(s: seq<BaseAssembly>, first: set<Assembly>, second: set<Assembly>)
    ensures Purged(Purged(s, first), second) == Purged(s, first + second)
  {
    if s != [] {
      PurgedTwice(s[1..], first, second);
    }
  }

  lemma {:induction false} PurgedKeepsAll(s: seq<BaseAssembly>, gone: set<Assembly>)
    requires forall b :: b in s ==> Base(b) !in gone
    ensures Purged(s, gone) == s
  {
    if s != [] {
      assert s[0] in s;
      PurgedKeepsAll(s[1..], gone);
    }
  }

  lemma {:induction false} PurgedRemoveAt(s: seq<BaseAssembly>, i: nat)
    requires i < |s|
    ensures Purged(RemoveAt(s, i), {Base(s[i])}) == Purged(s, {Base(s[i])})
  {
    var r := RemoveAt(s, i);
    if i == 0 {
      assert r == s[1..];
    } else {
      PurgedRemoveAt(s[1..], i - 1);
      assert r[1..] == RemoveAt(s[1..], i - 1);
    }
  }

  lemma FindById(s: seq<BaseAssembly>, b: BaseAssembly) returns (i: nat)
    requires b in s
    requires forall x :: x in s && x.id == b.id ==> x == b
    ensures i == FirstIndex(AssemblyIds(s), b.id) && i < |s| && s[i] == b
  {
    i := FirstIndex(AssemblyIds(s), b.id);
    var k :| 0 <= k < |s| && s[k] == b;
    assert AssemblyIds(s)[k] == b.id;
    assert AssemblyIds(s)[i] == s[i].id;
    assert s[i] in s;
  }

  /** Taking one occurrence of an assembly out does not change what is left once all are out. */
  lemma RemoveOneUse(s: seq<BaseAssembly>, b: BaseAssembly)
    requires b in s
    requires forall x :: x in s && x.id == b.id ==> x == b
    ensures var r := RemoveAt(s, FirstIndex(AssemblyIds(s), b.id));
      && Count(s, b) == Count(r, b) + 1
      && (forall x :: x in r ==> x in s)
      && Purged(r, {Base(b)}) == Purged(s, {Base(b)})
  {
    var i := FindById(s, b);
    CountRemoveAt(s, i, b);
    PurgedRemoveAt(s, i);
  }

  // ---------- the other side ----------

  /** `s` without the occurrences of one part. */
  ghost function Dropped(s: seq<CompositePart>, gone: CompositePart): seq<CompositePart> {
    if s == [] then []
    else if s[0] == gone then Dropped(s[1..], gone)
    else [s[0]] + Dropped(s[1..], gone)
  }

  lemma {:induction false} DroppedCount(s: seq<CompositePart>, gone: CompositePart, p: CompositePart)
    ensures Count(Dropped(s, gone), p) == if p == gone then 0 else Count(s, p)
    ensures forall q :: q in Dropped(s, gone) ==> q in s && q != gone
  {
    if s != [] {
      DroppedCount(s[1..], gone, p);
      assert s[0] != gone ==> Dropped(s, gone)[1..] == Dropped(s[1..], gone);
    }
  }

  lemma {:induction false} DroppedKeepsAll(s: seq<CompositePart>, gone: CompositePart)
    requires gone !in s
    ensures Dropped(s, gone) == s
  {
    if s != [] {
      DroppedKeepsAll(s[1..], gone);
    }
  }

  lemma {:induction false} DroppedRemoveAt(s: seq<CompositePart>, i: nat)
    requires i < |s|
    ensures Dropped(RemoveAt(s, i), s[i]) == Dropped(s, s[i])
  {
    var r := RemoveAt(s, i);
    if i == 0 {
      assert r == s[1..];
    } else {
      DroppedRemoveAt(s[1..], i - 1);
      assert r[1..] == RemoveAt(s[1..], i - 1);
    }
  }

  lemma RemoveOneComponent(s: seq<CompositePart>, p: CompositePart)
    requires p.id in PartIds(s)
    requires forall q :: q in s && q.id == p.id ==> q == p
    ensures var r := RemoveAt(s, FirstIndex(PartIds(s), p.id));
      && Count(s, p) == Count(r, p) + 1
      && Dropped(r, p) == Dropped(s, p)
      && (forall q :: q in r ==> q in s)
  {
    var i := FirstIndex(PartIds(s), p.id);
    var k :| 0 <= k < |s| && PartIds(s)[k] == p.id;
    assert PartIds(s)[i] == s[i].id && s[i] in s;
    CountRemoveAt(s, i, p);
    DroppedRemoveAt(s, i);
  }

  ghost predicate DistinctParts(parts: set<CompositePart>) {
    forall p, q :: p in parts && q in parts && p.id == q.id ==> p == q
  }

  /** The inner loop: removing until nothing is found takes out every occurrence. */
  method RemoveWhilePresent(owner: BaseAssembly, component: CompositePart)
    requires forall q :: q in owner.components && q.id == component.id ==> q == component
    requires forall x :: x in component.usedIn && x.id == owner.id ==> x == owner
    requires Count(owner.components, component) <= Count(component.usedIn, owner)
    modifies owner`components, component`usedIn
    ensures owner.components == Dropped(old(owner.components), component)
    ensures Purged(component.usedIn, {Base(owner)}) == Purged(old(component.usedIn), {Base(owner)})
    ensures Count(component.usedIn, owner) == old(Count(component.usedIn, owner)) - old(Count(owner.components, component))
    ensures forall x :: x in component.usedIn ==> x in old(component.usedIn)
  {
    var removed := true;
    while removed
      invariant forall q :: q in owner.components ==> q in old(owner.components)
      invariant forall x :: x in component.usedIn ==> x in old(component.usedIn)
      invariant Dropped(owner.components, component) == Dropped(old(owner.components), component)
      invariant Purged(component.usedIn, {Base(owner)}) == Purged(old(component.usedIn), {Base(owner)})
      invariant Count(owner.components, component) <= Count(component.usedIn, owner)
      invariant Count(component.usedIn, owner) - Count(owner.components, component) ==
        old(Count(component.usedIn, owner) - Count(owner.components, component))
      invariant !removed ==> component.id !in PartIds(owner.components)
      decreases |owner.components|, removed
    {
      CountPositive(owner.components, component);
      CountPositive(component.usedIn, owner);
      if component.id in PartIds(owner.components) {
        OccursById(owner.components, component);
        RemoveOneComponent(owner.components, component);
        RemoveOneUse(component.usedIn, owner);
      }
      removed := owner.RemoveComponent(component);
    }
    OccursById(owner.components, component);
    CountPositive(owner.components, component);
    DroppedKeepsAll(owner.components, component);
  }

  lemma OccursById(s: seq<CompositePart>, p: CompositePart)
    requires forall q :: q in s && q.id == p.id ==> q == p
    ensures p.id in PartIds(s) <==> p in s
  {
    if p in s {
      var k :| 0 <= k < |s| && s[k] == p;
      assert PartIds(s)[k] == p.id;
    }
    if p.id in PartIds(s) {
      var k :| 0 <= k < |s| && PartIds(s)[k] == p.id;
      assert s[k] in s && s[k].id == p.id;
    }
  }

  /** The owners of a part: the assemblies and the part agree on how often each uses it. */
  ghost predicate OwnedBy(component: CompositePart, bases: set<BaseAssembly>)
    reads component`usedIn, bases`components
  {
    && (forall b :: b in component.usedIn ==> b in bases)
    && (forall b :: b in bases ==> Count(b.components, component) == Count(component.usedIn, b))
  }

  ghost predicate DistinctBases(bases: set<BaseAssembly>) {
    forall b, c :: b in bases && c in bases && b.id == c.id ==> b == c
  }

  /** No assembly holds another part with the id of this one. */
  ghost predicate OnlyOneWithId(component: CompositePart, bases: set<BaseAssembly>)
    reads bases`components
  {
    forall b, q :: b in bases && q in b.components && q.id == component.id ==> q == component
  }

  /** The nested loops leave no reference to the part, on either side. */
  method RemoveFromOwners(component: CompositePart, ghost bases: set<BaseAssembly>)
    requires OwnedBy(component, bases) && DistinctBases(bases) && OnlyOneWithId(component, bases)
    modifies bases`components, component`usedIn
    ensures component.usedIn == []
    ensures forall b :: b in bases ==> b.components == Dropped(old(b.components), component)
  {
    hide OwnedBy, OnlyOneWithId, DistinctBases, Dropped;
    UsersAreBases(component, bases);
    var usedInList := component.usedIn;
    var i := 0;
    while i < |usedInList|
      invariant i <= |usedInList|
      invariant OwnedBy(component, bases) && OnlyOneWithId(component, bases)
      invariant forall b :: b in component.usedIn ==> b in usedInList
      invariant forall j :: 0 <= j < i ==> component !in usedInList[j].components
      invariant forall b :: b in bases ==> Dropped(b.components, component) == Dropped(old(b.components), component)
    {
      RemoveFromOwner(usedInList[i], component, bases);
      i := i + 1;
    }
    assert usedInList[..i] == usedInList;
    NoUsersLeft(component, bases, usedInList);
    NoUseLeft(component, bases);
  }

  lemma UsersAreBases(component: CompositePart, bases: set<BaseAssembly>)
    requires OwnedBy(component, bases)
    ensures forall b :: b in component.usedIn ==> b in bases
  {
  }

  lemma NoUsersLeft(component: CompositePart, bases: set<BaseAssembly>, list: seq<BaseAssembly>)
    requires OwnedBy(component, bases)
    requires forall b :: b in component.usedIn ==> b in list && component !in b.components
    ensures component.usedIn == []
  {
    forall b | b in component.usedIn
      ensures false
    {
      CountPositive(b.components, component);
      CountPositive(component.usedIn, b);
    }
    NonEmptyHolds(component.usedIn);
  }

  lemma NoUseLeft(component: CompositePart, bases: set<BaseAssembly>)
    requires OwnedBy(component, bases) && component.usedIn == []
    ensures forall b :: b in bases ==> Dropped(b.components, component) == b.components
  {
    forall b | b in bases
      ensures Dropped(b.components, component) == b.components
    {
      CountPositive(b.components, component);
      DroppedKeepsAll(b.components, component);
    }
  }

  lemma NonEmptyHolds<T>(s: seq<T>)
    ensures s != [] ==> exists x :: x in s
  {
    if s != [] {
      assert s[0] in s;
    }
  }

  method RemoveFromOwner(owner: BaseAssembly, component: CompositePart, ghost bases: set<BaseAssembly>)
    requires owner in bases && OwnedBy(component, bases) && DistinctBases(bases) && OnlyOneWithId(component, bases)
    modifies owner`components, component`usedIn
    ensures OwnedBy(component, bases) && OnlyOneWithId(component, bases)
    ensures owner.components == Dropped(old(owner.components), component)
    ensures component !in owner.components
    ensures forall x :: x in component.usedIn ==> x in old(component.usedIn)
    ensures Dropped(owner.components, component) == Dropped(old(owner.components), component)
  {
    RemoveWhilePresent(owner, component);
    DroppedCount(old(owner.components), component, component);
    CountPositive(owner.components, component);
    DroppedKeepsAll(owner.components, component);
    forall b | b in bases
      ensures Count(b.components, component) == Count(component.usedIn, b)
    {
      PurgedCount(component.usedIn, {Base(owner)}, b);
      PurgedCount(old(component.usedIn), {Base(owner)}, b);
    }
  }

  // ---------- the whole relation ----------

  /** Both sides hold the same pairs equally often, and nothing from outside. */
  ghost predicate Symmetric(bases: set<BaseAssembly>, parts: set<CompositePart>)
    reads bases`components, parts`usedIn
  {
    && (forall b, p :: b in bases && p in b.components ==> p in parts)
    && (forall b, p :: p in parts && b in p.usedIn ==> b in bases)
    && (forall b, p :: b in bases && p in parts ==> Count(b.components, p) == Count(p.usedIn, b))
  }

  lemma NotUsed<T>(s: seq<T>, x: T)
    requires x !in s
    ensures Count(s, x) == 0
  {
    CountPositive(s, x);
  }

  lemma NewBases(bases: set<BaseAssembly>, parts: set<CompositePart>, more: set<BaseAssembly>)
    requires Symmetric(bases, parts) && more !! bases && forall b :: b in more ==> b.components == []
    ensures Symmetric(bases + more, parts)
  {
    forall b, p | b in more && p in parts
      ensures Count(p.usedIn, b) == 0
    {
      NotUsed(p.usedIn, b);
    }
  }

  lemma NewPart(bases: set<BaseAssembly>, parts: set<CompositePart>, c: CompositePart)
    requires Symmetric(bases, parts) && c !in parts && c.usedIn == []
    ensures Symmetric(bases, parts + {c})
  {
    forall b | b in bases
      ensures Count(b.components, c) == 0
    {
      NotUsed(b.components, c);
    }
  }

  // What the relation says when one of its sides is a record of how it was before.

  ghost function Uses(parts: set<CompositePart>): map<CompositePart, seq<BaseAssembly>>
    reads parts`usedIn
  {
    map p | p in parts :: p.usedIn
  }

  ghost predicate SymmetricWith(bases: set<BaseAssembly>, uses: map<CompositePart, seq<BaseAssembly>>)
    reads bases`components
  {
    && (forall b, p :: b in bases && p in b.components ==> p in uses)
    && (forall b, p :: b in bases && p in uses ==> Count(b.components, p) == Count(uses[p], b))
  }

  /** Assemblies are gone from all uses, and the others have kept their components. */
  lemma AfterPurge(bases: set<BaseAssembly>, parts: set<CompositePart>, uses: map<CompositePart, seq<BaseAssembly>>,
                   gone: set<Assembly>, all: set<BaseAssembly>)
    requires SymmetricWith(bases, uses) && uses.Keys == parts && forall b :: b in bases ==> Base(b) !in gone
    requires forall b, p :: p in parts && b in uses[p] ==> b in all
    requires forall b :: b in all && Base(b) !in gone ==> b in bases
    requires forall p :: p in parts ==> p.usedIn == Purged(uses[p], gone)
    ensures Symmetric(bases, parts)
  {
    forall p | p in parts
      ensures forall b :: b in p.usedIn ==> b in bases
    {
      PurgedUses(uses[p], gone);
    }
    forall b, p | b in bases && p in parts
      ensures Count(b.components, p) == Count(p.usedIn, b)
    {
      PurgedCount(uses[p], gone, b);
    }
  }

  ghost function Components(bases: set<BaseAssembly>): map<BaseAssembly, seq<CompositePart>>
    reads bases`components
  {
    map b | b in bases :: b.components
  }

  ghost predicate SymmetricFrom(components: map<BaseAssembly, seq<CompositePart>>, parts: set<CompositePart>)
    reads parts`usedIn
  {
    && (forall b, p :: p in parts && b in p.usedIn ==> b in components)
    && (forall b, p :: b in components && p in parts ==> Count(components[b], p) == Count(p.usedIn, b))
  }

  /** A part is gone from all components, and the others are used as before. */
  lemma AfterDrop(bases: set<BaseAssembly>, parts: set<CompositePart>, components: map<BaseAssembly, seq<CompositePart>>,
                  gone: CompositePart)
    requires SymmetricFrom(components, parts) && components.Keys == bases && gone !in parts
    requires forall b, p :: b in bases && p in components[b] ==> p in parts || p == gone
    requires forall b :: b in bases ==> b.components == Dropped(components[b], gone)
    ensures Symmetric(bases, parts)
  {
    forall b, p | b in bases
      ensures p in b.components ==> p in parts
      ensures p in parts ==> Count(b.components, p) == Count(p.usedIn, b)
    {
      DroppedCount(components[b], gone, p);
    }
  }

  // ---------- one pair more or less ----------

  /** The relation on a record of both sides. */
  ghost predicate Related(components: map<BaseAssembly, seq<CompositePart>>, uses: map<CompositePart, seq<BaseAssembly>>) {
    && (forall b, p :: b in components && p in components[b] ==> p in uses)
    && (forall b, p :: p in uses && b in uses[p] ==> b in components)
    && (forall b, p :: b in components && p in uses ==> Count(components[b], p) == Count(uses[p], b))
  }

  lemma SymmetricIsRelated(bases: set<BaseAssembly>, parts: set<CompositePart>)
    ensures Symmetric(bases, parts) <==> Related(Components(bases), Uses(parts))
  {
    assert Components(bases).Keys == bases && forall b :: b in bases ==> Components(bases)[b] == b.components;
    assert Uses(parts).Keys == parts && forall p :: p in parts ==> Uses(parts)[p] == p.usedIn;
  }

  lemma PairAdded(components: map<BaseAssembly, seq<CompositePart>>, uses: map<CompositePart, seq<BaseAssembly>>,
                  b: BaseAssembly, p: CompositePart)
    requires Related(components, uses) && b in components && p in uses
    ensures Related(components[b := components[b] + [p]], uses[p := uses[p] + [b]])
  {
    var components', uses' := components[b := components[b] + [p]], uses[p := uses[p] + [b]];
    forall c, q | c in components' && q in uses'
      ensures Count(components'[c], q) == Count(uses'[q], c)
    {
      CountConcat(components[b], [p], q);
      CountConcat(uses[p], [b], c);
    }
  }

  /** The first occurrence has gone, and the rest keeps its order. */
  ghost predicate OneLess<T>(before: seq<T>, x: T, after: seq<T>) {
    exists i :: 0 <= i < |before| && before[i] == x && x !in before[..i] && after == before[..i] + before[i + 1..]
  }

  lemma FirstOfPart(s: seq<CompositePart>, p: CompositePart)
    requires p in s && forall q :: q in s && q.id == p.id ==> q == p
    ensures OneLess(s, p, RemoveAt(s, FirstIndex(PartIds(s), p.id)))
  {
    FindPart(s, p);
    var i := FirstIndex(PartIds(s), p.id);
    assert forall j :: 0 <= j < i ==> PartIds(s)[j] != p.id;
    assert s[i] == p && RemoveAt(s, i) == s[..i] + s[i + 1..];
  }

  lemma FirstOfUser(s: seq<BaseAssembly>, b: BaseAssembly)
    requires b in s && forall x :: x in s && x.id == b.id ==> x == b
    ensures OneLess(s, b, RemoveAt(s, FirstIndex(AssemblyIds(s), b.id)))
  {
    var i := FindById(s, b);
    assert forall j :: 0 <= j < i ==> AssemblyIds(s)[j] != b.id;
    assert s[i] == b && RemoveAt(s, i) == s[..i] + s[i + 1..];
  }

  /** The assembly has one use of the part less, and nothing else has changed on this side. */
  ghost predicate OneUseLess(before: map<BaseAssembly, seq<CompositePart>>, after: map<BaseAssembly, seq<CompositePart>>,
                             b: BaseAssembly, p: CompositePart) {
    b in before && b in after && OneLess(before[b], p, after[b]) && after == before[b := after[b]]
  }

  ghost predicate OneUserLess(before: map<CompositePart, seq<BaseAssembly>>, after: map<CompositePart, seq<BaseAssembly>>,
                              p: CompositePart, b: BaseAssembly) {
    p in before && p in after && OneLess(before[p], b, after[p]) && after == before[p := after[p]]
  }

  /** On both sides it is the first occurrence that is found. */
  lemma FirstsAreFound(components: map<BaseAssembly, seq<CompositePart>>, uses: map<CompositePart, seq<BaseAssembly>>,
                       b: BaseAssembly, p: CompositePart)
    requires Related(components, uses) && b in components && p in components[b]
    requires DistinctBases(components.Keys) && DistinctParts(uses.Keys)
    ensures p in uses
    ensures OneLess(components[b], p, RemoveAt(components[b], FirstIndex(PartIds(components[b]), p.id)))
    ensures OneLess(uses[p], b, RemoveAt(uses[p], FirstIndex(AssemblyIds(uses[p]), b.id)))
  {
    hide OneLess;
    CountPositive(components[b], p);
    CountPositive(uses[p], b);
    FirstOfPart(components[b], p);
    FirstOfUser(uses[p], b);
  }

  lemma PairRemoved(components: map<BaseAssembly, seq<CompositePart>>, uses: map<CompositePart, seq<BaseAssembly>>,
                    b: BaseAssembly, p: CompositePart)
    requires Related(components, uses) && b in components && p in components[b]
    requires DistinctBases(components.Keys) && DistinctParts(uses.Keys)
    ensures p in uses && p.id in PartIds(components[b]) && b in uses[p]
    ensures Related(components[b := RemoveAt(components[b], FirstIndex(PartIds(components[b]), p.id))],
                    uses[p := RemoveAt(uses[p], FirstIndex(AssemblyIds(uses[p]), b.id))])
    ensures forall q :: (
      Count(components[b], q) ==
        Count(RemoveAt(components[b], FirstIndex(PartIds(components[b]), p.id)), q) + if q == p then 1 else 0)
  {
    CountPositive(components[b], p);
    CountPositive(uses[p], b);
    OccursById(components[b], p);
    RemoveOneComponent(components[b], p);
    RemoveOneUse(uses[p], b);
    var i, j := FirstIndex(PartIds(components[b]), p.id), FirstIndex(AssemblyIds(uses[p]), b.id);
    var k := FindById(uses[p], b);
    FindPart(components[b], p);
    forall q
      ensures Count(components[b], q) == Count(RemoveAt(components[b], i), q) + if q == p then 1 else 0
    {
      CountRemoveAt(components[b], i, q);
    }
    var components', uses' := components[b := RemoveAt(components[b], i)], uses[p := RemoveAt(uses[p], j)];
    forall c, q | c in components' && q in uses'
      ensures Count(components'[c], q) == Count(uses'[q], c)
    {
      CountRemoveAt(components[b], i, q);
      CountRemoveAt(uses[p], j, c);
    }
  }

  lemma FindPart(s: seq<CompositePart>, p: CompositePart)
    requires p in s && forall q :: q in s && q.id == p.id ==> q == p
    ensures var i := FirstIndex(PartIds(s), p.id); i < |s| && s[i] == p
  {
    var k :| 0 <= k < |s| && s[k] == p;
    var i := FirstIndex(PartIds(s), p.id);
    assert PartIds(s)[k] == p.id && PartIds(s)[i] == s[i].id && s[i] in s;
  }

  /** The part's owners are among the assemblies, and each knows how often it uses the part. */
  lemma OwnersOf(bases: set<BaseAssembly>, parts: set<CompositePart>, c: CompositePart)
    requires Symmetric(bases, parts) && DistinctParts(parts) && c in parts
    ensures OwnedBy(c, bases) && OnlyOneWithId(c, bases)
    ensures SymmetricFrom(Components(bases), parts - {c}) && Components(bases).Keys == bases
    ensures forall b, p :: b in bases && p in Components(bases)[b] ==> p in parts - {c} || p == c
    ensures forall b :: b in bases ==> Components(bases)[b] == b.components
  {
    assert forall b :: b in bases ==> Components(bases)[b] == b.components;
    forall b, q | b in bases && q in b.components && q.id == c.id
      ensures q == c
    {
      assert q in parts;
    }
  }

  /** The step of SM3. */
  method AddPair(baseAssembly: BaseAssembly, component: CompositePart, ghost bases: set<BaseAssembly>, ghost parts: set<CompositePart>)
    requires Symmetric(bases, parts) && baseAssembly in bases && component in parts
    modifies baseAssembly`components, component`usedIn
    ensures Symmetric(bases, parts)
    ensures baseAssembly.components == old(baseAssembly.components) + [component]
    ensures component.usedIn == old(component.usedIn) + [baseAssembly]
  {
    hide Symmetric, Related;
    ghost var components, uses := Components(bases), Uses(parts);
    SymmetricIsRelated(bases, parts);
    PairAdded(components, uses, baseAssembly, component);
    baseAssembly.AddComponent(component);
    assert Components(bases) == components[baseAssembly := components[baseAssembly] + [component]];
    assert Uses(parts) == uses[component := uses[component] + [baseAssembly]];
    SymmetricIsRelated(bases, parts);
  }

  /** The step of SM4: the first component with the id of the chosen one goes, and that is a use of the chosen one. */
  method RemovePair(baseAssembly: BaseAssembly, component: CompositePart, ghost bases: set<BaseAssembly>, ghost parts: set<CompositePart>)
    requires Symmetric(bases, parts) && baseAssembly in bases && component in baseAssembly.components
    requires DistinctBases(bases) && DistinctParts(parts)
    modifies baseAssembly`components, component`usedIn
    ensures Symmetric(bases, parts)
    ensures forall p :: p in parts ==>
      old(Count(baseAssembly.components, p)) == Count(baseAssembly.components, p) + (if p == component then 1 else 0)
    ensures OneLess(old(baseAssembly.components), component, baseAssembly.components)
    ensures component in parts && OneLess(old(component.usedIn), baseAssembly, component.usedIn)
  {
    hide Symmetric, Related, RemoveAt, FirstIndex, Count, OneLess;
    ghost var components, uses := Components(bases), Uses(parts);
    SymmetricIsRelated(bases, parts);
    PairRemoved(components, uses, baseAssembly, component);
    FirstsAreFound(components, uses, baseAssembly, component);
    var removed := baseAssembly.RemoveComponent(component);
    OneComponentsList(bases, components, baseAssembly);
    OneUsesList(parts, uses, component);
    SymmetricIsRelated(bases, parts);
  }

  lemma OneComponentsList(bases: set<BaseAssembly>, before: map<BaseAssembly, seq<CompositePart>>, b: BaseAssembly)
    requires before.Keys == bases && b in bases
    requires forall x :: x in bases && x != b ==> x.components == before[x]
    ensures Components(bases) == before[b := b.components]
  {
  }

  lemma OneUsesList(parts: set<CompositePart>, before: map<CompositePart, seq<BaseAssembly>>, p: CompositePart)
    requires before.Keys == parts && p in parts
    requires forall x :: x in parts && x != p ==> x.usedIn == before[x]
    ensures Uses(parts) == before[p := p.usedIn]
  {
  }
}
