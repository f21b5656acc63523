/**
 * The builder that creates and destroys assemblies, one subtree at a time, while it
 * keeps the id indexes and the id pools.  Creation undoes itself when a pool runs dry.
 */
module AssemblyBuilding {
  import opened DesignObjects
  import opened IdPools
  import opened AssemblyTrees
  import opened ComponentBags

  const MIN_ASSM_DATE := 1000
  const MAX_ASSM_DATE := 1999

  /** How many base assemblies a complete subtree of this level has. */
  function BaseCount(fanOut: nat, level: int): nat
    decreases level
  {
    if level <= 1 then 1 else fanOut * BaseCount(fanOut, level - 1)
  }

  /** How many complex assemblies it has. */
  function ComplexCount(fanOut: nat, level: int): nat
    decreases level
  {
    if level <= 1 then 0 else 1 + fanOut * ComplexCount(fanOut, level - 1)
  }

  lemma CountsBelow(fanOut: nat, level: int)
    requires level >= 2
    ensures BaseCount(fanOut, level) == fanOut * BaseCount(fanOut, level - 1)
    ensures ComplexCount(fanOut, level) == 1 + fanOut * ComplexCount(fanOut, level - 1)
  {
  }

  function Power(k: nat, n: nat): nat {
    if n == 0 then 1 else k * Power(k, n - 1)
  }

  /** 1 + k + ... + k^(n-1) */
  function PowerSum(k: nat, n: nat): nat {
    if n == 0 then 0 else PowerSum(k, n - 1) + Power(k, n - 1)
  }

  /** k^(L-1) base assemblies, and 1 + k + ... + k^(L-2) complex ones. */
  lemma {:induction false} CompleteTreeSize(k: nat, level: nat)
    requires level >= 1
    ensures BaseCount(k, level) == Power(k, level - 1)
    ensures ComplexCount(k, level) == PowerSum(k, level - 1)
  {
    if level > 1 {
      CompleteTreeSize(k, level - 1);
      PowerSumFromFirst(k, level - 2);
    }
  }

  lemma {:induction false} PowerSumFromFirst(k: nat, n: nat)
    ensures PowerSum(k, n + 1) == 1 + k * PowerSum(k, n)
  {
    if n > 0 {
      PowerSumFromFirst(k, n - 1);
      Distribute(k, PowerSum(k, n - 1), Power(k, n - 1));
    }
  }

  lemma Distribute(k: int, a: int, b: int)
    ensures k * (a + b) == k * a + k * b
  {
  }

  lemma {:induction false} NotNegative(m: nat, count: nat)
    ensures m * count >= 0
  {
    if m > 0 {
      NotNegative(m - 1, count);
      assert m * count == (m - 1) * count + count;
    }
  }

  lemma OneMoreTime(i: nat, n: nat, count: nat)
    requires i < n
    ensures (i + 1) * count == i * count + count <= n * count
  {
    NotNegative(n - i - 1, count);
    assert n * count == (n - i - 1) * count + (i + 1) * count;
  }

  // ---------- the free ids as a bag of keys ----------

  function BaseKeys(ids: seq<int>): (r: seq<Key>)
    ensures |r| == |ids|
    ensures forall i :: 0 <= i < |r| ==> r[i] == BaseKey(ids[i])
  {
    seq(|ids|, i requires 0 <= i < |ids| => BaseKey(ids[i]))
  }

  function ComplexKeys(ids: seq<int>): (r: seq<Key>)
    ensures |r| == |ids|
    ensures forall i :: 0 <= i < |r| ==> r[i] == ComplexKey(ids[i])
  {
    seq(|ids|, i requires 0 <= i < |ids| => ComplexKey(ids[i]))
  }

  ghost function FreeKeys(baseIds: seq<int>, complexIds: seq<int>): multiset<Key> {
    multiset(BaseKeys(baseIds)) + multiset(ComplexKeys(complexIds))
  }

  lemma TakeBaseId(id: int, baseIds: seq<int>, complexIds: seq<int>)
    ensures FreeKeys([id] + baseIds, complexIds) == multiset{BaseKey(id)} + FreeKeys(baseIds, complexIds)
  {
    assert BaseKeys([id] + baseIds) == [BaseKey(id)] + BaseKeys(baseIds);
  }

  lemma TakeComplexId(id: int, baseIds: seq<int>, complexIds: seq<int>)
    ensures FreeKeys(baseIds, [id] + complexIds) == multiset{ComplexKey(id)} + FreeKeys(baseIds, complexIds)
  {
    assert ComplexKeys([id] + complexIds) == [ComplexKey(id)] + ComplexKeys(complexIds);
  }

  lemma PutBaseId(id: int, baseIds: seq<int>, complexIds: seq<int>)
    ensures FreeKeys(baseIds + [id], complexIds) == FreeKeys(baseIds, complexIds) + multiset{BaseKey(id)}
  {
    assert BaseKeys(baseIds + [id]) == BaseKeys(baseIds) + [BaseKey(id)];
  }

  lemma PutComplexId(id: int, baseIds: seq<int>, complexIds: seq<int>)
    ensures FreeKeys(baseIds, complexIds + [id]) == FreeKeys(baseIds, complexIds) + multiset{ComplexKey(id)}
  {
    assert ComplexKeys(complexIds + [id]) == ComplexKeys(complexIds) + [ComplexKey(id)];
  }

  /** The keys 1..Max of both kinds, each once. */
  ghost function AllKeys(maxBaseAssemblies: nat, maxComplexAssemblies: nat): multiset<Key> {
    multiset((set id | 1 <= id <= maxBaseAssemblies :: BaseKey(id)) +
             (set id | 1 <= id <= maxComplexAssemblies :: ComplexKey(id)))
  }

  lemma {:induction false} DistinctBag<T>(s: seq<T>)
    requires forall i, j :: 0 <= i < j < |s| ==> s[i] != s[j]
    ensures multiset(s) == multiset(set x | x in s)
  {
    if s != [] {
      var last := |s| - 1;
      var front := s[..last];
      DistinctBag(front);
      assert s == front + [s[last]];
      assert s[last] !in front;
      assert (set x | x in s) == (set x | x in front) + {s[last]};
    }
  }

  lemma AllKeysFree(baseIds: seq<int>, complexIds: seq<int>, maxBases: nat, maxComplexes: nat)
    requires |baseIds| == maxBases && forall i :: 0 <= i < maxBases ==> baseIds[i] == i + 1
    requires |complexIds| == maxComplexes && forall i :: 0 <= i < maxComplexes ==> complexIds[i] == i + 1
    ensures FreeKeys(baseIds, complexIds) == AllKeys(maxBases, maxComplexes)
  {
    var b, c := BaseKeys(baseIds), ComplexKeys(complexIds);
    DistinctBag(b);
    DistinctBag(c);
    var bs, cs := set id | 1 <= id <= maxBases :: BaseKey(id), set id | 1 <= id <= maxComplexes :: ComplexKey(id);
    forall key
      ensures key in b <==> key in bs
      ensures key in c <==> key in cs
    {
      if key in bs { assert b[key.id - 1] == key; }
      if key in cs { assert c[key.id - 1] == key; }
    }
    assert (set x | x in b) == bs;
    assert (set x | x in c) == cs;
    assert bs !! cs;
  }

  // ---------- the indexes as a set of assemblies ----------

  ghost function Entries(bases: map<int, BaseAssembly>, complexes: map<int, ComplexAssembly>): set<Assembly> {
    (set id | id in bases :: Base(bases[id])) + (set id | id in complexes :: Complex(complexes[id]))
  }

  /** Every entry stands under its own id. */
  ghost predicate Keyed(bases: map<int, BaseAssembly>, complexes: map<int, ComplexAssembly>) {
    && (forall id :: id in bases ==> bases[id].id == id)
    && (forall id :: id in complexes ==> complexes[id].id == id)
  }

  lemma EntryUnderKey(bases: map<int, BaseAssembly>, complexes: map<int, ComplexAssembly>, a: Assembly)
    requires Keyed(bases, complexes)
    ensures a in Entries(bases, complexes) <==>
      match a
      case Base(b) => b.id in bases && bases[b.id] == b
      case Complex(c) => c.id in complexes && complexes[c.id] == c
  {
  }

  /** The entries determine both indexes. */
  lemma SameEntriesSameIndexes(bases: map<int, BaseAssembly>, complexes: map<int, ComplexAssembly>,
                               bases': map<int, BaseAssembly>, complexes': map<int, ComplexAssembly>)
    requires Keyed(bases, complexes) && Keyed(bases', complexes')
    requires Entries(bases, complexes) == Entries(bases', complexes')
    ensures bases == bases' && complexes == complexes'
  {
    forall id
      ensures id in bases ==> id in bases' && bases'[id] == bases[id]
      ensures id in bases' ==> id in bases
      ensures id in complexes ==> id in complexes' && complexes'[id] == complexes[id]
      ensures id in complexes' ==> id in complexes
    {
      if id in bases { EntryUnderKey(bases', complexes', Base(bases[id])); EntryUnderKey(bases, complexes, Base(bases[id])); }
      if id in bases' { EntryUnderKey(bases, complexes, Base(bases'[id])); EntryUnderKey(bases', complexes', Base(bases'[id])); }
      if id in complexes { EntryUnderKey(bases', complexes', Complex(complexes[id])); EntryUnderKey(bases, complexes, Complex(complexes[id])); }
      if id in complexes' { EntryUnderKey(bases, complexes, Complex(complexes'[id])); EntryUnderKey(bases', complexes', Complex(complexes'[id])); }
    }
  }

  lemma PutBase(bases: map<int, BaseAssembly>, complexes: map<int, ComplexAssembly>, b: BaseAssembly)
    requires b.id !in bases
    ensures Entries(bases[b.id := b], complexes) == Entries(bases, complexes) + {Base(b)}
  {
    var after := bases[b.id := b];
    assert forall id :: id in bases ==> id in after && after[id] == bases[id];
    assert after[b.id] == b;
  }

  lemma PutComplex(bases: map<int, BaseAssembly>, complexes: map<int, ComplexAssembly>, c: ComplexAssembly)
    requires c.id !in complexes
    ensures Entries(bases, complexes[c.id := c]) == Entries(bases, complexes) + {Complex(c)}
  {
    var after := complexes[c.id := c];
    assert forall id :: id in complexes ==> id in after && after[id] == complexes[id];
    assert after[c.id] == c;
  }

  lemma RemoveBase(bases: map<int, BaseAssembly>, complexes: map<int, ComplexAssembly>, b: BaseAssembly)
    requires Keyed(bases, complexes) && Base(b) in Entries(bases, complexes)
    ensures b.id in bases
    ensures Entries(bases - {b.id}, complexes) == Entries(bases, complexes) - {Base(b)}
  {
    EntryUnderKey(bases, complexes, Base(b));
    forall a
      ensures a in Entries(bases - {b.id}, complexes) <==> a in Entries(bases, complexes) - {Base(b)}
    {
      EntryUnderKey(bases, complexes, a);
      EntryUnderKey(bases - {b.id}, complexes, a);
    }
  }

  lemma RemoveComplex(bases: map<int, BaseAssembly>, complexes: map<int, ComplexAssembly>, c: ComplexAssembly)
    requires Keyed(bases, complexes) && Complex(c) in Entries(bases, complexes)
    ensures c.id in complexes
    ensures Entries(bases, complexes - {c.id}) == Entries(bases, complexes) - {Complex(c)}
  {
    EntryUnderKey(bases, complexes, Complex(c));
    forall a
      ensures a in Entries(bases, complexes - {c.id}) <==> a in Entries(bases, complexes) - {Complex(c)}
    {
      EntryUnderKey(bases, complexes, a);
      EntryUnderKey(bases, complexes - {c.id}, a);
    }
  }

  /** Indexed keys and free keys are all different, and each entry stands under its own id. */
  ghost predicate Consistent(free: multiset<Key>, bases: map<int, BaseAssembly>, complexes: map<int, ComplexAssembly>) {
    && Keyed(bases, complexes)
    && (forall key :: key in free ==> free[key] == 1)
    && (forall a :: a in Entries(bases, complexes) ==> a.Key() !in free)
  }

  lemma RegisterBase(free: multiset<Key>, bases: map<int, BaseAssembly>, complexes: map<int, ComplexAssembly>, b: BaseAssembly)
    requires Consistent(multiset{BaseKey(b.id)} + free, bases, complexes)
    ensures Consistent(free, bases[b.id := b], complexes)
    ensures Entries(bases[b.id := b], complexes) == Entries(bases, complexes) + {Base(b)}
  {
    var before := multiset{BaseKey(b.id)} + free;
    assert before[BaseKey(b.id)] == 1;
    assert b.id in bases ==> Base(bases[b.id]) in Entries(bases, complexes);
    PutBase(bases, complexes, b);
    assert forall key :: key in free ==> key in before;
  }

  lemma RegisterComplex(free: multiset<Key>, bases: map<int, BaseAssembly>, complexes: map<int, ComplexAssembly>, c: ComplexAssembly)
    requires Consistent(free, bases, complexes) && ComplexKey(c.id) !in free
    requires forall a :: a in Entries(bases, complexes) ==> a.Key() != ComplexKey(c.id)
    ensures Consistent(free, bases, complexes[c.id := c])
    ensures Entries(bases, complexes[c.id := c]) == Entries(bases, complexes) + {Complex(c)}
  {
    assert c.id in complexes ==> Complex(complexes[c.id]) in Entries(bases, complexes);
    PutComplex(bases, complexes, c);
  }

  lemma TakenIsConsistent(before: multiset<Key>, free: multiset<Key>, key: Key,
                          bases: map<int, BaseAssembly>, complexes: map<int, ComplexAssembly>)
    requires Consistent(before, bases, complexes) && before == multiset{key} + free
    ensures Consistent(free, bases, complexes)
  {
    assert forall k :: k in free ==> k in before && free[k] <= before[k];
  }

  lemma UnregisterBase(free: multiset<Key>, bases: map<int, BaseAssembly>, complexes: map<int, ComplexAssembly>, b: BaseAssembly)
    requires Consistent(free, bases, complexes) && Base(b) in Entries(bases, complexes)
    ensures Consistent(free + multiset{BaseKey(b.id)}, bases - {b.id}, complexes)
    ensures Entries(bases - {b.id}, complexes) == Entries(bases, complexes) - {Base(b)}
  {
    RemoveBase(bases, complexes, b);
    var free' := free + multiset{BaseKey(b.id)};
    assert Base(b).Key() == BaseKey(b.id);
    forall a | a in Entries(bases - {b.id}, complexes)
      ensures a.Key() !in free'
    {
      EntryUnderKey(bases, complexes, a);
      EntryUnderKey(bases - {b.id}, complexes, a);
    }
  }

  lemma UnregisterComplex(free: multiset<Key>, bases: map<int, BaseAssembly>, complexes: map<int, ComplexAssembly>, c: ComplexAssembly)
    requires Consistent(free, bases, complexes) && Complex(c) in Entries(bases, complexes)
    ensures Consistent(free + multiset{ComplexKey(c.id)}, bases, complexes - {c.id})
    ensures Entries(bases, complexes - {c.id}) == Entries(bases, complexes) - {Complex(c)}
  {
    RemoveComplex(bases, complexes, c);
    var free' := free + multiset{ComplexKey(c.id)};
    assert Complex(c).Key() == ComplexKey(c.id);
    forall a | a in Entries(bases, complexes - {c.id})
      ensures a.Key() !in free'
    {
      EntryUnderKey(bases, complexes, a);
      EntryUnderKey(bases, complexes - {c.id}, a);
    }
  }

  // ---------- what a removal does to all of it ----------

  /** The abstract state: registered assemblies, free ids, and the uses of the parts. */
  datatype Store = Store(registered: set<Assembly>, free: multiset<Key>, usedIn: map<CompositePart, seq<BaseAssembly>>)

  /** The assemblies leave the indexes, their ids return to the pools, and no part is used in them. */
  ghost function Without(v: Store, s: seq<Assembly>): Store {
    Store(v.registered - AsSet(s), v.free + KeyBag(s), PurgedUsesOf(v.usedIn, AsSet(s)))
  }

  ghost function PurgedUsesOf(uses: map<CompositePart, seq<BaseAssembly>>, gone: set<Assembly>): map<CompositePart, seq<BaseAssembly>> {
    map p | p in uses :: Purged(uses[p], gone)
  }

  /** `b` and the parts agree on how often `b` uses each of them. */
  ghost predicate Linked(b: BaseAssembly, components: seq<CompositePart>, uses: map<CompositePart, seq<BaseAssembly>>) {
    && (forall p :: p in components ==> p in uses)
    && (forall p :: p in uses ==> Count(components, p) == Count(uses[p], b) && Identified(b, uses[p]))
  }

  lemma LinkedToPart(b: BaseAssembly, parts: set<CompositePart>, p: CompositePart)
    requires Linked(b, b.components, Uses(parts))
    ensures p in b.components ==> p in parts
    ensures p in parts ==> Count(b.components, p) == Count(p.usedIn, b) && Identified(b, p.usedIn)
  {
    assert p in parts ==> Uses(parts)[p] == p.usedIn;
  }

  lemma LinkedToAll(b: BaseAssembly, parts: set<CompositePart>)
    requires forall p :: p in b.components ==> p in parts
    requires forall p :: p in parts ==> Count(b.components, p) == Count(p.usedIn, b) && Identified(b, p.usedIn)
    ensures Linked(b, b.components, Uses(parts))
  {
  }

  /** No other assembly of the list has the id of `b`. */
  ghost predicate Identified(b: BaseAssembly, usedIn: seq<BaseAssembly>) {
    forall x :: x in usedIn && x.id == b.id ==> x == b
  }

  /** What holds of registered assemblies that can be removed. */
  ghost predicate Removable(s: seq<Assembly>, v: Store)
    reads BasesIn(s)`components
  {
    && Apart(s)
    && (forall a :: a in s ==> a in v.registered)
    && (forall b :: b in BasesIn(s) ==> Linked(b, b.components, v.usedIn))
  }

  lemma StillLinked(v: Store, gone: seq<Assembly>, b: BaseAssembly, components: seq<CompositePart>)
    requires Linked(b, components, v.usedIn) && Base(b) !in AsSet(gone)
    ensures Linked(b, components, Without(v, gone).usedIn)
  {
    forall p | p in v.usedIn
      ensures Count(components, p) == Count(Purged(v.usedIn[p], AsSet(gone)), b)
      ensures Identified(b, Purged(v.usedIn[p], AsSet(gone)))
    {
      PurgedCount(v.usedIn[p], AsSet(gone), b);
      PurgedUses(v.usedIn[p], AsSet(gone));
    }
  }

  /** What can be removed still can be once other assemblies are gone. */
  lemma StillRemovable(v: Store, gone: seq<Assembly>, rest: seq<Assembly>)
    requires Removable(rest, v)
    requires forall a, b :: a in gone && b in rest ==> a.Key() != b.Key()
    ensures Removable(rest, Without(v, gone))
  {
    hide AsSet, KeyBag, Linked;
    forall a | a in rest
      ensures a in Without(v, gone).registered
    {
      GoneByKey(gone, rest, a);
      WithoutOthers(v, gone, a);
    }
    forall b | b in BasesIn(rest)
      ensures Linked(b, b.components, Without(v, gone).usedIn)
    {
      GoneByKey(gone, rest, Base(b));
      StillLinked(v, gone, b, b.components);
    }
  }

  lemma RemovableOne(b: BaseAssembly, v: Store)
    requires Removable([Base(b)], v)
    ensures Base(b) in v.registered && Linked(b, b.components, v.usedIn)
  {
    assert Base(b) in [Base(b)];
  }

  /** Before turn `i` of the loop over the children: the first `i` are gone and the rest is as it was. */
  ghost predicate Remaining(t: Tree, i: nat, level: int, v: Store)
    requires t.Node? && i <= |t.kids|
    reads BasesIn(AssembliesOf(t.kids))`superAssembly, BasesIn(AssembliesOf(t.kids))`components, t.complex`subAssemblies
    reads ComplexesIn(AssembliesOf(t.kids))`superAssembly, ComplexesIn(AssembliesOf(t.kids))`subAssemblies
    reads ComplexesIn(AssembliesOf(t.kids))`level
  {
    && t.complex.subAssemblies == Tops(t.kids)[i..]
    && forall j :: i <= j < |t.kids| ==>
         Shape(t.kids[j], t.complex, level - 1) && Removable(Assemblies(t.kids[j]), v)
  }

  lemma RemainingKids(t: Tree, i: nat, level: int, v: Store)
    requires t.Node? && i <= |t.kids| && Remaining(t, i, level, v)
    ensures t.complex.subAssemblies == Tops(t.kids)[i..]
    ensures AssembliesOf([]) == []
  {
  }

  lemma RemovableBelow(t: Tree, parent: ComplexAssembly, level: int, v: Store)
    requires t.Node? && Removable(Assemblies(t), v) && Shape(t, parent, level)
    ensures Remaining(t, 0, level, v)
    ensures Apart(Assemblies(t)) && Complex(t.complex) in v.registered
    ensures Complex(t.complex) !in AsSet(AssembliesOf(t.kids))
    ensures BasesIn(AssembliesOf(t.kids)) == BasesIn(Assemblies(t))
    ensures ComplexesIn(AssembliesOf(t.kids)) == ComplexesIn(Assemblies(t)) - {t.complex}
    ensures Assemblies(t) == [Complex(t.complex)] + AssembliesOf(t.kids)
  {
    hide Shape, Removable, Apart, Keys, KeyBag;
    RemovableTop(t, v);
    NodeParts(t);
    ShapeBelow(t, parent, level);
    forall j | 0 <= j < |t.kids|
      ensures Removable(Assemblies(t.kids[j]), v)
    {
      RemovableKid(t, j, v);
    }
    PartsBelow(t);
  }

  lemma RemovableTop(t: Tree, v: Store)
    requires t.Node? && Removable(Assemblies(t), v)
    ensures Apart(Assemblies(t)) && Complex(t.complex) in v.registered
  {
  }

  lemma ShapeBelow(t: Tree, parent: ComplexAssembly?, level: int)
    requires t.Node? && Shape(t, parent, level)
    ensures t.complex.subAssemblies == Tops(t.kids)[0..]
    ensures forall j :: 0 <= j < |t.kids| ==> Shape(t.kids[j], t.complex, level - 1)
  {
  }

  lemma RemovableKid(t: Tree, j: nat, v: Store)
    requires t.Node? && j < |t.kids| && Removable(Assemblies(t), v)
    ensures Removable(Assemblies(t.kids[j]), v)
  {
    hide Apart, Linked;
    NodeParts(t);
    KidsApart(t.kids, j);
    assert forall a :: a in Assemblies(t.kids[j]) ==> a in Assemblies(t);
  }

  lemma PartsBelow(t: Tree)
    requires t.Node? && Complex(t.complex) !in AssembliesOf(t.kids)
    ensures Complex(t.complex) !in AsSet(AssembliesOf(t.kids))
    ensures BasesIn(AssembliesOf(t.kids)) == BasesIn(Assemblies(t))
    ensures ComplexesIn(AssembliesOf(t.kids)) == ComplexesIn(Assemblies(t)) - {t.complex}
  {
    assert Assemblies(t) == [Complex(t.complex)] + AssembliesOf(t.kids);
  }

  lemma WithoutNothing(v: Store)
    ensures Without(v, []) == v
  {
    assert KeyBag([]) == multiset{};
    forall p | p in v.usedIn
      ensures Purged(v.usedIn[p], AsSet([])) == v.usedIn[p]
    {
      PurgedKeepsAll(v.usedIn[p], AsSet([]));
    }
    assert Without(v, []).usedIn == v.usedIn;
  }

  lemma WithoutOthers(v: Store, s: seq<Assembly>, a: Assembly)
    requires a in v.registered && a !in AsSet(s)
    ensures a in Without(v, s).registered
  {
  }

  lemma UsesWithout(v: Store, s: seq<Assembly>, p: CompositePart)
    requires p in v.usedIn
    ensures p in Without(v, s).usedIn && Without(v, s).usedIn[p] == Purged(v.usedIn[p], AsSet(s))
  {
  }

  lemma GoneByKey(gone: seq<Assembly>, rest: seq<Assembly>, a: Assembly)
    requires a in rest && forall x, y :: x in gone && y in rest ==> x.Key() != y.Key()
    ensures a !in AsSet(gone)
  {
  }

  lemma WithoutTwice(v: Store, a: seq<Assembly>, b: seq<Assembly>)
    ensures Without(Without(v, a), b) == Without(v, a + b) == Without(v, b + a)
  {
    hide AsSet, KeyBag;
    KeysConcat(a, b);
    KeysConcat(b, a);
    AddThenAdd(v.free, KeyBag(a), KeyBag(b));
    SetConcat(a, b);
    forall p | p in v.usedIn
      ensures Purged(Purged(v.usedIn[p], AsSet(a)), AsSet(b)) == Purged(v.usedIn[p], AsSet(a + b))
    {
      PurgedTwice(v.usedIn[p], AsSet(a), AsSet(b));
    }
  }

  lemma SetConcat(a: seq<Assembly>, b: seq<Assembly>)
    ensures AsSet(a + b) == AsSet(b + a) == AsSet(a) + AsSet(b)
  {
  }

  lemma WithoutBase(v: Store, b: BaseAssembly)
    ensures Without(v, [Base(b)]) ==
      Store(v.registered - {Base(b)}, v.free + multiset{BaseKey(b.id)}, PurgedUsesOf(v.usedIn, {Base(b)}))
  {
    assert AsSet([Base(b)]) == {Base(b)};
    assert Keys([Base(b)]) == [BaseKey(b.id)];
  }

  lemma WithoutComplex(v: Store, c: ComplexAssembly)
    ensures Without(v, [Complex(c)]) ==
      Store(v.registered - {Complex(c)}, v.free + multiset{ComplexKey(c.id)}, v.usedIn)
  {
    assert AsSet([Complex(c)]) == {Complex(c)};
    assert Keys([Complex(c)]) == [ComplexKey(c.id)];
    forall p | p in v.usedIn
      ensures Purged(v.usedIn[p], {Complex(c)}) == v.usedIn[p]
    {
      PurgedKeepsAll(v.usedIn[p], {Complex(c)});
    }
    assert Without(v, [Complex(c)]).usedIn == v.usedIn;
  }

  lemma AddThenAdd<T>(a: multiset<T>, b: multiset<T>, c: multiset<T>)
    ensures (a + b) + c == a + (b + c) == a + (c + b)
  {
  }

  // ---------- what a creation does to all of it ----------

  /** From `v` to `w`, the assemblies entered the indexes under ids from the pools. */
  ghost predicate Added(v: Store, s: seq<Assembly>, w: Store) {
    && w.registered == v.registered + AsSet(s)
    && v.free == w.free + KeyBag(s)
    && w.usedIn == v.usedIn
  }

  /** No key is free twice, or both free and in use. */
  ghost predicate Fair(v: Store) {
    && (forall key :: key in v.free ==> v.free[key] == 1)
    && (forall a :: a in v.registered ==> a.Key() !in v.free)
  }

  lemma AddedNothing(v: Store)
    ensures Added(v, [], v)
  {
    assert KeyBag([]) == multiset{};
  }

  lemma AddedBase(v: Store, b: BaseAssembly, w: Store)
    requires w.registered == v.registered + {Base(b)} && v.free == multiset{BaseKey(b.id)} + w.free
    requires w.usedIn == v.usedIn
    ensures Added(v, [Base(b)], w) && Apart([Base(b)])
  {
    assert AsSet([Base(b)]) == {Base(b)};
    assert Keys([Base(b)]) == [BaseKey(b.id)];
  }

  lemma AddedKeys(v: Store, s: seq<Assembly>, w: Store, a: Assembly)
    requires Fair(v) && Added(v, s, w) && a in s
    ensures a.Key() in v.free && a.Key() !in w.free && a !in v.registered && a in w.registered
  {
    KeyInBag(s, a);
  }

  /** What is created later is `equals` to nothing created before. */
  lemma AddedTwice(v: Store, s: seq<Assembly>, w: Store, t: seq<Assembly>, x: Store)
    requires Fair(v) && Added(v, s, w) && Fair(w) && Added(w, t, x)
    requires Apart(s) && Apart(t)
    ensures Added(v, s + t, x) && Apart(s + t)
  {
    hide KeyBag, AsSet;
    KeysConcat(s, t);
    SetConcat(s, t);
    AddThenAdd(x.free, KeyBag(s), KeyBag(t));
    AddThenAdd(x.free, KeyBag(t), KeyBag(s));
    assert v.registered + (AsSet(s) + AsSet(t)) == (v.registered + AsSet(s)) + AsSet(t);
    forall a, b | a in s && b in t
      ensures a.Key() != b.Key()
    {
      AddedKeys(v, s, w, a);
      AddedKeys(w, t, x, b);
    }
    ApartConcat(s, t);
  }

  /** Only registered assemblies use parts. */
  ghost predicate UsersRegistered(v: Store) {
    forall p, b :: p in v.usedIn && b in v.usedIn[p] ==> Base(b) in v.registered
  }

  /** Removing what was just created restores the state exactly. */
  lemma AddedThenRemoved(v: Store, s: seq<Assembly>, w: Store)
    requires Fair(v) && Added(v, s, w) && UsersRegistered(v)
    ensures Without(w, s) == v
  {
    forall a | a in s
      ensures a !in v.registered
    {
      AddedKeys(v, s, w, a);
    }
    assert v.registered + AsSet(s) - AsSet(s) == v.registered;
    forall p | p in v.usedIn
      ensures Purged(v.usedIn[p], AsSet(s)) == v.usedIn[p]
    {
      PurgedKeepsAll(v.usedIn[p], AsSet(s));
    }
  }

  method CreateBuildDate(minBuildDate: int, maxBuildDate: int) returns (date: int)
    requires minBuildDate <= maxBuildDate
    ensures minBuildDate <= date <= maxBuildDate
  {
    date :| minBuildDate <= date <= maxBuildDate;
  }

  ghost predicate AssemblyDate(date: int) {
    MIN_ASSM_DATE <= date <= MAX_ASSM_DATE
  }

  /** A complete new subtree below `parent`, its base assemblies still without components. */
  ghost predicate NewTree(t: Tree, parent: ComplexAssembly?, level: int, fanOut: nat)
    reads BasesIn(Assemblies(t))`superAssembly, BasesIn(Assemblies(t))`components
    reads ComplexesIn(Assemblies(t))`superAssembly, ComplexesIn(Assemblies(t))`subAssemblies
    reads ComplexesIn(Assemblies(t))`level
  {
    && Shape(t, parent, level)
    && Complete(t, fanOut)
    && Apart(Assemblies(t))
    && forall b :: b in BasesIn(Assemblies(t)) ==> b.components == [] && AssemblyDate(b.buildDate)
  }

  /** What a successful creation leaves behind. */
  ghost predicate Grown(v: Store, t: Tree, parent: ComplexAssembly?, level: int, fanOut: nat, w: Store)
    reads BasesIn(Assemblies(t))`superAssembly, BasesIn(Assemblies(t))`components
    reads ComplexesIn(Assemblies(t))`superAssembly, ComplexesIn(Assemblies(t))`subAssemblies
    reads ComplexesIn(Assemblies(t))`level
  {
    NewTree(t, parent, level, fanOut) && Added(v, Assemblies(t), w)
  }

  lemma GrownLeaf(v: Store, b: BaseAssembly, parent: ComplexAssembly, fanOut: nat, w: Store)
    requires b.superAssembly == parent && b.components == [] && AssemblyDate(b.buildDate)
    requires w.registered == v.registered + {Base(b)} && v.free == multiset{BaseKey(b.id)} + w.free
    requires w.usedIn == v.usedIn
    ensures Grown(v, Leaf(b), parent, 1, fanOut, w)
    ensures BasesIn(Assemblies(Leaf(b))) == {b} && ComplexesIn(Assemblies(Leaf(b))) == {}
  {
    AddedBase(v, b, w);
    assert Assemblies(Leaf(b)) == [Base(b)];
  }

  /** The same for the children that a complex assembly has so far. */
  ghost predicate GrownKids(v: Store, kids: seq<Tree>, parent: ComplexAssembly, level: int, fanOut: nat, w: Store)
    reads BasesIn(AssembliesOf(kids))`superAssembly, BasesIn(AssembliesOf(kids))`components
    reads ComplexesIn(AssembliesOf(kids))`superAssembly, ComplexesIn(AssembliesOf(kids))`subAssemblies
    reads ComplexesIn(AssembliesOf(kids))`level
  {
    && (forall i :: 0 <= i < |kids| ==> NewTree(kids[i], parent, level, fanOut))
    && Apart(AssembliesOf(kids))
    && Added(v, AssembliesOf(kids), w)
  }

  lemma GrownNoKids(v: Store, parent: ComplexAssembly, level: int, fanOut: nat)
    ensures GrownKids(v, [], parent, level, fanOut, v)
    ensures BasesIn(AssembliesOf([])) == {} && ComplexesIn(AssembliesOf([])) == {} && Tops([]) == []
  {
    AddedNothing(v);
  }

  lemma GrownOneMore(v: Store, kids: seq<Tree>, parent: ComplexAssembly, level: int, fanOut: nat, w: Store, t: Tree, x: Store)
    requires Fair(v) && GrownKids(v, kids, parent, level, fanOut, w)
    requires Fair(w) && Grown(w, t, parent, level, fanOut, x)
    ensures GrownKids(v, kids + [t], parent, level, fanOut, x)
    ensures BasesIn(AssembliesOf(kids + [t])) == BasesIn(AssembliesOf(kids)) + BasesIn(Assemblies(t))
    ensures ComplexesIn(AssembliesOf(kids + [t])) == ComplexesIn(AssembliesOf(kids)) + ComplexesIn(Assemblies(t))
    ensures Tops(kids + [t]) == Tops(kids) + [Top(t)]
  {
    hide Fair, Added, Apart, Shape, Complete;
    AppendKid(kids, t);
    AddedTwice(v, AssembliesOf(kids), w, Assemblies(t), x);
  }

  /** The children that stand so far have none of the ids that are still free. */
  lemma GrownKidsAreOpen(v: Store, kids: seq<Tree>, parent: ComplexAssembly, level: int, fanOut: nat, w: Store)
    requires Fair(v) && GrownKids(v, kids, parent, level, fanOut, w)
    ensures forall a :: a in Tops(kids) ==> a.Key() !in w.free
  {
    forall a | a in Tops(kids)
      ensures a.Key() !in w.free
    {
      var i :| 0 <= i < |kids| && Tops(kids)[i] == a;
      assert a in Assemblies(kids[i]);
      AddedKeys(v, AssembliesOf(kids), w, a);
    }
  }

  /** An id is taken, then other assemblies are added, and then the one with that id. */
  lemma AddedFirstTaken(v: Store, v': Store, c: ComplexAssembly, s: seq<Assembly>, w: Store, w': Store)
    requires v'.registered == v.registered && v.free == multiset{ComplexKey(c.id)} + v'.free
    requires Added(v', s, w)
    requires w'.registered == w.registered + {Complex(c)} && w'.free == w.free
    requires v.usedIn == v'.usedIn && w.usedIn == w'.usedIn
    ensures Added(v, [Complex(c)] + s, w')
  {
    hide AsSet, KeyBag;
    var key := multiset{ComplexKey(c.id)};
    OneComplex(c);
    SetConcat([Complex(c)], s);
    KeysConcat([Complex(c)], s);
    AddThenAdd(w.free, KeyBag(s), key);
    assert v.free == (w.free + KeyBag(s)) + key;
    assert v.registered + ({Complex(c)} + AsSet(s)) == (v.registered + AsSet(s)) + {Complex(c)};
  }

  lemma OneComplex(c: ComplexAssembly)
    ensures AsSet([Complex(c)]) == {Complex(c)} && KeyBag([Complex(c)]) == multiset{ComplexKey(c.id)}
    ensures Apart([Complex(c)])
  {
    assert Keys([Complex(c)]) == [ComplexKey(c.id)];
  }

  lemma TakenKeyIsElsewhere(v: Store, v': Store, key: Key, s: seq<Assembly>, w: Store, a: Assembly)
    requires Fair(v) && v.free == multiset{key} + v'.free && Added(v', s, w) && a in s
    ensures a.Key() != key
  {
    KeyInBag(s, a);
    assert v.free[a.Key()] == multiset{key}[a.Key()] + v'.free[a.Key()];
  }

  /** An id that was taken is neither free nor in use until it is put somewhere. */
  lemma TakenKeyIsHeld(v: Store, v': Store, key: Key, s: seq<Assembly>, w: Store)
    requires Fair(v) && v.free == multiset{key} + v'.free && v'.registered == v.registered
    requires Added(v', s, w)
    ensures key !in w.free && forall a :: a in w.registered ==> a.Key() != key
  {
    assert v.free[key] == 1 + v'.free[key];
    forall a | a in s
      ensures a.Key() != key
    {
      TakenKeyIsElsewhere(v, v', key, s, w, a);
    }
  }

  /** From the state `v` an id was taken, then came the children, and last the node itself. */
  lemma GrownNode(v: Store, v': Store, t: Tree, parent: ComplexAssembly?, level: int, fanOut: nat, w: Store, w': Store)
    requires t.Node? && Fair(v) && GrownKids(v', t.kids, t.complex, level - 1, fanOut, w)
    requires v'.registered == v.registered && v.free == multiset{ComplexKey(t.complex.id)} + v'.free
    requires w'.registered == w.registered + {Complex(t.complex)} && w'.free == w.free
    requires v.usedIn == v'.usedIn && w.usedIn == w'.usedIn
    requires level >= 2 && t.complex.level == level && t.complex.superAssembly == parent
    requires t.complex.subAssemblies == Tops(t.kids) && |t.kids| == fanOut
    ensures Grown(v, t, parent, level, fanOut, w')
    ensures BasesIn(Assemblies(t)) == BasesIn(AssembliesOf(t.kids))
    ensures ComplexesIn(Assemblies(t)) == {t.complex} + ComplexesIn(AssembliesOf(t.kids))
  {
    hide Apart, Fair, Added, KeyBag, AsSet, Keys;
    var c, below := t.complex, AssembliesOf(t.kids);
    AddedFirstTaken(v, v', c, below, w, w');
    OneComplex(c);
    forall a | a in below
      ensures a.Key() != Complex(c).Key()
    {
      TakenKeyIsElsewhere(v, v', ComplexKey(c.id), below, w, a);
    }
    ApartConcat([Complex(c)], below);
    assert Assemblies(t) == [Complex(c)] + below;
    forall b | b in BasesIn(Assemblies(t))
      ensures b.components == [] && AssemblyDate(b.buildDate)
    {
      var i := InSomeKid(t.kids, Base(b));
      assert NewTree(t.kids[i], c, level - 1, fanOut) && b in BasesIn(Assemblies(t.kids[i]));
    }
  }

  lemma PutBackIsConsistent(v: Store, free: multiset<Key>, bases: map<int, BaseAssembly>, complexes: map<int, ComplexAssembly>)
    requires Fair(v) && Consistent(free, bases, complexes) && v.registered == Entries(bases, complexes)
    ensures Consistent(v.free, bases, complexes)
  {
  }

  /** The children of a failed creation meet what their removal asks for. */
  lemma KidsCanGo(v: Store, v': Store, t: Tree, level: int, fanOut: nat, w: Store)
    requires t.Node? && Fair(v) && v'.registered == v.registered
    requires v.free == multiset{ComplexKey(t.complex.id)} + v'.free
    requires GrownKids(v', t.kids, t.complex, level - 1, fanOut, w) && w.usedIn == map[]
    requires t.complex.subAssemblies == Tops(t.kids)
    ensures Fair(v') && Added(v', AssembliesOf(t.kids), w) && Apart(Assemblies(t)) && Remaining(t, 0, level, w)
  {
    hide Added, KeyBag, AsSet;
    var c, below := t.complex, AssembliesOf(t.kids);
    OneComplex(c);
    forall a | a in below
      ensures a.Key() != Complex(c).Key()
    {
      TakenKeyIsElsewhere(v, v', ComplexKey(c.id), below, w, a);
    }
    ApartConcat([Complex(c)], below);
    assert Assemblies(t) == [Complex(c)] + below;
    assert forall key :: key in v'.free ==> key in v.free && v'.free[key] <= v.free[key];
    forall i, a | 0 <= i < |t.kids| && a in Assemblies(t.kids[i])
      ensures a in w.registered
    {
      AddedKeys(v', below, w, a);
    }
  }

  /** Pointers are gone, and with them all links to what is left. */
  ghost predicate Cleared(s: seq<Assembly>)
    reads BasesIn(s)`superAssembly, BasesIn(s)`components
    reads ComplexesIn(s)`superAssembly, ComplexesIn(s)`subAssemblies, ComplexesIn(s)`level
  {
    && (forall b :: b in BasesIn(s) ==> b.superAssembly == null && b.components == [])
    && (forall c :: c in ComplexesIn(s) ==> c.superAssembly == null && c.subAssemblies == [] && c.level == -1)
  }

  lemma ClearedTogether(s: seq<Assembly>, t: seq<Assembly>)
    requires Cleared(s) && Cleared(t)
    ensures Cleared(s + t)
  {
  }

  lemma NodeCleared(t: Tree)
    requires t.Node? && Cleared(AssembliesOf(t.kids))
    requires t.complex.superAssembly == null && t.complex.subAssemblies == [] && t.complex.level == -1
    ensures Cleared(Assemblies(t)) && Cleared([Complex(t.complex)] + AssembliesOf(t.kids))
  {
    assert Assemblies(t) == [Complex(t.complex)] + AssembliesOf(t.kids);
  }

  twostate lemma StaysCleared(s: seq<Assembly>)
    requires old(Cleared(s)) && unchanged(BasesIn(s)`superAssembly, BasesIn(s)`components)
    requires unchanged(ComplexesIn(s)`superAssembly, ComplexesIn(s)`subAssemblies, ComplexesIn(s)`level)
    ensures Cleared(s)
  {
  }

  lemma NothingCleared()
    ensures Cleared([])
  {
  }

  class AssemblyBuilder {
    const numAssmPerAssm: nat
    const numAssmLevels: int
    const baseAssemblyIdPool: IdPool
    const complexAssemblyIdPool: IdPool
    var baseAssemblyIdIndex: map<int, BaseAssembly>
    var complexAssemblyIdIndex: map<int, ComplexAssembly>

    constructor (numAssmPerAssm: nat, numAssmLevels: int, maxBaseAssemblies: nat, maxComplexAssemblies: nat)
      ensures this.numAssmPerAssm == numAssmPerAssm && this.numAssmLevels == numAssmLevels
      ensures Sound() && Registered() == {}
      ensures fresh(baseAssemblyIdPool) && fresh(complexAssemblyIdPool)
      ensures |baseAssemblyIdPool.ids| == maxBaseAssemblies && |complexAssemblyIdPool.ids| == maxComplexAssemblies
      ensures Free() == AllKeys(maxBaseAssemblies, maxComplexAssemblies)
    {
      this.numAssmPerAssm := numAssmPerAssm;
      this.numAssmLevels := numAssmLevels;
      baseAssemblyIdPool := new IdPool(maxBaseAssemblies);
      complexAssemblyIdPool := new IdPool(maxComplexAssemblies);
      baseAssemblyIdIndex := map[];
      complexAssemblyIdIndex := map[];
      new;
      AllKeysFree(baseAssemblyIdPool.ids, complexAssemblyIdPool.ids, maxBaseAssemblies, maxComplexAssemblies);
    }

    /** The free ids of both pools. */
    ghost function Free(): multiset<Key>
      reads baseAssemblyIdPool`ids, complexAssemblyIdPool`ids
    {
      FreeKeys(baseAssemblyIdPool.ids, complexAssemblyIdPool.ids)
    }

    /** The assemblies that the indexes hold. */
    ghost function Registered(): set<Assembly>
      reads `baseAssemblyIdIndex, `complexAssemblyIdIndex
    {
      Entries(baseAssemblyIdIndex, complexAssemblyIdIndex)
    }

    /** Indexed ids and free ids are all different, and each entry stands under its own id. */
    ghost predicate Sound()
      reads `baseAssemblyIdIndex, `complexAssemblyIdIndex, baseAssemblyIdPool`ids, complexAssemblyIdPool`ids
    {
      && baseAssemblyIdPool != complexAssemblyIdPool
      && Consistent(Free(), baseAssemblyIdIndex, complexAssemblyIdIndex)
    }

    ghost function View(parts: set<CompositePart>): Store
      reads `baseAssemblyIdIndex, `complexAssemblyIdIndex, baseAssemblyIdPool`ids, complexAssemblyIdPool`ids
      reads parts`usedIn
    {
      Store(Registered(), Free(), Uses(parts))
    }

    method UnregisterAndRecycleBaseAssembly(baseAssembly: BaseAssembly, ghost parts: set<CompositePart>)
      requires Sound() && DistinctParts(parts) && Removable([Base(baseAssembly)], View(parts))
      requires baseAssembly.superAssembly != null
      modifies this`baseAssemblyIdIndex, baseAssemblyIdPool`ids
      modifies baseAssembly`superAssembly, baseAssembly`components
      modifies baseAssembly.superAssembly`subAssemblies, parts`usedIn
      ensures Sound() && View(parts) == Without(old(View(parts)), [Base(baseAssembly)])
      ensures old(baseAssembly.superAssembly).subAssemblies ==
        RemoveAt(old(baseAssembly.superAssembly.subAssemblies),
                 FirstIndex(Keys(old(baseAssembly.superAssembly.subAssemblies)), BaseKey(baseAssembly.id)))
      ensures baseAssembly.superAssembly == null && baseAssembly.components == []
    {
      hide Without, Removable, Consistent, Linked, Identified, DistinctParts, Apart, AsSet, KeyBag;
      hide Keys, FirstIndex, RemoveAt, BasesIn, ComplexesIn, Purged, PurgedUsesOf, Uses, Entries, FreeKeys;
      RemovableOne(baseAssembly, View(parts));
      WithoutBase(View(parts), baseAssembly);
      UnregisterBase(Free(), baseAssemblyIdIndex, complexAssemblyIdIndex, baseAssembly);
      var baseAssemblyId := baseAssembly.id;
      baseAssemblyIdIndex := baseAssemblyIdIndex - {baseAssemblyId};
      var _ := baseAssembly.superAssembly.RemoveSubAssembly(Base(baseAssembly));
      UnlinkComponents(baseAssembly, parts);
      baseAssembly.ClearPointers();
      PutBaseId(baseAssemblyId, baseAssemblyIdPool.ids, complexAssemblyIdPool.ids);
      baseAssemblyIdPool.PutUnusedId(baseAssemblyId);
    }

    method UnregisterAndRecycleAssembly(assembly: Assembly, ghost t: Tree, ghost parent: ComplexAssembly,
                                        ghost level: int, ghost parts: set<CompositePart>)
      requires Sound() && DistinctParts(parts) && Removable(Assemblies(t), View(parts))
      requires assembly == Top(t) && Shape(t, parent, level) && parent !in ComplexesIn(Assemblies(t))
      modifies this`baseAssemblyIdIndex, this`complexAssemblyIdIndex
      modifies baseAssemblyIdPool`ids, complexAssemblyIdPool`ids
      modifies BasesIn(Assemblies(t))`superAssembly, BasesIn(Assemblies(t))`components
      modifies ComplexesIn(Assemblies(t))`superAssembly
      modifies ComplexesIn(Assemblies(t))`subAssemblies, ComplexesIn(Assemblies(t))`level
      modifies parent`subAssemblies, parts`usedIn
      ensures Sound() && View(parts) == Without(old(View(parts)), Assemblies(t))
      ensures parent.subAssemblies ==
        RemoveAt(old(parent.subAssemblies), FirstIndex(Keys(old(parent.subAssemblies)), assembly.Key()))
      ensures Cleared(Assemblies(t))
      decreases t, 3
    {
      match assembly {
        case Complex(c) =>
          UnregisterAndRecycleComplexAssembly(c, t, level, parts);
        case Base(b) =>
          assert Assemblies(t) == [Base(b)];
          UnregisterAndRecycleBaseAssembly(b, parts);
      }
    }

    method UnregisterAndRecycleComplexAssembly(complexAssembly: ComplexAssembly, ghost t: Tree,
                                               ghost level: int, ghost parts: set<CompositePart>)
      requires Sound() && DistinctParts(parts) && Removable(Assemblies(t), View(parts))
      requires complexAssembly.superAssembly != null && complexAssembly.superAssembly !in ComplexesIn(Assemblies(t))
      requires Complex(complexAssembly) == Top(t) && Shape(t, complexAssembly.superAssembly, level)
      modifies this`baseAssemblyIdIndex, this`complexAssemblyIdIndex
      modifies baseAssemblyIdPool`ids, complexAssemblyIdPool`ids
      modifies BasesIn(Assemblies(t))`superAssembly, BasesIn(Assemblies(t))`components
      modifies ComplexesIn(Assemblies(t))`superAssembly
      modifies ComplexesIn(Assemblies(t))`subAssemblies, ComplexesIn(Assemblies(t))`level
      modifies complexAssembly.superAssembly`subAssemblies, parts`usedIn
      ensures Sound() && View(parts) == Without(old(View(parts)), Assemblies(t))
      ensures old(complexAssembly.superAssembly).subAssemblies ==
        RemoveAt(old(complexAssembly.superAssembly.subAssemblies),
                 FirstIndex(Keys(old(complexAssembly.superAssembly.subAssemblies)), ComplexKey(complexAssembly.id)))
      ensures Cleared(Assemblies(t))
      decreases t, 2
    {
      hide Cleared, Removable, Remaining, Consistent, Linked, DistinctParts, Shape, Assemblies, AssembliesOf;
      hide Apart, AsSet, KeyBag, Keys, FirstIndex, RemoveAt, BasesIn, ComplexesIn, Sound, Without, Registered;
      RemovableBelow(t, complexAssembly.superAssembly, level, View(parts));
      var superAssembly := complexAssembly.superAssembly;
      assert superAssembly !in ComplexesIn(AssembliesOf(t.kids)) && superAssembly != t.complex;
      var _ := superAssembly.RemoveSubAssembly(Complex(complexAssembly));
      assert Remaining(t, 0, level, View(parts));
      UnregisterSubAssemblies(complexAssembly, t, level, parts);
      WithoutOthers(old(View(parts)), AssembliesOf(t.kids), Complex(complexAssembly));
      assert complexAssembly !in ComplexesIn(AssembliesOf(t.kids));
      RecycleComplexAssembly(complexAssembly, parts);
      NodeCleared(t);
      WithoutTwice(old(View(parts)), AssembliesOf(t.kids), [Complex(complexAssembly)]);
    }

    /** The last four steps of the removal: out of the index, pointers cleared, id back in the pool. */
    method RecycleComplexAssembly(complexAssembly: ComplexAssembly, ghost parts: set<CompositePart>)
      requires Sound() && Complex(complexAssembly) in Registered()
      modifies this`complexAssemblyIdIndex, complexAssemblyIdPool`ids
      modifies complexAssembly`superAssembly, complexAssembly`subAssemblies, complexAssembly`level
      ensures Sound() && View(parts) == Without(old(View(parts)), [Complex(complexAssembly)])
      ensures complexAssembly.superAssembly == null && complexAssembly.subAssemblies == [] && complexAssembly.level == -1
    {
      hide Without, Consistent, AsSet, KeyBag, Keys, Entries, FreeKeys, Purged;
      WithoutComplex(View(parts), complexAssembly);
      var id := complexAssembly.id;
      UnregisterComplex(Free(), baseAssemblyIdIndex, complexAssemblyIdIndex, complexAssembly);
      complexAssemblyIdIndex := complexAssemblyIdIndex - {id};
      complexAssembly.ClearPointers();
      PutComplexId(id, baseAssemblyIdPool.ids, complexAssemblyIdPool.ids);
      complexAssemblyIdPool.PutUnusedId(id);
    }

    /**
     * The loop over a copy of the children.  The original has it twice: one chooses the
     * removal by level and the other, when a creation is undone, by kind.
     */
    method UnregisterSubAssemblies(complexAssembly: ComplexAssembly, ghost t: Tree,
                                   ghost level: int, ghost parts: set<CompositePart>)
      requires Sound() && DistinctParts(parts) && Apart(Assemblies(t))
      requires Complex(complexAssembly) == Top(t) && Remaining(t, 0, level, View(parts))
      modifies this`baseAssemblyIdIndex, this`complexAssemblyIdIndex
      modifies baseAssemblyIdPool`ids, complexAssemblyIdPool`ids
      modifies BasesIn(AssembliesOf(t.kids))`superAssembly, BasesIn(AssembliesOf(t.kids))`components
      modifies ComplexesIn(AssembliesOf(t.kids))`superAssembly
      modifies ComplexesIn(AssembliesOf(t.kids))`subAssemblies, ComplexesIn(AssembliesOf(t.kids))`level
      modifies complexAssembly`subAssemblies, parts`usedIn
      ensures Sound() && View(parts) == Without(old(View(parts)), AssembliesOf(t.kids))
      ensures complexAssembly.subAssemblies == [] && Cleared(AssembliesOf(t.kids))
      decreases t, 1
    {
      hide Cleared, Remaining, Without, Removable, Sound, Shape, Apart, AsSet, KeyBag, Assemblies, AssembliesOf, Tops;
      hide View, BasesIn, ComplexesIn, DistinctParts;
      RemainingKids(t, 0, level, View(parts));
      var subAssembliesSet := complexAssembly.subAssemblies;
      var i := 0;
      WithoutNothing(View(parts));
      NothingCleared();
      assert t.kids[..0] == [] && AssembliesOf([]) == [];
      while i < |subAssembliesSet|
        invariant i <= |t.kids| == |subAssembliesSet|
        invariant subAssembliesSet == Tops(t.kids)
        invariant Sound() && Remaining(t, i, level, View(parts))
        invariant View(parts) == Without(old(View(parts)), AssembliesOf(t.kids[..i]))
        invariant Cleared(AssembliesOf(t.kids[..i]))
      {
        KidBelow(t, i);
        KidsBefore(t, i);
        ghost var gone := AssembliesOf(t.kids[..i]);
        label BeforeKid:
        UnregisterSubAssembly(subAssembliesSet[i], t, i, level, parts);
        KidsUpTo(t.kids, i);
        StaysCleared@BeforeKid(gone);
        ClearedTogether(gone, Assemblies(t.kids[i]));
        WithoutTwice(old(View(parts)), AssembliesOf(t.kids[..i]), Assemblies(t.kids[i]));
        i := i + 1;
      }
      assert t.kids[..i] == t.kids;
      RemainingKids(t, i, level, View(parts));
    }

    method UnregisterSubAssembly(assembly: Assembly, ghost t: Tree, ghost i: nat,
                                 ghost level: int, ghost parts: set<CompositePart>)
      requires t.Node? && i < |t.kids| && assembly == Top(t.kids[i])
      requires Sound() && DistinctParts(parts) && Apart(Assemblies(t)) && Remaining(t, i, level, View(parts))
      modifies this`baseAssemblyIdIndex, this`complexAssemblyIdIndex
      modifies baseAssemblyIdPool`ids, complexAssemblyIdPool`ids
      modifies BasesIn(Assemblies(t.kids[i]))`superAssembly, BasesIn(Assemblies(t.kids[i]))`components
      modifies ComplexesIn(Assemblies(t.kids[i]))`superAssembly
      modifies ComplexesIn(Assemblies(t.kids[i]))`subAssemblies, ComplexesIn(Assemblies(t.kids[i]))`level
      modifies t.complex`subAssemblies, parts`usedIn
      ensures Sound() && Remaining(t, i + 1, level, View(parts))
      ensures View(parts) == Without(old(View(parts)), Assemblies(t.kids[i])) && Cleared(Assemblies(t.kids[i]))
      decreases t, 0
    {
      hide Cleared, Without, Removable, Sound, Shape, Apart, AsSet, KeyBag, Assemblies, AssembliesOf, Keys, FirstIndex, RemoveAt;
      hide View, BasesIn, ComplexesIn;
      ghost var v := View(parts);
      KidBelow(t, i);
      DropHead(Tops(t.kids), i);
      UnregisterAndRecycleAssembly(assembly, t.kids[i], t.complex, level - 1, parts);
      forall j | i < j < |t.kids|
        ensures Shape(t.kids[j], t.complex, level - 1) && Removable(Assemblies(t.kids[j]), View(parts))
      {
        KidsDisjoint(t, i, j);
        KidBelow(t, j);
        assert old(Removable(Assemblies(t.kids[j]), v));
        StillRemovable(v, Assemblies(t.kids[i]), Assemblies(t.kids[j]));
      }
    }

    // ---------- creation ----------

    /** No child has an id that the pools could hand out again. */
    ghost predicate Open(superAssembly: ComplexAssembly?)
      reads baseAssemblyIdPool`ids, complexAssemblyIdPool`ids
      reads (if superAssembly == null then {} else {superAssembly})`subAssemblies
    {
      superAssembly == null || forall a :: a in superAssembly.subAssemblies ==> a.Key() !in Free()
    }

    /** The level of an assembly created below `superAssembly`. */
    ghost function LevelBelow(superAssembly: ComplexAssembly?): int
      reads superAssembly
    {
      if superAssembly == null then numAssmLevels else superAssembly.level - 1
    }

    /** Both pools can supply a complete subtree of this level. */
    ghost predicate Enough(level: int)
      reads baseAssemblyIdPool`ids, complexAssemblyIdPool`ids
    {
      && |baseAssemblyIdPool.ids| >= BaseCount(numAssmPerAssm, level)
      && |complexAssemblyIdPool.ids| >= ComplexCount(numAssmPerAssm, level)
    }

    method CreateAndRegisterBaseAssembly(superAssembly: ComplexAssembly) returns (created: Option<Assembly>, ghost tree: Option<Tree>)
      requires Sound() && superAssembly.level == 2 && Open(superAssembly)
      modifies this`baseAssemblyIdIndex, baseAssemblyIdPool`ids, superAssembly`subAssemblies
      ensures Sound()
      ensures created.Some? <==> old(Enough(1))
      ensures created.None? ==> View({}) == old(View({}))
      ensures created.None? ==> superAssembly.subAssemblies == old(superAssembly.subAssemblies)
      ensures created.Some? ==>
        && tree.Some? && Top(tree.value) == created.value
        && Grown(old(View({})), tree.value, superAssembly, 1, numAssmPerAssm, View({}))
        && fresh(BasesIn(Assemblies(tree.value))) && fresh(ComplexesIn(Assemblies(tree.value)))
        && superAssembly.subAssemblies == old(superAssembly.subAssemblies) + [created.value]
      ensures |baseAssemblyIdPool.ids| == |old(baseAssemblyIdPool.ids)| - if created.Some? then 1 else 0
    {
      hide Consistent, Grown, AsSet, KeyBag, Keys, Entries, FreeKeys, BasesIn, ComplexesIn, Assemblies;
      var date := CreateBuildDate(MIN_ASSM_DATE, MAX_ASSM_DATE);
      var assemblyId := baseAssemblyIdPool.GetId();
      if assemblyId.None? {
        return None, None;
      }
      TakeBaseId(assemblyId.value, baseAssemblyIdPool.ids, complexAssemblyIdPool.ids);
      var baseAssembly := new BaseAssembly(assemblyId.value, date, superAssembly);
      RegisterBase(Free(), baseAssemblyIdIndex, complexAssemblyIdIndex, baseAssembly);
      baseAssemblyIdIndex := baseAssemblyIdIndex[assemblyId.value := baseAssembly];
      var notAddedBefore := superAssembly.AddSubAssembly(Base(baseAssembly));
      created, tree := Some(Base(baseAssembly)), Some(Leaf(baseAssembly));
      GrownLeaf(old(View({})), baseAssembly, superAssembly, numAssmPerAssm, View({}));
    }

    lemma SameRegisteredSameIndexes(bases: map<int, BaseAssembly>, complexes: map<int, ComplexAssembly>, free: multiset<Key>)
      requires Sound() && Consistent(free, bases, complexes) && Registered() == Entries(bases, complexes)
      ensures baseAssemblyIdIndex == bases && complexAssemblyIdIndex == complexes
    {
      SameEntriesSameIndexes(bases, complexes, baseAssemblyIdIndex, complexAssemblyIdIndex);
    }

    /**
     * All or nothing: the subtree is created exactly when both pools can supply a complete
     * one, and otherwise the tree, the indexes and the sets of free ids are as before.
     */
    method CreateAndRegisterAssembly(superAssembly: ComplexAssembly?) returns (created: Option<Assembly>, ghost tree: Option<Tree>)
      requires Sound() && LevelBelow(superAssembly) >= 1 && Open(superAssembly)
      requires superAssembly == null ==> numAssmLevels >= 2
      modifies this`baseAssemblyIdIndex, this`complexAssemblyIdIndex
      modifies baseAssemblyIdPool`ids, complexAssemblyIdPool`ids
      modifies (if superAssembly == null then {} else {superAssembly})`subAssemblies
      ensures Sound()
      ensures created.Some? <==> old(Enough(LevelBelow(superAssembly)))
      ensures created.None? ==> View({}) == old(View({}))
      ensures created.None? ==>
        && baseAssemblyIdIndex == old(baseAssemblyIdIndex)
        && complexAssemblyIdIndex == old(complexAssemblyIdIndex)
      ensures created.None? && superAssembly != null ==> superAssembly.subAssemblies == old(superAssembly.subAssemblies)
      ensures created.Some? ==>
        && tree.Some? && Top(tree.value) == created.value
        && Grown(old(View({})), tree.value, superAssembly, old(LevelBelow(superAssembly)), numAssmPerAssm, View({}))
        && fresh(BasesIn(Assemblies(tree.value))) && fresh(ComplexesIn(Assemblies(tree.value)))
      ensures created.Some? && superAssembly != null ==>
        superAssembly.subAssemblies == old(superAssembly.subAssemblies) + [created.value]
      ensures created.Some? ==>
        && |baseAssemblyIdPool.ids| == |old(baseAssemblyIdPool.ids)| - BaseCount(numAssmPerAssm, LevelBelow(superAssembly))
        && |complexAssemblyIdPool.ids| == |old(complexAssemblyIdPool.ids)| - ComplexCount(numAssmPerAssm, LevelBelow(superAssembly))
      decreases LevelBelow(superAssembly), 2
    {
      hide Consistent, Grown, AsSet, KeyBag, Keys, Entries, FreeKeys, BasesIn, ComplexesIn, Assemblies;
      if superAssembly == null || superAssembly.level > 2 {
        created, tree := CreateAndRegisterComplexAssembly(superAssembly);
      } else {
        created, tree := CreateAndRegisterBaseAssembly(superAssembly);
      }
      if created.None? {
        SameRegisteredSameIndexes(old(baseAssemblyIdIndex), old(complexAssemblyIdIndex), old(Free()));
      }
    }

    method CreateAndRegisterComplexAssembly(superAssembly: ComplexAssembly?) returns (created: Option<Assembly>, ghost tree: Option<Tree>)
      requires Sound() && LevelBelow(superAssembly) >= 2 && Open(superAssembly)
      modifies this`baseAssemblyIdIndex, this`complexAssemblyIdIndex
      modifies baseAssemblyIdPool`ids, complexAssemblyIdPool`ids
      modifies (if superAssembly == null then {} else {superAssembly})`subAssemblies
      ensures Sound()
      ensures created.Some? <==> old(Enough(LevelBelow(superAssembly)))
      ensures created.None? ==> View({}) == old(View({}))
      ensures created.None? && superAssembly != null ==> superAssembly.subAssemblies == old(superAssembly.subAssemblies)
      ensures created.Some? ==>
        && tree.Some? && Top(tree.value) == created.value
        && Grown(old(View({})), tree.value, superAssembly, old(LevelBelow(superAssembly)), numAssmPerAssm, View({}))
        && fresh(BasesIn(Assemblies(tree.value))) && fresh(ComplexesIn(Assemblies(tree.value)))
      ensures created.Some? && superAssembly != null ==>
        superAssembly.subAssemblies == old(superAssembly.subAssemblies) + [created.value]
      ensures created.Some? ==>
        && |baseAssemblyIdPool.ids| == |old(baseAssemblyIdPool.ids)| - BaseCount(numAssmPerAssm, LevelBelow(superAssembly))
        && |complexAssemblyIdPool.ids| == |old(complexAssemblyIdPool.ids)| - ComplexCount(numAssmPerAssm, LevelBelow(superAssembly))
      decreases LevelBelow(superAssembly), 1
    {
      hide Consistent, Grown, GrownKids, AsSet, KeyBag, Keys, Entries, FreeKeys, BasesIn, ComplexesIn, Assemblies, AssembliesOf;
      hide Cleared, Tops, Fair, Without, Remaining, Removable, Apart, Shape, BaseCount, ComplexCount;
      SoundIsFair({});
      ghost var v, level := View({}), LevelBelow(superAssembly);
      CountsBelow(numAssmPerAssm, level);
      var id := complexAssemblyIdPool.GetId();
      if id.None? {
        return None, None;
      }
      TakeComplexId(id.value, baseAssemblyIdPool.ids, complexAssemblyIdPool.ids);
      var complexAssembly := new ComplexAssembly(id.value, superAssembly, numAssmLevels);
      TakenIsConsistent(v.free, Free(), ComplexKey(id.value), baseAssemblyIdIndex, complexAssemblyIdIndex);
      ghost var v' := View({});
      var complete, kids := CreateSubAssemblies(complexAssembly);
      if !complete {
        RollBack(complexAssembly, kids, v, v', level);
        return None, None;
      }
      IndexComplexAssembly(complexAssembly, Node(complexAssembly, kids), superAssembly, v, v', level);
      if superAssembly != null {
        assert superAssembly !in {complexAssembly} + ComplexesIn(AssembliesOf(kids));
        var notAddedBefore := superAssembly.AddSubAssembly(Complex(complexAssembly));
      }
      created, tree := Some(Complex(complexAssembly)), Some(Node(complexAssembly, kids));
    }

    method IndexComplexAssembly(complexAssembly: ComplexAssembly, ghost t: Tree, ghost parent: ComplexAssembly?,
                                ghost v: Store, ghost v': Store, ghost level: int)
      requires Sound() && Fair(v) && v'.registered == v.registered && v.usedIn == v'.usedIn
      requires v.free == multiset{ComplexKey(complexAssembly.id)} + v'.free
      requires t.Node? && t.complex == complexAssembly && |t.kids| == numAssmPerAssm
      requires level >= 2 && complexAssembly.level == level && complexAssembly.superAssembly == parent
      requires complexAssembly.subAssemblies == Tops(t.kids)
      requires GrownKids(v', t.kids, complexAssembly, level - 1, numAssmPerAssm, View({}))
      modifies this`complexAssemblyIdIndex
      ensures Sound() && Grown(v, t, parent, level, numAssmPerAssm, View({}))
      ensures BasesIn(Assemblies(t)) == BasesIn(AssembliesOf(t.kids))
      ensures ComplexesIn(Assemblies(t)) == {complexAssembly} + ComplexesIn(AssembliesOf(t.kids))
    {
      hide Consistent, Grown, AsSet, KeyBag, Keys, Entries, FreeKeys, BasesIn, ComplexesIn, Assemblies, AssembliesOf, Shape;
      hide Tops, Fair, Without, Remaining, Complete, Added;
      ghost var w := View({});
      TakenKeyIsHeld(v, v', ComplexKey(complexAssembly.id), AssembliesOf(t.kids), w);
      RegisterComplex(Free(), baseAssemblyIdIndex, complexAssemblyIdIndex, complexAssembly);
      complexAssemblyIdIndex := complexAssemblyIdIndex[complexAssembly.id := complexAssembly];
      GrownNode(v, v', t, parent, level, numAssmPerAssm, w, View({}));
    }

    /** The handler of the failed creation: the children go again, and the id returns to its pool. */
    method RollBack(complexAssembly: ComplexAssembly, ghost kids: seq<Tree>, ghost v: Store, ghost v': Store, ghost level: int)
      requires Sound() && Fair(v) && v'.registered == v.registered && v.usedIn == v'.usedIn == map[]
      requires v.free == multiset{ComplexKey(complexAssembly.id)} + v'.free
      requires level >= 2 && complexAssembly.level == level && complexAssembly.subAssemblies == Tops(kids)
      requires GrownKids(v', kids, complexAssembly, level - 1, numAssmPerAssm, View({}))
      modifies this`baseAssemblyIdIndex, this`complexAssemblyIdIndex
      modifies baseAssemblyIdPool`ids, complexAssemblyIdPool`ids
      modifies complexAssembly`superAssembly, complexAssembly`subAssemblies, complexAssembly`level
      modifies BasesIn(AssembliesOf(kids))`superAssembly, BasesIn(AssembliesOf(kids))`components
      modifies ComplexesIn(AssembliesOf(kids))`superAssembly
      modifies ComplexesIn(AssembliesOf(kids))`subAssemblies, ComplexesIn(AssembliesOf(kids))`level
      ensures Sound() && View({}) == v && Cleared([Complex(complexAssembly)] + AssembliesOf(kids))
    {
      hide Consistent, GrownKids, AsSet, KeyBag, Keys, Entries, FreeKeys, BasesIn, ComplexesIn, Assemblies, AssembliesOf;
      hide Cleared, Tops, Fair, Without, Remaining, Shape, Apart, Removable;
      ghost var w, t := View({}), Node(complexAssembly, kids);
      KidsCanGo(v, v', t, level, numAssmPerAssm, w);
      UnregisterSubAssemblies(complexAssembly, t, level, {});
      assert Cleared(AssembliesOf(kids));
      AddedThenRemoved(v', AssembliesOf(kids), w);
      TopNotBelow(t);
      PutComplexId(complexAssembly.id, baseAssemblyIdPool.ids, complexAssemblyIdPool.ids);
      PutBackIsConsistent(v, Free(), baseAssemblyIdIndex, complexAssemblyIdIndex);
      assert v'.free + multiset{ComplexKey(complexAssembly.id)} == v.free;
      complexAssemblyIdPool.PutUnusedId(complexAssembly.id);
      complexAssembly.ClearPointers();
      NodeCleared(t);
    }

    lemma SoundIsFair(parts: set<CompositePart>)
      requires Sound()
      ensures Fair(View(parts))
    {
    }

    /** The loop that creates the children; it stops where the original throws. */
    method CreateSubAssemblies(complexAssembly: ComplexAssembly) returns (complete: bool, ghost kids: seq<Tree>)
      requires Sound() && complexAssembly.level >= 2 && complexAssembly.subAssemblies == []
      modifies this`baseAssemblyIdIndex, this`complexAssemblyIdIndex
      modifies baseAssemblyIdPool`ids, complexAssemblyIdPool`ids
      modifies complexAssembly`subAssemblies
      ensures Sound() && complexAssembly.subAssemblies == Tops(kids)
      ensures GrownKids(old(View({})), kids, complexAssembly, complexAssembly.level - 1, numAssmPerAssm, View({}))
      ensures fresh(BasesIn(AssembliesOf(kids))) && fresh(ComplexesIn(AssembliesOf(kids)))
      ensures complete <==>
        && |old(baseAssemblyIdPool.ids)| >= numAssmPerAssm * BaseCount(numAssmPerAssm, complexAssembly.level - 1)
        && |old(complexAssemblyIdPool.ids)| >= numAssmPerAssm * ComplexCount(numAssmPerAssm, complexAssembly.level - 1)
      ensures complete ==>
        && |kids| == numAssmPerAssm
        && |baseAssemblyIdPool.ids| == |old(baseAssemblyIdPool.ids)| - numAssmPerAssm * BaseCount(numAssmPerAssm, complexAssembly.level - 1)
        && |complexAssemblyIdPool.ids| == |old(complexAssemblyIdPool.ids)| - numAssmPerAssm * ComplexCount(numAssmPerAssm, complexAssembly.level - 1)
      decreases complexAssembly.level, 0
    {
      hide Consistent, Grown, GrownKids, AsSet, KeyBag, Keys, Entries, FreeKeys, BasesIn, ComplexesIn, Assemblies, AssembliesOf;
      hide BaseCount, ComplexCount, Tops, Fair;
      SoundIsFair({});
      ghost var level, b, c := complexAssembly.level - 1, BaseCount(numAssmPerAssm, complexAssembly.level - 1), ComplexCount(numAssmPerAssm, complexAssembly.level - 1);
      kids := [];
      GrownNoKids(View({}), complexAssembly, level, numAssmPerAssm);
      var i := 0;
      while i < numAssmPerAssm
        invariant |kids| == i <= numAssmPerAssm
        invariant Sound() && complexAssembly.subAssemblies == Tops(kids)
        invariant GrownKids(old(View({})), kids, complexAssembly, level, numAssmPerAssm, View({}))
        invariant fresh(BasesIn(AssembliesOf(kids))) && fresh(ComplexesIn(AssembliesOf(kids)))
        invariant |baseAssemblyIdPool.ids| == |old(baseAssemblyIdPool.ids)| - i * b
        invariant |complexAssemblyIdPool.ids| == |old(complexAssemblyIdPool.ids)| - i * c
      {
        GrownKidsAreOpen(old(View({})), kids, complexAssembly, level, numAssmPerAssm, View({}));
        OneMoreTime(i, numAssmPerAssm, b);
        OneMoreTime(i, numAssmPerAssm, c);
        SoundIsFair({});
        ghost var w := View({});
        ghost var subs := complexAssembly.subAssemblies;
        assert subs == Tops(kids) && complexAssembly !in ComplexesIn(AssembliesOf(kids));
        var created, t := CreateAndRegisterAssembly(complexAssembly);
        assert subs == Tops(kids);
        if created.None? {
          return false, kids;
        }
        GrownOneMore(old(View({})), kids, complexAssembly, level, numAssmPerAssm, w, t.value, View({}));
        kids := kids + [t.value];
        i := i + 1;
      }
      complete := true;
    }
  }

  lemma TakeHead(s: seq<CompositePart>)
    requires s != []
    ensures FirstIndex(PartIds(s), s[0].id) == 0
    ensures RemoveAt(s, 0) == s[1..]
    ensures forall p :: p in s[1..] ==> p in s
    ensures forall p :: Count(s, p) == Count(s[1..], p) + if p == s[0] then 1 else 0
  {
  }

  /** The loop over a copy of the components empties the bag, on both sides. */
  method UnlinkComponents(baseAssembly: BaseAssembly, ghost parts: set<CompositePart>)
    requires DistinctParts(parts) && Linked(baseAssembly, baseAssembly.components, Uses(parts))
    modifies baseAssembly`components, parts`usedIn
    ensures baseAssembly.components == []
    ensures Uses(parts) == PurgedUsesOf(old(Uses(parts)), {Base(baseAssembly)})
  {
    var components := baseAssembly.components;
    var i := 0;
    while i < |components|
      invariant i <= |components|
      invariant baseAssembly.components == components[i..]
      invariant Linked(baseAssembly, baseAssembly.components, Uses(parts))
      invariant forall p :: p in parts ==> Purged(p.usedIn, {Base(baseAssembly)}) == Purged(old(p.usedIn), {Base(baseAssembly)})
    {
      UnlinkFirst(baseAssembly, components[i], parts);
      i := i + 1;
    }
    forall p | p in parts
      ensures p.usedIn == Purged(old(p.usedIn), {Base(baseAssembly)})
    {
      LinkedToPart(baseAssembly, parts, p);
      CountPositive(p.usedIn, baseAssembly);
      PurgedKeepsAll(p.usedIn, {Base(baseAssembly)});
    }
  }

  method UnlinkFirst(baseAssembly: BaseAssembly, component: CompositePart, ghost parts: set<CompositePart>)
    requires DistinctParts(parts) && Linked(baseAssembly, baseAssembly.components, Uses(parts))
    requires baseAssembly.components != [] && component == baseAssembly.components[0]
    modifies baseAssembly`components, parts`usedIn
    ensures baseAssembly.components == old(baseAssembly.components)[1..]
    ensures Linked(baseAssembly, baseAssembly.components, Uses(parts))
    ensures forall p :: p in parts ==> Purged(p.usedIn, {Base(baseAssembly)}) == Purged(old(p.usedIn), {Base(baseAssembly)})
  {
    hide Linked, DistinctParts, Count, Purged, Uses;
    ghost var before := baseAssembly.components;
    TakeHead(before);
    LinkedToPart(baseAssembly, parts, component);
    CountPositive(component.usedIn, baseAssembly);
    RemoveOneUse(component.usedIn, baseAssembly);
    forall p ensures p in parts ==> Count(before, p) == Count(p.usedIn, baseAssembly)
             ensures p in parts ==> Identified(baseAssembly, p.usedIn)
             ensures p in baseAssembly.components ==> p in parts
    {
      LinkedToPart(baseAssembly, parts, p);
    }
    var removed := baseAssembly.RemoveComponent(component);
    LinkedToAll(baseAssembly, parts);
  }
}
