/**
 * The tree that the assemblies of a design form.  A `Tree` only names objects;
 * `Shape` says that the fields of those objects really form it.
 */
module AssemblyTrees {
  import opened DesignObjects

  datatype Tree = Leaf(base: BaseAssembly) | Node(complex: ComplexAssembly, kids: seq<Tree>)

  function Top(t: Tree): Assembly {
    if t.Leaf? then Base(t.base) else Complex(t.complex)
  }

  function Tops(kids: seq<Tree>): (r: seq<Assembly>)
    ensures |r| == |kids|
    ensures forall i :: 0 <= i < |kids| ==> r[i] == Top(kids[i])
  {
    if kids == [] then [] else Tops(kids[..|kids| - 1]) + [Top(kids[|kids| - 1])]
  }

  /** All assemblies of a tree, each before those below it. */
  function Assemblies(t: Tree): (s: seq<Assembly>)
    ensures Top(t) in s
    ensures t.Node? ==> forall a :: a in AssembliesOf(t.kids) ==> a in s
    decreases t
  {
    if t.Leaf? then [Base(t.base)] else [Complex(t.complex)] + AssembliesOf(t.kids)
  }

  function AssembliesOf(kids: seq<Tree>): (s: seq<Assembly>)
    ensures forall i, a :: 0 <= i < |kids| && a in Assemblies(kids[i]) ==> a in s
    decreases kids
  {
    if kids == [] then [] else AssembliesOf(kids[..|kids| - 1]) + Assemblies(kids[|kids| - 1])
  }

  ghost function BasesIn(s: seq<Assembly>): (r: set<BaseAssembly>)
    ensures forall b :: b in r ==> Base(b) in s
    ensures forall a :: a in s && a.Base? ==> a.base in r
  {
    set a | a in s && a.Base? :: a.base
  }

  ghost function ComplexesIn(s: seq<Assembly>): (r: set<ComplexAssembly>)
    ensures forall c :: c in r ==> Complex(c) in s
    ensures forall a :: a in s && a.Complex? ==> a.complex in r
  {
    set a | a in s && a.Complex? :: a.complex
  }

  /** The fields of the tree's objects form the tree, its top one level below `parent`. */
  ghost predicate Shape(t: Tree, parent: ComplexAssembly?, level: int)
    reads BasesIn(Assemblies(t))`superAssembly
    reads ComplexesIn(Assemblies(t))`superAssembly, ComplexesIn(Assemblies(t))`subAssemblies, ComplexesIn(Assemblies(t))`level
    decreases t
  {
    && (t.Leaf? ==> level == 1 && t.base.superAssembly == parent)
    && (t.Node? ==>
          && level >= 2
          && t.complex.level == level
          && t.complex.superAssembly == parent
          && t.complex.subAssemblies == Tops(t.kids)
          && forall i :: 0 <= i < |t.kids| ==> Shape(t.kids[i], t.complex, level - 1))
  }

  /** Every complex assembly of the tree has exactly `fanOut` children. */
  ghost predicate Complete(t: Tree, fanOut: nat) {
    t.Leaf? || (|t.kids| == fanOut && forall i :: 0 <= i < |t.kids| ==> Complete(t.kids[i], fanOut))
  }

  // ---------- telling assemblies apart ----------

  /** No two of the assemblies are `equals`. */
  ghost predicate Apart(s: seq<Assembly>) {
    forall i, j :: 0 <= i < j < |s| ==> s[i].Key() != s[j].Key()
  }

  ghost function AsSet(s: seq<Assembly>): set<Assembly> {
    set a | a in s
  }

  ghost function KeyBag(s: seq<Assembly>): multiset<Key> {
    multiset(Keys(s))
  }

  lemma KeysConcat(s: seq<Assembly>, t: seq<Assembly>)
    ensures KeyBag(s + t) == KeyBag(s) + KeyBag(t)
  {
    assert Keys(s + t) == Keys(s) + Keys(t);
  }

  lemma KeyInBag(s: seq<Assembly>, a: Assembly)
    requires a in s
    ensures a.Key() in KeyBag(s)
  {
    var i :| 0 <= i < |s| && s[i] == a;
    assert Keys(s)[i] == a.Key();
  }

  lemma BagKeyIn(s: seq<Assembly>, key: Key) returns (a: Assembly)
    requires key in KeyBag(s)
    ensures a in s && a.Key() == key
  {
    var i :| 0 <= i < |s| && Keys(s)[i] == key;
    a := s[i];
  }

  lemma AppendKid(kids: seq<Tree>, t: Tree)
    ensures AssembliesOf(kids + [t]) == AssembliesOf(kids) + Assemblies(t)
    ensures Tops(kids + [t]) == Tops(kids) + [Top(t)]
  {
    assert (kids + [t])[..|kids|] == kids;
  }

  lemma {:induction false} InSomeKid(kids: seq<Tree>, a: Assembly) returns (i: nat)
    requires a in AssembliesOf(kids)
    ensures i < |kids| && a in Assemblies(kids[i])
  {
    var last := |kids| - 1;
    if a in Assemblies(kids[last]) {
      i := last;
    } else {
      i := InSomeKid(kids[..last], a);
    }
  }

  lemma {:induction false} KidInside(kids: seq<Tree>, i: nat) returns (before: seq<Assembly>, after: seq<Assembly>)
    requires i < |kids|
    ensures AssembliesOf(kids) == before + Assemblies(kids[i]) + after
    ensures before == AssembliesOf(kids[..i])
    ensures forall j :: i < j < |kids| ==> forall a :: a in Assemblies(kids[j]) ==> a in after
  {
    var last := |kids| - 1;
    if i == last {
      before, after := AssembliesOf(kids[..last]), [];
    } else {
      var rest := kids[..last];
      before, after := KidInside(rest, i);
      assert rest[..i] == kids[..i];
      var more := Assemblies(kids[last]);
      assert (before + Assemblies(kids[i]) + after) + more == before + Assemblies(kids[i]) + (after + more);
      after := after + more;
      forall j, a | i < j < |kids| && a in Assemblies(kids[j])
        ensures a in after
      {
        if j < last {
          assert kids[j] == rest[j];
        }
      }
    }
  }

  lemma ApartMiddle(a: seq<Assembly>, b: seq<Assembly>, c: seq<Assembly>)
    requires Apart(a + b + c)
    ensures Apart(b)
    ensures forall x, y :: x in b && y in c ==> x.Key() != y.Key()
  {
    var s := a + b + c;
    forall i, j | 0 <= i < j < |b|
      ensures b[i].Key() != b[j].Key()
    {
      assert s[|a| + i] == b[i] && s[|a| + j] == b[j];
    }
    forall x, y | x in b && y in c
      ensures x.Key() != y.Key()
    {
      var i :| 0 <= i < |b| && b[i] == x;
      var j :| 0 <= j < |c| && c[j] == y;
      assert s[|a| + i] == x && s[|a| + |b| + j] == y;
    }
  }

  lemma ApartConcat(s: seq<Assembly>, t: seq<Assembly>)
    requires Apart(s) && Apart(t)
    requires forall a, b :: a in s && b in t ==> a.Key() != b.Key()
    ensures Apart(s + t)
  {
  }

  /** Subtrees side by side share no object and no key. */
  lemma KidsApart(kids: seq<Tree>, i: nat)
    requires Apart(AssembliesOf(kids)) && i < |kids|
    ensures Apart(Assemblies(kids[i]))
    ensures forall j, a, b :: i < j < |kids| && a in Assemblies(kids[i]) && b in Assemblies(kids[j]) ==> a.Key() != b.Key()
  {
    var before, after := KidInside(kids, i);
    ApartMiddle(before, Assemblies(kids[i]), after);
  }

  /** A node is its top and its kids, and the top is not met again below. */
  lemma NodeParts(t: Tree)
    requires t.Node? && Apart(Assemblies(t))
    ensures Assemblies(t) == [Complex(t.complex)] + AssembliesOf(t.kids)
    ensures AsSet(Assemblies(t)) == {Complex(t.complex)} + AsSet(AssembliesOf(t.kids))
    ensures KeyBag(Assemblies(t)) == multiset{ComplexKey(t.complex.id)} + KeyBag(AssembliesOf(t.kids))
    ensures Complex(t.complex) !in AssembliesOf(t.kids)
    ensures Apart(AssembliesOf(t.kids))
    ensures forall a :: a in AssembliesOf(t.kids) ==> a.Key() != ComplexKey(t.complex.id)
  {
    var s, below := Assemblies(t), AssembliesOf(t.kids);
    KeysConcat([Complex(t.complex)], below);
    assert Keys([Complex(t.complex)]) == [ComplexKey(t.complex.id)];
    forall i, j | 0 <= i < j < |below|
      ensures below[i].Key() != below[j].Key()
    {
      assert s[i + 1] == below[i] && s[j + 1] == below[j];
    }
    forall a | a in below
      ensures a.Key() != ComplexKey(t.complex.id)
    {
      var i :| 0 <= i < |below| && below[i] == a;
      assert s[i + 1] == a && s[0].Key() == ComplexKey(t.complex.id);
    }
  }

  lemma KidsDisjoint(t: Tree, i: nat, j: nat)
    requires t.Node? && Apart(Assemblies(t)) && i < j < |t.kids|
    ensures forall a, b :: a in Assemblies(t.kids[i]) && b in Assemblies(t.kids[j]) ==> a.Key() != b.Key()
    ensures BasesIn(Assemblies(t.kids[i])) !! BasesIn(Assemblies(t.kids[j]))
    ensures ComplexesIn(Assemblies(t.kids[i])) !! ComplexesIn(Assemblies(t.kids[j]))
  {
    NodeParts(t);
    KidsApart(t.kids, i);
  }

  lemma KidBelow(t: Tree, i: nat)
    requires t.Node? && Apart(Assemblies(t)) && i < |t.kids|
    ensures BasesIn(Assemblies(t.kids[i])) <= BasesIn(AssembliesOf(t.kids))
    ensures ComplexesIn(Assemblies(t.kids[i])) <= ComplexesIn(AssembliesOf(t.kids))
    ensures t.complex !in ComplexesIn(AssembliesOf(t.kids))
  {
    NodeParts(t);
  }

  lemma TopNotBelow(t: Tree)
    requires t.Node? && Apart(Assemblies(t))
    ensures t.complex !in ComplexesIn(AssembliesOf(t.kids))
  {
    NodeParts(t);
  }

  /** A child shares no object with those before it. */
  lemma KidsBefore(t: Tree, i: nat)
    requires t.Node? && Apart(Assemblies(t)) && i < |t.kids|
    ensures forall b :: b in BasesIn(AssembliesOf(t.kids[..i])) ==> b !in BasesIn(Assemblies(t.kids[i]))
    ensures forall c :: c in ComplexesIn(AssembliesOf(t.kids[..i])) ==> c !in ComplexesIn(Assemblies(t.kids[i]))
    ensures t.complex !in ComplexesIn(AssembliesOf(t.kids[..i]))
  {
    hide Apart, Assemblies, AssembliesOf, BasesIn, ComplexesIn;
    KidBelow(t, i);
    forall a | a in AssembliesOf(t.kids[..i])
      ensures a !in Assemblies(t.kids[i]) && a != Complex(t.complex)
    {
      var j := InSomeKid(t.kids[..i], a);
      KidsDisjoint(t, j, i);
      KidBelow(t, j);
    }
  }

  lemma KidsUpTo(kids: seq<Tree>, i: nat)
    requires i < |kids|
    ensures AssembliesOf(kids[..i + 1]) == AssembliesOf(kids[..i]) + Assemblies(kids[i])
  {
    assert kids[..i + 1] == kids[..i] + [kids[i]];
    AppendKid(kids[..i], kids[i]);
  }

  lemma DropHead(s: seq<Assembly>, i: nat)
    requires i < |s|
    ensures RemoveAt(s[i..], FirstIndex(Keys(s[i..]), s[i].Key())) == s[i + 1..]
  {
    assert Keys(s[i..])[0] == s[i].Key();
  }
}
