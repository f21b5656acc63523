/**
 * What a change below one complex assembly does to the whole tree.  `Edit` replaces the
 * children of one node and leaves everything else in place.
 */
module TreeEdits {
  import opened DesignObjects
  import opened AssemblyTrees

  /** The child below which `a` is found. */
  ghost function Branch(kids: seq<Tree>, a: Assembly): (i: nat)
    requires a in AssembliesOf(kids)
    ensures i < |kids| && a in Assemblies(kids[i])
  {
    var last := |kids| - 1;
    if a in Assemblies(kids[last]) then last else Branch(kids[..last], a)
  }

  ghost function KidsAt(t: Tree, p: ComplexAssembly): seq<Tree>
    requires Complex(p) in Assemblies(t)
    decreases t
  {
    if t.complex == p then t.kids else KidsAt(t.kids[Branch(t.kids, Complex(p))], p)
  }

  ghost function Edit(t: Tree, p: ComplexAssembly, kids: seq<Tree>): Tree
    requires Complex(p) in Assemblies(t)
    decreases t
  {
    if t.complex == p then Node(p, kids)
    else
      var i := Branch(t.kids, Complex(p));
      Node(t.complex, t.kids[i := Edit(t.kids[i], p, kids)])
  }

  lemma {:induction false} KidReplaced(kids: seq<Tree>, i: nat, k: Tree) returns (before: seq<Assembly>, after: seq<Assembly>)
    requires i < |kids|
    ensures AssembliesOf(kids) == before + Assemblies(kids[i]) + after
    ensures AssembliesOf(kids[i := k]) == before + Assemblies(k) + after
  {
    var last := |kids| - 1;
    if i == last {
      before, after := AssembliesOf(kids[..last]), [];
      assert kids[i := k][..last] == kids[..last];
    } else {
      before, after := KidReplaced(kids[..last], i, k);
      assert kids[i := k][..last] == kids[..last][i := k];
      var more := Assemblies(kids[last]);
      Regroup(before, Assemblies(kids[i]), after, more);
      Regroup(before, Assemblies(k), after, more);
      after := after + more;
    }
  }

  lemma Regroup<T>(a: seq<T>, b: seq<T>, c: seq<T>, d: seq<T>)
    ensures (a + b + c) + d == a + b + (c + d)
  {
  }

  lemma RegroupInner<T>(a: seq<T>, b: seq<T>, c: seq<T>, d: seq<T>, e: seq<T>)
    ensures a + (b + c + d) + e == (a + b) + c + (d + e)
  {
  }

  /** The tree before and after differ only in what is below `p`. */
  lemma {:induction false} EditSplits(t: Tree, p: ComplexAssembly, kids: seq<Tree>) returns (before: seq<Assembly>, after: seq<Assembly>)
    requires Complex(p) in Assemblies(t)
    ensures Assemblies(t) == before + AssembliesOf(KidsAt(t, p)) + after
    ensures Assemblies(Edit(t, p, kids)) == before + AssembliesOf(kids) + after
    decreases t
  {
    if t.complex == p {
      before, after := [Complex(p)], [];
    } else {
      var i := Branch(t.kids, Complex(p));
      var inner, outer := EditSplits(t.kids[i], p, kids);
      var front, back := KidReplaced(t.kids, i, Edit(t.kids[i], p, kids));
      var top := [Complex(t.complex)];
      assert Assemblies(t) == top + (front + Assemblies(t.kids[i]) + back);
      RegroupInner(front, inner, AssembliesOf(KidsAt(t, p)), outer, back);
      RegroupInner(front, inner, AssembliesOf(kids), outer, back);
      Prepend(top, front + inner, AssembliesOf(KidsAt(t, p)), outer + back);
      Prepend(top, front + inner, AssembliesOf(kids), outer + back);
      before, after := top + (front + inner), outer + back;
    }
  }

  lemma Prepend<T>(a: seq<T>, b: seq<T>, c: seq<T>, d: seq<T>)
    ensures a + (b + c + d) == (a + b) + c + d
  {
  }

  // ---------- one subtree more or less ----------

  lemma Associate<T>(a: seq<T>, b: seq<T>, c: seq<T>)
    ensures a + (b + c) == (a + b) + c
  {
  }

  lemma NoKids()
    ensures AssembliesOf([]) == []
  {
  }

  lemma {:induction false} AssembliesConcat(s: seq<Tree>, t: seq<Tree>)
    ensures AssembliesOf(s + t) == AssembliesOf(s) + AssembliesOf(t)
  {
    hide Assemblies, AssembliesOf;
    if t == [] {
      NoKids();
      assert s + t == s;
    } else {
      var init, last := t[..|t| - 1], t[|t| - 1];
      AssembliesConcat(s, init);
      assert t == init + [last];
      Associate(s, init, [last]);
      AppendKid(init, last);
      AppendKid(s + init, last);
      Associate(AssembliesOf(s), AssembliesOf(init), Assemblies(last));
    }
  }

  lemma {:induction false} KidRemoved(kids: seq<Tree>, i: nat) returns (before: seq<Assembly>, after: seq<Assembly>)
    requires i < |kids|
    ensures AssembliesOf(kids) == before + Assemblies(kids[i]) + after
    ensures AssembliesOf(RemoveAt(kids, i)) == before + after
    ensures Tops(RemoveAt(kids, i)) == RemoveAt(Tops(kids), i)
  {
    hide Assemblies, AssembliesOf, Tops, RemoveAt;
    before, after := AssembliesOf(kids[..i]), AssembliesOf(kids[i + 1..]);
    AroundOne(kids, i);
    AssembliesConcat(kids[..i], kids[i + 1..]);
    AppendKid(kids[..i], kids[i]);
    AssembliesConcat(kids[..i] + [kids[i]], kids[i + 1..]);
    TopsWithoutOne(kids, i);
  }

  lemma AroundOne<T>(s: seq<T>, i: nat)
    requires i < |s|
    ensures s == s[..i] + [s[i]] + s[i + 1..] && RemoveAt(s, i) == s[..i] + s[i + 1..]
  {
  }

  lemma TopsWithoutOne(kids: seq<Tree>, i: nat)
    requires i < |kids|
    ensures Tops(RemoveAt(kids, i)) == RemoveAt(Tops(kids), i)
  {
    hide Top, Tops, RemoveAt;
    forall j | 0 <= j < |kids| - 1
      ensures Tops(RemoveAt(kids, i))[j] == RemoveAt(Tops(kids), i)[j]
    {
      assert RemoveAt(kids, i)[j] == kids[if j < i then j else j + 1];
    }
  }

  ghost function Pruned(t: Tree, p: ComplexAssembly, i: nat): Tree
    requires Complex(p) in Assemblies(t)
  {
    Edit(t, p, RemoveAt(KidsAt(t, p), i))
  }

  ghost function Grafted(t: Tree, p: ComplexAssembly, k: Tree): Tree
    requires Complex(p) in Assemblies(t)
  {
    Edit(t, p, KidsAt(t, p) + [k])
  }

  lemma PrunedSplits(t: Tree, p: ComplexAssembly, i: nat) returns (before: seq<Assembly>, after: seq<Assembly>)
    requires Complex(p) in Assemblies(t) && i < |KidsAt(t, p)|
    ensures Assemblies(t) == before + Assemblies(KidsAt(t, p)[i]) + after
    ensures Assemblies(Pruned(t, p, i)) == before + after
  {
    hide Assemblies, AssembliesOf, KidsAt, Edit;
    var kids := KidsAt(t, p);
    var front, back := EditSplits(t, p, RemoveAt(kids, i));
    var inner, outer := KidRemoved(kids, i);
    RegroupInner(front, inner, Assemblies(kids[i]), outer, back);
    RegroupOuter(front, inner, outer, back);
    before, after := front + inner, outer + back;
  }

  lemma GraftedSplits(t: Tree, p: ComplexAssembly, k: Tree) returns (before: seq<Assembly>, after: seq<Assembly>)
    requires Complex(p) in Assemblies(t)
    ensures Assemblies(t) == before + after
    ensures Assemblies(Grafted(t, p, k)) == before + Assemblies(k) + after
  {
    hide Assemblies, AssembliesOf, KidsAt, Edit;
    var kids := KidsAt(t, p);
    var front, back := EditSplits(t, p, kids + [k]);
    AppendKid(kids, k);
    RegroupTail(front, AssembliesOf(kids), Assemblies(k), back);
    before, after := front + AssembliesOf(kids), back;
  }

  lemma RegroupOuter<T>(a: seq<T>, b: seq<T>, c: seq<T>, d: seq<T>)
    ensures a + (b + c) + d == (a + b) + (c + d)
  {
  }

  lemma RegroupTail<T>(a: seq<T>, b: seq<T>, c: seq<T>, d: seq<T>)
    ensures a + (b + c) + d == (a + b) + c + d
  {
  }

  /** What is left when one stretch goes. */
  lemma StretchGone(a: seq<Assembly>, s: seq<Assembly>, b: seq<Assembly>)
    requires Apart(a + s + b)
    ensures Apart(a + b) && Apart(s)
    ensures AsSet(a + b) == AsSet(a + s + b) - AsSet(s)
    ensures KeyBag(a + s + b) == KeyBag(a + b) + KeyBag(s)
    ensures forall x, y :: x in s && y in a + b ==> x.Key() != y.Key()
  {
    var all := a + s + b;
    forall x, y | x in s && y in a + b
      ensures x.Key() != y.Key()
    {
      StretchApart(a, s, b, x, y);
    }
    StretchRest(a, s, b);
    StretchKeys(a, s, b);
    ApartMiddle(a, s, b);
  }

  lemma StretchApart(a: seq<Assembly>, s: seq<Assembly>, b: seq<Assembly>, x: Assembly, y: Assembly)
    requires Apart(a + s + b) && x in s && y in a + b
    ensures x.Key() != y.Key()
  {
    var all := a + s + b;
    var i :| 0 <= i < |s| && s[i] == x;
    assert all[|a| + i] == x;
    if y in a {
      var j :| 0 <= j < |a| && a[j] == y;
      assert all[j] == y;
    } else {
      var j :| 0 <= j < |b| && b[j] == y;
      assert all[|a| + |s| + j] == y;
    }
  }

  lemma StretchRest(a: seq<Assembly>, s: seq<Assembly>, b: seq<Assembly>)
    requires Apart(a + s + b)
    ensures Apart(a + b)
  {
    var all, rest := a + s + b, a + b;
    forall i, j | 0 <= i < j < |rest|
      ensures rest[i].Key() != rest[j].Key()
    {
      var i', j' := if i < |a| then i else i + |s|, if j < |a| then j else j + |s|;
      assert all[i'] == rest[i] && all[j'] == rest[j];
    }
  }

  lemma StretchKeys(a: seq<Assembly>, s: seq<Assembly>, b: seq<Assembly>)
    ensures KeyBag(a + s + b) == KeyBag(a + b) + KeyBag(s)
  {
    KeysConcat(a + s, b);
    KeysConcat(a, s);
    KeysConcat(a, b);
  }

  /** What there is when one stretch comes in between. */
  lemma StretchNew(a: seq<Assembly>, s: seq<Assembly>, b: seq<Assembly>)
    requires Apart(a + b) && Apart(s)
    requires forall x, y :: x in s && y in a + b ==> x.Key() != y.Key()
    ensures Apart(a + s + b)
    ensures AsSet(a + s + b) == AsSet(a + b) + AsSet(s)
    ensures KeyBag(a + s + b) == KeyBag(a + b) + KeyBag(s)
  {
    StretchKeys(a, s, b);
    assert AsSet(a + s + b) == AsSet(a + b) + AsSet(s);
    ApartStretch(a, s, b);
  }

  lemma ApartStretch(a: seq<Assembly>, s: seq<Assembly>, b: seq<Assembly>)
    requires Apart(a + b) && Apart(s)
    requires forall x, y :: x in s && y in a + b ==> x.Key() != y.Key()
    ensures Apart(a + s + b)
  {
    hide Apart;
    assert [] + a + b == a + b && a + b + [] == a + b;
    ApartMiddle([], a, b);
    ApartMiddle(a, b, []);
    ApartConcat(a, s);
    ApartConcat(a + s, b);
  }

  /** Every complex assembly has at least one child. */
  ghost predicate NonEmpty(t: Tree) {
    t.Leaf? || (t.kids != [] && forall i :: 0 <= i < |t.kids| ==> NonEmpty(t.kids[i]))
  }

  lemma {:induction false} EditNonEmpty(t: Tree, p: ComplexAssembly, kids: seq<Tree>)
    requires NonEmpty(t) && Complex(p) in Assemblies(t)
    requires kids != [] && forall i :: 0 <= i < |kids| ==> NonEmpty(kids[i])
    ensures NonEmpty(Edit(t, p, kids))
    decreases t
  {
    if t.complex != p {
      EditNonEmpty(t.kids[Branch(t.kids, Complex(p))], p, kids);
    }
  }

  lemma {:induction false} KidsAtNonEmpty(t: Tree, p: ComplexAssembly)
    requires NonEmpty(t) && Complex(p) in Assemblies(t)
    ensures forall i :: 0 <= i < |KidsAt(t, p)| ==> NonEmpty(KidsAt(t, p)[i])
    ensures KidsAt(t, p) != []
    decreases t
  {
    if t.complex != p {
      KidsAtNonEmpty(t.kids[Branch(t.kids, Complex(p))], p);
    }
  }

  // ---------- where an assembly hangs ----------

  function SuperOf(a: Assembly): ComplexAssembly?
    reads (if a.Base? then {a.base} else {})`superAssembly, (if a.Complex? then {a.complex} else {})`superAssembly
  {
    if a.Base? then a.base.superAssembly else a.complex.superAssembly
  }

  lemma {:induction false} KidsAtShape(t: Tree, parent: ComplexAssembly?, level: int, p: ComplexAssembly)
    requires Shape(t, parent, level) && Complex(p) in Assemblies(t)
    ensures 2 <= p.level <= level
    ensures p.subAssemblies == Tops(KidsAt(t, p))
    ensures forall j :: 0 <= j < |KidsAt(t, p)| ==> Shape(KidsAt(t, p)[j], p, p.level - 1)
    decreases t
  {
    hide Assemblies, AssembliesOf, Tops, Branch;
    ShapeOfNode(t, parent, level, Complex(p));
    if t.complex != p {
      var i := Branch(t.kids, Complex(p));
      KidsAtShape(t.kids[i], t.complex, level - 1, p);
    }
  }

  lemma ShapeOfNode(t: Tree, parent: ComplexAssembly?, level: int, a: Assembly)
    requires Shape(t, parent, level) && a in Assemblies(t) && a.Complex?
    ensures t.Node? && 2 <= t.complex.level == level && t.complex.subAssemblies == Tops(t.kids)
    ensures forall j :: 0 <= j < |t.kids| ==> Shape(t.kids[j], t.complex, level - 1)
    ensures a != Top(t) ==> a in AssembliesOf(t.kids)
  {
  }

  lemma BranchIsOnly(t: Tree, a: Assembly, j: nat)
    requires t.Node? && Apart(Assemblies(t)) && j < |t.kids| && a in Assemblies(t.kids[j])
    ensures a in AssembliesOf(t.kids) && Branch(t.kids, a) == j && a != Complex(t.complex)
    ensures Apart(Assemblies(t.kids[j]))
  {
    NodeParts(t);
    KidsApart(t.kids, j);
    var i := Branch(t.kids, a);
    if i < j {
      KidsApart(t.kids, i);
    }
  }

  /** Every assembly but the top hangs below the one its own pointer names. */
  lemma {:induction false} HangsBelow(t: Tree, parent: ComplexAssembly?, level: int, a: Assembly)
    returns (p: ComplexAssembly, i: nat)
    requires Shape(t, parent, level) && Apart(Assemblies(t))
    requires a in Assemblies(t) && a != Top(t)
    ensures SuperOf(a) == p && Complex(p) in Assemblies(t)
    ensures i < |KidsAt(t, p)| && Top(KidsAt(t, p)[i]) == a
    decreases t
  {
    var j := Branch(t.kids, a);
    if Top(t.kids[j]) == a {
      assert Shape(t.kids[j], t.complex, level - 1);
      p, i := t.complex, j;
    } else {
      BranchIsOnly(t, a, j);
      p, i := HangsBelow(t.kids[j], t.complex, level - 1, a);
      BranchIsOnly(t, Complex(p), j);
    }
  }

  /** Only the top has no assembly above it. */
  lemma TopHasNoSuper(t: Tree, level: int, a: Assembly)
    requires Shape(t, null, level) && Apart(Assemblies(t)) && a in Assemblies(t)
    ensures SuperOf(a) == null <==> a == Top(t)
  {
    if a != Top(t) {
      var p, i := HangsBelow(t, null, level, a);
    }
  }

  // ---------- the edit on the heap ----------

  /** A subtree and the assembly it hangs below. */
  datatype Site = Site(tree: Tree, parent: ComplexAssembly?)

  twostate predicate HadShape(site: Site, new level: int) {
    old(Shape(site.tree, site.parent, level))
  }

  /** Of the assemblies not `gone`, only the list of `p` has changed. */
  twostate predicate OnlyEdited(all: seq<Assembly>, new p: ComplexAssembly, new gone: seq<Assembly>)
    reads BasesIn(all), ComplexesIn(all)
  {
    forall a :: a in all && a !in gone ==>
      match a
      case Base(b) => b.superAssembly == old(b.superAssembly)
      case Complex(c) =>
        && c.superAssembly == old(c.superAssembly)
        && c.level == old(c.level)
        && (c != p ==> c.subAssemblies == old(c.subAssemblies))
  }

  lemma TopsKept(kids: seq<Tree>, i: nat, k: Tree)
    requires i < |kids| && Top(k) == Top(kids[i])
    ensures Tops(kids[i := k]) == Tops(kids)
  {
  }

  lemma KidsAtBelow(t: Tree, p: ComplexAssembly)
    requires Complex(p) in Assemblies(t)
    ensures forall a :: a in AssembliesOf(KidsAt(t, p)) ==> a in Assemblies(t)
  {
    var before, after := EditSplits(t, p, []);
  }

  /** The branch that holds `p` holds all that hangs below it, and no other branch does. */
  lemma BranchHoldsAll(t: Tree, p: ComplexAssembly, a: Assembly)
    requires t.Node? && Apart(Assemblies(t)) && Complex(p) in AssembliesOf(t.kids)
    requires a in AssembliesOf(KidsAt(t, p)) || a == Complex(p)
    ensures t.complex != p && a != Complex(t.complex)
    ensures Apart(Assemblies(t.kids[Branch(t.kids, Complex(p))]))
    ensures forall j :: 0 <= j < |t.kids| && a in Assemblies(t.kids[j]) ==> j == Branch(t.kids, Complex(p))
    ensures KidsAt(t, p) == KidsAt(t.kids[Branch(t.kids, Complex(p))], p)
  {
    var i := Branch(t.kids, Complex(p));
    BranchIsOnly(t, Complex(p), i);
    KidsAtBelow(t.kids[i], p);
    BranchIsOnly(t, a, i);
    forall j | 0 <= j < |t.kids| && a in Assemblies(t.kids[j])
      ensures j == i
    {
      BranchIsOnly(t, a, j);
    }
  }

  twostate lemma {:induction false} ShapeKept(site: Site, new level: int, new p: ComplexAssembly, new gone: seq<Assembly>)
    requires HadShape(site, level) && OnlyEdited(Assemblies(site.tree), p, gone)
    requires Complex(p) !in Assemblies(site.tree) && forall a :: a in Assemblies(site.tree) ==> a !in gone
    ensures Shape(site.tree, site.parent, level)
    decreases site.tree, 1, 0
  {
    assert Top(site.tree) in Assemblies(site.tree);
    if site.tree.Node? {
      ShapesKept(site, |site.tree.kids|, level, p, gone);
    }
  }

  twostate lemma {:induction false} ShapesKept(site: Site, new n: nat, new level: int, new p: ComplexAssembly, new gone: seq<Assembly>)
    requires site.tree.Node? && n <= |site.tree.kids|
    requires HadShape(site, level) && OnlyEdited(Assemblies(site.tree), p, gone)
    requires Complex(p) !in Assemblies(site.tree) && forall a :: a in Assemblies(site.tree) ==> a !in gone
    ensures forall i :: 0 <= i < n ==> Shape(site.tree.kids[i], site.tree.complex, level - 1)
    decreases site.tree, 0, n
  {
    if n > 0 {
      ShapesKept(site, n - 1, level, p, gone);
      ShapeKept(Site(site.tree.kids[n - 1], site.tree.complex), level - 1, p, gone);
    }
  }

  /** The other branches keep their shape. */
  twostate lemma OtherBranches(site: Site, new i: nat, new level: int, new p: ComplexAssembly, new gone: seq<Assembly>)
    requires site.tree.Node? && Apart(Assemblies(site.tree)) && Complex(p) in AssembliesOf(site.tree.kids)
    requires i == Branch(site.tree.kids, Complex(p)) && gone == AssembliesOf(KidsAt(site.tree, p))
    requires HadShape(site, level) && OnlyEdited(Assemblies(site.tree), p, gone)
    ensures forall j :: 0 <= j < |site.tree.kids| && j != i ==> Shape(site.tree.kids[j], site.tree.complex, level - 1)
  {
    hide HadShape, OnlyEdited, Apart, Tops, Branch, Shape;
    forall j | 0 <= j < |site.tree.kids| && j != i
      ensures Shape(site.tree.kids[j], site.tree.complex, level - 1)
    {
      forall a | a in Assemblies(site.tree.kids[j])
        ensures a != Complex(p) && a !in gone
      {
        if a == Complex(p) || a in gone {
          BranchHoldsAll(site.tree, p, a);
        }
      }
      BranchHadShape(site, j, level, p, gone);
      ShapeKept(Site(site.tree.kids[j], site.tree.complex), level - 1, p, gone);
    }
  }

  twostate lemma BranchHadShape(site: Site, new j: nat, new level: int, new p: ComplexAssembly, new gone: seq<Assembly>)
    requires site.tree.Node? && j < |site.tree.kids|
    requires HadShape(site, level) && OnlyEdited(Assemblies(site.tree), p, gone)
    ensures HadShape(Site(site.tree.kids[j], site.tree.complex), level - 1)
    ensures OnlyEdited(Assemblies(site.tree.kids[j]), p, gone)
  {
  }

  twostate lemma IntoBranch(site: Site, new i: nat, new level: int, new p: ComplexAssembly, new gone: seq<Assembly>)
    requires site.tree.Node? && site.tree.complex != p && i < |site.tree.kids|
    requires HadShape(site, level) && OnlyEdited(Assemblies(site.tree), p, gone)
    requires Complex(site.tree.complex) !in gone
    ensures HadShape(Site(site.tree.kids[i], site.tree.complex), level - 1)
    ensures OnlyEdited(Assemblies(site.tree.kids[i]), p, gone)
    ensures site.tree.complex.level == level >= 2 && site.tree.complex.superAssembly == site.parent
    ensures site.tree.complex.subAssemblies == Tops(site.tree.kids)
  {
    BranchHadShape(site, i, level, p, gone);
    assert Complex(site.tree.complex) in Assemblies(site.tree);
  }

  twostate lemma AtTop(site: Site, new level: int, new p: ComplexAssembly, new gone: seq<Assembly>)
    requires site.tree.Node? && site.tree.complex == p
    requires HadShape(site, level) && OnlyEdited(Assemblies(site.tree), p, gone)
    requires Complex(p) !in gone
    ensures p.level == level >= 2 && p.superAssembly == site.parent
  {
    assert Complex(p) in Assemblies(site.tree);
  }

  /** A change of the list of the parent alone leaves the shape of its children. */
  twostate lemma {:induction false} KidsKept(site: Site, new n: nat)
    requires site.tree.Node? && n <= |site.tree.kids| && site.tree.complex.level == old(site.tree.complex.level)
    requires Complex(site.tree.complex) !in AssembliesOf(site.tree.kids)
    requires OnlyEdited(AssembliesOf(site.tree.kids), site.tree.complex, [])
    requires forall j :: 0 <= j < |site.tree.kids| ==>
      old(Shape(site.tree.kids[j], site.tree.complex, site.tree.complex.level - 1))
    ensures forall j :: 0 <= j < n ==> Shape(site.tree.kids[j], site.tree.complex, site.tree.complex.level - 1)
  {
    hide Shape, Assemblies, AssembliesOf;
    if n > 0 {
      KidsKept(site, n - 1);
      ShapeKept(Site(site.tree.kids[n - 1], site.tree.complex), site.tree.complex.level - 1, site.tree.complex, []);
    }
  }

  lemma NodeShape(c: ComplexAssembly, parent: ComplexAssembly?, level: int, kids: seq<Tree>)
    requires c.level == level >= 2 && c.superAssembly == parent && c.subAssemblies == Tops(kids)
    requires forall j :: 0 <= j < |kids| ==> Shape(kids[j], c, level - 1)
    ensures Shape(Node(c, kids), parent, level)
  {
  }

  lemma BranchEdited(c: ComplexAssembly, parent: ComplexAssembly?, level: int, kids: seq<Tree>, i: nat, k: Tree)
    requires i < |kids| && Top(k) == Top(kids[i])
    requires c.level == level >= 2 && c.superAssembly == parent && c.subAssemblies == Tops(kids)
    requires Shape(k, c, level - 1)
    requires forall j :: 0 <= j < |kids| && j != i ==> Shape(kids[j], c, level - 1)
    ensures Shape(Node(c, kids[i := k]), parent, level)
  {
    hide Shape, Tops;
    TopsKept(kids, i, k);
    NodeShape(c, parent, level, kids[i := k]);
  }

  lemma TopNotBelow(t: Tree)
    requires t.Node? && Apart(Assemblies(t))
    ensures Complex(t.complex) !in AssembliesOf(t.kids)
  {
    NodeParts(t);
  }

  /** Where an edit goes: to the top itself or into the branch that holds `p`. */
  lemma EditPath(t: Tree, p: ComplexAssembly, kids: seq<Tree>)
    requires Complex(p) in Assemblies(t)
    ensures t.Node? && Top(Edit(t, p, kids)) == Top(t)
    ensures t.complex == p ==> KidsAt(t, p) == t.kids && Edit(t, p, kids) == Node(p, kids)
    ensures t.complex != p ==>
      && Complex(p) in AssembliesOf(t.kids)
      && var i := Branch(t.kids, Complex(p));
         Edit(t, p, kids) == Node(t.complex, t.kids[i := Edit(t.kids[i], p, kids)])
  {
  }

  /** Replacing the children of `p`, in the tree and in the heap, keeps the shape of the whole. */
  twostate lemma {:induction false} EditShape(site: Site, new level: int, new p: ComplexAssembly, new kids: seq<Tree>, new gone: seq<Assembly>)
    requires HadShape(site, level) && Apart(Assemblies(site.tree)) && Complex(p) in Assemblies(site.tree)
    requires gone == AssembliesOf(KidsAt(site.tree, p)) && OnlyEdited(Assemblies(site.tree), p, gone)
    requires p.subAssemblies == Tops(kids)
    requires forall j :: 0 <= j < |kids| ==> Shape(kids[j], p, p.level - 1)
    ensures Shape(Edit(site.tree, p, kids), site.parent, level)
    decreases site.tree
  {
    hide Shape, HadShape, OnlyEdited, Apart, Tops, Branch, Assemblies, AssembliesOf, KidsAt, Edit;
    EditPath(site.tree, p, kids);
    var t, c := site.tree, site.tree.complex;
    TopNotBelow(t);
    if c == p {
      AtTop(site, level, p, gone);
      NodeShape(p, site.parent, level, kids);
    } else {
      var i := Branch(t.kids, Complex(p));
      BranchHoldsAll(t, p, Complex(p));
      if Complex(c) in gone {
        BranchHoldsAll(t, p, Complex(c));
      }
      IntoBranch(site, i, level, p, gone);
      OtherBranches(site, i, level, p, gone);
      EditShape(Site(t.kids[i], c), level - 1, p, kids, gone);
      EditPath(t.kids[i], p, kids);
      BranchEdited(c, site.parent, level, t.kids, i, Edit(t.kids[i], p, kids));
    }
  }

  /** Nothing hangs below itself. */
  lemma {:induction false} NotBelowItself(t: Tree, p: ComplexAssembly)
    requires Apart(Assemblies(t)) && Complex(p) in Assemblies(t)
    ensures Complex(p) !in AssembliesOf(KidsAt(t, p))
    decreases t
  {
    NodeParts(t);
    if t.complex != p {
      BranchHoldsAll(t, p, Complex(p));
      NotBelowItself(t.kids[Branch(t.kids, Complex(p))], p);
    }
  }

  /** An assembly of a tree, and where the tree hangs. */
  datatype Spot = Spot(site: Site, p: ComplexAssembly)

  ghost predicate KidsShaped(spot: Spot)
    requires Complex(spot.p) in Assemblies(spot.site.tree)
    reads BasesIn(AssembliesOf(KidsAt(spot.site.tree, spot.p)))`superAssembly, spot.p`level
    reads ComplexesIn(AssembliesOf(KidsAt(spot.site.tree, spot.p)))`superAssembly
    reads ComplexesIn(AssembliesOf(KidsAt(spot.site.tree, spot.p)))`subAssemblies
    reads ComplexesIn(AssembliesOf(KidsAt(spot.site.tree, spot.p)))`level
  {
    var kids := KidsAt(spot.site.tree, spot.p);
    forall j :: 0 <= j < |kids| ==> Shape(kids[j], spot.p, spot.p.level - 1)
  }

  /** One more child at the end of a list, and nothing else, keeps the shape of the whole. */
  twostate lemma GraftShape(spot: Spot, new level: int, new k: Tree)
    requires HadShape(spot.site, level) && Apart(Assemblies(spot.site.tree))
    requires Complex(spot.p) in Assemblies(spot.site.tree) && OnlyEdited(Assemblies(spot.site.tree), spot.p, [])
    requires spot.p.level == old(spot.p.level)
    requires old(KidsShaped(spot))
    requires spot.p.subAssemblies == Tops(KidsAt(spot.site.tree, spot.p) + [k]) && Shape(k, spot.p, spot.p.level - 1)
    ensures Shape(Edit(spot.site.tree, spot.p, KidsAt(spot.site.tree, spot.p) + [k]), spot.site.parent, level)
  {
    hide Shape, Apart, Assemblies, AssembliesOf, KidsAt, Edit, Tops, HadShape;
    var t, p, kids := spot.site.tree, spot.p, KidsAt(spot.site.tree, spot.p);
    NotBelowItself(t, p);
    KidsAtBelow(t, p);
    KidsKept(Site(Node(p, kids), null), |kids|);
    EditShape(spot.site, level, p, kids + [k], AssembliesOf(kids));
  }

  lemma {:induction false} CompleteIsNonEmpty(t: Tree, fanOut: nat)
    requires fanOut >= 1 && Complete(t, fanOut)
    ensures NonEmpty(t)
  {
    if t.Node? {
      forall i | 0 <= i < |t.kids|
        ensures NonEmpty(t.kids[i])
      {
        CompleteIsNonEmpty(t.kids[i], fanOut);
      }
    }
  }

  lemma TopsAreInside(kids: seq<Tree>)
    ensures forall a :: a in Tops(kids) ==> a in AssembliesOf(kids)
    ensures forall j, a :: 0 <= j < |kids| && a in Assemblies(kids[j]) ==> a in AssembliesOf(kids)
  {
    forall a | a in Tops(kids)
      ensures a in AssembliesOf(kids)
    {
      var j :| 0 <= j < |kids| && Tops(kids)[j] == a;
      assert a in Assemblies(kids[j]);
    }
  }

  /** A child is found by its own key: no other child has it. */
  lemma FoundAtOwnPlace(kids: seq<Tree>, i: nat)
    requires Apart(AssembliesOf(kids)) && i < |kids|
    ensures FirstIndex(Keys(Tops(kids)), Top(kids[i]).Key()) == i
  {
    hide Apart, AssembliesOf, Assemblies, Top;
    var keys := Keys(Tops(kids));
    var f := FirstIndex(keys, Top(kids[i]).Key());
    assert keys[i] == Top(kids[i]).Key();
    if f < i {
      assert keys[f] == Top(kids[f]).Key();
      TopKeysDiffer(kids, f, i);
    }
  }

  lemma TopKeysDiffer(kids: seq<Tree>, i: nat, j: nat)
    requires Apart(AssembliesOf(kids)) && i < j < |kids|
    ensures Top(kids[i]).Key() != Top(kids[j]).Key()
  {
    hide Apart, AssembliesOf;
    KidsApart(kids, i);
    assert Top(kids[i]) in Assemblies(kids[i]) && Top(kids[j]) in Assemblies(kids[j]);
  }

  lemma {:induction false} KidsAtApart(t: Tree, p: ComplexAssembly)
    requires Apart(Assemblies(t)) && Complex(p) in Assemblies(t)
    ensures Apart(AssembliesOf(KidsAt(t, p)))
    decreases t
  {
    NodeParts(t);
    if t.complex != p {
      BranchHoldsAll(t, p, Complex(p));
      KidsAtApart(t.kids[Branch(t.kids, Complex(p))], p);
    }
  }

  /** Another child shares nothing with the one at `i`. */
  lemma OtherKid(kids: seq<Tree>, i: nat, j: nat)
    requires Apart(AssembliesOf(kids)) && i < |kids| && j < |kids| && i != j
    ensures BasesIn(Assemblies(kids[i])) !! BasesIn(Assemblies(kids[j]))
    ensures ComplexesIn(Assemblies(kids[i])) !! ComplexesIn(Assemblies(kids[j]))
  {
    hide Apart, AssembliesOf, Assemblies;
    if i < j {
      KidsApart(kids, i);
      NothingShared(Assemblies(kids[i]), Assemblies(kids[j]));
    } else {
      KidsApart(kids, j);
      NothingShared(Assemblies(kids[j]), Assemblies(kids[i]));
    }
  }

  lemma NothingShared(s: seq<Assembly>, t: seq<Assembly>)
    requires forall a, b :: a in s && b in t ==> a.Key() != b.Key()
    ensures BasesIn(s) !! BasesIn(t) && ComplexesIn(s) !! ComplexesIn(t)
  {
  }
}
