/** The design as the shared store has it: where the bodies of the operations find its pointers and lists. */
module StoredDesign {
  import opened LockTable
  import opened LockProtocol
  import opened OperationBodies

  ghost function Found(base: Store, id: int): int { base[InStructure(id, IndexedAs, 0)] }

  ghost function SuperOf(base: Store, a: int): int { base[InStructure(a, SuperAssembly, 0)] }

  ghost function Children(base: Store, s: int): int { base[InStructure(s, SubAssemblyCount, 0)] }

  ghost function Child(base: Store, s: int, i: int): int { base[InStructure(s, SubAssembly, i)] }

  ghost function LevelOf(base: Store, a: int): int { base[InStructure(a, Level, 0)] }

  ghost predicate BaseKind(base: Store, a: int) { base[InStructure(a, IsBase, 0)] != 0 }

  ghost function OwnerOf(base: Store, part: int): int { base[InStructure(part, Owner, 0)] }

  ghost function Users(base: Store, c: int): int { base[InStructure(c, UserCount, 0)] }

  ghost function UserAt(base: Store, c: int, i: int): int { base[InStructure(c, User, i)] }

  /** Where the build date of an assembly is. */
  ghost function DateCell(base: Store, a: int): Location
    requires BaseKind(base, a) || LevelOf(base, a) >= 0
  {
    DateAt(if BaseKind(base, a) then BASE_ASSEMBLY_LEVEL else LevelOf(base, a), a)
  }

  ghost function Components(base: Store, a: int): int { base[InStructure(a, ComponentCount, 0)] }

  ghost function ComponentAt(base: Store, a: int, j: int): int { base[InStructure(a, Component, j)] }

  ghost function PartDateOf(base: Store, part: int): int { base[Location(CompositePart, Cell(part, BuildDate, 0))] }

  ghost function RootPartOf(base: Store, c: int): int { base[InStructure(c, RootPart, 0)] }

  ghost function ConnectionsOf(base: Store, p: int): int { base[InStructure(p, ConnectionCount, 0)] }

  ghost function DestinationOf(base: Store, p: int, i: int): int { base[InStructure(p, Destination, i)] }

  datatype StoredTree = Leaf(assembly: int) | Node(assembly: int, kids: seq<StoredTree>)

  /** The pointers, kinds and levels in the store form the tree. */
  ghost predicate Stored(levels: nat, base: Store, t: StoredTree) {
    match t
    case Leaf(a) => BaseKind(base, a)
    case Node(a, kids) =>
      && !BaseKind(base, a) && 2 <= LevelOf(base, a) <= levels && Children(base, a) == |kids|
      && forall i :: 0 <= i < |kids| ==> Child(base, a, i) == kids[i].assembly && Stored(levels, base, kids[i])
  }

  // ---------- what is left to visit ----------

  lemma OneLeft(all: set<int>, s: set<int>, a: int)
    requires s <= all && a in all && a !in s
    ensures s + {a} <= all && |all - (s + {a})| < |all - s|
  {
    assert all - s == (all - (s + {a})) + {a};
  }

  lemma FewerLeft(all: set<int>, s: set<int>, t: set<int>)
    requires s <= t <= all
    ensures |all - t| <= |all - s|
  {
    assert all - s == (all - t) + (t - s);
  }
}
