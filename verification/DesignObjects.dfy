/**
 * The mutable objects of the shared design: assemblies, composite parts and
 * atomic parts, with the list operations they are built from.  Small sets and
 * bags are array lists, so they are insertion-ordered sequences here, and they
 * find an element by `equals`, that is by kind and id.
 */
module DesignObjects {
  datatype Option<T> = None | Some(value: T)

  const XY_RANGE := 100000

  // ---------- lists searched by key ----------

  function FirstIndex<K(==)>(keys: seq<K>, key: K): (i: nat)
    ensures i <= |keys|
    ensures i < |keys| ==> keys[i] == key
    ensures forall j :: 0 <= j < i ==> keys[j] != key
  {
    if keys == [] then 0
    else if keys[0] == key then 0
    else 1 + FirstIndex(keys[1..], key)
  }

  function RemoveAt<T>(s: seq<T>, i: nat): (r: seq<T>)
    ensures i >= |s| ==> r == s
    ensures i < |s| ==> |r| == |s| - 1
    ensures forall j :: 0 <= j < i && j < |r| ==> r[j] == s[j]
    ensures forall j :: i <= j < |r| ==> r[j] == s[j + 1]
  {
    if i < |s| then s[..i] + s[i + 1..] else s
  }

  // ---------- assemblies ----------

  /** What `equals` compares: the kind of assembly and its id. */
  datatype Key = BaseKey(id: int) | ComplexKey(id: int)

  datatype Assembly = Base(base: BaseAssembly) | Complex(complex: ComplexAssembly) {
    function Key(): Key {
      match this
      case Base(b) => BaseKey(b.id)
      case Complex(c) => ComplexKey(c.id)
    }
  }

  function Keys(s: seq<Assembly>): (r: seq<Key>)
    ensures |r| == |s|
    ensures forall i :: 0 <= i < |s| ==> r[i] == s[i].Key()
  {
    if s == [] then [] else [s[0].Key()] + Keys(s[1..])
  }

  class ComplexAssembly {
    const id: int
    var superAssembly: ComplexAssembly?
    var subAssemblies: seq<Assembly>
    var level: int

    constructor (id: int, superAssembly: ComplexAssembly?, numAssmLevels: int)
      ensures this.id == id && this.superAssembly == superAssembly && subAssemblies == []
      ensures level == if superAssembly == null then numAssmLevels else superAssembly.level - 1
    {
      this.id := id;
      this.superAssembly := superAssembly;
      subAssemblies := [];
      level := if superAssembly == null then numAssmLevels else superAssembly.level - 1;
    }

    /** A base assembly under a level other than 2 is a run-time error in the original. */
    method AddSubAssembly(assembly: Assembly) returns (notAddedBefore: bool)
      requires assembly.Base? ==> level == 2
      modifies this`subAssemblies
      ensures notAddedBefore == (assembly.Key() !in Keys(old(subAssemblies)))
      ensures subAssemblies == if notAddedBefore then old(subAssemblies) + [assembly] else old(subAssemblies)
    {
      notAddedBefore := FirstIndex(Keys(subAssemblies), assembly.Key()) == |subAssemblies|;
      if notAddedBefore {
        subAssemblies := subAssemblies + [assembly];
      }
    }

    method RemoveSubAssembly(assembly: Assembly) returns (removed: bool)
      modifies this`subAssemblies
      ensures removed == (assembly.Key() in Keys(old(subAssemblies)))
      ensures subAssemblies == RemoveAt(old(subAssemblies), FirstIndex(Keys(old(subAssemblies)), assembly.Key()))
    {
      var i := FirstIndex(Keys(subAssemblies), assembly.Key());
      removed := i < |subAssemblies|;
      subAssemblies := RemoveAt(subAssemblies, i);
    }

    method ClearPointers()
      modifies `superAssembly, `subAssemblies, `level
      ensures superAssembly == null && subAssemblies == [] && level == -1
    {
      superAssembly := null;
      subAssemblies := [];
      level := -1;
    }
  }

  class BaseAssembly {
    const id: int
    const buildDate: int
    var superAssembly: ComplexAssembly?
    var components: seq<CompositePart>

    constructor (id: int, buildDate: int, superAssembly: ComplexAssembly)
      ensures this.id == id && this.buildDate == buildDate
      ensures this.superAssembly == superAssembly && components == []
    {
      this.id := id;
      this.buildDate := buildDate;
      this.superAssembly := superAssembly;
      components := [];
    }

    method AddComponent(component: CompositePart)
      modifies this`components, component`usedIn
      ensures components == old(components) + [component]
      ensures component.usedIn == old(component.usedIn) + [this]
    {
      components := components + [component];
      component.AddAssembly(this);
    }

    method RemoveComponent(component: CompositePart) returns (removed: bool)
      modifies this`components, component`usedIn
      ensures removed == (component.id in PartIds(old(components)))
      ensures components == RemoveAt(old(components), FirstIndex(PartIds(old(components)), component.id))
      ensures component.usedIn ==
        if removed then RemoveAt(old(component.usedIn), FirstIndex(AssemblyIds(old(component.usedIn)), id))
        else old(component.usedIn)
    {
      var i := FirstIndex(PartIds(components), component.id);
      if i == |components| {
        return false;
      }
      components := RemoveAt(components, i);
      component.RemoveAssembly(this);
      return true;
    }

    method ClearPointers()
      modifies `superAssembly, `components
      ensures superAssembly == null && components == []
    {
      superAssembly := null;
      components := [];
    }
  }

  function AssemblyIds(s: seq<BaseAssembly>): (r: seq<int>)
    ensures |r| == |s|
    ensures forall i :: 0 <= i < |s| ==> r[i] == s[i].id
  {
    if s == [] then [] else [s[0].id] + AssemblyIds(s[1..])
  }

  // ---------- composite and atomic parts ----------

  class CompositePart {
    const id: int
    const buildDate: int
    var usedIn: seq<BaseAssembly>
    var documentation: Document?
    var parts: set<AtomicPart>
    var rootPart: AtomicPart?
    /** The parts in the order in which the ring connects them. */
    ghost var ring: seq<AtomicPart>

    constructor (id: int, buildDate: int, documentation: Document, ghost ring: seq<AtomicPart>)
      modifies documentation`part
      ensures this.id == id && this.buildDate == buildDate && this.documentation == documentation
      ensures usedIn == [] && parts == {} && rootPart == null && this.ring == ring
      ensures documentation.part == this
    {
      this.id := id;
      this.buildDate := buildDate;
      this.documentation := documentation;
      usedIn := [];
      parts := {};
      rootPart := null;
      this.ring := ring;
      new;
      documentation.part := this;
    }

    method AddAssembly(assembly: BaseAssembly)
      modifies this`usedIn
      ensures usedIn == old(usedIn) + [assembly]
    {
      usedIn := usedIn + [assembly];
    }

    method RemoveAssembly(assembly: BaseAssembly)
      modifies this`usedIn
      ensures usedIn == RemoveAt(old(usedIn), FirstIndex(AssemblyIds(old(usedIn)), assembly.id))
    {
      usedIn := RemoveAt(usedIn, FirstIndex(AssemblyIds(usedIn), assembly.id));
    }

    /** A large set is ordered by id and refuses a part whose id it already holds. */
    method AddPart(part: AtomicPart) returns (notAddedBefore: bool)
      modifies this`parts, this`rootPart, part`partOf
      ensures notAddedBefore <==> forall p :: p in old(parts) ==> p.id != part.id
      ensures notAddedBefore ==>
        && parts == old(parts) + {part}
        && part.partOf == this
        && rootPart == if old(rootPart) == null then part else old(rootPart)
      ensures !notAddedBefore ==>
        parts == old(parts) && part.partOf == old(part.partOf) && rootPart == old(rootPart)
    {
      notAddedBefore := forall p | p in parts :: p.id != part.id;
      if notAddedBefore {
        parts := parts + {part};
        part.partOf := this;
        if rootPart == null {
          rootPart := part;
        }
      }
    }

    method ClearPointers()
      modifies `usedIn, `documentation, `parts, `rootPart
      ensures usedIn == [] && documentation == null && parts == {} && rootPart == null
    {
      usedIn, documentation, parts, rootPart := [], null, {}, null;
    }
  }

  function PartIds(s: seq<CompositePart>): (r: seq<int>)
    ensures |r| == |s|
    ensures forall i :: 0 <= i < |s| ==> r[i] == s[i].id
  {
    if s == [] then [] else [s[0].id] + PartIds(s[1..])
  }

  class Document {
    const id: int
    const compositePartId: int
    var part: CompositePart?

    constructor (id: int, compositePartId: int)
      ensures this.id == id && this.compositePartId == compositePartId && part == null
    {
      this.id := id;
      this.compositePartId := compositePartId;
      part := null;
    }
  }

  class AtomicPart {
    const id: int
    var buildDate: int
    var x: int
    var y: int
    var to: seq<Connection>
    var from: seq<Connection>
    var partOf: CompositePart?

    constructor (id: int, buildDate: int, x: int, y: int)
      ensures this.id == id && this.buildDate == buildDate && this.x == x && this.y == y
      ensures to == [] && from == [] && partOf == null
    {
      this.id := id;
      this.buildDate := buildDate;
      this.x, this.y := x, y;
      to, from := [], [];
      partOf := null;
    }

    /**
     * Connections have identity equality, and this one is new, so neither small set
     * can already hold it.
     */
    method ConnectTo(destination: AtomicPart, length: int)
      modifies this`to, destination`from
      ensures |to| == |old(to)| + 1 && to[..|old(to)|] == old(to) && fresh(to[|old(to)|])
      ensures to[|old(to)|].source == this && to[|old(to)|].destination == destination
      ensures to[|old(to)|].length == length
      ensures |destination.from| == |old(destination.from)| + 1
      ensures destination.from[..|old(destination.from)|] == old(destination.from)
      ensures destination.from[|old(destination.from)|].source == destination
      ensures destination.from[|old(destination.from)|].destination == this
      ensures destination.from[|old(destination.from)|].length == length
    {
      var connection := new Connection(this, destination, length);
      if connection !in to {
        to := to + [connection];
      }
      var reversed := new Connection(destination, this, length);
      if reversed !in destination.from {
        destination.from := destination.from + [reversed];
      }
    }

    /** An even date steps down and an odd one up, so a date and its partner swap. */
    method UpdateBuildDate()
      modifies this`buildDate
      ensures buildDate == Toggled(old(buildDate))
    {
      if buildDate % 2 == 0 {
        buildDate := buildDate - 1;
      } else {
        buildDate := buildDate + 1;
      }
    }

    method ClearPointers()
      modifies `x, `y, `to, `from, `partOf
      ensures x == 0 && y == 0 && to == [] && from == [] && partOf == null
    {
      x, y := 0, 0;
      to, from := [], [];
      partOf := null;
    }
  }

  function Toggled(date: int): int {
    if date % 2 == 0 then date - 1 else date + 1
  }

  class Connection {
    const source: AtomicPart
    const destination: AtomicPart
    const length: int

    constructor (source: AtomicPart, destination: AtomicPart, length: int)
      ensures this.source == source && this.destination == destination && this.length == length
    {
      this.source := source;
      this.destination := destination;
      this.length := length;
    }
  }
}
