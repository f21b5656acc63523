/**
 * The traversals T1, T3a, T3b and T3c.  They walk the tree and, for every use of a
 * composite part, its graph of atomic parts from the root, depth first and with a set of
 * visited parts.  T3 also changes build dates and keeps the index by date in step.
 */
module PartTraversals {
  import opened DesignObjects
  import opened AtomicPartBuilding
  import opened Connections
  import opened CompositePartBuilding

  datatype Traversal = T1 | T3a | T3b | T3c

  /** What one walk over `n` parts returns; `first` says that it started with no part visited. */
  function Score(kind: Traversal, n: nat, first: bool): nat {
    match kind
    case T1 => n
    case T3a => if first then 1 else 0
    case T3b => n
    case T3c => 4 * n
  }

  /** The date after the walk of a part that it visited; `root` says that it was visited first. */
  function DateAfter(kind: Traversal, date: int, root: bool): int {
    match kind
    case T1 => date
    case T3a => if root then Toggled(date) else date
    case T3b => Toggled(date)
    case T3c => date
  }

  method PerformOperationInAtomicPart(kind: Traversal, part: AtomicPart, setOfVisitedPartIds: set<AtomicPart>,
                                      builder: AtomicPartBuilder) returns (result: nat)
    requires builder.Valid() && part in builder.Live()
    modifies builder`partBuildDateIndex, part`buildDate
    ensures builder.Valid() && result == Score(kind, 1, setOfVisitedPartIds == {})
    ensures part.buildDate == DateAfter(kind, old(part.buildDate), setOfVisitedPartIds == {})
  {
    hide builder.Valid;
    ToggledTwice(part.buildDate);
    match kind {
      case T1 =>
        result := 1;
      case T3a =>
        if setOfVisitedPartIds == {} {
          builder.UpdateBuildDate(part);
          return 1;
        }
        result := 0;
      case T3b =>
        builder.UpdateBuildDate(part);
        result := 1;
      case T3c =>
        builder.UpdateBuildDate(part);
        builder.UpdateBuildDate(part);
        builder.UpdateBuildDate(part);
        builder.UpdateBuildDate(part);
        result := 4;
    }
  }

  ghost function Dates(all: set<AtomicPart>): map<AtomicPart, int>
    reads all`buildDate
  {
    map p | p in all :: p.buildDate
  }

  /** The dates after a walk: those of the newly visited parts have changed, of `root` perhaps differently. */
  ghost function Redated(kind: Traversal, dates: map<AtomicPart, int>, newly: set<AtomicPart>, root: set<AtomicPart>):
    map<AtomicPart, int>
  {
    map p | p in dates :: if p in newly then DateAfter(kind, dates[p], p in root) else dates[p]
  }

  /** A walk that leaves every date alone, or sets it back. */
  predicate KeepsDates(kind: Traversal) {
    kind == T1 || kind == T3c
  }

  lemma RedatedTwice(kind: Traversal, dates: map<AtomicPart, int>, a: set<AtomicPart>, root: set<AtomicPart>, b: set<AtomicPart>)
    requires a !! b && root <= a
    ensures Redated(kind, Redated(kind, dates, a, root), b, {}) == Redated(kind, dates, a + b, root)
  {
  }

  lemma ScoreTwice(kind: Traversal, m: nat, n: nat, first: bool)
    ensures Score(kind, m, first) + Score(kind, n, false) == Score(kind, m + n, first)
  {
  }

  /** Connections from the parts in `s` lead to parts in `r`. */
  ghost predicate LeadsInto(s: set<AtomicPart>, r: set<AtomicPart>)
    reads s`to
  {
    forall p, i :: p in s && 0 <= i < |p.to| ==> p.to[i].destination in r
  }

  lemma LeadsOnwards(visited: set<AtomicPart>, part: AtomicPart, before: set<AtomicPart>, after: set<AtomicPart>)
    requires LeadsInto(before - visited - {part}, before) && LeadsInto(after - before, after) && before <= after
    ensures LeadsInto(after - visited - {part}, after)
  {
  }

  /**
   * Depth first: every part that is newly visited is visited once, and where its
   * connections lead has been visited too when the call returns.
   */
  method Traverse(kind: Traversal, part: AtomicPart?, visited: set<AtomicPart>, builder: AtomicPartBuilder,
                  ghost all: set<AtomicPart>) returns (result: nat, setOfVisitedPartIds: set<AtomicPart>)
    requires builder.Valid() && all <= builder.Live() && LeadsInto(all, all)
    requires visited <= all && (part != null ==> part in all)
    modifies builder`partBuildDateIndex, all`buildDate
    ensures builder.Valid() && visited <= setOfVisitedPartIds <= all
    ensures part == null ==> setOfVisitedPartIds == visited && result == 0
    ensures part != null ==> part in setOfVisitedPartIds
    ensures LeadsInto(setOfVisitedPartIds - visited, setOfVisitedPartIds)
    ensures part != null ==> result == Score(kind, |setOfVisitedPartIds - visited|, visited == {})
    ensures Dates(all) ==
      Redated(kind, old(Dates(all)), setOfVisitedPartIds - visited, FirstOf(part, visited))
    decreases |all - visited|, 0
  {
    hide AtomicPartBuilder.Valid, LeadsInto, Dates, Redated, Score, DateAfter;
    if part != null {
      VisitedById(builder, visited, part);
    }
    if part == null || exists q | q in visited :: q.id == part.id {
      NothingVisited(kind, visited, Dates(all), FirstOf(part, visited));
      return 0, visited;
    }
    ghost var dates := Dates(all);
    result := VisitPart(kind, part, visited, builder, all);
    FewerLeft(all, visited, part);
    result, setOfVisitedPartIds :=
      TraverseConnections(kind, part, visited, result, builder, all, visited == {}, FirstOf(part, visited), dates);
  }

  method VisitPart(kind: Traversal, part: AtomicPart, visited: set<AtomicPart>, builder: AtomicPartBuilder, ghost all: set<AtomicPart>)
    returns (result: nat)
    requires builder.Valid() && all <= builder.Live() && part in all
    modifies builder`partBuildDateIndex, part`buildDate
    ensures builder.Valid() && result == Score(kind, 1, visited == {})
    ensures Dates(all) == Redated(kind, old(Dates(all)), {part}, FirstOf(part, visited))
  {
    hide AtomicPartBuilder.Valid, DateAfter, Score;
    result := PerformOperationInAtomicPart(kind, part, visited, builder);
    assert forall p :: p in all && p != part ==> p.buildDate == old(p.buildDate);
  }

  /** A hash set finds a part by its id, and no two live parts have the same. */
  lemma VisitedById(builder: AtomicPartBuilder, visited: set<AtomicPart>, part: AtomicPart)
    requires builder.Valid() && visited <= builder.Live() && part in builder.Live()
    ensures (exists q :: q in visited && q.id == part.id) <==> part in visited
  {
  }

  /** The part that a walk visits first, if it has visited none yet. */
  ghost function FirstOf(part: AtomicPart?, visited: set<AtomicPart>): set<AtomicPart> {
    if visited == {} && part != null then {part} else {}
  }

  lemma FewerLeft(all: set<AtomicPart>, visited: set<AtomicPart>, part: AtomicPart)
    requires part in all && part !in visited
    ensures |all - visited - {part}| < |all - visited|
  {
    assert all - visited == (all - visited - {part}) + {part};
  }

  lemma NothingVisited(kind: Traversal, visited: set<AtomicPart>, dates: map<AtomicPart, int>, root: set<AtomicPart>)
    ensures LeadsInto(visited - visited, visited) && visited - visited == {}
    ensures Redated(kind, dates, visited - visited, root) == dates
    ensures Score(kind, |visited - visited|, false) == 0
  {
  }

  /** The loop over the connections of a part that has just been visited. */
  method TraverseConnections(kind: Traversal, part: AtomicPart, visited: set<AtomicPart>, soFar: nat, builder: AtomicPartBuilder,
                             ghost all: set<AtomicPart>, ghost first: bool, ghost root: set<AtomicPart>,
                             ghost dates: map<AtomicPart, int>)
    returns (result: nat, setOfVisitedPartIds: set<AtomicPart>)
    requires builder.Valid() && all <= builder.Live() && LeadsInto(all, all)
    requires visited <= all && part in all && part !in visited && root <= {part}
    requires soFar == Score(kind, 1, first) && Dates(all) == Redated(kind, dates, {part}, root)
    modifies builder`partBuildDateIndex, all`buildDate
    ensures builder.Valid() && visited + {part} <= setOfVisitedPartIds <= all
    ensures LeadsInto(setOfVisitedPartIds - visited, setOfVisitedPartIds)
    ensures result == Score(kind, |setOfVisitedPartIds - visited|, first)
    ensures Dates(all) == Redated(kind, dates, setOfVisitedPartIds - visited, root)
    decreases |all - visited - {part}|, 1
  {
    hide AtomicPartBuilder.Valid, LeadsInto, LedTo, DateAfter, Score, Dates, Redated, FirstOf;
    result, setOfVisitedPartIds := soFar, visited + {part};
    OneVisited(visited, part);
    var to := part.to;
    NothingLeads(setOfVisitedPartIds, to);
    assert visited + {part} - visited - {part} == {};
    assert all - (visited + {part}) == all - visited - {part};
    var k := 0;
    while k < |to|
      invariant k <= |to| && part.to == to
      invariant builder.Valid() && visited + {part} <= setOfVisitedPartIds <= all
      invariant LeadsInto(setOfVisitedPartIds - visited - {part}, setOfVisitedPartIds)
      invariant LedTo(to, k, setOfVisitedPartIds)
      invariant result == Score(kind, |setOfVisitedPartIds - visited|, first)
      invariant Dates(all) == Redated(kind, dates, setOfVisitedPartIds - visited, root)
    {
      ghost var before, middle := setOfVisitedPartIds, Dates(all);
      IsInside(all, part, k);
      FewerStill(all, visited + {part}, before);
      NotFirst(before, part, to[k].destination);
      var more;
      more, setOfVisitedPartIds := Traverse(kind, to[k].destination, setOfVisitedPartIds, builder, all);
      OneConnectionMore(kind, part, k, visited, before, setOfVisitedPartIds, first, root);
      RedatedTwice(kind, dates, before - visited, root, setOfVisitedPartIds - before);
      result := result + more;
      k := k + 1;
    }
    PartLeads(part, visited, setOfVisitedPartIds);
  }

  /** Only the walk that starts with nothing visited treats its first part differently. */
  lemma NotFirst(before: set<AtomicPart>, part: AtomicPart, next: AtomicPart)
    requires part in before
    ensures before != {} && FirstOf(next, before) == {}
  {
  }

  /** What another connection adds to the walk. */
  lemma OneConnectionMore(kind: Traversal, part: AtomicPart, k: nat, visited: set<AtomicPart>, before: set<AtomicPart>,
                          after: set<AtomicPart>, first: bool, root: set<AtomicPart>)
    requires visited + {part} <= before <= after && part !in visited && root <= {part}
    requires k < |part.to| && part.to[k].destination in after && LedTo(part.to, k, before)
    requires LeadsInto(before - visited - {part}, before) && LeadsInto(after - before, after)
    ensures LeadsInto(after - visited - {part}, after) && LedTo(part.to, k + 1, after)
    ensures Score(kind, |before - visited|, first) + Score(kind, |after - before|, false) ==
            Score(kind, |after - visited|, first)
    ensures (before - visited) !! (after - before) && root <= before - visited
    ensures (before - visited) + (after - before) == after - visited
  {
    hide LeadsInto, LedTo, Score;
    MoreVisited(visited, before, after);
    ScoreTwice(kind, |before - visited|, |after - before|, first);
    LeadsOnwards(visited, part, before, after);
    SplitNew(visited, before, after);
    LedToOneMore(part.to, k, before, after);
  }

  lemma NothingLeads(r: set<AtomicPart>, to: seq<Connection>)
    ensures LeadsInto({}, r) && LedTo(to, 0, r)
  {
  }

  lemma IsInside(all: set<AtomicPart>, part: AtomicPart, k: nat)
    requires LeadsInto(all, all) && part in all && k < |part.to|
    ensures part.to[k].destination in all
  {
  }

  lemma FewerStill(all: set<AtomicPart>, a: set<AtomicPart>, b: set<AtomicPart>)
    requires a <= b <= all
    ensures |all - b| <= |all - a|
  {
    assert all - a == (all - b) + (b - a);
  }

  lemma SplitNew(visited: set<AtomicPart>, before: set<AtomicPart>, after: set<AtomicPart>)
    requires visited <= before <= after
    ensures after - visited == (before - visited) + (after - before)
    ensures (before - visited) !! (after - before)
  {
  }

  /** The first `k` connections lead to parts in `r`. */
  ghost predicate LedTo(to: seq<Connection>, k: nat, r: set<AtomicPart>) {
    forall i :: 0 <= i < k && i < |to| ==> to[i].destination in r
  }

  lemma LedToOneMore(to: seq<Connection>, k: nat, before: set<AtomicPart>, after: set<AtomicPart>)
    requires LedTo(to, k, before) && before <= after && k < |to| && to[k].destination in after
    ensures LedTo(to, k + 1, after)
  {
  }

  lemma PartLeads(part: AtomicPart, visited: set<AtomicPart>, r: set<AtomicPart>)
    requires LeadsInto(r - visited - {part}, r) && LedTo(part.to, |part.to|, r)
    ensures LeadsInto(r - visited, r)
  {
  }

  lemma OneVisited(visited: set<AtomicPart>, part: AtomicPart)
    requires part !in visited
    ensures visited + {part} - visited == {part}
  {
  }

  lemma MoreVisited(visited: set<AtomicPart>, before: set<AtomicPart>, after: set<AtomicPart>)
    requires visited <= before <= after
    ensures |after - visited| == |before - visited| + |after - before|
  {
    assert after - visited == (before - visited) + (after - before);
  }

  // ---------- completeness: the ring makes the graph strongly connected ----------

  lemma RingStep(ring: seq<AtomicPart>, i: nat)
    requires Ring(ring) && 0 < i < |ring|
    ensures ring[i - 1].to != [] && ring[i - 1].to[0].destination == ring[i]
  {
    assert Next(i - 1, |ring|) == i;
  }

  /** What holds the first part of a ring, and where its connections lead, holds them all. */
  lemma {:induction false} RingIsReached(ring: seq<AtomicPart>, reached: set<AtomicPart>, i: nat)
    requires Ring(ring) && i < |ring| && ring[0] in reached
    requires forall p, j :: p in reached && 0 <= j < |p.to| ==> p.to[j].destination in reached
    ensures ring[i] in reached
  {
    hide Ring;
    if i > 0 {
      RingIsReached(ring, reached, i - 1);
      RingStep(ring, i);
    }
  }

  /** A composite part with its ring inside the live parts, the root being the first of the ring. */
  ghost predicate GraphOk(c: CompositePart, live: set<AtomicPart>, n: nat)
    reads c`parts, c`rootPart, c`ring, live`to
  {
    && c.parts == Elements(c.ring) && |c.ring| == n && n >= 1 && c.rootPart == c.ring[0]
    && AllDifferent(c.ring) && RingIn(c.ring, live)
  }

  /** Each part of the composite part is visited exactly once. */
  method TraverseComponent(kind: Traversal, component: CompositePart, builder: AtomicPartBuilder, ghost n: nat)
    returns (result: nat)
    requires builder.Valid() && GraphOk(component, builder.Live(), n)
    modifies builder`partBuildDateIndex, component.parts`buildDate
    ensures builder.Valid() && result == Score(kind, n, true)
    ensures Dates(component.parts) ==
      Redated(kind, old(Dates(component.parts)), component.parts, FirstOf(component.rootPart, {}))
  {
    hide AtomicPartBuilder.Valid, Dates, Redated, Score, GraphOk, LeadsInto, FirstOf;
    GraphStaysInside(component, builder.Live(), n);
    var rootPart := component.rootPart;
    var setOfVisitedPartIds: set<AtomicPart> := {};
    result, setOfVisitedPartIds := Traverse(kind, rootPart, setOfVisitedPartIds, builder, component.parts);
    MinusNothing(setOfVisitedPartIds);
    AllVisited(component, builder.Live(), n, setOfVisitedPartIds);
  }

  lemma MinusNothing<T>(s: set<T>)
    ensures s - {} == s
  {
  }

  lemma GraphStaysInside(c: CompositePart, live: set<AtomicPart>, n: nat)
    requires GraphOk(c, live, n)
    ensures LeadsInto(c.parts, c.parts) && c.parts <= live && c.rootPart in c.parts
  {
    forall p, i | p in c.parts && 0 <= i < |p.to|
      ensures p.to[i].destination in c.parts
    {
      var k :| 0 <= k < |c.ring| && c.ring[k] == p;
      assert Inside(c.ring[k].to, c.ring[k], c.ring) && p.to[i] in p.to;
    }
  }

  lemma AllVisited(c: CompositePart, live: set<AtomicPart>, n: nat, reached: set<AtomicPart>)
    requires GraphOk(c, live, n) && c.rootPart in reached && reached <= c.parts
    requires LeadsInto(reached, reached)
    ensures reached == c.parts && |reached| == n
  {
    forall p | p in c.parts
      ensures p in reached
    {
      var k :| 0 <= k < |c.ring| && c.ring[k] == p;
      RingIsReached(c.ring, reached, k);
    }
    RingSize(c.ring);
  }
}
