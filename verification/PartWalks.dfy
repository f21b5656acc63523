/** What T1 and T3 do, alone and in any run: for every use of a component they visit all parts reachable in it, once. */
module PartWalks {
  import opened LockTable
  import opened LockProtocol
  import opened Serializability
  import opened OperationBodies
  import opened MachineRuns
  import opened StoredDesign
  import opened PartWalkBodies

  // ---------- what is reachable ----------

  /** The part is in the set, or there is none. */
  ghost predicate Holds(s: set<int>, part: int) { part == 0 || part in s }

  /** Connections from the parts in `s` lead to parts in `r`. */
  ghost predicate LeadsInto(base: Store, s: set<int>, r: set<int>) {
    forall p, i :: p in s && 0 <= i < ConnectionsOf(base, p) ==> Holds(r, DestinationOf(base, p, i))
  }

  ghost predicate IsClosed(base: Store, s: set<int>) { LeadsInto(base, s, s) }

  /** Every closed set that holds the root part holds this part. */
  ghost predicate IsReachable(base: Store, root: int, p: int) {
    forall s: set<int> :: IsClosed(base, s) && Holds(s, root) ==> p in s
  }

  ghost function Reachable(base: Store, all: set<int>, root: int): set<int> {
    set p | p in all && IsReachable(base, root, p)
  }

  // ---------- what is visited ----------

  /** How often each part is visited, and how often as the first one. */
  datatype Tally = Tally(visits: multiset<int>, roots: multiset<int>)

  function Plus(a: Tally, b: Tally): Tally {
    Tally(a.visits + b.visits, a.roots + b.roots)
  }

  const NOTHING := Tally(multiset{}, multiset{})

  function FirstOf(part: int, visited: set<int>): multiset<int> {
    if part != 0 && visited == {} then multiset{part} else multiset{}
  }

  /** One use of a component: each part that is reachable in it once. */
  ghost function OneUse(base: Store, all: set<int>, c: int): Tally {
    Tally(multiset(Reachable(base, all, RootPartOf(base, c))), FirstOf(RootPartOf(base, c), {}))
  }

  /** The uses in the base assembly from number `j` on. */
  ghost function UsesFrom(base: Store, all: set<int>, a: int, j: nat): Tally
    decreases Components(base, a) - j
  {
    if j >= Components(base, a) then NOTHING
    else Plus(OneUse(base, all, ComponentAt(base, a, j)), UsesFrom(base, all, a, j + 1))
  }

  ghost function UsesIn(base: Store, all: set<int>, t: StoredTree): Tally {
    match t
    case Leaf(a) => UsesFrom(base, all, a, 0)
    case Node(_, kids) => UsesBelow(base, all, kids)
  }

  ghost function UsesBelow(base: Store, all: set<int>, kids: seq<StoredTree>): Tally {
    if kids == [] then NOTHING else Plus(UsesIn(base, all, kids[0]), UsesBelow(base, all, kids[1..]))
  }

  lemma PlusSplits(a: Tally, b: Tally, c: Tally)
    ensures Plus(Plus(a, b), c) == Plus(a, Plus(b, c)) && Plus(a, NOTHING) == a
  {
  }

  // ---------- what is returned and changed ----------

  /** T1 and T3b return one for each visit, T3a one for each root, and T3c four for each visit. */
  ghost function Scored(op: OperationId, y: Tally): nat {
    match op
    case T3a => |y.roots|
    case T3c => 4 * |y.visits|
    case _ => |y.visits|
  }

  /** How often the date of each part is updated. */
  ghost function UpdatesOf(op: OperationId, y: Tally): multiset<int> {
    match op
    case T1 => multiset{}
    case T3a => y.roots
    case T3c => y.visits + y.visits + y.visits + y.visits
    case _ => y.visits
  }

  function UpdatedTimes(date: int, n: nat): int {
    if n % 2 == 1 then Updated(date) else date
  }

  lemma UpdatedOnceMore(date: int, n: nat)
    ensures Updated(UpdatedTimes(date, n)) == UpdatedTimes(date, n + 1) != UpdatedTimes(date, n)
  {
  }

  /** The index has each part under its date, and nowhere else. */
  ghost predicate IndexAgrees(base: Store, all: set<int>) {
    forall p, d :: p in all ==> base[DateEntry(d, p)] == if d == base[DateOfPart(p)] then 1 else 0
  }

  /** The store when the date of each part has been updated so often, and the index has followed. */
  ghost function After(base: Store, all: set<int>, times: multiset<int>, x: Location): int {
    if x == DateOfPart(x.cell.owner) && x.cell.owner in all then UpdatedTimes(base[x], times[x.cell.owner])
    else if x == DateEntry(x.cell.owner, x.cell.index) && x.cell.index in all then
      if x.cell.owner == UpdatedTimes(base[DateOfPart(x.cell.index)], times[x.cell.index]) then 1 else 0
    else base[x]
  }

  ghost predicate Written(base: Store, all: set<int>, times: multiset<int>, writes: map<Location, int>) {
    forall x: Location :: Seen(base, writes, x) == After(base, all, times, x)
  }

  lemma StructureIsAsBefore(base: Store, all: set<int>, times: multiset<int>, writes: map<Location, int>, x: Location)
    requires Written(base, all, times, writes) && x.guard.GlobalStructure?
    ensures Seen(base, writes, x) == base[x]
  {
  }

  lemma NothingWritten(base: Store, all: set<int>)
    requires IndexAgrees(base, all)
    ensures Written(base, all, multiset{}, map[])
  {
  }

  // ---------- one update of a date ----------

  ghost function WithNewDate(writes: map<Location, int>, part: int, date: int): map<Location, int> {
    writes[DateEntry(date, part) := 0][DateOfPart(part) := Updated(date)][DateEntry(Updated(date), part) := 1]
  }

  lemma WrittenOnceMore(base: Store, all: set<int>, times: multiset<int>, writes: map<Location, int>, part: int)
    requires Written(base, all, times, writes) && part in all
    ensures var date := Seen(base, writes, DateOfPart(part));
      Written(base, all, times + multiset{part}, WithNewDate(writes, part, date))
  {
    hide Updated, UpdatedTimes;
    var date := Seen(base, writes, DateOfPart(part));
    assert date == After(base, all, times, DateOfPart(part));
    UpdatedOnceMore(base[DateOfPart(part)], times[part]);
    var times', writes' := times + multiset{part}, WithNewDate(writes, part, date);
    forall x: Location
      ensures Seen(base, writes', x) == After(base, all, times', x)
    {
      assert Seen(base, writes, x) == After(base, all, times, x);
    }
  }

  lemma NextInUpdate(op: OperationId, base: Store, writes: map<Location, int>, part: int, todo: nat, inner: Inner)
    ensures var m, date := Walking(op), Seen(base, writes, DateOfPart(part));
      var dropped := writes[DateEntry(date, part) := 0];
      var updated := dropped[DateOfPart(part) := Updated(date)];
      && Next(m, base, Config(AskDate(part, todo, inner), writes)) == Config(DropEntry(part, date, todo, inner), writes)
      && Next(m, base, Config(DropEntry(part, date, todo, inner), writes)) == Config(SetDate(part, date, todo, inner), dropped)
      && Next(m, base, Config(SetDate(part, date, todo, inner), dropped)) == Config(AddEntry(part, date, todo, inner), updated)
      && Next(m, base, Config(AddEntry(part, date, todo, inner), updated)) ==
         Config(UpdateMore(part, todo, inner), WithNewDate(writes, part, date))
  {
    hide Updated, UpdateMore, DateOfPart, DateEntry;
  }

  lemma UpdateOnce(op: OperationId, base: Store, writes: map<Location, int>, part: int, todo: nat, inner: Inner)
    ensures Reaches(Walking(op), base, Config(AskDate(part, todo, inner), writes),
                    Config(UpdateMore(part, todo, inner), WithNewDate(writes, part, Seen(base, writes, DateOfPart(part)))))
  {
    hide Reaches, Next, Walking, UpdateMore, WithNewDate, Updated;
    var m, date := Walking(op), Seen(base, writes, DateOfPart(part));
    var dropped := writes[DateEntry(date, part) := 0];
    var updated := dropped[DateOfPart(part) := Updated(date)];
    var last := Config(UpdateMore(part, todo, inner), WithNewDate(writes, part, date));
    NextInUpdate(op, base, writes, part, todo, inner);
    ReachesItself(m, base, last);
    ReachesNext(m, base, Config(AddEntry(part, date, todo, inner), updated), last, last);
    ReachesNext(m, base, Config(SetDate(part, date, todo, inner), dropped), Config(AddEntry(part, date, todo, inner), updated), last);
    ReachesNext(m, base, Config(DropEntry(part, date, todo, inner), writes), Config(SetDate(part, date, todo, inner), dropped), last);
    ReachesNext(m, base, Config(AskDate(part, todo, inner), writes), Config(DropEntry(part, date, todo, inner), writes), last);
  }

  lemma UpdateIs(part: int, todo: nat, inner: Inner)
    ensures UpdateMore(part, 0, inner) == AskConnections(part, inner)
    ensures todo > 0 ==> UpdateMore(part, todo, inner) == AskDate(part, todo - 1, inner)
    ensures todo > 0 ==> Copies(part, todo) == multiset{part} + Copies(part, todo - 1)
    ensures Copies(part, 0) == multiset{}
  {
  }

  function Copies(part: int, n: nat): multiset<int> { multiset{}[part := n] }

  /** All the updates of one visit. */
  lemma {:induction false} UpdateSome(op: OperationId, base: Store, all: set<int>, times: multiset<int>, writes: map<Location, int>,
                                      part: int, todo: nat, inner: Inner) returns (writes': map<Location, int>)
    requires Written(base, all, times, writes) && part in all
    ensures Written(base, all, times + Copies(part, todo), writes')
    ensures Reaches(Walking(op), base, Config(UpdateMore(part, todo, inner), writes), Config(AskConnections(part, inner), writes'))
    decreases todo
  {
    hide Reaches, Next, Walking, UpdateMore, WithNewDate, Written, Copies;
    var m, last := Walking(op), AskConnections(part, inner);
    UpdateIs(part, todo, inner);
    if todo == 0 {
      writes' := writes;
      assert times + multiset{} == times;
      ReachesItself(m, base, Config(last, writes));
    } else {
      var more := WithNewDate(writes, part, Seen(base, writes, DateOfPart(part)));
      WrittenOnceMore(base, all, times, writes, part);
      UpdateOnce(op, base, writes, part, todo - 1, inner);
      writes' := UpdateSome(op, base, all, times + multiset{part}, more, part, todo - 1, inner);
      assert times + multiset{part} + Copies(part, todo - 1) == times + Copies(part, todo);
      ReachesFurther(m, base, Config(UpdateMore(part, todo, inner), writes),
                     Config(UpdateMore(part, todo - 1, inner), more), Config(last, writes'));
    }
  }

  // ---------- the walk of one composite part ----------

  /** The atomic parts of a design: connections stay among them, and the index has them under their dates. */
  ghost predicate PartsFit(base: Store, all: set<int>) {
    0 !in all && IsClosed(base, all) && IndexAgrees(base, all)
  }

  /** The result so far and what is written go with what has been visited. */
  ghost predicate Tallied(op: OperationId, base: Store, all: set<int>, y: Tally, result: int, writes: map<Location, int>) {
    result == Scored(op, y) && Written(base, all, UpdatesOf(op, y), writes)
  }

  ghost function Newly(visited: set<int>, v: set<int>, roots: multiset<int>): Tally {
    Tally(multiset(v - visited), roots)
  }

  lemma VisitCounts(op: OperationId, y: Tally, part: int, visited: set<int>)
    requires IsPartWalk(op) && part != 0
    ensures var y1, first := Plus(y, Tally(multiset{part}, FirstOf(part, visited))), visited == {};
      && Scored(op, y1) == Scored(op, y) + VisitScore(op, first)
      && UpdatesOf(op, y1) == UpdatesOf(op, y) + Copies(part, VisitUpdates(op, first))
  {
  }

  lemma NewlySplits(y: Tally, part: int, visited: set<int>, v: set<int>, roots: multiset<int>)
    requires part !in visited && visited + {part} <= v
    ensures Plus(Plus(y, Tally(multiset{part}, roots)), Newly(visited + {part}, v, multiset{})) == Plus(y, Newly(visited, v, roots))
  {
    assert multiset(v - visited) == multiset{part} + multiset(v - (visited + {part}));
  }

  lemma NewlyTwice(y: Tally, visited: set<int>, v1: set<int>, v: set<int>)
    requires visited <= v1 <= v
    ensures Plus(Plus(y, Newly(visited, v1, multiset{})), Newly(v1, v, multiset{})) == Plus(y, Newly(visited, v, multiset{}))
  {
    assert multiset(v - visited) == multiset(v1 - visited) + multiset(v - v1);
  }

  lemma NothingNewly(y: Tally, visited: set<int>)
    ensures Plus(y, Newly(visited, visited, multiset{})) == y
  {
    assert visited - visited == {};
  }

  lemma NextInVisit(op: OperationId, base: Store, all: set<int>, times: multiset<int>, writes: map<Location, int>,
                    part: int, frame: Frame, inner: Inner)
    requires Written(base, all, times, writes)
    ensures var m := Walking(op);
      && Next(m, base, Config(AskConnections(part, inner), writes)) ==
         Config(Resume(inner.(frames := inner.frames + [Frame(part, ConnectionsOf(base, part), 0)])), writes)
      && Next(m, base, Config(NextConnection(frame, inner), writes)) ==
         Config(Meet(op, DestinationOf(base, frame.part, frame.i),
                     inner.(frames := inner.frames + [frame.(i := frame.i + 1)])), writes)
  {
    hide Written, Resume, Meet;
    StructureIsAsBefore(base, all, times, writes, InStructure(part, ConnectionCount, 0));
    StructureIsAsBefore(base, all, times, writes, InStructure(frame.part, Destination, frame.i));
  }

  lemma ResumeIs(frame: Frame, inner: Inner)
    ensures Resume(inner.(frames := inner.frames + [frame])) ==
            if frame.i < frame.count then NextConnection(frame, inner) else Resume(inner)
  {
    assert (inner.frames + [frame])[..|inner.frames|] == inner.frames;
    assert inner.(frames := (inner.frames + [frame])[..|inner.frames|]) == inner;
  }

  lemma MeetIs(op: OperationId, part: int, inner: Inner)
    ensures part == 0 || part in inner.visited ==> Meet(op, part, inner) == Resume(inner)
    ensures !(part == 0 || part in inner.visited) ==>
      var first := inner.visited == {};
      Meet(op, part, inner) ==
      UpdateMore(part, VisitUpdates(op, first),
                 inner.(visited := inner.visited + {part}, result := inner.result + VisitScore(op, first)))
    ensures part == 0 || part in inner.visited ==> FirstOf(part, inner.visited) == multiset{}
  {
    hide Resume;
  }

  /** Where the connections of a part from number `i` on lead is in `r`. */
  ghost predicate LeadsOn(base: Store, part: int, i: int, r: set<int>) {
    forall k :: i <= k < ConnectionsOf(base, part) ==> Holds(r, DestinationOf(base, part, k))
  }

  /** What was visited and whatever closed set it lies in: nothing outside it is visited. */
  ghost predicate StaysWithin(base: Store, visited: set<int>, part: int, v: set<int>) {
    forall s: set<int> :: IsClosed(base, s) && visited <= s && Holds(s, part) ==> v <= s
  }

  /** The call on a part: depth first, all that is newly visited, each once, and what it leads to. */
  lemma {:induction false} WalkPart(op: OperationId, base: Store, all: set<int>, part: int, inner: Inner, y: Tally,
                                    writes: map<Location, int>) returns (v: set<int>, writes': map<Location, int>)
    requires IsPartWalk(op) && PartsFit(base, all) && inner.visited <= all && Holds(all, part)
    requires Tallied(op, base, all, y, inner.result, writes)
    ensures inner.visited <= v <= all && Holds(v, part) && LeadsInto(base, v - inner.visited, v)
    ensures StaysWithin(base, inner.visited, part, v)
    ensures var y' := Plus(y, Newly(inner.visited, v, FirstOf(part, inner.visited)));
      && Tallied(op, base, all, y', Scored(op, y'), writes')
      && Reaches(Walking(op), base, Config(Meet(op, part, inner), writes),
                 Config(Resume(inner.(visited := v, result := Scored(op, y'))), writes'))
    decreases |all - inner.visited|, 0, 0
  {
    hide Reaches, Next, Walking, Meet, Resume, UpdateMore, Written, UpdatesOf, Scored, LeadsInto, PartsFit, StaysWithin, FirstOf,
         LeadsOn, Copies, Plus, Newly;
    var m, roots := Walking(op), FirstOf(part, inner.visited);
    MeetIs(op, part, inner);
    if part == 0 || part in inner.visited {
      v, writes' := inner.visited, writes;
      NothingNewly(y, v);
      NothingLeads(base, v, part);
      assert inner.(visited := v, result := inner.result) == inner;
      ReachesItself(m, base, Config(Resume(inner), writes));
    } else {
      var first := inner.visited == {};
      var inner1 := inner.(visited := inner.visited + {part}, result := inner.result + VisitScore(op, first));
      var y1, n := Plus(y, Tally(multiset{part}, roots)), ConnectionsOf(base, part);
      VisitCounts(op, y, part, inner.visited);
      var w1 := UpdateSome(op, base, all, UpdatesOf(op, y), writes, part, VisitUpdates(op, first), inner1);
      NextInVisit(op, base, all, UpdatesOf(op, y1), w1, part, Frame(part, n, 0), inner1);
      OneLeft(all, inner.visited, part);
      v, writes' := WalkConnections(op, base, all, part, 0, inner1, y1, w1);
      NewlySplits(y, part, inner.visited, v, roots);
      PartLeads(base, part, inner.visited, v);
      var last := Config(Resume(inner.(visited := v, result := Scored(op, Plus(y, Newly(inner.visited, v, roots))))), writes');
      ReachesNext(m, base, Config(AskConnections(part, inner1), w1),
                  Config(Resume(inner1.(frames := inner1.frames + [Frame(part, n, 0)])), w1), last);
      ReachesFurther(m, base, Config(Meet(op, part, inner), writes), Config(AskConnections(part, inner1), w1), last);
    }
  }

  lemma NothingLeads(base: Store, visited: set<int>, part: int)
    ensures LeadsInto(base, visited - visited, visited) && StaysWithin(base, visited, part, visited)
  {
  }

  lemma PartLeads(base: Store, part: int, visited: set<int>, v: set<int>)
    requires LeadsInto(base, v - (visited + {part}), v) && LeadsOn(base, part, 0, v) && part != 0
    requires StaysWithin(base, visited + {part}, part, v)
    ensures LeadsInto(base, v - visited, v) && StaysWithin(base, visited, part, v)
  {
  }

  /** The loop over the connections of a part that has been visited. */
  lemma {:induction false} WalkConnections(op: OperationId, base: Store, all: set<int>, part: int, i: nat, inner: Inner, y: Tally,
                                           writes: map<Location, int>) returns (v: set<int>, writes': map<Location, int>)
    requires IsPartWalk(op) && PartsFit(base, all) && inner.visited <= all && part in inner.visited
    requires Tallied(op, base, all, y, inner.result, writes)
    ensures inner.visited <= v <= all && LeadsInto(base, v - inner.visited, v) && LeadsOn(base, part, i, v)
    ensures StaysWithin(base, inner.visited, part, v)
    ensures var y' := Plus(y, Newly(inner.visited, v, multiset{}));
      && Tallied(op, base, all, y', Scored(op, y'), writes')
      && Reaches(Walking(op), base,
                 Config(Resume(inner.(frames := inner.frames + [Frame(part, ConnectionsOf(base, part), i)])), writes),
                 Config(Resume(inner.(visited := v, result := Scored(op, y'))), writes'))
    decreases |all - inner.visited|, 1, ConnectionsOf(base, part) - i
  {
    hide Reaches, Next, Walking, Meet, Resume, UpdateMore, Written, UpdatesOf, Scored, LeadsInto, PartsFit, StaysWithin, FirstOf,
         LeadsOn, Plus, Newly;
    var m, n := Walking(op), ConnectionsOf(base, part);
    ResumeIs(Frame(part, n, i), inner);
    if i >= n {
      v, writes' := inner.visited, writes;
      NothingNewly(y, v);
      NothingLeads(base, v, part);
      NothingLeft(base, part, i, v);
      assert inner.(visited := v, result := inner.result) == inner;
      ReachesItself(m, base, Config(Resume(inner), writes));
    } else {
      var next := DestinationOf(base, part, i);
      var inner1 := inner.(frames := inner.frames + [Frame(part, n, i + 1)]);
      NextInVisit(op, base, all, UpdatesOf(op, y), writes, part, Frame(part, n, i), inner);
      StaysAmong(base, all, part, i);
      var v1, w1 := WalkPart(op, base, all, next, inner1, y, writes);
      NotFirst(next, part, inner.visited);
      var y1 := Plus(y, Newly(inner.visited, v1, multiset{}));
      var inner2 := inner.(visited := v1, result := Scored(op, y1));
      FewerLeft(all, inner.visited, v1);
      v, writes' := WalkConnections(op, base, all, part, i + 1, inner2, y1, w1);
      NewlyTwice(y, inner.visited, v1, v);
      OneConnectionMore(base, part, i, inner.visited, v1, v);
      var last := Config(Resume(inner.(visited := v, result := Scored(op, Plus(y, Newly(inner.visited, v, multiset{}))))), writes');
      assert inner1.(visited := v1, result := Scored(op, y1)) == inner2.(frames := inner2.frames + [Frame(part, n, i + 1)]);
      ReachesFurther(m, base, Config(Meet(op, next, inner1), writes),
                     Config(Resume(inner1.(visited := v1, result := Scored(op, y1))), w1), last);
      ReachesNext(m, base, Config(NextConnection(Frame(part, n, i), inner), writes), Config(Meet(op, next, inner1), writes), last);
    }
  }

  lemma NothingLeft(base: Store, part: int, i: int, r: set<int>)
    requires i >= ConnectionsOf(base, part)
    ensures LeadsOn(base, part, i, r)
  {
  }

  lemma StaysAmong(base: Store, all: set<int>, part: int, i: int)
    requires PartsFit(base, all) && part in all && 0 <= i < ConnectionsOf(base, part)
    ensures Holds(all, DestinationOf(base, part, i))
  {
  }

  lemma NotFirst(next: int, part: int, visited: set<int>)
    requires part in visited
    ensures FirstOf(next, visited) == multiset{}
  {
  }

  lemma OneConnectionMore(base: Store, part: int, i: nat, visited: set<int>, v1: set<int>, v: set<int>)
    requires part in visited && visited <= v1 <= v && i < ConnectionsOf(base, part) && Holds(v1, DestinationOf(base, part, i))
    requires LeadsInto(base, v1 - visited, v1) && LeadsInto(base, v - v1, v) && LeadsOn(base, part, i + 1, v)
    requires StaysWithin(base, visited, DestinationOf(base, part, i), v1) && StaysWithin(base, v1, part, v)
    ensures LeadsInto(base, v - visited, v) && LeadsOn(base, part, i, v) && StaysWithin(base, visited, part, v)
  {
    forall s: set<int> | IsClosed(base, s) && visited <= s && Holds(s, part)
      ensures v <= s
    {
      assert part in s && Holds(s, DestinationOf(base, part, i));
    }
  }

  // ---------- one use of a component ----------

  lemma NextInUse(op: OperationId, base: Store, all: set<int>, times: multiset<int>, writes: map<Location, int>, c: int, use: Use,
                  result: int)
    requires Written(base, all, times, writes)
    ensures var m := Walking(op);
      && Next(m, base, Config(NextPart(use, result), writes)) ==
         Config(AskRootPart(ComponentAt(base, use.assembly, use.i), use, result), writes)
      && Next(m, base, Config(AskRootPart(c, use, result), writes)) ==
         Config(Meet(op, RootPartOf(base, c), Inner({}, [], use, result)), writes)
  {
    hide Written, Meet;
    StructureIsAsBefore(base, all, times, writes, InStructure(use.assembly, Component, use.i));
    StructureIsAsBefore(base, all, times, writes, InStructure(c, RootPart, 0));
  }

  lemma WalkIsOver(use: Use, v: set<int>, result: int)
    ensures Resume(Inner(v, [], use, result)) == NextUse(use.(i := use.i + 1), result)
  {
  }

  /** A walk that starts with nothing visited visits what is reachable, and no more. */
  lemma AllReachable(base: Store, all: set<int>, root: int, v: set<int>)
    requires v <= all && Holds(v, root) && LeadsInto(base, v - {}, v) && StaysWithin(base, {}, root, v)
    ensures v - {} == v == Reachable(base, all, root)
  {
    assert v - {} == v;
    forall p | p in v
      ensures IsReachable(base, root, p)
    {
    }
  }

  lemma WalkComponent(op: OperationId, base: Store, all: set<int>, use: Use, y: Tally, result: int, writes: map<Location, int>)
    returns (writes': map<Location, int>)
    requires IsPartWalk(op) && PartsFit(base, all)
    requires Holds(all, RootPartOf(base, ComponentAt(base, use.assembly, use.i)))
    requires Tallied(op, base, all, y, result, writes)
    ensures var y' := Plus(y, OneUse(base, all, ComponentAt(base, use.assembly, use.i)));
      && Tallied(op, base, all, y', Scored(op, y'), writes')
      && Reaches(Walking(op), base, Config(NextPart(use, result), writes),
                 Config(NextUse(use.(i := use.i + 1), Scored(op, y')), writes'))
  {
    hide Reaches, Next, Walking, Meet, Resume, NextUse, Written, UpdatesOf, Scored, LeadsInto, PartsFit, StaysWithin, FirstOf, Plus,
         Reachable;
    var m, c := Walking(op), ComponentAt(base, use.assembly, use.i);
    var root, inner := RootPartOf(base, c), Inner({}, [], use, result);
    NextInUse(op, base, all, UpdatesOf(op, y), writes, c, use, result);
    var v;
    v, writes' := WalkPart(op, base, all, root, inner, y, writes);
    AllReachable(base, all, root, v);
    var y' := Plus(y, OneUse(base, all, c));
    WalkIsOver(use, v, Scored(op, y'));
    var last := Config(NextUse(use.(i := use.i + 1), Scored(op, y')), writes');
    ReachesNext(m, base, Config(AskRootPart(c, use, result), writes), Config(Meet(op, root, inner), writes), last);
    ReachesNext(m, base, Config(NextPart(use, result), writes), Config(AskRootPart(c, use, result), writes), last);
  }

  // ---------- the tree ----------

  /** The components of the base assemblies have their root parts among the atomic parts. */
  ghost predicate ComponentsFit(base: Store, all: set<int>, t: StoredTree) {
    match t
    case Leaf(a) => forall j :: 0 <= j < Components(base, a) ==> Holds(all, RootPartOf(base, ComponentAt(base, a, j)))
    case Node(_, kids) => forall i :: 0 <= i < |kids| ==> ComponentsFit(base, all, kids[i])
  }

  lemma UseIs(use: Use, result: int)
    ensures NextUse(use, result) == if use.i < use.count then NextPart(use, result) else Return(use.above, result)
  {
  }

  /** The loop over the components of a base assembly, with their repetitions. */
  lemma {:induction false} WalkUses(op: OperationId, base: Store, all: set<int>, a: int, j: nat, above: seq<Branch>, y: Tally,
                                    result: int, writes: map<Location, int>) returns (writes': map<Location, int>)
    requires IsPartWalk(op) && PartsFit(base, all) && ComponentsFit(base, all, Leaf(a))
    requires Tallied(op, base, all, y, result, writes)
    ensures var y' := Plus(y, UsesFrom(base, all, a, j));
      && Tallied(op, base, all, y', Scored(op, y'), writes')
      && Reaches(Walking(op), base, Config(NextUse(Use(a, Components(base, a), j, above), result), writes),
                 Config(Return(above, Scored(op, y')), writes'))
    decreases Components(base, a) - j
  {
    hide Reaches, Next, Walking, NextUse, Return, Written, UpdatesOf, Scored, PartsFit, Plus, OneUse;
    var m, n := Walking(op), Components(base, a);
    var use := Use(a, n, j, above);
    UseIs(use, result);
    if j >= n {
      writes' := writes;
      PlusSplits(y, NOTHING, NOTHING);
      ReachesItself(m, base, Config(Return(above, result), writes));
    } else {
      var one, rest := OneUse(base, all, ComponentAt(base, a, j)), UsesFrom(base, all, a, j + 1);
      var w1 := WalkComponent(op, base, all, use, y, result, writes);
      writes' := WalkUses(op, base, all, a, j + 1, above, Plus(y, one), Scored(op, Plus(y, one)), w1);
      PlusSplits(y, one, rest);
      ReachesFurther(m, base, Config(NextUse(use, result), writes),
                     Config(NextUse(Use(a, n, j + 1, above), Scored(op, Plus(y, one))), w1),
                     Config(Return(above, Scored(op, Plus(y, UsesFrom(base, all, a, j)))), writes'));
    }
  }

  lemma NextInTree(op: OperationId, base: Store, all: set<int>, times: multiset<int>, writes: map<Location, int>, a: int,
                   call: Branch, above: seq<Branch>, result: int)
    requires Written(base, all, times, writes)
    ensures var m := Walking(op);
      && Next(m, base, Config(AskTop, writes)) == Config(AskKids(base[InStructure(0, DesignRoot, 0)], [], 0), writes)
      && Next(m, base, Config(AskKids(a, above, result), writes)) ==
         Config(GoOn(Branch(a, Children(base, a), 0), above, result), writes)
      && Next(m, base, Config(NextKid(call, above, result), writes)) ==
         Config(KidKind(Child(base, call.assembly, call.i), above + [call], result), writes)
      && Next(m, base, Config(KidKind(a, above, result), writes)) ==
         Config(if BaseKind(base, a) then AskUses(a, above, result) else AskKids(a, above, result), writes)
      && Next(m, base, Config(AskUses(a, above, result), writes)) ==
         Config(NextUse(Use(a, Components(base, a), 0, above), result), writes)
  {
    hide Written, GoOn, NextUse;
    StructureIsAsBefore(base, all, times, writes, InStructure(0, DesignRoot, 0));
    StructureIsAsBefore(base, all, times, writes, InStructure(a, SubAssemblyCount, 0));
    StructureIsAsBefore(base, all, times, writes, InStructure(call.assembly, SubAssembly, call.i));
    StructureIsAsBefore(base, all, times, writes, InStructure(a, IsBase, 0));
    StructureIsAsBefore(base, all, times, writes, InStructure(a, ComponentCount, 0));
  }

  lemma CallIs(call: Branch, above: seq<Branch>, result: int)
    ensures GoOn(call, above, result) == if call.i < call.count then NextKid(call, above, result) else Return(above, result)
    ensures Return(above + [call], result) == GoOn(call.(i := call.i + 1), above, result)
  {
    assert (above + [call])[..|above|] == above;
  }

  lemma KidIs(levels: nat, base: Store, all: set<int>, t: StoredTree, i: nat)
    requires t.Node? && Stored(levels, base, t) && ComponentsFit(base, all, t) && i < |t.kids|
    ensures Child(base, t.assembly, i) == t.kids[i].assembly && Stored(levels, base, t.kids[i])
    ensures ComponentsFit(base, all, t.kids[i])
    ensures UsesBelow(base, all, t.kids[i..]) == Plus(UsesIn(base, all, t.kids[i]), UsesBelow(base, all, t.kids[i + 1..]))
  {
    assert t.kids[i..][1..] == t.kids[i + 1..];
  }

  /** A call on an assembly adds the uses in its tree. */
  lemma {:induction false} WalkTree(op: OperationId, levels: nat, base: Store, all: set<int>, t: StoredTree, above: seq<Branch>,
                                    y: Tally, result: int, writes: map<Location, int>) returns (writes': map<Location, int>)
    requires IsPartWalk(op) && PartsFit(base, all) && Stored(levels, base, t) && ComponentsFit(base, all, t)
    requires Tallied(op, base, all, y, result, writes)
    ensures var y' := Plus(y, UsesIn(base, all, t));
      && Tallied(op, base, all, y', Scored(op, y'), writes')
      && Reaches(Walking(op), base, Config(KidKind(t.assembly, above, result), writes),
                 Config(Return(above, Scored(op, y')), writes'))
    decreases t, 1, 0
  {
    hide Reaches, Next, Walking, NextUse, Return, GoOn, Written, UpdatesOf, Scored, PartsFit, Plus, ComponentsFit, UsesFrom;
    var m, a, last := Walking(op), t.assembly, Config(Return(above, Scored(op, Plus(y, UsesIn(base, all, t)))), map[]);
    NextInTree(op, base, all, UpdatesOf(op, y), writes, a, Branch(a, 0, 0), above, result);
    if t.Leaf? {
      writes' := WalkUses(op, base, all, a, 0, above, y, result, writes);
      last := last.(writes := writes');
      ReachesNext(m, base, Config(AskUses(a, above, result), writes),
                  Config(NextUse(Use(a, Components(base, a), 0, above), result), writes), last);
      ReachesNext(m, base, Config(KidKind(a, above, result), writes), Config(AskUses(a, above, result), writes), last);
    } else {
      writes' := WalkComplex(op, levels, base, all, t, above, y, result, writes);
      last := last.(writes := writes');
      ReachesNext(m, base, Config(KidKind(a, above, result), writes), Config(AskKids(a, above, result), writes), last);
    }
  }

  lemma WalkComplex(op: OperationId, levels: nat, base: Store, all: set<int>, t: StoredTree, above: seq<Branch>,
                    y: Tally, result: int, writes: map<Location, int>) returns (writes': map<Location, int>)
    requires IsPartWalk(op) && PartsFit(base, all) && t.Node? && Stored(levels, base, t) && ComponentsFit(base, all, t)
    requires Tallied(op, base, all, y, result, writes)
    ensures var y' := Plus(y, UsesIn(base, all, t));
      && Tallied(op, base, all, y', Scored(op, y'), writes')
      && Reaches(Walking(op), base, Config(AskKids(t.assembly, above, result), writes),
                 Config(Return(above, Scored(op, y')), writes'))
    decreases t, 0, |t.kids| + 1
  {
    hide Reaches, Next, Walking, Return, GoOn, Written, UpdatesOf, Scored, PartsFit, Plus, ComponentsFit;
    var m, a, call := Walking(op), t.assembly, Branch(t.assembly, |t.kids|, 0);
    NextInTree(op, base, all, UpdatesOf(op, y), writes, a, call, above, result);
    writes' := WalkKids(op, levels, base, all, t, 0, above, y, result, writes);
    assert t.kids[0..] == t.kids;
    ReachesNext(m, base, Config(AskKids(a, above, result), writes), Config(GoOn(call, above, result), writes),
                Config(Return(above, Scored(op, Plus(y, UsesIn(base, all, t)))), writes'));
  }

  /** The loop over the children. */
  lemma {:induction false} WalkKids(op: OperationId, levels: nat, base: Store, all: set<int>, t: StoredTree, i: nat,
                                    above: seq<Branch>, y: Tally, result: int, writes: map<Location, int>)
    returns (writes': map<Location, int>)
    requires IsPartWalk(op) && PartsFit(base, all) && t.Node? && Stored(levels, base, t) && ComponentsFit(base, all, t)
    requires i <= |t.kids| && Tallied(op, base, all, y, result, writes)
    ensures var y' := Plus(y, UsesBelow(base, all, t.kids[i..]));
      && Tallied(op, base, all, y', Scored(op, y'), writes')
      && Reaches(Walking(op), base, Config(GoOn(Branch(t.assembly, |t.kids|, i), above, result), writes),
                 Config(Return(above, Scored(op, y')), writes'))
    decreases t, 0, |t.kids| - i
  {
    hide Reaches, Next, Walking, Return, GoOn, Written, UpdatesOf, Scored, PartsFit, Plus, ComponentsFit, Stored, UsesIn;
    var m, n, a := Walking(op), |t.kids|, t.assembly;
    var call := Branch(a, n, i);
    CallIs(call, above, result);
    if i == n {
      writes' := writes;
      PlusSplits(y, NOTHING, NOTHING);
      ReachesItself(m, base, Config(Return(above, result), writes));
    } else {
      var kid := t.kids[i];
      var here, rest := UsesIn(base, all, kid), UsesBelow(base, all, t.kids[i + 1..]);
      var y1 := Plus(y, here);
      KidIs(levels, base, all, t, i);
      NextInTree(op, base, all, UpdatesOf(op, y), writes, a, call, above, result);
      var w1 := WalkTree(op, levels, base, all, kid, above + [call], y, result, writes);
      CallIs(call, above, Scored(op, y1));
      writes' := WalkKids(op, levels, base, all, t, i + 1, above, y1, Scored(op, y1), w1);
      PlusSplits(y, here, rest);
      var last := Config(Return(above, Scored(op, Plus(y, UsesBelow(base, all, t.kids[i..])))), writes');
      ReachesFurther(m, base, Config(KidKind(kid.assembly, above + [call], result), writes),
                     Config(Return(above + [call], Scored(op, y1)), w1), last);
      ReachesNext(m, base, Config(NextKid(call, above, result), writes),
                  Config(KidKind(kid.assembly, above + [call], result), writes), last);
    }
  }

  // ---------- the operation ----------

  /** The store holds a design with this tree and these atomic parts. */
  ghost predicate Fits(levels: nat, base: Store, all: set<int>, t: StoredTree) {
    && PartsFit(base, all) && t.Node? && Stored(levels, base, t) && t.assembly == base[InStructure(0, DesignRoot, 0)]
    && ComponentsFit(base, all, t)
  }

  /** Alone, T1 and T3 return and change what goes with one visit, for every use of a component in the tree, of each
      part that is reachable in it; the build-date index follows. */
  lemma WalkAlone(op: OperationId, levels: nat, base: Store, all: set<int>, t: StoredTree) returns (writes: map<Location, int>)
    requires IsPartWalk(op) && Fits(levels, base, all, t)
    ensures Written(base, all, UpdatesOf(op, UsesIn(base, all, t)), writes)
    ensures Reaches(Walking(op), base, Config(AskTop, map[]), Config(Total(Scored(op, UsesIn(base, all, t))), writes))
  {
    hide Reaches, Next, Walking, GoOn, Written, PartsFit, Stored, ComponentsFit, UsesIn;
    var m, a, y := Walking(op), t.assembly, UsesIn(base, all, t);
    NothingYet(op, base, all);
    NextInTree(op, base, all, multiset{}, map[], a, Branch(a, 0, 0), [], 0);
    writes := WalkComplex(op, levels, base, all, t, [], NOTHING, 0, map[]);
    assert Plus(NOTHING, y) == y;
    ReachesNext(m, base, Config(AskTop, map[]), Config(AskKids(a, [], 0), map[]), Config(Total(Scored(op, y)), writes));
  }

  lemma NothingYet(op: OperationId, base: Store, all: set<int>)
    requires IsPartWalk(op) && PartsFit(base, all)
    ensures Scored(op, NOTHING) == 0 && UpdatesOf(op, NOTHING) == multiset{} && Written(base, all, multiset{}, map[])
  {
    NothingWritten(base, all);
  }

  lemma WalkReplayed(s: State, run: seq<Move>, s': State, i: nat, op: OperationId, levels: nat, all: set<int>, t: StoredTree)
    requires Initial(s) && Leads(s, run, s') && IsPartWalk(op)
    requires i < |s'.log| && s'.log[i].job.prog == ProgramOf(Walking(op))
    requires Fits(levels, Replay(s'.log[..i], s.store), all, t)
    ensures var before, after := Replay(s'.log[..i], s.store), Replay(s'.log[..i + 1], s.store);
      var y := UsesIn(before, all, t);
      && s'.log[i].outcome == Returned(Scored(op, y))
      && forall x: Location :: after[x] == After(before, all, UpdatesOf(op, y), x)
  {
    hide Initial, Leads, Replay, Reaches, ProgramOf, Fits, After, UsesIn, Scored, UpdatesOf, Written, Overlay, Walking;
    var before := Replay(s'.log[..i], s.store);
    var y := UsesIn(before, all, t);
    var writes := WalkAlone(op, levels, before, all, t);
    EndOfWalk(op, Scored(op, y));
    MachineInAnyRun(s, run, s', i, Walking(op), Config(Total(Scored(op, y)), writes));
    WrittenOver(before, all, UpdatesOf(op, y), writes);
  }

  /** Result and dates, operation by operation: T1 and T3c leave no trace, T3b updates the date of each part that it
      visits as often as it visits it, and T3a only where the part is visited first. */
  ghost predicate DoneBy(op: OperationId, base: Store, all: set<int>, y: Tally, outcome: Outcome, after: Store) {
    match op
    case T1 => outcome == Returned(|y.visits|) && forall x: Location :: after[x] == base[x]
    case T3a => outcome == Returned(|y.roots|) && forall x: Location :: after[x] == After(base, all, y.roots, x)
    case T3b => outcome == Returned(|y.visits|) && forall x: Location :: after[x] == After(base, all, y.visits, x)
    case T3c => outcome == Returned(4 * |y.visits|) && forall x: Location :: after[x] == base[x]
    case _ => false
  }

  lemma IsDone(op: OperationId, base: Store, all: set<int>, y: Tally, after: Store)
    requires IsPartWalk(op) && IndexAgrees(base, all)
    requires forall x: Location :: after[x] == After(base, all, UpdatesOf(op, y), x)
    ensures DoneBy(op, base, all, y, Returned(Scored(op, y)), after)
  {
    hide After, IndexAgrees;
    IndexStillAgrees(op, base, all, y, after);
  }

  /** In any run of any number of threads, too, T1 and T3 report and change just that, on the store that the operations
      with earlier timestamps leave behind. */
  lemma WalkInAnyRun(s: State, run: seq<Move>, s': State, i: nat, op: OperationId, levels: nat, all: set<int>, t: StoredTree)
    requires Initial(s) && Leads(s, run, s') && IsPartWalk(op)
    requires i < |s'.log| && s'.log[i].job.prog == ProgramOf(Walking(op))
    requires Fits(levels, Replay(s'.log[..i], s.store), all, t)
    ensures var before, after := Replay(s'.log[..i], s.store), Replay(s'.log[..i + 1], s.store);
      DoneBy(op, before, all, UsesIn(before, all, t), s'.log[i].outcome, after)
  {
    hide Initial, Leads, Replay, Reaches, ProgramOf, After, UsesIn, Scored, UpdatesOf, Walking, DoneBy, Stored, ComponentsFit;
    hide IndexAgrees;
    WalkReplayed(s, run, s', i, op, levels, all, t);
    var before := Replay(s'.log[..i], s.store);
    IsDone(op, before, all, UsesIn(before, all, t), Replay(s'.log[..i + 1], s.store));
  }

  lemma EndOfWalk(op: OperationId, result: int)
    ensures Walking(op).init == AskTop && Walking(op).act(Total(result)) == Finish(Returned(result))
  {
  }

  lemma WrittenOver(base: Store, all: set<int>, times: multiset<int>, writes: map<Location, int>)
    requires Written(base, all, times, writes)
    ensures forall x: Location :: Overlay(base, writes)[x] == After(base, all, times, x)
  {
    hide After;
    forall x: Location
      ensures Overlay(base, writes)[x] == After(base, all, times, x)
    {
      assert Seen(base, writes, x) == After(base, all, times, x);
    }
  }

  /** The traversals leave the index in agreement, and T1 and T3c leave the whole store as it was. */
  lemma IndexStillAgrees(op: OperationId, base: Store, all: set<int>, y: Tally, after: Store)
    requires IsPartWalk(op) && IndexAgrees(base, all)
    requires forall x: Location :: after[x] == After(base, all, UpdatesOf(op, y), x)
    ensures IndexAgrees(after, all)
    ensures op.T1? || op.T3c? ==> forall x: Location :: after[x] == base[x]
  {
    hide Updated, UpdatesOf, After, UpdatedTimes;
    var times := UpdatesOf(op, y);
    forall p, d | p in all
      ensures after[DateEntry(d, p)] == if d == after[DateOfPart(p)] then 1 else 0
    {
      EntryAfter(base, all, times, p, d);
    }
    if op.T1? || op.T3c? {
      UpdatedEvenly(op, y);
      forall x: Location
        ensures after[x] == base[x]
      {
        SameAfter(base, all, times, x);
      }
    }
  }

  lemma EntryAfter(base: Store, all: set<int>, times: multiset<int>, p: int, d: int)
    requires p in all
    ensures After(base, all, times, DateEntry(d, p)) == if d == After(base, all, times, DateOfPart(p)) then 1 else 0
  {
  }

  lemma UpdatedEvenly(op: OperationId, y: Tally)
    requires op.T1? || op.T3c?
    ensures forall p :: UpdatesOf(op, y)[p] % 2 == 0
  {
  }

  lemma SameAfter(base: Store, all: set<int>, times: multiset<int>, x: Location)
    requires IndexAgrees(base, all) && forall p :: times[p] % 2 == 0
    ensures After(base, all, times, x) == base[x]
  {
    hide Updated;
    if x == DateEntry(x.cell.owner, x.cell.index) && x.cell.index in all {
      assert base[x] == if x.cell.owner == base[DateOfPart(x.cell.index)] then 1 else 0;
    }
  }
}
