/** The traversals T1, T3a, T3b and T3c of the whole design, as programs of the lock protocol. */
module PartWalkBodies {
  import opened LockTable
  import opened LockProtocol
  import opened OperationBodies

  predicate IsPartWalk(op: OperationId) {
    op.T1? || op.T3a? || op.T3b? || op.T3c?
  }

  /** What the visit of an atomic part adds to the result; `first` says that none was visited before. */
  function VisitScore(op: OperationId, first: bool): nat {
    match op
    case T3a => if first then 1 else 0
    case T3c => 4
    case _ => 1
  }

  /** How often the visit of an atomic part updates its date. */
  function VisitUpdates(op: OperationId, first: bool): nat {
    if op.T1? then 0 else VisitScore(op, first)
  }

  // ---------- the states ----------

  /** A complex assembly that is under way: its children from number `i` on are left. */
  datatype Branch = Branch(assembly: int, count: int, i: int)

  /** A base assembly that is under way, and the complex assemblies above it. */
  datatype Use = Use(assembly: int, count: int, i: int, above: seq<Branch>)

  /** An atomic part that is under way: its connections from number `i` on are left. */
  datatype Frame = Frame(part: int, count: int, i: int)

  /** The walk of one composite part; the sums of all calls under way are kept as one. */
  datatype Inner = Inner(visited: set<int>, frames: seq<Frame>, use: Use, result: int)

  datatype Walk =
    | AskTop
    | AskKids(assembly: int, above: seq<Branch>, result: int)
    | NextKid(call: Branch, above: seq<Branch>, result: int)
    | KidKind(assembly: int, above: seq<Branch>, result: int)
    | AskUses(assembly: int, above: seq<Branch>, result: int)
    | NextPart(use: Use, result: int)
    | AskRootPart(component: int, use: Use, result: int)
    | AskDate(part: int, todo: nat, inner: Inner)
    | DropEntry(part: int, date: int, todo: nat, inner: Inner)
    | SetDate(part: int, date: int, todo: nat, inner: Inner)
    | AddEntry(part: int, date: int, todo: nat, inner: Inner)
    | AskConnections(part: int, inner: Inner)
    | NextConnection(frame: Frame, inner: Inner)
    | Total(result: int)

  predicate Updates(st: Walk) {
    st.AskDate? || st.DropEntry? || st.SetDate? || st.AddEntry?
  }

  // ---------- calls that return ----------

  function Return(above: seq<Branch>, result: int): (st: Walk)
    ensures !Updates(st)
    decreases |above|, 0
  {
    if above == [] then Total(result)
    else
      var call := above[|above| - 1];
      GoOn(call.(i := call.i + 1), above[..|above| - 1], result)
  }

  function GoOn(call: Branch, above: seq<Branch>, result: int): (st: Walk)
    ensures !Updates(st)
    decreases |above|, 1
  {
    if call.i < call.count then NextKid(call, above, result) else Return(above, result)
  }

  function NextUse(use: Use, result: int): (st: Walk)
    ensures !Updates(st)
  {
    if use.i < use.count then NextPart(use, result) else Return(use.above, result)
  }

  /** The call on an atomic part is over: the loop over connections that made it goes on. */
  function Resume(inner: Inner): (st: Walk)
    ensures !Updates(st)
    decreases |inner.frames|
  {
    if inner.frames == [] then NextUse(inner.use.(i := inner.use.i + 1), inner.result)
    else
      var frame, below := inner.frames[|inner.frames| - 1], inner.(frames := inner.frames[..|inner.frames| - 1]);
      if frame.i < frame.count then NextConnection(frame, below) else Resume(below)
  }

  // ---------- the visit of an atomic part ----------

  function UpdateMore(part: int, todo: nat, inner: Inner): Walk {
    if todo > 0 then AskDate(part, todo - 1, inner) else AskConnections(part, inner)
  }

  /** The call on an atomic part: none, or one that was visited, ends it. */
  function Meet(op: OperationId, part: int, inner: Inner): Walk {
    if part == 0 || part in inner.visited then Resume(inner)
    else
      var first := inner.visited == {};
      var visited := inner.(visited := inner.visited + {part}, result := inner.result + VisitScore(op, first));
      UpdateMore(part, VisitUpdates(op, first), visited)
  }

  function DateOfPart(part: int): Location {
    Location(AtomicPart, Cell(part, BuildDate, 0))
  }

  /** Whether the set that the build-date index has for this date holds the part. */
  function DateEntry(date: int, part: int): Location {
    Location(AtomicPart, Cell(date, InDateSet, part))
  }

  function WalkAction(st: Walk): Action {
    match st
    case AskTop => Get(InStructure(0, DesignRoot, 0))
    case AskKids(a, _, _) => Get(InStructure(a, SubAssemblyCount, 0))
    case NextKid(call, _, _) => Get(InStructure(call.assembly, SubAssembly, call.i))
    case KidKind(a, _, _) => Get(InStructure(a, IsBase, 0))
    case AskUses(a, _, _) => Get(InStructure(a, ComponentCount, 0))
    case NextPart(use, _) => Get(InStructure(use.assembly, Component, use.i))
    case AskRootPart(c, _, _) => Get(InStructure(c, RootPart, 0))
    case AskDate(p, _, _) => Get(DateOfPart(p))
    case DropEntry(p, date, _, _) => Put(DateEntry(date, p), 0)
    case SetDate(p, date, _, _) => Put(DateOfPart(p), Updated(date))
    case AddEntry(p, date, _, _) => Put(DateEntry(Updated(date), p), 1)
    case AskConnections(p, _) => Get(InStructure(p, ConnectionCount, 0))
    case NextConnection(frame, _) => Get(InStructure(frame.part, Destination, frame.i))
    case Total(result) => Finish(Returned(result))
  }

  function WalkStep(op: OperationId, st: Walk, result: int): Walk {
    match st
    case AskTop => AskKids(result, [], 0)
    case AskKids(a, above, sum) => GoOn(Branch(a, result, 0), above, sum)
    case NextKid(call, above, sum) => KidKind(result, above + [call], sum)
    case KidKind(a, above, sum) => if result == 0 then AskKids(a, above, sum) else AskUses(a, above, sum)
    case AskUses(a, above, sum) => NextUse(Use(a, result, 0, above), sum)
    case NextPart(use, sum) => AskRootPart(result, use, sum)
    case AskRootPart(_, use, sum) => Meet(op, result, Inner({}, [], use, sum))
    case AskDate(p, todo, inner) => DropEntry(p, result, todo, inner)
    case DropEntry(p, date, todo, inner) => SetDate(p, date, todo, inner)
    case SetDate(p, date, todo, inner) => AddEntry(p, date, todo, inner)
    case AddEntry(p, _, todo, inner) => UpdateMore(p, todo, inner)
    case AskConnections(p, inner) => Resume(inner.(frames := inner.frames + [Frame(p, result, 0)]))
    case NextConnection(frame, inner) =>
      Meet(op, result, inner.(frames := inner.frames + [frame.(i := frame.i + 1)]))
    case Total(_) => st
  }

  /** T1 visits the atomic parts of all components in use, T3a to T3c also update the dates of some or all of them. */
  function Walking(op: OperationId): Machine<Walk> {
    Machine(AskTop, WalkAction, (st: Walk, result: int) => WalkStep(op, st, result))
  }

  /** T1 and T3 keep the locking discipline, whatever they read. */
  lemma WalksConform(op: OperationId, levels: nat)
    requires IsPartWalk(op)
    ensures Conforms(Job(op, ProgramOf(Walking(op))), levels)
  {
    hide Return, GoOn, NextUse, Resume;
    var m := Walking(op);
    var safe := (st: Walk, locked: set<Request>) => Updates(st) ==> !op.T1?;
    forall st: Walk, locked: set<Request>, result: int
      ensures StepsSafely(m, op, levels, safe, st, locked, result)
    {
    }
    SafeConforms(m, op, levels, safe);
  }
}
