/** The operations that lock complex assembly levels in their bodies, as programs of the lock protocol. */
module OperationBodies {
  import opened LockTable
  import opened LockProtocol
  import DesignObjects

  // ---------- bodies as state machines ----------

  /** A body by its control states: what it does in a state, and the state after the action's result. */
  datatype Machine<!S> = Machine(init: S, act: S -> Action, step: (S, int) -> S)

  function StateAfter<S>(m: Machine<S>, hist: seq<int>): S {
    if hist == [] then m.init else m.step(StateAfter(m, hist[..|hist| - 1]), hist[|hist| - 1])
  }

  function ProgramOf<S>(m: Machine<S>): Program {
    (hist: seq<int>) => m.act(StateAfter(m, hist))
  }

  /** From a safe state, the next action is allowed and leads to a safe state, whatever its result. */
  ghost predicate StepsSafely<S>(m: Machine<S>, op: OperationId, levels: nat, safe: (S, set<Request>) -> bool,
                                 st: S, locked: set<Request>, result: int) {
    safe(st, locked) ==>
      && MayAct(Job(op, ProgramOf(m)), levels, m.act(st), locked)
      && safe(m.step(st, result), locked + LevelRequests(m.act(st)))
  }

  /** `safe` says in which states, and with which levels asked for, a body stays within its discipline. */
  ghost predicate KeepsSafe<S(!new)>(m: Machine<S>, op: OperationId, levels: nat, safe: (S, set<Request>) -> bool) {
    && safe(m.init, {})
    && forall st: S, locked: set<Request>, result: int :: StepsSafely(m, op, levels, safe, st, locked, result)
  }

  lemma {:induction false} SafeAfter<S(!new)>(
      m: Machine<S>, op: OperationId, levels: nat, safe: (S, set<Request>) -> bool, hist: seq<int>)
    requires KeepsSafe(m, op, levels, safe)
    ensures safe(StateAfter(m, hist), Locked(ProgramOf(m), hist))
  {
    if hist != [] {
      var before := hist[..|hist| - 1];
      var st, locked := StateAfter(m, before), Locked(ProgramOf(m), before);
      SafeAfter(m, op, levels, safe, before);
      assert StepsSafely(m, op, levels, safe, st, locked, hist[|hist| - 1]);
    } else {
      assert safe(m.init, {});
    }
  }

  lemma SafeConforms<S(!new)>(m: Machine<S>, op: OperationId, levels: nat, safe: (S, set<Request>) -> bool)
    requires KeepsSafe(m, op, levels, safe)
    ensures Conforms(Job(op, ProgramOf(m)), levels)
  {
    forall hist: seq<int>
      ensures MayAct(Job(op, ProgramOf(m)), levels, ProgramOf(m)(hist), Locked(ProgramOf(m), hist))
    {
      SafeAfter(m, op, levels, safe, hist);
      assert StepsSafely(m, op, levels, safe, StateAfter(m, hist), Locked(ProgramOf(m), hist), 0);
    }
  }

  function InStructure(owner: int, field: Field, index: int): Location {
    Location(GlobalStructure, Cell(owner, field, index))
  }

  function DateAt(level: nat, assembly: int): Location {
    Location(AssemblyLevel(level), Cell(assembly, BuildDate, 0))
  }

  /** `updateBuildDate`. */
  function Updated(date: int): int {
    DesignObjects.Toggled(date)
  }

  // ---------- OP6 and OP12: the siblings of a complex assembly ----------

  /** What is left to do: nothing, for the design root, or the siblings below `super` from number `i` on. `home` is
      the level the earlier ones were at, or 0. */
  datatype Rest = Alone | Among(super: int, count: int, i: int, home: int)

  datatype Visit =
    | LookUp
    | AskSuper(assembly: int)
    | AskCount(super: int)
    | NextSibling(rest: Rest)
    | AskLevel(assembly: int, rest: Rest)
    | Lock(assembly: int, level: nat, rest: Rest)
    | ReadDate(assembly: int, level: nat, rest: Rest)
    | WriteDate(assembly: int, level: nat, date: int, rest: Rest)
    | Over(outcome: Outcome)

  function AfterVisit(rest: Rest, level: nat): Visit {
    if rest.Alone? then Over(Returned(1)) else NextSibling(Among(rest.super, rest.count, rest.i + 1, level))
  }

  function VisitAction(id: int, mode: Mode, st: Visit): Action {
    match st
    case LookUp => Get(InStructure(id, IndexedAs, 0))
    case AskSuper(a) => Get(InStructure(a, SuperAssembly, 0))
    case AskCount(s) => Get(InStructure(s, SubAssemblyCount, 0))
    case NextSibling(rest) =>
      if rest.Alone? then Finish(Returned(1))
      else if rest.i < rest.count then Get(InStructure(rest.super, SubAssembly, rest.i))
      else Finish(Returned(rest.i))
    case AskLevel(a, _) => Get(InStructure(a, Level, 0))
    case Lock(_, level, _) => LockLevel(level, mode)
    case ReadDate(a, level, _) => Get(DateAt(level, a))
    case WriteDate(a, level, date, _) => Put(DateAt(level, a), Updated(date))
    case Over(outcome) => Finish(outcome)
  }

  /** Levels outside the tree, or siblings at different levels, would be a broken design: the body ends there. */
  function VisitStep(levels: nat, mode: Mode, st: Visit, result: int): Visit {
    match st
    case LookUp => if result == 0 then Over(Failed) else AskSuper(result)
    case AskSuper(a) => if result == 0 then AskLevel(a, Alone) else AskCount(result)
    case AskCount(s) => NextSibling(Among(s, result, 0, 0))
    case NextSibling(rest) => AskLevel(result, rest)
    case AskLevel(a, rest) =>
      if 2 <= result <= levels && (rest.Among? && rest.home != 0 ==> rest.home == result) then Lock(a, result, rest)
      else Over(Failed)
    case Lock(a, level, rest) => if mode.Write? then ReadDate(a, level, rest) else AfterVisit(rest, level)
    case ReadDate(a, level, rest) => WriteDate(a, level, result, rest)
    case WriteDate(_, level, _, rest) => AfterVisit(rest, level)
    case Over(_) => st
  }

  /** OP6 reads and OP12 updates the assembly with this id and its siblings. */
  function Siblings(levels: nat, id: int, mode: Mode): Machine<Visit> {
    Machine(LookUp, (st: Visit) => VisitAction(id, mode, st),
            (st: Visit, result: int) => VisitStep(levels, mode, st, result))
  }

  ghost predicate AtLevel(locked: set<Request>, level: int) {
    forall r :: r in locked ==> r.lock.AssemblyLevel? && r.lock.level == level
  }

  /** All levels asked for so far are the one of the siblings visited so far. */
  ghost predicate RestSafe(rest: Rest, locked: set<Request>) {
    match rest
    case Alone => locked == {}
    case Among(_, _, _, home) => AtLevel(locked, home) && (home == 0 ==> locked == {})
  }

  ghost predicate VisitSafe(levels: nat, mode: Mode, st: Visit, locked: set<Request>) {
    match st
    case LookUp => locked == {}
    case AskSuper(_) => locked == {}
    case AskCount(_) => locked == {}
    case NextSibling(rest) => RestSafe(rest, locked)
    case AskLevel(_, rest) => RestSafe(rest, locked)
    case Lock(_, level, _) => 2 <= level <= levels && AtLevel(locked, level)
    case ReadDate(_, level, _) =>
      2 <= level <= levels && mode.Write? && AtLevel(locked, level) && Request(AssemblyLevel(level), Write) in locked
    case WriteDate(_, level, _, _) =>
      2 <= level <= levels && mode.Write? && AtLevel(locked, level) && Request(AssemblyLevel(level), Write) in locked
    case Over(_) => true
  }

  /** OP6 and OP12 keep the locking discipline, whatever they read. */
  lemma SiblingsConform(levels: nat, id: int, mode: Mode)
    ensures Conforms(Job(if mode.Read? then OP6 else OP12, ProgramOf(Siblings(levels, id, mode))), levels)
  {
    var m, op := Siblings(levels, id, mode), if mode.Read? then OP6 else OP12;
    var safe := (st: Visit, locked: set<Request>) => VisitSafe(levels, mode, st, locked);
    forall st: Visit, locked: set<Request>, result: int
      ensures StepsSafely(m, op, levels, safe, st, locked, result)
    {
    }
    SafeConforms(m, op, levels, safe);
  }

  // ---------- ST3 and ST8: the assemblies above the users of a composite part ----------

  /** Where the walk stands: the users of `part` from number `i` on are left, and what has been visited. */
  datatype Progress = Progress(part: int, count: int, i: int, visited: set<int>, result: int)

  datatype Climb =
    | FindPart
    | AskOwner(atomicPart: int)
    | AskUsers(part: int)
    | NextUser(progress: Progress)
    | AskKind(assembly: int, progress: Progress)
    | OwnLevel(assembly: int, progress: Progress)
    | LockOwn(assembly: int, level: nat, progress: Progress)
    | OwnDate(assembly: int, level: nat, progress: Progress)
    | NewDate(assembly: int, level: nat, date: int, progress: Progress)
    | GoUp(assembly: int, progress: Progress)
    | Top(outcome: Outcome)

  /** The start of `traverse` on an assembly: none, or one that was visited, ends the walk up. */
  function Arrive(assembly: int, p: Progress): Climb {
    if assembly == 0 || assembly in p.visited then NextUser(p.(i := p.i + 1))
    else AskKind(assembly, p.(visited := p.visited + {assembly}))
  }

  function ClimbAction(id: int, mode: Mode, st: Climb): Action {
    match st
    case FindPart => Get(InStructure(id, IndexedAs, 0))
    case AskOwner(a) => Get(InStructure(a, Owner, 0))
    case AskUsers(c) => Get(InStructure(c, UserCount, 0))
    case NextUser(p) => if p.i < p.count then Get(InStructure(p.part, User, p.i)) else Finish(Returned(p.result))
    case AskKind(a, _) => Get(InStructure(a, IsBase, 0))
    case OwnLevel(a, _) => Get(InStructure(a, Level, 0))
    case LockOwn(_, level, _) => LockLevel(level, mode)
    case OwnDate(a, level, _) => Get(DateAt(level, a))
    case NewDate(a, level, date, _) => Put(DateAt(level, a), Updated(date))
    case GoUp(a, _) => Get(InStructure(a, SuperAssembly, 0))
    case Top(outcome) => Finish(outcome)
  }

  function ClimbStep(levels: nat, mode: Mode, st: Climb, result: int): Climb {
    match st
    case FindPart => if result == 0 then Top(Failed) else AskOwner(result)
    case AskOwner(_) => AskUsers(result)
    case AskUsers(c) => NextUser(Progress(c, result, 0, {}, 0))
    case NextUser(p) => Arrive(result, p)
    case AskKind(a, p) =>
      if result == 0 then OwnLevel(a, p)
      else if mode.Write? then OwnDate(a, BASE_ASSEMBLY_LEVEL, p)
      else GoUp(a, p)
    case OwnLevel(a, p) => if 2 <= result <= levels then LockOwn(a, result, p) else Top(Failed)
    case LockOwn(a, level, p) => if mode.Write? then OwnDate(a, level, p) else GoUp(a, p)
    case OwnDate(a, level, p) => NewDate(a, level, result, p)
    case NewDate(a, _, _, p) => GoUp(a, p)
    case GoUp(_, p) => Arrive(result, p.(result := p.result + 1))
    case Top(_) => st
  }

  /** ST3 reads and ST8 updates all assemblies above the users of the owner of this atomic part. */
  function Ancestors(levels: nat, id: int, mode: Mode): Machine<Climb> {
    Machine(FindPart, (st: Climb) => ClimbAction(id, mode, st),
            (st: Climb, result: int) => ClimbStep(levels, mode, st, result))
  }

  /** What is updated is guarded by the lock of the base assemblies or by a level that was write-locked. */
  ghost predicate MayUpdate(levels: nat, mode: Mode, level: nat, locked: set<Request>) {
    mode.Write? && (level == BASE_ASSEMBLY_LEVEL || (2 <= level <= levels && Request(AssemblyLevel(level), Write) in locked))
  }

  ghost predicate ClimbSafe(levels: nat, mode: Mode, st: Climb, locked: set<Request>) {
    match st
    case LockOwn(_, level, _) => 2 <= level <= levels
    case OwnDate(_, level, _) => MayUpdate(levels, mode, level, locked)
    case NewDate(_, level, _, _) => MayUpdate(levels, mode, level, locked)
    case _ => true
  }

  /** ST3 and ST8 keep the locking discipline, whatever they read. */
  lemma AncestorsConform(levels: nat, id: int, mode: Mode)
    ensures Conforms(Job(if mode.Read? then ST3 else ST8, ProgramOf(Ancestors(levels, id, mode))), levels)
  {
    var m, op := Ancestors(levels, id, mode), if mode.Read? then ST3 else ST8;
    var safe := (st: Climb, locked: set<Request>) => ClimbSafe(levels, mode, st, locked);
    forall st: Climb, locked: set<Request>, result: int
      ensures StepsSafely(m, op, levels, safe, st, locked, result)
    {
    }
    SafeConforms(m, op, levels, safe);
  }

  // ---------- Q6: the assemblies above outdated base assemblies ----------

  /** A call of `checkComplexAssembly` that is under way: its children from number `i` on are left. */
  datatype Call = Call(assembly: int, count: int, i: int, result: int)

  datatype Check =
    | AskRoot
    | AskChildren(assembly: int, above: seq<Call>)
    | NextChild(call: Call, above: seq<Call>)
    | ChildKind(assembly: int, above: seq<Call>)
    | BaseDate(assembly: int, above: seq<Call>)
    | AskComponents(assembly: int, date: int, above: seq<Call>)
    | NextComponent(assembly: int, date: int, count: int, i: int, above: seq<Call>)
    | PartDate(assembly: int, date: int, count: int, i: int, part: int, above: seq<Call>)
    | CallLevel(call: Call, above: seq<Call>)
    | LockCall(level: nat, result: int, above: seq<Call>)
    | Answer(outcome: Outcome)

  /** The result of a call goes to the one above it. */
  function Deliver(result: int, above: seq<Call>): (st: Check)
    ensures !st.LockCall?
    decreases |above|, 0
  {
    if above == [] then Answer(Returned(result))
    else
      var call := above[|above| - 1];
      Proceed(call.(i := call.i + 1, result := call.result + result), above[..|above| - 1])
  }

  function Proceed(call: Call, above: seq<Call>): (st: Check)
    ensures !st.LockCall?
    decreases |above|, 1
  {
    if call.i < call.count then NextChild(call, above)
    else if call.result == 0 then Deliver(0, above)
    else CallLevel(call, above)
  }

  function ProceedBase(assembly: int, date: int, count: int, i: int, above: seq<Call>): (st: Check)
    ensures !st.LockCall?
  {
    if i < count then NextComponent(assembly, date, count, i, above) else Deliver(0, above)
  }

  function CheckAction(st: Check): Action {
    match st
    case AskRoot => Get(InStructure(0, DesignRoot, 0))
    case AskChildren(a, _) => Get(InStructure(a, SubAssemblyCount, 0))
    case NextChild(call, _) => Get(InStructure(call.assembly, SubAssembly, call.i))
    case ChildKind(a, _) => Get(InStructure(a, IsBase, 0))
    case BaseDate(a, _) => Get(DateAt(BASE_ASSEMBLY_LEVEL, a))
    case AskComponents(a, _, _) => Get(InStructure(a, ComponentCount, 0))
    case NextComponent(a, _, _, i, _) => Get(InStructure(a, Component, i))
    case PartDate(_, _, _, _, part, _) => Get(Location(CompositePart, Cell(part, BuildDate, 0)))
    case CallLevel(call, _) => Get(InStructure(call.assembly, Level, 0))
    case LockCall(level, _, _) => LockLevel(level, Read)
    case Answer(outcome) => Finish(outcome)
  }

  function CheckStep(levels: nat, st: Check, result: int): Check {
    match st
    case AskRoot => AskChildren(result, [])
    case AskChildren(a, above) => Proceed(Call(a, result, 0, 0), above)
    case NextChild(call, above) => ChildKind(result, above + [call])
    case ChildKind(a, above) => if result == 0 then AskChildren(a, above) else BaseDate(a, above)
    case BaseDate(a, above) => AskComponents(a, result, above)
    case AskComponents(a, date, above) => ProceedBase(a, date, result, 0, above)
    case NextComponent(a, date, count, i, above) => PartDate(a, date, count, i, result, above)
    case PartDate(a, date, count, i, _, above) =>
      if result > date then Deliver(1, above) else ProceedBase(a, date, count, i + 1, above)
    case CallLevel(call, above) => if 2 <= result <= levels then LockCall(result, call.result + 1, above) else Answer(Failed)
    case LockCall(_, n, above) => Deliver(n, above)
    case Answer(_) => st
  }

  function Checking(levels: nat): Machine<Check> {
    Machine(AskRoot, CheckAction, (st: Check, result: int) => CheckStep(levels, st, result))
  }

  /** Q6 keeps the locking discipline, whatever it reads. */
  lemma CheckingConforms(levels: nat)
    ensures Conforms(Job(Q6, ProgramOf(Checking(levels))), levels)
  {
    var m := Checking(levels);
    var safe := (st: Check, locked: set<Request>) => st.LockCall? ==> 2 <= st.level <= levels;
    forall st: Check, locked: set<Request>, result: int
      ensures StepsSafely(m, Q6, levels, safe, st, locked, result)
    {
    }
    SafeConforms(m, Q6, levels, safe);
  }
}
