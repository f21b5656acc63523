/** Any number of threads running operations under the medium-grained executor, as a step relation:
    every lock call, every access to shared state and every unlock is a step of its own. */
module LockProtocol {
  import opened LockTable

  type Thread = nat

  /** The parts of shared objects that the modelled bodies touch; objects are known by numbers, and 0 is no object. */
  datatype Field =
    | IndexedAs | DesignRoot | SuperAssembly | Level | IsBase | SubAssemblyCount | SubAssembly | ComponentCount | Component
    | UserCount | User | Owner | BuildDate | RootPart | ConnectionCount | Destination | InDateSet

  /** A field of an object, or one entry of a collection it holds. */
  datatype Cell = Cell(owner: int, field: Field, index: int)

  /** A piece of shared state, known by the lock that guards it. */
  datatype Location = Location(guard: Lock, cell: Cell)

  type Store = s: imap<Location, int> | forall x: Location :: x in s ghost witness imap x: Location :: 0

  /** How `performOperation` ends: it returns or throws `OperationFailedException`. */
  datatype Outcome = Returned(value: int) | Failed

  datatype Action =
    | LockLevel(level: nat, mode: Mode)
    | Get(loc: Location)
    | Put(loc: Location, value: int)
    | Finish(outcome: Outcome)

  /** A deterministic operation body: its next action, given the results of its actions so far
      (the value for a `Get`, 0 for any other action). Random draws are part of the program. */
  type Program = seq<int> -> Action

  datatype Job = Job(op: OperationId, prog: Program)

  ghost function LevelRequests(action: Action): set<Request> {
    match action
    case LockLevel(level, mode) => {Request(AssemblyLevel(level), mode)}
    case _ => {}
  }

  /** The level locks a body has asked for in the course of a history. */
  ghost function Locked(prog: Program, hist: seq<int>): set<Request> {
    if hist == [] then {}
    else var h := hist[..|hist| - 1]; Locked(prog, h) + LevelRequests(prog(h))
  }

  ghost predicate MayAccess(op: OperationId, locked: set<Request>, lock: Lock, mode: Mode) {
    Footprint(op, lock, mode) || Permits(locked, lock, mode)
  }

  ghost predicate MayAct(job: Job, levels: nat, action: Action, locked: set<Request>) {
    match action
    case LockLevel(level, mode) =>
      && MayLockLevel(job.op, level, mode, levels)
      && (KeepsToOneLevel(job.op) ==> forall r :: r in locked ==> r.lock == AssemblyLevel(level))
    case Get(loc) => MayAccess(job.op, locked, loc.guard, Read)
    case Put(loc, _) => MayAccess(job.op, locked, loc.guard, Write)
    case Finish(_) => true
  }

  /** The body stays within the footprint of its operation and locks a complex level before it touches it. */
  ghost predicate Conforms(job: Job, levels: nat) {
    forall h: seq<int> :: MayAct(job, levels, job.prog(h), Locked(job.prog, h))
  }

  datatype Phase =
    | Idle
    | Acquiring(job: Job, next: nat)
    | Running(job: Job, hist: seq<int>)
    | ReleasingLevels(job: Job, level: nat, mode: Mode)
    | ReleasingLocks(job: Job, next: nat)

  /** What is local to a thread: where it is in `execute` and its `AssemblyLocksAcquired` flags. */
  datatype ThreadState = ThreadState(phase: Phase, readAcquired: set<nat>, writeAcquired: set<nat>)

  datatype Hold = Hold(thread: Thread, request: Request)

  type Holds = h: imap<Hold, nat> | forall x: Hold :: x in h ghost witness imap x: Hold :: 0

  type Threads = m: imap<Thread, ThreadState> | forall t: Thread :: t in m
    ghost witness imap t: Thread :: ThreadState(Idle, {}, {})

  /** An entry of the replay log; `steps` is the number of actions the body took. */
  datatype Entry = Entry(thread: Thread, job: Job, steps: nat, outcome: Outcome, timestamp: nat)

  datatype State = State(
    levels: nat, store: Store, threads: Threads, holds: Holds, counter: nat, log: seq<Entry>)

  ghost predicate Initial(s: State) {
    && s.levels >= 2 && s.counter == 0 && s.log == []
    && (forall t: Thread :: s.threads[t] == ThreadState(Idle, {}, {}))
    && (forall x: Hold :: s.holds[x] == 0)
  }

  /** `Begin` hands a job to an idle thread; `Advance` is the thread's next step. */
  datatype Move = Begin(thread: Thread, job: Job) | Advance(thread: Thread)

  ghost predicate Flagged(ts: ThreadState, level: nat, mode: Mode) {
    if mode.Read? then level in ts.readAcquired else level in ts.writeAcquired
  }

  /** The test with which the two level-locking methods return at once. */
  ghost predicate AlreadyAcquired(ts: ThreadState, level: nat, mode: Mode) {
    level in ts.writeAcquired || (mode.Read? && level in ts.readAcquired)
  }

  datatype Option<T> = None | Some(value: T)

  /** The lock call a thread makes in its next step, if that step is one. */
  ghost function Wanted(levels: nat, ts: ThreadState): Option<Request> {
    match ts.phase
    case Acquiring(job, next) =>
      var locks := LocksToAcquire(job.op, levels);
      if next < |locks| then Some(locks[next]) else None
    case Running(job, hist) =>
      (match job.prog(hist)
       case LockLevel(level, mode) =>
         if AlreadyAcquired(ts, level, mode) then None else Some(Request(AssemblyLevel(level), mode))
       case _ => None)
    case _ => None
  }

  /** The unlock call a thread makes in its next step, if that step is one. */
  ghost function Dropped(levels: nat, ts: ThreadState): Option<Request> {
    match ts.phase
    case ReleasingLevels(_, level, mode) =>
      if level <= levels && Flagged(ts, level, mode) then Some(Request(AssemblyLevel(level), mode)) else None
    case ReleasingLocks(job, next) =>
      var locks := LocksToAcquire(job.op, levels);
      if next < |locks| then Some(locks[next]) else None
    case _ => None
  }

  ghost function Count(s: State, t: Thread, lock: Lock, mode: Mode): nat {
    s.holds[Hold(t, Request(lock, mode))]
  }

  /** When a reentrant read/write lock may be handed to `t`: readers share, a writer is alone, and a reader
      cannot become a writer. */
  ghost predicate CanGrant(s: State, t: Thread, r: Request) {
    && (forall u: Thread :: u != t ==> Count(s, u, r.lock, Write) == 0)
    && (r.mode.Write? ==>
          && (forall u: Thread :: u != t ==> Count(s, u, r.lock, Read) == 0)
          && (Count(s, t, r.lock, Read) > 0 ==> Count(s, t, r.lock, Write) > 0))
  }

  ghost predicate Enabled(s: State, m: Move) {
    var ts := s.threads[m.thread];
    match m
    case Begin(_, job) => ts.phase.Idle? && Conforms(job, s.levels)
    case Advance(t) =>
      && !ts.phase.Idle?
      && (Wanted(s.levels, ts).Some? ==> CanGrant(s, t, Wanted(s.levels, ts).value))
      && (Dropped(s.levels, ts).Some? ==> s.holds[Hold(t, Dropped(s.levels, ts).value)] > 0)
  }

  ghost function Bump(holds: Holds, t: Thread, r: Option<Request>): Holds {
    if r.Some? then holds[Hold(t, r.value) := holds[Hold(t, r.value)] + 1] else holds
  }

  ghost function Drop(holds: Holds, t: Thread, r: Option<Request>): Holds
    requires r.Some? ==> holds[Hold(t, r.value)] > 0
  {
    if r.Some? then holds[Hold(t, r.value) := holds[Hold(t, r.value)] - 1] else holds
  }

  ghost function SetFlag(ts: ThreadState, level: nat, mode: Mode): ThreadState {
    if mode.Read? then ts.(readAcquired := ts.readAcquired + {level})
    else ts.(writeAcquired := ts.writeAcquired + {level})
  }

  /** A thread's own state after its next step; `result` is what the action of a running body yields. */
  ghost function NextThread(levels: nat, ts: ThreadState, result: int): ThreadState {
    match ts.phase
    case Idle => ts
    case Acquiring(job, next) =>
      var more := next < |LocksToAcquire(job.op, levels)|;
      ts.(phase := if more then Acquiring(job, next + 1) else Running(job, []))
    case Running(job, hist) =>
      (match job.prog(hist)
       case Finish(_) => ts.(phase := ReleasingLevels(job, 1, Read))
       case LockLevel(level, mode) =>
         var next := ts.(phase := Running(job, hist + [result]));
         if AlreadyAcquired(ts, level, mode) then next else SetFlag(next, level, mode)
       case _ => ts.(phase := Running(job, hist + [result])))
    case ReleasingLevels(job, level, mode) =>
      if level > levels then ThreadState(ReleasingLocks(job, 0), {}, {})
      else if mode.Read? then ts.(phase := ReleasingLevels(job, level, Write))
      else ts.(phase := ReleasingLevels(job, level + 1, Read))
    case ReleasingLocks(job, next) =>
      var more := next < |LocksToAcquire(job.op, levels)|;
      ts.(phase := if more then ReleasingLocks(job, next + 1) else Idle)
  }

  /** The action of a thread whose body is running. */
  ghost function Acting(ts: ThreadState): Option<Action> {
    if ts.phase.Running? then Some(ts.phase.job.prog(ts.phase.hist)) else None
  }

  ghost function Result(store: Store, action: Option<Action>): int {
    if action.Some? && action.value.Get? then store[action.value.loc] else 0
  }

  /** `Finish` is the start of the `finally` block: it takes the timestamp while the thread still holds all its locks. */
  ghost function Apply(s: State, m: Move): State
    requires Enabled(s, m)
  {
    var t := m.thread;
    var ts := s.threads[t];
    match m
    case Begin(_, job) => s.(threads := s.threads[t := ts.(phase := Acquiring(job, 0))])
    case Advance(_) =>
      var s' := s.(
        threads := s.threads[t := NextThread(s.levels, ts, Result(s.store, Acting(ts)))],
        holds := Drop(Bump(s.holds, t, Wanted(s.levels, ts)), t, Dropped(s.levels, ts)));
      match Acting(ts)
      case Some(Put(loc, value)) => s'.(store := s.store[loc := value])
      case Some(Finish(outcome)) =>
        s'.(log := s.log + [Entry(t, ts.phase.job, |ts.phase.hist|, outcome, s.counter)], counter := s.counter + 1)
      case _ => s'
  }

  /** `run` is a sequence of enabled moves that leads from `s` to `s'`. */
  ghost predicate Leads(s: State, run: seq<Move>, s': State)
    decreases |run|
  {
    if run == [] then s == s'
    else Enabled(s, run[0]) && Leads(Apply(s, run[0]), run[1..], s')
  }

  // ---------- lock balance ----------

  ghost function One(b: bool): nat { if b then 1 else 0 }

  ghost predicate LevelHeld(ts: ThreadState, r: Request) {
    r.lock.AssemblyLevel? && Flagged(ts, r.lock.level, r.mode)
  }

  /** Already given back by the release loop over the levels. */
  ghost predicate LevelReleased(r: Request, level: nat, mode: Mode) {
    r.lock.AssemblyLevel? && (r.lock.level < level || (r.lock.level == level && r.mode.Read? && mode.Write?))
  }

  /** How often a thread holds `r`, as its own position in `execute` and its flags tell. */
  ghost function Expected(levels: nat, ts: ThreadState, r: Request): nat {
    match ts.phase
    case Idle => 0
    case Acquiring(job, next) =>
      var locks := LocksToAcquire(job.op, levels);
      if next <= |locks| then One(r in locks[..next]) else 0
    case Running(job, _) => One(r in LocksToAcquire(job.op, levels)) + One(LevelHeld(ts, r))
    case ReleasingLevels(job, level, mode) =>
      One(r in LocksToAcquire(job.op, levels)) + One(LevelHeld(ts, r) && !LevelReleased(r, level, mode))
    case ReleasingLocks(job, next) =>
      var locks := LocksToAcquire(job.op, levels);
      if next <= |locks| then One(r in locks[next..]) else 0
  }

  ghost predicate FlagsWithin(job: Job, levels: nat, ts: ThreadState) {
    && (forall l :: l in ts.readAcquired ==> MayLockLevel(job.op, l, Read, levels))
    && (forall l :: l in ts.writeAcquired ==> MayLockLevel(job.op, l, Write, levels))
  }

  ghost predicate FlagsCover(locked: set<Request>, ts: ThreadState) {
    forall r :: r in locked ==> r.lock.AssemblyLevel? && AlreadyAcquired(ts, r.lock.level, r.mode)
  }

  ghost predicate FlagsAsked(locked: set<Request>, ts: ThreadState) {
    && (forall l :: l in ts.readAcquired ==> Request(AssemblyLevel(l), Read) in locked)
    && (forall l :: l in ts.writeAcquired ==> Request(AssemblyLevel(l), Write) in locked)
  }

  ghost predicate ThreadOk(levels: nat, ts: ThreadState) {
    match ts.phase
    case Idle => ts.readAcquired == {} && ts.writeAcquired == {}
    case Acquiring(job, next) =>
      Conforms(job, levels) && ts.readAcquired == {} && ts.writeAcquired == {}
      && next <= |LocksToAcquire(job.op, levels)|
    case Running(job, hist) =>
      && Conforms(job, levels) && FlagsWithin(job, levels, ts)
      && FlagsCover(Locked(job.prog, hist), ts) && FlagsAsked(Locked(job.prog, hist), ts)
    case ReleasingLevels(job, level, mode) =>
      Conforms(job, levels) && FlagsWithin(job, levels, ts)
      && level <= levels + 1 && (level == levels + 1 ==> mode.Read?)
    case ReleasingLocks(job, next) =>
      Conforms(job, levels) && ts.readAcquired == {} && ts.writeAcquired == {}
      && next <= |LocksToAcquire(job.op, levels)|
  }

  /** The lock counts are exactly what the threads' positions tell. */
  ghost predicate Balanced(s: State) {
    && s.levels >= 2
    && (forall t: Thread :: ThreadOk(s.levels, s.threads[t]))
    && (forall t: Thread, r: Request :: s.holds[Hold(t, r)] == Expected(s.levels, s.threads[t], r))
  }

  /** A writer is alone. */
  ghost predicate Exclusive(s: State) {
    forall t: Thread, u: Thread, lock: Lock, mode: Mode ::
      t != u && Count(s, t, lock, Write) > 0 ==> Count(s, u, lock, mode) == 0
  }

  lemma LocksDistinct(op: OperationId, levels: nat, k: nat)
    requires levels >= 2 && k < |LocksToAcquire(op, levels)|
    ensures LocksToAcquire(op, levels)[k] !in LocksToAcquire(op, levels)[..k]
    ensures LocksToAcquire(op, levels)[k] !in LocksToAcquire(op, levels)[k + 1..]
  {
    TableFollowsLockingOrder(op, levels);
  }

  /** What a thread's step does to the counts it should have: one more for the lock call, one less for the unlock. */
  ghost predicate CountsFollow(levels: nat, ts: ThreadState, ts': ThreadState, r: Request) {
    Expected(levels, ts', r) ==
    Expected(levels, ts, r) + One(Wanted(levels, ts) == Some(r)) - One(Dropped(levels, ts) == Some(r))
  }

  lemma NextThreadCounts(levels: nat, ts: ThreadState, result: int, r: Request)
    requires levels >= 2 && ThreadOk(levels, ts) && !ts.phase.Idle?
    ensures CountsFollow(levels, ts, NextThread(levels, ts, result), r)
  {
    match ts.phase
    case Acquiring(job, next) => StaticCounts(levels, ts, result, r);
    case Running(job, hist) => BodyCounts(levels, ts, result, r);
    case ReleasingLevels(job, level, mode) => LevelCounts(levels, ts, result, r);
    case ReleasingLocks(job, next) => StaticCounts(levels, ts, result, r);
  }

  lemma StaticCounts(levels: nat, ts: ThreadState, result: int, r: Request)
    requires levels >= 2 && ThreadOk(levels, ts) && (ts.phase.Acquiring? || ts.phase.ReleasingLocks?)
    ensures CountsFollow(levels, ts, NextThread(levels, ts, result), r)
  {
    hide Conforms;
    var locks, next := LocksToAcquire(ts.phase.job.op, levels), ts.phase.next;
    if next < |locks| {
      LocksDistinct(ts.phase.job.op, levels, next);
      assert locks[..next + 1] == locks[..next] + [locks[next]];
      assert locks[next..] == [locks[next]] + locks[next + 1..];
    } else {
      assert locks[..next] == locks && locks[next..] == [];
    }
  }

  lemma BodyCounts(levels: nat, ts: ThreadState, result: int, r: Request)
    requires levels >= 2 && ThreadOk(levels, ts) && ts.phase.Running?
    ensures CountsFollow(levels, ts, NextThread(levels, ts, result), r)
  {
    hide Conforms, FlagsCover, FlagsAsked, Locked, LocksToAcquire;
    var job, hist := ts.phase.job, ts.phase.hist;
    var action := job.prog(hist);
    if action.LockLevel? && !AlreadyAcquired(ts, action.level, action.mode) {
      var ts' := SetFlag(ts, action.level, action.mode);
      assert LevelHeld(ts', r) <==> LevelHeld(ts, r) || r == Request(AssemblyLevel(action.level), action.mode);
      assert !LevelHeld(ts, Request(AssemblyLevel(action.level), action.mode));
    }
  }

  lemma LevelCounts(levels: nat, ts: ThreadState, result: int, r: Request)
    requires levels >= 2 && ThreadOk(levels, ts) && ts.phase.ReleasingLevels?
    ensures CountsFollow(levels, ts, NextThread(levels, ts, result), r)
  {
    var level, mode := ts.phase.level, ts.phase.mode;
    var locks := LocksToAcquire(ts.phase.job.op, levels);
    if level > levels {
      assert LevelHeld(ts, r) ==> LevelReleased(r, level, mode);
      assert locks[0..] == locks;
    } else {
      var level', mode' := if mode.Read? then level else level + 1, if mode.Read? then Write else Read;
      assert LevelReleased(r, level', mode') <==>
             LevelReleased(r, level, mode) || (r.lock == AssemblyLevel(level) && r.mode == mode);
    }
  }

  lemma HistoryGrows(prog: Program, hist: seq<int>, result: int)
    ensures Locked(prog, hist + [result]) == Locked(prog, hist) + LevelRequests(prog(hist))
  {
    assert (hist + [result])[..|hist|] == hist;
  }

  lemma BodyOk(levels: nat, ts: ThreadState, result: int)
    requires levels >= 2 && ThreadOk(levels, ts) && ts.phase.Running?
    ensures ThreadOk(levels, NextThread(levels, ts, result))
  {
    hide Locked, Conforms, MayLockLevel;
    var job, hist := ts.phase.job, ts.phase.hist;
    ConformingAction(job, levels, hist);
    HistoryGrows(job.prog, hist, result);
  }

  lemma ConformingAction(job: Job, levels: nat, hist: seq<int>)
    requires Conforms(job, levels)
    ensures MayAct(job, levels, job.prog(hist), Locked(job.prog, hist))
  {
    hide MayAct, Locked;
  }

  lemma NextThreadOk(levels: nat, ts: ThreadState, result: int)
    requires levels >= 2 && ThreadOk(levels, ts) && !ts.phase.Idle?
    ensures ThreadOk(levels, NextThread(levels, ts, result))
  {
    hide Conforms, LocksToAcquire;
    if ts.phase.Running? {
      BodyOk(levels, ts, result);
    }
  }

  /** The unlock calls of a balanced state never fail. */
  lemma DropsAreHeld(s: State, t: Thread)
    requires Balanced(s) && Dropped(s.levels, s.threads[t]).Some?
    ensures s.holds[Hold(t, Dropped(s.levels, s.threads[t]).value)] > 0
  {
    var ts := s.threads[t];
    var r := Dropped(s.levels, ts).value;
    assert ThreadOk(s.levels, ts) && s.holds[Hold(t, r)] == Expected(s.levels, ts, r);
  }

  /** A thread that has just been given a job holds nothing yet, as when it was idle. */
  lemma BeginOk(levels: nat, ts: ThreadState, job: Job, r: Request)
    requires ThreadOk(levels, ts) && ts.phase.Idle? && Conforms(job, levels)
    ensures ThreadOk(levels, ts.(phase := Acquiring(job, 0)))
    ensures Expected(levels, ts.(phase := Acquiring(job, 0)), r) == Expected(levels, ts, r)
  {}

  lemma CountsOfOthers(s: State, m: Move, t: Thread, r: Request)
    requires Enabled(s, m) && t != m.thread
    ensures Apply(s, m).threads[t] == s.threads[t] && Apply(s, m).holds[Hold(t, r)] == s.holds[Hold(t, r)]
  {
    hide NextThread, Acting, Wanted, Dropped;
  }

  lemma BumpAndDrop(holds: Holds, t: Thread, up: Option<Request>, down: Option<Request>, r: Request)
    requires down.Some? ==> holds[Hold(t, down.value)] > 0
    ensures down.Some? ==> Bump(holds, t, up)[Hold(t, down.value)] > 0
    ensures Drop(Bump(holds, t, up), t, down)[Hold(t, r)] ==
            holds[Hold(t, r)] + One(up == Some(r)) - One(down == Some(r))
  {
  }

  lemma CountsOfTheMover(s: State, t: Thread, r: Request)
    requires Enabled(s, Advance(t))
    ensures var s', ts := Apply(s, Advance(t)), s.threads[t];
            && s'.threads[t] == NextThread(s.levels, ts, Result(s.store, Acting(ts)))
            && s'.holds[Hold(t, r)] ==
               s.holds[Hold(t, r)] + One(Wanted(s.levels, ts) == Some(r)) - One(Dropped(s.levels, ts) == Some(r))
  {
    hide NextThread, Acting, Wanted, Dropped, CanGrant, Result, Bump, Drop;
    var ts := s.threads[t];
    BumpAndDrop(s.holds, t, Wanted(s.levels, ts), Dropped(s.levels, ts), r);
  }

  lemma StepKeepsThread(s: State, m: Move, t: Thread, r: Request)
    requires Balanced(s) && Enabled(s, m)
    ensures ThreadOk(s.levels, Apply(s, m).threads[t])
    ensures Apply(s, m).holds[Hold(t, r)] == Expected(s.levels, Apply(s, m).threads[t], r)
  {
    hide Expected, ThreadOk, NextThread, Acting, Wanted, Dropped;
    var ts := s.threads[t];
    assert ThreadOk(s.levels, ts) && s.holds[Hold(t, r)] == Expected(s.levels, ts, r);
    if t != m.thread {
      CountsOfOthers(s, m, t, r);
    } else if m.Begin? {
      BeginOk(s.levels, ts, m.job, r);
    } else {
      CountsOfTheMover(s, t, r);
      NextThreadOk(s.levels, ts, Result(s.store, Acting(ts)));
      NextThreadCounts(s.levels, ts, Result(s.store, Acting(ts)), r);
    }
  }

  lemma LevelsStay(s: State, m: Move)
    requires Enabled(s, m)
    ensures Apply(s, m).levels == s.levels
  {
    hide NextThread, Wanted, Dropped;
  }

  /** Lock balance, one step. */
  lemma StepKeepsBalance(s: State, m: Move)
    requires Balanced(s) && Enabled(s, m)
    ensures Balanced(Apply(s, m))
  {
    hide Apply, Enabled, ThreadOk, Expected;
    var s' := Apply(s, m);
    LevelsStay(s, m);
    forall t: Thread
      ensures ThreadOk(s'.levels, s'.threads[t])
    {
      StepKeepsThread(s, m, t, Request(AssemblyLevel(1), Read));
    }
    forall t: Thread, r: Request
      ensures s'.holds[Hold(t, r)] == Expected(s'.levels, s'.threads[t], r)
    {
      StepKeepsThread(s, m, t, r);
    }
  }

  lemma BeginHoldsAlike(s: State, m: Move, r: Request)
    requires Enabled(s, m) && m.Begin?
    ensures Apply(s, m).holds == s.holds
  {
  }

  /** A count that a step has raised from zero is that of the lock call it made. */
  lemma RaisedCountWasGranted(s: State, m: Move, t: Thread, r: Request)
    requires Enabled(s, m)
    requires s.holds[Hold(t, r)] == 0 && Apply(s, m).holds[Hold(t, r)] > 0
    ensures t == m.thread && CanGrant(s, t, r)
    ensures forall u: Thread, q: Request :: Hold(u, q) != Hold(t, r) && s.holds[Hold(u, q)] == 0 ==>
      Apply(s, m).holds[Hold(u, q)] == 0
  {
    hide NextThread, Acting, Wanted, Dropped, CanGrant, Apply, Result;
    if t != m.thread {
      CountsOfOthers(s, m, t, r);
    } else if m.Begin? {
      BeginHoldsAlike(s, m, r);
    } else {
      CountsOfTheMover(s, t, r);
      forall u: Thread, q: Request | Hold(u, q) != Hold(t, r) && s.holds[Hold(u, q)] == 0
        ensures Apply(s, m).holds[Hold(u, q)] == 0
      {
        if u == t {
          CountsOfTheMover(s, t, q);
        } else {
          CountsOfOthers(s, m, u, q);
        }
      }
    }
  }

  /** A writer stays alone. */
  lemma StepKeepsExclusive(s: State, m: Move)
    requires Exclusive(s) && Enabled(s, m)
    ensures Exclusive(Apply(s, m))
  {
    hide Apply, Enabled;
    var s' := Apply(s, m);
    forall t: Thread, u: Thread, lock: Lock, mode: Mode | t != u && Count(s', t, lock, Write) > 0
      ensures Count(s', u, lock, mode) == 0
    {
      if Count(s, t, lock, Write) > 0 {
        assert Count(s, u, lock, mode) == 0;
        if Count(s', u, lock, mode) > 0 { RaisedCountWasGranted(s, m, u, Request(lock, mode)); }
      } else {
        RaisedCountWasGranted(s, m, t, Request(lock, Write));
        assert mode.Read? ==> Count(s, u, lock, Read) == 0;
        assert Count(s, u, lock, mode) == 0;
      }
    }
  }
}
