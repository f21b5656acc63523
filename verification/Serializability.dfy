/** Every run of the medium-grained executor is equivalent to running its operations one by one in the order
    of their timestamps. */
module Serializability {
  import opened LockTable
  import opened LockProtocol

  // ---------- sequential execution ----------

  /** A body run alone: the results of its actions and the values it wrote. */
  datatype Local = Local(hist: seq<int>, writes: map<Location, int>)

  ghost function Act(prog: Program, base: Store, l: Local): Local {
    match prog(l.hist)
    case LockLevel(_, _) => Local(l.hist + [0], l.writes)
    case Get(loc) => Local(l.hist + [if loc in l.writes then l.writes[loc] else base[loc]], l.writes)
    case Put(loc, value) => Local(l.hist + [0], l.writes[loc := value])
    case Finish(_) => l
  }

  /** The first `n` actions of `prog`, started alone in the store `base`. */
  ghost function RunAlone(prog: Program, base: Store, n: nat): Local {
    if n == 0 then Local([], map[]) else Act(prog, base, RunAlone(prog, base, n - 1))
  }

  ghost function Overlay(base: Store, writes: map<Location, int>): Store {
    imap x: Location :: if x in writes then writes[x] else base[x]
  }

  /** The store after the logged operations ran one by one, in log order, from `base`. */
  ghost function Replay(log: seq<Entry>, base: Store): Store {
    if log == [] then base
    else
      var e, before := log[|log| - 1], Replay(log[..|log| - 1], base);
      Overlay(before, RunAlone(e.job.prog, before, e.steps).writes)
  }

  /** Run alone after the operations logged before it, an operation ends just as the log says. */
  ghost predicate ReplaysAs(e: Entry, before: Store) {
    e.job.prog(RunAlone(e.job.prog, before, e.steps).hist) == Finish(e.outcome)
  }

  ghost predicate LogReplays(log: seq<Entry>, base: Store) {
    forall i :: 0 <= i < |log| ==> log[i].timestamp == i && ReplaysAs(log[i], Replay(log[..i], base))
  }

  lemma ActGrows(prog: Program, base: Store, l: Local)
    ensures var l' := Act(prog, base, l);
      && (l' == l || (|l'.hist| == |l.hist| + 1 && l'.hist[..|l.hist|] == l.hist))
      && forall x :: x in l.writes ==> x in l'.writes
  {
  }

  lemma {:induction false} RunAlonePrefix(prog: Program, base: Store, n: nat, i: nat)
    requires i <= n && |RunAlone(prog, base, n).hist| == n
    ensures RunAlone(prog, base, i).hist == RunAlone(prog, base, n).hist[..i]
    ensures forall x :: x in RunAlone(prog, base, i).writes ==> x in RunAlone(prog, base, n).writes
  {
    hide Act;
    if i < n {
      var l := RunAlone(prog, base, n - 1);
      RunAloneLength(prog, base, n - 1);
      ActGrows(prog, base, l);
      RunAlonePrefix(prog, base, n - 1, i);
      assert RunAlone(prog, base, n).hist[..n - 1][..i] == RunAlone(prog, base, n).hist[..i];
    } else {
      assert RunAlone(prog, base, n).hist[..n] == RunAlone(prog, base, n).hist;
    }
  }

  lemma RunAloneLength(prog: Program, base: Store, n: nat)
    ensures |RunAlone(prog, base, n).hist| <= n
  {
  }

  ghost predicate PutsAt(prog: Program, hist: seq<int>, j: nat, x: Location) {
    j < |hist| && prog(hist[..j]).Put? && prog(hist[..j]).loc == x
  }

  lemma {:induction false} WritesArePuts(prog: Program, base: Store, n: nat, x: Location) returns (j: nat)
    requires |RunAlone(prog, base, n).hist| == n && x in RunAlone(prog, base, n).writes
    ensures PutsAt(prog, RunAlone(prog, base, n).hist, j, x)
  {
    var l := RunAlone(prog, base, n - 1);
    RunAloneLength(prog, base, n - 1);
    if x in l.writes {
      j := WritesArePuts(prog, base, n - 1, x);
      RunAlonePrefix(prog, base, n, n - 1);
      assert RunAlone(prog, base, n).hist[..j] == l.hist[..j];
    } else {
      RunAlonePrefix(prog, base, n, n - 1);
      j := n - 1;
    }
  }

  ghost predicate GetsAt(prog: Program, hist: seq<int>, i: nat, x: Location) {
    i < |hist| && prog(hist[..i]).Get? && prog(hist[..i]).loc == x
  }

  /** A body cannot tell apart two stores that agree on what it reads. */
  lemma {:induction false} RunAloneFrame(prog: Program, base: Store, base': Store, n: nat)
    requires |RunAlone(prog, base, n).hist| == n
    requires forall i: nat, x :: GetsAt(prog, RunAlone(prog, base, n).hist, i, x) ==> base[x] == base'[x]
    ensures RunAlone(prog, base, n) == RunAlone(prog, base', n)
  {
    hide Act;
    if n > 0 {
      var hist, l := RunAlone(prog, base, n).hist, RunAlone(prog, base, n - 1);
      RunAloneLength(prog, base, n - 1);
      RunAlonePrefix(prog, base, n, n - 1);
      forall i: nat, x | GetsAt(prog, l.hist, i, x)
        ensures base[x] == base'[x]
      {
        assert hist[..i] == l.hist[..i];
        assert GetsAt(prog, hist, i, x);
      }
      RunAloneFrame(prog, base, base', n - 1);
      if prog(l.hist).Get? {
        assert GetsAt(prog, hist, n - 1, prog(l.hist).loc);
      }
      ActFrame(prog, base, base', l);
    }
  }

  lemma ActFrame(prog: Program, base: Store, base': Store, l: Local)
    requires prog(l.hist).Get? ==> base[prog(l.hist).loc] == base'[prog(l.hist).loc]
    ensures Act(prog, base, l) == Act(prog, base', l)
  {
  }

  /** What a body reports is decided by the store it starts from: `steps` is not a free choice. */
  lemma {:induction false} FinishIsStable(prog: Program, base: Store, n: nat, m: nat)
    requires n <= m && prog(RunAlone(prog, base, n).hist).Finish?
    ensures RunAlone(prog, base, m) == RunAlone(prog, base, n)
  {
    if n < m {
      FinishIsStable(prog, base, n, m - 1);
    }
  }

  // ---------- locks keep bodies apart ----------

  ghost predicate Has(s: State, t: Thread, lock: Lock, mode: Mode) {
    Count(s, t, lock, mode) > 0
  }

  ghost predicate Allows(s: State, t: Thread, lock: Lock, mode: Mode) {
    || Has(s, t, GlobalStructure, Write)
    || Has(s, t, lock, Write)
    || (mode.Read? && Has(s, t, lock, Read))
  }

  lemma StaticLocksHeld(s: State, t: Thread, r: Request)
    requires Balanced(s) && s.threads[t].phase.Running?
    requires r in LocksToAcquire(s.threads[t].phase.job.op, s.levels)
    ensures Has(s, t, r.lock, r.mode)
  {
    assert s.holds[Hold(t, r)] == Expected(s.levels, s.threads[t], r);
  }

  lemma StructureHeld(s: State, t: Thread)
    requires Balanced(s) && s.threads[t].phase.Running?
    ensures Has(s, t, GlobalStructure, Read) || Has(s, t, GlobalStructure, Write)
  {
    StaticLocksHeld(s, t, LocksToAcquire(s.threads[t].phase.job.op, s.levels)[0]);
  }

  lemma LevelsHeld(s: State, t: Thread, r: Request)
    requires Balanced(s) && s.threads[t].phase.Running?
    requires r in Locked(s.threads[t].phase.job.prog, s.threads[t].phase.hist)
    ensures Allows(s, t, r.lock, r.mode)
  {
    var ts := s.threads[t];
    assert ThreadOk(s.levels, ts);
    var w, d := Request(r.lock, Write), Request(r.lock, Read);
    assert s.holds[Hold(t, w)] == Expected(s.levels, ts, w) && s.holds[Hold(t, d)] == Expected(s.levels, ts, d);
  }

  lemma LockedMonotone(prog: Program, hist: seq<int>, i: nat)
    requires i <= |hist|
    ensures Locked(prog, hist[..i]) <= Locked(prog, hist)
  {
    if i < |hist| {
      var h := hist[..|hist| - 1];
      assert h[..i] == hist[..i];
      LockedMonotone(prog, h, i);
    } else {
      assert hist[..i] == hist;
    }
  }

  ghost predicate Accesses(action: Action, x: Location, mode: Mode) {
    if mode.Read? then action == Get(x) else action.Put? && action.loc == x
  }

  lemma PermittedIsAllowed(s: State, t: Thread, held: set<Request>, lock: Lock, mode: Mode)
    requires Permits(held, lock, mode)
    requires forall r :: r in held ==> Allows(s, t, r.lock, r.mode)
    ensures Allows(s, t, lock, mode)
  {
    if Request(GlobalStructure, Write) in held {
      assert Allows(s, t, GlobalStructure, Write);
    } else if Request(lock, Write) in held {
      assert Allows(s, t, lock, Write);
    } else {
      assert Allows(s, t, lock, Read);
    }
  }

  lemma ListedIsAllowed(s: State, t: Thread, locks: seq<Request>, lock: Lock, mode: Mode)
    requires Permits((set r | r in locks), lock, mode)
    requires forall r :: r in locks ==> Has(s, t, r.lock, r.mode)
    ensures Allows(s, t, lock, mode)
  {
    PermittedIsAllowed(s, t, (set r | r in locks), lock, mode);
  }

  lemma FootprintIsLocked(s: State, t: Thread, lock: Lock, mode: Mode)
    requires Balanced(s) && s.threads[t].phase.Running?
    requires Footprint(s.threads[t].phase.job.op, lock, mode)
    ensures Allows(s, t, lock, mode)
  {
    TableCoversFootprint(s.threads[t].phase.job.op, lock, mode, s.levels);
    TableIsHeld(s, t);
    ListedIsAllowed(s, t, LocksToAcquire(s.threads[t].phase.job.op, s.levels), lock, mode);
  }

  lemma TableIsHeld(s: State, t: Thread)
    requires Balanced(s) && s.threads[t].phase.Running?
    ensures forall r :: r in LocksToAcquire(s.threads[t].phase.job.op, s.levels) ==> Has(s, t, r.lock, r.mode)
  {
    forall r | r in LocksToAcquire(s.threads[t].phase.job.op, s.levels)
      ensures Has(s, t, r.lock, r.mode)
    {
      StaticLocksHeld(s, t, r);
    }
  }

  lemma LevelIsLocked(s: State, t: Thread, locked: set<Request>, lock: Lock, mode: Mode)
    requires Balanced(s) && s.threads[t].phase.Running?
    requires locked <= Locked(s.threads[t].phase.job.prog, s.threads[t].phase.hist)
    requires Permits(locked, lock, mode)
    ensures Allows(s, t, lock, mode)
  {
    forall r | r in locked
      ensures Allows(s, t, r.lock, r.mode)
    {
      LevelsHeld(s, t, r);
    }
    PermittedIsAllowed(s, t, locked, lock, mode);
  }

  /** Whatever a running body has read or written so far, or is about to, it still holds the locks for. */
  lemma AccessIsLocked(s: State, t: Thread, i: nat, x: Location, mode: Mode)
    requires Balanced(s) && s.threads[t].phase.Running? && i <= |s.threads[t].phase.hist|
    requires Accesses(s.threads[t].phase.job.prog(s.threads[t].phase.hist[..i]), x, mode)
    ensures Allows(s, t, x.guard, mode)
  {
    var job, hist := s.threads[t].phase.job, s.threads[t].phase.hist;
    assert ThreadOk(s.levels, s.threads[t]);
    var locked := Locked(job.prog, hist[..i]);
    assert MayAct(job, s.levels, job.prog(hist[..i]), locked);
    LockedMonotone(job.prog, hist, i);
    assert MayAccess(job.op, locked, x.guard, mode);
    if Footprint(job.op, x.guard, mode) {
      FootprintIsLocked(s, t, x.guard, mode);
    } else {
      LevelIsLocked(s, t, locked, x.guard, mode);
    }
  }

  /** No thread may touch what another one may write. */
  lemma NoConflict(s: State, t: Thread, u: Thread, lock: Lock, mode: Mode)
    requires Balanced(s) && Exclusive(s) && t != u
    requires s.threads[t].phase.Running? && s.threads[u].phase.Running?
    requires Allows(s, t, lock, Write)
    ensures !Allows(s, u, lock, mode)
  {
    StructureHeld(s, t);
    StructureHeld(s, u);
    assert forall k: Lock, m: Mode :: Has(s, t, k, Write) ==> !Has(s, u, k, m);
    assert forall k: Lock, m: Mode :: Has(s, u, k, Write) ==> !Has(s, t, k, m);
  }

  // ---------- the invariant ----------

  ghost function Committed(s: State, base: Store): Store {
    Replay(s.log, base)
  }

  /** The body of a running thread, run alone on the committed store for as many actions as it has taken. */
  ghost function Alone(s: State, base: Store, t: Thread): Local
    requires s.threads[t].phase.Running?
  {
    RunAlone(s.threads[t].phase.job.prog, Committed(s, base), |s.threads[t].phase.hist|)
  }

  ghost predicate Uncommitted(s: State, base: Store, t: Thread, x: Location) {
    s.threads[t].phase.Running? && x in Alone(s, base, t).writes
  }

  ghost predicate Pending(s: State, base: Store, x: Location) {
    exists t: Thread :: Uncommitted(s, base, t, x)
  }

  ghost predicate Logged(s: State, base: Store) {
    s.counter == |s.log| && LogReplays(s.log, base)
  }

  /** Every running body has seen exactly what it would have seen alone on the committed store. */
  ghost predicate Tracks(s: State, base: Store) {
    forall t: Thread :: s.threads[t].phase.Running? ==> Alone(s, base, t).hist == s.threads[t].phase.hist
  }

  /** The shared store is the committed one overlaid with what the running bodies wrote. */
  ghost predicate Overlaid(s: State, base: Store) {
    && (forall t: Thread, x :: Uncommitted(s, base, t, x) ==> s.store[x] == Alone(s, base, t).writes[x])
    && (forall x: Location :: !Pending(s, base, x) ==> s.store[x] == Committed(s, base)[x])
  }

  ghost predicate Serial(s: State, base: Store) {
    Logged(s, base) && Tracks(s, base) && Overlaid(s, base)
  }

  ghost predicate Consistent(s: State, base: Store) {
    Balanced(s) && Exclusive(s) && Serial(s, base)
  }

  lemma UncommittedIsLocked(s: State, base: Store, t: Thread, x: Location)
    requires Consistent(s, base) && Uncommitted(s, base, t, x)
    ensures Allows(s, t, x.guard, Write)
  {
    var job, hist := s.threads[t].phase.job, s.threads[t].phase.hist;
    var j := WritesArePuts(job.prog, Committed(s, base), |hist|, x);
    AccessIsLocked(s, t, j, x, Write);
  }

  /** No other body has written what `t` is about to access. */
  lemma NextAccessIsOwn(s: State, base: Store, t: Thread, u: Thread, x: Location, mode: Mode)
    requires Consistent(s, base) && t != u && s.threads[t].phase.Running?
    requires Accesses(s.threads[t].phase.job.prog(s.threads[t].phase.hist), x, mode)
    ensures !Uncommitted(s, base, u, x)
  {
    hide Balanced, Exclusive, Serial;
    if Uncommitted(s, base, u, x) {
      var hist := s.threads[t].phase.hist;
      UncommittedIsLocked(s, base, u, x);
      assert hist[..|hist|] == hist;
      AccessIsLocked(s, t, |hist|, x, mode);
      NoConflict(s, u, t, x.guard, mode);
    }
  }

  /** The value a body reads from shared memory is the one it would read alone. */
  lemma ReadIsSerial(s: State, base: Store, t: Thread, x: Location)
    requires Consistent(s, base) && s.threads[t].phase.Running?
    requires s.threads[t].phase.job.prog(s.threads[t].phase.hist) == Get(x)
    ensures
      var l := Alone(s, base, t);
      s.store[x] == if x in l.writes then l.writes[x] else Committed(s, base)[x]
  {
    if x in Alone(s, base, t).writes {
      assert Uncommitted(s, base, t, x);
    } else {
      forall u: Thread
        ensures !Uncommitted(s, base, u, x)
      {
        if u != t {
          NextAccessIsOwn(s, base, t, u, x, Read);
        }
      }
      assert !Pending(s, base, x);
    }
  }

  ghost predicate OthersAlike(s: State, t: Thread, s': State) {
    forall u: Thread :: u != t ==> s'.threads[u] == s.threads[u]
  }

  ghost predicate Ready(s: State, t: Thread, finish: bool) {
    s.threads[t].phase.Running? && s.threads[t].phase.job.prog(s.threads[t].phase.hist).Finish? == finish
  }

  /** What a step of a running body does to the shared state, lock counts aside. */
  ghost predicate BodyMoved(s: State, t: Thread, s': State)
    requires Ready(s, t, false)
  {
    var job, hist := s.threads[t].phase.job, s.threads[t].phase.hist;
    var action := job.prog(hist);
    && OthersAlike(s, t, s') && s'.log == s.log && s'.counter == s.counter
    && s'.threads[t].phase == Running(job, hist + [Result(s.store, Some(action))])
    && s'.store == if action.Put? then s.store[action.loc := action.value] else s.store
  }

  lemma BodyMoves(s: State, m: Move)
    requires Enabled(s, m) && Ready(s, m.thread, false)
    ensures BodyMoved(s, m.thread, Apply(s, m))
  {
  }

  lemma BodyStepTracks(s: State, base: Store, t: Thread, s': State)
    requires Consistent(s, base) && Ready(s, t, false) && BodyMoved(s, t, s')
    ensures Tracks(s', base)
    ensures Alone(s', base, t) == Act(s.threads[t].phase.job.prog, Committed(s, base), Alone(s, base, t))
  {
    hide Balanced, Exclusive, Logged, Overlaid;
    var job, hist := s.threads[t].phase.job, s.threads[t].phase.hist;
    var action := job.prog(hist);
    if action.Get? {
      ReadIsSerial(s, base, t, action.loc);
    }
    assert Alone(s', base, t) == Act(job.prog, Committed(s, base), Alone(s, base, t));
    forall u: Thread | s'.threads[u].phase.Running?
      ensures Alone(s', base, u).hist == s'.threads[u].phase.hist
    {
      assert s.threads[u].phase.Running?;
    }
  }

  lemma BodyStepLogged(s: State, base: Store, t: Thread, s': State)
    requires Logged(s, base) && Ready(s, t, false) && BodyMoved(s, t, s')
    ensures Logged(s', base)
  {
    hide LogReplays;
  }

  lemma OthersUncommittedAlike(s: State, base: Store, t: Thread, s': State, u: Thread, x: Location)
    requires Ready(s, t, false) && BodyMoved(s, t, s') && u != t
    ensures Uncommitted(s', base, u, x) == Uncommitted(s, base, u, x)
    ensures Uncommitted(s, base, u, x) ==> Alone(s', base, u) == Alone(s, base, u)
  {
  }

  /** What is written stays written until its body finishes. */
  lemma PendingGrows(s: State, base: Store, t: Thread, s': State, x: Location)
    requires Ready(s, t, false) && BodyMoved(s, t, s') && Pending(s, base, x)
    requires Alone(s', base, t) == Act(s.threads[t].phase.job.prog, Committed(s, base), Alone(s, base, t))
    ensures Pending(s', base, x)
  {
    var u: Thread :| Uncommitted(s, base, u, x);
    if u != t {
      OthersUncommittedAlike(s, base, t, s', u, x);
    }
    assert Uncommitted(s', base, u, x);
  }

  /** A step of its body adds to what `t` has written at most what the step puts. */
  lemma OwnWrites(s: State, base: Store, t: Thread, s': State, x: Location)
    requires Tracks(s, base) && Ready(s, t, false) && BodyMoved(s, t, s')
    requires Alone(s', base, t) == Act(s.threads[t].phase.job.prog, Committed(s, base), Alone(s, base, t))
    ensures
      var action := s.threads[t].phase.job.prog(s.threads[t].phase.hist);
      if action.Put? && action.loc == x then
        Uncommitted(s', base, t, x) && Alone(s', base, t).writes[x] == action.value
      else
        && Uncommitted(s', base, t, x) == Uncommitted(s, base, t, x)
        && (Uncommitted(s, base, t, x) ==> Alone(s', base, t).writes[x] == Alone(s, base, t).writes[x])
  {
    hide RunAlone, Replay;
  }

  lemma BodyStepOverlaid(s: State, base: Store, t: Thread, s': State)
    requires Consistent(s, base) && Ready(s, t, false) && BodyMoved(s, t, s')
    requires Tracks(s', base)
    requires Alone(s', base, t) == Act(s.threads[t].phase.job.prog, Committed(s, base), Alone(s, base, t))
    ensures Overlaid(s', base)
  {
    hide Balanced, Exclusive, Logged, Tracks, Alone, Act, Replay;
    var action := s.threads[t].phase.job.prog(s.threads[t].phase.hist);
    forall u: Thread, x: Location | Uncommitted(s', base, u, x)
      ensures s'.store[x] == Alone(s', base, u).writes[x]
    {
      if u != t {
        OthersUncommittedAlike(s, base, t, s', u, x);
        if action.Put? && action.loc == x {
          NextAccessIsOwn(s, base, t, u, x, Write);
        }
      } else {
        OwnWrites(s, base, t, s', x);
      }
    }
    forall x: Location | !Pending(s', base, x)
      ensures s'.store[x] == Committed(s', base)[x]
    {
      assert !Uncommitted(s', base, t, x);
      OwnWrites(s, base, t, s', x);
      if Pending(s, base, x) {
        PendingGrows(s, base, t, s', x);
      }
    }
  }

  /** Committing `t` does not change what another running body has seen. */
  lemma CommitKeepsOthers(s: State, base: Store, t: Thread, u: Thread)
    requires Consistent(s, base) && t != u && s.threads[t].phase.Running? && s.threads[u].phase.Running?
    ensures
      RunAlone(s.threads[u].phase.job.prog, Overlay(Committed(s, base), Alone(s, base, t).writes),
               |s.threads[u].phase.hist|)
      == Alone(s, base, u)
  {
    var prog, hist := s.threads[u].phase.job.prog, s.threads[u].phase.hist;
    var before, writes := Committed(s, base), Alone(s, base, t).writes;
    forall i: nat, x | GetsAt(prog, hist, i, x)
      ensures before[x] == Overlay(before, writes)[x]
    {
      if x in writes {
        assert Uncommitted(s, base, t, x);
        UncommittedIsLocked(s, base, t, x);
        AccessIsLocked(s, u, i, x, Read);
        NoConflict(s, t, u, x.guard, Read);
      }
    }
    RunAloneFrame(prog, before, Overlay(before, writes), |hist|);
  }

  ghost predicate BodyFinished(s: State, t: Thread, s': State)
    requires Ready(s, t, true)
  {
    var job, hist := s.threads[t].phase.job, s.threads[t].phase.hist;
    && OthersAlike(s, t, s') && s'.store == s.store && !s'.threads[t].phase.Running?
    && s'.log == s.log + [Entry(t, job, |hist|, job.prog(hist).outcome, s.counter)] && s'.counter == s.counter + 1
  }

  lemma BodyFinishes(s: State, m: Move)
    requires Enabled(s, m) && Ready(s, m.thread, true)
    ensures BodyFinished(s, m.thread, Apply(s, m))
  {
  }

  /** The step that takes the timestamp commits the body. */
  lemma FinishLogged(s: State, base: Store, t: Thread, s': State)
    requires Logged(s, base) && Tracks(s, base) && Ready(s, t, true) && BodyFinished(s, t, s')
    ensures Logged(s', base)
    ensures Committed(s', base) == Overlay(Committed(s, base), Alone(s, base, t).writes)
  {
    var n := |s.log|;
    assert s'.log[..n] == s.log;
    forall i | 0 <= i < |s'.log|
      ensures s'.log[i].timestamp == i && ReplaysAs(s'.log[i], Replay(s'.log[..i], base))
    {
      if i < n {
        assert s'.log[..i] == s.log[..i] && s'.log[i] == s.log[i];
      }
    }
  }

  lemma FinishTracks(s: State, base: Store, t: Thread, s': State, u: Thread)
    requires Consistent(s, base) && Ready(s, t, true) && BodyFinished(s, t, s')
    requires Committed(s', base) == Overlay(Committed(s, base), Alone(s, base, t).writes)
    requires s'.threads[u].phase.Running?
    ensures u != t && s.threads[u].phase.Running? && Alone(s', base, u) == Alone(s, base, u)
  {
    CommitKeepsOthers(s, base, t, u);
  }

  lemma OthersStayPending(s: State, base: Store, t: Thread, s': State, x: Location)
    requires Ready(s, t, true) && BodyFinished(s, t, s') && Pending(s, base, x) && !Uncommitted(s, base, t, x)
    requires forall u: Thread :: s'.threads[u].phase.Running? ==>
               s.threads[u].phase.Running? && Alone(s', base, u) == Alone(s, base, u)
    ensures Pending(s', base, x)
  {
    hide RunAlone, Replay;
    var u: Thread :| Uncommitted(s, base, u, x);
    assert Uncommitted(s', base, u, x);
  }

  lemma FinishOverlaid(s: State, base: Store, t: Thread, s': State)
    requires Consistent(s, base) && Ready(s, t, true) && BodyFinished(s, t, s')
    requires Committed(s', base) == Overlay(Committed(s, base), Alone(s, base, t).writes)
    requires forall u: Thread :: s'.threads[u].phase.Running? ==>
               s.threads[u].phase.Running? && Alone(s', base, u) == Alone(s, base, u)
    ensures Overlaid(s', base)
  {
    hide Balanced, Exclusive, Logged, Tracks, RunAlone, Replay, Act;
    forall u: Thread, x: Location | Uncommitted(s', base, u, x)
      ensures s'.store[x] == Alone(s', base, u).writes[x]
    {
      assert Uncommitted(s, base, u, x);
    }
    forall x: Location | !Pending(s', base, x)
      ensures s'.store[x] == Committed(s', base)[x]
    {
      if !Uncommitted(s, base, t, x) && Pending(s, base, x) {
        OthersStayPending(s, base, t, s', x);
      }
    }
  }

  ghost predicate OuterMoved(s: State, t: Thread, s': State) {
    && OthersAlike(s, t, s') && s'.store == s.store && s'.log == s.log && s'.counter == s.counter
    && (s'.threads[t].phase.Running? ==> s'.threads[t].phase.hist == [])
  }

  lemma OuterMoves(s: State, m: Move)
    requires Enabled(s, m) && !s.threads[m.thread].phase.Running?
    ensures OuterMoved(s, m.thread, Apply(s, m))
  {
  }

  lemma OuterKeepsAlone(s: State, base: Store, t: Thread, s': State, u: Thread)
    requires !s.threads[t].phase.Running? && OuterMoved(s, t, s')
    ensures Committed(s', base) == Committed(s, base)
    ensures u != t ==> s'.threads[u] == s.threads[u]
    ensures forall x: Location :: Uncommitted(s', base, u, x) == Uncommitted(s, base, u, x)
  {
    hide Replay, Act;
  }

  /** A step outside the bodies: a lock or unlock call, or the start of a job. */
  lemma OuterStepSerial(s: State, base: Store, t: Thread, s': State)
    requires Serial(s, base) && !s.threads[t].phase.Running? && OuterMoved(s, t, s')
    ensures Serial(s', base)
  {
    hide Replay, Act, Overlaid;
    OuterKeepsAlone(s, base, t, s', t);
    OuterKeepsOverlay(s, base, t, s');
  }

  lemma OuterKeepsOverlay(s: State, base: Store, t: Thread, s': State)
    requires Overlaid(s, base) && !s.threads[t].phase.Running? && OuterMoved(s, t, s')
    ensures Overlaid(s', base)
  {
    hide Replay, Act;
    forall u: Thread, x: Location | Uncommitted(s', base, u, x)
      ensures s'.store[x] == Alone(s', base, u).writes[x]
    {
      OuterKeepsAlone(s, base, t, s', u);
      assert u != t;
    }
    forall x: Location | !Pending(s', base, x)
      ensures s'.store[x] == Committed(s', base)[x]
    {
      if Pending(s, base, x) {
        var u: Thread :| Uncommitted(s, base, u, x);
        OuterKeepsAlone(s, base, t, s', u);
      }
      OuterKeepsAlone(s, base, t, s', t);
    }
  }

  lemma FinishStepSerial(s: State, base: Store, t: Thread, s': State)
    requires Consistent(s, base) && Ready(s, t, true) && BodyFinished(s, t, s')
    ensures Serial(s', base)
  {
    hide Balanced, Exclusive, Logged, Overlaid, Alone;
    FinishLogged(s, base, t, s');
    forall u: Thread | s'.threads[u].phase.Running?
      ensures s.threads[u].phase.Running? && Alone(s', base, u) == Alone(s, base, u)
      ensures s'.threads[u] == s.threads[u]
    {
      FinishTracks(s, base, t, s', u);
    }
    FinishOverlaid(s, base, t, s');
  }

  lemma StepConsistent(s: State, base: Store, m: Move)
    requires Consistent(s, base) && Enabled(s, m)
    ensures Consistent(Apply(s, m), base)
  {
    hide Balanced, Exclusive, Logged, Tracks, Overlaid, BodyFinished, BodyMoved, OuterMoved, Alone, Apply;
    var s', t := Apply(s, m), m.thread;
    StepKeepsBalance(s, m);
    StepKeepsExclusive(s, m);
    if Ready(s, t, true) {
      BodyFinishes(s, m);
      FinishStepSerial(s, base, t, s');
    } else if Ready(s, t, false) {
      BodyMoves(s, m);
      BodyStepTracks(s, base, t, s');
      BodyStepOverlaid(s, base, t, s');
      BodyStepLogged(s, base, t, s');
    } else {
      OuterMoves(s, m);
      OuterStepSerial(s, base, t, s');
    }
  }

  lemma {:induction false} RunConsistent(s: State, base: Store, run: seq<Move>, s': State)
    requires Consistent(s, base) && Leads(s, run, s')
    ensures Consistent(s', base)
    decreases |run|
  {
    if run != [] {
      StepConsistent(s, base, run[0]);
      RunConsistent(Apply(s, run[0]), base, run[1..], s');
    }
  }

  lemma InitialConsistent(s: State)
    requires Initial(s)
    ensures Consistent(s, s.store)
  {
    forall t: Thread
      ensures ThreadOk(s.levels, s.threads[t]) && !s.threads[t].phase.Running?
    {
      assert s.threads[t] == ThreadState(Idle, {}, {});
    }
    forall t: Thread, lock: Lock, mode: Mode
      ensures Count(s, t, lock, mode) == 0
    {
    }
  }

  /** Serialisability in timestamp order, for every run from an initial state: re-running the logged operations
      one by one in the order of their timestamps gives each of them the outcome it had in the run, and once no
      body is running the shared store is the one the sequential re-run ends in. */
  lemma TimestampOrderIsSerial(s: State, run: seq<Move>, s': State)
    requires Initial(s) && Leads(s, run, s')
    ensures LogReplays(s'.log, s.store) && s'.counter == |s'.log|
    ensures (forall t: Thread :: !s'.threads[t].phase.Running?) ==> s'.store == Replay(s'.log, s.store)
  {
    hide Initial, Leads, Balanced, Exclusive, Tracks, LogReplays, Replay, RunAlone;
    InitialConsistent(s);
    RunConsistent(s, s.store, run, s');
    if forall t: Thread :: !s'.threads[t].phase.Running? {
      forall x: Location
        ensures s'.store[x] == Replay(s'.log, s.store)[x]
      {
        assert !Pending(s', s.store, x);
      }
    }
  }
}
