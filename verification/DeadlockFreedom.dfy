/** Under the medium-grained executor no run gets stuck, and a finished operation leaves no lock behind. */
module DeadlockFreedom {
  import opened LockTable
  import opened LockProtocol
  import opened Serializability

  /** When a lock call is sure to go through: the lock is free for it, and a thread that does not yet hold the
      lock does not overtake a writer that waits for it (a non-fair lock may make such a reader queue up). */
  ghost predicate Granted(s: State, t: Thread, r: Request) {
    && CanGrant(s, t, r)
    && (r.mode.Read? && !Has(s, t, r.lock, Read) && !Has(s, t, r.lock, Write) ==>
          forall u: Thread :: u != t ==> Wanted(s.levels, s.threads[u]) != Some(Request(r.lock, Write)))
  }

  /** A thread that is sure to take its next step when it is scheduled. */
  ghost predicate CanStep(s: State, t: Thread) {
    Enabled(s, Advance(t)) &&
    (Wanted(s.levels, s.threads[t]).Some? ==> Granted(s, t, Wanted(s.levels, s.threads[t]).value))
  }

  ghost predicate HoldsOnlyBelow(s: State, t: Thread, lock: Lock) {
    forall k: Lock, m: Mode :: Has(s, t, k, m) ==> Rank(k, s.levels) < Rank(lock, s.levels)
  }

  /** First acquisitions climb the locking order: pre-locked locks. */
  lemma AcquiringClimbs(s: State, t: Thread)
    requires Balanced(s) && s.threads[t].phase.Acquiring? && Wanted(s.levels, s.threads[t]).Some?
    ensures HoldsOnlyBelow(s, t, Wanted(s.levels, s.threads[t]).value.lock)
  {
    var ts := s.threads[t];
    var locks, next := LocksToAcquire(ts.phase.job.op, s.levels), ts.phase.next;
    TableFollowsLockingOrder(ts.phase.job.op, s.levels);
    forall k: Lock, m: Mode | Has(s, t, k, m)
      ensures Rank(k, s.levels) < Rank(locks[next].lock, s.levels)
    {
      assert s.holds[Hold(t, Request(k, m))] == Expected(s.levels, ts, Request(k, m));
      var i :| 0 <= i < next && locks[i] == Request(k, m);
    }
  }

  ghost predicate WantsLevel(s: State, t: Thread, level: nat, mode: Mode) {
    && s.threads[t].phase.Running? && Wanted(s.levels, s.threads[t]) == Some(Request(AssemblyLevel(level), mode))
    && MayLockLevel(s.threads[t].phase.job.op, level, mode, s.levels)
    && !AlreadyAcquired(s.threads[t], level, mode)
  }

  lemma RunningWants(s: State, t: Thread) returns (level: nat, mode: Mode)
    requires Balanced(s) && s.threads[t].phase.Running? && Wanted(s.levels, s.threads[t]).Some?
    ensures WantsLevel(s, t, level, mode)
  {
    var job, hist := s.threads[t].phase.job, s.threads[t].phase.hist;
    assert ThreadOk(s.levels, s.threads[t]);
    assert MayAct(job, s.levels, job.prog(hist), Locked(job.prog, hist));
    level, mode := job.prog(hist).level, job.prog(hist).mode;
  }

  /** First acquisitions climb the locking order: a level taken inside the body is the first lock above the
      global structure lock, unless it was pre-locked. */
  lemma LevelClimbs(s: State, t: Thread, level: nat, mode: Mode)
    requires Balanced(s) && WantsLevel(s, t, level, mode) && !Has(s, t, AssemblyLevel(level), mode)
    ensures HoldsOnlyBelow(s, t, AssemblyLevel(level))
  {
    var ts := s.threads[t];
    var job := ts.phase.job;
    var r := Request(AssemblyLevel(level), mode);
    assert ThreadOk(s.levels, ts) && s.holds[Hold(t, r)] == Expected(s.levels, ts, r);
    var locked := Locked(job.prog, ts.phase.hist);
    assert MayAct(job, s.levels, job.prog(ts.phase.hist), locked);
    LevelLocksReentrantOrAlone(job.op, level, mode, s.levels);
    forall k: Lock, m: Mode | Has(s, t, k, m)
      ensures Rank(k, s.levels) < Rank(AssemblyLevel(level), s.levels)
    {
      assert s.holds[Hold(t, Request(k, m))] == Expected(s.levels, ts, Request(k, m));
      if LevelHeld(ts, Request(k, m)) {
        OnlyThatLevel(job.op, s.levels, locked, ts, k, m, level, mode);
        assert false;
      }
    }
  }

  /** Operations that keep to one level ask for it in one mode only. */
  lemma OnlyThatLevel(op: OperationId, levels: nat, locked: set<Request>, ts: ThreadState, k: Lock, m: Mode,
                      level: nat, mode: Mode)
    requires KeepsToOneLevel(op) && MayLockLevel(op, level, mode, levels)
    requires forall r :: r in locked ==> r.lock == AssemblyLevel(level)
    requires FlagsAsked(locked, ts) && LevelHeld(ts, Request(k, m)) && MayLockLevel(op, k.level, m, levels)
    ensures k == AssemblyLevel(level) && m == mode
  {
    assert Request(k, m) in locked;
  }

  /** Taking a held lock again in the same mode never blocks. */
  lemma ReentrantIsGranted(s: State, t: Thread, r: Request)
    requires Exclusive(s) && Has(s, t, r.lock, r.mode)
    ensures Granted(s, t, r)
  {
    forall u: Thread | u != t
      ensures Count(s, u, r.lock, Write) == 0
      ensures r.mode.Write? ==> Count(s, u, r.lock, Read) == 0
    {
      assert Count(s, u, r.lock, Write) > 0 ==> Count(s, t, r.lock, r.mode) == 0;
    }
  }

  /** A thread that cannot step waits for a lock above all it holds. */
  lemma BlockedClimbs(s: State, t: Thread)
    requires Balanced(s) && Exclusive(s) && !s.threads[t].phase.Idle? && !CanStep(s, t)
    ensures Wanted(s.levels, s.threads[t]).Some?
    ensures HoldsOnlyBelow(s, t, Wanted(s.levels, s.threads[t]).value.lock)
  {
    var ts := s.threads[t];
    if Dropped(s.levels, ts).Some? {
      DropsAreHeld(s, t);
    }
    if ts.phase.Acquiring? {
      AcquiringClimbs(s, t);
    } else {
      var level, mode := RunningWants(s, t);
      if Has(s, t, AssemblyLevel(level), mode) {
        ReentrantIsGranted(s, t, Request(AssemblyLevel(level), mode));
      } else {
        LevelClimbs(s, t, level, mode);
      }
    }
  }

  /** What a blocked thread waits for: another thread holds the lock, or waits to write-lock it. */
  lemma Blocker(s: State, t: Thread) returns (u: Thread, held: bool)
    requires Balanced(s) && Exclusive(s) && !s.threads[t].phase.Idle? && !CanStep(s, t)
    ensures Wanted(s.levels, s.threads[t]).Some?
    ensures var r := Wanted(s.levels, s.threads[t]).value;
      if held then exists m: Mode :: Has(s, u, r.lock, m)
      else r.mode.Read? && Wanted(s.levels, s.threads[u]) == Some(Request(r.lock, Write))
  {
    BlockedClimbs(s, t);
    var r := Wanted(s.levels, s.threads[t]).value;
    assert !Has(s, t, r.lock, Read) && !Has(s, t, r.lock, Write);
    if CanGrant(s, t, r) {
      held := false;
      u :| u != t && Wanted(s.levels, s.threads[u]) == Some(Request(r.lock, Write));
    } else {
      held := true;
      if u': Thread :| u' != t && Count(s, u', r.lock, Write) != 0 {
        u := u';
        assert Has(s, u, r.lock, Write);
      } else {
        u :| u != t && Count(s, u, r.lock, Read) != 0;
        assert Has(s, u, r.lock, Read);
      }
    }
  }

  lemma HolderIsBusy(s: State, t: Thread, lock: Lock, mode: Mode)
    requires Balanced(s) && Has(s, t, lock, mode)
    ensures !s.threads[t].phase.Idle?
  {
    assert s.holds[Hold(t, Request(lock, mode))] == Expected(s.levels, s.threads[t], Request(lock, mode));
  }

  lemma RankBound(lock: Lock, levels: nat)
    requires levels >= 2
    ensures Rank(lock, levels) <= 6 + levels
  {
  }

  ghost function Waiting(s: State, t: Thread): nat
    requires s.levels >= 2
  {
    var w := Wanted(s.levels, s.threads[t]);
    if w.None? then 0
    else
      RankBound(w.value.lock, s.levels);
      2 * (7 + s.levels - Rank(w.value.lock, s.levels)) + if w.value.mode.Read? then 1 else 0
  }

  /** From a blocked thread, the chain of blockers leads to a thread that can step. */
  lemma {:induction false} ChainEnds(s: State, t: Thread) returns (u: Thread)
    requires Balanced(s) && Exclusive(s) && !s.threads[t].phase.Idle?
    ensures CanStep(s, u)
    decreases if CanStep(s, t) then 0 else 1, Waiting(s, t)
  {
    if CanStep(s, t) {
      u := t;
    } else {
      var v, held := Blocker(s, t);
      var r := Wanted(s.levels, s.threads[t]).value;
      if held {
        var m: Mode :| Has(s, v, r.lock, m);
        HolderIsBusy(s, v, r.lock, m);
        if !CanStep(s, v) {
          BlockedClimbs(s, v);
          assert Rank(r.lock, s.levels) < Rank(Wanted(s.levels, s.threads[v]).value.lock, s.levels);
        }
      }
      u := ChainEnds(s, v);
    }
  }

  lemma {:induction false} RunKeepsLocks(s: State, run: seq<Move>, s': State)
    requires Balanced(s) && Exclusive(s) && Leads(s, run, s')
    ensures Balanced(s') && Exclusive(s')
    decreases |run|
  {
    if run != [] {
      StepKeepsBalance(s, run[0]);
      StepKeepsExclusive(s, run[0]);
      RunKeepsLocks(Apply(s, run[0]), run[1..], s');
    }
  }

  /** Deadlock freedom: in every reachable state with an unfinished operation some thread can take its next step. */
  lemma NoDeadlock(s: State, run: seq<Move>, s': State, t: Thread)
    requires Initial(s) && Leads(s, run, s') && !s'.threads[t].phase.Idle?
    ensures exists u: Thread :: CanStep(s', u)
  {
    InitialConsistent(s);
    RunKeepsLocks(s, run, s');
    var u := ChainEnds(s', t);
  }

  /** Lock balance: in every reachable state a thread between two operations holds no lock and has no flag set,
      and every unlock call finds its lock held. */
  lemma FinishedHoldsNothing(s: State, run: seq<Move>, s': State, t: Thread)
    requires Initial(s) && Leads(s, run, s')
    ensures s'.threads[t].phase.Idle? ==>
      s'.threads[t] == ThreadState(Idle, {}, {}) && forall r: Request :: s'.holds[Hold(t, r)] == 0
    ensures Dropped(s'.levels, s'.threads[t]).Some? ==>
      s'.holds[Hold(t, Dropped(s'.levels, s'.threads[t]).value)] > 0
  {
    InitialConsistent(s);
    RunKeepsLocks(s, run, s');
    assert ThreadOk(s'.levels, s'.threads[t]);
    if Dropped(s'.levels, s'.threads[t]).Some? {
      DropsAreHeld(s', t);
    }
  }
}
