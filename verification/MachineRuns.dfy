/** Bodies that are state machines: what they do alone, and with the serialisability of all runs in any run. */
module MachineRuns {
  import opened LockProtocol
  import opened Serializability
  import opened OperationBodies

  // ---------- a state machine that runs alone ----------

  datatype Config<S> = Config(state: S, writes: map<Location, int>)

  ghost function Seen(base: Store, writes: map<Location, int>, loc: Location): int {
    if loc in writes then writes[loc] else base[loc]
  }

  ghost function Next<S>(m: Machine<S>, base: Store, c: Config<S>): Config<S> {
    match m.act(c.state)
    case LockLevel(_, _) => Config(m.step(c.state, 0), c.writes)
    case Get(loc) => Config(m.step(c.state, Seen(base, c.writes, loc)), c.writes)
    case Put(loc, value) => Config(m.step(c.state, 0), c.writes[loc := value])
    case Finish(_) => c
  }

  ghost function Steps<S>(m: Machine<S>, base: Store, c: Config<S>, n: nat): Config<S> {
    if n == 0 then c else Next(m, base, Steps(m, base, c, n - 1))
  }

  lemma {:induction false} StepsTwice<S>(m: Machine<S>, base: Store, c: Config<S>, a: nat, b: nat)
    ensures Steps(m, base, Steps(m, base, c, a), b) == Steps(m, base, c, a + b)
  {
    hide Next;
    if b > 0 {
      StepsTwice(m, base, c, a, b - 1);
    }
  }

  lemma StepsFirst<S>(m: Machine<S>, base: Store, c: Config<S>, n: nat)
    requires n > 0
    ensures Steps(m, base, c, n) == Steps(m, base, Next(m, base, c), n - 1)
  {
    hide Next;
    StepsTwice(m, base, c, 1, n - 1);
    assert Steps(m, base, c, 1) == Next(m, base, Steps(m, base, c, 0));
  }

  lemma NoSteps<S>(m: Machine<S>, base: Store, c: Config<S>)
    ensures Steps(m, base, c, 0) == c
  {
  }

  ghost predicate Alike<S>(m: Machine<S>, l: Local, c: Config<S>) {
    StateAfter(m, l.hist) == c.state && l.writes == c.writes
  }

  lemma HistoryGrows<S>(m: Machine<S>, hist: seq<int>, result: int)
    ensures StateAfter(m, hist + [result]) == m.step(StateAfter(m, hist), result)
  {
    assert (hist + [result])[..|hist|] == hist;
  }

  lemma StaysAlike<S>(m: Machine<S>, base: Store, l: Local, c: Config<S>)
    requires Alike(m, l, c)
    ensures Alike(m, Act(ProgramOf(m), base, l), Next(m, base, c))
  {
    hide StateAfter;
    assert ProgramOf(m)(l.hist) == m.act(c.state);
    match m.act(c.state)
    case Get(loc) => HistoryGrows(m, l.hist, Seen(base, c.writes, loc));
    case _ => HistoryGrows(m, l.hist, 0);
  }

  /** The machine's program, run alone, goes through the configurations of the machine. */
  lemma {:induction false} RunsAsMachine<S>(m: Machine<S>, base: Store, n: nat)
    ensures Alike(m, RunAlone(ProgramOf(m), base, n), Steps(m, base, Config(m.init, map[]), n))
  {
    hide Act, Next, ProgramOf;
    if n > 0 {
      RunsAsMachine(m, base, n - 1);
      StaysAlike(m, base, RunAlone(ProgramOf(m), base, n - 1), Steps(m, base, Config(m.init, map[]), n - 1));
    }
  }

  // ---------- from one configuration to another ----------

  ghost predicate Reaches<S(!new)>(m: Machine<S>, base: Store, c: Config<S>, d: Config<S>) {
    exists n: nat :: Steps(m, base, c, n) == d
  }

  lemma ReachesItself<S(!new)>(m: Machine<S>, base: Store, c: Config<S>)
    ensures Reaches(m, base, c, c)
  {
    NoSteps(m, base, c);
  }

  lemma ReachesNext<S(!new)>(m: Machine<S>, base: Store, c: Config<S>, d: Config<S>, e: Config<S>)
    requires Next(m, base, c) == d && Reaches(m, base, d, e)
    ensures Reaches(m, base, c, e)
  {
    hide Next;
    var n: nat :| Steps(m, base, d, n) == e;
    StepsFirst(m, base, c, n + 1);
    assert Steps(m, base, c, n + 1) == e;
  }

  lemma ReachesFurther<S(!new)>(m: Machine<S>, base: Store, c: Config<S>, d: Config<S>, e: Config<S>)
    requires Reaches(m, base, c, d) && Reaches(m, base, d, e)
    ensures Reaches(m, base, c, e)
  {
    hide Next;
    var a: nat :| Steps(m, base, c, a) == d;
    var b: nat :| Steps(m, base, d, b) == e;
    StepsTwice(m, base, c, a, b);
    assert Steps(m, base, c, a + b) == e;
  }

  // ---------- in any run ----------

  lemma EntryReplays(log: seq<Entry>, base: Store, i: nat)
    requires LogReplays(log, base) && i < |log|
    ensures ReplaysAs(log[i], Replay(log[..i], base))
    ensures Replay(log[..i + 1], base) ==
            Overlay(Replay(log[..i], base), RunAlone(log[i].job.prog, Replay(log[..i], base), log[i].steps).writes)
  {
    assert log[..i + 1][..i] == log[..i];
  }

  lemma SameEnd(prog: Program, base: Store, n: nat, m: nat)
    requires prog(RunAlone(prog, base, n).hist).Finish? && prog(RunAlone(prog, base, m).hist).Finish?
    ensures RunAlone(prog, base, n) == RunAlone(prog, base, m)
  {
    if n <= m {
      FinishIsStable(prog, base, n, m);
    } else {
      FinishIsStable(prog, base, m, n);
    }
  }

  /** What a body reaches alone, on the store that the operations with earlier timestamps leave behind, it reports and
      leaves behind in any run. */
  lemma MachineInAnyRun<S(!new)>(s: State, run: seq<Move>, s': State, i: nat, m: Machine<S>, final: Config<S>)
    requires Initial(s) && Leads(s, run, s')
    requires i < |s'.log| && s'.log[i].job.prog == ProgramOf(m)
    requires Reaches(m, Replay(s'.log[..i], s.store), Config(m.init, map[]), final) && m.act(final.state).Finish?
    ensures m.act(final.state) == Finish(s'.log[i].outcome)
    ensures Replay(s'.log[..i + 1], s.store) == Overlay(Replay(s'.log[..i], s.store), final.writes)
  {
    hide Initial, Leads, RunAlone, Replay, LogReplays, StateAfter;
    var prog, before, n := ProgramOf(m), Replay(s'.log[..i], s.store), s'.log[i].steps;
    TimestampOrderIsSerial(s, run, s');
    EntryReplays(s'.log, s.store, i);
    var steps: nat :| Steps(m, before, Config(m.init, map[]), steps) == final;
    RunsAsMachine(m, before, steps);
    SameEnd(prog, before, n, steps);
  }
}
