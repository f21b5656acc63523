/** What OP6 and OP12 do when they run alone: with the serialisability of all runs, that is what they do in any run. */
module SiblingVisits {
  import opened LockTable
  import opened LockProtocol
  import opened Serializability
  import opened OperationBodies
  import opened MachineRuns
  import opened StoredDesign

  // ---------- the siblings as the store has them ----------

  /** The children of `s` are different assemblies at one level of the tree. */
  ghost predicate ChildrenFit(levels: nat, base: Store, s: int) {
    && 0 <= Children(base, s)
    && (forall i :: 0 <= i < Children(base, s) ==>
          2 <= LevelOf(base, Child(base, s, i)) <= levels && LevelOf(base, Child(base, s, i)) == LevelOf(base, Child(base, s, 0)))
    && (forall i, j :: 0 <= i < j < Children(base, s) ==> Child(base, s, i) != Child(base, s, j))
  }

  /** What an assembly that is found looks like in a design. */
  ghost predicate Fits(levels: nat, base: Store, id: int) {
    var c := Found(base, id);
    c != 0 ==> if SuperOf(base, c) == 0 then 2 <= LevelOf(base, c) <= levels else ChildrenFit(levels, base, SuperOf(base, c))
  }

  ghost predicate Visited(base: Store, id: int, a: int) {
    var c := Found(base, id);
    c != 0 && if SuperOf(base, c) == 0 then a == c else IsChild(base, SuperOf(base, c), Children(base, SuperOf(base, c)), a)
  }

  ghost predicate IsChild(base: Store, s: int, k: int, a: int) {
    exists i :: 0 <= i < k && Child(base, s, i) == a
  }

  ghost function VisitOutcome(base: Store, id: int): Outcome {
    var c := Found(base, id);
    if c == 0 then Failed else if SuperOf(base, c) == 0 then Returned(1) else Returned(Children(base, SuperOf(base, c)))
  }

  /** The writes of a visit of an assembly at this level. */
  ghost function AfterOne(base: Store, mode: Mode, writes: map<Location, int>, a: int, level: nat): map<Location, int> {
    if mode.Write? then writes[DateAt(level, a) := Updated(base[DateAt(level, a)])] else writes
  }

  function VisitLength(mode: Mode): nat { if mode.Write? then 4 else 2 }

  /** What the single actions of a visit lead to. */
  lemma NextInVisit(levels: nat, id: int, mode: Mode, base: Store, a: int, level: nat, rest: Rest,
                    writes: map<Location, int>)
    requires InStructure(a, Level, 0) !in writes && DateAt(level, a) !in writes
    requires 2 <= level <= levels && level == LevelOf(base, a)
    requires rest.Among? && rest.home != 0 ==> rest.home == level
    ensures var m := Siblings(levels, id, mode);
      && Next(m, base, Config(AskLevel(a, rest), writes)) == Config(Visit.Lock(a, level, rest), writes)
      && Next(m, base, Config(Visit.Lock(a, level, rest), writes)) ==
         Config(if mode.Write? then ReadDate(a, level, rest) else AfterVisit(rest, level), writes)
      && Next(m, base, Config(ReadDate(a, level, rest), writes)) ==
         Config(WriteDate(a, level, base[DateAt(level, a)], rest), writes)
      && Next(m, base, Config(WriteDate(a, level, base[DateAt(level, a)], rest), writes)) ==
         Config(AfterVisit(rest, level), writes[DateAt(level, a) := Updated(base[DateAt(level, a)])])
  {
    hide AfterVisit, Updated;
  }

  /** One visit: the level, its lock and, for OP12, the date. */
  lemma VisitOne(levels: nat, id: int, mode: Mode, base: Store, a: int, rest: Rest, writes: map<Location, int>)
    requires InStructure(a, Level, 0) !in writes && 2 <= LevelOf(base, a) <= levels
    requires DateAt(LevelOf(base, a), a) !in writes
    requires rest.Among? && rest.home != 0 ==> rest.home == LevelOf(base, a)
    ensures Steps(Siblings(levels, id, mode), base, Config(AskLevel(a, rest), writes), VisitLength(mode)) ==
            Config(AfterVisit(rest, LevelOf(base, a)), AfterOne(base, mode, writes, a, LevelOf(base, a)))
  {
    hide Next, Steps, Siblings, AfterVisit, Updated;
    var m, level := Siblings(levels, id, mode), LevelOf(base, a);
    NextInVisit(levels, id, mode, base, a, level, rest, writes);
    var c, c1 := Config(AskLevel(a, rest), writes), Config(Visit.Lock(a, level, rest), writes);
    StepsFirst(m, base, c, VisitLength(mode));
    StepsFirst(m, base, c1, VisitLength(mode) - 1);
    if mode.Write? {
      var c2 := Config(ReadDate(a, level, rest), writes);
      var c3 := Config(WriteDate(a, level, base[DateAt(level, a)], rest), writes);
      StepsFirst(m, base, c2, 2);
      StepsFirst(m, base, c3, 1);
    }
    NoSteps(m, base, Config(AfterVisit(rest, level), AfterOne(base, mode, writes, a, level)));
  }

  /** The writes for the first `k` children. */
  ghost function ChildDates(base: Store, mode: Mode, s: int, level: nat, k: nat): map<Location, int> {
    if k == 0 then map[] else AfterOne(base, mode, ChildDates(base, mode, s, level, k - 1), Child(base, s, k - 1), level)
  }

  lemma {:induction false} ChildDatesAre(base: Store, mode: Mode, s: int, level: nat, k: nat, x: Location)
    ensures x in ChildDates(base, mode, s, level, k) <==>
      mode.Write? && x == DateAt(level, x.cell.owner) && IsChild(base, s, k, x.cell.owner)
    ensures x in ChildDates(base, mode, s, level, k) ==> ChildDates(base, mode, s, level, k)[x] == Updated(base[x])
  {
    if k > 0 {
      ChildDatesAre(base, mode, s, level, k - 1, x);
      var a := x.cell.owner;
      assert IsChild(base, s, k, a) <==> IsChild(base, s, k - 1, a) || Child(base, s, k - 1) == a by {
        if IsChild(base, s, k, a) && Child(base, s, k - 1) != a {
          var i :| 0 <= i < k && Child(base, s, i) == a;
          assert IsChild(base, s, k - 1, a);
        }
        if IsChild(base, s, k - 1, a) {
          var i :| 0 <= i < k - 1 && Child(base, s, i) == a;
          assert 0 <= i < k && Child(base, s, i) == a;
        }
      }
    }
  }

  ghost function HomeAfter(k: nat, level: nat): int { if k == 0 then 0 else level }

  lemma NextSiblingFound(levels: nat, id: int, mode: Mode, base: Store, rest: Rest, writes: map<Location, int>)
    requires rest.Among? && rest.i < rest.count && InStructure(rest.super, SubAssembly, rest.i) !in writes
    ensures Next(Siblings(levels, id, mode), base, Config(NextSibling(rest), writes)) ==
            Config(AskLevel(Child(base, rest.super, rest.i), rest), writes)
  {
  }

  lemma VisitNext(levels: nat, id: int, mode: Mode, base: Store, s: int, n: int, level: nat, k: nat)
    requires n == Children(base, s) && ChildrenFit(levels, base, s) && k < n && level == LevelOf(base, Child(base, s, 0))
    ensures Steps(Siblings(levels, id, mode), base,
                  Config(NextSibling(Among(s, n, k, HomeAfter(k, level))), ChildDates(base, mode, s, level, k)),
                  VisitLength(mode) + 1) ==
            Config(NextSibling(Among(s, n, k + 1, level)), ChildDates(base, mode, s, level, k + 1))
  {
    hide Next, Steps, Siblings, ChildDates;
    var m, a, rest := Siblings(levels, id, mode), Child(base, s, k), Among(s, n, k, HomeAfter(k, level));
    var writes := ChildDates(base, mode, s, level, k);
    assert LevelOf(base, a) == level;
    ChildDatesAre(base, mode, s, level, k, InStructure(a, Level, 0));
    ChildDatesAre(base, mode, s, level, k, InStructure(s, SubAssembly, k));
    ChildDatesAre(base, mode, s, level, k, DateAt(level, a));
    NextSiblingFound(levels, id, mode, base, rest, writes);
    StepsFirst(m, base, Config(NextSibling(rest), writes), VisitLength(mode) + 1);
    VisitOne(levels, id, mode, base, a, rest, writes);
    OneChildMore(base, mode, s, level, k);
  }

  lemma OneChildMore(base: Store, mode: Mode, s: int, level: nat, k: nat)
    ensures ChildDates(base, mode, s, level, k + 1) ==
            AfterOne(base, mode, ChildDates(base, mode, s, level, k), Child(base, s, k), level)
    ensures ChildDates(base, mode, s, level, 0) == map[]
  {
  }

  /** The loop over the siblings. */
  lemma {:induction false} VisitMany(levels: nat, id: int, mode: Mode, base: Store, s: int, n: int, level: nat, k: nat)
    requires n == Children(base, s) && ChildrenFit(levels, base, s) && k <= n
    requires n > 0 ==> level == LevelOf(base, Child(base, s, 0))
    ensures Steps(Siblings(levels, id, mode), base, Config(NextSibling(Among(s, n, 0, 0)), map[]),
                  k * (VisitLength(mode) + 1)) ==
            Config(NextSibling(Among(s, n, k, HomeAfter(k, level))), ChildDates(base, mode, s, level, k))
  {
    hide Next, Steps, Siblings, ChildDates, VisitLength, ChildrenFit;
    var m, start := Siblings(levels, id, mode), Config(NextSibling(Among(s, n, 0, 0)), map[]);
    if k == 0 {
      NoSteps(m, base, start);
      OneChildMore(base, mode, s, level, 0);
    } else {
      VisitMany(levels, id, mode, base, s, n, level, k - 1);
      StepsTwice(m, base, start, (k - 1) * (VisitLength(mode) + 1), VisitLength(mode) + 1);
      OneMoreTime(k, VisitLength(mode) + 1);
      VisitNext(levels, id, mode, base, s, n, level, k - 1);
    }
  }

  lemma OneMoreTime(k: nat, length: nat)
    requires k > 0
    ensures (k - 1) * length + length == k * length
  {
  }

  /** The first actions: the index, the parent pointer, and the number of siblings. */
  lemma NextInLookUp(levels: nat, id: int, mode: Mode, base: Store)
    ensures var m, c, s := Siblings(levels, id, mode), Found(base, id), SuperOf(base, Found(base, id));
      && Next(m, base, Config(LookUp, map[])) == Config(if c == 0 then Over(Failed) else AskSuper(c), map[])
      && Next(m, base, Config(AskSuper(c), map[])) == Config(if s == 0 then AskLevel(c, Alone) else AskCount(s), map[])
      && Next(m, base, Config(AskCount(s), map[])) == Config(NextSibling(Among(s, Children(base, s), 0, 0)), map[])
  {
  }

  /** What the writes of all visits come to. */
  ghost predicate VisitWrites(base: Store, id: int, mode: Mode, writes: map<Location, int>) {
    forall x: Location ::
      && (x in writes <==> mode.Write? && Visited(base, id, x.cell.owner) && IsDate(base, x))
      && (x in writes ==> writes[x] == Updated(base[x]))
  }

  lemma VisitRoot(levels: nat, id: int, mode: Mode, base: Store) returns (steps: nat)
    requires Fits(levels, base, id) && Found(base, id) != 0 && SuperOf(base, Found(base, id)) == 0
    ensures var c := Steps(Siblings(levels, id, mode), base, Config(LookUp, map[]), steps);
      c.state == Over(Returned(1)) && VisitWrites(base, id, mode, c.writes)
  {
    hide Next, Steps, Siblings;
    var m, c := Siblings(levels, id, mode), Found(base, id);
    steps := 2 + VisitLength(mode);
    NextInLookUp(levels, id, mode, base);
    StepsFirst(m, base, Config(LookUp, map[]), steps);
    StepsFirst(m, base, Config(AskSuper(c), map[]), steps - 1);
    VisitOne(levels, id, mode, base, c, Alone, map[]);
  }

  lemma VisitChildren(levels: nat, id: int, mode: Mode, base: Store) returns (steps: nat, rest: Rest)
    requires Fits(levels, base, id) && Found(base, id) != 0 && SuperOf(base, Found(base, id)) != 0
    ensures var c := Steps(Siblings(levels, id, mode), base, Config(LookUp, map[]), steps);
      c.state == NextSibling(rest) && VisitWrites(base, id, mode, c.writes)
    ensures rest.Among? && rest.i == rest.count == Children(base, SuperOf(base, Found(base, id)))
  {
    hide Next, Steps, Siblings, ChildrenFit, ChildDates, VisitLength;
    var m, c := Siblings(levels, id, mode), Found(base, id);
    var s := SuperOf(base, c);
    var n := Children(base, s);
    FirstLevel(levels, base, s);
    var level: nat := if n > 0 then LevelOf(base, Child(base, s, 0)) else 0;
    steps := 3 + n * (VisitLength(mode) + 1);
    rest := Among(s, n, n, HomeAfter(n, level));
    NextInLookUp(levels, id, mode, base);
    StepsFirst(m, base, Config(LookUp, map[]), steps);
    StepsFirst(m, base, Config(AskSuper(c), map[]), steps - 1);
    StepsFirst(m, base, Config(AskCount(s), map[]), steps - 2);
    VisitMany(levels, id, mode, base, s, n, level, n);
    forall x: Location
      ensures x in ChildDates(base, mode, s, level, n) <==>
        mode.Write? && Visited(base, id, x.cell.owner) && IsDate(base, x)
      ensures x in ChildDates(base, mode, s, level, n) ==> ChildDates(base, mode, s, level, n)[x] == Updated(base[x])
    {
      ChildDatesAre(base, mode, s, level, n, x);
      ChildLevel(levels, base, s, level, x.cell.owner);
    }
  }

  lemma FirstLevel(levels: nat, base: Store, s: int)
    requires ChildrenFit(levels, base, s)
    ensures Children(base, s) >= 0 && (Children(base, s) > 0 ==> LevelOf(base, Child(base, s, 0)) >= 2)
  {
  }

  lemma ChildLevel(levels: nat, base: Store, s: int, level: nat, a: int)
    requires ChildrenFit(levels, base, s) && (Children(base, s) > 0 ==> level == LevelOf(base, Child(base, s, 0)))
    ensures IsChild(base, s, Children(base, s), a) ==> LevelOf(base, a) == level
  {
  }

  /** Run alone on a design, OP6 and OP12 fail if no assembly has the id, and otherwise visit the assembly, if it is
      the design root, or each of its siblings once; OP12 updates the date of each, and nothing else changes. */
  lemma SiblingsAlone(levels: nat, id: int, mode: Mode, base: Store) returns (steps: nat)
    requires Fits(levels, base, id)
    ensures var prog := ProgramOf(Siblings(levels, id, mode));
      var l := RunAlone(prog, base, steps);
      && prog(l.hist) == Finish(VisitOutcome(base, id))
      && forall x: Location :: Overlay(base, l.writes)[x] ==
           if mode.Write? && Visited(base, id, x.cell.owner) && IsDate(base, x) then Updated(base[x]) else base[x]
  {
    hide Next, Steps, Siblings, Fits, Visited, RunAlone;
    var m := Siblings(levels, id, mode);
    if Found(base, id) == 0 {
      steps := 1;
      NextInLookUp(levels, id, mode, base);
      StepsFirst(m, base, Config(LookUp, map[]), 1);
      NoSteps(m, base, Config(Over(Failed), map[]));
      NothingVisited(base, id);
    } else if SuperOf(base, Found(base, id)) == 0 {
      steps := VisitRoot(levels, id, mode, base);
    } else {
      var rest;
      steps, rest := VisitChildren(levels, id, mode, base);
    }
    RunsAsMachine(m, base, steps);
    MachineStarts(levels, id, mode);
  }

  lemma NothingVisited(base: Store, id: int)
    requires Found(base, id) == 0
    ensures forall a :: !Visited(base, id, a)
  {
  }

  lemma MachineStarts(levels: nat, id: int, mode: Mode)
    ensures Siblings(levels, id, mode).init == LookUp
    ensures forall st :: Siblings(levels, id, mode).act(st) == VisitAction(id, mode, st)
  {
  }

  /** The location is the build date of a complex assembly. */
  ghost predicate IsDate(base: Store, x: Location) {
    x.guard.AssemblyLevel? && x.guard.level == LevelOf(base, x.cell.owner) && x == DateAt(x.guard.level, x.cell.owner)
  }

  /** In any run of any number of threads, too, OP6 and OP12 report and change just that, on the store that the
      operations with earlier timestamps leave behind. */
  lemma SiblingsInAnyRun(s: State, run: seq<Move>, s': State, i: nat, levels: nat, id: int, mode: Mode)
    requires Initial(s) && Leads(s, run, s')
    requires i < |s'.log| && s'.log[i].job.prog == ProgramOf(Siblings(levels, id, mode))
    requires Fits(levels, Replay(s'.log[..i], s.store), id)
    ensures var before, after := Replay(s'.log[..i], s.store), Replay(s'.log[..i + 1], s.store);
      && s'.log[i].outcome == VisitOutcome(before, id)
      && forall x: Location :: after[x] ==
           if mode.Write? && Visited(before, id, x.cell.owner) && IsDate(before, x) then Updated(before[x]) else before[x]
  {
    hide Initial, Leads, Fits, Visited, IsDate, RunAlone, ProgramOf, Replay, LogReplays, Siblings;
    var prog, before, n := ProgramOf(Siblings(levels, id, mode)), Replay(s'.log[..i], s.store), s'.log[i].steps;
    TimestampOrderIsSerial(s, run, s');
    EntryReplays(s'.log, s.store, i);
    var steps := SiblingsAlone(levels, id, mode, before);
    SameEnd(prog, before, n, steps);
  }
}
