/** What ST3 and ST8 do, alone and in any run: they visit the assemblies above the users of a composite part. */
module AncestorClimbs {
  import opened LockTable
  import opened LockProtocol
  import opened Serializability
  import opened OperationBodies
  import opened MachineRuns
  import opened StoredDesign

  // ---------- what is above ----------

  ghost predicate UpClosed(base: Store, s: set<int>) {
    forall a :: a in s ==> SuperOf(base, a) == 0 || SuperOf(base, a) in s
  }

  /** Closed, except that `next` is still to be visited. */
  ghost predicate UpClosedBut(base: Store, s: set<int>, next: int) {
    forall a :: a in s ==> SuperOf(base, a) == 0 || SuperOf(base, a) in s || SuperOf(base, a) == next
  }

  /** Assemblies, with all that is above them, at levels of the tree. */
  ghost predicate Assemblies(levels: nat, base: Store, all: set<int>) {
    0 !in all && UpClosed(base, all) && forall a :: a in all ==> BaseKind(base, a) || 2 <= LevelOf(base, a) <= levels
  }

  ghost predicate HoldsUsers(base: Store, c: int, n: int, s: set<int>) {
    forall i :: 0 <= i < n ==> UserAt(base, c, i) in s
  }

  /** The least closed set that holds the users of the part. */
  ghost predicate IsClosure(base: Store, c: int, s: set<int>) {
    && UpClosed(base, s) && HoldsUsers(base, c, Users(base, c), s)
    && forall other: set<int> :: UpClosed(base, other) && HoldsUsers(base, c, Users(base, c), other) ==> s <= other
  }

  // ---------- what is written ----------

  ghost predicate Dated(base: Store, s: set<int>) {
    forall a :: a in s ==> BaseKind(base, a) || LevelOf(base, a) >= 0
  }

  /** The new dates of the assemblies that ST8 has visited. */
  ghost function NewDates(base: Store, mode: Mode, s: set<int>): map<Location, int>
    requires Dated(base, s)
  {
    var cells := set a | a in s && mode.Write? :: DateCell(base, a);
    map x | x in cells :: Updated(base[x])
  }

  lemma NewDatesAre(base: Store, mode: Mode, s: set<int>, x: Location)
    requires Dated(base, s)
    ensures x in NewDates(base, mode, s) <==> mode.Write? && x.cell.owner in s && x == DateCell(base, x.cell.owner)
    ensures x in NewDates(base, mode, s) ==> NewDates(base, mode, s)[x] == Updated(base[x])
    ensures x in NewDates(base, mode, s) ==> x.guard.AssemblyLevel?
  {
  }

  lemma OneDateMore(base: Store, mode: Mode, s: set<int>, a: int)
    requires Dated(base, s + {a}) && a !in s
    ensures Dated(base, s) && DateCell(base, a) !in NewDates(base, mode, s)
    ensures NewDates(base, mode, s + {a}) ==
      if mode.Write? then NewDates(base, mode, s)[DateCell(base, a) := Updated(base[DateCell(base, a)])]
      else NewDates(base, mode, s)
  {
    hide NewDates, DateCell, Updated;
    NewDatesAre(base, mode, s, DateCell(base, a));
    OwnCell(base, a);
    forall x: Location
      ensures x in NewDates(base, mode, s + {a}) <==> x in NewDates(base, mode, s) || (mode.Write? && x == DateCell(base, a))
      ensures x in NewDates(base, mode, s + {a}) ==> NewDates(base, mode, s + {a})[x] == Updated(base[x])
      ensures x in NewDates(base, mode, s) ==> NewDates(base, mode, s)[x] == Updated(base[x])
    {
      NewDatesAre(base, mode, s, x);
      NewDatesAre(base, mode, s + {a}, x);
    }
  }

  lemma OwnCell(base: Store, a: int)
    requires BaseKind(base, a) || LevelOf(base, a) >= 0
    ensures DateCell(base, a).cell.owner == a
  {
  }

  // ---------- one assembly ----------

  ghost predicate OnlyDates(writes: map<Location, int>) {
    forall x :: x in writes ==> x.guard.AssemblyLevel?
  }

  /** What the single actions of a visit lead to. */
  lemma NextInClimb(levels: nat, id: int, mode: Mode, base: Store, a: int, level: nat, date: int, p: Progress,
                    writes: map<Location, int>)
    requires OnlyDates(writes)
    ensures var m := Ancestors(levels, id, mode);
      && Next(m, base, Config(AskKind(a, p), writes)) ==
         Config(if !BaseKind(base, a) then OwnLevel(a, p)
                else if mode.Write? then OwnDate(a, BASE_ASSEMBLY_LEVEL, p) else GoUp(a, p), writes)
      && (2 <= LevelOf(base, a) <= levels ==>
            Next(m, base, Config(OwnLevel(a, p), writes)) == Config(LockOwn(a, LevelOf(base, a), p), writes))
      && Next(m, base, Config(LockOwn(a, level, p), writes)) ==
         Config(if mode.Write? then OwnDate(a, level, p) else GoUp(a, p), writes)
      && (DateAt(level, a) !in writes ==>
            Next(m, base, Config(OwnDate(a, level, p), writes)) ==
            Config(NewDate(a, level, base[DateAt(level, a)], p), writes))
      && Next(m, base, Config(NewDate(a, level, date, p), writes)) ==
         Config(GoUp(a, p), writes[DateAt(level, a) := Updated(date)])
      && Next(m, base, Config(GoUp(a, p), writes)) ==
         Config(Arrive(SuperOf(base, a), p.(result := p.result + 1)), writes)
  {
    hide Updated, Arrive;
  }

  ghost function AfterDate(base: Store, mode: Mode, writes: map<Location, int>, a: int): map<Location, int>
    requires BaseKind(base, a) || LevelOf(base, a) >= 0
  {
    if mode.Write? then writes[DateCell(base, a) := Updated(base[DateCell(base, a)])] else writes
  }

  lemma DateAndUp(levels: nat, id: int, mode: Mode, base: Store, a: int, level: nat, p: Progress, writes: map<Location, int>)
    requires OnlyDates(writes) && DateAt(level, a) !in writes && mode.Write?
    ensures Reaches(Ancestors(levels, id, mode), base, Config(OwnDate(a, level, p), writes),
                    Config(Arrive(SuperOf(base, a), p.(result := p.result + 1)),
                           writes[DateAt(level, a) := Updated(base[DateAt(level, a)])]))
  {
    hide Next, Reaches, Ancestors, Arrive, Updated;
    var m, date := Ancestors(levels, id, mode), base[DateAt(level, a)];
    var writes' := writes[DateAt(level, a) := Updated(date)];
    var last := Config(Arrive(SuperOf(base, a), p.(result := p.result + 1)), writes');
    NextInClimb(levels, id, mode, base, a, level, date, p, writes);
    NextInClimb(levels, id, mode, base, a, level, date, p, writes');
    ReachesItself(m, base, last);
    ReachesNext(m, base, Config(GoUp(a, p), writes'), last, last);
    ReachesNext(m, base, Config(NewDate(a, level, date, p), writes), Config(GoUp(a, p), writes'), last);
    ReachesNext(m, base, Config(OwnDate(a, level, p), writes), Config(NewDate(a, level, date, p), writes), last);
  }

  /** A visit of one assembly: its kind, its level and lock if it is complex, its date for ST8, and the way up. */
  lemma VisitAndUp(levels: nat, id: int, mode: Mode, base: Store, a: int, p: Progress, writes: map<Location, int>)
    requires BaseKind(base, a) || 2 <= LevelOf(base, a) <= levels
    requires OnlyDates(writes) && DateCell(base, a) !in writes
    ensures Reaches(Ancestors(levels, id, mode), base, Config(AskKind(a, p), writes),
                    Config(Arrive(SuperOf(base, a), p.(result := p.result + 1)), AfterDate(base, mode, writes, a)))
  {
    hide Next, Reaches, Ancestors, Arrive, Updated;
    var m := Ancestors(levels, id, mode);
    var level: nat := if BaseKind(base, a) then BASE_ASSEMBLY_LEVEL else LevelOf(base, a);
    var last := Config(Arrive(SuperOf(base, a), p.(result := p.result + 1)), AfterDate(base, mode, writes, a));
    var middle := Config(if mode.Write? then OwnDate(a, level, p) else GoUp(a, p), writes);
    NextInClimb(levels, id, mode, base, a, level, 0, p, writes);
    if mode.Write? {
      DateAndUp(levels, id, mode, base, a, level, p, writes);
    } else {
      ReachesItself(m, base, last);
      ReachesNext(m, base, Config(GoUp(a, p), writes), last, last);
    }
    if BaseKind(base, a) {
      ReachesNext(m, base, Config(AskKind(a, p), writes), middle, last);
    } else {
      ReachesNext(m, base, Config(LockOwn(a, level, p), writes), middle, last);
      ReachesNext(m, base, Config(OwnLevel(a, p), writes), Config(LockOwn(a, level, p), writes), last);
      ReachesNext(m, base, Config(AskKind(a, p), writes), Config(OwnLevel(a, p), writes), last);
    }
  }

  // ---------- the way up ----------

  lemma ArrivalIs(a: int, p: Progress)
    ensures a == 0 || a in p.visited ==> Arrive(a, p) == NextUser(p.(i := p.i + 1))
    ensures !(a == 0 || a in p.visited) ==> Arrive(a, p) == AskKind(a, p.(visited := p.visited + {a}))
  {
  }

  lemma DatesOf(levels: nat, base: Store, all: set<int>, s: set<int>, mode: Mode)
    requires Assemblies(levels, base, all) && s <= all
    ensures Dated(base, s) && OnlyDates(NewDates(base, mode, s))
  {
  }

  lemma OneVisitedMore(s: set<int>, a: int, t: set<int>)
    requires a !in s && s + {a} <= t
    ensures |t - s| == 1 + |t - (s + {a})|
  {
    assert t - s == (t - (s + {a})) + {a};
  }

  /** The walk up from one assembly: it stops where it comes upon what was visited, and yet leaves a closed set. */
  lemma {:induction false} ClimbFrom(levels: nat, id: int, mode: Mode, base: Store, all: set<int>, a: int, p: Progress)
    returns (s: set<int>)
    requires Assemblies(levels, base, all) && p.visited <= all && (a == 0 || a in all)
    requires UpClosedBut(base, p.visited, a)
    ensures p.visited <= s <= all && (a == 0 || a in s) && UpClosed(base, s) && Dated(base, p.visited) && Dated(base, s)
    ensures forall other: set<int> :: UpClosed(base, other) && p.visited <= other && (a == 0 || a in other) ==> s <= other
    ensures Reaches(Ancestors(levels, id, mode), base, Config(Arrive(a, p), NewDates(base, mode, p.visited)),
                    Config(NextUser(Progress(p.part, p.count, p.i + 1, s, p.result + |s - p.visited|)),
                           NewDates(base, mode, s)))
    decreases |all - p.visited|
  {
    hide Reaches, Ancestors, Arrive, NewDates, DateCell, Dated, Assemblies, UpClosed, UpClosedBut;
    var m := Ancestors(levels, id, mode);
    DatesOf(levels, base, all, p.visited, mode);
    ArrivalIs(a, p);
    if a == 0 || a in p.visited {
      s := p.visited;
      StopsClosed(base, s, a);
      assert s - p.visited == {};
      ReachesItself(m, base, Config(NextUser(p.(i := p.i + 1)), NewDates(base, mode, s)));
    } else {
      var p1 := p.(visited := p.visited + {a});
      var up, p2 := SuperOf(base, a), p1.(result := p.result + 1);
      OneLeft(all, p.visited, a);
      ParentIn(levels, base, all, a);
      DatesOf(levels, base, all, p1.visited, mode);
      OneDateMore(base, mode, p.visited, a);
      GoesOnClosed(base, p.visited, a);
      VisitAndUp(levels, id, mode, base, a, p1, NewDates(base, mode, p.visited));
      s := ClimbFrom(levels, id, mode, base, all, up, p2);
      OneVisitedMore(p.visited, a, s);
      var last := Config(NextUser(Progress(p.part, p.count, p.i + 1, s, p.result + |s - p.visited|)),
                         NewDates(base, mode, s));
      ReachesFurther(m, base, Config(Arrive(a, p), NewDates(base, mode, p.visited)),
                     Config(Arrive(up, p2), NewDates(base, mode, p1.visited)), last);
      Above(base, p.visited, a, s);
    }
  }

  lemma ParentIn(levels: nat, base: Store, all: set<int>, a: int)
    requires Assemblies(levels, base, all) && a in all
    ensures SuperOf(base, a) == 0 || SuperOf(base, a) in all
    ensures BaseKind(base, a) || 2 <= LevelOf(base, a) <= levels
  {
  }

  lemma StopsClosed(base: Store, s: set<int>, a: int)
    requires UpClosedBut(base, s, a) && (a == 0 || a in s)
    ensures UpClosed(base, s)
  {
  }

  lemma GoesOnClosed(base: Store, s: set<int>, a: int)
    requires UpClosedBut(base, s, a)
    ensures UpClosedBut(base, s + {a}, SuperOf(base, a))
  {
  }

  /** What every closed set with the assembly above holds, every closed set with the assembly holds. */
  lemma Above(base: Store, visited: set<int>, a: int, s: set<int>)
    requires forall other: set<int> :: (
      UpClosed(base, other) && visited + {a} <= other && (SuperOf(base, a) == 0 || SuperOf(base, a) in other)
      ==> s <= other)
    ensures a != 0 ==> forall other: set<int> :: (
      UpClosed(base, other) && visited <= other && (a == 0 || a in other) ==> s <= other)
  {
  }

  // ---------- the users of the part ----------

  lemma NextInLookUp(levels: nat, id: int, mode: Mode, base: Store)
    ensures var m, p, c := Ancestors(levels, id, mode), Found(base, id), OwnerOf(base, Found(base, id));
      && Next(m, base, Config(FindPart, map[])) == Config(if p == 0 then Top(Failed) else AskOwner(p), map[])
      && Next(m, base, Config(AskOwner(p), map[])) == Config(AskUsers(c), map[])
      && Next(m, base, Config(AskUsers(c), map[])) == Config(NextUser(Progress(c, Users(base, c), 0, {}, 0)), map[])
  {
  }

  lemma NextUserFound(levels: nat, id: int, mode: Mode, base: Store, p: Progress, writes: map<Location, int>)
    requires p.i < p.count && OnlyDates(writes)
    ensures Next(Ancestors(levels, id, mode), base, Config(NextUser(p), writes)) ==
            Config(Arrive(UserAt(base, p.part, p.i), p), writes)
  {
  }

  lemma GrownBy(s: set<int>, t: set<int>)
    requires s <= t
    ensures |s| + |t - s| == |t|
  {
    assert t == s + (t - s);
  }

  lemma ClosedIsClosedBut(base: Store, s: set<int>, next: int)
    requires UpClosed(base, s)
    ensures UpClosedBut(base, s, next)
  {
  }

  /** The loop over the users, whatever their order and repetitions. */
  lemma {:induction false} ClimbAll(levels: nat, id: int, mode: Mode, base: Store, all: set<int>, c: int, n: int, i: int,
                                    s: set<int>) returns (t: set<int>)
    requires Assemblies(levels, base, all) && HoldsUsers(base, c, n, all) && 0 <= i <= n
    requires s <= all && UpClosed(base, s) && HoldsUsers(base, c, i, s)
    ensures s <= t <= all && UpClosed(base, t) && HoldsUsers(base, c, n, t) && Dated(base, s) && Dated(base, t)
    ensures forall other: set<int> :: UpClosed(base, other) && s <= other && HoldsUsers(base, c, n, other) ==> t <= other
    ensures Reaches(Ancestors(levels, id, mode), base,
                    Config(NextUser(Progress(c, n, i, s, |s|)), NewDates(base, mode, s)),
                    Config(NextUser(Progress(c, n, n, t, |t|)), NewDates(base, mode, t)))
    decreases n - i
  {
    hide Reaches, Ancestors, Arrive, NewDates, DateCell, Dated, Assemblies, UpClosed, UpClosedBut, Next;
    var m, p := Ancestors(levels, id, mode), Progress(c, n, i, s, |s|);
    DatesOf(levels, base, all, s, mode);
    if i == n {
      t := s;
      ReachesItself(m, base, Config(NextUser(p), NewDates(base, mode, s)));
    } else {
      var a := UserAt(base, c, i);
      UserIn(levels, base, all, c, n, i);
      ClosedIsClosedBut(base, s, a);
      var s1 := ClimbFrom(levels, id, mode, base, all, a, p);
      GrownBy(s, s1);
      HoldsOneMore(base, c, i, s, s1);
      t := ClimbAll(levels, id, mode, base, all, c, n, i + 1, s1);
      var last := Config(NextUser(Progress(c, n, n, t, |t|)), NewDates(base, mode, t));
      NextUserFound(levels, id, mode, base, p, NewDates(base, mode, s));
      ReachesFurther(m, base, Config(Arrive(a, p), NewDates(base, mode, s)),
                     Config(NextUser(Progress(c, n, i + 1, s1, |s1|)), NewDates(base, mode, s1)), last);
      ReachesNext(m, base, Config(NextUser(p), NewDates(base, mode, s)),
                  Config(Arrive(a, p), NewDates(base, mode, s)), last);
    }
  }

  lemma UserIn(levels: nat, base: Store, all: set<int>, c: int, n: int, i: int)
    requires Assemblies(levels, base, all) && HoldsUsers(base, c, n, all) && 0 <= i < n
    ensures UserAt(base, c, i) in all && UserAt(base, c, i) != 0
  {
  }

  lemma HoldsOneMore(base: Store, c: int, i: int, s: set<int>, t: set<int>)
    requires HoldsUsers(base, c, i, s) && s <= t && UserAt(base, c, i) in t
    ensures HoldsUsers(base, c, i + 1, t)
  {
  }

  // ---------- the operations ----------

  /** What an atomic part that is found looks like in a design: the users of its owner are among `all`. */
  ghost predicate Fits(levels: nat, base: Store, id: int, all: set<int>) {
    Assemblies(levels, base, all) &&
    (Found(base, id) != 0 ==>
       var c := OwnerOf(base, Found(base, id));
       0 <= Users(base, c) && HoldsUsers(base, c, Users(base, c), all))
  }

  /** What is visited: nothing if there is no such part, else the users and all above them. */
  ghost predicate AreVisited(base: Store, id: int, s: set<int>) {
    if Found(base, id) == 0 then s == {} else IsClosure(base, OwnerOf(base, Found(base, id)), s)
  }

  ghost function ClimbOutcome(base: Store, id: int, s: set<int>): Outcome {
    if Found(base, id) == 0 then Failed else Returned(|s|)
  }

  lemma NothingNew(base: Store, mode: Mode)
    ensures Dated(base, {}) && NewDates(base, mode, {}) == map[] && UpClosed(base, {})
    ensures forall c :: HoldsUsers(base, c, 0, {})
  {
  }

  /** Alone, ST3 and ST8 fail if no atomic part has the id, and otherwise return how many assemblies the least set has
      that holds the users of the owner and all that is above them; ST8 updates the date of each once. */
  lemma AncestorsAlone(levels: nat, id: int, mode: Mode, base: Store, all: set<int>)
    returns (final: Config<Climb>, visited: set<int>)
    requires Fits(levels, base, id, all)
    ensures Reaches(Ancestors(levels, id, mode), base, Config(FindPart, map[]), final)
    ensures Ancestors(levels, id, mode).act(final.state) == Finish(ClimbOutcome(base, id, visited))
    ensures AreVisited(base, id, visited) && Dated(base, visited) && final.writes == NewDates(base, mode, visited)
  {
    hide Reaches, Next, NewDates, Assemblies, HoldsUsers, Dated, UpClosed;
    var m, p, start := Ancestors(levels, id, mode), Found(base, id), Config(FindPart, map[]);
    NextInLookUp(levels, id, mode, base);
    NothingNew(base, mode);
    if p == 0 {
      final, visited := Config(Top(Failed), map[]), {};
      ReachesItself(m, base, final);
      ReachesNext(m, base, start, final, final);
    } else {
      var c := OwnerOf(base, p);
      var n := Users(base, c);
      visited := ClimbAll(levels, id, mode, base, all, c, n, 0, {});
      final := Config(NextUser(Progress(c, n, n, visited, |visited|)), NewDates(base, mode, visited));
      ReachesNext(m, base, Config(AskUsers(c), map[]), Config(NextUser(Progress(c, n, 0, {}, 0)), map[]), final);
      ReachesNext(m, base, Config(AskOwner(p), map[]), Config(AskUsers(c), map[]), final);
      ReachesNext(m, base, start, Config(AskOwner(p), map[]), final);
    }
  }

  /** In any run of any number of threads, too, ST3 and ST8 report and change just that, on the store that the
      operations with earlier timestamps leave behind. */
  lemma AncestorsInAnyRun(s: State, run: seq<Move>, s': State, i: nat, levels: nat, id: int, mode: Mode, all: set<int>)
    returns (visited: set<int>)
    requires Initial(s) && Leads(s, run, s')
    requires i < |s'.log| && s'.log[i].job.prog == ProgramOf(Ancestors(levels, id, mode))
    requires Fits(levels, Replay(s'.log[..i], s.store), id, all)
    ensures var before, after := Replay(s'.log[..i], s.store), Replay(s'.log[..i + 1], s.store);
      && AreVisited(before, id, visited) && Dated(before, visited)
      && s'.log[i].outcome == ClimbOutcome(before, id, visited)
      && forall x: Location :: after[x] ==
           if mode.Write? && x.cell.owner in visited && x == DateCell(before, x.cell.owner) then Updated(before[x])
           else before[x]
  {
    hide Initial, Leads, Replay, Reaches, NewDates, DateCell, AreVisited, Fits, ProgramOf, Updated;
    var m, before := Ancestors(levels, id, mode), Replay(s'.log[..i], s.store);
    var final;
    final, visited := AncestorsAlone(levels, id, mode, before, all);
    MachineInAnyRun(s, run, s', i, m, final);
    forall x: Location
      ensures Overlay(before, final.writes)[x] ==
        if mode.Write? && x.cell.owner in visited && x == DateCell(before, x.cell.owner) then Updated(before[x])
        else before[x]
    {
      NewDatesAre(before, mode, visited, x);
    }
  }
}
