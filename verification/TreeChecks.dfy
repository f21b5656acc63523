/** What Q6 does, alone and in any run: it counts the outdated base assemblies and the complex assemblies above them. */
module TreeChecks {
  import opened LockTable
  import opened LockProtocol
  import opened Serializability
  import opened OperationBodies
  import opened MachineRuns
  import opened StoredDesign

  // ---------- what is counted ----------

  /** One of the components is younger than the assembly. */
  ghost predicate Outdated(base: Store, a: int) {
    exists j :: 0 <= j < Components(base, a) && PartDateOf(base, ComponentAt(base, a, j)) > base[DateAt(BASE_ASSEMBLY_LEVEL, a)]
  }

  /** How many base assemblies of the tree are outdated. */
  ghost function OutdatedIn(base: Store, t: StoredTree): nat {
    match t
    case Leaf(a) => if Outdated(base, a) then 1 else 0
    case Node(_, kids) => OutdatedBelow(base, kids)
  }

  ghost function OutdatedBelow(base: Store, kids: seq<StoredTree>): nat {
    if kids == [] then 0 else OutdatedBelow(base, kids[..|kids| - 1]) + OutdatedIn(base, kids[|kids| - 1])
  }

  /** How many complex assemblies of the tree have an outdated base assembly below them. */
  ghost function AboveOutdated(base: Store, t: StoredTree): nat {
    match t
    case Leaf(_) => 0
    case Node(_, kids) => AboveBelow(base, kids) + if OutdatedBelow(base, kids) > 0 then 1 else 0
  }

  ghost function AboveBelow(base: Store, kids: seq<StoredTree>): nat {
    if kids == [] then 0 else AboveBelow(base, kids[..|kids| - 1]) + AboveOutdated(base, kids[|kids| - 1])
  }

  ghost function CountIn(base: Store, t: StoredTree): nat { OutdatedIn(base, t) + AboveOutdated(base, t) }

  ghost function CountBelow(base: Store, kids: seq<StoredTree>): nat { OutdatedBelow(base, kids) + AboveBelow(base, kids) }

  /** Nothing stands above an outdated base assembly where there is none. */
  lemma {:induction false} NoneAbove(base: Store, kids: seq<StoredTree>)
    ensures OutdatedBelow(base, kids) == 0 ==> AboveBelow(base, kids) == 0
    decreases kids, 1
  {
    if kids != [] {
      NoneAbove(base, kids[..|kids| - 1]);
      NoneAboveIn(base, kids[|kids| - 1]);
    }
  }

  lemma {:induction false} NoneAboveIn(base: Store, t: StoredTree)
    ensures OutdatedIn(base, t) == 0 ==> AboveOutdated(base, t) == 0
    decreases t, 0
  {
    if t.Node? {
      NoneAbove(base, t.kids);
    }
  }

  lemma OneKidMore(base: Store, kids: seq<StoredTree>, i: nat)
    requires i < |kids|
    ensures CountBelow(base, kids[..i + 1]) == CountBelow(base, kids[..i]) + CountIn(base, kids[i])
  {
    assert kids[..i + 1][..i] == kids[..i];
  }

  lemma NodeCount(base: Store, a: int, kids: seq<StoredTree>)
    ensures CountIn(base, Node(a, kids)) == if CountBelow(base, kids) == 0 then 0 else CountBelow(base, kids) + 1
    ensures kids[..|kids|] == kids && CountBelow(base, kids[..0]) == 0
  {
    NoneAbove(base, kids);
  }

  // ---------- one base assembly ----------

  lemma NextInBase(levels: nat, base: Store, a: int, date: int, n: int, j: int, part: int, above: seq<Call>)
    ensures var m := Checking(levels);
      && Next(m, base, Config(ChildKind(a, above), map[])) ==
         Config(if BaseKind(base, a) then BaseDate(a, above) else AskChildren(a, above), map[])
      && Next(m, base, Config(BaseDate(a, above), map[])) ==
         Config(AskComponents(a, base[DateAt(BASE_ASSEMBLY_LEVEL, a)], above), map[])
      && Next(m, base, Config(AskComponents(a, date, above), map[])) ==
         Config(ProceedBase(a, date, Components(base, a), 0, above), map[])
      && Next(m, base, Config(NextComponent(a, date, n, j, above), map[])) ==
         Config(PartDate(a, date, n, j, ComponentAt(base, a, j), above), map[])
      && Next(m, base, Config(PartDate(a, date, n, j, part, above), map[])) ==
         Config(if PartDateOf(base, part) > date then Deliver(1, above) else ProceedBase(a, date, n, j + 1, above), map[])
  {
    hide Deliver, ProceedBase;
  }

  lemma BaseProceeds(a: int, date: int, n: int, j: int, above: seq<Call>)
    ensures ProceedBase(a, date, n, j, above) == if j < n then NextComponent(a, date, n, j, above) else Deliver(0, above)
  {
  }

  /** The loop over the components, with its early end. */
  lemma {:induction false} CheckComponents(levels: nat, base: Store, a: int, n: int, j: int, above: seq<Call>)
    requires n == Components(base, a) && 0 <= j
    requires forall k :: 0 <= k < j && k < n ==>
      PartDateOf(base, ComponentAt(base, a, k)) <= base[DateAt(BASE_ASSEMBLY_LEVEL, a)]
    ensures Reaches(Checking(levels), base,
                    Config(ProceedBase(a, base[DateAt(BASE_ASSEMBLY_LEVEL, a)], n, j, above), map[]),
                    Config(Deliver(if Outdated(base, a) then 1 else 0, above), map[]))
    decreases n - j
  {
    hide Reaches, Next, Checking, Deliver, ProceedBase;
    var m, date := Checking(levels), base[DateAt(BASE_ASSEMBLY_LEVEL, a)];
    var last := Config(Deliver(if Outdated(base, a) then 1 else 0, above), map[]);
    BaseProceeds(a, date, n, j, above);
    if j >= n {
      assert !Outdated(base, a);
      ReachesItself(m, base, last);
    } else {
      var part := ComponentAt(base, a, j);
      NextInBase(levels, base, a, date, n, j, part, above);
      if PartDateOf(base, part) > date {
        assert Outdated(base, a);
        ReachesItself(m, base, last);
        ReachesNext(m, base, Config(PartDate(a, date, n, j, part, above), map[]), last, last);
      } else {
        CheckComponents(levels, base, a, n, j + 1, above);
        ReachesNext(m, base, Config(PartDate(a, date, n, j, part, above), map[]),
                    Config(ProceedBase(a, date, n, j + 1, above), map[]), last);
      }
      ReachesNext(m, base, Config(NextComponent(a, date, n, j, above), map[]),
                  Config(PartDate(a, date, n, j, part, above), map[]), last);
    }
  }

  // ---------- the recursion ----------

  lemma CallProceeds(call: Call, above: seq<Call>, result: int)
    ensures Proceed(call, above) ==
      if call.i < call.count then NextChild(call, above)
      else if call.result == 0 then Deliver(0, above)
      else CallLevel(call, above)
    ensures Deliver(result, above + [call]) == Proceed(call.(i := call.i + 1, result := call.result + result), above)
  {
    assert (above + [call])[..|above|] == above;
  }

  lemma NextInCall(levels: nat, base: Store, call: Call, level: nat, n: int, above: seq<Call>)
    ensures var m := Checking(levels);
      && Next(m, base, Config(AskRoot, map[])) == Config(AskChildren(base[InStructure(0, DesignRoot, 0)], []), map[])
      && Next(m, base, Config(AskChildren(call.assembly, above), map[])) ==
         Config(Proceed(Call(call.assembly, Children(base, call.assembly), 0, 0), above), map[])
      && Next(m, base, Config(NextChild(call, above), map[])) ==
         Config(ChildKind(Child(base, call.assembly, call.i), above + [call]), map[])
      && (2 <= LevelOf(base, call.assembly) <= levels ==>
            Next(m, base, Config(CallLevel(call, above), map[])) ==
            Config(LockCall(LevelOf(base, call.assembly), call.result + 1, above), map[]))
      && Next(m, base, Config(LockCall(level, n, above), map[])) == Config(Deliver(n, above), map[])
  {
    hide Deliver, Proceed;
  }

  /** A call on a child delivers the count of its tree to the calls above. */
  lemma {:induction false} CheckTree(levels: nat, base: Store, t: StoredTree, above: seq<Call>)
    requires Stored(levels, base, t)
    ensures Reaches(Checking(levels), base, Config(ChildKind(t.assembly, above), map[]),
                    Config(Deliver(CountIn(base, t), above), map[]))
    decreases t, 1, 0
  {
    hide Reaches, Next, Checking, Deliver, Proceed, ProceedBase, CountBelow, Outdated;
    var m, a, last := Checking(levels), t.assembly, Config(Deliver(CountIn(base, t), above), map[]);
    NextInBase(levels, base, a, base[DateAt(BASE_ASSEMBLY_LEVEL, a)], 0, 0, 0, above);
    if t.Leaf? {
      var date := base[DateAt(BASE_ASSEMBLY_LEVEL, a)];
      CheckComponents(levels, base, a, Components(base, a), 0, above);
      ReachesNext(m, base, Config(AskComponents(a, date, above), map[]),
                  Config(ProceedBase(a, date, Components(base, a), 0, above), map[]), last);
      ReachesNext(m, base, Config(BaseDate(a, above), map[]), Config(AskComponents(a, date, above), map[]), last);
      ReachesNext(m, base, Config(ChildKind(a, above), map[]), Config(BaseDate(a, above), map[]), last);
    } else {
      CheckChildren(levels, base, t, above);
      ReachesNext(m, base, Config(ChildKind(a, above), map[]), Config(AskChildren(a, above), map[]), last);
    }
  }

  lemma CheckChildren(levels: nat, base: Store, t: StoredTree, above: seq<Call>)
    requires t.Node? && Stored(levels, base, t)
    ensures Reaches(Checking(levels), base, Config(AskChildren(t.assembly, above), map[]),
                    Config(Deliver(CountIn(base, t), above), map[]))
    decreases t, 0, |t.kids| + 1
  {
    hide Reaches, Next, Checking, Deliver, Proceed, CountBelow, CountIn;
    var m, call := Checking(levels), Call(t.assembly, |t.kids|, 0, 0);
    NodeCount(base, t.assembly, t.kids);
    NextInCall(levels, base, call, 0, 0, above);
    CheckKids(levels, base, t, 0, above);
    ReachesNext(m, base, Config(AskChildren(t.assembly, above), map[]), Config(Proceed(call, above), map[]),
                Config(Deliver(CountIn(base, t), above), map[]));
  }

  lemma KidIs(levels: nat, base: Store, t: StoredTree, i: nat)
    requires t.Node? && Stored(levels, base, t) && i < |t.kids|
    ensures Child(base, t.assembly, i) == t.kids[i].assembly && Stored(levels, base, t.kids[i])
  {
  }

  /** The loop over the children: the results are added up, and one for the assembly itself unless the sum is 0. */
  lemma {:induction false} CheckKids(levels: nat, base: Store, t: StoredTree, i: nat, above: seq<Call>)
    requires t.Node? && Stored(levels, base, t) && i <= |t.kids|
    ensures Reaches(Checking(levels), base,
                    Config(Proceed(Call(t.assembly, |t.kids|, i, CountBelow(base, t.kids[..i])), above), map[]),
                    Config(Deliver(CountIn(base, t), above), map[]))
    decreases t, 0, |t.kids| - i
  {
    hide Reaches, Next, Checking, Deliver, Proceed, CountBelow, CountIn;
    var m, n, a, sum := Checking(levels), |t.kids|, t.assembly, CountBelow(base, t.kids[..i]);
    var call, last := Call(a, n, i, sum), Config(Deliver(CountIn(base, t), above), map[]);
    NodeCount(base, a, t.kids);
    if i < n {
      var kid, next := t.kids[i], Call(a, n, i + 1, CountBelow(base, t.kids[..i + 1]));
      KidIs(levels, base, t, i);
      OneKidMore(base, t.kids, i);
      CallProceeds(call, above, CountIn(base, kid));
      NextInCall(levels, base, call, 0, 0, above);
      CheckTree(levels, base, kid, above + [call]);
      CheckKids(levels, base, t, i + 1, above);
      ReachesFurther(m, base, Config(ChildKind(kid.assembly, above + [call]), map[]), Config(Proceed(next, above), map[]), last);
      ReachesNext(m, base, Config(NextChild(call, above), map[]), Config(ChildKind(kid.assembly, above + [call]), map[]), last);
    } else {
      var level: nat := LevelOf(base, a);
      CallProceeds(call, above, 0);
      NextInCall(levels, base, call, level, sum + 1, above);
      ReachesItself(m, base, last);
      if sum != 0 {
        ReachesNext(m, base, Config(LockCall(level, sum + 1, above), map[]), last, last);
        ReachesNext(m, base, Config(CallLevel(call, above), map[]), Config(LockCall(level, sum + 1, above), map[]), last);
      }
    }
  }

  // ---------- the operation ----------

  ghost function Root(base: Store): int { base[InStructure(0, DesignRoot, 0)] }

  /** Alone, Q6 returns the number of outdated base assemblies and of complex assemblies above them, and writes
      nothing. */
  lemma CheckingAlone(levels: nat, base: Store, t: StoredTree)
    requires t.Node? && Stored(levels, base, t) && t.assembly == Root(base)
    ensures Reaches(Checking(levels), base, Config(AskRoot, map[]),
                    Config(Answer(Returned(OutdatedIn(base, t) + AboveOutdated(base, t))), map[]))
  {
    hide Reaches, Next, Checking, Proceed, CountBelow;
    var m, last := Checking(levels), Config(Deliver(CountIn(base, t), []), map[]);
    CheckChildren(levels, base, t, []);
    NextInCall(levels, base, Call(t.assembly, 0, 0, 0), 0, 0, []);
    ReachesNext(m, base, Config(AskRoot, map[]), Config(AskChildren(t.assembly, []), map[]), last);
  }

  /** In any run of any number of threads, too, Q6 reports just that, on the store that the operations with earlier
      timestamps leave behind, and leaves that store as it is. */
  lemma CheckingInAnyRun(s: State, run: seq<Move>, s': State, i: nat, levels: nat, t: StoredTree)
    requires Initial(s) && Leads(s, run, s')
    requires i < |s'.log| && s'.log[i].job.prog == ProgramOf(Checking(levels))
    requires var before := Replay(s'.log[..i], s.store);
      t.Node? && Stored(levels, before, t) && t.assembly == Root(before)
    ensures var before := Replay(s'.log[..i], s.store);
      && s'.log[i].outcome == Returned(OutdatedIn(before, t) + AboveOutdated(before, t))
      && forall x: Location :: Replay(s'.log[..i + 1], s.store)[x] == before[x]
  {
    hide Initial, Leads, Replay, Reaches, ProgramOf, Stored, OutdatedIn, AboveOutdated;
    var before := Replay(s'.log[..i], s.store);
    CheckingAlone(levels, before, t);
    MachineInAnyRun(s, run, s', i, Checking(levels),
                    Config(Answer(Returned(OutdatedIn(before, t) + AboveOutdated(before, t))), map[]));
  }
}
