/** The notifications of a benchmark run as nested brackets. */
module HarnessBrackets {
  import opened Harness

  /** An open bracket: a listener that was notified of a set-up and waits for the complementary tear-down. */
  datatype Bracket = Bracket(kind: Kind, plugin: Plugin, op: nat)

  predicate OfOperation(kind: Kind) {
    kind.AfterOperationSetUp? || kind.BeforeOperationTearDown?
  }

  /** The notifications that make brackets: those of plugins that listen to both events of the pair. With
      `operations` the operation-level ones count as well. */
  predicate Counts(note: Note, operations: bool) {
    (Opens(note.kind) || Closes(note.kind))
    && note.kind in note.plugin.kinds && Complement(note.kind) in note.plugin.kinds
    && (operations || !OfOperation(note.kind))
  }

  function MatchOne(note: Note, stack: seq<Bracket>, operations: bool): Option<seq<Bracket>> {
    if !Counts(note, operations) then Some(stack)
    else if Opens(note.kind) then Some(stack + [Bracket(note.kind, note.plugin, note.op)])
    else if stack != [] && stack[|stack| - 1] == Bracket(Complement(note.kind), note.plugin, note.op) then
      Some(stack[..|stack| - 1])
    else None
  }

  /** The open brackets after a trace, if every closing one matches the innermost open one. */
  function Match(trace: seq<Note>, stack: seq<Bracket>, operations: bool): Option<seq<Bracket>> {
    if trace == [] then Some(stack)
    else
      match Match(trace[..|trace| - 1], stack, operations)
      case None => None
      case Some(s) => MatchOne(trace[|trace| - 1], s, operations)
  }

  lemma {:induction false} MatchConcat(a: seq<Note>, b: seq<Note>, stack: seq<Bracket>, operations: bool)
    ensures Match(a + b, stack, operations) ==
      (match Match(a, stack, operations) case None => None case Some(s) => Match(b, s, operations))
  {
    if b == [] {
      assert a + b == a;
    } else {
      assert (a + b)[..|a + b| - 1] == a + b[..|b| - 1];
      MatchConcat(a, b[..|b| - 1], stack, operations);
    }
  }

  lemma MatchSingle(note: Note, stack: seq<Bracket>, operations: bool)
    ensures Match([note], stack, operations) == MatchOne(note, stack, operations)
  {
    assert [note][..0] == [];
  }

  /** The brackets that the plugins open for a set-up event, later plugins inside earlier ones. */
  function Opened(plugins: seq<Plugin>, kind: Kind, op: nat, operations: bool): seq<Bracket> {
    if plugins == [] then []
    else
      Opened(plugins[..|plugins| - 1], kind, op, operations) + OpenedBy(plugins[|plugins| - 1], kind, op, operations)
  }

  lemma NotesConcat(a: seq<Plugin>, b: seq<Plugin>, kind: Kind, op: nat)
    ensures Notes(a + b, kind, op) == Notes(a, kind, op) + Notes(b, kind, op)
  {
  }

  function NoteOf(p: Plugin, kind: Kind, op: nat): seq<Note> {
    if kind in p.kinds then [Note(kind, p, op)] else []
  }

  /** The last plugin is notified first of tear-down events and last of the others. */
  lemma LastPlugin(plugins: seq<Plugin>, kind: Kind, op: nat)
    requires plugins != []
    ensures var init, p := plugins[..|plugins| - 1], plugins[|plugins| - 1];
      Notes(Listeners(plugins, kind), kind, op) ==
      if Closes(kind) then NoteOf(p, kind, op) + Notes(Listeners(init, kind), kind, op)
      else Notes(Listeners(init, kind), kind, op) + NoteOf(p, kind, op)
  {
    var init, p := plugins[..|plugins| - 1], plugins[|plugins| - 1];
    assert plugins == init + [p];
    AddListener(init, p, kind);
    NotesConcat(Listeners(init, kind), [p], kind, op);
    NotesConcat([p], Listeners(init, kind), kind, op);
    assert Notes([p], kind, op) == [Note(kind, p, op)];
  }

  function OpenedBy(p: Plugin, kind: Kind, op: nat, operations: bool): seq<Bracket> {
    if Counts(Note(kind, p, op), operations) then [Bracket(kind, p, op)] else []
  }

  lemma PluginOpens(p: Plugin, kind: Kind, op: nat, stack: seq<Bracket>, operations: bool)
    requires Opens(kind)
    ensures Match(NoteOf(p, kind, op), stack, operations) == Some(stack + OpenedBy(p, kind, op, operations))
  {
    assert stack + [] == stack;
    MatchSingle(Note(kind, p, op), stack, operations);
  }

  lemma PluginCloses(p: Plugin, kind: Kind, op: nat, stack: seq<Bracket>, operations: bool)
    requires Opens(kind)
    ensures Match(NoteOf(p, Complement(kind), op), stack + OpenedBy(p, kind, op, operations), operations) == Some(stack)
  {
    var all := stack + OpenedBy(p, kind, op, operations);
    MatchSingle(Note(Complement(kind), p, op), all, operations);
    if Counts(Note(kind, p, op), operations) {
      assert all[..|all| - 1] == stack;
    } else {
      assert all == stack;
    }
  }

  lemma {:induction false} SetUpOpens(plugins: seq<Plugin>, kind: Kind, op: nat, stack: seq<Bracket>, operations: bool)
    requires Opens(kind)
    ensures Match(Notes(Listeners(plugins, kind), kind, op), stack, operations) ==
            Some(stack + Opened(plugins, kind, op, operations))
  {
    if plugins == [] {
      assert stack + [] == stack;
    } else {
      var init, p := plugins[..|plugins| - 1], plugins[|plugins| - 1];
      var before := Opened(init, kind, op, operations);
      SetUpOpens(init, kind, op, stack, operations);
      LastPlugin(plugins, kind, op);
      MatchConcat(Notes(Listeners(init, kind), kind, op), NoteOf(p, kind, op), stack, operations);
      PluginOpens(p, kind, op, stack + before, operations);
      assert stack + before + OpenedBy(p, kind, op, operations) == stack + (before + OpenedBy(p, kind, op, operations));
    }
  }

  lemma NothingNoted(kind: Kind, op: nat, stack: seq<Bracket>, operations: bool)
    ensures Match(Notes(Listeners([], kind), kind, op), stack, operations) == Some(stack)
  {
  }

  lemma {:induction false} TearDownCloses(
      plugins: seq<Plugin>, kind: Kind, op: nat, stack: seq<Bracket>, operations: bool)
    requires Opens(kind)
    ensures Match(Notes(Listeners(plugins, Complement(kind)), Complement(kind), op),
                  stack + Opened(plugins, kind, op, operations), operations) == Some(stack)
  {
    hide Counts, NoteOf, OpenedBy, MatchOne, Notes, Listeners, Match;
    if plugins == [] {
      NothingNoted(Complement(kind), op, stack, operations);
      assert stack + [] == stack;
    } else {
      var init, p, close := plugins[..|plugins| - 1], plugins[|plugins| - 1], Complement(kind);
      var before, own := Opened(init, kind, op, operations), OpenedBy(p, kind, op, operations);
      TearDownCloses(init, kind, op, stack, operations);
      LastPlugin(plugins, close, op);
      assert stack + (before + own) == stack + before + own;
      MatchConcat(NoteOf(p, close, op), Notes(Listeners(init, close), close, op), stack + before + own, operations);
      PluginCloses(p, kind, op, stack + before, operations);
    }
  }

  /** Results and failures open and close nothing. */
  lemma {:induction false} OthersDoNotCount(list: seq<Plugin>, kind: Kind, op: nat, stack: seq<Bracket>, operations: bool)
    requires !Opens(kind) && !Closes(kind)
    ensures Match(Notes(list, kind, op), stack, operations) == Some(stack)
  {
    if list != [] {
      var notes := Notes(list, kind, op);
      assert notes[..|notes| - 1] == Notes(list[..|list| - 1], kind, op);
      OthersDoNotCount(list[..|list| - 1], kind, op, stack, operations);
    }
  }

  lemma ResultsDoNotCount(plugins: seq<Plugin>, op: nat, stack: seq<Bracket>, operations: bool)
    ensures Match(ResultNotes(plugins, op), stack, operations) == Some(stack)
  {
    hide Notes, Listeners, Match;
    var results := Notes(Listeners(plugins, MeasurementResult), MeasurementResult, op);
    var requests := Notes(Listeners(plugins, MeasurementResultsRequested), MeasurementResultsRequested, op);
    OthersDoNotCount(Listeners(plugins, MeasurementResult), MeasurementResult, op, stack, operations);
    OthersDoNotCount(Listeners(plugins, MeasurementResultsRequested), MeasurementResultsRequested, op, stack, operations);
    MatchConcat(results, results, stack, operations);
    MatchConcat(results + results, requests, stack, operations);
  }

  /** An operation leaves brackets open only if its `run` throws. */
  lemma OperationMatches(plugins: seq<Plugin>, step: Step, op: nat, stack: seq<Bracket>, operations: bool)
    ensures Match(OperationNotes(plugins, step, op), stack, operations) ==
      Some(if step.RunThrows? then stack + Opened(plugins, AfterOperationSetUp, op, operations) else stack)
  {
    hide Notes, Listeners, Opened, ResultNotes, MatchOne;
    var opening := Notes(Listeners(plugins, AfterOperationSetUp), AfterOperationSetUp, op);
    var closing := Notes(Listeners(plugins, BeforeOperationTearDown), BeforeOperationTearDown, op);
    SetUpOpens(plugins, AfterOperationSetUp, op, stack, operations);
    TearDownCloses(plugins, AfterOperationSetUp, op, stack, operations);
    if step.SetUpThrows? {
      assert OperationNotes(plugins, step, op) == [];
    } else if step.RunThrows? {
      assert OperationNotes(plugins, step, op) == opening;
    } else {
      var results := if step.Succeeds? then ResultNotes(plugins, op) else [];
      ResultsDoNotCount(plugins, op, stack, operations);
      MatchConcat(opening, closing, stack, operations);
      MatchConcat(opening + closing, results, stack, operations);
      assert OperationNotes(plugins, step, op) == opening + closing + results;
    }
  }

  /** The brackets that the last of the given operations leaves open. */
  function LeftOpen(plugins: seq<Plugin>, ops: seq<Operation>, operations: bool): seq<Bracket> {
    if ops != [] && ops[|ops| - 1].step.RunThrows? then Opened(plugins, AfterOperationSetUp, |ops| - 1, operations)
    else []
  }

  lemma {:induction false} OperationsMatch(
      plugins: seq<Plugin>, ops: seq<Operation>, stack: seq<Bracket>, operations: bool)
    requires Succeed(ops, |ops| - 1)
    ensures Match(OperationsNotes(plugins, ops), stack, operations) == Some(stack + LeftOpen(plugins, ops, operations))
  {
    if ops == [] {
      assert stack + [] == stack;
    } else {
      var init, last := ops[..|ops| - 1], ops[|ops| - 1];
      OperationsMatch(plugins, init, stack, operations);
      assert init != [] ==> init[|init| - 1].step.Succeeds?;
      assert stack + [] == stack;
      MatchConcat(OperationsNotes(plugins, init), OperationNotes(plugins, last.step, |ops| - 1), stack, operations);
      OperationMatches(plugins, last.step, |ops| - 1, stack, operations);
    }
  }

  lemma {:induction false} NothingOpened(plugins: seq<Plugin>, op: nat)
    ensures Opened(plugins, AfterOperationSetUp, op, false) == []
  {
    if plugins != [] {
      NothingOpened(plugins[..|plugins| - 1], op);
    }
  }

  /** A closing event of the benchmark does not match an open bracket of an operation. */
  lemma {:induction false} NotesMismatch(list: seq<Plugin>, kind: Kind, stack: seq<Bracket>)
    requires !Opens(kind) && !OfOperation(kind) && stack != [] && OfOperation(stack[|stack| - 1].kind)
    ensures var r := Match(Notes(list, kind, 0), stack, true); r.None? || r == Some(stack)
  {
    if list != [] {
      var notes := Notes(list, kind, 0);
      assert notes[..|notes| - 1] == Notes(list[..|list| - 1], kind, 0);
      NotesMismatch(list[..|list| - 1], kind, stack);
    }
  }

  /** Whatever throws, the benchmark-level notifications are matched brackets. */
  lemma BenchmarkBracketsMatch(plugins: seq<Plugin>, setUpThrows: bool, ops: seq<Operation>)
    requires Succeed(ops, |ops| - 1)
    ensures Match(BenchmarkNotes(plugins, setUpThrows, ops), [], false) == Some([])
  {
    NothingOpened(plugins, |ops|);
    if ops != [] {
      NothingOpened(plugins, |ops| - 1);
    }
    BracketsMatch(plugins, setUpThrows, ops, false);
  }

  lemma BracketsMatch(plugins: seq<Plugin>, setUpThrows: bool, ops: seq<Operation>, operations: bool)
    requires Succeed(ops, |ops| - 1)
    requires setUpThrows || LeftOpen(plugins, ops, operations) == []
    ensures Match(BenchmarkNotes(plugins, setUpThrows, ops), [], operations) == Some([])
  {
    hide Notes, Listeners, Match, Opened, InsideNotes, LeftOpen;
    var outer := Opened(plugins, BeforeBenchmarkSetUp, 0, operations);
    var first := Notes(Listeners(plugins, BeforeBenchmarkSetUp), BeforeBenchmarkSetUp, 0);
    var last := Notes(Listeners(plugins, AfterBenchmarkTearDown), AfterBenchmarkTearDown, 0);
    SetUpOpens(plugins, BeforeBenchmarkSetUp, 0, [], operations);
    TearDownCloses(plugins, BeforeBenchmarkSetUp, 0, [], operations);
    assert [] + outer == outer;
    if setUpThrows {
      assert BenchmarkNotes(plugins, setUpThrows, ops) == first + last;
      MatchConcat(first, last, [], operations);
    } else {
      InsideMatches(plugins, ops, outer, operations);
      MatchConcat(first, InsideNotes(plugins, ops), [], operations);
      MatchConcat(first + InsideNotes(plugins, ops), last, [], operations);
    }
  }

  lemma InsideMatches(plugins: seq<Plugin>, ops: seq<Operation>, outer: seq<Bracket>, operations: bool)
    requires Succeed(ops, |ops| - 1) && LeftOpen(plugins, ops, operations) == []
    ensures Match(InsideNotes(plugins, ops), outer, operations) == Some(outer)
  {
    hide Notes, Listeners, Match, Opened, OperationsNotes, LeftOpen;
    var a := Notes(Listeners(plugins, AfterBenchmarkSetUp), AfterBenchmarkSetUp, 0);
    var c := Notes(Listeners(plugins, BeforeBenchmarkTearDown), BeforeBenchmarkTearDown, 0);
    var inner := outer + Opened(plugins, AfterBenchmarkSetUp, 0, operations);
    SetUpOpens(plugins, AfterBenchmarkSetUp, 0, outer, operations);
    OperationsMatch(plugins, ops, inner, operations);
    assert inner + [] == inner;
    TearDownCloses(plugins, AfterBenchmarkSetUp, 0, outer, operations);
    MatchConcat(a, OperationsNotes(plugins, ops), outer, operations);
    MatchConcat(a + OperationsNotes(plugins, ops), c, outer, operations);
  }

  predicate Surrounds(p: Plugin) {
    AfterOperationSetUp in p.kinds && BeforeOperationTearDown in p.kinds
  }

  lemma {:induction false} NothingOpenedIff(plugins: seq<Plugin>, op: nat)
    ensures Opened(plugins, AfterOperationSetUp, op, true) == [] <==> forall p :: p in plugins ==> !Surrounds(p)
  {
    if plugins != [] {
      var init, p := plugins[..|plugins| - 1], plugins[|plugins| - 1];
      NothingOpenedIff(init, op);
      assert plugins == init + [p];
      assert OpenedBy(p, AfterOperationSetUp, op, true) == [] <==> !Surrounds(p);
    }
  }

  /** With the operation-level notifications the brackets match if and only if the last operation's `run` did not
      throw, or no plugin listens to both operation events. */
  lemma AllBracketsMatchIff(plugins: seq<Plugin>, setUpThrows: bool, ops: seq<Operation>)
    requires Succeed(ops, |ops| - 1) && (setUpThrows ==> ops == [])
    ensures Match(BenchmarkNotes(plugins, setUpThrows, ops), [], true) == Some([]) <==>
            (ops != [] && ops[|ops| - 1].step.RunThrows? ==> forall p :: p in plugins ==> !Surrounds(p))
  {
    hide Match, BenchmarkNotes, Opened;
    if ops != [] {
      NothingOpenedIff(plugins, |ops| - 1);
    }
    if LeftOpen(plugins, ops, true) == [] {
      BracketsMatch(plugins, setUpThrows, ops, true);
    } else {
      LeftOpenStays(plugins, ops);
    }
  }

  lemma {:induction false} OpenedKinds(plugins: seq<Plugin>, kind: Kind, op: nat, operations: bool)
    ensures forall b :: b in Opened(plugins, kind, op, operations) ==> b.kind == kind
  {
    if plugins != [] {
      OpenedKinds(plugins[..|plugins| - 1], kind, op, operations);
    }
  }

  lemma LeftOpenStays(plugins: seq<Plugin>, ops: seq<Operation>)
    requires Succeed(ops, |ops| - 1) && LeftOpen(plugins, ops, true) != []
    ensures Match(BenchmarkNotes(plugins, false, ops), [], true) != Some([])
  {
    var first := Notes(Listeners(plugins, BeforeBenchmarkSetUp), BeforeBenchmarkSetUp, 0);
    var last := Notes(Listeners(plugins, AfterBenchmarkTearDown), AfterBenchmarkTearDown, 0);
    var a := Notes(Listeners(plugins, AfterBenchmarkSetUp), AfterBenchmarkSetUp, 0);
    var c := Notes(Listeners(plugins, BeforeBenchmarkTearDown), BeforeBenchmarkTearDown, 0);
    var outer := [] + Opened(plugins, BeforeBenchmarkSetUp, 0, true);
    var inner := outer + Opened(plugins, AfterBenchmarkSetUp, 0, true);
    var left := LeftOpen(plugins, ops, true);
    OpenedKinds(plugins, AfterOperationSetUp, |ops| - 1, true);
    assert left[|left| - 1] in left;
    SetUpOpens(plugins, BeforeBenchmarkSetUp, 0, [], true);
    SetUpOpens(plugins, AfterBenchmarkSetUp, 0, outer, true);
    OperationsMatch(plugins, ops, inner, true);
    NotesMismatch(Listeners(plugins, BeforeBenchmarkTearDown), BeforeBenchmarkTearDown, inner + left);
    NotesMismatch(Listeners(plugins, AfterBenchmarkTearDown), AfterBenchmarkTearDown, inner + left);
    MatchConcat(a, OperationsNotes(plugins, ops), outer, true);
    MatchConcat(a + OperationsNotes(plugins, ops), c, outer, true);
    MatchConcat(first, InsideNotes(plugins, ops), [], true);
    MatchConcat(first + InsideNotes(plugins, ops), last, [], true);
  }

  /** One plugin that listens around operations, and one operation whose `run` throws. */
  lemma ThrowingRunLeavesBracket()
    ensures var p := Plugin(0, {AfterOperationSetUp, BeforeOperationTearDown});
      Match(BenchmarkNotes([p], false, [Operation(RunThrows, 0, 0)]), [], true) != Some([])
  {
    hide Match, BenchmarkNotes;
    var p := Plugin(0, {AfterOperationSetUp, BeforeOperationTearDown});
    var ops := [Operation(RunThrows, 0, 0)];
    assert p in [p] && Surrounds(p);
    AllBracketsMatchIff([p], false, ops);
  }
}
