/** The benchmark harness: who is notified in which order, around a benchmark that may fail anywhere, and which
    operation the execution policies call the last one. */
module Harness {

  datatype Option<T> = None | Some(value: T)

  // ---------- listeners ----------

  datatype Kind =
    | AfterHarnessInit | BeforeHarnessShutdown
    | BeforeBenchmarkSetUp | AfterBenchmarkTearDown
    | AfterBenchmarkSetUp | BeforeBenchmarkTearDown
    | AfterOperationSetUp | BeforeOperationTearDown
    | MeasurementResult | MeasurementResultsRequested | BenchmarkFailure

  /** A plugin and the listener interfaces it implements. */
  datatype Plugin = Plugin(id: nat, kinds: set<Kind>)

  /** The set-up events; each has a complementary tear-down event. */
  predicate Opens(kind: Kind) {
    kind.AfterHarnessInit? || kind.BeforeBenchmarkSetUp? || kind.AfterBenchmarkSetUp? || kind.AfterOperationSetUp?
  }

  /** The tear-down events. */
  predicate Closes(kind: Kind) {
    !Opens(kind) && !kind.MeasurementResult? && !kind.MeasurementResultsRequested? && !kind.BenchmarkFailure?
  }

  function Complement(kind: Kind): Kind {
    match kind
    case AfterHarnessInit => BeforeHarnessShutdown
    case BeforeHarnessShutdown => AfterHarnessInit
    case BeforeBenchmarkSetUp => AfterBenchmarkTearDown
    case AfterBenchmarkTearDown => BeforeBenchmarkSetUp
    case AfterBenchmarkSetUp => BeforeBenchmarkTearDown
    case BeforeBenchmarkTearDown => AfterBenchmarkSetUp
    case AfterOperationSetUp => BeforeOperationTearDown
    case BeforeOperationTearDown => AfterOperationSetUp
    case _ => kind
  }

  /** The plugins that implement `kind`, in registration order. */
  function Implementing(plugins: seq<Plugin>, kind: Kind): seq<Plugin> {
    if plugins == [] then []
    else
      var last := plugins[|plugins| - 1];
      Implementing(plugins[..|plugins| - 1], kind) + if kind in last.kinds then [last] else []
  }

  function Reverse<T>(s: seq<T>): seq<T> {
    if s == [] then [] else [s[|s| - 1]] + Reverse(s[..|s| - 1])
  }

  /** Tear-down listeners are called in the opposite order of registration, all others in that order. */
  function Listeners(plugins: seq<Plugin>, kind: Kind): seq<Plugin> {
    if Closes(kind) then Reverse(Implementing(plugins, kind)) else Implementing(plugins, kind)
  }

  /** The dispatcher's builder. */
  class Builder {
    var afterHarnessInitListeners: seq<Plugin>
    var beforeHarnessShutdownListeners: seq<Plugin>
    var beforeBenchmarkSetUpListeners: seq<Plugin>
    var afterBenchmarkTearDownListeners: seq<Plugin>
    var afterBenchmarkSetUpListeners: seq<Plugin>
    var beforeBenchmarkTearDownListeners: seq<Plugin>
    var afterOperationSetUpListeners: seq<Plugin>
    var beforeOperationTearDownListeners: seq<Plugin>
    var measurementResultListeners: seq<Plugin>
    var measurementResultPublishers: seq<Plugin>
    var benchmarkFailureListeners: seq<Plugin>
    /** The plugins registered so far. */
    ghost var plugins: seq<Plugin>

    ghost predicate BenchmarkLists(all: seq<Plugin>)
      reads this`afterHarnessInitListeners, this`beforeHarnessShutdownListeners
      reads this`beforeBenchmarkSetUpListeners, this`afterBenchmarkTearDownListeners
      reads this`afterBenchmarkSetUpListeners, this`beforeBenchmarkTearDownListeners
    {
      && afterHarnessInitListeners == Listeners(all, AfterHarnessInit)
      && beforeHarnessShutdownListeners == Listeners(all, BeforeHarnessShutdown)
      && beforeBenchmarkSetUpListeners == Listeners(all, BeforeBenchmarkSetUp)
      && afterBenchmarkTearDownListeners == Listeners(all, AfterBenchmarkTearDown)
      && afterBenchmarkSetUpListeners == Listeners(all, AfterBenchmarkSetUp)
      && beforeBenchmarkTearDownListeners == Listeners(all, BeforeBenchmarkTearDown)
    }

    ghost predicate OperationLists(all: seq<Plugin>)
      reads this`afterOperationSetUpListeners, this`beforeOperationTearDownListeners
      reads this`measurementResultListeners, this`measurementResultPublishers, this`benchmarkFailureListeners
    {
      && afterOperationSetUpListeners == Listeners(all, AfterOperationSetUp)
      && beforeOperationTearDownListeners == Listeners(all, BeforeOperationTearDown)
      && measurementResultListeners == Listeners(all, MeasurementResult)
      && measurementResultPublishers == Listeners(all, MeasurementResultsRequested)
      && benchmarkFailureListeners == Listeners(all, BenchmarkFailure)
    }

    ghost predicate Valid()
      reads this
    {
      BenchmarkLists(plugins) && OperationLists(plugins)
    }

    constructor ()
      ensures Valid() && plugins == []
    {
      afterHarnessInitListeners, beforeHarnessShutdownListeners, beforeBenchmarkSetUpListeners, afterBenchmarkTearDownListeners := [], [], [], [];
      afterBenchmarkSetUpListeners, beforeBenchmarkTearDownListeners, afterOperationSetUpListeners, beforeOperationTearDownListeners := [], [], [], [];
      measurementResultListeners, measurementResultPublishers, benchmarkFailureListeners := [], [], [];
      plugins := [];
    }

    static function AppendInstanceOf(plugin: Plugin, kind: Kind, listeners: seq<Plugin>): seq<Plugin> {
      if kind in plugin.kinds then listeners + [plugin] else listeners
    }

    static function PrependInstanceOf(plugin: Plugin, kind: Kind, listeners: seq<Plugin>): seq<Plugin> {
      if kind in plugin.kinds then [plugin] + listeners else listeners
    }

    method WithPlugin(plugin: Plugin)
      requires Valid()
      modifies this
      ensures Valid() && plugins == old(plugins) + [plugin]
    {
      hide Builder.BenchmarkLists, Builder.OperationLists;
      AddToBenchmarkLists(plugin);
      AddToOperationLists(plugin);
      plugins := plugins + [plugin];
    }

    method AddToBenchmarkLists(plugin: Plugin)
      requires BenchmarkLists(plugins)
      modifies this`afterHarnessInitListeners, this`beforeHarnessShutdownListeners
      modifies this`beforeBenchmarkSetUpListeners, this`afterBenchmarkTearDownListeners
      modifies this`afterBenchmarkSetUpListeners, this`beforeBenchmarkTearDownListeners
      ensures BenchmarkLists(plugins + [plugin])
    {
      hide Listeners, Builder.AppendInstanceOf, Builder.PrependInstanceOf;
      OneMoreListener(plugins, plugin, AfterHarnessInit);
      afterHarnessInitListeners := AppendInstanceOf(plugin, AfterHarnessInit, afterHarnessInitListeners);
      OneMoreListener(plugins, plugin, BeforeHarnessShutdown);
      beforeHarnessShutdownListeners := PrependInstanceOf(plugin, BeforeHarnessShutdown, beforeHarnessShutdownListeners);
      OneMoreListener(plugins, plugin, BeforeBenchmarkSetUp);
      beforeBenchmarkSetUpListeners := AppendInstanceOf(plugin, BeforeBenchmarkSetUp, beforeBenchmarkSetUpListeners);
      OneMoreListener(plugins, plugin, AfterBenchmarkTearDown);
      afterBenchmarkTearDownListeners := PrependInstanceOf(plugin, AfterBenchmarkTearDown, afterBenchmarkTearDownListeners);
      OneMoreListener(plugins, plugin, AfterBenchmarkSetUp);
      afterBenchmarkSetUpListeners := AppendInstanceOf(plugin, AfterBenchmarkSetUp, afterBenchmarkSetUpListeners);
      OneMoreListener(plugins, plugin, BeforeBenchmarkTearDown);
      beforeBenchmarkTearDownListeners := PrependInstanceOf(plugin, BeforeBenchmarkTearDown, beforeBenchmarkTearDownListeners);
    }

    method AddToOperationLists(plugin: Plugin)
      requires OperationLists(plugins)
      modifies this`afterOperationSetUpListeners, this`beforeOperationTearDownListeners
      modifies this`measurementResultListeners, this`measurementResultPublishers
      modifies this`benchmarkFailureListeners
      ensures OperationLists(plugins + [plugin])
    {
      hide Listeners, Builder.AppendInstanceOf, Builder.PrependInstanceOf;
      OneMoreListener(plugins, plugin, AfterOperationSetUp);
      afterOperationSetUpListeners := AppendInstanceOf(plugin, AfterOperationSetUp, afterOperationSetUpListeners);
      OneMoreListener(plugins, plugin, BeforeOperationTearDown);
      beforeOperationTearDownListeners := PrependInstanceOf(plugin, BeforeOperationTearDown, beforeOperationTearDownListeners);
      OneMoreListener(plugins, plugin, MeasurementResult);
      measurementResultListeners := AppendInstanceOf(plugin, MeasurementResult, measurementResultListeners);
      OneMoreListener(plugins, plugin, MeasurementResultsRequested);
      measurementResultPublishers := AppendInstanceOf(plugin, MeasurementResultsRequested, measurementResultPublishers);
      OneMoreListener(plugins, plugin, BenchmarkFailure);
      benchmarkFailureListeners := AppendInstanceOf(plugin, BenchmarkFailure, benchmarkFailureListeners);
    }
  }

  lemma OneMoreListener(plugins: seq<Plugin>, plugin: Plugin, kind: Kind)
    ensures Listeners(plugins + [plugin], kind) ==
      if Closes(kind) then Builder.PrependInstanceOf(plugin, kind, Listeners(plugins, kind))
      else Builder.AppendInstanceOf(plugin, kind, Listeners(plugins, kind))
  {
    AddListener(plugins, plugin, kind);
  }

  lemma AddListener(plugins: seq<Plugin>, plugin: Plugin, kind: Kind)
    ensures Listeners(plugins + [plugin], kind) ==
      if kind !in plugin.kinds then Listeners(plugins, kind)
      else if Closes(kind) then [plugin] + Listeners(plugins, kind)
      else Listeners(plugins, kind) + [plugin]
  {
    assert (plugins + [plugin])[..|plugins|] == plugins;
    var before := Implementing(plugins, kind);
    assert (before + [plugin])[..|before|] == before && before + [] == before;
  }

  // ---------- policies ----------

  class FixedOpCount {
    const limit: int
    var countLimit: int

    constructor (limit: int)
      ensures this.limit == limit
    {
      this.limit := limit;
    }
  }

  class FixedTime {
    const runTimeNanos: int
    var endNanos: int
    var elapsedCount: int

    constructor (runTimeNanos: int)
      ensures this.runTimeNanos == runTimeNanos
    {
      this.runTimeNanos := runTimeNanos;
    }
  }

  class FixedOpTime {
    const operationRunTimeNanos: int
    var remainingNanos: int
    var elapsedCount: int

    constructor (operationRunTimeNanos: int)
      ensures this.operationRunTimeNanos == operationRunTimeNanos
    {
      this.operationRunTimeNanos := operationRunTimeNanos;
    }
  }

  /** What a policy has counted. */
  datatype View =
    | OpCountView(limit: int)
    | TimeView(endNanos: int, elapsedCount: int)
    | OpTimeView(remainingNanos: int, elapsedCount: int)
  {
    predicate CanExecute(opIndex: nat) {
      if OpCountView? then opIndex < limit else elapsedCount <= 1
    }

    predicate IsLast(opIndex: nat) {
      if OpCountView? then opIndex + 1 == limit else elapsedCount == 1
    }

    /** After the notification before an operation's tear-down. */
    function Notified(now: int, durationNanos: int): View {
      match this
      case OpCountView(_) => this
      case TimeView(end, count) => TimeView(end, count + if now >= end then 1 else 0)
      case OpTimeView(remaining, count) =>
        OpTimeView(remaining - durationNanos, count + if remaining - durationNanos <= 0 then 1 else 0)
    }
  }

  datatype Policy = OpCount(count: FixedOpCount) | Time(time: FixedTime) | OpTime(opTime: FixedOpTime) {

    function Self(): object {
      match this case OpCount(p) => p case Time(p) => p case OpTime(p) => p
    }

    function View(): View
      reads Self()
    {
      match this
      case OpCount(p) => OpCountView(p.countLimit)
      case Time(p) => TimeView(p.endNanos, p.elapsedCount)
      case OpTime(p) => OpTimeView(p.remainingNanos, p.elapsedCount)
    }

    /** `afterBenchmarkSetUp` */
    method Reset(now: int)
      modifies Self()
      ensures View() == match this
        case OpCount(p) => OpCountView(p.limit)
        case Time(p) => TimeView(now + p.runTimeNanos, 0)
        case OpTime(p) => OpTimeView(p.operationRunTimeNanos, 0)
    {
      match this
      case OpCount(p) =>
        p.countLimit := p.limit;
      case Time(p) =>
        p.endNanos := now + p.runTimeNanos;
        p.elapsedCount := 0;
      case OpTime(p) =>
        p.remainingNanos := p.operationRunTimeNanos;
        p.elapsedCount := 0;
    }

    /** `beforeOperationTearDown`, for the policies that listen to it. */
    method BeforeTearDown(now: int, durationNanos: int)
      modifies Self()
      ensures View() == old(View()).Notified(now, durationNanos)
    {
      match this
      case OpCount(p) =>
      case Time(p) =>
        p.elapsedCount := p.elapsedCount + if now >= p.endNanos then 1 else 0;
      case OpTime(p) =>
        p.remainingNanos := p.remainingNanos - durationNanos;
        p.elapsedCount := p.elapsedCount + if p.remainingNanos <= 0 then 1 else 0;
    }

    method CanExecute(opIndex: nat) returns (b: bool)
      ensures b == View().CanExecute(opIndex)
    {
      match this
      case OpCount(p) => b := opIndex < p.countLimit;
      case Time(p) => b := p.elapsedCount <= 1;
      case OpTime(p) => b := p.elapsedCount <= 1;
    }

    method IsLast(opIndex: nat) returns (b: bool)
      ensures b == View().IsLast(opIndex)
    {
      match this
      case OpCount(p) => b := opIndex + 1 == p.countLimit;
      case Time(p) => b := p.elapsedCount == 1;
      case OpTime(p) => b := p.elapsedCount == 1;
    }
  }

  // ---------- the driver ----------

  /** A notification of one listener; operation events carry the operation's number. */
  datatype Note = Note(kind: Kind, plugin: Plugin, op: nat)

  /** What one operation meets: the first of its steps that throws, if any, its duration, and the clock when the
      policy is notified. */
  datatype Step = SetUpThrows | RunThrows | TearDownThrows | ValidationFails | Succeeds
  datatype Operation = Operation(step: Step, durationNanos: int, now: int)

  function Notes(listeners: seq<Plugin>, kind: Kind, op: nat): seq<Note> {
    seq(|listeners|, i requires 0 <= i < |listeners| => Note(kind, listeners[i], op))
  }

  /** The notifications of one operation. */
  function OperationNotes(plugins: seq<Plugin>, step: Step, op: nat): seq<Note> {
    (if step.SetUpThrows? then [] else Notes(Listeners(plugins, AfterOperationSetUp), AfterOperationSetUp, op)) +
    (if step.SetUpThrows? || step.RunThrows? then []
     else Notes(Listeners(plugins, BeforeOperationTearDown), BeforeOperationTearDown, op)) +
    (if step.Succeeds? then ResultNotes(plugins, op) else [])
  }

  /** How often a notification is in a trace. */
  ghost function Times(trace: seq<Note>, note: Note): nat {
    if trace == [] then 0 else Times(trace[..|trace| - 1], note) + if trace[|trace| - 1] == note then 1 else 0
  }

  /** How often a plugin has been registered. */
  ghost function Registered(plugins: seq<Plugin>, p: Plugin): nat {
    if plugins == [] then 0 else Registered(plugins[..|plugins| - 1], p) + if plugins[|plugins| - 1] == p then 1 else 0
  }

  lemma {:induction false} TimesConcat(a: seq<Note>, b: seq<Note>, note: Note)
    ensures Times(a + b, note) == Times(a, note) + Times(b, note)
  {
    if b == [] {
      assert a + b == a;
    } else {
      assert (a + b)[..|a + b| - 1] == a + b[..|b| - 1];
      TimesConcat(a, b[..|b| - 1], note);
    }
  }

  lemma {:induction false} RegisteredConcat(a: seq<Plugin>, b: seq<Plugin>, p: Plugin)
    ensures Registered(a + b, p) == Registered(a, p) + Registered(b, p)
  {
    if b == [] {
      assert a + b == a;
    } else {
      assert (a + b)[..|a + b| - 1] == a + b[..|b| - 1];
      RegisteredConcat(a, b[..|b| - 1], p);
    }
  }

  lemma {:induction false} RegisteredReverse(s: seq<Plugin>, p: Plugin)
    ensures Registered(Reverse(s), p) == Registered(s, p)
  {
    if s != [] {
      var init, last := s[..|s| - 1], s[|s| - 1];
      RegisteredReverse(init, p);
      RegisteredConcat([last], Reverse(init), p);
      assert [last][..0] == [];
    }
  }

  lemma {:induction false} RegisteredImplementing(plugins: seq<Plugin>, kind: Kind, p: Plugin)
    ensures Registered(Implementing(plugins, kind), p) == if kind in p.kinds then Registered(plugins, p) else 0
  {
    if plugins != [] {
      var init, last := plugins[..|plugins| - 1], plugins[|plugins| - 1];
      RegisteredImplementing(init, kind, p);
      RegisteredConcat(Implementing(init, kind), if kind in last.kinds then [last] else [], p);
      assert [last][..0] == [];
    }
  }

  lemma {:induction false} TimesNotes(listeners: seq<Plugin>, kind: Kind, op: nat, note: Note)
    ensures Times(Notes(listeners, kind, op), note) ==
            if note.kind == kind && note.op == op then Registered(listeners, note.plugin) else 0
  {
    if listeners != [] {
      var init := listeners[..|listeners| - 1];
      TimesNotes(init, kind, op, note);
      assert Notes(listeners, kind, op)[..|init|] == Notes(init, kind, op);
    }
  }

  /** Each listener is notified of an event as often as its plugin has been registered. */
  lemma TimesListeners(plugins: seq<Plugin>, kind: Kind, op: nat, note: Note)
    ensures Times(Notes(Listeners(plugins, kind), kind, op), note) ==
            if note.kind == kind && note.op == op && kind in note.plugin.kinds then Registered(plugins, note.plugin) else 0
  {
    TimesNotes(Listeners(plugins, kind), kind, op, note);
    RegisteredImplementing(plugins, kind, note.plugin);
    RegisteredReverse(Implementing(plugins, kind), note.plugin);
  }

  /** What every plugin is told of an operation: its set-up and tear-down as far as it gets, and if it succeeds two
      results, and the request for more. */
  lemma NotesOfOperation(plugins: seq<Plugin>, step: Step, op: nat, note: Note)
    ensures
      var times := if note.op != op || note.kind !in note.plugin.kinds then 0
                   else match note.kind
                        case AfterOperationSetUp => if step.SetUpThrows? then 0 else 1
                        case BeforeOperationTearDown => if step.SetUpThrows? || step.RunThrows? then 0 else 1
                        case MeasurementResult => if step.Succeeds? then 2 else 0
                        case MeasurementResultsRequested => if step.Succeeds? then 1 else 0
                        case _ => 0;
      Times(OperationNotes(plugins, step, op), note) == times * Registered(plugins, note.plugin)
  {
    hide Notes, Listeners, Times, Registered;
    var opening := Notes(Listeners(plugins, AfterOperationSetUp), AfterOperationSetUp, op);
    var closing := Notes(Listeners(plugins, BeforeOperationTearDown), BeforeOperationTearDown, op);
    var results := Notes(Listeners(plugins, MeasurementResult), MeasurementResult, op);
    var request := Notes(Listeners(plugins, MeasurementResultsRequested), MeasurementResultsRequested, op);
    TimesListeners(plugins, AfterOperationSetUp, op, note);
    TimesListeners(plugins, BeforeOperationTearDown, op, note);
    TimesListeners(plugins, MeasurementResult, op, note);
    TimesListeners(plugins, MeasurementResultsRequested, op, note);
    TimesNothing(note);
    TimesConcat(results, results, note);
    TimesConcat(results + results, request, note);
    var first, second := if step.SetUpThrows? then [] else opening, if step.SetUpThrows? || step.RunThrows? then [] else closing;
    TimesConcat(first, second, note);
    TimesConcat(first + second, if step.Succeeds? then ResultNotes(plugins, op) else [], note);
  }

  lemma TimesNothing(note: Note)
    ensures Times([], note) == 0
  {
  }

  /** The results of a valid operation: its two own metrics, and the request for further ones. */
  function ResultNotes(plugins: seq<Plugin>, op: nat): seq<Note> {
    Notes(Listeners(plugins, MeasurementResult), MeasurementResult, op) +
    Notes(Listeners(plugins, MeasurementResult), MeasurementResult, op) +
    Notes(Listeners(plugins, MeasurementResultsRequested), MeasurementResultsRequested, op)
  }

  function OperationsNotes(plugins: seq<Plugin>, ops: seq<Operation>): seq<Note> {
    if ops == [] then []
    else
      OperationsNotes(plugins, ops[..|ops| - 1]) + OperationNotes(plugins, ops[|ops| - 1].step, |ops| - 1)
  }

  method Notify(listeners: seq<Plugin>, kind: Kind, op: nat, trace: seq<Note>) returns (trace': seq<Note>)
    ensures trace' == trace + Notes(listeners, kind, op)
  {
    trace' := trace;
    for i := 0 to |listeners|
      invariant trace' == trace + Notes(listeners[..i], kind, op)
    {
      assert Notes(listeners[..i + 1], kind, op) == Notes(listeners[..i], kind, op) + [Note(kind, listeners[i], op)];
      trace' := trace' + [Note(kind, listeners[i], op)];
    }
    assert listeners[..|listeners|] == listeners;
  }

  /** `isLast` is the answer of the policy, for which it is asked only once the operation is set up. */
  method ExecuteOperation(builder: Builder, policy: Policy, o: Operation, index: nat, trace: seq<Note>)
    returns (trace': seq<Note>, threw: bool, isLast: Option<bool>)
    requires builder.Valid() && policy.Self() != builder
    modifies policy.Self()
    ensures trace' == trace + OperationNotes(builder.plugins, o.step, index) && (threw <==> !o.step.Succeeds?)
    ensures isLast == if o.step.SetUpThrows? then None else Some(old(policy.View()).IsLast(index))
    ensures policy.View() ==
      if o.step.SetUpThrows? || o.step.RunThrows? then old(policy.View()) else old(policy.View()).Notified(o.now, o.durationNanos)
  {
    hide Notes, Listeners, ResultNotes;
    ghost var plugins := builder.plugins;
    ghost var opening := Notes(Listeners(plugins, AfterOperationSetUp), AfterOperationSetUp, index);
    ghost var closing := Notes(Listeners(plugins, BeforeOperationTearDown), BeforeOperationTearDown, index);
    trace', threw, isLast := trace, true, None;
    if o.step.SetUpThrows? {
      Associate(trace, [], []);
      return;
    }
    var last := policy.IsLast(index);
    isLast := Some(last);
    trace' := Notify(builder.afterOperationSetUpListeners, AfterOperationSetUp, index, trace');
    if o.step.RunThrows? {
      Associate(trace, opening, []);
      return;
    }
    policy.BeforeTearDown(o.now, o.durationNanos);
    trace' := Notify(builder.beforeOperationTearDownListeners, BeforeOperationTearDown, index, trace');
    Associate(trace, opening, closing);
    if !o.step.Succeeds? {
      Associate(trace, opening + closing, []);
      return;
    }
    trace' := ReportResults(builder, index, trace');
    Associate(trace, opening + closing, ResultNotes(plugins, index));
    threw := false;
  }

  /** The metrics of a valid operation go to the listeners, and then the publishers are asked for theirs. */
  method ReportResults(builder: Builder, index: nat, trace: seq<Note>) returns (trace': seq<Note>)
    requires builder.Valid()
    ensures trace' == trace + ResultNotes(builder.plugins, index)
  {
    ghost var results := Notes(Listeners(builder.plugins, MeasurementResult), MeasurementResult, index);
    trace' := Notify(builder.measurementResultListeners, MeasurementResult, index, trace);
    trace' := Notify(builder.measurementResultListeners, MeasurementResult, index, trace');
    trace' := Notify(builder.measurementResultPublishers, MeasurementResultsRequested, index, trace');
    Regroup(trace, results, results,
            Notes(Listeners(builder.plugins, MeasurementResultsRequested), MeasurementResultsRequested, index));
  }

  /** How a benchmark run ends: it stops, an exception leaves it, or the given operations do not suffice for the
      policy to stop. */
  datatype End = Stopped | Threw | StillRunning

  ghost predicate MonotoneClock(start: int, ops: seq<Operation>) {
    && (forall i :: 0 <= i < |ops| ==> start <= ops[i].now && 0 <= ops[i].durationNanos)
    && (forall i, j :: 0 <= i < j < |ops| ==> ops[i].now <= ops[j].now)
  }

  /** The durations of the first `n` operations together. */
  ghost function Total(ops: seq<Operation>, n: nat): int
    requires n <= |ops|
  {
    if n == 0 then 0 else Total(ops, n - 1) + ops[n - 1].durationNanos
  }

  /** When the first `n` operations are done, the time of the policy is up: the time from the start on, or the time of
      the operations alone. */
  ghost predicate IsUp(policy: Policy, start: int, ops: seq<Operation>, n: nat)
    requires n <= |ops|
  {
    n > 0 &&
    match policy
    case OpCount(_) => false
    case Time(p) => ops[n - 1].now - start >= p.runTimeNanos
    case OpTime(p) => Total(ops, n) >= p.operationRunTimeNanos
  }

  /** Operation number `n` is started: there are at most as many as the policy wants, or the time was not up before the
      operation before the last one was done. */
  ghost predicate MayRun(policy: Policy, start: int, ops: seq<Operation>, n: nat)
    requires n <= |ops|
  {
    match policy
    case OpCount(p) => n < p.limit
    case _ => n == 0 || !IsUp(policy, start, ops, n - 1)
  }

  /** What the policy has counted when the first `n` operations are done. */
  ghost predicate Counted(policy: Policy, start: int, ops: seq<Operation>, n: nat)
    requires n <= |ops|
    reads policy.Self()
  {
    var count := (if IsUp(policy, start, ops, n) then 1 else 0) + if n > 0 && IsUp(policy, start, ops, n - 1) then 1 else 0;
    policy.View() ==
      match policy
      case OpCount(p) => OpCountView(p.limit)
      case Time(p) => TimeView(start + p.runTimeNanos, count)
      case OpTime(p) => OpTimeView(p.operationRunTimeNanos - Total(ops, n), count)
  }

  lemma UpStaysUp(policy: Policy, start: int, ops: seq<Operation>, n: nat)
    requires MonotoneClock(start, ops) && n < |ops| && IsUp(policy, start, ops, n)
    ensures IsUp(policy, start, ops, n + 1)
  {
  }

  lemma MayStillRun(policy: Policy, start: int, ops: seq<Operation>, n: nat)
    requires n <= |ops| && Counted(policy, start, ops, n) && MonotoneClock(start, ops)
    requires n > 0 ==> MayRun(policy, start, ops, n - 1)
    ensures policy.View().CanExecute(n) <==> MayRun(policy, start, ops, n)
    ensures n < |ops| && MayRun(policy, start, ops, n) ==> (policy.View().IsLast(n) <==> !MayRun(policy, start, ops, n + 1))
  {
    if n > 1 && IsUp(policy, start, ops, n - 1) {
      UpStaysUp(policy, start, ops, n - 1);
    }
  }

  /** The view after one operation more. */
  ghost predicate CountsNext(policy: Policy, view: View, start: int, ops: seq<Operation>, n: nat)
    requires n < |ops|
  {
    var count := (if IsUp(policy, start, ops, n + 1) then 1 else 0) + if IsUp(policy, start, ops, n) then 1 else 0;
    view ==
      match policy
      case OpCount(p) => OpCountView(p.limit)
      case Time(p) => TimeView(start + p.runTimeNanos, count)
      case OpTime(p) => OpTimeView(p.operationRunTimeNanos - Total(ops, n + 1), count)
  }

  lemma CountedNext(policy: Policy, start: int, ops: seq<Operation>, n: nat)
    requires n < |ops| && Counted(policy, start, ops, n) && MayRun(policy, start, ops, n)
    ensures CountsNext(policy, policy.View().Notified(ops[n].now, ops[n].durationNanos), start, ops, n)
  {
  }

  lemma CountedAfter(policy: Policy, start: int, ops: seq<Operation>, n: nat)
    requires n < |ops| && CountsNext(policy, policy.View(), start, ops, n)
    ensures Counted(policy, start, ops, n + 1)
  {
    hide IsUp, Total;
  }

  /** The operations that were started are those that the policy lets run, and it calls one the last if and only if it
      would let no other run. */
  ghost predicate RanUnder(policy: Policy, start: int, ops: seq<Operation>, started: nat, flags: seq<bool>, end: End)
    requires started <= |ops| && |flags| <= started
  {
    && (forall n: nat :: n < started ==> MayRun(policy, start, ops, n))
    && (forall n: nat :: n < |flags| ==> (flags[n] <==> !MayRun(policy, start, ops, n + 1)))
    && (end.Stopped? ==> !MayRun(policy, start, ops, started))
    && (end.StillRunning? ==> started == |ops| && MayRun(policy, start, ops, started))
  }

  lemma NothingRan(policy: Policy, start: int, ops: seq<Operation>)
    ensures RanUnder(policy, start, ops, 0, [], Threw)
  {
  }

  lemma EndsHere(policy: Policy, start: int, ops: seq<Operation>, flags: seq<bool>, end: End)
    requires |flags| <= |ops| && RanUnder(policy, start, ops, |flags|, flags, Threw)
    requires end.Stopped? ==> !MayRun(policy, start, ops, |flags|)
    requires end.StillRunning? ==> |flags| == |ops| && MayRun(policy, start, ops, |flags|)
    ensures RanUnder(policy, start, ops, |flags|, flags, end)
  {
    hide MayRun;
  }

  lemma NoneBefore(policy: Policy, start: int, ops: seq<Operation>, flags: seq<bool>)
    requires |flags| <= |ops| && RanUnder(policy, start, ops, |flags|, flags, Threw)
    ensures |flags| > 0 ==> MayRun(policy, start, ops, |flags| - 1)
  {
  }

  lemma RanOneMore(policy: Policy, start: int, ops: seq<Operation>, flags: seq<bool>, more: seq<bool>)
    requires |flags| < |ops| && RanUnder(policy, start, ops, |flags|, flags, Threw) && MayRun(policy, start, ops, |flags|)
    requires |more| <= 1 && forall last :: last in more ==> (last <==> !MayRun(policy, start, ops, |flags| + 1))
    ensures RanUnder(policy, start, ops, |flags| + 1, flags + more, Threw)
  {
    hide MayRun;
    assert forall n: nat :: n < |flags| ==> (flags + more)[n] == flags[n];
    assert more != [] ==> (flags + more)[|flags|] in more;
  }

  ghost predicate OnlyLast(flags: seq<bool>) {
    forall i :: 0 <= i < |flags| ==> (flags[i] <==> i == |flags| - 1)
  }

  /** So in a run that stops, exactly the final operation is called the last. */
  lemma StoppedAfterLast(policy: Policy, start: int, ops: seq<Operation>, flags: seq<bool>)
    requires |flags| <= |ops| && RanUnder(policy, start, ops, |flags|, flags, Stopped)
    ensures OnlyLast(flags)
  {
    forall n: nat | n < |flags|
      ensures flags[n] <==> n == |flags| - 1
    {
      assert n + 1 < |flags| ==> MayRun(policy, start, ops, n + 1);
    }
  }

  /** The first `n` operations succeed. */
  ghost predicate Succeed(ops: seq<Operation>, n: int) {
    forall i :: 0 <= i < n && i < |ops| ==> ops[i].step.Succeeds?
  }

  lemma SucceedNone(ops: seq<Operation>)
    ensures Succeed(ops, 0) && Succeed(ops, -1)
  {
  }

  lemma SucceedToLast(ops: seq<Operation>, n: nat)
    requires n <= |ops| && Succeed(ops, n)
    ensures Succeed(ops, n - 1) && (n > 0 ==> ops[n - 1].step.Succeeds?)
  {
  }

  lemma SucceedOneMore(ops: seq<Operation>, n: nat)
    requires n < |ops|
    ensures Succeed(ops, n + 1) <==> Succeed(ops, n) && ops[n].step.Succeeds?
    ensures Succeed(ops, n) ==> Succeed(ops, n - 1)
  {
  }

  method ExecuteNext(
      builder: Builder, policy: Policy, ghost start: int, ops: seq<Operation>, flags: seq<bool>,
      ghost before: seq<Note>, trace: seq<Note>)
    returns (trace': seq<Note>, threw: bool, flags': seq<bool>)
    requires builder.Valid() && policy.Self() != builder && MonotoneClock(start, ops)
    requires |flags| < |ops| && Counted(policy, start, ops, |flags|) && RanUnder(policy, start, ops, |flags|, flags, Threw)
    requires MayRun(policy, start, ops, |flags|) && trace == before + OperationsNotes(builder.plugins, ops[..|flags|])
    modifies policy.Self()
    ensures threw <==> !ops[|flags|].step.Succeeds?
    ensures |flags'| == |flags| + if ops[|flags|].step.SetUpThrows? then 0 else 1
    ensures RanUnder(policy, start, ops, |flags| + 1, flags', Threw)
    ensures trace' == before + OperationsNotes(builder.plugins, ops[..|flags| + 1])
    ensures !threw ==> Counted(policy, start, ops, |flags| + 1)
  {
    hide OperationsNotes, OperationNotes, IsUp, MayRun, RanUnder, Counted, CountsNext, MonotoneClock;
    var isLast;
    CountedNext(policy, start, ops, |flags|);
    NoneBefore(policy, start, ops, flags);
    MayStillRun(policy, start, ops, |flags|);
    AddOperation(builder.plugins, ops, |flags|, before);
    trace', threw, isLast := ExecuteOperation(builder, policy, ops[|flags|], |flags|, trace);
    RanOneMore(policy, start, ops, flags, if isLast.Some? then [isLast.value] else []);
    flags' := if isLast.Some? then flags + [isLast.value] else flags;
    assert flags + [] == flags;
    if !threw {
      CountedAfter(policy, start, ops, |flags|);
    }
  }

  /** The number of operations that were started, and the answers of `isLast`: one for each of them, except for
      one that could not be set up. */
  ghost predicate Asked(ops: seq<Operation>, started: nat, flags: seq<bool>) {
    && started <= |ops| && Succeed(ops, started - 1)
    && |flags| == if started > 0 && ops[started - 1].step.SetUpThrows? then started - 1 else started
  }

  /** The loop over the operations. */
  method ExecuteOperations(builder: Builder, policy: Policy, ghost start: int, ops: seq<Operation>, trace: seq<Note>)
    returns (trace': seq<Note>, end: End, started: nat, flags: seq<bool>)
    requires builder.Valid() && policy.Self() != builder && MonotoneClock(start, ops)
    requires Counted(policy, start, ops, 0)
    modifies policy.Self()
    ensures Asked(ops, started, flags) && trace' == trace + OperationsNotes(builder.plugins, ops[..started])
    ensures RanUnder(policy, start, ops, started, flags, end)
    ensures end.Threw? <==> !Succeed(ops, started)
    ensures end.Stopped? ==> OnlyLast(flags)
  {
    hide Counted, OperationsNotes, OnlyLast, MonotoneClock, MayRun, RanUnder, IsUp, View.Notified, View.CanExecute, Succeed;
    NothingRan(policy, start, ops);
    SucceedNone(ops);
    trace', flags, started := trace, [], 0;
    NoOperations(builder.plugins, ops, trace);
    MayStillRun(policy, start, ops, 0);
    var more := policy.CanExecute(0);
    while started < |ops| && more
      invariant |flags| == started <= |ops| && Succeed(ops, started)
      invariant trace' == trace + OperationsNotes(builder.plugins, ops[..started])
      invariant Counted(policy, start, ops, started) && RanUnder(policy, start, ops, started, flags, Threw)
      invariant more == MayRun(policy, start, ops, started)
    {
      var threw;
      SucceedOneMore(ops, started);
      trace', threw, flags := ExecuteNext(builder, policy, start, ops, flags, trace, trace');
      started := started + 1;
      if threw {
        return trace', Threw, started, flags;
      }
      NoneBefore(policy, start, ops, flags);
      MayStillRun(policy, start, ops, started);
      more := policy.CanExecute(started);
    }
    SucceedToLast(ops, started);
    end := if more then StillRunning else Stopped;
    EndsHere(policy, start, ops, flags, end);
    if end.Stopped? {
      StoppedAfterLast(policy, start, ops, flags);
    }
  }

  lemma NoOperations(plugins: seq<Plugin>, ops: seq<Operation>, trace: seq<Note>)
    ensures trace + OperationsNotes(plugins, ops[..0]) == trace
  {
  }

  lemma Associate<T>(a: seq<T>, b: seq<T>, c: seq<T>)
    ensures (a + b) + c == a + (b + c) && c + [] == c
  {
  }

  lemma AddOperation(plugins: seq<Plugin>, ops: seq<Operation>, n: nat, trace: seq<Note>)
    requires n < |ops|
    ensures trace + OperationsNotes(plugins, ops[..n]) + OperationNotes(plugins, ops[n].step, n) ==
            trace + OperationsNotes(plugins, ops[..n + 1])
  {
    assert ops[..n + 1][..n] == ops[..n];
    Associate(trace, OperationsNotes(plugins, ops[..n]), OperationNotes(plugins, ops[n].step, n));
  }

  /** The part between a successful benchmark set-up and the benchmark tear-down, notifications included. */
  method ExecuteInside(builder: Builder, policy: Policy, start: int, ops: seq<Operation>, trace: seq<Note>)
    returns (trace': seq<Note>, end: End, started: nat, flags: seq<bool>)
    requires builder.Valid() && policy.Self() != builder && MonotoneClock(start, ops)
    modifies policy.Self()
    ensures Asked(ops, started, flags) && trace' == trace + InsideNotes(builder.plugins, ops[..started])
    ensures RanUnder(policy, start, ops, started, flags, end)
    ensures end.Threw? <==> !Succeed(ops, started)
    ensures end.Stopped? ==> OnlyLast(flags)
  {
    trace' := Notify(builder.afterBenchmarkSetUpListeners, AfterBenchmarkSetUp, 0, trace);
    policy.Reset(start);
    trace', end, started, flags := ExecuteOperations(builder, policy, start, ops, trace');
    trace' := Notify(builder.beforeBenchmarkTearDownListeners, BeforeBenchmarkTearDown, 0, trace');
    Regroup(trace, Notes(Listeners(builder.plugins, AfterBenchmarkSetUp), AfterBenchmarkSetUp, 0),
            OperationsNotes(builder.plugins, ops[..started]),
            Notes(Listeners(builder.plugins, BeforeBenchmarkTearDown), BeforeBenchmarkTearDown, 0));
  }

  lemma Regroup<T>(a: seq<T>, b: seq<T>, c: seq<T>, d: seq<T>)
    ensures a + b + c + d == a + (b + c + d)
  {
  }

  /** `executeBenchmark`: whatever throws, the brackets that were opened are closed. */
  method ExecuteBenchmark(
      builder: Builder, policy: Policy, setUpThrows: bool, tearDownThrows: bool, start: int, ops: seq<Operation>)
    returns (trace: seq<Note>, end: End, started: nat, flags: seq<bool>, ghost inside: End)
    requires builder.Valid() && policy.Self() != builder && MonotoneClock(start, ops)
    modifies policy.Self()
    ensures Asked(ops, started, flags) && trace == BenchmarkNotes(builder.plugins, setUpThrows, ops[..started])
    ensures setUpThrows ==> started == 0
    ensures RanUnder(policy, start, ops, started, flags, inside) && (!setUpThrows ==> (inside.Threw? <==> !Succeed(ops, started)))
    ensures end == if setUpThrows || tearDownThrows then Threw else inside
    ensures end.Threw? <==> setUpThrows || tearDownThrows || !Succeed(ops, started)
    ensures end.Stopped? ==> OnlyLast(flags)
  {
    hide Notes, InsideNotes, Listeners, OnlyLast, MonotoneClock;
    trace := Notify(builder.beforeBenchmarkSetUpListeners, BeforeBenchmarkSetUp, 0, []);
    end, started, flags, inside := Threw, 0, [], Threw;
    if setUpThrows {
      Associate([], [], trace);
    } else {
      trace, end, started, flags := ExecuteInside(builder, policy, start, ops, trace);
      inside := end;
      if tearDownThrows {
        end := Threw;
      }
    }
    trace := Notify(builder.afterBenchmarkTearDownListeners, AfterBenchmarkTearDown, 0, trace);
  }

  function InsideNotes(plugins: seq<Plugin>, ops: seq<Operation>): seq<Note> {
    Notes(Listeners(plugins, AfterBenchmarkSetUp), AfterBenchmarkSetUp, 0) +
    OperationsNotes(plugins, ops) +
    Notes(Listeners(plugins, BeforeBenchmarkTearDown), BeforeBenchmarkTearDown, 0)
  }

  function BenchmarkNotes(plugins: seq<Plugin>, setUpThrows: bool, ops: seq<Operation>): seq<Note> {
    Notes(Listeners(plugins, BeforeBenchmarkSetUp), BeforeBenchmarkSetUp, 0) +
    (if setUpThrows then [] else InsideNotes(plugins, ops)) +
    Notes(Listeners(plugins, AfterBenchmarkTearDown), AfterBenchmarkTearDown, 0)
  }
}
