/** The lock table of the medium-grained executor: which locks every operation
    takes before its body runs, in which order, and which state it may touch. */
module LockTable {

  /** One reentrant read/write lock each; `AssemblyLevel(1)` is the lock of the base assemblies. */
  datatype Lock =
    | GlobalStructure
    | Manual
    | CompositePart
    | Document
    | AtomicPart
    | AssemblyLevel(level: nat)

  datatype Mode = Read | Write

  /** A lock object of the original: the read or the write side of one lock. */
  datatype Request = Request(lock: Lock, mode: Mode)

  const BASE_ASSEMBLY_LEVEL: nat := 1

  datatype OperationId =
    | T1 | T2a | T2b | T2c | T3a | T3b | T3c | T4 | T5 | T6 | Q6 | Q7
    | ST1 | ST2 | ST3 | ST4 | ST5 | ST6 | ST7 | ST8 | ST9 | ST10
    | OP1 | OP2 | OP3 | OP4 | OP5 | OP6 | OP7 | OP8 | OP9 | OP10 | OP11 | OP12 | OP13 | OP14 | OP15
    | SM1 | SM2 | SM3 | SM4 | SM5 | SM6 | SM7 | SM8

  predicate StructuralModification(op: OperationId) {
    op.SM1? || op.SM2? || op.SM3? || op.SM4? || op.SM5? || op.SM6? || op.SM7? || op.SM8?
  }

  /** The complex assembly levels from `level` down to 2, as the pre-locking loops visit them. */
  function LevelsFrom(level: nat, mode: Mode): seq<Request> {
    if level <= BASE_ASSEMBLY_LEVEL then [] else [Request(AssemblyLevel(level), mode)] + LevelsFrom(level - 1, mode)
  }

  /** The locks that follow the global structure lock for an operation that does not change the structure. */
  function TypeLocks(op: OperationId, levels: nat): seq<Request> {
    match op
    case T1 | T6 | Q7 | ST1 | ST9 | OP1 | OP2 | OP3 => [Request(AtomicPart, Read)]
    case T2a | T2b | T2c | T3a | T3b | T3c | ST6 | ST10 | OP9 | OP10 | OP15 => [Request(AtomicPart, Write)]
    case T4 | ST2 => [Request(Document, Read)]
    case T5 | ST7 => [Request(Document, Write)]
    case Q6 =>
      [Request(AssemblyLevel(BASE_ASSEMBLY_LEVEL), Read), Request(CompositePart, Read)] + LevelsFrom(levels, Read)
    case ST3 => [Request(AssemblyLevel(BASE_ASSEMBLY_LEVEL), Read)] + LevelsFrom(levels, Read)
    case ST4 => [Request(AssemblyLevel(BASE_ASSEMBLY_LEVEL), Read), Request(Document, Read)]
    case ST5 => [Request(AssemblyLevel(BASE_ASSEMBLY_LEVEL), Read), Request(CompositePart, Read)]
    case ST8 => [Request(AssemblyLevel(BASE_ASSEMBLY_LEVEL), Write)] + LevelsFrom(levels, Write)
    case OP4 | OP5 => [Request(Manual, Read)]
    case OP6 | OP12 => []
    case OP7 => [Request(AssemblyLevel(BASE_ASSEMBLY_LEVEL), Read)]
    case OP8 => [Request(CompositePart, Read)]
    case OP11 => [Request(Manual, Write)]
    case OP13 => [Request(AssemblyLevel(BASE_ASSEMBLY_LEVEL), Write)]
    case OP14 => [Request(CompositePart, Write)]
    case SM1 | SM2 | SM3 | SM4 | SM5 | SM6 | SM7 | SM8 => []
  }

  /** `locksToAcquire`, as the executor's constructor fills it for an operation with an id. */
  function LocksToAcquire(op: OperationId, levels: nat): seq<Request> {
    if StructuralModification(op) then [Request(GlobalStructure, Write)]
    else [Request(GlobalStructure, Read)] + TypeLocks(op, levels)
  }

  /** The documented locking order. */
  function Rank(lock: Lock, levels: nat): int {
    match lock
    case GlobalStructure => 0
    case Manual => 1
    case CompositePart => 3
    case Document => 4
    case AtomicPart => 5
    case AssemblyLevel(level) => if level <= BASE_ASSEMBLY_LEVEL then 2 else 6 + levels - level
  }

  /** The structure, the manual, base assemblies, composite parts, documents, atomic parts, and then the complex
      assemblies from the highest level down; no two locks have the same rank. */
  lemma RankIsTheOrder(a: nat, b: nat, levels: nat)
    requires 2 <= a < b <= levels
    ensures Rank(GlobalStructure, levels) < Rank(Manual, levels) < Rank(AssemblyLevel(BASE_ASSEMBLY_LEVEL), levels)
    ensures Rank(AssemblyLevel(BASE_ASSEMBLY_LEVEL), levels) < Rank(CompositePart, levels) < Rank(Document, levels)
    ensures Rank(Document, levels) < Rank(AtomicPart, levels) < Rank(AssemblyLevel(b), levels) < Rank(AssemblyLevel(a), levels)
  {
  }

  ghost predicate RankAscending(locks: seq<Request>, levels: nat) {
    forall i, j :: 0 <= i < j < |locks| ==> Rank(locks[i].lock, levels) < Rank(locks[j].lock, levels)
  }

  lemma LevelsFromAt(level: nat, mode: Mode, i: nat)
    requires i < |LevelsFrom(level, mode)|
    ensures level >= 2 && |LevelsFrom(level, mode)| == level - 1
    ensures LevelsFrom(level, mode)[i] == Request(AssemblyLevel(level - i), mode)
  {
    if i > 0 {
      LevelsFromAt(level - 1, mode, i - 1);
    } else if level > 2 {
      LevelsFromAt(level - 1, mode, 0);
    }
  }

  lemma LevelsFromLength(level: nat, mode: Mode)
    ensures |LevelsFrom(level, mode)| == if level >= 2 then level - 1 else 0
  {
  }

  /** Every list of the table climbs strictly in the documented order, so it also names no lock twice. */
  lemma {:induction false} TableFollowsLockingOrder(op: OperationId, levels: nat)
    requires levels >= 2
    ensures RankAscending(LocksToAcquire(op, levels), levels)
  {
    var locks := LocksToAcquire(op, levels);
    forall i, j | 0 <= i < j < |locks|
      ensures Rank(locks[i].lock, levels) < Rank(locks[j].lock, levels)
    {
      RankAt(op, levels, i);
      RankAt(op, levels, j);
    }
  }

  /** The position of the first pre-locked complex level in the list of `op`. */
  function FirstLevelIndex(op: OperationId): nat {
    match op
    case Q6 => 3
    case ST3 | ST8 => 2
    case _ => 0
  }

  ghost predicate PrelocksLevels(op: OperationId) {
    op.Q6? || op.ST3? || op.ST8?
  }

  function LevelMode(op: OperationId): Mode {
    if op.ST8? then Write else Read
  }

  lemma RankAt(op: OperationId, levels: nat, i: nat)
    requires levels >= 2 && i < |LocksToAcquire(op, levels)|
    ensures PrelocksLevels(op) && i >= FirstLevelIndex(op) ==>
      var level := levels - (i - FirstLevelIndex(op));
      2 <= level && LocksToAcquire(op, levels)[i] == Request(AssemblyLevel(level), LevelMode(op))
  {
    if PrelocksLevels(op) && i >= FirstLevelIndex(op) {
      var mode := LevelMode(op);
      LevelsFromLength(levels, mode);
      LevelsFromAt(levels, mode, i - FirstLevelIndex(op));
    }
  }

  /** The level `level` is pre-locked by the three operations that walk over all levels. */
  lemma PrelockedLevel(op: OperationId, levels: nat, level: nat)
    requires 2 <= level <= levels && PrelocksLevels(op)
    ensures Request(AssemblyLevel(level), LevelMode(op)) in LocksToAcquire(op, levels)
  {
    var i := FirstLevelIndex(op) + levels - level;
    LevelsFromLength(levels, LevelMode(op));
    RankAt(op, levels, i);
    assert LocksToAcquire(op, levels)[i] == Request(AssemblyLevel(level), LevelMode(op));
  }

  /** What the body of an operation may do to the state that `lock` guards, read off the operation's class:
      `GlobalStructure` guards ids, pointers, sets and the id and title indexes; the other locks guard the
      attributes of their kind of object, `AtomicPart` also the build-date index. */
  predicate Footprint(op: OperationId, lock: Lock, mode: Mode) {
    if StructuralModification(op) then true
    else if lock.GlobalStructure? then mode.Read?
    else match op
      case T1 | T6 | Q7 | ST1 | ST9 | OP1 | OP2 | OP3 => lock.AtomicPart? && mode.Read?
      case T2a | T2b | T2c | T3a | T3b | T3c | ST6 | ST10 | OP9 | OP10 | OP15 => lock.AtomicPart?
      case T4 | ST2 => lock.Document? && mode.Read?
      case T5 | ST7 => lock.Document?
      case Q6 | ST5 => mode.Read? && (lock == AssemblyLevel(BASE_ASSEMBLY_LEVEL) || lock.CompositePart?)
      case ST3 | OP7 => mode.Read? && lock == AssemblyLevel(BASE_ASSEMBLY_LEVEL)
      case ST4 => mode.Read? && (lock == AssemblyLevel(BASE_ASSEMBLY_LEVEL) || lock.Document?)
      case ST8 | OP13 => lock == AssemblyLevel(BASE_ASSEMBLY_LEVEL)
      case OP4 | OP5 => lock.Manual? && mode.Read?
      case OP8 => lock.CompositePart? && mode.Read?
      case OP11 => lock.Manual?
      case OP14 => lock.CompositePart?
      case OP6 | OP12 => false
  }

  /** Which calls to `readLockAssemblyLevel`/`writeLockAssemblyLevel` the body may make. */
  predicate MayLockLevel(op: OperationId, level: nat, mode: Mode, levels: nat) {
    2 <= level <= levels &&
    match op
    case Q6 | ST3 => mode.Read?
    case ST8 => mode.Write?
    case OP6 => mode.Read?
    case OP12 => mode.Write?
    case _ => false
  }

  /** OP6 and OP12 visit the siblings of one complex assembly, all of them at the same level. */
  predicate KeepsToOneLevel(op: OperationId) {
    op.OP6? || op.OP12?
  }

  /** `held` lets a thread read or write state guarded by `lock`; exclusive access to the structure is enough. */
  ghost predicate Permits(held: set<Request>, lock: Lock, mode: Mode) {
    || Request(GlobalStructure, Write) in held
    || Request(lock, Write) in held
    || (mode.Read? && Request(lock, Read) in held)
  }

  /** The table covers every read and write of every operation body. */
  lemma TableCoversFootprint(op: OperationId, lock: Lock, mode: Mode, levels: nat)
    requires levels >= 2 && Footprint(op, lock, mode)
    ensures Permits((set r | r in LocksToAcquire(op, levels)), lock, mode)
  {
    var locks := LocksToAcquire(op, levels);
    var held := set r | r in locks;
    assert locks[0] in held;
    if |locks| > 1 {
      assert locks[1] in held;
    }
    if |locks| > 2 {
      assert locks[2] in held;
    }
  }

  /** And it takes no lock, and none in write mode, that no body of the operation needs. */
  lemma TableTakesNoMore(op: OperationId, levels: nat, r: Request)
    requires levels >= 2 && r in LocksToAcquire(op, levels)
    ensures Footprint(op, r.lock, r.mode) || (r.lock.AssemblyLevel? && MayLockLevel(op, r.lock.level, r.mode, levels))
  {
    hide LevelsFrom;
    LevelsFromAre(levels, LevelMode(op), r);
  }

  lemma {:induction false} LevelsFromAre(level: nat, mode: Mode, r: Request)
    ensures r in LevelsFrom(level, mode) <==> r.lock.AssemblyLevel? && 2 <= r.lock.level <= level && r.mode == mode
  {
    if level > BASE_ASSEMBLY_LEVEL {
      LevelsFromAre(level - 1, mode, r);
    }
  }

  /** A level an operation locks by itself is either already held in that mode since the start or, for OP6 and
      OP12, which keep to one level, the only kind of lock it takes above the global structure lock. */
  lemma LevelLocksReentrantOrAlone(op: OperationId, level: nat, mode: Mode, levels: nat)
    requires MayLockLevel(op, level, mode, levels)
    ensures
      || Request(AssemblyLevel(level), mode) in LocksToAcquire(op, levels)
      || (LocksToAcquire(op, levels) == [Request(GlobalStructure, Read)] && KeepsToOneLevel(op))
  {
    if PrelocksLevels(op) {
      PrelockedLevel(op, levels, level);
    }
  }
}
