/** The executor itself, seen from the one thread that runs it: the acquire loop, the level flags and the
    release loops of the `finally` block. */
module LockExecutor {
  import opened LockTable

  datatype Option<T> = None | Some(value: T)

  /** A call of `readLockAssemblyLevel` or `writeLockAssemblyLevel` that the operation's body makes. */
  datatype LevelCall = LevelCall(level: nat, mode: Mode)

  /** The requests that the flags of the levels `from` and above stand for. */
  ghost function FlagSet(read: seq<bool>, write: seq<bool>, from: nat): set<Request>
    requires |read| == |write|
  {
    (set l | from <= l < |read| && read[l] :: Request(AssemblyLevel(l), Read)) +
    (set l | from <= l < |read| && write[l] :: Request(AssemblyLevel(l), Write))
  }

  lemma AddOne(rest: multiset<Request>, s: set<Request>, r: Request)
    requires r !in s
    ensures rest + multiset(s) + multiset{r} == rest + multiset(s + {r})
  {
  }

  lemma DropOne(rest: multiset<Request>, s: set<Request>, r: Request)
    requires r in s
    ensures r in rest + multiset(s) && rest + multiset(s) - multiset{r} == rest + multiset(s - {r})
  {
  }

  lemma DropLevel(read: seq<bool>, write: seq<bool>, level: nat)
    requires level < |read| == |write|
    ensures var r, w := Request(AssemblyLevel(level), Read), Request(AssemblyLevel(level), Write);
      var flags := FlagSet(read, write, level);
      && (read[level] <==> r in flags) && (write[level] <==> w in flags - {r})
      && FlagSet(read, write, level + 1) == flags - {r} - {w}
  {
  }

  class MGLockingOperationExecutor {
    const levels: nat
    const locksToAcquire: seq<Request>
    const isReadAcquired: array<bool>
    const isWriteAcquired: array<bool>
    /** How often the executing thread holds each lock. */
    var held: multiset<Request>

    ghost predicate Valid()
      reads this
    {
      isReadAcquired != isWriteAcquired && isReadAcquired.Length == isWriteAcquired.Length == levels + 1
    }

    ghost predicate FlagsClear()
      requires Valid()
      reads this, isReadAcquired, isWriteAcquired
    {
      forall level :: 0 <= level <= levels ==> !isReadAcquired[level] && !isWriteAcquired[level]
    }

    ghost function Flags(): set<Request>
      requires Valid()
      reads this, isReadAcquired, isWriteAcquired
    {
      FlagSet(isReadAcquired[..], isWriteAcquired[..], 1)
    }

    constructor (operationId: Option<OperationId>, levels: nat)
      ensures Valid() && FlagsClear() && fresh(isReadAcquired) && fresh(isWriteAcquired)
      ensures this.levels == levels && held == multiset{}
      ensures locksToAcquire == if operationId.None? then [] else LocksToAcquire(operationId.value, levels)
    {
      this.levels := levels;
      locksToAcquire := if operationId.None? then [] else LocksToAcquire(operationId.value, levels);
      held := multiset{};
      isReadAcquired := new bool[levels + 1](_ => false);
      isWriteAcquired := new bool[levels + 1](_ => false);
    }

    method Lock(r: Request)
      modifies this`held
      ensures held == old(held) + multiset{r}
    {
      held := held + multiset{r};
    }

    method Unlock(r: Request)
      requires r in held
      modifies this`held
      ensures held == old(held) - multiset{r}
    {
      held := held - multiset{r};
    }

    /** `rest` stands for what the thread holds apart from the flagged levels. */
    method ReadLockAssemblyLevel(level: nat, ghost rest: multiset<Request>)
      requires Valid() && 1 <= level <= levels && held == rest + multiset(Flags())
      modifies this`held, isReadAcquired
      ensures Valid() && held == rest + multiset(Flags())
      ensures isReadAcquired[level] || isWriteAcquired[level]
      ensures forall l :: 0 <= l <= levels && l != level ==> isReadAcquired[l] == old(isReadAcquired[l])
      ensures old(isReadAcquired[level]) ==> isReadAcquired[level]
    {
      if isReadAcquired[level] || isWriteAcquired[level] {
        return;
      }
      AddOne(rest, Flags(), Request(AssemblyLevel(level), Read));
      Lock(Request(AssemblyLevel(level), Read));
      isReadAcquired[level] := true;
      assert Flags() == old(Flags()) + {Request(AssemblyLevel(level), Read)};
    }

    method WriteLockAssemblyLevel(level: nat, ghost rest: multiset<Request>)
      requires Valid() && 1 <= level <= levels && held == rest + multiset(Flags())
      modifies this`held, isWriteAcquired
      ensures Valid() && held == rest + multiset(Flags())
      ensures isWriteAcquired[level]
      ensures forall l :: 0 <= l <= levels && l != level ==> isWriteAcquired[l] == old(isWriteAcquired[l])
    {
      if isWriteAcquired[level] {
        return;
      }
      AddOne(rest, Flags(), Request(AssemblyLevel(level), Write));
      Lock(Request(AssemblyLevel(level), Write));
      isWriteAcquired[level] := true;
      assert Flags() == old(Flags()) + {Request(AssemblyLevel(level), Write)};
    }

    /** The body: whatever level calls it makes before it returns or throws. */
    method PerformOperation(calls: seq<LevelCall>, ghost rest: multiset<Request>)
      requires Valid() && forall i :: 0 <= i < |calls| ==> 1 <= calls[i].level <= levels
      requires held == rest + multiset(Flags())
      modifies this`held, isReadAcquired, isWriteAcquired
      ensures Valid() && held == rest + multiset(Flags())
      ensures forall i :: 0 <= i < |calls| ==>
        isWriteAcquired[calls[i].level] || (calls[i].mode.Read? && isReadAcquired[calls[i].level])
    {
      hide MGLockingOperationExecutor.Flags;
      for n := 0 to |calls|
        invariant held == rest + multiset(Flags())
        invariant forall i :: 0 <= i < n ==>
          isWriteAcquired[calls[i].level] || (calls[i].mode.Read? && isReadAcquired[calls[i].level])
      {
        if calls[n].mode.Read? {
          ReadLockAssemblyLevel(calls[n].level, rest);
        } else {
          WriteLockAssemblyLevel(calls[n].level, rest);
        }
      }
    }

    method AcquireListed()
      modifies this`held
      ensures held == old(held) + multiset(locksToAcquire)
    {
      for n := 0 to |locksToAcquire|
        invariant held == old(held) + multiset(locksToAcquire[..n])
      {
        assert locksToAcquire[..n + 1] == locksToAcquire[..n] + [locksToAcquire[n]];
        Lock(locksToAcquire[n]);
      }
      assert locksToAcquire[..|locksToAcquire|] == locksToAcquire;
    }

    method ReleaseListed(ghost rest: multiset<Request>)
      requires held == rest + multiset(locksToAcquire)
      modifies this`held
      ensures held == rest
    {
      assert locksToAcquire[0..] == locksToAcquire;
      for n := 0 to |locksToAcquire|
        invariant held == rest + multiset(locksToAcquire[n..])
      {
        assert locksToAcquire[n..] == [locksToAcquire[n]] + locksToAcquire[n + 1..];
        Unlock(locksToAcquire[n]);
      }
    }

    method UnlockFlagged(flag: bool, level: nat, mode: Mode, ghost rest: multiset<Request>, ghost flags: set<Request>)
      requires held == rest + multiset(flags) && (flag <==> Request(AssemblyLevel(level), mode) in flags)
      modifies this`held
      ensures held == rest + multiset(flags - {Request(AssemblyLevel(level), mode)})
    {
      if flag {
        DropOne(rest, flags, Request(AssemblyLevel(level), mode));
        Unlock(Request(AssemblyLevel(level), mode));
      } else {
        assert flags - {Request(AssemblyLevel(level), mode)} == flags;
      }
    }

    /** The release loop over the levels: of each level first the read side, then the write side. */
    method ReleaseLevels(ghost rest: multiset<Request>)
      requires Valid() && held == rest + multiset(Flags())
      modifies this`held
      ensures held == rest
    {
      ghost var read, write := isReadAcquired[..], isWriteAcquired[..];
      for level := 1 to levels + 1
        invariant held == rest + multiset(FlagSet(read, write, level))
      {
        ghost var flags := FlagSet(read, write, level);
        DropLevel(read, write, level);
        UnlockFlagged(isReadAcquired[level], level, Read, rest, flags);
        UnlockFlagged(isWriteAcquired[level], level, Write, rest, flags - {Request(AssemblyLevel(level), Read)});
      }
      assert FlagSet(read, write, levels + 1) == {};
    }

    method Clear()
      requires Valid()
      modifies isReadAcquired, isWriteAcquired
      ensures FlagsClear()
    {
      for level := 0 to levels + 1
        invariant forall l :: 0 <= l < level ==> !isReadAcquired[l] && !isWriteAcquired[l]
      {
        isReadAcquired[level] := false;
        isWriteAcquired[level] := false;
      }
    }

    /** `execute`, on normal and on exceptional exit alike. While the body runs the thread holds the whole list
        and every level its calls asked for, each flagged level exactly once; afterwards every hold count is
        what it was, and all flags are clear. */
    method Execute(calls: seq<LevelCall>) returns (ghost dynamic: set<Request>, ghost peak: multiset<Request>)
      requires Valid() && FlagsClear() && forall i :: 0 <= i < |calls| ==> 1 <= calls[i].level <= levels
      modifies this`held, isReadAcquired, isWriteAcquired
      ensures Valid() && FlagsClear() && held == old(held)
      ensures peak == old(held) + multiset(locksToAcquire) + multiset(dynamic)
      ensures forall i :: 0 <= i < |calls| ==>
        || Request(AssemblyLevel(calls[i].level), Write) in dynamic
        || (calls[i].mode.Read? && Request(AssemblyLevel(calls[i].level), Read) in dynamic)
    {
      AcquireListed();
      ghost var rest := held;
      assert Flags() == {};
      PerformOperation(calls, rest);
      dynamic, peak := Flags(), held;
      ReleaseLevels(rest);
      Clear();
      ReleaseListed(old(held));
    }
  }
}
