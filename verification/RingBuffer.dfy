/** The circular buffer of the debugger front end, refined against a bounded double-ended queue. */
module RingBuffer {

  /** A JavaScript value; `None` is `undefined`. */
  datatype Option<T> = None | Some(value: T)

  // ---------- slots ----------

  /** Position `p` on an endless tape that is wound around `n` slots lies on slot `r`. */
  ghost predicate OnSlot(p: int, r: int, n: int) {
    0 <= r < n && exists d :: p == Around(r, d, n)
  }

  /** The position `d` whole turns after slot `r`. */
  ghost function Around(r: int, d: int, n: int): int
    decreases if d < 0 then -d else d
  {
    if d == 0 then r else if d > 0 then Around(r, d - 1, n) + n else Around(r, d + 1, n) - n
  }

  lemma {:induction false} AroundIs(r: int, d: int, n: int)
    ensures Around(r, d, n) == r + n * d
    decreases if d < 0 then -d else d
  {
    if d > 0 {
      AroundIs(r, d - 1, n);
    } else if d < 0 {
      AroundIs(r, d + 1, n);
    }
  }

  lemma SomeSlot(p: int, n: int)
    requires n > 0
    ensures OnSlot(p, p % n, n)
  {
    AroundIs(p % n, p / n, n);
    assert p == n * (p / n) + p % n;
    assert p == Around(p % n, p / n, n);
  }

  ghost function Slot(p: int, n: int): (r: int)
    requires n > 0
    ensures 0 <= r < n
  {
    SomeSlot(p, n);
    var r :| OnSlot(p, r, n);
    r
  }

  lemma NoMultipleBetween(n: int, d: int)
    requires n > 0
    ensures !(0 < n * d < n) && !(-n < n * d < 0)
  {
    assert d >= 1 ==> n * d >= n;
    assert d <= -1 ==> n * d <= -n;
  }

  lemma SlotsByTurns(a: int, b: int, n: int) returns (d: int)
    requires n > 0
    ensures a - b == n * d + (Slot(a, n) - Slot(b, n))
  {
    var i :| a == Around(Slot(a, n), i, n);
    var j :| b == Around(Slot(b, n), j, n);
    AroundIs(Slot(a, n), i, n);
    AroundIs(Slot(b, n), j, n);
    d := i - j;
    assert n * d == n * i - n * j;
  }

  lemma SlotsDiffer(p: int, q: int, n: int)
    requires n > 0 && p < q < p + n
    ensures Slot(p, n) != Slot(q, n)
  {
    var d := SlotsByTurns(q, p, n);
    NoMultipleBetween(n, d);
  }

  lemma WholeTurns(a: int, b: int, k: int, n: int)
    requires n > 0 && a - b == n * k
    ensures Slot(a, n) == Slot(b, n)
  {
    var d := SlotsByTurns(a, b, n);
    assert n * (k - d) == n * k - n * d;
    NoMultipleBetween(n, k - d);
  }

  lemma SlotOfSmall(p: int, n: int)
    requires 0 <= p < n
    ensures Slot(p, n) == p
  {
    var d :| p == Around(Slot(p, n), d, n);
    AroundIs(Slot(p, n), d, n);
    NoMultipleBetween(n, d);
  }

  /** The slot of a position is the remainder of the division. */
  lemma SlotIsRemainder(p: int, n: int)
    requires n > 0
    ensures Slot(p, n) == p % n
  {
    WholeTurns(p, p % n, p / n, n);
    SlotOfSmall(p % n, n);
  }

  /** Slots that agree still agree after the same shift. */
  lemma SameSlot(p: int, q: int, k: int, n: int)
    requires n > 0 && Slot(p, n) == Slot(q, n)
    ensures Slot(p + k, n) == Slot(q + k, n)
  {
    var d := SlotsByTurns(p, q, n);
    WholeTurns(p + k, q + k, d, n);
  }

  lemma SlotOnce(p: int, n: int)
    requires n > 0
    ensures Slot(p + n, n) == Slot(p, n) && Slot(Slot(p, n), n) == Slot(p, n)
    ensures 0 <= p < n ==> Slot(p, n) == p
  {
    WholeTurns(p + n, p, 1, n);
    SlotOfSmall(Slot(p, n), n);
    if 0 <= p < n {
      SlotOfSmall(p, n);
    }
  }

  /** Counting on from a slot is counting on from the position. */
  lemma FromSlot(p: int, k: int, n: int)
    requires n > 0
    ensures Slot(Slot(p, n) + k, n) == Slot(p + k, n)
  {
    SlotOnce(p, n);
    SameSlot(Slot(p, n), p, k, n);
  }

  /** The first slot of a window of `size` slots that ends in slot `end`. */
  lemma StartSlot(end: int, p: int, size: int, n: int)
    requires n > 0 && end == Slot(p, n)
    ensures Slot(n + end - size + 1, n) == Slot(p - size + 1, n)
  {
    FromSlot(p, n - size + 1, n);
    SlotOnce(p - size + 1, n);
  }

  lemma EndSlot(end: int, size: int, n: int)
    requires n > 0 && 0 <= end < n
    ensures end == Slot(Slot(n + end - size + 1, n) + size - 1, n)
  {
    FromSlot(n + end - size + 1, size - 1, n);
    SlotOnce(end, n);
  }

  lemma PreviousSlot(p: int, n: int)
    requires n > 0
    ensures Slot(p - 1, n) == Slot(Slot(p, n) - 1 + n, n)
  {
    FromSlot(p, -1, n);
    SlotOnce(Slot(p, n) - 1, n);
  }

  /** The remainder that the original takes, always of a number that is not negative. */
  method Remainder(p: int, n: int) returns (r: int)
    requires 0 <= p && 0 < n
    ensures r == Slot(p, n)
  {
    SlotIsRemainder(p, n);
    r := p % n;
  }

  // ---------- what the slots hold ----------

  /** The `size` values from the slot `start` on. */
  ghost function Window<T>(data: seq<T>, start: int, size: nat): seq<T>
    requires data != []
  {
    seq(size, i requires 0 <= i < size => data[Slot(start + i, |data|)])
  }

  lemma WindowSplit<T>(data: seq<T>, start: int, size: nat, k: nat)
    requires data != [] && k <= size
    ensures Window(data, start, size) == Window(data, start, k) + Window(data, start + k, size - k)
  {
  }

  /** A window is known by its first slot. */
  lemma WindowFromSlot<T>(data: seq<T>, start: int, start': int, size: nat)
    requires data != [] && Slot(start, |data|) == Slot(start', |data|)
    ensures Window(data, start, size) == Window(data, start', size)
  {
    forall i | 0 <= i < size
      ensures Window(data, start, size)[i] == Window(data, start', size)[i]
    {
      SameSlot(start, start', i, |data|);
    }
  }

  lemma WindowOne<T>(data: seq<T>, start: int)
    requires data != []
    ensures Window(data, start, 1) == [data[Slot(start, |data|)]]
  {
  }

  /** A write behind or before a window does not show in it. */
  lemma WindowFrame<T>(data: seq<T>, start: int, size: nat, p: int, v: T)
    requires data != [] && start + size - |data| <= p
    requires start + size <= p < start + |data| || start + size - |data| <= p < start
    ensures Window(data[Slot(p, |data|) := v], start, size) == Window(data, start, size)
  {
    var data' := data[Slot(p, |data|) := v];
    forall i | 0 <= i < size
      ensures Window(data', start, size)[i] == Window(data, start, size)[i]
    {
      if p < start {
        SlotsDiffer(p, start + i, |data|);
      } else {
        SlotsDiffer(start + i, p, |data|);
      }
    }
  }

  /** A write inside a window shows in one place. */
  lemma WindowUpdate<T>(data: seq<T>, start: int, size: nat, k: nat, v: T)
    requires data != [] && k < size <= |data|
    ensures Window(data[Slot(start + k, |data|) := v], start, size) == Window(data, start, size)[k := v]
  {
    var data' := data[Slot(start + k, |data|) := v];
    forall i | 0 <= i < size
      ensures Window(data', start, size)[i] == Window(data, start, size)[k := v][i]
    {
      if i < k {
        SlotsDiffer(start + i, start + k, |data|);
      } else if k < i {
        SlotsDiffer(start + k, start + i, |data|);
      }
    }
  }

  // ---------- the bounded deque ----------

  /** The last `n` elements. */
  function LastN<T>(s: seq<T>, n: nat): seq<T> {
    if |s| <= n then s else s[|s| - n..]
  }

  function FirstN<T>(s: seq<T>, n: nat): seq<T> {
    if |s| <= n then s else s[..n]
  }

  function Reversed<T>(s: seq<T>): seq<T> {
    seq(|s|, i requires 0 <= i < |s| => s[|s| - 1 - i])
  }

  /** What is kept is a stretch at the one end or the other, as long as there is room. */
  lemma KeptParts<T>(s: seq<T>, n: nat)
    ensures var kept := if |s| < n then |s| else n;
      |LastN(s, n)| == |FirstN(s, n)| == kept && s[|s| - kept..] == LastN(s, n) && s[..kept] == FirstN(s, n)
  {
  }

  lemma ReversedTwice<T>(s: seq<T>, i: nat)
    requires i < |s|
    ensures Reversed(Reversed(s)) == s && |Reversed(s)| == |s| && s[i] == Reversed(s)[|s| - 1 - i]
  {
  }

  function Min(a: int, b: int): int { if a <= b then a else b }

  /** The window after a push of `args`: of the old values and the new ones the last that fit. */
  lemma {:induction false} PushedWindow<T>(data: seq<T>, start: int, size: nat, args: seq<T>, n: nat)
    requires data != [] && size <= |data| && n <= |args|
    ensures var kept := Min(size + n, |data|);
      Window(Pushed(data, start + size, args, n), start + size + n - kept, kept) ==
      LastN(Window(data, start, size) + args[..n], |data|)
    decreases n
  {
    hide Window, LastN, Pushed, Slot;
    PushedOnce(data, start + size, args, n);
    if n == 0 {
      WindowSize(data, start, size);
      NothingPushed(Window(data, start, size), args, |data|);
    } else {
      var before, p, count := Pushed(data, start + size, args, n - 1), start + size + n - 1, Min(size + n - 1, |data|);
      PushedWindow(data, start, size, args, n - 1);
      PushOne(before, p, count, args[n - 1]);
      WindowSize(data, start, size);
      LastNStep(Window(data, start, size), args, n, |data|);
    }
  }

  lemma WindowSize<T>(data: seq<T>, start: int, size: nat)
    requires data != []
    ensures |Window(data, start, size)| == size
  {
  }

  lemma PushedOnce<T>(data: seq<T>, from: int, args: seq<T>, n: nat)
    requires data != [] && n <= |args|
    ensures n == 0 ==> Pushed(data, from, args, n) == data
    ensures n > 0 ==> (
      Pushed(data, from, args, n) == Pushed(data, from, args, n - 1)[Slot(from + n - 1, |data|) := args[n - 1]])
  {
  }

  lemma NothingPushed<T>(s: seq<T>, args: seq<T>, len: nat)
    requires |s| <= len
    ensures LastN(s + args[..0], len) == s
  {
    assert args[..0] == [] && s + [] == s;
  }

  /** One write behind a window: it moves on if it already fills all slots, else it grows. */
  lemma PushOne<T>(data: seq<T>, p: int, count: nat, v: T)
    requires data != [] && count <= |data|
    ensures var kept, before := Min(count + 1, |data|), Window(data, p - count, count);
      Window(data[Slot(p, |data|) := v], p + 1 - kept, kept) ==
      (if count == |data| then before[1..] else before) + [v]
  {
    var kept, data' := Min(count + 1, |data|), data[Slot(p, |data|) := v];
    WindowSplit(data', p + 1 - kept, kept, kept - 1);
    WindowOne(data', p);
    WindowFrame(data, p + 1 - kept, kept - 1, p, v);
    if count == |data| {
      WindowSplit(data, p - count, count, 1);
    }
  }

  lemma LastNStep<T>(s: seq<T>, args: seq<T>, n: nat, len: nat)
    requires 0 < n <= |args| && 0 < len
    ensures var before, count := LastN(s + args[..n - 1], len), Min(|s| + n - 1, len);
      |before| == count && LastN(s + args[..n], len) == (if count == len then before[1..] else before) + [args[n - 1]]
  {
    ConcatOne(s, args, n);
    LastNAppend(s + args[..n - 1], args[n - 1], len);
  }

  lemma ConcatOne<T>(s: seq<T>, args: seq<T>, n: nat)
    requires 0 < n <= |args|
    ensures s + args[..n] == (s + args[..n - 1]) + [args[n - 1]]
  {
  }

  lemma LastNAppend<T>(s: seq<T>, v: T, len: nat)
    requires 0 < len
    ensures var before := LastN(s, len);
      |before| == Min(|s|, len) && LastN(s + [v], len) == (if |before| == len then before[1..] else before) + [v]
  {
    if |s| >= len {
      assert (s + [v])[|s| + 1 - len..] == s[|s| - len..][1..] + [v];
    }
  }

  /** Where the pushed values are: in the window that the recalculated positions describe. */
  lemma PushedContents<T>(before: seq<T>, start: int, size: nat, end: int, args: seq<T>, after: seq<T>)
    requires before != [] && size <= |before| && end == Slot(start + size - 1, |before|)
    requires after == Pushed(before, start + size, args, |args|)
    ensures var n, kept := |before|, Min(size + |args|, |before|);
      Window(after, Slot(n + Slot(end + |args|, n) - kept + 1, n), kept) == LastN(Window(before, start, size) + args, n)
  {
    var n, kept := |before|, Min(size + |args|, |before|);
    var first := n + Slot(end + |args|, n) - kept + 1;
    PushedWindow(before, start, size, args, |args|);
    TakeAll(args);
    PushedStart(start, size, end, |args|, kept, n);
    WindowFromSlot(after, start + size + |args| - kept, Slot(first, n), kept);
  }

  lemma TakeAll<T>(s: seq<T>)
    ensures s[..|s|] == s
  {
  }

  lemma PushedStart(start: int, size: int, end: int, count: int, kept: int, n: int)
    requires n > 0 && end == Slot(start + size - 1, n)
    ensures Slot(start + size + count - kept, n) == Slot(Slot(n + Slot(end + count, n) - kept + 1, n), n)
  {
    FromSlot(start + size - 1, count, n);
    StartSlot(Slot(end + count, n), start + size - 1 + count, kept, n);
    SlotOnce(start + size + count - kept, n);
  }

  /** The slots after the loop of `push` has written `n` of the arguments. */
  ghost function Pushed<T>(data: seq<T>, from: int, args: seq<T>, n: nat): (r: seq<T>)
    requires data != [] && n <= |args|
    ensures |r| == |data|
  {
    if n == 0 then data
    else Pushed(data, from, args, n - 1)[Slot(from + n - 1, |data|) := args[n - 1]]
  }

  // ---------- what the overflow callbacks get ----------

  /** How many values a buffer of `n` slots loses when `count` values come to the `size` it holds. */
  function Excess(size: nat, count: nat, n: nat): nat {
    if size + count > n then size + count - n else 0
  }

  /** The overflow callback of `push` gets the values from behind the last one on; lost are the first values of
      the old contents and the new ones together. */
  ghost predicate PushReportsLost<T>(data: seq<T>, start: int, size: nat, args: seq<T>)
    requires data != []
  {
    var lost := Excess(size, |args|, |data|);
    Window(data, Slot(start + size - 1, |data|) + 1, lost) == (Window(data, start, size) + args)[..lost]
  }

  lemma LostAreFewer(size: nat, count: nat, n: nat)
    requires size <= n
    ensures Excess(size, count, n) <= count
  {
  }

  lemma BehindLast(start: int, size: nat, i: nat, n: nat)
    requires n > 0
    ensures Slot(Slot(start + size - 1, n) + 1 + i, n) == Slot(start + size + i, n)
  {
    FromSlot(start + size - 1, 1 + i, n);
  }

  lemma FullPushReportsLost<T>(data: seq<T>, start: int, args: seq<T>)
    requires data != [] && |args| <= |data|
    ensures PushReportsLost(data, start, |data|, args)
  {
    var n := |data|;
    var reported := Slot(start + n - 1, n) + 1;
    forall i | 0 <= i < |args|
      ensures Window(data, reported, |args|)[i] == Window(data, start, n)[i]
    {
      BehindLast(start, n, i, n);
      SlotOnce(start + i, n);
    }
    assert (Window(data, start, n) + args)[..|args|] == Window(data, start, n)[..|args|];
  }

  /** Two values suffice to tell reported and lost values apart. */
  lemma WrongReport<T>(start: int, size: nat, count: nat, n: nat, a: T, b: T) returns (data: seq<T>, args: seq<T>)
    requires a != b && 0 < n && size <= n < size + count && (size < n || count > n)
    ensures |data| == n && |args| == count && !PushReportsLost(data, start, size, args)
  {
    args := Filled(count, b);
    var reported, lost := Slot(start + size - 1, n) + 1, Excess(size, count, n);
    BehindLast(start, size, 0, n);
    if 0 < size < n {
      data := Filled(n, a)[Slot(start + size, n) := b];
      SlotsDiffer(start, start + size, n);
      assert Window(data, reported, lost)[0] == b;
      assert (Window(data, start, size) + args)[..lost][0] == Window(data, start, size)[0] == a;
    } else {
      data := Filled(n, a);
      assert lost > size && data[Slot(reported + size, n)] == a;
      assert Window(data, reported, lost)[size] == a;
      assert (Window(data, start, size) + args)[..lost][size] == args[0] == b;
    }
  }

  function Filled<T>(n: nat, v: T): (s: seq<T>)
    ensures |s| == n && forall i :: 0 <= i < n ==> s[i] == v
  {
    seq(n, _ => v)
  }

  /** When `push` loses values, its overflow callback gets just the lost ones, whatever the slots hold, if and
      only if the buffer was full and no more values came than it has slots. */
  lemma PushReportsLostIff<T>(start: int, size: nat, count: nat, n: nat, a: T, b: T)
    requires a != b && 0 < n && size <= n < size + count
    ensures (forall data: seq<T>, args: seq<T> :: |data| == n && |args| == count ==>
              PushReportsLost(data, start, size, args)) <==> size == n && count <= n
  {
    if size == n && count <= n {
      forall data: seq<T>, args: seq<T> | |data| == n && |args| == count
        ensures PushReportsLost(data, start, size, args)
      {
        FullPushReportsLost(data, start, args);
      }
    } else {
      var data, args := WrongReport(start, size, count, n, a, b);
    }
  }

  /** Three values pushed to a full buffer of two: the callback gets the first one twice, and never the new value
      that is lost. */
  lemma PushReportsOneTwice()
    ensures Window([1, 2], Slot(1, 2) + 1, Excess(2, 3, 2)) == [1, 2, 1]
    ensures (Window([1, 2], 0, 2) + [3, 4, 5])[..Excess(2, 3, 2)] == [1, 2, 3]
  {
    forall p ensures Slot(p, 2) == p % 2 { SlotIsRemainder(p, 2); }
  }

  /** Two values pushed behind the one that is left of two: the callback gets what was shifted out before. */
  lemma PushReportsShifted()
    ensures Window([6, 7], Slot(1, 2) + 1, Excess(1, 2, 2)) == [6]
    ensures (Window([6, 7], 1, 1) + [8, 9])[..Excess(1, 2, 2)] == [7]
  {
    forall p ensures Slot(p, 2) == p % 2 { SlotIsRemainder(p, 2); }
  }

  /** What the overflow callback of `unshift` gets: the index is not wound around, and a negative one is
      undefined. */
  function ReportedFromEnd<T>(data: seq<Option<T>>, end: int, lost: nat): seq<Option<T>>
    requires data != [] && end < |data|
  {
    seq(lost, i requires 0 <= i < lost => if end - i % |data| < 0 then None else data[end - i % |data|])
  }

  /** Lost by `unshift` are the last values, and the callback should get them from the end. */
  ghost predicate UnshiftReportsLost<T>(data: seq<Option<T>>, start: int, size: nat, args: seq<Option<T>>)
    requires data != []
  {
    var n := |data|;
    var lost := Excess(size, |args|, n);
    ReportedFromEnd(data, Slot(start + size - 1, n), lost) ==
    Reversed((Reversed(args) + Window(data, start, size))[|args| + size - lost..])
  }

  /** The value lost as number `i`, and where it stood. */
  lemma LostFromEnd<T>(data: seq<Option<T>>, start: int, size: nat, args: seq<Option<T>>, i: nat)
    requires data != [] && i < Excess(size, |args|, |data|) && size <= |data|
    ensures var n, lost := |data|, Excess(size, |args|, |data|);
      Reversed((Reversed(args) + Window(data, start, size))[|args| + size - lost..])[i] ==
      if i < size then data[Slot(start + size - 1 - i, n)] else args[i - size]
  {
  }

  lemma EndGoesBack(start: int, size: nat, i: nat, n: nat)
    requires n > 0 && i <= Slot(start + size - 1, n)
    ensures Slot(start + size - 1 - i, n) == Slot(start + size - 1, n) - i
  {
    SlotOnce(start + size - 1, n);
    SameSlot(Slot(start + size - 1, n), start + size - 1, 0 - i, n);
    SlotOfSmall(Slot(start + size - 1, n) - i, n);
  }

  /** When `unshift` loses values, its callback gets just those, whatever the slots hold, if and only if no more
      values came than there are slots and the lost ones do not lie across the last slot. */
  lemma UnshiftReportsLostIff<T>(start: int, size: nat, count: nat, n: nat, a: T)
    requires 0 < n && size <= n < size + count
    ensures (forall data: seq<Option<T>>, args: seq<Option<T>> :: |data| == n && |args| == count ==>
              UnshiftReportsLost(data, start, size, args))
            <==> count <= n && Excess(size, count, n) <= Slot(start + size - 1, n) + 1
  {
    if count <= n && Excess(size, count, n) <= Slot(start + size - 1, n) + 1 {
      forall data: seq<Option<T>>, args: seq<Option<T>> | |data| == n && |args| == count
        ensures UnshiftReportsLost(data, start, size, args)
      {
        UnshiftReports(data, start, size, args);
      }
    } else {
      var data, args := WrongUnshiftReport(start, size, count, n, a);
    }
  }

  lemma WrongUnshiftReport<T>(start: int, size: nat, count: nat, n: nat, a: T)
    returns (data: seq<Option<T>>, args: seq<Option<T>>)
    requires 0 < n && size <= n < size + count
    requires count > n || Excess(size, count, n) > Slot(start + size - 1, n) + 1
    ensures |data| == n && |args| == count && !UnshiftReportsLost(data, start, size, args)
  {
    hide Reversed, Window;
    var end := Slot(start + size - 1, n);
    data := Filled(n, Some(a));
    if size <= end || end + 1 == n {
      args := Filled(count, None);
      LostFromEnd(data, start, size, args, size);
      if size < n { SmallRemainder(size, n); }
      ReportedDiffers(data, start, size, args, size);
    } else {
      args := Filled(count, Some(a));
      LostFromEnd(data, start, size, args, end + 1);
      SmallRemainder(end + 1, n);
      ReportedDiffers(data, start, size, args, end + 1);
    }
  }

  lemma ReportedDiffers<T>(data: seq<Option<T>>, start: int, size: nat, args: seq<Option<T>>, i: nat)
    requires data != [] && i < Excess(size, |args|, |data|) && size <= |data|
    requires var n, end := |data|, Slot(start + size - 1, |data|);
      (if end - i % n < 0 then None else data[end - i % n]) !=
      if i < size then data[Slot(start + size - 1 - i, n)] else args[i - size]
    ensures !UnshiftReportsLost(data, start, size, args)
  {
    LostFromEnd(data, start, size, args, i);
  }

  lemma UnshiftReports<T>(data: seq<Option<T>>, start: int, size: nat, args: seq<Option<T>>)
    requires data != [] && size <= |data| < size + |args| && |args| <= |data|
    requires Excess(size, |args|, |data|) <= Slot(start + size - 1, |data|) + 1
    ensures UnshiftReportsLost(data, start, size, args)
  {
    var n, lost := |data|, Excess(size, |args|, |data|);
    var end := Slot(start + size - 1, n);
    forall i | 0 <= i < lost
      ensures ReportedFromEnd(data, end, lost)[i] ==
              Reversed((Reversed(args) + Window(data, start, size))[|args| + size - lost..])[i]
    {
      LostFromEnd(data, start, size, args, i);
      EndGoesBack(start, size, i, n);
      SmallRemainder(i, n);
    }
  }

  lemma SmallRemainder(i: nat, n: nat)
    requires i < n
    ensures i % n == i
  {
  }

  // ---------- unshift and rotation ----------

  /** The remainder with the sign of the dividend. */
  function SignedRemainder(a: int, n: int): int
    requires n > 0
  {
    if a >= 0 then a % n else -((-a) % n)
  }

  /** One turn of `rotateLeft`; on an empty buffer it pushes the `undefined` that `shift` returned. */
  function TurnLeft<T>(s: seq<Option<T>>): seq<Option<T>> {
    if s == [] then [None] else s[1..] + [s[0]]
  }

  function TurnRight<T>(s: seq<Option<T>>): seq<Option<T>> {
    if s == [] then [None] else [s[|s| - 1]] + s[..|s| - 1]
  }

  function LeftBy<T>(s: seq<Option<T>>, k: nat): seq<Option<T>>
    decreases k
  {
    if k == 0 then s else LeftBy(TurnLeft(s), k - 1)
  }

  function RightBy<T>(s: seq<Option<T>>, k: nat): seq<Option<T>>
    decreases k
  {
    if k == 0 then s else RightBy(TurnRight(s), k - 1)
  }

  lemma {:induction false} RightByLast<T>(s: seq<Option<T>>, k: nat)
    ensures RightBy(s, k + 1) == TurnRight(RightBy(s, k))
    decreases k
  {
    hide TurnRight;
    if k > 0 {
      RightByLast(TurnRight(s), k - 1);
    }
  }

  lemma TurnsCancelIff<T>(s: seq<Option<T>>)
    ensures TurnLeft(s) != [] && (TurnRight(TurnLeft(s)) == s <==> s != [])
  {
  }

  /** Rotating left and then right by the same count is the identity if and only if the buffer is not empty or
      the count is 0. */
  lemma {:induction false} RotationsCancelIff<T>(s: seq<Option<T>>, k: nat)
    ensures RightBy(LeftBy(s, k), k) == s <==> s != [] || k == 0
    decreases k
  {
    hide TurnLeft, TurnRight;
    if k > 0 {
      TurnsCancelIff(s);
      RotationsCancelIff(TurnLeft(s), k - 1);
      RightByLast(LeftBy(TurnLeft(s), k - 1), k - 1);
      assert RightBy(LeftBy(s, k), k) == TurnRight(TurnLeft(s));
    }
  }

  /** Rotating a non-empty buffer to the left by `k` moves each value `k` places down, around the end. */
  lemma {:induction false} LeftByAt<T>(s: seq<Option<T>>, k: nat, i: nat)
    requires i < |s|
    ensures |LeftBy(s, k)| == |s| && LeftBy(s, k)[i] == s[Slot(i + k, |s|)]
    decreases k
  {
    if k == 0 {
      SlotOfSmall(i, |s|);
    } else {
      var turned := TurnLeft(s);
      LeftByAt(turned, k - 1, i);
      var j := Slot(i + (k - 1), |s|);
      FromSlot(i + (k - 1), 1, |s|);
      OnePlace(s, j);
    }
  }

  lemma OnePlace<T>(s: seq<Option<T>>, j: nat)
    requires j < |s|
    ensures TurnLeft(s)[j] == s[Slot(j + 1, |s|)]
  {
    if j + 1 < |s| {
      SlotOfSmall(j + 1, |s|);
    } else {
      SlotOnce(0, |s|);
    }
  }

  /** After an `unshift` the window starts one position earlier. */
  lemma UnshiftedContents<T>(data: seq<T>, start: int, size: nat, arg: T)
    requires data != [] && size <= |data|
    ensures Window(data[Slot(start - 1, |data|) := arg], start - 1, Min(size + 1, |data|)) ==
            FirstN([arg] + Window(data, start, size), |data|)
  {
    var data', kept := data[Slot(start - 1, |data|) := arg], Min(size + 1, |data|);
    WindowSplit(data', start - 1, kept, 1);
    WindowOne(data', start - 1);
    WindowFrame(data, start, kept - 1, start - 1, arg);
    WindowSplit(data, start, size, kept - 1);
  }

  /** The ends of a first half of a sequence that have been swapped with their opposites. */
  ghost function PartlyReversed<T>(s: seq<T>, i: nat): seq<T>
    requires i <= |s| / 2
  {
    seq(|s|, j requires 0 <= j < |s| => if j < i || j >= |s| - i then s[|s| - 1 - j] else s[j])
  }

  lemma SwapInwards<T>(s: seq<T>, i: nat, now: seq<T>)
    requires i < |s| / 2 && now == PartlyReversed(s, i)
    ensures now[i := now[|s| - i - 1]][|s| - i - 1 := now[i]] == PartlyReversed(s, i + 1)
  {
  }

  /** The position `k` before `s`, as `unshift` computes it: a negative one is taken back into the buffer, but
      whole turns end up behind the last slot. */
  function Back(s: int, k: nat, n: int): int
    requires n > 0
  {
    if s - k < 0 then n + SignedRemainder(s - k, n) else s - k
  }

  lemma BackIsSlot(s: int, k: nat, n: int)
    requires 0 < n && 0 <= s <= n
    ensures 0 <= Back(s, k, n) <= n && Slot(Back(s, k, n), n) == Slot(s - k, n)
  {
    if s - k < 0 {
      var turns := (k - s) / n;
      assert k - s == n * turns + (k - s) % n;
      assert n * (1 + turns) == n + n * turns;
      WholeTurns(Back(s, k, n), s - k, 1 + turns, n);
    }
  }

  /** Going back leads out of the buffer if and only if it goes whole turns below 0. */
  lemma BackStaysIff(s: int, k: nat, n: int)
    requires 0 <= s < n
    ensures Back(s, k, n) < n <==> k <= s || (k - s) % n != 0
  {
  }

  /** So fewer steps than slots stay inside. */
  lemma FewStepsStay(s: int, k: nat, n: int)
    requires 0 <= s < n && k < n
    ensures Back(s, k, n) < n
  {
    if k > s {
      SmallRemainder(k - s, n);
    }
  }

  /** With capacity 1, already the first value that comes leads `start` out of the buffer. */
  lemma CapacityOneLeaves()
    ensures Back(0, 1, 1) == 1
  {
  }

  /** The last slot after an `unshift`. */
  lemma UnshiftedEnd(start: int, size: nat, end: int, k: nat, n: nat)
    requires 0 < n && 0 <= start <= n && size <= n && end == Slot(start + size - 1, n)
    ensures Slot(Back(start, k, n) + Min(size + k, n) - 1, n) == Slot(Back(end, Excess(size, k, n), n), n)
    ensures Back(end, Excess(size, k, n), n) < n ==>
      Slot(Back(start, k, n) + Min(size + k, n) - 1, n) == Back(end, Excess(size, k, n), n)
  {
    var lost: int := Excess(size, k, n);
    BackIsSlot(start, k, n);
    BackIsSlot(end, lost, n);
    SameSlot(Back(start, k, n), start - k, Min(size + k, n) - 1, n);
    FromSlot(start + size - 1, 0 - lost, n);
    if Back(end, lost, n) < n {
      SlotOfSmall(Back(end, lost, n), n);
    }
  }

  /** The slots after the loop of `unshift` has written `k` of the arguments. */
  ghost function Unshifted<T>(data: seq<T>, start: int, args: seq<T>, k: nat): (r: seq<T>)
    requires data != [] && k <= |args|
    ensures |r| == |data|
  {
    if k == 0 then data else Unshifted(data, start, args, k - 1)[Slot(start - k, |data|) := args[k - 1]]
  }

  /** The window after an `unshift`: of the new values, the last first, and the old ones as many as fit. */
  lemma {:induction false} UnshiftedWindow<T>(data: seq<T>, start: int, size: nat, args: seq<T>, k: nat)
    requires data != [] && size <= |data| && k <= |args|
    ensures Window(Unshifted(data, start, args, k), start - k, Min(size + k, |data|)) ==
            FirstN(Reversed(args[..k]) + Window(data, start, size), |data|)
    decreases k
  {
    if k == 0 {
      assert Reversed(args[..0]) + Window(data, start, size) == Window(data, start, size);
    } else {
      var before := Min(size + k - 1, |data|);
      UnshiftedWindow(data, start, size, args, k - 1);
      UnshiftedContents(Unshifted(data, start, args, k - 1), start - (k - 1), before, args[k - 1]);
      FirstNStep(Window(data, start, size), args, k, |data|);
    }
  }

  lemma FirstNStep<T>(s: seq<T>, args: seq<T>, k: nat, n: nat)
    requires 0 < k <= |args| && 0 < n
    ensures FirstN([args[k - 1]] + FirstN(Reversed(args[..k - 1]) + s, n), n) == FirstN(Reversed(args[..k]) + s, n)
  {
    assert Reversed(args[..k]) == [args[k - 1]] + Reversed(args[..k - 1]);
    assert Reversed(args[..k]) + s == [args[k - 1]] + (Reversed(args[..k - 1]) + s);
  }

  /** The slot that `unshift` computes for its argument number `i`. */
  lemma UnshiftSlot(start: int, i: nat, n: int)
    requires n > 0
    ensures Slot(n + start - i % n - 1, n) == Slot(start - (i + 1), n)
  {
    assert i == n * (i / n) + i % n;
    assert n * (1 + i / n) == n + n * (i / n);
    WholeTurns(n + start - i % n - 1, start - (i + 1), 1 + i / n, n);
  }

  class CBuffer<T(0)> {
    const length: nat
    const data: array<Option<T>>
    var start: int
    var end: int
    var size: int
    /** Whether a callback is set for values that are about to be lost. */
    var overflow: bool

    /** All is well at the end, though `start` may have left the buffer by one: `pop` and `unshift` still work. */
    ghost predicate ValidAtEnd()
      reads this
    {
      && data.Length == length > 0 && 0 <= size <= length && 0 <= start <= length && 0 <= end < length
      && end == Slot(start + size - 1, length)
    }

    ghost predicate Valid()
      reads this
    {
      ValidAtEnd() && start < length
    }

    /** The values in the buffer, first to last. */
    ghost function Contents(): seq<Option<T>>
      requires ValidAtEnd()
      reads this, data
    {
      Window(data[..], start, size)
    }

    constructor (capacity: nat)
      requires capacity > 0
      ensures Valid() && fresh(data) && length == capacity && Contents() == [] && !overflow
    {
      length := capacity;
      overflow := false;
      data := new Option<T>[capacity](_ => None);
      start, size, end := 0, 0, capacity - 1;
      new;
      SlotOnce(-1, capacity);
      SlotOnce(capacity - 1, capacity);
    }

    method Pop() returns (item: Option<T>)
      requires ValidAtEnd()
      modifies this`end, this`size, data
      ensures ValidAtEnd()
      ensures old(Contents()) == [] ==> item == None && Contents() == []
      ensures old(Contents()) != [] ==> old(Contents()) == Contents() + [item]
      ensures data[..] == if old(size) == 0 then old(data[..]) else old(data[..])[old(end) := None]
    {
      if size == 0 {
        return None;
      }
      ghost var before := data[..];
      WindowSplit(before, start, size, size - 1);
      WindowFrame(before, start, size - 1, start + size - 1, None);
      PreviousSlot(start + size - 1, length);
      item := data[end];
      data[end] := None;
      assert data[..] == before[end := None];
      end := Remainder(end - 1 + length, length);
      size := size - 1;
    }

    method Shift() returns (item: Option<T>)
      requires Valid()
      modifies this`start, this`size
      ensures Valid()
      ensures old(Contents()) == [] ==> item == None && Contents() == []
      ensures old(Contents()) != [] ==> old(Contents()) == [item] + Contents()
    {
      if size == 0 {
        return None;
      }
      WindowSplit(data[..], start, size, 1);
      WindowOne(data[..], start);
      SlotOnce(start, length);
      SlotOnce(start + 1, length);
      WindowFromSlot(data[..], start + 1, Slot(start + 1, length), size - 1);
      FromSlot(start + 1, size - 2, length);
      item := data[start];
      start := Remainder(start + 1, length);
      size := size - 1;
    }

    /** The positions after a push of `n` values. */
    lemma PushedSlots(n: nat, size': int)
      requires Valid() && size' == Min(size + n, length)
      ensures
        var end' := Slot(end + n, length);
        && Slot(length + end' - size' + 1, length) == Slot(start + size + n - size', length)
        && end' == Slot(Slot(length + end' - size' + 1, length) + size' - 1, length)
    {
      FromSlot(start + size - 1, n, length);
      StartSlot(Slot(end + n, length), start + size - 1 + n, size', length);
      EndSlot(Slot(end + n, length), size', length);
    }

    /** The loop of `push`. */
    method WriteBehind(args: seq<Option<T>>)
      requires Valid()
      modifies data
      ensures data[..] == Pushed(old(data[..]), start + size, args, |args|)
    {
      for i := 0 to |args|
        invariant data[..] == Pushed(old(data[..]), start + size, args, i)
      {
        FromSlot(start + size - 1, i + 1, length);
        var slot := Remainder(end + i + 1, length);
        assert slot == Slot(start + size + i, length);
        data[slot] := args[i];
      }
    }

    /** The end of `push`: size, end and start are recalculated. */
    method MoveBehind(i: nat)
      requires Valid()
      modifies this`size, this`end, this`start
      ensures Valid() && size == Min(old(size) + i, length)
      ensures start == Slot(length + Slot(old(end) + i, length) - size + 1, length)
    {
      hide Slot;
      PushedSlots(i, Min(size + i, length));
      if size < length {
        if size + i > length {
          size := length;
        } else {
          size := size + i;
        }
      }
      end := Remainder(end + i, length);
      start := Remainder(length + end - size + 1, length);
    }

    /** The calls of the overflow callback, at the start of `push`. */
    method ReportOverwritten(count: nat) returns (reported: seq<Option<T>>)
      requires Valid()
      ensures reported == Window(data[..], end + 1, if overflow then Excess(size, count, length) else 0)
    {
      reported := [];
      if overflow && size + count > length {
        var i := 0;
        while i < size + count - length
          invariant 0 <= i <= size + count - length && reported == Window(data[..], end + 1, i)
        {
          var slot := Remainder(end + i + 1, length);
          reported := reported + [data[slot]];
          i := i + 1;
        }
      }
    }

    /** `push` of any number of values, even more than fit: the last `length` values stay. `reported` is what the
        overflow callback gets. */
    method Push(args: seq<Option<T>>) returns (r: int, reported: seq<Option<T>>)
      requires Valid()
      modifies this`size, this`end, this`start, data
      ensures Valid() && Contents() == LastN(old(Contents()) + args, length) && r == size
      ensures data[..] == Pushed(old(data[..]), old(start) + old(size), args, |args|)
      ensures reported ==
        Window(old(data[..]), old(end) + 1, if overflow then Excess(old(size), |args|, length) else 0)
      ensures overflow ==>
        (reported == (old(Contents()) + args)[..Excess(old(size), |args|, length)] <==>
         PushReportsLost(old(data[..]), old(start), old(size), args))
    {
      hide Pushed, LastN, Window;
      PushedContents(data[..], start, size, end, args, Pushed(data[..], start + size, args, |args|));
      reported := ReportOverwritten(|args|);
      WriteBehind(args);
      MoveBehind(|args|);
      r := size;
    }

    /** The loop of `unshift`. */
    method WriteBefore(args: seq<Option<T>>)
      requires ValidAtEnd()
      modifies data
      ensures data[..] == Unshifted(old(data[..]), start, args, |args|)
    {
      for i := 0 to |args|
        invariant data[..] == Unshifted(old(data[..]), start, args, i)
      {
        UnshiftSlot(start, i, length);
        var slot := Remainder(length + start - i % length - 1, length);
        data[slot] := args[i];
      }
    }

    /** The calls of the overflow callback, at the start of `unshift`. */
    method ReportBehindEnd(count: nat) returns (reported: seq<Option<T>>)
      requires ValidAtEnd()
      ensures reported == ReportedFromEnd(data[..], end, if overflow then Excess(size, count, length) else 0)
    {
      reported := [];
      if overflow && size + count > length {
        var i := 0;
        while i < size + count - length
          invariant 0 <= i <= size + count - length && reported == ReportedFromEnd(data[..], end, i)
        {
          var p := end - i % length;
          reported := reported + [if p < 0 then None else data[p]];
          i := i + 1;
        }
      }
    }

    /** `unshift` of any number of values: from a buffer that gets full the last values are dropped. Fewer values
        than there are slots keep the buffer valid; whole turns lead `start` or `end` out of it. */
    method Unshift(args: seq<Option<T>>) returns (r: int, reported: seq<Option<T>>)
      requires ValidAtEnd()
      modifies this`size, this`end, this`start, data
      ensures ValidAtEnd() <==> Back(old(end), Excess(old(size), |args|, length), length) < length
      ensures ValidAtEnd() ==> (Valid() <==> Back(old(start), |args|, length) < length)
      ensures old(Valid()) && |args| < length ==> Valid()
      ensures ValidAtEnd() ==> Contents() == FirstN(Reversed(args) + old(Contents()), length) && r == size
      ensures size == Min(old(size) + |args|, length) && start == Back(old(start), |args|, length)
      ensures data[..] == Unshifted(old(data[..]), old(start), args, |args|)
      ensures reported ==
        ReportedFromEnd(old(data[..]), old(end), if overflow then Excess(old(size), |args|, length) else 0)
      ensures overflow ==>
        (reported == Reversed((Reversed(args) + old(Contents()))[
                       |args| + old(size) - Excess(old(size), |args|, length)..]) <==>
         UnshiftReportsLost(old(data[..]), old(start), old(size), args))
    {
      hide Unshifted, FirstN, Window, Reversed, ReportedFromEnd, Back, Excess;
      ghost var before, lost := data[..], Excess(size, |args|, length);
      UnshiftedWindow(before, start, size, args, |args|);
      TakeAll(args);
      BackIsSlot(start, |args|, length);
      BackIsSlot(end, lost, length);
      UnshiftedEnd(start, size, end, |args|, length);
      WindowFromSlot(Unshifted(before, start, args, |args|), Back(start, |args|, length), start - |args|,
                     Min(size + |args|, length));
      if start < length && |args| < length {
        FewStepsStay(start, |args|, length);
        LostAreFewer(size, |args|, length);
        FewStepsStay(end, lost, length);
      }
      reported := ReportBehindEnd(|args|);
      WriteBefore(args);
      MoveBefore(|args|);
      r := size;
    }

    /** The end of `unshift`: end, size and start are recalculated. */
    method MoveBefore(i: nat)
      requires ValidAtEnd()
      modifies this`size, this`end, this`start
      ensures size == Min(old(size) + i, length) && start == Back(old(start), i, length)
      ensures end == Back(old(end), Excess(old(size), i, length), length)
    {
      if length - size - i < 0 {
        end := end + (length - size - i);
        if end < 0 {
          end := length + SignedRemainder(end, length);
        }
      }
      if size < length {
        if size + i > length {
          size := length;
        } else {
          size := size + i;
        }
      }
      start := start - i;
      if start < 0 {
        start := length + SignedRemainder(start, length);
      }
    }

    method Swap(i: nat, j: nat)
      requires Valid() && i < size && j < size
      modifies data
      ensures Valid() && Contents() == old(Contents())[i := old(Contents())[j]][j := old(Contents())[i]]
    {
      var a := Remainder(start + i, length);
      var b := Remainder(start + j, length);
      ghost var slots := data[..];
      WindowUpdate(slots, start, size, i, slots[b]);
      WindowUpdate(slots[a := slots[b]], start, size, j, slots[a]);
      var tmp := data[a];
      data[a] := data[b];
      data[b] := tmp;
      assert data[..] == slots[a := slots[b]][b := slots[a]];
    }

    /** `reverse`, by swapping the two ends inwards. */
    method Reverse()
      requires Valid()
      modifies data
      ensures Valid() && Contents() == Reversed(old(Contents()))
    {
      ghost var before := Contents();
      assert PartlyReversed(before, 0) == before;
      for i := 0 to size / 2
        invariant Contents() == PartlyReversed(before, i)
      {
        SwapInwards(before, i, Contents());
        Swap(i, size - i - 1);
      }
      assert PartlyReversed(before, size / 2) == Reversed(before);
    }

    /** `rotateLeft(cntr)`. */
    method RotateLeft(cntr: int)
      requires Valid()
      modifies this`size, this`end, this`start, data
      ensures Valid() && Contents() == LeftBy(old(Contents()), if cntr < 0 then 0 else cntr)
    {
      ghost var before := Contents();
      var left := cntr - 1;
      while left >= 0
        invariant Valid() && (cntr <= 0 ==> left == cntr - 1 && Contents() == before)
        invariant cntr > 0 ==> left >= -1 && LeftBy(before, cntr) == LeftBy(Contents(), left + 1)
      {
        ghost var now := Contents();
        var item := Shift();
        var _, _ := Push([item]);
        assert Contents() == TurnLeft(now);
        left := left - 1;
      }
    }

    /** `rotateRight(cntr)`. With capacity 1 every turn leads `start` out of the buffer or back into it. */
    method RotateRight(cntr: int)
      requires Valid()
      modifies this`size, this`end, this`start, data
      ensures ValidAtEnd() && Contents() == RightBy(old(Contents()), if cntr < 0 then 0 else cntr)
      ensures Valid() <==> length >= 2 || cntr <= 0 || cntr % 2 == 0
    {
      ghost var before := Contents();
      var left := cntr - 1;
      while left >= 0
        invariant ValidAtEnd() && (cntr <= 0 ==> left == cntr - 1 && Contents() == before)
        invariant cntr > 0 ==> left >= -1 && RightBy(before, cntr) == RightBy(Contents(), left + 1)
        invariant Valid() <==> length >= 2 || cntr <= 0 || (cntr - left - 1) % 2 == 0
      {
        TurnRightOnce();
        left := left - 1;
      }
    }

    method TurnRightOnce()
      requires ValidAtEnd() && (length >= 2 ==> Valid())
      modifies this`size, this`end, this`start, data
      ensures ValidAtEnd() && Contents() == TurnRight(old(Contents()))
      ensures Valid() <==> length >= 2 || !old(Valid())
    {
      hide FirstN, Reversed, TurnRight, Back, ReportedFromEnd, UnshiftReportsLost;
      ghost var now := Contents();
      var item := Pop();
      TurnsRight(now, Contents(), item, length);
      if length == 1 {
        BackByOne(start);
      }
      var _, _ := Unshift([item]);
    }
  }

  lemma TurnsRight<T>(now: seq<Option<T>>, rest: seq<Option<T>>, item: Option<T>, n: nat)
    requires n > 0 && |now| <= n && if now == [] then item == None && rest == [] else now == rest + [item]
    ensures FirstN(Reversed([item]) + rest, n) == TurnRight(now)
  {
    assert Reversed([item]) == [item];
  }

  lemma BackByOne(s: int)
    requires 0 <= s <= 1
    ensures Back(s, 1, 1) == 1 - s && Back(0, 0, 1) == 0
  {
  }
}
