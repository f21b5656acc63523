/** The order in which the merger takes the events of two streams, and when the merged events nest. */
module MergeOrder {
  import opened NodeStreams

  // ---------- the order ----------

  /** An element of the stream starts at the offset of this event, with it or before it. */
  ghost predicate IsLate(v: seq<Event>, k: nat)
    requires k < |v|
  {
    exists j :: 0 <= j <= k && v[j].Start? && v[j].offset == v[k].offset
  }

  /** At the same offset, the second stream's first stops come before all events of the first stream, and its other
      events after them. */
  ghost predicate ComesFirst(x: seq<Event>, v: seq<Event>, i: nat, k: nat)
    requires i < |x| && k < |v|
  {
    x[i].offset < v[k].offset || (x[i].offset == v[k].offset && IsLate(v, k))
  }

  /** An event of the merged stream is one of the two streams' events. */
  datatype Source = X(index: nat) | V(index: nat)

  ghost predicate InRange(x: seq<Event>, v: seq<Event>, o: seq<Source>) {
    forall j :: 0 <= j < |o| ==> match o[j] case X(a) => a < |x| case V(b) => b < |v|
  }

  ghost function Events(x: seq<Event>, v: seq<Event>, o: seq<Source>): (m: seq<Event>)
    requires InRange(x, v, o)
    ensures |m| == |o|
    ensures forall j :: 0 <= j < |o| ==> m[j] == match o[j] case X(a) => x[a] case V(b) => v[b]
  {
    seq(|o|, j requires 0 <= j < |o| => match o[j] case X(a) => x[a] case V(b) => v[b])
  }

  /** `px` and `pv` say where the events are in the merged stream `o`. */
  ghost predicate Placed(o: seq<Source>, px: seq<nat>, pv: seq<nat>) {
    && (forall a :: 0 <= a < |px| ==> px[a] < |o| && o[px[a]] == X(a))
    && (forall b :: 0 <= b < |pv| ==> pv[b] < |o| && o[pv[b]] == V(b))
    && (forall j :: 0 <= j < |o| ==>
          match o[j] case X(a) => a < |px| && px[a] == j case V(b) => b < |pv| && pv[b] == j)
    && (forall a, a' :: 0 <= a < a' < |px| ==> px[a] < px[a'])
    && (forall b, b' :: 0 <= b < b' < |pv| ==> pv[b] < pv[b'])
  }

  /** The first `|px|` and `|pv|` events have been merged, and each pair of events in the right order. */
  ghost predicate Interleaved(x: seq<Event>, v: seq<Event>, o: seq<Source>, px: seq<nat>, pv: seq<nat>) {
    && |px| <= |x| && |pv| <= |v| && Placed(o, px, pv)
    && (forall a, b :: 0 <= a < |px| && 0 <= b < |pv| ==> (px[a] < pv[b] <==> ComesFirst(x, v, a, b)))
    && (forall a, b :: 0 <= a < |px| && |pv| <= b < |v| ==> ComesFirst(x, v, a, b))
    && (forall a, b :: |px| <= a < |x| && 0 <= b < |pv| ==> !ComesFirst(x, v, a, b))
  }

  lemma NothingInterleaved(x: seq<Event>, v: seq<Event>)
    ensures Interleaved(x, v, [], [], [])
  {
  }

  /** The events of the first stream that come before the next one of the second. */
  lemma BeforeAll(x: seq<Event>, v: seq<Event>, i: nat, k: nat, length: nat)
    requires Ascending(v, length) && i < |x| && k <= |v|
    requires k < |v| ==> x[i].offset < v[k].offset || (x[i].offset == v[k].offset && v[k].Start?)
    ensures forall b :: k <= b < |v| ==> ComesFirst(x, v, i, b)
  {
    forall b | k <= b < |v|
      ensures ComesFirst(x, v, i, b)
    {
      assert v[k].offset <= v[b].offset;
      assert v[k].offset == v[b].offset && v[k].Start? ==> IsLate(v, b);
    }
  }

  lemma TakeX(x: seq<Event>, v: seq<Event>, o: seq<Source>, px: seq<nat>, pv: seq<nat>, length: nat)
    requires Interleaved(x, v, o, px, pv) && Ascending(v, length) && |px| < |x|
    requires |pv| < |v| ==>
      x[|px|].offset < v[|pv|].offset || (x[|px|].offset == v[|pv|].offset && v[|pv|].Start?)
    ensures Interleaved(x, v, o + [X(|px|)], px + [|o|], pv)
  {
    hide ComesFirst;
    BeforeAll(x, v, |px|, |pv|, length);
  }

  /** The events of the second stream that the next one of the first stream waits for. */
  lemma AfterAll(x: seq<Event>, v: seq<Event>, i: nat, k: nat, length: nat)
    requires Ascending(x, length) && i <= |x| && k < |v|
    requires i < |x| ==> v[k].offset < x[i].offset || (v[k].offset == x[i].offset && v[k].Stop?)
    requires forall a, b :: i <= a < |x| && 0 <= b < k ==> !ComesFirst(x, v, a, b)
    ensures forall a :: i <= a < |x| ==> !ComesFirst(x, v, a, k)
  {
    forall a | i <= a < |x|
      ensures !ComesFirst(x, v, a, k)
    {
      assert x[i].offset <= x[a].offset;
      if x[a].offset == v[k].offset && IsLate(v, k) {
        var j :| 0 <= j <= k && v[j].Start? && v[j].offset == v[k].offset;
        assert IsLate(v, j);
        assert ComesFirst(x, v, a, j);
      }
    }
  }

  lemma TakeV(x: seq<Event>, v: seq<Event>, o: seq<Source>, px: seq<nat>, pv: seq<nat>, length: nat)
    requires Interleaved(x, v, o, px, pv) && Ascending(x, length) && |pv| < |v|
    requires |px| < |x| ==>
      v[|pv|].offset < x[|px|].offset || (v[|pv|].offset == x[|px|].offset && v[|pv|].Stop?)
    ensures Interleaved(x, v, o + [V(|pv|)], px, pv + [|o|])
  {
    hide ComesFirst;
    AfterAll(x, v, |px|, |pv|, length);
  }

  // ---------- events that cross ----------

  /** One element starts, another starts, the first stops, the other stops. */
  ghost predicate CrossesAt(m: seq<Event>, i: nat, j: nat, k: nat, l: nat) {
    && i < j < k < l < |m| && m[i].Start? && m[j].Start? && m[k].Stop? && m[l].Stop?
    && m[k].node == m[i].node && m[l].node == m[j].node
  }

  /** What is further up in the stack started later. */
  lemma {:induction false} StackOrder(m: seq<Event>, p: nat, q: nat) returns (a: nat, b: nat)
    requires OpenAfter(m).Some? && StartsOnce(m) && p < q < |OpenAfter(m).value|
    ensures a < b < |m| && m[a].Start? && m[b].Start?
    ensures m[a].node == OpenAfter(m).value[p] && m[b].node == OpenAfter(m).value[q]
  {
    var init, e := m[..|m| - 1], m[|m| - 1];
    assert forall i :: 0 <= i < |init| ==> init[i] == m[i];
    if e.Start? && q == |OpenAfter(m).value| - 1 {
      var node := OpenAfter(init).value[p];
      OpenIsStartedNotStopped(init, node);
      a :| 0 <= a < |init| && init[a].Start? && init[a].node == node;
      b := |m| - 1;
    } else {
      a, b := StackOrder(init, p, q);
    }
  }

  lemma StartIsUnique(m: seq<Event>, a: nat, b: nat)
    requires StartsOnce(m) && a < |m| && b < |m| && m[a].Start? && m[b].Start? && m[a].node == m[b].node
    ensures a == b
  {
  }

  lemma StartsOnceBefore(m: seq<Event>, k: nat)
    requires StartsOnce(m) && k <= |m|
    ensures StartsOnce(m[..k]) && forall c :: 0 <= c < k ==> m[..k][c] == m[c]
  {
  }

  /** Where an open element is in the stack. */
  lemma InStack(m: seq<Event>, k: nat, j: nat) returns (p: nat)
    requires j < k <= |m| && StartsOnce(m) && OpenAfter(m[..k]).Some? && m[j].Start?
    requires forall c :: 0 <= c < k && m[c].Stop? ==> m[c].node != m[j].node
    ensures p < |OpenAfter(m[..k]).value| && OpenAfter(m[..k]).value[p] == m[j].node
  {
    hide OpenAfter, StartsOnce;
    StartsOnceBefore(m, k);
    OpenIsStartedNotStopped(m[..k], m[j].node);
    PrefixOccurs(m, k, m[j].node);
    p :| 0 <= p < |OpenAfter(m[..k]).value| && OpenAfter(m[..k]).value[p] == m[j].node;
  }

  /** A stop closes the element on top of the stack. */
  lemma StopTakesTop(m: seq<Event>, k: nat)
    requires OpenAfter(m).Some? && k < |m| && m[k].Stop?
    ensures OpenAfter(m[..k]).Some? && OpenAfter(m[..k]).value != []
    ensures OpenAfter(m[..k]).value[|OpenAfter(m[..k]).value| - 1] == m[k].node
  {
    PrefixNests(m, k);
    PrefixNests(m, k + 1);
    TakeOne(m, k);
  }

  /** Where events nest, no two elements cross. */
  lemma NestedNeverCrosses(m: seq<Event>, i: nat, j: nat, k: nat, l: nat)
    requires OpenAfter(m).Some? && StartsOnce(m)
    ensures !CrossesAt(m, i, j, k, l)
  {
    hide OpenAfter, StartsOnce;
    if CrossesAt(m, i, j, k, l) {
      StopTakesTop(m, k);
      OnlyStop(m, l, m[j].node);
      var p := InStack(m, k, j);
      if p < |OpenAfter(m[..k]).value| - 1 {
        StartsOnceBefore(m, k);
        var a, b := StackOrder(m[..k], p, |OpenAfter(m[..k]).value| - 1);
        StartIsUnique(m, a, j);
        StartIsUnique(m, b, i);
      } else {
        StartIsUnique(m, i, j);
      }
    }
  }

  /** Every stop has its start before it, every start its stop behind it, and elements stop once. */
  ghost predicate Paired(m: seq<Event>) {
    && (forall k :: 0 <= k < |m| && m[k].Stop? ==> exists i :: 0 <= i < k && m[i].Start? && m[i].node == m[k].node)
    && (forall i :: 0 <= i < |m| && m[i].Start? ==> exists l :: i < l < |m| && m[l].Stop? && m[l].node == m[i].node)
    && (forall k, l :: 0 <= k < l < |m| && m[k].Stop? && m[l].Stop? ==> m[k].node != m[l].node)
  }

  lemma {:induction false} FirstFailure(m: seq<Event>, n: nat) returns (k: nat)
    requires n <= |m| && OpenAfter(m[..n]).None?
    ensures k < n && OpenAfter(m[..k]).Some? && Push(OpenAfter(m[..k]).value, m[k]).None?
  {
    if n > 0 {
      TakeOne(m, n - 1);
      assert m[..n][..n - 1] == m[..n - 1];
      if OpenAfter(m[..n - 1]).None? {
        k := FirstFailure(m, n - 1);
      } else {
        k := n - 1;
      }
    }
  }

  lemma StartOf(m: seq<Event>, k: nat) returns (i: nat)
    requires Paired(m) && k < |m| && m[k].Stop?
    ensures i < k && m[i].Start? && m[i].node == m[k].node
    ensures forall c :: 0 <= c < k && m[c].Stop? ==> m[c].node != m[k].node
  {
    i :| 0 <= i < k && m[i].Start? && m[i].node == m[k].node;
  }

  lemma StopOf(m: seq<Event>, i: nat) returns (l: nat)
    requires Paired(m) && i < |m| && m[i].Start?
    ensures i < l < |m| && m[l].Stop? && m[l].node == m[i].node
  {
    l :| i < l < |m| && m[l].Stop? && m[l].node == m[i].node;
  }

  lemma StartAlwaysPushes(stack: seq<Element>, e: Event)
    requires Push(stack, e).None?
    ensures e.Stop? && (stack != [] ==> stack[|stack| - 1] != e.node)
  {
  }

  /** What cannot be closed is open below the top of the stack. */
  lemma FailureIsBelow(m: seq<Event>, k: nat) returns (i: nat, j: nat)
    requires k < |m| && StartsOnce(m) && Paired(m)
    requires OpenAfter(m[..k]).Some? && Push(OpenAfter(m[..k]).value, m[k]).None?
    ensures i < j < k && m[k].Stop? && m[i].Start? && m[j].Start? && m[i].node == m[k].node
    ensures m[j].node in OpenAfter(m[..k]).value
  {
    hide OpenAfter, StartsOnce, Paired, Push;
    var s := OpenAfter(m[..k]).value;
    StartAlwaysPushes(s, m[k]);
    var c := StartOf(m, k);
    var p := InStack(m, k, c);
    StartsOnceBefore(m, k);
    i, j := StackOrder(m[..k], p, |s| - 1);
  }

  /** What is open stops later. */
  lemma StopsLater(m: seq<Event>, k: nat, j: nat) returns (l: nat)
    requires j < k <= |m| && StartsOnce(m) && Paired(m) && OpenAfter(m[..k]).Some?
    requires m[j].Start? && m[j].node in OpenAfter(m[..k]).value
    ensures k <= l < |m| && m[l].Stop? && m[l].node == m[j].node
  {
    hide OpenAfter, StartsOnce, Paired;
    l := StopOf(m, j);
    StartsOnceBefore(m, k);
    OpenIsStartedNotStopped(m[..k], m[j].node);
    PrefixOccurs(m, k, m[j].node);
  }

  /** Where events do not nest, two elements cross. */
  lemma NotNestedCrosses(m: seq<Event>) returns (i: nat, j: nat, k: nat, l: nat)
    requires OpenAfter(m).None? && StartsOnce(m) && Paired(m)
    ensures CrossesAt(m, i, j, k, l)
  {
    hide OpenAfter, Paired, Push;
    assert m[..|m|] == m;
    k := FirstFailure(m, |m|);
    i, j := FailureIsBelow(m, k);
    l := StopsLater(m, k, j);
    assert l != k by {
      if m[l].node == m[k].node {
        StartIsUnique(m, i, j);
      }
    }
  }

  // ---------- when the merged events nest ----------

  ghost predicate IsElement(events: seq<Event>, a: nat, b: nat) {
    a < b < |events| && events[a].Start? && events[b].Stop? && events[b].node == events[a].node
  }

  /** An element of the first stream and one of the second overlap, and neither lies inside the other: at the same
      offset the second element starts inside the first, and it stops there first, unless it is late. */
  ghost predicate Cross(x: seq<Event>, v: seq<Event>, a: nat, a': nat, b: nat, b': nat)
    requires IsElement(x, a, a') && IsElement(v, b, b')
  {
    var xs, xe, vs, ve, late := x[a].offset, x[a'].offset, v[b].offset, v[b'].offset, IsLate(v, b');
    || (xs <= vs < xe && (xe < ve || (xe == ve && late)))
    || (vs < xs && (xs < ve || (xs == ve && late)) && (ve < xe || (ve == xe && !late)))
  }

  ghost predicate NoneCross(x: seq<Event>, v: seq<Event>) {
    forall a: nat, a': nat, b: nat, b': nat :: IsElement(x, a, a') && IsElement(v, b, b') ==> !Cross(x, v, a, a', b, b')
  }

  lemma CrossByOrder(x: seq<Event>, v: seq<Event>, a: nat, a': nat, b: nat, b': nat)
    requires IsElement(x, a, a') && IsElement(v, b, b')
    ensures Cross(x, v, a, a', b, b') <==>
      || (ComesFirst(x, v, a, b) && !ComesFirst(x, v, a', b) && ComesFirst(x, v, a', b'))
      || (!ComesFirst(x, v, a, b) && ComesFirst(x, v, a, b') && !ComesFirst(x, v, a', b'))
  {
    assert IsLate(v, b);
  }

  lemma StreamPaired(events: seq<Event>, length: nat)
    requires WellFormed(events, length)
    ensures Paired(events)
  {
    hide OpenAfter;
    forall k | 0 <= k < |events| && events[k].Stop?
      ensures exists i :: 0 <= i < k && events[i].Start? && events[i].node == events[k].node
      ensures forall l :: k < l < |events| && events[l].Stop? ==> events[k].node != events[l].node
    {
      var i := StartInStream(events, length, k);
      OnlyStop(events, k, events[k].node);
    }
    forall i | 0 <= i < |events| && events[i].Start?
      ensures exists l :: i < l < |events| && events[l].Stop? && events[l].node == events[i].node
    {
      var l := StopInStream(events, length, i);
    }
  }

  lemma StartInStream(events: seq<Event>, length: nat, k: nat) returns (i: nat)
    requires WellFormed(events, length) && k < |events| && events[k].Stop?
    ensures i < k && events[i].Start? && events[i].node == events[k].node
  {
    PrefixNests(events, k);
    StopIsOpen(events, k, length);
    StartsOnceBefore(events, k);
    OpenIsStartedNotStopped(events[..k], events[k].node);
    PrefixOccurs(events, k, events[k].node);
    i :| 0 <= i < k && events[i].Start? && events[i].node == events[k].node;
  }

  lemma StopInStream(events: seq<Event>, length: nat, i: nat) returns (l: nat)
    requires WellFormed(events, length) && i < |events| && events[i].Start?
    ensures i < l < |events| && events[l].Stop? && events[l].node == events[i].node
  {
    PrefixOccurs(events, i + 1, events[i].node);
    StoppedInTheEnd(events, length, events[i].node, i + 1);
    l :| 0 <= l < |events| && events[l].Stop? && events[l].node == events[i].node;
    var a := StartInStream(events, length, l);
    StartIsUnique(events, a, i);
  }

  /** All events have been merged. */
  ghost predicate Merged(x: seq<Event>, v: seq<Event>, o: seq<Source>, px: seq<nat>, pv: seq<nat>) {
    Interleaved(x, v, o, px, pv) && |px| == |x| && |pv| == |v|
  }

  lemma EventsAt(x: seq<Event>, v: seq<Event>, o: seq<Source>, px: seq<nat>, pv: seq<nat>)
    requires Interleaved(x, v, o, px, pv)
    ensures InRange(x, v, o)
    ensures forall a :: 0 <= a < |px| ==> px[a] < |o| && Events(x, v, o)[px[a]] == x[a]
    ensures forall b :: 0 <= b < |pv| ==> pv[b] < |o| && Events(x, v, o)[pv[b]] == v[b]
  {
  }

  /** Events of one element come from one stream. */
  lemma SameStream(x: seq<Event>, v: seq<Event>, o: seq<Source>, j: nat, k: nat)
    requires InRange(x, v, o) && Apart(x, v) && j < |o| && k < |o|
    requires Events(x, v, o)[j].node == Events(x, v, o)[k].node
    ensures o[j].X? <==> o[k].X?
  {
  }

  lemma SameOrder(o: seq<Source>, px: seq<nat>, pv: seq<nat>, j: nat, k: nat)
    requires Placed(o, px, pv) && j < |o| && k < |o| && o[j].X? == o[k].X?
    ensures j < k <==> o[j].index < o[k].index
  {
    match o[j]
    case X(a) => assert px[a] == j && px[o[k].index] == k;
    case V(b) => assert pv[b] == j && pv[o[k].index] == k;
  }

  lemma MergedStartsOnce(x: seq<Event>, v: seq<Event>, o: seq<Source>, px: seq<nat>, pv: seq<nat>)
    requires Placed(o, px, pv) && InRange(x, v, o) && StartsOnce(x) && StartsOnce(v) && Apart(x, v)
    ensures StartsOnce(Events(x, v, o))
  {
    var m := Events(x, v, o);
    forall j, k | 0 <= j < k < |m| && m[j].Start? && m[k].Start?
      ensures m[j].node != m[k].node
    {
      if m[j].node == m[k].node {
        SameStream(x, v, o, j, k);
        SameOrder(o, px, pv, j, k);
      }
    }
  }

  lemma StartsOf(x: seq<Event>, v: seq<Event>, o: seq<Source>, px: seq<nat>, pv: seq<nat>, k: nat) returns (i: nat)
    requires Merged(x, v, o, px, pv) && InRange(x, v, o) && Paired(x) && Paired(v) && k < |o| && Events(x, v, o)[k].Stop?
    ensures i < k && Events(x, v, o)[i].Start? && Events(x, v, o)[i].node == Events(x, v, o)[k].node
  {
    hide Paired, ComesFirst;
    match o[k]
    case X(c) => { var a := StartOf(x, c); i := px[a]; }
    case V(c) => { var b := StartOf(v, c); i := pv[b]; }
    SameOrder(o, px, pv, i, k);
  }

  lemma StopsOf(x: seq<Event>, v: seq<Event>, o: seq<Source>, px: seq<nat>, pv: seq<nat>, i: nat) returns (l: nat)
    requires Merged(x, v, o, px, pv) && InRange(x, v, o) && Paired(x) && Paired(v) && i < |o| && Events(x, v, o)[i].Start?
    ensures i < l < |o| && Events(x, v, o)[l].Stop? && Events(x, v, o)[l].node == Events(x, v, o)[i].node
  {
    hide Paired, ComesFirst;
    match o[i]
    case X(c) => { var a := StopOf(x, c); l := px[a]; }
    case V(c) => { var b := StopOf(v, c); l := pv[b]; }
    SameOrder(o, px, pv, i, l);
  }

  lemma StopsDiffer(x: seq<Event>, v: seq<Event>, o: seq<Source>, px: seq<nat>, pv: seq<nat>, k: nat, l: nat)
    requires Merged(x, v, o, px, pv) && InRange(x, v, o) && Apart(x, v) && Paired(x) && Paired(v) && k < l < |o|
    requires Events(x, v, o)[k].Stop? && Events(x, v, o)[l].Stop?
    ensures Events(x, v, o)[k].node != Events(x, v, o)[l].node
  {
    hide Paired, ComesFirst;
    if Events(x, v, o)[k].node == Events(x, v, o)[l].node {
      SameStream(x, v, o, k, l);
      SameOrder(o, px, pv, k, l);
      var i := StartOf(if o[l].X? then x else v, o[l].index);
    }
  }

  lemma MergedPaired(x: seq<Event>, v: seq<Event>, o: seq<Source>, px: seq<nat>, pv: seq<nat>)
    requires Merged(x, v, o, px, pv) && InRange(x, v, o) && Apart(x, v) && Paired(x) && Paired(v)
    ensures Paired(Events(x, v, o))
  {
    hide Merged, Apart;
    var m := Events(x, v, o);
    forall k | 0 <= k < |m| && m[k].Stop?
      ensures exists i :: 0 <= i < k && m[i].Start? && m[i].node == m[k].node
    {
      var i := StartsOf(x, v, o, px, pv, k);
    }
    forall i | 0 <= i < |m| && m[i].Start?
      ensures exists l :: i < l < |m| && m[l].Stop? && m[l].node == m[i].node
    {
      var l := StopsOf(x, v, o, px, pv, i);
    }
    forall k, l | 0 <= k < l < |m| && m[k].Stop? && m[l].Stop?
      ensures m[k].node != m[l].node
    {
      StopsDiffer(x, v, o, px, pv, k, l);
    }
  }

  /** Elements that cross do so in the merged events. */
  lemma CrossInMerged(x: seq<Event>, v: seq<Event>, o: seq<Source>, px: seq<nat>, pv: seq<nat>, a: nat, a': nat, b: nat, b': nat)
    requires Merged(x, v, o, px, pv) && InRange(x, v, o)
    requires IsElement(x, a, a') && IsElement(v, b, b') && Cross(x, v, a, a', b, b')
    ensures CrossesAt(Events(x, v, o), px[a], pv[b], px[a'], pv[b']) || CrossesAt(Events(x, v, o), pv[b], px[a], pv[b'], px[a'])
  {
    hide ComesFirst, Cross;
    CrossByOrder(x, v, a, a', b, b');
    EventsAt(x, v, o, px, pv);
  }

  /** And what crosses in the merged events is an element of each stream. */
  lemma MergedCross(x: seq<Event>, v: seq<Event>, o: seq<Source>, px: seq<nat>, pv: seq<nat>, i: nat, j: nat, k: nat, l: nat)
    requires Merged(x, v, o, px, pv) && InRange(x, v, o) && Apart(x, v) && CrossesAt(Events(x, v, o), i, j, k, l)
    requires OpenAfter(x).Some? && StartsOnce(x) && OpenAfter(v).Some? && StartsOnce(v)
    ensures !NoneCross(x, v)
  {
    hide ComesFirst, Cross, OpenAfter, StartsOnce, Apart;
    SameStream(x, v, o, i, k);
    SameStream(x, v, o, j, l);
    SameOrder(o, px, pv, i, k);
    SameOrder(o, px, pv, j, l);
    var a, b, c, d := o[i].index, o[j].index, o[k].index, o[l].index;
    if o[i].X? == o[j].X? {
      SameOrder(o, px, pv, i, j);
      SameOrder(o, px, pv, j, k);
      SameOrder(o, px, pv, k, l);
      NestedNeverCrosses(if o[i].X? then x else v, a, b, c, d);
    } else if o[i].X? {
      assert IsElement(x, a, c) && IsElement(v, b, d);
      CrossByOrder(x, v, a, c, b, d);
    } else {
      assert IsElement(v, a, c) && IsElement(x, b, d);
      CrossByOrder(x, v, b, d, a, c);
    }
  }

  /** The merged events nest if and only if no element of the one stream crosses one of the other. */
  lemma NestsIff(x: seq<Event>, v: seq<Event>, o: seq<Source>, px: seq<nat>, pv: seq<nat>, length: nat)
    requires BothWellFormed(x, v, length) && Merged(x, v, o, px, pv) && InRange(x, v, o)
    ensures OpenAfter(Events(x, v, o)).Some? <==> NoneCross(x, v)
  {
    hide OpenAfter, StartsOnce, Apart, Cross, Ascending, Paired, Interleaved, Placed;
    var m := Events(x, v, o);
    StreamPaired(x, length);
    StreamPaired(v, length);
    MergedInOrder(x, v, o, px, pv);
    MergedStartsOnce(x, v, o, px, pv);
    MergedPaired(x, v, o, px, pv);
    if OpenAfter(m).None? {
      var i, j, k, l := NotNestedCrosses(m);
      MergedCross(x, v, o, px, pv, i, j, k, l);
    } else {
      forall a: nat, a': nat, b: nat, b': nat | IsElement(x, a, a') && IsElement(v, b, b')
        ensures !Cross(x, v, a, a', b, b')
      {
        if Cross(x, v, a, a', b, b') {
          CrossInMerged(x, v, o, px, pv, a, a', b, b');
          NestedNeverCrosses(m, px[a], pv[b], px[a'], pv[b']);
          NestedNeverCrosses(m, pv[b], px[a], pv[b'], px[a']);
        }
      }
    }
  }

  lemma MergedInOrder(x: seq<Event>, v: seq<Event>, o: seq<Source>, px: seq<nat>, pv: seq<nat>)
    requires Interleaved(x, v, o, px, pv)
    ensures Placed(o, px, pv)
  {
  }

  /** An element of the first stream and one of the second that are not empty, and the second not late: they cross
      unless they lie beside each other, the second inside the first, or the first inside the second with room on both
      sides. */
  lemma CrossIff(x: seq<Event>, v: seq<Event>, a: nat, a': nat, b: nat, b': nat)
    requires IsElement(x, a, a') && IsElement(v, b, b') && !IsLate(v, b')
    requires x[a].offset < x[a'].offset && v[b].offset < v[b'].offset
    ensures var xs, xe, vs, ve := x[a].offset, x[a'].offset, v[b].offset, v[b'].offset;
      !Cross(x, v, a, a', b, b') <==> xe <= vs || ve <= xs || (xs <= vs && ve <= xe) || (vs < xs && xe < ve)
  {
  }
}
