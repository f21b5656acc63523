/** The tags that the merger writes for the events that it takes: their order, and when none is written twice. */
module MergeTags {
  import opened NodeStreams

  /** A piece of the output; `Piece(from, to)` stands for the escaped text between two offsets. */
  datatype Token = Open(node: Element) | Close(node: Element) | Piece(from: nat, to: nat)

  /** The tag at `p` is the first that opens the element of a start, or the last that closes the element of a stop. */
  ghost predicate IsTagOf(out: seq<Token>, p: nat, e: Event) {
    p < |out| &&
    if e.Start? then out[p] == Open(e.node) && Open(e.node) !in out[..p]
    else out[p] == Close(e.node) && Close(e.node) !in out[p + 1..]
  }

  lemma TagIsUnique(out: seq<Token>, p: nat, q: nat, e: Event)
    requires IsTagOf(out, p, e) && IsTagOf(out, q, e)
    ensures p == q
  {
    if e.Start? {
      FirstIsUnique(out, p, q, Open(e.node));
    } else {
      LastIsUnique(out, p, q, Close(e.node));
    }
  }

  lemma FirstIsUnique<T>(s: seq<T>, p: nat, q: nat, t: T)
    requires p < |s| && s[p] == t && t !in s[..p] && q < |s| && s[q] == t && t !in s[..q]
    ensures p == q
  {
  }

  lemma LastIsUnique<T>(s: seq<T>, p: nat, q: nat, t: T)
    requires p < |s| && s[p] == t && t !in s[p + 1..] && q < |s| && s[q] == t && t !in s[q + 1..]
    ensures p == q
  {
  }

  /** No element is opened twice. */
  ghost predicate OpenedOnce(out: seq<Token>) {
    forall i, j :: 0 <= i < j < |out| && out[i].Open? ==> out[i] != out[j]
  }

  /** What is written at a stop: the elements down to this one are closed, and those above it are opened again. */
  ghost predicate StopTags(tags: seq<Token>, r: seq<Element>, q: nat) {
    && q < |r| && |tags| == 2 * (|r| - q) - 1
    && (forall i :: 0 <= i < |r| - q ==> tags[i] == Close(r[|r| - 1 - i]))
    && (forall i :: |r| - q <= i < |tags| ==> tags[i] == Open(r[i + 1 + 2 * q - |r|]))
  }

  /** The events have their tags, in their order. */
  ghost predicate InOrder(m: seq<Event>, pos: seq<nat>, out: seq<Token>) {
    && |pos| == |m| && (forall j :: 0 <= j < |m| ==> IsTagOf(out, pos[j], m[j]))
    && (forall j, k :: 0 <= j < k < |m| ==> pos[j] < pos[k])
  }

  /** Only what has started is opened and closed, and what is open has not stopped. */
  ghost predicate Known(m: seq<Event>, out: seq<Token>, r: seq<Element>) {
    && (forall t :: t in out && !t.Piece? ==> StartedIn(m, t.node))
    && (forall node :: node in r ==> Open(node) in out && !StoppedIn(m, node))
    && (forall node :: StoppedIn(m, node) ==> StartedIn(m, node))
  }

  /** Nothing has been opened twice if and only if the events nest. */
  ghost predicate OnceIfNested(m: seq<Event>, out: seq<Token>, r: seq<Element>) {
    && (OpenedOnce(out) <==> OpenAfter(m).Some?)
    && (OpenAfter(m).Some? ==> OpenAfter(m).value == r)
  }

  ghost predicate Laid(m: seq<Event>, pos: seq<nat>, out: seq<Token>, r: seq<Element>) {
    InOrder(m, pos, out) && Known(m, out, r) && OnceIfNested(m, out, r)
  }

  lemma NothingLaid()
    ensures Laid([], [], [], [])
  {
  }

  lemma OneEventMore(m: seq<Event>, e: Event, node: Element)
    ensures StartedIn(m + [e], node) <==> StartedIn(m, node) || e == Start(e.offset, node)
    ensures StoppedIn(m + [e], node) <==> StoppedIn(m, node) || e == Stop(e.offset, node)
  {
    var all := m + [e];
    assert forall i :: 0 <= i < |m| ==> all[i] == m[i];
    assert all[|m|] == e;
  }

  lemma TagKept(out: seq<Token>, tags: seq<Token>, p: nat, e: Event)
    requires IsTagOf(out, p, e) && (e.Stop? ==> Close(e.node) !in tags)
    ensures IsTagOf(out + tags, p, e)
  {
    assert (out + tags)[..p] == out[..p];
    assert (out + tags)[p + 1..] == out[p + 1..] + tags;
  }

  lemma AddInOrder(m: seq<Event>, pos: seq<nat>, out: seq<Token>, e: Event, p: nat, tags: seq<Token>)
    requires InOrder(m, pos, out) && |out| <= p && IsTagOf(out + tags, p, e)
    requires forall node :: StoppedIn(m, node) ==> Close(node) !in tags
    ensures InOrder(m + [e], pos + [p], out + tags)
  {
    hide IsTagOf;
    forall j | 0 <= j < |m|
      ensures IsTagOf(out + tags, pos[j], m[j]) && pos[j] < p
    {
      assert m[j].Stop? ==> StoppedIn(m, m[j].node);
      TagKept(out, tags, pos[j], m[j]);
      IsInside(out, pos[j], m[j]);
    }
  }

  lemma IsInside(out: seq<Token>, p: nat, e: Event)
    requires IsTagOf(out, p, e)
    ensures p < |out|
  {
  }

  lemma LaidText(m: seq<Event>, pos: seq<nat>, out: seq<Token>, r: seq<Element>, from: nat, to: nat)
    requires Laid(m, pos, out, r)
    ensures Laid(m, pos, out + [Piece(from, to)], r)
  {
    hide IsTagOf, OpenAfter;
    forall j | 0 <= j < |m|
      ensures IsTagOf(out + [Piece(from, to)], pos[j], m[j])
    {
      TagKept(out, [Piece(from, to)], pos[j], m[j]);
    }
    OnceWithOther(out, Piece(from, to));
  }

  lemma OnceWithOther(out: seq<Token>, t: Token)
    requires t.Open? ==> t !in out
    ensures OpenedOnce(out + [t]) <==> OpenedOnce(out)
  {
    var all := out + [t];
    assert forall i :: 0 <= i < |out| ==> all[i] == out[i];
    assert all[|out|] == t;
  }

  // ---------- a start ----------

  lemma KnownStart(m: seq<Event>, out: seq<Token>, r: seq<Element>, e: Event)
    requires Known(m, out, r) && e.Start? && !StartedIn(m, e.node)
    ensures Known(m + [e], out + [Open(e.node)], r + [e.node])
  {
    hide StartedIn, StoppedIn;
    forall node
      ensures StartedIn(m + [e], node) <==> StartedIn(m, node) || node == e.node
      ensures StoppedIn(m + [e], node) <==> StoppedIn(m, node)
    {
      OneEventMore(m, e, node);
    }
  }

  lemma LaidStart(m: seq<Event>, pos: seq<nat>, out: seq<Token>, r: seq<Element>, e: Event)
    requires Laid(m, pos, out, r) && e.Start? && !StartedIn(m, e.node)
    ensures Laid(m + [e], pos + [|out|], out + [Open(e.node)], r + [e.node])
  {
    hide StartedIn, StoppedIn, InOrder;
    var all := out + [Open(e.node)];
    assert Open(e.node) !in out;
    assert all[..|out|] == out && all[|out|] == Open(e.node);
    AddInOrder(m, pos, out, e, |out|, [Open(e.node)]);
    KnownStart(m, out, r, e);
    OnceWithOther(out, Open(e.node));
    assert (m + [e])[..|m|] == m;
  }

  // ---------- a stop ----------

  lemma Removed(r: seq<Element>, q: nat)
    requires Distinct(r) && q < |r|
    ensures var r' := r[..q] + r[q + 1..];
      Distinct(r') && (forall n :: n in r' <==> n in r && n != r[q]) && r'[..q] == r[..q]
  {
    var r' := r[..q] + r[q + 1..];
    forall n | n in r && n != r[q]
      ensures n in r'
    {
      var j :| 0 <= j < |r| && r[j] == n;
      assert r'[if j < q then j else j - 1] == n;
    }
  }

  lemma StopTagsAre(tags: seq<Token>, r: seq<Element>, q: nat)
    requires StopTags(tags, r, q)
    ensures q < |r| && |tags| == 2 * (|r| - q) - 1
    ensures forall t :: t in tags && t.Close? ==> t.node in r
    ensures forall t :: t in tags && t.Open? ==> t.node in r
    ensures tags[|r| - 1 - q] == Close(r[q]) && forall i :: |r| - q <= i < |tags| ==> tags[i].Open?
    ensures q + 1 < |r| ==> tags[|r| - q] == Open(r[q + 1])
    ensures q + 1 == |r| ==> tags == [Close(r[q])]
  {
    assert forall i :: 0 <= i < |tags| ==> tags[i].Piece? || tags[i].node in r;
  }

  lemma StopTagsInOrder(m: seq<Event>, pos: seq<nat>, out: seq<Token>, r: seq<Element>, e: Event, q: nat, tags: seq<Token>)
    requires InOrder(m, pos, out) && Known(m, out, r) && e.Stop? && StopTags(tags, r, q) && r[q] == e.node
    ensures InOrder(m + [e], pos + [|out| + |r| - 1 - q], out + tags)
  {
    hide InOrder, StoppedIn, StartedIn, StopTags;
    StopTagsAre(tags, r, q);
    var p, all := |out| + |r| - 1 - q, out + tags;
    assert all[p] == Close(e.node);
    assert forall i :: p + 1 <= i < |all| ==> all[i] == tags[i - |out|];
    AddInOrder(m, pos, out, e, p, tags);
  }

  lemma KnownStop(m: seq<Event>, out: seq<Token>, r: seq<Element>, e: Event, q: nat, tags: seq<Token>)
    requires Known(m, out, r) && e.Stop? && StopTags(tags, r, q) && r[q] == e.node && Distinct(r)
    ensures Known(m + [e], out + tags, r[..q] + r[q + 1..])
  {
    hide StartedIn, StoppedIn, StopTags;
    StopTagsAre(tags, r, q);
    Removed(r, q);
    forall node
      ensures StartedIn(m + [e], node) <==> StartedIn(m, node)
      ensures StoppedIn(m + [e], node) <==> StoppedIn(m, node) || node == e.node
    {
      OneEventMore(m, e, node);
    }
    assert Open(e.node) in out;
  }

  lemma TwiceStays(out: seq<Token>, tags: seq<Token>)
    requires !OpenedOnce(out)
    ensures !OpenedOnce(out + tags)
  {
    var i, j :| 0 <= i < j < |out| && out[i].Open? && out[i] == out[j];
    var all := out + tags;
    assert all[i] == out[i] && all[j] == out[j];
  }

  lemma OpenedAgain(out: seq<Token>, tags: seq<Token>, k: nat)
    requires k < |tags| && tags[k].Open? && tags[k] in out
    ensures !OpenedOnce(out + tags)
  {
    var all := out + tags;
    var i :| 0 <= i < |out| && out[i] == tags[k];
    assert all[i] == out[i] && all[|out| + k] == tags[k];
  }

  /** A stop in its place closes one element; any other stop opens an element again, and then the events do not nest. */
  lemma OnceAfterStop(m: seq<Event>, out: seq<Token>, r: seq<Element>, e: Event, q: nat, tags: seq<Token>)
    requires Known(m, out, r) && OnceIfNested(m, out, r) && e.Stop? && StopTags(tags, r, q) && r[q] == e.node && Distinct(r)
    ensures OnceIfNested(m + [e], out + tags, r[..q] + r[q + 1..])
  {
    hide StartedIn, StoppedIn, StopTags, OpenedOnce;
    StopTagsAre(tags, r, q);
    assert (m + [e])[..|m|] == m;
    if !OpenedOnce(out) {
      TwiceStays(out, tags);
    } else if q + 1 == |r| {
      OnceWithOther(out, Close(r[q]));
      assert r[..q] + r[q + 1..] == r[..|r| - 1];
    } else {
      assert r[q + 1] in r;
      OpenedAgain(out, tags, |r| - q);
      assert r[|r| - 1] != r[q];
    }
  }

  lemma LaidStop(m: seq<Event>, pos: seq<nat>, out: seq<Token>, r: seq<Element>, e: Event, q: nat, tags: seq<Token>)
    requires Laid(m, pos, out, r) && e.Stop? && StopTags(tags, r, q) && r[q] == e.node && Distinct(r)
    ensures Laid(m + [e], pos + [|out| + |r| - 1 - q], out + tags, r[..q] + r[q + 1..])
  {
    hide InOrder, Known, OnceIfNested, StopTags;
    StopTagsInOrder(m, pos, out, r, e, q, tags);
    KnownStop(m, out, r, e, q, tags);
    OnceAfterStop(m, out, r, e, q, tags);
  }
}
