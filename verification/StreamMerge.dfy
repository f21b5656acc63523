/** The highlighter's stream merger: two element trees over one text become one well-nested markup. */
module StreamMerge {
  import opened NodeStreams
  import opened MergeOrder
  import opened MergeTags

  function ToLower(name: string): (r: string)
    ensures |r| == |name|
    ensures forall i :: 0 <= i < |r| ==>
      if 'A' <= name[i] <= 'Z' then 'a' <= r[i] <= 'z' && r[i] as int - 'a' as int == name[i] as int - 'A' as int
      else r[i] == name[i]
  {
    if name == "" then ""
    else
      var c := name[|name| - 1];
      ToLower(name[..|name| - 1]) + [if 'A' <= c <= 'Z' then (c as int - 'A' as int + 'a' as int) as char else c]
  }

  function RenderAttributes(attributes: seq<Attribute>): string {
    if attributes == [] then ""
    else
      var last := attributes[|attributes| - 1];
      RenderAttributes(attributes[..|attributes| - 1]) + " " + last.name + "=\"" + Escape(last.value) + "\""
  }

  function OpenTag(node: Element): string { "<" + node.name + RenderAttributes(node.attributes) + ">" }

  lemma AttributesAfter(first: seq<Attribute>, x: Attribute)
    ensures RenderAttributes(first + [x]) == RenderAttributes(first) + (" " + x.name + "=\"" + Escape(x.value) + "\"")
  {
    hide Escape;
    assert (first + [x])[..|first|] == first;
  }

  lemma {:induction false} AttributesConcat(first: seq<Attribute>, rest: seq<Attribute>)
    ensures RenderAttributes(first + rest) == RenderAttributes(first) + RenderAttributes(rest)
  {
    hide RenderAttributes, Escape;
    if rest == [] {
      assert first + rest == first;
      NoAttributes();
    } else {
      var init, last := rest[..|rest| - 1], rest[|rest| - 1];
      assert rest == init + [last] && first + rest == (first + init) + [last];
      AttributesConcat(first, init);
      AttributesAfter(first + init, last);
      AttributesAfter(init, last);
    }
  }

  lemma NoAttributes()
    ensures RenderAttributes([]) == ""
  {
  }

  /** The tag names the element first and then each of its attributes, in their order, the values escaped. */
  lemma TagHasAttribute(node: Element, i: nat)
    requires i < |node.attributes|
    ensures var before, x, after := node.attributes[..i], node.attributes[i], node.attributes[i + 1..];
      OpenTag(node) ==
      "<" + node.name + RenderAttributes(before) + (" " + x.name + "=\"" + Escape(x.value) + "\"") + RenderAttributes(after) + ">"
  {
    hide RenderAttributes, Escape;
    var before, x, after := node.attributes[..i], node.attributes[i], node.attributes[i + 1..];
    assert node.attributes == (before + [x]) + after;
    AttributesConcat(before + [x], after);
    AttributesAfter(before, x);
  }

  function CloseTag(node: Element): string { "</" + ToLower(node.name) + ">" }

  /** An offset, or the end of the text if that comes first. */
  function Cut(w: string, offset: nat): nat {
    if offset <= |w| then offset else |w|
  }

  /** `substr` from one offset to another, cut at the end of the text. */
  function Slice(w: string, from: nat, to: nat): string {
    if from <= to then w[Cut(w, from)..Cut(w, to)] else ""
  }

  /** `substr` from an offset on. */
  function RestOf(w: string, from: nat): string {
    w[Cut(w, from)..]
  }

  function RenderOne(t: Token, w: string, tag: Element -> string): string {
    match t
    case Open(node) => tag(node)
    case Close(node) => CloseTag(node)
    case Piece(from, to) => Escape(Slice(w, from, to))
  }

  function Render(tokens: seq<Token>, w: string, tag: Element -> string): string {
    if tokens == [] then "" else Render(tokens[..|tokens| - 1], w, tag) + RenderOne(tokens[|tokens| - 1], w, tag)
  }

  /** The output with its tags removed. */
  function WithoutTags(tokens: seq<Token>, w: string): string {
    if tokens == [] then ""
    else
      WithoutTags(tokens[..|tokens| - 1], w) +
      match tokens[|tokens| - 1]
      case Piece(from, to) => Escape(Slice(w, from, to))
      case _ => ""
  }

  /** The stack of open tags after the tokens, if every closing tag closes the innermost open one. */
  function Nest(tokens: seq<Token>): Option<seq<Element>> {
    if tokens == [] then Some([])
    else
      match Nest(tokens[..|tokens| - 1])
      case None => None
      case Some(stack) =>
        match tokens[|tokens| - 1]
        case Open(node) => Some(stack + [node])
        case Close(node) =>
          if stack != [] && stack[|stack| - 1] == node then Some(stack[..|stack| - 1]) else None
        case Piece(_, _) => Some(stack)
  }

  /** How far the text tokens reach, if they follow each other without gap or overlap from the start. */
  function Reach(tokens: seq<Token>): Option<nat> {
    if tokens == [] then Some(0)
    else
      match Reach(tokens[..|tokens| - 1])
      case None => None
      case Some(pos) =>
        match tokens[|tokens| - 1]
        case Piece(from, to) => if from == pos && from <= to then Some(to) else None
        case _ => Some(pos)
  }

  /** The text position `pos` lies inside the element. */
  ghost predicate Spans(events: seq<Event>, node: Element, pos: nat) {
    exists a, b :: 0 <= a < |events| && 0 <= b < |events|
      && events[a].Start? && events[a].node == node && events[a].offset <= pos
      && events[b].Stop? && events[b].node == node && pos < events[b].offset
  }

  /** The text of `t` lies inside exactly the elements of `stack`, in the sense of the two streams. */
  ghost predicate LiesIn(t: Token, stack: seq<Element>, x: seq<Event>, v: seq<Event>)
    requires t.Piece?
  {
    forall pos: nat, node :: t.from <= pos < t.to ==> (node in stack <==> Spans(x, node, pos) || Spans(v, node, pos))
  }

  /** Every text position lies inside the tags of exactly those elements that contain it in either stream. */
  ghost predicate InsideRight(tokens: seq<Token>, x: seq<Event>, v: seq<Event>) {
    tokens == [] ||
    var init, t := tokens[..|tokens| - 1], tokens[|tokens| - 1];
    InsideRight(init, x, v) && Nest(init).Some? && (t.Piece? ==> LiesIn(t, Nest(init).value, x, v))
  }

  lemma AddToken(tokens: seq<Token>, t: Token, w: string, tag: Element -> string)
    ensures (tokens + [t])[..|tokens|] == tokens
    ensures Render(tokens + [t], w, tag) == Render(tokens, w, tag) + RenderOne(t, w, tag)
  {
  }

  // ---------- where the text lies ----------

  ghost predicate Consumed(events: seq<Event>, i: nat, from: nat, to: nat) {
    && i <= |events|
    && (forall a :: 0 <= a < i ==> events[a].offset <= from)
    && (forall a :: i <= a < |events| ==> to <= events[a].offset)
  }

  /** Between the last consumed and the next event, the open elements are those that contain the text. */
  lemma OpenIsSpanning(events: seq<Event>, i: nat, from: nat, to: nat, length: nat, node: Element, pos: nat)
    requires WellFormed(events, length) && Consumed(events, i, from, to) && from <= pos < to
    requires OpenAfter(events[..i]).Some?
    ensures node in OpenAfter(events[..i]).value <==> Spans(events, node, pos)
  {
    hide OpenAfter, StartedIn, StoppedIn;
    OpenIsStartedNotStopped(events[..i], node);
    PrefixOccurs(events, i, node);
    if node in OpenAfter(events[..i]).value {
      StoppedInTheEnd(events, length, node, i);
    }
    if Spans(events, node, pos) {
      var a, b :| 0 <= a < |events| && 0 <= b < |events|
        && events[a].Start? && events[a].node == node && events[a].offset <= pos
        && events[b].Stop? && events[b].node == node && pos < events[b].offset;
      OnlyStop(events, b, node);
    }
  }

  // ---------- the merge ----------

  ghost predicate SameElements(r: seq<Element>, x: seq<Element>, v: seq<Element>) {
    Distinct(r) && forall node :: node in r <==> node in x || node in v
  }

  ghost predicate Emitted(out: seq<Token>, y: string, w: string, tag: Element -> string, r: seq<Element>, p: nat) {
    Nest(out) == Some(r) && Reach(out) == Some(p) && y == Render(out, w, tag)
  }

  ghost predicate OnlyTags(tokens: seq<Token>) {
    forall i :: 0 <= i < |tokens| ==> !tokens[i].Piece?
  }

  lemma {:induction false} NestsBefore(a: seq<Token>, b: seq<Token>)
    requires Nest(a + b).Some?
    ensures Nest(a).Some?
  {
    if b == [] {
      assert a + b == a;
    } else {
      assert (a + b)[..|a + b| - 1] == a + b[..|b| - 1];
      NestsBefore(a, b[..|b| - 1]);
    }
  }

  /** Tags do not change where the text before them lies. */
  lemma {:induction false} TagsKeepInside(out: seq<Token>, tags: seq<Token>, x: seq<Event>, v: seq<Event>)
    requires InsideRight(out, x, v) && OnlyTags(tags) && Nest(out + tags).Some?
    ensures InsideRight(out + tags, x, v)
  {
    if tags == [] {
      assert out + tags == out;
    } else {
      var init := tags[..|tags| - 1];
      assert (out + tags)[..|out + tags| - 1] == out + init;
      assert out + tags == (out + init) + [tags[|tags| - 1]];
      NestsBefore(out + init, [tags[|tags| - 1]]);
      TagsKeepInside(out, init, x, v);
    }
  }

  /** A tag does not move the text position. */
  lemma EmitTag(
      out: seq<Token>, t: Token, y: string, w: string, tag: Element -> string, r: seq<Element>, r': seq<Element>, p: nat)
    requires Emitted(out, y, w, tag, r, p) && !t.Piece?
    requires if t.Open? then r' == r + [t.node] else r == r' + [t.node]
    ensures Emitted(out + [t], y + RenderOne(t, w, tag), w, tag, r', p)
  {
    AddToken(out, t, w, tag);
    assert t.Close? ==> r[..|r| - 1] == r';
  }

  lemma EmitText(
      out: seq<Token>, y: string, w: string, tag: Element -> string, x: seq<Event>, v: seq<Event>, r: seq<Element>, p: nat, to: nat,
      i: nat, k: nat, length: nat)
    requires Emitted(out, y, w, tag, r, p) && InsideRight(out, x, v) && p <= to
    requires WellFormed(x, length) && WellFormed(v, length) && Consumed(x, i, p, to) && Consumed(v, k, p, to)
    requires OpenAfter(x[..i]).Some? && OpenAfter(v[..k]).Some?
    requires SameElements(r, OpenAfter(x[..i]).value, OpenAfter(v[..k]).value)
    ensures Emitted(out + [Piece(p, to)], y + RenderOne(Piece(p, to), w, tag), w, tag, r, to)
    ensures InsideRight(out + [Piece(p, to)], x, v)
  {
    var t := Piece(p, to);
    AddToken(out, t, w, tag);
    forall pos: nat, node | p <= pos < to
      ensures node in r <==> Spans(x, node, pos) || Spans(v, node, pos)
    {
      OpenIsSpanning(x, i, p, to, length, node, pos);
      OpenIsSpanning(v, k, p, to, length, node, pos);
    }
  }

  lemma Empty<T>(s: seq<T>)
    ensures s == [] || s[0] in s
  {
  }

  lemma TakeAll<T>(s: seq<T>)
    ensures s[..|s|] == s && s[0..] == s
  {
  }

  lemma DropOne<T>(s: seq<T>, n: nat)
    requires n < |s|
    ensures s[n..] != [] && s[n..][0] == s[n] && s[n..][1..] == s[n + 1..]
  {
  }

  /** The tags close the elements of the stack from its top down to number `q`. */
  ghost predicate ClosesDown(tags: seq<Token>, r: seq<Element>, q: nat) {
    |tags| == |r| - q && forall i :: 0 <= i < |tags| ==> tags[i] == Close(r[|r| - 1 - i])
  }

  lemma TopIsClosed(r: seq<Element>)
    requires r != []
    ensures ClosesDown([Close(r[|r| - 1])], r, |r| - 1)
  {
  }

  lemma OneMoreClosed(tags: seq<Token>, r: seq<Element>, q: nat)
    requires ClosesDown(tags, r, q + 1) && q < |r|
    ensures ClosesDown(tags + [Close(r[q])], r, q)
  {
  }

  /** Closes the tags from the top of the stack down to `node`. */
  method CloseDownTo(
      node: Element, r: seq<Element>, y: string, ghost w: string, ghost tag: Element -> string, ghost out: seq<Token>, ghost p: nat)
    returns (q: nat, y': string, ghost tags: seq<Token>)
    requires node in r && Emitted(out, y, w, tag, r, p)
    ensures q < |r| && r[q] == node && OnlyTags(tags) && Emitted(out + tags, y', w, tag, r[..q], p)
    ensures ClosesDown(tags, r, q)
  {
    hide Emitted, ClosesDown;
    q := |r| - 1;
    var o := r[q];
    TakeOne(r, q);
    TakeAll(r);
    EmitTag(out, Close(o), y, w, tag, r, r[..q], p);
    y', tags := y + CloseTag(o), [Close(o)];
    TopIsClosed(r);
    while o != node
      invariant q < |r| && o == r[q] && node in r[..q + 1]
      invariant OnlyTags(tags) && Emitted(out + tags, y', w, tag, r[..q], p)
      invariant ClosesDown(tags, r, q)
      decreases q
    {
      TakeOne(r, q);
      TakeOne(r, q - 1);
      q := q - 1;
      o := r[q];
      EmitTag(out + tags, Close(o), y', w, tag, r[..q + 1], r[..q], p);
      Associate(out, tags, Close(o));
      OneMoreClosed(tags, r, q);
      y', tags := y' + CloseTag(o), tags + [Close(o)];
    }
  }

  lemma Associate<T>(a: seq<T>, b: seq<T>, c: T)
    ensures (a + b) + [c] == a + (b + [c])
  {
  }

  /** Opens the tags of the stack from the position `start` up. */
  method OpenFrom(
      start: nat, r: seq<Element>, y: string, ghost w: string, tag: Element -> string, ghost out: seq<Token>, ghost p: nat)
    returns (y': string, ghost tags: seq<Token>)
    requires start <= |r| && Emitted(out, y, w, tag, r[..start], p)
    ensures OnlyTags(tags) && Emitted(out + tags, y', w, tag, r, p)
    ensures |tags| == |r| - start && forall i :: 0 <= i < |tags| ==> tags[i] == Open(r[start + i])
  {
    hide Emitted;
    y', tags := y, [];
    Associate0(out);
    TakeAll(r);
    var q := start;
    while q < |r|
      invariant start <= q <= |r| && OnlyTags(tags) && Emitted(out + tags, y', w, tag, r[..q], p)
      invariant |tags| == q - start && forall i :: 0 <= i < |tags| ==> tags[i] == Open(r[start + i])
    {
      TakeOne(r, q);
      EmitTag(out + tags, Open(r[q]), y', w, tag, r[..q], r[..q + 1], p);
      Associate(out, tags, Open(r[q]));
      y', tags := y' + tag(r[q]), tags + [Open(r[q])];
      q := q + 1;
    }
    assert q == |r|;
  }

  lemma Associate0<T>(a: seq<T>)
    ensures a + [] == a
  {
  }

  lemma Associate3<T>(a: seq<T>, b: seq<T>, c: seq<T>)
    ensures (a + b) + c == a + (b + c)
  {
  }

  /** An event's tags. At a stop the tags above the element are closed and opened again around it. */
  method EmitEvent(
      u: Event, r: seq<Element>, y: string, ghost w: string, tag: Element -> string, ghost out: seq<Token>, ghost p: nat)
    returns (r': seq<Element>, y': string, ghost tags: seq<Token>, ghost at: nat)
    requires Distinct(r) && (u.Stop? ==> u.node in r) && Emitted(out, y, w, tag, r, p)
    ensures OnlyTags(tags) && Emitted(out + tags, y', w, tag, r', p)
    ensures u.Start? ==> r' == r + [u.node]
    ensures u.Stop? ==> Distinct(r') && forall n :: n in r' <==> n in r && n != u.node
    ensures u.Start? ==> tags == [Open(u.node)]
    ensures u.Stop? ==> StopTags(tags, r, at) && r[at] == u.node && r' == r[..at] + r[at + 1..]
  {
    hide Emitted;
    at := 0;
    if u.Start? {
      EmitTag(out, Open(u.node), y, w, tag, r, r + [u.node], p);
      r', y', tags := r + [u.node], y + tag(u.node), [Open(u.node)];
    } else {
      var q;
      q, y', tags := CloseDownTo(u.node, r, y, w, tag, out, p);
      Removed(r, q);
      r' := r[..q] + r[q + 1..];
      ghost var reopened;
      y', reopened := OpenFrom(q, r', y', w, tag, out + tags, p);
      Associate3(out, tags, reopened);
      ClosedAndReopened(tags, reopened, r, q);
      tags, at := tags + reopened, q;
    }
  }

  lemma ClosedAndReopened(closed: seq<Token>, reopened: seq<Token>, r: seq<Element>, q: nat)
    requires q < |r| && ClosesDown(closed, r, q) && |reopened| == |r| - q - 1
    requires forall i :: 0 <= i < |reopened| ==> reopened[i] == Open((r[..q] + r[q + 1..])[q + i])
    ensures StopTags(closed + reopened, r, q)
  {
    var tags := closed + reopened;
    forall i | |r| - q <= i < |tags|
      ensures tags[i] == Open(r[i + 1 + 2 * q - |r|])
    {
      assert tags[i] == reopened[i - |closed|];
    }
  }

  /** `t`: whether the next event comes from the first stream. */
  function FromFirst(x: seq<Event>, v: seq<Event>): bool
    requires x != [] || v != []
  {
    if x != [] && v != [] then
      if x[0].offset != v[0].offset then x[0].offset < v[0].offset else v[0].Start?
    else x != []
  }

  ghost predicate Merging(
      x0: seq<Event>, v0: seq<Event>, w: string, tag: Element -> string, i: nat, k: nat, p: nat, r: seq<Element>,
      y: string, out: seq<Token>, length: nat)
  {
    && i <= |x0| && k <= |v0| && p <= length
    && Consumed(x0, i, p, p) && Consumed(v0, k, p, p)
    && OpenAfter(x0[..i]).Some? && OpenAfter(v0[..k]).Some?
    && SameElements(r, OpenAfter(x0[..i]).value, OpenAfter(v0[..k]).value)
    && Emitted(out, y, w, tag, r, p) && InsideRight(out, x0, v0)
  }

  /** The chosen event has the least offset of all that remain. */
  lemma NextIsLeast(x: seq<Event>, v: seq<Event>, i: nat, k: nat, p: nat, length: nat)
    requires WellFormed(x, length) && WellFormed(v, length) && Consumed(x, i, p, p) && Consumed(v, k, p, p)
    requires i < |x| || k < |v|
    ensures
      var fromX := FromFirst(x[i..], v[k..]);
      var u := if fromX then x[i] else v[k];
      && Consumed(x, i, p, u.offset) && Consumed(v, k, p, u.offset) && p <= u.offset <= length
      && Consumed(x, if fromX then i + 1 else i, u.offset, u.offset)
      && Consumed(v, if fromX then k else k + 1, u.offset, u.offset)
  {
  }

  /** One event more of one stream, none of the other. */
  lemma ConsumeOne(events: seq<Event>, i: nat, others: seq<Element>, r: seq<Element>, r': seq<Element>, length: nat)
    requires WellFormed(events, length) && i < |events| && OpenAfter(events[..i]).Some?
    requires SameElements(r, OpenAfter(events[..i]).value, others) && events[i].node !in others
    requires events[i].Start? ==> r' == r + [events[i].node]
    requires events[i].Stop? ==> Distinct(r') && forall n :: n in r' <==> n in r && n != events[i].node
    ensures OpenAfter(events[..i + 1]).Some?
    ensures SameElements(r', OpenAfter(events[..i + 1]).value, others)
  {
    var node := events[i].node;
    PrefixNests(events, i + 1);
    TakeOne(events, i);
    OpenIsStartedNotStopped(events[..i], node);
    OpenIsStartedNotStopped(events[..i + 1], node);
    if events[i].Start? {
      assert !StartedIn(events[..i], node);
    }
  }

  lemma ApartFromOpen(events: seq<Event>, others: seq<Event>, i: nat, k: nat)
    requires Apart(events, others) && StartsOnce(others) && i < |events| && k <= |others|
    requires OpenAfter(others[..k]).Some?
    ensures events[i].node !in OpenAfter(others[..k]).value
  {
    if events[i].node in OpenAfter(others[..k]).value {
      OpenIsStartedNotStopped(others[..k], events[i].node);
    }
  }

  ghost predicate IsNext(x0: seq<Event>, v0: seq<Event>, i: nat, k: nat, fromX: bool, u: Event) {
    && i <= |x0| && k <= |v0| && (i < |x0| || k < |v0|)
    && fromX == FromFirst(x0[i..], v0[k..]) && u == if fromX then x0[i] else v0[k]
  }

  /** The text up to the next event. */
  lemma EmitTextBefore(
      x0: seq<Event>, v0: seq<Event>, w: string, tag: Element -> string, i: nat, k: nat, p: nat, r: seq<Element>,
      y: string, out: seq<Token>, fromX: bool, u: Event, length: nat)
    requires BothWellFormed(x0, v0, length) && Merging(x0, v0, w, tag, i, k, p, r, y, out, length) && IsNext(x0, v0, i, k, fromX, u)
    ensures u.Stop? ==> u.node in r
    ensures Distinct(r) && p <= u.offset
    ensures Emitted(out + [Piece(p, u.offset)], y + RenderOne(Piece(p, u.offset), w, tag), w, tag, r, u.offset)
    ensures InsideRight(out + [Piece(p, u.offset)], x0, v0)
  {
    NextIsLeast(x0, v0, i, k, p, length);
    EmitText(out, y, w, tag, x0, v0, r, p, u.offset, i, k, length);
    if u.Stop? {
      if fromX {
        StopIsOpen(x0, i, length);
      } else {
        StopIsOpen(v0, k, length);
      }
    }
  }

  /** After the event's tags the merge has consumed it. */
  lemma EventConsumed(
      x0: seq<Event>, v0: seq<Event>, w: string, tag: Element -> string, i: nat, k: nat, p: nat, r: seq<Element>,
      y: string, out: seq<Token>, fromX: bool, u: Event, r': seq<Element>, y': string, out': seq<Token>,
      length: nat)
    requires BothWellFormed(x0, v0, length) && Merging(x0, v0, w, tag, i, k, p, r, y, out, length) && IsNext(x0, v0, i, k, fromX, u)
    requires Emitted(out', y', w, tag, r', u.offset) && InsideRight(out', x0, v0)
    requires u.Start? ==> r' == r + [u.node]
    requires u.Stop? ==> Distinct(r') && forall n :: n in r' <==> n in r && n != u.node
    ensures Merging(x0, v0, w, tag, if fromX then i + 1 else i, if fromX then k else k + 1, u.offset, r', y', out', length)
  {
    NextIsLeast(x0, v0, i, k, p, length);
    if fromX {
      ApartFromOpen(x0, v0, i, k);
      ConsumeOne(x0, i, OpenAfter(v0[..k]).value, r, r', length);
    } else {
      ApartFromOpen(v0, x0, k, i);
      ConsumeOne(v0, k, OpenAfter(x0[..i]).value, r, r', length);
    }
  }

  /** When both streams are consumed, nothing is open. */
  lemma NothingOpen(x0: seq<Event>, v0: seq<Event>, r: seq<Element>, length: nat)
    requires BothWellFormed(x0, v0, length)
    ensures x0[..|x0|] == x0 && v0[..|v0|] == v0 && OpenAfter(x0) == OpenAfter(v0) == Some([])
    ensures SameElements(r, [], []) ==> r == []
  {
    TakeAll(x0);
    TakeAll(v0);
    Empty(r);
  }

  /** The text behind the last event; no tag is left open. */
  lemma EmitTextAfter(
      x0: seq<Event>, v0: seq<Event>, w: string, tag: Element -> string, p: nat, r: seq<Element>, y: string,
      out: seq<Token>, length: nat)
    requires BothWellFormed(x0, v0, length) && Merging(x0, v0, w, tag, |x0|, |v0|, p, r, y, out, length)
    ensures r == [] && p <= length
    ensures Emitted(out + [Piece(p, length)], y + RenderOne(Piece(p, length), w, tag), w, tag, [], length)
    ensures InsideRight(out + [Piece(p, length)], x0, v0)
  {
    hide WellFormed, Emitted, InsideRight, OpenAfter, RenderOne, SameElements;
    NothingOpen(x0, v0, r, length);
    assert Consumed(x0, |x0|, p, length) && Consumed(v0, |v0|, p, length);
    EmitText(out, y, w, tag, x0, v0, r, p, length, |x0|, |v0|, length);
  }

  lemma NothingMerged(x0: seq<Event>, v0: seq<Event>, w: string, tag: Element -> string, length: nat)
    requires BothWellFormed(x0, v0, length)
    ensures Merging(x0, v0, w, tag, 0, 0, 0, [], "", [], length)
  {
  }

  // ---------- the order of the tags ----------

  /** Where the merge stands in both streams, and the tags of the events so far. */
  ghost predicate Tracked(
      x0: seq<Event>, v0: seq<Event>, i: nat, k: nat, o: seq<Source>, px: seq<nat>, pv: seq<nat>, pos: seq<nat>,
      out: seq<Token>, r: seq<Element>)
  {
    && |px| == i && |pv| == k && Interleaved(x0, v0, o, px, pv) && InRange(x0, v0, o)
    && Laid(Events(x0, v0, o), pos, out, r)
  }

  lemma NothingTracked(x0: seq<Event>, v0: seq<Event>)
    ensures Tracked(x0, v0, 0, 0, [], [], [], [], [], [])
  {
    hide Laid, Interleaved;
    NothingInterleaved(x0, v0);
    NothingLaid();
    assert Events(x0, v0, []) == [];
  }

  lemma TrackText(
      x0: seq<Event>, v0: seq<Event>, i: nat, k: nat, o: seq<Source>, px: seq<nat>, pv: seq<nat>, pos: seq<nat>,
      out: seq<Token>, r: seq<Element>, from: nat, to: nat)
    requires Tracked(x0, v0, i, k, o, px, pv, pos, out, r)
    ensures Tracked(x0, v0, i, k, o, px, pv, pos, out + [Piece(from, to)], r)
  {
    hide Laid, Interleaved;
    LaidText(Events(x0, v0, o), pos, out, r, from, to);
  }

  /** An element of the next event has not started yet. */
  lemma NotStartedYet(x0: seq<Event>, v0: seq<Event>, o: seq<Source>, px: seq<nat>, pv: seq<nat>, fromX: bool)
    requires Placed(o, px, pv) && InRange(x0, v0, o) && StartsOnce(x0) && StartsOnce(v0) && Apart(x0, v0)
    requires if fromX then |px| < |x0| && x0[|px|].Start? else |pv| < |v0| && v0[|pv|].Start?
    ensures !StartedIn(Events(x0, v0, o), if fromX then x0[|px|].node else v0[|pv|].node)
  {
    var u := if fromX then x0[|px|] else v0[|pv|];
    forall j | 0 <= j < |o|
      ensures Events(x0, v0, o)[j].Start? ==> Events(x0, v0, o)[j].node != u.node
    {
    }
  }

  /** The next event in its place. */
  lemma TakeNext(
      x0: seq<Event>, v0: seq<Event>, i: nat, k: nat, o: seq<Source>, px: seq<nat>, pv: seq<nat>, fromX: bool, u: Event,
      length: nat) returns (o': seq<Source>, px': seq<nat>, pv': seq<nat>)
    requires BothWellFormed(x0, v0, length) && IsNext(x0, v0, i, k, fromX, u)
    requires |px| == i && |pv| == k && Interleaved(x0, v0, o, px, pv) && InRange(x0, v0, o)
    ensures |px'| == (if fromX then i + 1 else i) && |pv'| == (if fromX then k else k + 1)
    ensures Interleaved(x0, v0, o', px', pv') && InRange(x0, v0, o')
    ensures Events(x0, v0, o') == Events(x0, v0, o) + [u]
    ensures if fromX then i < |x0| && u == x0[i] else k < |v0| && u == v0[k]
  {
    hide Interleaved, OpenAfter, Apart, StartsOnce;
    if fromX {
      TakeX(x0, v0, o, px, pv, length);
      o', px', pv' := o + [X(i)], px + [|o|], pv;
    } else {
      TakeV(x0, v0, o, px, pv, length);
      o', px', pv' := o + [V(k)], px, pv + [|o|];
    }
  }

  lemma TrackEvent(
      x0: seq<Event>, v0: seq<Event>, i: nat, k: nat, o: seq<Source>, px: seq<nat>, pv: seq<nat>, pos: seq<nat>,
      out: seq<Token>, r: seq<Element>, fromX: bool, u: Event, r': seq<Element>, tags: seq<Token>, at: nat, length: nat)
    returns (o': seq<Source>, px': seq<nat>, pv': seq<nat>, pos': seq<nat>)
    requires BothWellFormed(x0, v0, length) && IsNext(x0, v0, i, k, fromX, u)
    requires Tracked(x0, v0, i, k, o, px, pv, pos, out, r) && Distinct(r)
    requires u.Start? ==> tags == [Open(u.node)] && r' == r + [u.node]
    requires u.Stop? ==> StopTags(tags, r, at) && r[at] == u.node && r' == r[..at] + r[at + 1..]
    ensures Tracked(x0, v0, if fromX then i + 1 else i, if fromX then k else k + 1, o', px', pv', pos', out + tags, r')
  {
    hide Interleaved, Laid, StopTags, OpenAfter, Apart, StartsOnce, FromFirst;
    o', px', pv' := TakeNext(x0, v0, i, k, o, px, pv, fromX, u, length);
    var m := Events(x0, v0, o);
    if u.Start? {
      MergedInOrder(x0, v0, o, px, pv);
      NotStartedYet(x0, v0, o, px, pv, fromX);
      LaidStart(m, pos, out, r, u);
      pos' := pos + [|out|];
    } else {
      StopTagsAre(tags, r, at);
      LaidStop(m, pos, out, r, u, at, tags);
      pos' := pos + [|out| + |r| - 1 - at];
    }
  }

  /** Each event has its tag; those of one stream are in its order, and those of both in the order in which the
      events come. */
  ghost predicate TagsInOrder(out: seq<Token>, x: seq<Event>, v: seq<Event>) {
    && (forall e :: e in x || e in v ==> exists p :: IsTagOf(out, p, e))
    && (forall i, j, p, q :: 0 <= i < j < |x| && IsTagOf(out, p, x[i]) && IsTagOf(out, q, x[j]) ==> p < q)
    && (forall i, j, p, q :: 0 <= i < j < |v| && IsTagOf(out, p, v[i]) && IsTagOf(out, q, v[j]) ==> p < q)
    && (forall i, k, p, q :: 0 <= i < |x| && 0 <= k < |v| && IsTagOf(out, p, x[i]) && IsTagOf(out, q, v[k]) ==>
          (p < q <==> ComesFirst(x, v, i, k)))
  }

  lemma TagPlace(m: seq<Event>, pos: seq<nat>, out: seq<Token>, j: nat, e: Event)
    requires InOrder(m, pos, out) && j < |m| && m[j] == e
    ensures IsTagOf(out, pos[j], e) && forall p :: IsTagOf(out, p, e) ==> p == pos[j]
  {
    forall p | IsTagOf(out, p, e)
      ensures p == pos[j]
    {
      TagIsUnique(out, p, pos[j], e);
    }
  }

  /** Every tag is one of an element of the streams. */
  ghost predicate OnlyTheirs(out: seq<Token>, x: seq<Event>, v: seq<Event>) {
    forall t :: t in out && !t.Piece? ==> exists e :: (e in x || e in v) && e.node == t.node
  }

  lemma TagsAreTheirs(x: seq<Event>, v: seq<Event>, o: seq<Source>, out: seq<Token>, r: seq<Element>)
    requires InRange(x, v, o) && Known(Events(x, v, o), out, r)
    ensures OnlyTheirs(out, x, v)
  {
    var m := Events(x, v, o);
    forall t | t in out && !t.Piece?
      ensures exists e :: (e in x || e in v) && e.node == t.node
    {
      var j :| 0 <= j < |m| && m[j].Start? && m[j].node == t.node;
      assert m[j] in x || m[j] in v;
    }
  }

  /** When all is merged, the tags are in order, and none is written twice unless elements cross. */
  lemma AllTracked(
      x0: seq<Event>, v0: seq<Event>, o: seq<Source>, px: seq<nat>, pv: seq<nat>, pos: seq<nat>, out: seq<Token>,
      r: seq<Element>, length: nat)
    requires BothWellFormed(x0, v0, length) && Tracked(x0, v0, |x0|, |v0|, o, px, pv, pos, out, r)
    ensures TagsInOrder(out, x0, v0) && (OpenedOnce(out) <==> NoneCross(x0, v0)) && OnlyTheirs(out, x0, v0)
  {
    hide OnlyTheirs, StartedIn;
    hide IsTagOf, OpenAfter, Apart, StartsOnce, Ascending, Known, NoneCross, OpenedOnce, ComesFirst;
    var m := Events(x0, v0, o);
    NestsIff(x0, v0, o, px, pv, length);
    TagsAreTheirs(x0, v0, o, out, r);
    EventsAt(x0, v0, o, px, pv);
    forall i | 0 <= i < |x0|
      ensures IsTagOf(out, pos[px[i]], x0[i]) && forall p :: IsTagOf(out, p, x0[i]) ==> p == pos[px[i]]
    {
      TagPlace(m, pos, out, px[i], x0[i]);
    }
    forall k | 0 <= k < |v0|
      ensures IsTagOf(out, pos[pv[k]], v0[k]) && forall p :: IsTagOf(out, p, v0[k]) ==> p == pos[pv[k]]
    {
      TagPlace(m, pos, out, pv[k], v0[k]);
    }
  }

  /** Of two elements over the same text the first stream's is the outer one. */
  lemma FirstIsOuter(
      out: seq<Token>, x: seq<Event>, v: seq<Event>, a: nat, a': nat, b: nat, b': nat, xs: nat, xe: nat, vs: nat, ve: nat)
    requires TagsInOrder(out, x, v) && IsElement(x, a, a') && IsElement(v, b, b') && !IsLate(v, b')
    requires x[a].offset == v[b].offset < v[b'].offset == x[a'].offset
    requires IsTagOf(out, xs, x[a]) && IsTagOf(out, xe, x[a']) && IsTagOf(out, vs, v[b]) && IsTagOf(out, ve, v[b'])
    ensures xs < vs < ve < xe
  {
    hide IsTagOf;
    assert IsLate(v, b);
    TagsDiffer(out, xe, ve, x[a'], v[b']);
  }

  lemma TagsDiffer(out: seq<Token>, p: nat, q: nat, d: Event, e: Event)
    requires IsTagOf(out, p, d) && IsTagOf(out, q, e) && d.node != e.node
    ensures p != q
  {
  }

  /** `j`: for any two well-formed streams, even if their offsets reach past the end of the text, every element that
      stops is found, the merged output is well nested, is the escaped text once the tags are removed, and puts every
      position of the text inside exactly the elements around it. `length` bounds the offsets and the text. */
  method MergeStreams(x0: seq<Event>, v0: seq<Event>, w: string, tag: Element -> string, ghost length: nat)
    returns (y: string, ghost out: seq<Token>)
    requires BothWellFormed(x0, v0, length) && |w| <= length
    ensures y == Render(out, w, tag) && Nest(out) == Some([])
    ensures WithoutTags(out, w) == Escape(w)
    ensures Reach(out) == Some(length) && InsideRight(out, x0, v0)
    ensures TagsInOrder(out, x0, v0) && (OpenedOnce(out) <==> NoneCross(x0, v0)) && OnlyTheirs(out, x0, v0)
  {
    hide OnlyTheirs;
    hide WellFormed, InsideRight, Escape, Consumed, OpenAfter, SameElements, Tracked, StopTags, OpenedOnce, NoneCross;
    hide TagsInOrder;
    var p, r, x, v := 0, [], x0, v0;
    TakeAll(x0);
    TakeAll(v0);
    y, out := "", [];
    ghost var i, k := 0, 0;
    ghost var o, px, pv, pos := [], [], [], [];
    NothingMerged(x0, v0, w, tag, length);
    NothingTracked(x0, v0);
    while x != [] || v != []
      invariant Merging(x0, v0, w, tag, i, k, p, r, y, out, length) && x == x0[i..] && v == v0[k..]
      invariant Tracked(x0, v0, i, k, o, px, pv, pos, out, r)
      decreases |x| + |v|
    {
      var fromX := FromFirst(x, v);
      var u := if fromX then x[0] else v[0];
      ghost var r0, y0, out0, p0 := r, y, out, p;
      EmitTextBefore(x0, v0, w, tag, i, k, p, r, y, out, fromX, u, length);
      y, out := y + Escape(Slice(w, p, u.offset)), out + [Piece(p, u.offset)];
      TrackText(x0, v0, i, k, o, px, pv, pos, out0, r, p, u.offset);
      p := u.offset;
      ghost var tags, at;
      r, y, tags, at := EmitEvent(u, r, y, w, tag, out, p);
      o, px, pv, pos := TrackEvent(x0, v0, i, k, o, px, pv, pos, out, r0, fromX, u, r, tags, at, length);
      TagsKeepInside(out, tags, x0, v0);
      out := out + tags;
      EventConsumed(x0, v0, w, tag, i, k, p0, r0, y0, out0, fromX, u, r, y, out, length);
      if fromX {
        DropOne(x0, i);
        x, i := x[1..], i + 1;
      } else {
        DropOne(v0, k);
        v, k := v[1..], k + 1;
      }
    }
    EmitTextAfter(x0, v0, w, tag, p, r, y, out, length);
    LastSlice(w, p, length);
    TrackText(x0, v0, i, k, o, px, pv, pos, out, r, p, length);
    y, out := y + Escape(RestOf(w, p)), out + [Piece(p, length)];
    AllTracked(x0, v0, o, px, pv, pos, out, r, length);
    TextIsAll(out, w, length);
  }

  lemma LastSlice(w: string, from: nat, to: nat)
    requires |w| <= to && from <= to
    ensures RestOf(w, from) == Slice(w, from, to)
  {
  }

  lemma TextIsAll(tokens: seq<Token>, w: string, length: nat)
    requires Reach(tokens) == Some(length) && |w| <= length
    ensures WithoutTags(tokens, w) == Escape(w)
  {
    TextIsWhole(tokens, w, length);
    TakeAll(w);
  }

  lemma EscapeFurther(w: string, from: nat, to: nat)
    requires from <= to
    ensures Escape(w[..Cut(w, from)]) + Escape(Slice(w, from, to)) == Escape(w[..Cut(w, to)])
  {
    hide Escape;
    EscapeConcat(w[..Cut(w, from)], Slice(w, from, to));
    assert w[..Cut(w, from)] + Slice(w, from, to) == w[..Cut(w, to)];
  }

  lemma {:induction false} TextIsWhole(tokens: seq<Token>, w: string, pos: nat)
    requires Reach(tokens) == Some(pos)
    ensures WithoutTags(tokens, w) == Escape(w[..Cut(w, pos)])
  {
    hide Escape, Slice;
    if tokens != [] {
      var init, t := tokens[..|tokens| - 1], tokens[|tokens| - 1];
      TextIsWhole(init, w, Reach(init).value);
      if t.Piece? {
        EscapeFurther(w, t.from, t.to);
      }
    } else {
      EscapeNothing(w);
    }
  }

  lemma EscapeNothing(w: string)
    ensures Escape(w[..0]) == ""
  {
  }

  lemma NodesOfElement(init: seq<Event>, node: Element, inner: seq<Event>, from: nat, to: nat, i: nat)
    requires i < |init| + |inner| + 2
    ensures var all, n := init + ([Start(from, node)] + inner + [Stop(to, node)]), |init|;
      && |all| == n + |inner| + 2
      && all[i].node ==
         if i < n then init[i].node else if n < i <= n + |inner| then inner[i - n - 1].node else node
  {
  }

  lemma {:induction false} StreamElements(children: seq<Child>, offset: nat, i: nat)
    requires i < |NodeStream(children, offset)|
    ensures NodeStream(children, offset)[i].node in Elements(children)
  {
    hide Length;
    var init, last := children[..|children| - 1], children[|children| - 1];
    var first, at := NodeStream(init, offset), offset + Length(init);
    if last.Node? {
      var inner := NodeStream(last.children, at);
      NodesOfElement(first, last.element, inner, at, at + Length(last.children), i);
      if |first| < i <= |first| + |inner| {
        StreamElements(last.children, at, i - |first| - 1);
      }
    }
    if i < |first| {
      StreamElements(init, offset, i);
    }
  }

  lemma WellFormedFurther(events: seq<Event>, length: nat, longer: nat)
    requires WellFormed(events, length) && length <= longer
    ensures WellFormed(events, longer)
  {
  }

  lemma TagsOfTrees(out: seq<Token>, original: seq<Child>, highlighted: seq<Child>)
    requires OnlyTheirs(out, NodeStream(original, 0), NodeStream(highlighted, 0))
    ensures forall t :: t in out && !t.Piece? ==> t.node in Elements(original) || t.node in Elements(highlighted)
  {
    hide NodeStream, Elements;
    var x, v := NodeStream(original, 0), NodeStream(highlighted, 0);
    forall t | t in out && !t.Piece?
      ensures t.node in Elements(original) || t.node in Elements(highlighted)
    {
      var e :| (e in x || e in v) && e.node == t.node;
      if e in x {
        var i :| 0 <= i < |x| && x[i] == e;
        StreamElements(original, 0, i);
      } else {
        var j :| 0 <= j < |v| && v[j] == e;
        StreamElements(highlighted, 0, j);
      }
    }
  }

  function Longest(a: nat, b: nat, c: nat): (r: nat)
    ensures r >= a && r >= b && r >= c
  {
    if a >= b && a >= c then a else if b >= c then b else c
  }

  /** `c` on both trees, then `j`: the original markup and the highlighter's, over any text, whether or not it is the
      one that the offsets count. */
  method MergeTrees(original: seq<Child>, highlighted: seq<Child>, w: string)
    returns (y: string, ghost out: seq<Token>)
    requires Distinct(Elements(original)) && Distinct(Elements(highlighted))
    requires forall node :: node in Elements(original) ==> node !in Elements(highlighted)
    ensures y == Render(out, w, OpenTag) && Nest(out) == Some([]) && WithoutTags(out, w) == Escape(w)
    ensures InsideRight(out, NodeStream(original, 0), NodeStream(highlighted, 0))
    ensures TagsInOrder(out, NodeStream(original, 0), NodeStream(highlighted, 0))
    ensures OpenedOnce(out) <==> NoneCross(NodeStream(original, 0), NodeStream(highlighted, 0))
    ensures forall t :: t in out && !t.Piece? ==> t.node in Elements(original) || t.node in Elements(highlighted)
  {
    hide TagsInOrder, OpenedOnce, NoneCross;
    hide WellFormed, NodeStream, Render, Nest, WithoutTags, Escape, InsideRight;
    ghost var length := Longest(Length(original), Length(highlighted), |w|);
    NodeStreamIsWellFormed(original);
    NodeStreamIsWellFormed(highlighted);
    WellFormedFurther(NodeStream(original, 0), Length(original), length);
    WellFormedFurther(NodeStream(highlighted, 0), Length(highlighted), length);
    forall i, j | 0 <= i < |NodeStream(original, 0)| && 0 <= j < |NodeStream(highlighted, 0)|
      ensures NodeStream(original, 0)[i].node != NodeStream(highlighted, 0)[j].node
    {
      StreamElements(original, 0, i);
      StreamElements(highlighted, 0, j);
    }
    var x, _ := CollectEvents(original, 0, []);
    var v, _ := CollectEvents(highlighted, 0, []);
    assert x == NodeStream(original, 0) && v == NodeStream(highlighted, 0);
    y, out := MergeStreams(x, v, w, OpenTag, length);
    TagsOfTrees(out, original, highlighted);
  }
}
