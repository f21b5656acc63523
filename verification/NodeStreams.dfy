/** The element events of a document tree, and the escaping of text, as the highlighter computes them. */
module NodeStreams {

  datatype Option<T> = None | Some(value: T)

  // ---------- escaping ----------

  function ReplaceAll(s: string, c: char, sub: string): string {
    if s == "" then "" else ReplaceAll(s[..|s| - 1], c, sub) + (if s[|s| - 1] == c then sub else [s[|s| - 1]])
  }

  /** `l`: three global replacements, the ampersand first. */
  function Escape(s: string): string {
    ReplaceAll(ReplaceAll(ReplaceAll(s, '&', "&amp;"), '<', "&lt;"), '>', "&gt;")
  }

  lemma ReplaceLast(s: string, x: char, c: char, sub: string)
    ensures ReplaceAll(s + [x], c, sub) == ReplaceAll(s, c, sub) + if x == c then sub else [x]
  {
    assert (s + [x])[..|s|] == s;
  }

  lemma {:induction false} ReplaceAllConcat(a: string, b: string, c: char, sub: string)
    ensures ReplaceAll(a + b, c, sub) == ReplaceAll(a, c, sub) + ReplaceAll(b, c, sub)
  {
    if b == "" {
      assert a + b == a;
    } else {
      var init, x := b[..|b| - 1], b[|b| - 1];
      assert b == init + [x] && a + b == (a + init) + [x];
      ReplaceAllConcat(a, init, c, sub);
      ReplaceLast(init, x, c, sub);
      ReplaceLast(a + init, x, c, sub);
    }
  }

  /** Escaping piece by piece is escaping the whole. */
  lemma EscapeConcat(a: string, b: string)
    ensures Escape(a + b) == Escape(a) + Escape(b)
  {
    ReplaceAllConcat(a, b, '&', "&amp;");
    var a1, b1 := ReplaceAll(a, '&', "&amp;"), ReplaceAll(b, '&', "&amp;");
    ReplaceAllConcat(a1, b1, '<', "&lt;");
    ReplaceAllConcat(ReplaceAll(a1, '<', "&lt;"), ReplaceAll(b1, '<', "&lt;"), '>', "&gt;");
  }

  lemma {:induction false} ReplaceAllNone(s: string, c: char, sub: string)
    requires c !in s
    ensures ReplaceAll(s, c, sub) == s
  {
    if s != "" {
      ReplaceAllNone(s[..|s| - 1], c, sub);
      assert s == s[..|s| - 1] + [s[|s| - 1]];
    }
  }

  lemma ReplaceOne(c: char, d: char, sub: string)
    ensures ReplaceAll([c], d, sub) == if c == d then sub else [c]
  {
    assert [c][..0] == "";
  }

  /** The ampersands that the first replacement brings in are not escaped again. */
  lemma EscapeOne(c: char)
    ensures Escape([c]) == if c == '&' then "&amp;" else if c == '<' then "&lt;" else if c == '>' then "&gt;" else [c]
  {
    hide ReplaceAll;
    ReplaceOne(c, '&', "&amp;");
    ReplaceOne(c, '<', "&lt;");
    ReplaceOne(c, '>', "&gt;");
    EntitiesHaveNoBrackets();
    if c == '&' {
      ReplaceAllNone("&amp;", '<', "&lt;");
      ReplaceAllNone("&amp;", '>', "&gt;");
    } else if c == '<' {
      ReplaceAllNone("&lt;", '>', "&gt;");
    }
  }

  lemma EntitiesHaveNoBrackets()
    ensures '<' !in "&amp;" && '>' !in "&amp;" && '>' !in "&lt;"
  {
    assert "&amp;" == ['&', 'a', 'm', 'p', ';'] && "&lt;" == ['&', 'l', 't', ';'];
  }

  // ---------- elements and events ----------

  datatype Attribute = Attribute(name: string, value: string)

  /** An element node: its identity, its name and its attributes. */
  datatype Element = Element(id: nat, name: string, attributes: seq<Attribute>)

  datatype Event = Start(offset: nat, node: Element) | Stop(offset: nat, node: Element)

  function Push(stack: seq<Element>, e: Event): Option<seq<Element>> {
    if e.Start? then Some(stack + [e.node])
    else if stack != [] && stack[|stack| - 1] == e.node then Some(stack[..|stack| - 1])
    else None
  }

  /** The elements that are open after the events, if the events are well nested. */
  function OpenAfter(events: seq<Event>): Option<seq<Element>> {
    if events == [] then Some([])
    else
      match OpenAfter(events[..|events| - 1])
      case None => None
      case Some(stack) => Push(stack, events[|events| - 1])
  }

  ghost predicate Ascending(events: seq<Event>, length: nat) {
    && (forall i, j :: 0 <= i <= j < |events| ==> events[i].offset <= events[j].offset)
    && (forall i :: 0 <= i < |events| ==> events[i].offset <= length)
  }

  ghost predicate StartsOnce(events: seq<Event>) {
    forall i, j :: 0 <= i < j < |events| && events[i].Start? && events[j].Start? ==> events[i].node != events[j].node
  }

  ghost predicate WellFormed(events: seq<Event>, length: nat) {
    Ascending(events, length) && StartsOnce(events) && OpenAfter(events) == Some([])
  }

  /** Two trees share no element. */
  ghost predicate Apart(x: seq<Event>, v: seq<Event>) {
    forall i, j :: 0 <= i < |x| && 0 <= j < |v| ==> x[i].node != v[j].node
  }

  lemma {:induction false} PrefixNests(events: seq<Event>, i: nat)
    requires i <= |events| && OpenAfter(events).Some?
    ensures OpenAfter(events[..i]).Some?
  {
    if i < |events| {
      assert events[..|events| - 1][..i] == events[..i];
      PrefixNests(events[..|events| - 1], i);
    } else {
      assert events[..i] == events;
    }
  }

  ghost predicate StartedIn(events: seq<Event>, node: Element) {
    exists a :: 0 <= a < |events| && events[a].Start? && events[a].node == node
  }

  ghost predicate StoppedIn(events: seq<Event>, node: Element) {
    exists b :: 0 <= b < |events| && events[b].Stop? && events[b].node == node
  }

  ghost predicate Distinct(s: seq<Element>) {
    forall i, j :: 0 <= i < j < |s| ==> s[i] != s[j]
  }

  /** What is open is what has started and not stopped; nothing stops that has not started. */
  lemma {:induction false} OpenIsStartedNotStopped(events: seq<Event>, node: Element)
    requires OpenAfter(events).Some? && StartsOnce(events)
    ensures node in OpenAfter(events).value <==> StartedIn(events, node) && !StoppedIn(events, node)
    ensures StoppedIn(events, node) ==> StartedIn(events, node)
    ensures Distinct(OpenAfter(events).value)
  {
    if events != [] {
      var init, e := events[..|events| - 1], events[|events| - 1];
      assert forall i :: 0 <= i < |init| ==> init[i] == events[i];
      OpenIsStartedNotStopped(init, node);
      OpenIsStartedNotStopped(init, e.node);
      assert StartedIn(events, node) <==> StartedIn(init, node) || (e.Start? && e.node == node);
      assert StoppedIn(events, node) <==> StoppedIn(init, node) || (e.Stop? && e.node == node);
      assert e.Start? ==> !StartedIn(init, e.node);
    }
  }

  lemma TakeOne<T>(s: seq<T>, n: nat)
    requires n < |s|
    ensures s[..n + 1] == s[..n] + [s[n]]
  {
  }

  lemma PrefixOccurs(events: seq<Event>, i: nat, node: Element)
    requires i <= |events|
    ensures StartedIn(events[..i], node) <==> exists a :: 0 <= a < i && events[a].Start? && events[a].node == node
    ensures StoppedIn(events[..i], node) <==> exists b :: 0 <= b < i && events[b].Stop? && events[b].node == node
  {
    assert forall c :: 0 <= c < i ==> events[..i][c] == events[c];
  }

  /** An element stops once: before its stop no other stop of it is consumed. */
  lemma {:induction false} OnlyStop(events: seq<Event>, b: nat, node: Element)
    requires OpenAfter(events).Some? && StartsOnce(events)
    requires b < |events| && events[b] == Stop(events[b].offset, node)
    ensures forall c :: 0 <= c < |events| && events[c].Stop? && events[c].node == node ==> c == b
  {
    var init, e := events[..|events| - 1], events[|events| - 1];
    if b < |init| {
      OnlyStop(init, b, node);
      OpenIsStartedNotStopped(init, node);
      assert init[b] == events[b] && StoppedIn(init, node);
      assert forall c :: 0 <= c < |init| ==> init[c] == events[c];
    } else {
      OpenIsStartedNotStopped(init, node);
      assert !StoppedIn(init, node);
      assert forall c :: 0 <= c < |init| ==> init[c] == events[c];
    }
  }

  /** What has started stops, since nothing is open in the end. */
  lemma StoppedInTheEnd(events: seq<Event>, length: nat, node: Element, i: nat)
    requires WellFormed(events, length) && i <= |events| && StartedIn(events[..i], node)
    ensures exists b :: 0 <= b < |events| && events[b].Stop? && events[b].node == node
  {
    hide OpenAfter;
    OpenIsStartedNotStopped(events, node);
    PrefixOccurs(events, i, node);
    assert StartedIn(events, node);
  }

  /** The element that stops next is open, so the search down the stack finds it. */
  lemma StopIsOpen(events: seq<Event>, i: nat, length: nat)
    requires WellFormed(events, length) && i < |events| && events[i].Stop? && OpenAfter(events[..i]).Some?
    ensures events[i].node in OpenAfter(events[..i]).value
  {
    PrefixNests(events, i + 1);
    TakeOne(events, i);
  }

  ghost predicate BothWellFormed(x0: seq<Event>, v0: seq<Event>, length: nat) {
    WellFormed(x0, length) && WellFormed(v0, length) && Apart(x0, v0)
  }

  // ---------- the node stream of a tree ----------

  /** A child of an element, as far as `c` tells children apart. */
  datatype Child =
    | Text(value: string)
    | Break
    | Node(element: Element, children: seq<Child>)
    | Other

  function Length(children: seq<Child>): nat {
    if children == [] then 0
    else
      Length(children[..|children| - 1]) +
      match children[|children| - 1]
      case Text(value) => |value|
      case Break => 1
      case Node(_, inner) => Length(inner)
      case Other => 0
  }

  /** `c`: the events of the elements below a node, with the offset of its text at `offset`. */
  function NodeStream(children: seq<Child>, offset: nat): seq<Event> {
    if children == [] then []
    else
      var init, last := children[..|children| - 1], children[|children| - 1];
      var at := offset + Length(init);
      NodeStream(init, offset) +
      if last.Node? then
        [Start(at, last.element)] + NodeStream(last.children, at) + [Stop(at + Length(last.children), last.element)]
      else []
  }

  /** The recursive walk itself: `o` is the list the events are pushed to, `s` the offset that is passed along. */
  method CollectEvents(children: seq<Child>, start: nat, o: seq<Event>) returns (o': seq<Event>, s: nat)
    ensures o' == o + NodeStream(children, start) && s == start + Length(children)
    decreases children
  {
    o', s := o, start;
    for t := 0 to |children|
      invariant o' == o + NodeStream(children[..t], start) && s == start + Length(children[..t])
    {
      assert children[..t + 1][..t] == children[..t];
      match children[t]
      case Text(value) => s := s + |value|;
      case Break => s := s + 1;
      case Node(element, inner) =>
        o' := o' + [Start(s, element)];
        o', s := CollectEvents(inner, s, o');
        o' := o' + [Stop(s, element)];
      case Other =>
    }
    assert children[..|children|] == children;
  }

  /** The elements of the tree, in document order. */
  function Elements(children: seq<Child>): seq<Element> {
    if children == [] then []
    else
      Elements(children[..|children| - 1]) +
      if children[|children| - 1].Node? then
        [children[|children| - 1].element] + Elements(children[|children| - 1].children)
      else []
  }

  /** The offsets of a node stream ascend and stay within the node's text. */
  lemma {:induction false} NodeStreamAscends(children: seq<Child>, offset: nat)
    ensures Ascending(NodeStream(children, offset), offset + Length(children))
    ensures forall i :: 0 <= i < |NodeStream(children, offset)| ==> offset <= NodeStream(children, offset)[i].offset
  {
    NodeStreamBetween(children, offset);
  }

  ghost predicate Between(events: seq<Event>, from: nat, to: nat) {
    Ascending(events, to) && from <= to && forall i :: 0 <= i < |events| ==> from <= events[i].offset
  }

  lemma BetweenConcat(a: seq<Event>, b: seq<Event>, from: nat, middle: nat, to: nat)
    requires Between(a, from, middle) && Between(b, middle, to)
    ensures Between(a + b, from, to)
  {
  }

  lemma BetweenOne(e: Event)
    ensures Between([e], e.offset, e.offset)
  {
  }

  /** A stream is the stream of the earlier children and the events of the last one. */
  lemma StreamOfLast(children: seq<Child>, offset: nat)
    requires children != []
    ensures var init, last := children[..|children| - 1], children[|children| - 1];
      var first, at := NodeStream(init, offset), offset + Length(init);
      && at <= offset + Length(children)
      && (last.Node? ==>
            && offset + Length(children) == at + Length(last.children)
            && NodeStream(children, offset) == first +
               ([Start(at, last.element)] + NodeStream(last.children, at)
                + [Stop(at + Length(last.children), last.element)]))
      && (!last.Node? ==> NodeStream(children, offset) == first)
  {
  }

  lemma NothingBetween(offset: nat)
    ensures NodeStream([], offset) == [] && Length([]) == 0 && Between([], offset, offset)
  {
  }

  lemma {:induction false} NodeStreamBetween(children: seq<Child>, offset: nat)
    ensures Between(NodeStream(children, offset), offset, offset + Length(children))
  {
    hide Between, NodeStream, Length, Ascending;
    if children == [] {
      NothingBetween(offset);
    } else {
      var init, last := children[..|children| - 1], children[|children| - 1];
      var first, at, to := NodeStream(init, offset), offset + Length(init), offset + Length(children);
      NodeStreamBetween(init, offset);
      StreamOfLast(children, offset);
      if last.Node? {
        var inner, start, stop := NodeStream(last.children, at), Start(at, last.element), Stop(to, last.element);
        NodeStreamBetween(last.children, at);
        BetweenOne(start);
        BetweenOne(stop);
        BetweenConcat([start], inner, at, at, to);
        BetweenConcat([start] + inner, [stop], at, to, to);
        BetweenConcat(first, [start] + inner + [stop], offset, at, to);
      } else {
        BetweenWider(first, offset, at, to);
      }
    }
  }

  lemma BetweenWider(events: seq<Event>, from: nat, middle: nat, to: nat)
    requires Between(events, from, middle) && middle <= to
    ensures Between(events, from, to)
  {
  }

  function After(stack: Option<seq<Element>>, events: seq<Event>): Option<seq<Element>> {
    if events == [] then stack
    else
      match After(stack, events[..|events| - 1])
      case None => None
      case Some(s) => Push(s, events[|events| - 1])
  }

  lemma {:induction false} AfterConcat(stack: Option<seq<Element>>, a: seq<Event>, b: seq<Event>)
    ensures After(stack, a + b) == After(After(stack, a), b)
  {
    if b == [] {
      assert a + b == a;
    } else {
      assert (a + b)[..|a + b| - 1] == a + b[..|b| - 1];
      AfterConcat(stack, a, b[..|b| - 1]);
    }
  }

  lemma {:induction false} AfterIsOpen(events: seq<Event>)
    ensures After(Some([]), events) == OpenAfter(events)
  {
    if events != [] {
      AfterIsOpen(events[..|events| - 1]);
    }
  }

  lemma AfterOne(stack: seq<Element>, e: Event)
    ensures After(Some(stack), [e]) == Push(stack, e)
  {
    assert [e][..0] == [];
  }

  lemma AfterElement(stack: seq<Element>, node: Element, inner: seq<Event>, from: nat, to: nat)
    requires After(Some(stack + [node]), inner) == Some(stack + [node])
    ensures After(Some(stack), [Start(from, node)] + inner + [Stop(to, node)]) == Some(stack)
  {
    AfterConcat(Some(stack), [Start(from, node)] + inner, [Stop(to, node)]);
    AfterConcat(Some(stack), [Start(from, node)], inner);
    AfterOne(stack, Start(from, node));
    AfterOne(stack + [node], Stop(to, node));
    assert (stack + [node])[..|stack|] == stack;
  }

  /** A node stream leaves the open elements as they were. */
  lemma {:induction false} NodeStreamNests(children: seq<Child>, offset: nat, stack: seq<Element>)
    ensures After(Some(stack), NodeStream(children, offset)) == Some(stack)
  {
    hide After, NodeStream, Length;
    if children == [] {
      NothingOpened(offset, stack);
    } else {
      var init, last := children[..|children| - 1], children[|children| - 1];
      var at := offset + Length(init);
      NodeStreamNests(init, offset, stack);
      StreamOfLast(children, offset);
      if last.Node? {
        var inner, end := NodeStream(last.children, at), at + Length(last.children);
        NodeStreamNests(last.children, at, stack + [last.element]);
        AfterElement(stack, last.element, inner, at, end);
        AfterConcat(Some(stack), NodeStream(init, offset), [Start(at, last.element)] + inner + [Stop(end, last.element)]);
      }
    }
  }

  lemma NothingOpened(offset: nat, stack: seq<Element>)
    ensures After(Some(stack), NodeStream([], offset)) == Some(stack)
  {
  }

  function Started(events: seq<Event>): seq<Element> {
    if events == [] then []
    else Started(events[..|events| - 1]) + if events[|events| - 1].Start? then [events[|events| - 1].node] else []
  }

  lemma {:induction false} StartedConcat(a: seq<Event>, b: seq<Event>)
    ensures Started(a + b) == Started(a) + Started(b)
  {
    if b == [] {
      assert a + b == a;
    } else {
      assert (a + b)[..|a + b| - 1] == a + b[..|b| - 1];
      StartedConcat(a, b[..|b| - 1]);
    }
  }

  lemma StartedElement(node: Element, inner: seq<Event>, from: nat, to: nat)
    ensures Started([Start(from, node)] + inner + [Stop(to, node)]) == [node] + Started(inner)
  {
    var first, end := [Start(from, node)], [Stop(to, node)];
    StartedConcat(first + inner, end);
    StartedConcat(first, inner);
    assert first[..0] == [] && end[..0] == [];
  }

  lemma {:induction false} NodeStreamStarts(children: seq<Child>, offset: nat)
    ensures Started(NodeStream(children, offset)) == Elements(children)
  {
    hide Started;
    if children == [] {
      NothingStarts();
    } else {
      var init, last := children[..|children| - 1], children[|children| - 1];
      var at := offset + Length(init);
      NodeStreamStarts(init, offset);
      if last.Node? {
        var inner, end := NodeStream(last.children, at), at + Length(last.children);
        NodeStreamStarts(last.children, at);
        StartedElement(last.element, inner, at, end);
        StartedConcat(NodeStream(init, offset), [Start(at, last.element)] + inner + [Stop(end, last.element)]);
      } else {
        assert NodeStream(children, offset) == NodeStream(init, offset);
      }
    }
  }

  lemma NothingStarts()
    ensures Started([]) == []
  {
  }

  lemma {:induction false} StartedAt(events: seq<Event>, i: nat)
    requires i < |events| && events[i].Start?
    ensures events[i].node in Started(events)
  {
    if i < |events| - 1 {
      StartedAt(events[..|events| - 1], i);
    }
  }

  lemma {:induction false} DistinctStartOnce(events: seq<Event>)
    requires Distinct(Started(events))
    ensures StartsOnce(events)
  {
    if events != [] {
      var init, e := events[..|events| - 1], events[|events| - 1];
      assert forall i :: 0 <= i < |Started(init)| ==> Started(init)[i] == Started(events)[i];
      DistinctStartOnce(init);
      if e.Start? {
        forall i | 0 <= i < |init| && init[i].Start?
          ensures init[i].node != e.node
        {
          StartedAt(init, i);
          var m :| 0 <= m < |Started(init)| && Started(init)[m] == init[i].node;
          assert Started(events)[m] == init[i].node && Started(events)[|Started(init)|] == e.node;
        }
      }
    }
  }

  /** The node stream of a tree of different elements is well formed over the tree's text. */
  lemma NodeStreamIsWellFormed(children: seq<Child>)
    requires Distinct(Elements(children))
    ensures WellFormed(NodeStream(children, 0), Length(children))
  {
    NodeStreamAscends(children, 0);
    NodeStreamNests(children, 0, []);
    AfterIsOpen(NodeStream(children, 0));
    NodeStreamStarts(children, 0);
    DistinctStartOnce(NodeStream(children, 0));
  }

  /** `h`: the text of a node; with `useBreaks` the newlines of its text are dropped. */
  function TextOf(children: seq<Child>, useBreaks: bool): string {
    if children == [] then ""
    else
      TextOf(children[..|children| - 1], useBreaks) +
      match children[|children| - 1]
      case Text(value) => if useBreaks then ReplaceAll(value, '\n', "") else value
      case Break => "\n"
      case Node(_, inner) => TextOf(inner, useBreaks)
      case Other => ""
  }

  ghost predicate HasNewline(children: seq<Child>) {
    children != [] && (HasNewline(children[..|children| - 1]) ||
      match children[|children| - 1]
      case Text(value) => '\n' in value
      case Node(_, inner) => HasNewline(inner)
      case _ => false)
  }

  lemma {:induction false} DroppedNewlines(s: string)
    ensures |ReplaceAll(s, '\n', "")| <= |s|
    ensures |ReplaceAll(s, '\n', "")| == |s| <==> '\n' !in s
  {
    if s != "" {
      DroppedNewlines(s[..|s| - 1]);
      assert s == s[..|s| - 1] + [s[|s| - 1]];
    }
  }

  /** The offsets that `c` counts fit the text that `h` collects if and only if no newline is dropped. */
  lemma {:induction false} OffsetsFitTextIff(children: seq<Child>, useBreaks: bool)
    ensures |TextOf(children, useBreaks)| <= Length(children)
    ensures |TextOf(children, useBreaks)| == Length(children) <==> !(useBreaks && HasNewline(children))
  {
    if children != [] {
      OffsetsFitTextIff(children[..|children| - 1], useBreaks);
      match children[|children| - 1]
      case Text(value) => DroppedNewlines(value);
      case Break =>
      case Node(_, inner) => OffsetsFitTextIff(inner, useBreaks);
      case Other =>
    }
  }

  /** A newline in a text, and breaks in use: the stream counts it, the text does not. */
  lemma NewlineShiftsOffsets()
    ensures |TextOf([Text("\n")], true)| == 0 && Length([Text("\n")]) == 1
  {
    assert [Text("\n")][..0] == [];
    DroppedNewlines("\n");
  }
}
