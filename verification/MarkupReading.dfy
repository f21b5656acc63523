/** The merged markup read back: what stands between angle brackets are the tags, and the rest is the escaped text. */
module MarkupReading {
  import opened NodeStreams
  import opened MergeTags
  import opened StreamMerge

  /** What has been read: the text, the tags, and the beginning of a tag that is not closed yet. */
  datatype Reading = Reading(text: string, tags: seq<string>, tag: Option<string>)

  function ReadOne(r: Reading, c: char): Reading {
    match r.tag
    case None => if c == '<' then r.(tag := Some("")) else r.(text := r.text + [c])
    case Some(t) => if c == '>' then Reading(r.text, r.tags + [t], None) else r.(tag := Some(t + [c]))
  }

  function Read(r: Reading, s: string): Reading {
    if s == "" then r else ReadOne(Read(r, s[..|s| - 1]), s[|s| - 1])
  }

  lemma {:induction false} ReadConcat(r: Reading, a: string, b: string)
    ensures Read(r, a + b) == Read(Read(r, a), b)
  {
    hide ReadOne;
    if b == "" {
      assert a + b == a;
    } else {
      assert (a + b)[..|a + b| - 1] == a + b[..|b| - 1];
      ReadConcat(r, a, b[..|b| - 1]);
    }
  }

  lemma {:induction false} ReadText(r: Reading, s: string)
    requires r.tag == None && '<' !in s
    ensures Read(r, s) == r.(text := r.text + s)
  {
    if s == "" {
      assert r.text + s == r.text;
    } else {
      var init := s[..|s| - 1];
      ReadText(r, init);
      assert s[|s| - 1] in s && s == init + [s[|s| - 1]];
      assert r.text + s == (r.text + init) + [s[|s| - 1]];
    }
  }

  lemma {:induction false} ReadTagText(r: Reading, t: string, s: string)
    requires r.tag == Some(t) && '>' !in s
    ensures Read(r, s) == r.(tag := Some(t + s))
  {
    if s == "" {
      assert t + s == t;
    } else {
      var init := s[..|s| - 1];
      ReadTagText(r, t, init);
      assert s[|s| - 1] in s && s == init + [s[|s| - 1]];
      assert t + s == (t + init) + [s[|s| - 1]];
    }
  }

  lemma ReadChar(r: Reading, c: char)
    ensures Read(r, [c]) == ReadOne(r, c)
  {
    assert [c][..0] == "";
  }

  lemma ReadTag(r: Reading, t: string)
    requires r.tag == None && '>' !in t
    ensures Read(r, "<" + t + ">") == r.(tags := r.tags + [t])
  {
    ReadConcat(r, "<" + t, ">");
    ReadConcat(r, "<", t);
    ReadChar(r, '<');
    ReadTagText(Read(r, "<"), "", t);
    ReadChar(Read(r, "<" + t), '>');
    assert "" + t == t;
  }

  // ---------- what the tags say ----------

  /** The tag of a start names the element and has its attributes; that of a stop has a slash and the name in lower case. */
  function TagText(t: Token): string
    requires !t.Piece?
  {
    if t.Open? then t.node.name + RenderAttributes(t.node.attributes) else "/" + ToLower(t.node.name)
  }

  function TagTexts(tokens: seq<Token>): seq<string> {
    if tokens == [] then []
    else
      TagTexts(tokens[..|tokens| - 1]) +
      if tokens[|tokens| - 1].Piece? then [] else [TagText(tokens[|tokens| - 1])]
  }

  /** Names are free of angle brackets; attribute values may have any. */
  ghost predicate Plain(node: Element) {
    '>' !in node.name && forall a :: a in node.attributes ==> '>' !in a.name
  }

  lemma {:induction false} EscapedHasNoBrackets(s: string)
    ensures '<' !in Escape(s) && '>' !in Escape(s)
  {
    hide Escape;
    if s == "" {
      EscapeEmpty();
    } else {
      var init, c := s[..|s| - 1], s[|s| - 1];
      EscapedHasNoBrackets(init);
      assert s == init + [c];
      EscapeConcat(init, [c]);
      EscapeOne(c);
      EntitiesAreClean();
    }
  }

  lemma EscapeEmpty()
    ensures Escape("") == ""
  {
  }

  lemma EntitiesAreClean()
    ensures '<' !in "&amp;" && '>' !in "&amp;" && '<' !in "&lt;" && '>' !in "&lt;" && '<' !in "&gt;" && '>' !in "&gt;"
  {
    assert "&amp;" == ['&', 'a', 'm', 'p', ';'] && "&lt;" == ['&', 'l', 't', ';'] && "&gt;" == ['&', 'g', 't', ';'];
  }

  lemma {:induction false} AttributesHaveNoBracket(attributes: seq<Attribute>)
    requires forall a :: a in attributes ==> '>' !in a.name
    ensures '>' !in RenderAttributes(attributes)
  {
    hide Escape;
    if attributes != [] {
      var last := attributes[|attributes| - 1];
      AttributesHaveNoBracket(attributes[..|attributes| - 1]);
      EscapedHasNoBrackets(last.value);
      assert last in attributes;
    }
  }

  lemma TagTextHasNoBracket(t: Token)
    requires !t.Piece? && Plain(t.node)
    ensures '>' !in TagText(t)
  {
    hide RenderAttributes;
    if t.Open? {
      AttributesHaveNoBracket(t.node.attributes);
    } else {
      var lower := ToLower(t.node.name);
      forall i | 0 <= i < |lower|
        ensures lower[i] != '>'
      {
        assert t.node.name[i] in t.node.name;
      }
    }
  }

  lemma TagIsBracketed(t: Token, w: string)
    requires !t.Piece?
    ensures RenderOne(t, w, OpenTag) == "<" + TagText(t) + ">"
  {
    hide RenderAttributes;
    if t.Open? {
      assert "<" + t.node.name + RenderAttributes(t.node.attributes) == "<" + (t.node.name + RenderAttributes(t.node.attributes));
    } else {
      assert "</" + ToLower(t.node.name) == "<" + ("/" + ToLower(t.node.name));
    }
  }

  /** Reading the markup of the tokens gives back their tags, in order, and the text without them. */
  lemma {:induction false} ReadsBack(tokens: seq<Token>, w: string)
    requires forall t :: t in tokens && !t.Piece? ==> Plain(t.node)
    ensures Read(Reading("", [], None), Render(tokens, w, OpenTag)) == Reading(WithoutTags(tokens, w), TagTexts(tokens), None)
  {
    hide RenderOne, OpenTag, Escape, Plain, TagText;
    if tokens != [] {
      var init, last, start := tokens[..|tokens| - 1], tokens[|tokens| - 1], Reading("", [], None);
      assert last in tokens;
      ReadsBack(init, w);
      ReadConcat(start, Render(init, w, OpenTag), RenderOne(last, w, OpenTag));
      var before := Reading(WithoutTags(init, w), TagTexts(init), None);
      if last.Piece? {
        PieceIsEscaped(last, w);
        EscapedHasNoBrackets(Slice(w, last.from, last.to));
        ReadText(before, RenderOne(last, w, OpenTag));
      } else {
        TagIsBracketed(last, w);
        TagTextHasNoBracket(last);
        ReadTag(before, TagText(last));
      }
    }
  }

  lemma PieceIsEscaped(t: Token, w: string)
    requires t.Piece?
    ensures RenderOne(t, w, OpenTag) == Escape(Slice(w, t.from, t.to))
  {
    hide Escape;
  }
}
