// What the older parser promises: which parsed token each kind of lexer
// token becomes, how the open-tag count moves, where comments and content
// end, and when a whole parse throws.

module OldParserFacts {
  import opened Common
  import opened OldLexer
  import opened OldParser

  /** The parser's fields after the last token, or None if a routine
      threw on the way. */
  function Walk(tokens: seq<LexToken>, st: State): (r: Option<State>)
    requires st.index <= |tokens|
    ensures r.Some? ==> r.value.index == |tokens|
    decreases |tokens| - st.index
  {
    if st.index == |tokens| then Some(st)
    else
      var c := ConsumeTokenAt(tokens, st);
      if c.None? then None else Walk(tokens, c.value.1.(index := c.value.1.index + 1))
  }

  /** A parse succeeds exactly when every routine does and no tag is left
      open at the end. */
  lemma {:induction false} ParseSucceedsIffClosed(tokens: seq<LexToken>, st: State)
    requires st.index <= |tokens|
    ensures ParseFrom(tokens, st).Some? <==> Walk(tokens, st).Some? && Walk(tokens, st).value.nestLevel <= 0
    decreases |tokens| - st.index
  {
    if st.index < |tokens| {
      ParseStep(tokens, st);
      WalkStep(tokens, st);
      var c := ConsumeTokenAt(tokens, st);
      if c.Some? {
        ParseSucceedsIffClosed(tokens, c.value.1.(index := c.value.1.index + 1));
      }
    }
  }

  lemma WalkStep(tokens: seq<LexToken>, st: State)
    requires st.index < |tokens|
    ensures var c := ConsumeTokenAt(tokens, st);
            Walk(tokens, st) == if c.None? then None else Walk(tokens, c.value.1.(index := c.value.1.index + 1))
  {
  }

  /** The start tag `<p>` as the first three tokens of a fresh parse. */
  lemma OpenTagOfP(tokens: seq<LexToken>)
    requires |tokens| >= 3
    requires tokens[0] == LexToken(BeginOpenTag, "<") && tokens[1] == LexToken(Word, "p") && tokens[2] == LexToken(EndTag, ">")
    ensures BeginTag(tokens, State(0, false, 0, None)) == Some((BeginTagToken("<p>"), State(2, false, 1, Some("p"))))
  {
    assert NextOfKind(tokens, 0, Word) == Some(1);
    assert SkipSpace(tokens, 2) == Some(2);
    assert NextIs(tokens, 1, EndTag, true) == Some(true);
    assert NextOfKind(tokens, 1, EndTag) == Some(2);
    assert !IsVoidElement("p");
    assert "<" + "p" + ">" == "<p>";
  }

  /** A fresh parser over a lone unclosed tag `<p>` throws. */
  lemma UnclosedTagThrows()
    ensures ParseFrom([LexToken(BeginOpenTag, "<"), LexToken(Word, "p"), LexToken(EndTag, ">")],
                      State(0, false, 0, None)) == None
  {
    var tokens := [LexToken(BeginOpenTag, "<"), LexToken(Word, "p"), LexToken(EndTag, ">")];
    OpenTagOfP(tokens);
    var open := BeginTagToken("<p>");
    assert ConsumeTokenAt(tokens, State(0, false, 0, None)) == Some((open, State(2, false, 1, Some("p"))));
    assert ParseFrom(tokens, State(3, false, 1, Some("p"))) == None;
    assert ParseFrom(tokens, State(0, false, 0, None)) == Prepend([open], ParseFrom(tokens, State(3, false, 1, Some("p"))));
  }

  /** Which parsed token each kind of lexer token becomes: comments,
      closing tags, code blocks and start tags keep their kind, a `>` is a
      hard close after a void element and a soft one otherwise, a word is
      an attribute exactly inside a start tag, and every other kind is
      ignored. */
  lemma ParsedKindFollowsLexeme(tokens: seq<LexToken>, st: State)
    requires st.index < |tokens|
    requires ConsumeTokenAt(tokens, st).Some?
    ensures var t := ConsumeTokenAt(tokens, st).value.0;
            match tokens[st.index].kind
            case BeginComment => t.CommentToken?
            case BeginCloseTag => t.HardCloseTagToken?
            case BeginCodeBlock => t.CodeBlockToken?
            case BeginOpenTag => t.BeginTagToken?
            case EndTag => (t.HardCloseTagToken? <==> IsVoidName(st.tagName)) && (t.SoftCloseTagToken? <==> !IsVoidName(st.tagName))
            case Word => (t.AttributeToken? <==> st.isInTag) && (t.ContentToken? <==> !st.isInTag)
            case _ => t.IgnoreToken?
  {
  }

  /** A `>` ends the start tag: the tag name is forgotten, and one more
      tag is open unless the name is void. */
  lemma EndTagBookkeeping(tokens: seq<LexToken>, st: State)
    requires st.index < |tokens| && tokens[st.index].kind == EndTag
    ensures ConsumeTokenAt(tokens, st).Some?
    ensures var (t, st') := ConsumeTokenAt(tokens, st).value;
            t.value == tokens[st.index].value && st'.index == st.index && !st'.isInTag && st'.tagName == None &&
            st'.nestLevel == if IsVoidName(st.tagName) then st.nestLevel else st.nestLevel + 1
  {
  }

  /** A closing tag reads `</`, the tag's name and `>`, skipping whatever
      lies between them, and leaves one tag fewer open. */
  lemma CloseTagBookkeeping(tokens: seq<LexToken>, st: State)
    requires st.index < |tokens| && tokens[st.index].kind == BeginCloseTag
    requires ConsumeTokenAt(tokens, st).Some?
    ensures var (t, st') := ConsumeTokenAt(tokens, st).value;
            exists w :: st.index < w < st'.index && tokens[w].kind == Word && tokens[st'.index].kind == EndTag &&
                        t == HardCloseTagToken(tokens[st.index].value + tokens[w].value + tokens[st'.index].value)
    ensures var st' := ConsumeTokenAt(tokens, st).value.1;
            st'.nestLevel == st.nestLevel - 1 && st'.isInTag == st.isInTag && st'.tagName == st.tagName
  {
    var w := NextOfKind(tokens, st.index, Word).value;
    assert st.index < w < ConsumeTokenAt(tokens, st).value.1.index;
  }

  /** A start tag whose `>` follows its name (past whitespace) is complete:
      the parser is not inside it and one more tag is open unless it is
      void, in which case its name is forgotten; otherwise the parser is
      inside the tag, remembering its name, with the count unchanged. */
  lemma BeginTagBookkeeping(tokens: seq<LexToken>, st: State)
    requires st.index < |tokens| && tokens[st.index].kind == BeginOpenTag
    requires ConsumeTokenAt(tokens, st).Some?
    ensures var (t, st') := ConsumeTokenAt(tokens, st).value;
            var w := NextOfKind(tokens, st.index, Word).value;
            var name := tokens[w].value;
            if NextIs(tokens, w, EndTag, true) == Some(true) then
              !st'.isInTag && tokens[st'.index].kind == EndTag &&
              t == BeginTagToken(tokens[st.index].value + name + tokens[st'.index].value) &&
              (st'.tagName == None <==> IsVoidElement(name)) &&
              st'.nestLevel == if IsVoidElement(name) then st.nestLevel else st.nestLevel + 1
            else
              st'.isInTag && st'.index == w && st'.tagName == Some(name) &&
              t == BeginTagToken(tokens[st.index].value + name) && st'.nestLevel == st.nestLevel
  {
  }

  /** `FirstOfKind` finds the first such token: none before it. */
  lemma {:induction false} FirstOfKindIsFirst(tokens: seq<LexToken>, j: nat, kind: Kind)
    requires j < |tokens|
    ensures FirstOfKind(tokens, j, kind).Some? <==> exists k :: j <= k < |tokens| && tokens[k].kind == kind
    ensures FirstOfKind(tokens, j, kind).Some? ==>
              forall k :: j <= k < FirstOfKind(tokens, j, kind).value ==> tokens[k].kind != kind
    decreases |tokens| - j
  {
    if tokens[j].kind != kind && j + 1 < |tokens| {
      FirstOfKindIsFirst(tokens, j + 1, kind);
    }
  }

  /** A comment is every token from its opening through the first
      `EndComment`, and there is one exactly when such a token follows. */
  lemma CommentRunsToFirstEnd(tokens: seq<LexToken>, st: State)
    requires st.index < |tokens| && tokens[st.index].kind == BeginComment
    ensures ConsumeTokenAt(tokens, st).Some? <==> exists k :: st.index < k < |tokens| && tokens[k].kind == EndComment
    ensures ConsumeTokenAt(tokens, st).Some? ==>
              var (t, st') := ConsumeTokenAt(tokens, st).value;
              t == CommentToken(Span(tokens, st.index, st'.index + 1)) && tokens[st'.index].kind == EndComment &&
              forall k :: st.index <= k < st'.index ==> tokens[k].kind != EndComment
  {
    FirstOfKindIsFirst(tokens, st.index, EndComment);
  }

  /** `ContentEnd` stops before the first opening or closing tag, and
      throws when no tag follows. */
  lemma {:induction false} ContentEndIsFirstTag(tokens: seq<LexToken>, j: nat)
    requires j < |tokens|
    ensures ContentEnd(tokens, j).Some? <==>
              exists k :: j < k < |tokens| && (tokens[k].kind == BeginOpenTag || tokens[k].kind == BeginCloseTag)
    ensures ContentEnd(tokens, j).Some? ==>
              var e := ContentEnd(tokens, j).value;
              (tokens[e + 1].kind == BeginOpenTag || tokens[e + 1].kind == BeginCloseTag) &&
              forall k :: j < k <= e ==> tokens[k].kind != BeginOpenTag && tokens[k].kind != BeginCloseTag
    decreases |tokens| - j
  {
    if j + 1 < |tokens| && tokens[j + 1].kind != BeginOpenTag && tokens[j + 1].kind != BeginCloseTag {
      ContentEndIsFirstTag(tokens, j + 1);
    }
  }

  /** Text outside a tag runs from its word up to the next tag and throws
      when no tag follows it. */
  lemma ContentRunsToNextTag(tokens: seq<LexToken>, st: State)
    requires st.index < |tokens| && tokens[st.index].kind == Word && !st.isInTag
    ensures ConsumeTokenAt(tokens, st).Some? <==>
              exists k :: st.index < k < |tokens| && (tokens[k].kind == BeginOpenTag || tokens[k].kind == BeginCloseTag)
    ensures ConsumeTokenAt(tokens, st).Some? ==>
              var (t, st') := ConsumeTokenAt(tokens, st).value;
              t == ContentToken(Span(tokens, st.index, st'.index + 1)) &&
              (tokens[st'.index + 1].kind == BeginOpenTag || tokens[st'.index + 1].kind == BeginCloseTag)
  {
    ContentEndIsFirstTag(tokens, st.index);
  }

  /** The token at `k` ends an attribute value opened by `delimiter`: the
      same delimiter, not escaped. */
  predicate ClosesValue(tokens: seq<LexToken>, k: nat, delimiter: string)
    requires k < |tokens|
  {
    tokens[k].kind == StringDelimiter && tokens[k].value == delimiter && !EscapedAt(tokens, k, k)
  }

  /** `k` is the first token after `j` that closes a value opened by
      `delimiter`. */
  predicate FirstClose(tokens: seq<LexToken>, j: nat, k: nat, delimiter: string)
    requires j < k < |tokens|
  {
    ClosesValue(tokens, k, delimiter) && forall m :: j < m < k ==> !ClosesValue(tokens, m, delimiter)
  }

  /** The value loop stops at the first token after `j` that closes the
      value, and throws when there is none. */
  lemma {:induction false} ValueEndIsFirstClose(tokens: seq<LexToken>, j: nat, delimiter: string)
    requires j < |tokens|
    ensures ValueEnd(tokens, j, delimiter).Some? <==> exists k :: j < k < |tokens| && ClosesValue(tokens, k, delimiter)
    ensures ValueEnd(tokens, j, delimiter).Some? ==> FirstClose(tokens, j, ValueEnd(tokens, j, delimiter).value, delimiter)
    decreases |tokens| - j
  {
    if j + 1 < |tokens| && !ClosesValue(tokens, j + 1, delimiter) {
      ValueEndIsFirstClose(tokens, j + 1, delimiter);
    }
  }

  /** An attribute without `=` after it, past whitespace, is its bare key. */
  lemma AttributeWithoutValue(tokens: seq<LexToken>, st: State)
    requires st.index < |tokens| && NextIs(tokens, st.index, Equals, true) == Some(false)
    ensures Attribute(tokens, st) == Some((AttributeToken(tokens[st.index].value), st))
  {
  }

  /** Reading an attribute moves the index only: the tag bookkeeping
      stays as it was. */
  lemma AttributeKeepsTag(tokens: seq<LexToken>, st: State)
    requires st.index < |tokens| && Attribute(tokens, st).Some?
    ensures var st' := Attribute(tokens, st).value.1;
            st'.isInTag == st.isInTag && st'.nestLevel == st.nestLevel && st'.tagName == st.tagName
  {
  }

  /** `Span` is the lexer's concatenation of the token values in range. */
  lemma {:induction false} SpanIsValues(tokens: seq<LexToken>, a: nat, b: nat)
    requires a <= b <= |tokens|
    ensures Span(tokens, a, b) == Values(tokens[a..b])
    decreases b
  {
    if a < b {
      SpanIsValues(tokens, a, b - 1);
      assert tokens[a..b][..b - 1 - a] == tokens[a..b - 1];
    }
  }

  lemma SpanOfThree(tokens: seq<LexToken>, i: nat)
    requires i + 3 <= |tokens|
    ensures Span(tokens, i, i + 3) == tokens[i].value + tokens[i + 1].value + tokens[i + 2].value
  {
    assert Span(tokens, i, i + 1) == tokens[i].value by { assert Span(tokens, i, i) == ""; }
    assert Span(tokens, i, i + 2) == Span(tokens, i, i + 1) + tokens[i + 1].value;
  }

  /** A code block takes three consecutive tokens, and throws when fewer
      than three are left. */
  lemma CodeBlockTakesThree(tokens: seq<LexToken>, st: State)
    requires st.index < |tokens| && tokens[st.index].kind == BeginCodeBlock
    ensures ConsumeTokenAt(tokens, st).Some? <==> st.index + 2 < |tokens|
    ensures ConsumeTokenAt(tokens, st).Some? ==>
              var (t, st') := ConsumeTokenAt(tokens, st).value;
              t.open + t.value + t.close == Span(tokens, st.index, st.index + 3) && st' == st.(index := st.index + 2)
  {
    var i := st.index;
    assert ConsumeTokenAt(tokens, st) == CodeBlock(tokens, st);
    if i + 2 < |tokens| {
      var t := CodeBlockToken(tokens[i + 2].value, tokens[i].value, tokens[i + 1].value);
      assert CodeBlock(tokens, st) == Some((t, st.(index := i + 2)));
      SpanOfThree(tokens, i);
      assert t.open + t.value + t.close == Span(tokens, i, i + 3);
    }
  }

  /** The closing tag `</p>` as the last three tokens, with `<p>` open. */
  lemma CloseTagOfP(tokens: seq<LexToken>)
    requires |tokens| == 6
    requires tokens[3] == LexToken(BeginCloseTag, "</") && tokens[4] == LexToken(Word, "p") && tokens[5] == LexToken(EndTag, ">")
    ensures ParseFrom(tokens, State(3, false, 1, Some("p"))) == Some([HardCloseTagToken("</p>")])
  {
    assert NextOfKind(tokens, 3, Word) == Some(4);
    assert NextOfKind(tokens, 4, EndTag) == Some(5);
    assert "</" + "p" + ">" == "</p>";
    var close := HardCloseTagToken("</p>");
    assert ConsumeTokenAt(tokens, State(3, false, 1, Some("p"))) == Some((close, State(5, false, 0, Some("p"))));
    assert ParseFrom(tokens, State(6, false, 0, Some("p"))) == Some([]);
    assert [close] + [] == [close];
  }

  /** A fresh parser over `<p></p>` yields the start tag and the closing
      tag and leaves no tag open. */
  lemma ElementParses()
    ensures ParseFrom([LexToken(BeginOpenTag, "<"), LexToken(Word, "p"), LexToken(EndTag, ">"),
                       LexToken(BeginCloseTag, "</"), LexToken(Word, "p"), LexToken(EndTag, ">")],
                      State(0, false, 0, None)) == Some([BeginTagToken("<p>"), HardCloseTagToken("</p>")])
  {
    var tokens := [LexToken(BeginOpenTag, "<"), LexToken(Word, "p"), LexToken(EndTag, ">"),
                   LexToken(BeginCloseTag, "</"), LexToken(Word, "p"), LexToken(EndTag, ">")];
    OpenTagOfP(tokens);
    CloseTagOfP(tokens);
    var open := BeginTagToken("<p>");
    assert ConsumeTokenAt(tokens, State(0, false, 0, None)) == Some((open, State(2, false, 1, Some("p"))));
    assert ParseFrom(tokens, State(0, false, 0, None)) == Prepend([open], ParseFrom(tokens, State(3, false, 1, Some("p"))));
    assert [open] + [HardCloseTagToken("</p>")] == [open, HardCloseTagToken("</p>")];
  }
}
