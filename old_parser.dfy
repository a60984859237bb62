// The parser of the older generation: a class that walks the older
// lexer's tokens with an index, remembers whether it is inside a start
// tag, the current tag name and how many tags are open, and turns the
// tokens into parsed tokens whose values are the joined token values. A C#
// exception (reading past the token array, or a tag left open) is a result
// of None.

module OldParser {
  import opened Common
  import opened OldLexer

  /** The parsed-token records, one constructor per record. */
  datatype ParsedToken =
    | AttributeToken(value: string)
    | BeginTagToken(value: string)
    | CodeBlockToken(close: string, open: string, value: string)
    | CommentToken(value: string)
    | ContentToken(value: string)
    | SoftCloseTagToken(value: string)
    | HardCloseTagToken(value: string)
    | IgnoreToken

  /** The parser's fields besides the tokens. */
  datatype State = State(index: nat, isInTag: bool, nestLevel: int, tagName: Option<string>)

  /** `IsVoidElement`: the element names that never take children. */
  predicate IsVoidElement(name: string) {
    name in {"area", "base", "br", "col", "command", "embed", "hr", "img", "input", "keygen", "link",
             "meta", "param", "source", "track", "wbr"}
  }

  /** `IsVoidElement(_tagName!)`: no tag name is not void. */
  predicate IsVoidName(name: Option<string>) {
    name.Some? && IsVoidElement(name.value)
  }

  /** The values of the tokens from `a` up to, not including, `b`. */
  function Span(tokens: seq<LexToken>, a: nat, b: nat): string
    requires b <= |tokens|
    decreases b
  {
    if b <= a then "" else Span(tokens, a, b - 1) + tokens[b - 1].value
  }

  // --------------------------------------------------------------- probes

  /** `AdvanceUntil<T>` from `j`: the first index after `j` holding a token
      of that kind; None when the array ends first. */
  function NextOfKind(tokens: seq<LexToken>, j: nat, kind: Kind): (r: Option<nat>)
    requires j < |tokens|
    ensures r.Some? ==> j < r.value < |tokens| && tokens[r.value].kind == kind
    decreases |tokens| - j
  {
    if j + 1 == |tokens| then None
    else if tokens[j + 1].kind == kind then Some(j + 1)
    else NextOfKind(tokens, j + 1, kind)
  }

  /** `while (Token() is not T) Advance()`: the first index from `j` on
      holding a token of that kind. */
  function FirstOfKind(tokens: seq<LexToken>, j: nat, kind: Kind): (r: Option<nat>)
    requires j < |tokens|
    ensures r.Some? ==> j <= r.value < |tokens| && tokens[r.value].kind == kind
    decreases |tokens| - j
  {
    if tokens[j].kind == kind then Some(j)
    else if j + 1 == |tokens| then None
    else FirstOfKind(tokens, j + 1, kind)
  }

  predicate IsSpaceKind(k: Kind) {
    k == WhiteSpace || k == NewLine || k == Tab || k == CarriageReturn
  }

  /** The whitespace skipping of `NextTokenIs<T>(true)`; None when it runs
      past the end. */
  function SkipSpace(tokens: seq<LexToken>, j: nat): (r: Option<nat>)
    requires j <= |tokens|
    ensures r.Some? ==> j <= r.value < |tokens| && !IsSpaceKind(tokens[r.value].kind)
    decreases |tokens| - j
  {
    if j == |tokens| then None
    else if IsSpaceKind(tokens[j].kind) then SkipSpace(tokens, j + 1)
    else Some(j)
  }

  /** `NextTokenIs<T>(ignoreWhiteSpace)` at `index`: false at the last
      token; None when skipping whitespace runs past the end. */
  function NextIs(tokens: seq<LexToken>, index: nat, kind: Kind, ignoreWhiteSpace: bool): Option<bool>
    requires index < |tokens|
  {
    if index + 1 == |tokens| then Some(false)
    else if !ignoreWhiteSpace then Some(tokens[index + 1].kind == kind)
    else match SkipSpace(tokens, index + 1)
      case None => None
      case Some(j) => Some(tokens[j].kind == kind)
  }

  /** `PreviousToken()` at `index` is an escape: there is no previous
      token when `index - 1 < 1`. */
  predicate PreviousIsEscape(tokens: seq<LexToken>, index: nat)
    requires index <= |tokens|
  {
    index >= 2 && tokens[index - 1].kind == Escape
  }

  /** `IsEscaped(at)` while the parser stands at `index`: it asks for the
      token before `index` whatever `at` is. */
  predicate EscapedAt(tokens: seq<LexToken>, index: nat, at: nat)
    requires index <= |tokens|
  {
    PreviousIsEscape(tokens, index) && at > 0 && !EscapedAt(tokens, index, at - 1)
  }

  /** Because the previous-token test ignores its argument, the recursion
      only counts: a token counts as escaped when an escape precedes the
      current one and the index it asks about is odd. */
  lemma {:induction false} EscapedIsParity(tokens: seq<LexToken>, index: nat, at: nat)
    requires index <= |tokens|
    ensures EscapedAt(tokens, index, at) <==> PreviousIsEscape(tokens, index) && at % 2 == 1
  {
    if at > 0 {
      EscapedIsParity(tokens, index, at - 1);
    }
  }

  // ------------------------------------------------------------- routines

  /** `ConsumeCommentToken`: every token from the opening through the
      first `EndComment`. */
  function Comment(tokens: seq<LexToken>, st: State): (r: Option<(ParsedToken, State)>)
    requires st.index < |tokens|
    ensures r.Some? ==> st.index <= r.value.1.index < |tokens|
  {
    match FirstOfKind(tokens, st.index, EndComment)
    case None => None
    case Some(e) => Some((CommentToken(Span(tokens, st.index, e + 1)), st.(index := e)))
  }

  /** `ConsumeBeginCloseTagToken`: `</`, the next word, the next `>`; one
      tag fewer is open. */
  function CloseTag(tokens: seq<LexToken>, st: State): (r: Option<(ParsedToken, State)>)
    requires st.index < |tokens|
    ensures r.Some? ==> st.index <= r.value.1.index < |tokens|
  {
    match NextOfKind(tokens, st.index, Word)
    case None => None
    case Some(w) =>
      match NextOfKind(tokens, w, EndTag)
      case None => None
      case Some(e) =>
        Some((HardCloseTagToken(tokens[st.index].value + tokens[w].value + tokens[e].value),
              st.(index := e, nestLevel := st.nestLevel - 1)))
  }

  /** `ConsumeBeginCodeBlockToken`: opening, code and closing from three
      consecutive tokens. */
  function CodeBlock(tokens: seq<LexToken>, st: State): (r: Option<(ParsedToken, State)>)
    requires st.index < |tokens|
    ensures r.Some? ==> st.index <= r.value.1.index < |tokens|
  {
    var i := st.index;
    if i + 2 >= |tokens| then None
    else Some((CodeBlockToken(tokens[i + 2].value, tokens[i].value, tokens[i + 1].value), st.(index := i + 2)))
  }

  /** `ConsumeBeginTagToken`: `<` and the next word, which becomes the tag
      name. When `>` follows (past whitespace) the tag is complete: one
      more tag is open unless it is void. Otherwise attributes follow. */
  function BeginTag(tokens: seq<LexToken>, st: State): (r: Option<(ParsedToken, State)>)
    requires st.index < |tokens|
    ensures r.Some? ==> st.index <= r.value.1.index < |tokens|
  {
    match NextOfKind(tokens, st.index, Word)
    case None => None
    case Some(w) =>
      var name := tokens[w].value;
      var head := tokens[st.index].value + name;
      match NextIs(tokens, w, EndTag, true)
      case None => None
      case Some(false) => Some((BeginTagToken(head), st.(index := w, isInTag := true, tagName := Some(name))))
      case Some(true) =>
        match NextOfKind(tokens, w, EndTag)
        case None => None
        case Some(e) =>
          var void := IsVoidElement(name);
          Some((BeginTagToken(head + tokens[e].value),
                State(e, false, if void then st.nestLevel else st.nestLevel + 1, if void then None else Some(name))))
  }

  /** `ConsumeEndTagToken`: the `>` ending a start tag with attributes;
      hard after a void element, soft (one more tag open) otherwise. */
  function EndTagOf(tokens: seq<LexToken>, st: State): (r: Option<(ParsedToken, State)>)
    requires st.index < |tokens|
    ensures r.Some? ==> st.index <= r.value.1.index < |tokens|
  {
    var value := tokens[st.index].value;
    if IsVoidName(st.tagName) then Some((HardCloseTagToken(value), st.(isInTag := false, tagName := None)))
    else Some((SoftCloseTagToken(value), st.(isInTag := false, tagName := None, nestLevel := st.nestLevel + 1)))
  }

  /** The attribute-value loop of `ConsumeAttributeToken`, having read
      `j`: the next token that is the same delimiter and not escaped. */
  function ValueEnd(tokens: seq<LexToken>, j: nat, delimiter: string): (r: Option<nat>)
    requires j < |tokens|
    ensures r.Some? ==> j < r.value < |tokens|
    decreases |tokens| - j
  {
    if j + 1 == |tokens| then None
    else
      var k := j + 1;
      if tokens[k].kind == StringDelimiter && tokens[k].value == delimiter && !EscapedAt(tokens, k, k) then Some(k)
      else ValueEnd(tokens, k, delimiter)
  }

  /** `ConsumeAttributeToken`: the key, and when `=` follows (past
      whitespace), the `=`, the opening delimiter and every token through
      the closing one. */
  function Attribute(tokens: seq<LexToken>, st: State): (r: Option<(ParsedToken, State)>)
    requires st.index < |tokens|
    ensures r.Some? ==> st.index <= r.value.1.index < |tokens|
  {
    var i := st.index;
    match NextIs(tokens, i, Equals, true)
    case None => None
    case Some(false) => Some((AttributeToken(tokens[i].value), st))
    case Some(true) =>
      match NextOfKind(tokens, i, Equals)
      case None => None
      case Some(q) =>
        match NextOfKind(tokens, q, StringDelimiter)
        case None => None
        case Some(d) =>
          match ValueEnd(tokens, d, tokens[d].value)
          case None => None
          case Some(k) =>
            Some((AttributeToken(tokens[i].value + tokens[q].value + tokens[d].value + Span(tokens, d + 1, k + 1)),
                  st.(index := k)))
  }

  /** The loop of `ConsumeContentToken`, having read `j`: it stops before
      an opening or closing tag; past the last token it throws. */
  function ContentEnd(tokens: seq<LexToken>, j: nat): (r: Option<nat>)
    requires j < |tokens|
    ensures r.Some? ==> j <= r.value < |tokens| - 1
    decreases |tokens| - j
  {
    if j + 1 == |tokens| then None
    else if tokens[j + 1].kind == BeginOpenTag || tokens[j + 1].kind == BeginCloseTag then Some(j)
    else ContentEnd(tokens, j + 1)
  }

  /** `ConsumeContentToken`: the word and everything up to the next tag. */
  function Content(tokens: seq<LexToken>, st: State): (r: Option<(ParsedToken, State)>)
    requires st.index < |tokens|
    ensures r.Some? ==> st.index <= r.value.1.index < |tokens|
  {
    match ContentEnd(tokens, st.index)
    case None => None
    case Some(e) => Some((ContentToken(Span(tokens, st.index, e + 1)), st.(index := e)))
  }

  /** `ConsumeToken`: dispatch on the current token's kind; a word is an
      attribute inside a start tag and content outside. */
  function ConsumeTokenAt(tokens: seq<LexToken>, st: State): (r: Option<(ParsedToken, State)>)
    requires st.index < |tokens|
    ensures r.Some? ==> st.index <= r.value.1.index < |tokens|
  {
    match tokens[st.index].kind
    case BeginComment => Comment(tokens, st)
    case BeginCloseTag => CloseTag(tokens, st)
    case BeginCodeBlock => CodeBlock(tokens, st)
    case BeginOpenTag => BeginTag(tokens, st)
    case EndTag => EndTagOf(tokens, st)
    case Word => if st.isInTag then Attribute(tokens, st) else Content(tokens, st)
    case _ => Some((IgnoreToken, st))
  }

  /** `Parse` from the state on: each token but the ignored ones, then a
      throw if a tag is still open. It never yields an ignored token, and
      at most one parsed token per lexer token. */
  function ParseFrom(tokens: seq<LexToken>, st: State): (r: Option<seq<ParsedToken>>)
    requires st.index <= |tokens|
    ensures r.Some? ==> |r.value| <= |tokens| - st.index
    ensures r.Some? ==> forall t <- r.value :: !t.IgnoreToken?
    decreases |tokens| - st.index
  {
    if st.index == |tokens| then (if st.nestLevel > 0 then None else Some([]))
    else
      var c := ConsumeTokenAt(tokens, st);
      if c.None? then None
      else Prepend(Yielded(c.value.0), ParseFrom(tokens, c.value.1.(index := c.value.1.index + 1)))
  }

  /** What `Parse` yields for one parsed token: nothing for an ignored one. */
  function Yielded(t: ParsedToken): (r: seq<ParsedToken>)
    ensures |r| <= 1 && (forall u <- r :: u == t) && (r == [] <==> t.IgnoreToken?)
  {
    if t.IgnoreToken? then [] else [t]
  }

  /** One step of `Parse`: the token's yield ahead of the rest. */
  lemma ParseStep(tokens: seq<LexToken>, st: State)
    requires st.index < |tokens|
    ensures ConsumeTokenAt(tokens, st).None? ==> ParseFrom(tokens, st).None?
    ensures ConsumeTokenAt(tokens, st).Some? ==>
              var c := ConsumeTokenAt(tokens, st).value;
              ParseFrom(tokens, st) == Prepend(Yielded(c.0), ParseFrom(tokens, c.1.(index := c.1.index + 1)))
  {
  }

  /** The bookkeeping of one turn of `Parse`'s loop. */
  lemma ParseAdvance(tokens: seq<LexToken>, start: State, parsed: seq<ParsedToken>, before: State,
                     token: Option<ParsedToken>, after: State)
    requires start.index <= |tokens| && before.index < |tokens|
    requires ParseFrom(tokens, start) == Prepend(parsed, ParseFrom(tokens, before))
    requires var c := ConsumeTokenAt(tokens, before);
             (token.Some? <==> c.Some?) && (token.Some? ==> c.value == (token.value, after))
    ensures token.None? ==> ParseFrom(tokens, start) == None
    ensures token.Some? ==>
              ParseFrom(tokens, start) == Prepend(parsed + Yielded(token.value), ParseFrom(tokens, after.(index := after.index + 1)))
  {
    ParseStep(tokens, before);
    if token.Some? {
      PrependTwice(parsed, Yielded(token.value), ParseFrom(tokens, after.(index := after.index + 1)));
    }
  }

  /** The parsed tokens `p` ahead of a parse that may have thrown. */
  function Prepend(p: seq<ParsedToken>, r: Option<seq<ParsedToken>>): (q: Option<seq<ParsedToken>>)
    ensures q.Some? <==> r.Some?
    ensures q.Some? ==> |q.value| == |p| + |r.value|
  {
    match r
    case None => None
    case Some(rest) => Some(p + rest)
  }

  lemma PrependNothing(r: Option<seq<ParsedToken>>)
    ensures Prepend([], r) == r
  {
    if r.Some? {
      assert [] + r.value == r.value;
    }
  }

  lemma PrependTwice(p: seq<ParsedToken>, q: seq<ParsedToken>, r: Option<seq<ParsedToken>>)
    ensures Prepend(p, Prepend(q, r)) == Prepend(p + q, r)
  {
    if r.Some? {
      assert p + (q + r.value) == (p + q) + r.value;
    }
  }

  // ------------------------------------------------------------ the class

  class Parser {
    const tokens: seq<LexToken>
    var index: nat
    var isInTag: bool
    var nestLevel: int
    var tagName: Option<string>

    constructor(tokens: seq<LexToken>)
      ensures this.tokens == tokens && Current() == State(0, false, 0, None)
    {
      this.tokens := tokens;
      index := 0;
      isInTag := false;
      nestLevel := 0;
      tagName := None;
    }

    function Current(): State
      reads this
    {
      State(index, isInTag, nestLevel, tagName)
    }

    /** `Parse`: starts at the first token, keeping the other fields as a
        previous call left them. */
    method Parse() returns (r: Option<seq<ParsedToken>>)
      modifies this
      ensures r == ParseFrom(tokens, old(Current()).(index := 0))
    {
      index := 0;
      var parsed: seq<ParsedToken> := [];
      PrependNothing(ParseFrom(tokens, Current()));
      while index < |tokens|
        invariant index <= |tokens|
        invariant ParseFrom(tokens, old(Current()).(index := 0)) == Prepend(parsed, ParseFrom(tokens, Current()))
        decreases |tokens| - index
      {
        ghost var before := Current();
        var token := ConsumeToken();
        ghost var after := Current();
        ParseAdvance(tokens, old(Current()).(index := 0), parsed, before, token, after);
        if token.None? {
          return None;
        }
        index := index + 1;
        parsed := parsed + Yielded(token.value);
        assert Current() == after.(index := after.index + 1);
      }
      if nestLevel > 0 {
        return None;
      }
      assert parsed + [] == parsed;
      r := Some(parsed);
    }

    /** `ConsumeToken`: the parsed token at the index and the new fields. */
    method ConsumeToken() returns (r: Option<ParsedToken>)
      requires index < |tokens|
      modifies this
      ensures var s := ConsumeTokenAt(tokens, old(Current()));
              (r.Some? <==> s.Some?) && (r.Some? ==> s.value == (r.value, Current()))
    {
      match tokens[index].kind
      case BeginComment => r := ConsumeCommentToken();
      case BeginCloseTag => r := ConsumeBeginCloseTagToken();
      case BeginCodeBlock => r := ConsumeBeginCodeBlockToken();
      case BeginOpenTag => r := ConsumeBeginTagToken();
      case EndTag => var t := ConsumeEndTagToken(); r := Some(t);
      case Word =>
        if isInTag {
          r := ConsumeAttributeToken();
        } else {
          r := ConsumeContentToken();
        }
      case _ => r := Some(IgnoreToken);
    }

    /** `AdvanceUntil<T>`: moves at least once, then on to the next token
        of the kind; false when the array ends first. */
    method AdvanceUntil(kind: Kind) returns (ok: bool)
      requires index < |tokens|
      modifies this
      ensures ok <==> NextOfKind(tokens, old(index), kind).Some?
      ensures ok ==> index == NextOfKind(tokens, old(index), kind).value
      ensures isInTag == old(isInTag) && nestLevel == old(nestLevel) && tagName == old(tagName)
    {
      ghost var start := index;
      while true
        invariant start <= index < |tokens|
        invariant isInTag == old(isInTag) && nestLevel == old(nestLevel) && tagName == old(tagName)
        invariant NextOfKind(tokens, index, kind) == NextOfKind(tokens, start, kind)
        decreases |tokens| - index
      {
        if index + 1 == |tokens| {
          return false;
        }
        index := index + 1;
        if tokens[index].kind == kind {
          return true;
        }
      }
    }

    /** `NextTokenIs<T>(ignoreWhiteSpace)`. */
    method NextTokenIs(kind: Kind, ignoreWhiteSpace: bool) returns (r: Option<bool>)
      requires index < |tokens|
      ensures r == NextIs(tokens, index, kind, ignoreWhiteSpace)
    {
      var i := index + 1;
      if i == |tokens| {
        return Some(false);
      }
      if ignoreWhiteSpace {
        while IsSpaceKind(tokens[i].kind)
          invariant index < i < |tokens|
          invariant SkipSpace(tokens, i) == SkipSpace(tokens, index + 1)
          decreases |tokens| - i
        {
          i := i + 1;
          if i == |tokens| {
            return None;
          }
        }
      }
      r := Some(tokens[i].kind == kind);
    }

    method ConsumeCommentToken() returns (r: Option<ParsedToken>)
      requires index < |tokens|
      modifies this
      ensures var s := Comment(tokens, old(Current()));
              (r.Some? <==> s.Some?) && (r.Some? ==> s.value == (r.value, Current()))
    {
      ghost var start := index;
      var value := tokens[index].value;
      assert value == Span(tokens, start, index + 1);
      while tokens[index].kind != EndComment
        invariant start <= index < |tokens|
        invariant Current() == old(Current()).(index := index)
        invariant value == Span(tokens, start, index + 1)
        invariant FirstOfKind(tokens, index, EndComment) == FirstOfKind(tokens, start, EndComment)
        decreases |tokens| - index
      {
        if index + 1 == |tokens| {
          return None;
        }
        index := index + 1;
        value := value + tokens[index].value;
      }
      r := Some(CommentToken(value));
    }

    method ConsumeBeginCloseTagToken() returns (r: Option<ParsedToken>)
      requires index < |tokens|
      modifies this
      ensures var s := CloseTag(tokens, old(Current()));
              (r.Some? <==> s.Some?) && (r.Some? ==> s.value == (r.value, Current()))
    {
      var value := tokens[index].value;
      var found := AdvanceUntil(Word);
      if !found {
        return None;
      }
      value := value + tokens[index].value;
      found := AdvanceUntil(EndTag);
      if !found {
        return None;
      }
      value := value + tokens[index].value;
      nestLevel := nestLevel - 1;
      r := Some(HardCloseTagToken(value));
    }

    method ConsumeBeginCodeBlockToken() returns (r: Option<ParsedToken>)
      requires index < |tokens|
      modifies this
      ensures var s := CodeBlock(tokens, old(Current()));
              (r.Some? <==> s.Some?) && (r.Some? ==> s.value == (r.value, Current()))
    {
      var open := tokens[index].value;
      if index + 1 >= |tokens| {
        return None;
      }
      index := index + 1;
      var code := tokens[index].value;
      if index + 1 >= |tokens| {
        return None;
      }
      index := index + 1;
      var close := tokens[index].value;
      r := Some(CodeBlockToken(close, open, code));
    }

    method ConsumeBeginTagToken() returns (r: Option<ParsedToken>)
      requires index < |tokens|
      modifies this
      ensures var s := BeginTag(tokens, old(Current()));
              (r.Some? <==> s.Some?) && (r.Some? ==> s.value == (r.value, Current()))
    {
      var value := tokens[index].value;
      var found := AdvanceUntil(Word);
      if !found {
        return None;
      }
      value := value + tokens[index].value;
      tagName := Some(tokens[index].value);
      var complete := NextTokenIs(EndTag, true);
      if complete.None? {
        return None;
      }
      if complete.value {
        isInTag := false;
        if IsVoidElement(tokens[index].value) {
          tagName := None;
        } else {
          nestLevel := nestLevel + 1;
        }
        found := AdvanceUntil(EndTag);
        if !found {
          return None;
        }
        value := value + tokens[index].value;
      } else {
        isInTag := true;
      }
      r := Some(BeginTagToken(value));
    }

    method ConsumeEndTagToken() returns (t: ParsedToken)
      requires index < |tokens|
      modifies this
      ensures EndTagOf(tokens, old(Current())) == Some((t, Current()))
    {
      isInTag := false;
      if IsVoidName(tagName) {
        tagName := None;
        t := HardCloseTagToken(tokens[index].value);
      } else {
        tagName := None;
        nestLevel := nestLevel + 1;
        t := SoftCloseTagToken(tokens[index].value);
      }
    }

    method ConsumeAttributeToken() returns (r: Option<ParsedToken>)
      requires index < |tokens|
      modifies this
      ensures var s := Attribute(tokens, old(Current()));
              (r.Some? <==> s.Some?) && (r.Some? ==> s.value == (r.value, Current()))
    {
      var value := tokens[index].value;
      var hasValue := NextTokenIs(Equals, true);
      if hasValue.None? {
        return None;
      }
      if hasValue.value {
        var found := AdvanceUntil(Equals);
        if !found {
          return None;
        }
        value := value + tokens[index].value;
        found := AdvanceUntil(StringDelimiter);
        if !found {
          return None;
        }
        value := value + tokens[index].value;
        var rest := ConsumeAttributeValue(tokens[index].value);
        if rest.None? {
          return None;
        }
        value := value + rest.value;
      }
      r := Some(AttributeToken(value));
    }

    /** The do-while of `ConsumeAttributeToken` after the opening
        delimiter: every token through the closing one. */
    method ConsumeAttributeValue(delimiter: string) returns (r: Option<string>)
      requires index < |tokens|
      modifies this
      ensures var e := ValueEnd(tokens, old(index), delimiter);
              (r.Some? <==> e.Some?) && (r.Some? ==> index == e.value && r.value == Span(tokens, old(index) + 1, index + 1))
      ensures isInTag == old(isInTag) && nestLevel == old(nestLevel) && tagName == old(tagName)
    {
      ghost var d := index;
      var value := "";
      while true
        invariant d <= index < |tokens|
        invariant isInTag == old(isInTag) && nestLevel == old(nestLevel) && tagName == old(tagName)
        invariant value == Span(tokens, d + 1, index + 1)
        invariant ValueEnd(tokens, index, delimiter) == ValueEnd(tokens, d, delimiter)
        decreases |tokens| - index
      {
        if index + 1 == |tokens| {
          return None;
        }
        index := index + 1;
        value := value + tokens[index].value;
        if tokens[index].kind == StringDelimiter && tokens[index].value == delimiter && !EscapedAt(tokens, index, index) {
          return Some(value);
        }
      }
    }

    method ConsumeContentToken() returns (r: Option<ParsedToken>)
      requires index < |tokens|
      modifies this
      ensures var s := Content(tokens, old(Current()));
              (r.Some? <==> s.Some?) && (r.Some? ==> s.value == (r.value, Current()))
    {
      ghost var start := index;
      var value := tokens[index].value;
      assert value == Span(tokens, start, index + 1);
      while true
        invariant start <= index < |tokens|
        invariant Current() == old(Current()).(index := index)
        invariant value == Span(tokens, start, index + 1)
        invariant ContentEnd(tokens, index) == ContentEnd(tokens, start)
        decreases |tokens| - index
      {
        var openNext := NextTokenIs(BeginOpenTag, false);
        var closeNext := NextTokenIs(BeginCloseTag, false);
        if openNext == Some(true) || closeNext == Some(true) {
          break;
        }
        if index + 1 == |tokens| {
          return None;
        }
        index := index + 1;
        value := value + tokens[index].value;
      }
      r := Some(ContentToken(value));
    }
  }
}
