// The parser's recursive routines: elements, code blocks and control
// structures hold tokens, and the token dispatcher builds those tokens. Each
// routine takes the index of the lexeme it starts at and returns the token
// with the index of the lexeme after it.

module Parser {
  import opened Common
  import opened Lexemes
  import opened Classifier
  import opened Tokens
  import opened Scans
  import Scanner

  /** What an element's start tag holds: its attributes, the lexeme the
      attribute loop stops at, and whether that is a `/>`. */
  datatype Head = Head(attributes: seq<AttributeToken>, stop: nat, selfClosing: bool)

  /** The attribute loop of an element from `j` on: whitespace is skipped, a
      `>` or `/>` or the end of the array stops it, and anything else starts
      an attribute. */
  function ElementHead(lexemes: seq<Lexeme>, j: nat, source: string): (r: Option<Head>)
    requires Ordered(lexemes, source)
    ensures r.Some? ==> j <= r.value.stop
    ensures r.Some? && r.value.stop < |lexemes| ==>
      if r.value.selfClosing then lexemes[r.value.stop].kind == ForwardSlash
      else lexemes[r.value.stop].kind == RightChevron
    ensures r.Some? && r.value.stop >= |lexemes| ==> !r.value.selfClosing
    ensures r.Some? ==> forall a :: a in r.value.attributes ==> AttributeWithin(a, source)
    decreases |lexemes| - j
  {
    if j >= |lexemes| || lexemes[j].kind == RightChevron then Some(Head([], j, false))
    else if lexemes[j].kind == ForwardSlash && lexemes[j + 1].kind == RightChevron then Some(Head([], j, true))
    else if IsAnyWhiteSpaceType(lexemes[j].kind) then ElementHead(lexemes, j + 1, source)
    else
      AttributeWithinSource(lexemes, j, source);
      match AttributeAt(lexemes, j, source)
      case OutOfRange => None
      case Consumed(a, n) =>
        match ElementHead(lexemes, n, source)
        case None => None
        case Some(h) => Some(h.(attributes := [a] + h.attributes))
  }

  /** `h` with `attributes` in front of its own. */
  function Prefixed(attributes: seq<AttributeToken>, h: Option<Head>): (r: Option<Head>)
    ensures r.Some? <==> h.Some?
    ensures r.Some? ==> r.value.attributes == attributes + h.value.attributes &&
                        r.value.stop == h.value.stop && r.value.selfClosing == h.value.selfClosing
  {
    match h
    case None => None
    case Some(head) => Some(head.(attributes := attributes + head.attributes))
  }

  lemma PrefixedNothing(h: Option<Head>)
    ensures Prefixed([], h) == h
  {
    if h.Some? {
      assert [] + h.value.attributes == h.value.attributes;
    }
  }

  lemma PrefixedStop(attributes: seq<AttributeToken>, stop: nat, selfClosing: bool)
    ensures Prefixed(attributes, Some(Head([], stop, selfClosing))) == Some(Head(attributes, stop, selfClosing))
  {
    assert attributes + [] == attributes;
  }

  lemma PrefixedTwice(attributes: seq<AttributeToken>, a: AttributeToken, h: Option<Head>)
    ensures Prefixed(attributes, Prefixed([a], h)) == Prefixed(attributes + [a], h)
  {
    if h.Some? {
      assert attributes + ([a] + h.value.attributes) == (attributes + [a]) + h.value.attributes;
    }
  }

  /** An attribute in the start tag is the head's first attribute. */
  lemma HeadAttribute(lexemes: seq<Lexeme>, j: nat, source: string)
    requires Ordered(lexemes, source) && j < |lexemes|
    requires lexemes[j].kind != RightChevron && !IsAnyWhiteSpaceType(lexemes[j].kind)
    requires !(lexemes[j].kind == ForwardSlash && lexemes[j + 1].kind == RightChevron)
    ensures AttributeAt(lexemes, j, source).OutOfRange? ==> ElementHead(lexemes, j, source).None?
    ensures AttributeAt(lexemes, j, source).Consumed? ==>
      ElementHead(lexemes, j, source) ==
      Prefixed([AttributeAt(lexemes, j, source).token], ElementHead(lexemes, AttributeAt(lexemes, j, source).next, source))
  {
  }

  /** The attribute loop's steps that read no attribute: it stops at the
      end, at `>` and at `/>`, and steps over whitespace. */
  lemma HeadSteps(lexemes: seq<Lexeme>, j: nat, source: string)
    requires Ordered(lexemes, source)
    ensures j >= |lexemes| || lexemes[j].kind == RightChevron ==> ElementHead(lexemes, j, source) == Some(Head([], j, false))
    ensures j < |lexemes| && lexemes[j].kind == ForwardSlash && j + 1 < |lexemes| && lexemes[j + 1].kind == RightChevron ==>
            ElementHead(lexemes, j, source) == Some(Head([], j, true))
    ensures j < |lexemes| && IsAnyWhiteSpaceType(lexemes[j].kind) && lexemes[j].kind != RightChevron &&
            lexemes[j].kind != ForwardSlash ==>
            ElementHead(lexemes, j, source) == ElementHead(lexemes, j + 1, source)
  {
  }

  /** The attribute loop of the source's element routine. */
  method ConsumeAttributes(lexemes: seq<Lexeme>, from: nat, source: string) returns (h: Option<Head>)
    requires Ordered(lexemes, source)
    ensures h == ElementHead(lexemes, from, source)
  {
    var attributes: seq<AttributeToken> := [];
    var index := from;
    PrefixedNothing(ElementHead(lexemes, from, source));
    while index < |lexemes| && lexemes[index].kind != RightChevron
      invariant from <= index
      invariant Prefixed(attributes, ElementHead(lexemes, index, source)) == ElementHead(lexemes, from, source)
      decreases |lexemes| - index
    {
      HeadSteps(lexemes, index, source);
      if lexemes[index].kind == ForwardSlash && lexemes[index + 1].kind == RightChevron {
        PrefixedStop(attributes, index, true);
        return Some(Head(attributes, index, true));
      }
      if IsAnyWhiteSpaceType(lexemes[index].kind) {
        index := index + 1;
      } else {
        var a := ConsumeAttribute(lexemes, index, source);
        HeadAttribute(lexemes, index, source);
        if a.OutOfRange? {
          return None;
        }
        PrefixedTwice(attributes, a.token, ElementHead(lexemes, a.next, source));
        attributes := attributes + [a.token];
        index := a.next;
      }
    }
    HeadSteps(lexemes, index, source);
    PrefixedStop(attributes, index, false);
    h := Some(Head(attributes, index, false));
  }

  /** Tokens that may stand in a code block: C# runs and elements. */
  ghost predicate BlockContent(tokens: seq<Token>, source: string) {
    forall t :: t in tokens ==> (t.CSharpToken? || t.ElementToken?) && Within(t, source) && NoIgnore(t)
  }

  /** Tokens that are all in bounds and free of ignore tokens at any depth. */
  ghost predicate Clean(tokens: seq<Token>, source: string) {
    forall t :: t in tokens ==> Within(t, source) && NoIgnore(t)
  }

  /** `<` at `i`: the name is the next lexeme, then the start tag's
      attributes; a `/>` or a void element ends the element there, otherwise
      tokens follow as children up to the closing tag. */
  method ConsumeElement(lexemes: seq<Lexeme>, i: nat, source: string) returns (r: Consumed<Token>)
    requires Ordered(lexemes, source) && i < |lexemes|
    ensures r.Consumed? ==>
      i + 1 < |lexemes| && r.token.ElementToken? &&
      r.token.nameOffset == lexemes[i + 1].offset && r.token.nameLength == lexemes[i + 1].length &&
      ElementHead(lexemes, i + 2, source).Some? &&
      r.token.attributes == ElementHead(lexemes, i + 2, source).value.attributes
    ensures r.Consumed? && (ElementHead(lexemes, i + 2, source).value.selfClosing ||
                            IsVoidElement(Value(lexemes[i + 1], source))) ==>
      r.token.children == [] && r.next == ElementHead(lexemes, i + 2, source).value.stop
    ensures r.Consumed? ==> i < r.next && Within(r.token, source) && NoIgnore(r.token)
    decreases |lexemes| - i, 0
  {
    if i + 1 >= |lexemes| {
      return OutOfRange;
    }
    var nameLength := lexemes[i + 1].length;
    var nameOffset := lexemes[i + 1].offset;
    var head := ConsumeAttributes(lexemes, i + 2, source);
    if head.None? {
      return OutOfRange;
    }
    var attributes := head.value.attributes;
    if head.value.selfClosing || IsVoidElement(Value(lexemes[i + 1], source)) {
      return Consumed(ElementToken(attributes, [], nameLength, nameOffset), head.value.stop);
    }
    var children := ConsumeChildren(lexemes, head.value.stop + 1, source);
    if children.OutOfRange? {
      return OutOfRange;
    }
    r := Consumed(ElementToken(attributes, children.token, nameLength, nameOffset), children.next);
  }

  /** An element's children from `from` on: tokens up to the first `</`,
      whose tag runs through the next `>`; ignore tokens step over one
      lexeme. */
  method ConsumeChildren(lexemes: seq<Lexeme>, from: nat, source: string) returns (r: Consumed<seq<Token>>)
    requires Ordered(lexemes, source) && 0 < from
    ensures r.Consumed? ==> from <= r.next && Clean(r.token, source)
    ensures r.Consumed? && r.next < |lexemes| ==> lexemes[r.next - 1].kind == RightChevron
    decreases |lexemes| - from, 2
  {
    var children: seq<Token> := [];
    var index := from;
    while index < |lexemes|
      invariant from <= index
      invariant Clean(children, source)
      decreases |lexemes| - index
    {
      if lexemes[index].kind == LeftChevron && lexemes[index + 1].kind == ForwardSlash {
        var close := ScanKind(lexemes, RightChevron, index + 1);
        if close.None? {
          return OutOfRange;
        }
        return Consumed(children, close.value + 1);
      }
      var child := ConsumeToken(lexemes, index, source);
      if child.OutOfRange? {
        return OutOfRange;
      }
      if !child.token.IgnoreToken? {
        children := children + [child.token];
        index := child.next;
      } else {
        index := index + 1;
      }
    }
    r := Consumed(children, index);
  }

  /** The tokens of a code block from `i` on: whitespace is skipped, `<`
      starts an element and anything else a C# run, up to a `}` or the end. */
  method ConsumeCodeBlockContent(lexemes: seq<Lexeme>, i: nat, source: string) returns (r: Consumed<seq<Token>>)
    requires Ordered(lexemes, source) && i < |lexemes|
    ensures r.Consumed? ==> i <= r.next && BlockContent(r.token, source)
    ensures r.Consumed? && r.next < |lexemes| ==> lexemes[r.next].kind == RightBrace
    decreases |lexemes| - i, 1
  {
    var tokens: seq<Token> := [];
    var index := i;
    while index < |lexemes| && lexemes[index].kind != RightBrace
      invariant i <= index
      invariant BlockContent(tokens, source)
      decreases |lexemes| - index
    {
      if IsAnyWhiteSpaceType(lexemes[index].kind) {
        index := index + 1;
        continue;
      }
      var t: Consumed<Token>;
      if lexemes[index].kind == LeftChevron {
        t := ConsumeElement(lexemes, index, source);
      } else {
        t := ConsumeCSharp(lexemes, index, source);
        CSharpWithin(lexemes, index, source);
      }
      if t.OutOfRange? {
        return OutOfRange;
      }
      tokens := tokens + [t.token];
      index := t.next;
    }
    r := Consumed(tokens, index);
  }

  /** `@{`, `@code` or `@functions` at `i`: the opening runs through the
      first `{`, the children follow, and the closing is the `}` they stop at. */
  method ConsumeCodeBlock(lexemes: seq<Lexeme>, i: nat, source: string) returns (r: Consumed<Token>)
    requires Ordered(lexemes, source) && i < |lexemes|
    ensures r.Consumed? ==>
      r.token.CodeBlockToken? && r.token.openOffset == lexemes[i].offset &&
      FirstKind(lexemes, LeftBrace, i).Some? &&
      FirstKind(lexemes, LeftBrace, i).value + 1 < |lexemes| &&
      r.token.openLength == Distance(lexemes, source, i, FirstKind(lexemes, LeftBrace, i).value + 1)
    ensures r.Consumed? ==>
      1 <= r.next <= |lexemes| && lexemes[r.next - 1].kind == RightBrace &&
      r.token.closeOffset == lexemes[r.next - 1].offset
    ensures r.Consumed? ==> i < r.next && BlockContent(r.token.children, source) &&
                            Within(r.token, source) && NoIgnore(r.token)
    decreases |lexemes| - i, 0
  {
    var openOffset := lexemes[i].offset;
    var brace := ScanKind(lexemes, LeftBrace, i);
    if brace.None? {
      return OutOfRange;
    }
    var index := brace.value + 1;
    var openLength := Distance(lexemes, source, i, index);
    var children := ConsumeCodeBlockContent(lexemes, index, source);
    if children.OutOfRange? || children.next >= |lexemes| {
      return OutOfRange;
    }
    r := Consumed(CodeBlockToken(children.token, lexemes[children.next].offset, openLength, openOffset),
                  children.next + 1);
  }

  /** The opening of a control structure starts with `@do`. */
  predicate IsDoOpening(source: string, openOffset: nat, openLength: nat)
    requires openOffset + openLength <= |source|
  {
    3 <= openLength && source[openOffset..openOffset + 3] == "@do"
  }

  /** A control structure at `i`: the opening runs to the first `(` or `{`;
      a `(` starts the condition, which runs through its closing parenthesis;
      the children follow the next `{`. A `@do` loop takes its condition
      from the `while` after the body instead. */
  method ConsumeControlStructure(lexemes: seq<Lexeme>, i: nat, source: string) returns (r: Consumed<Token>)
    requires Ordered(lexemes, source) && i < |lexemes|
    ensures r.Consumed? ==>
      ControlHeadAt(lexemes, i, source).Some? && r.token.ControlStructureToken? && 3 <= r.token.openLength &&
      r.token.openOffset == lexemes[i].offset && r.token.closeOffset == 0 &&
      r.token.openLength == ControlHeadAt(lexemes, i, source).value.openLength
    ensures r.Consumed? && !IsDoOpening(source, r.token.openOffset, r.token.openLength) ==>
      r.token.expressionOffset == ControlHeadAt(lexemes, i, source).value.expressionOffset &&
      r.token.expressionLength == ControlHeadAt(lexemes, i, source).value.expressionLength
    ensures r.Consumed? && IsDoOpening(source, r.token.openOffset, r.token.openLength) ==>
      exists from: nat, t: nat :: ControlHeadAt(lexemes, i, source).value.brace < from &&
        DoWhileConditionAt(lexemes, from, source) == Some((t, r.token.expressionLength, r.next)) &&
        r.token.expressionOffset == lexemes[t].offset
    ensures r.Consumed? ==> i < r.next && BlockContent(r.token.children, source) &&
                            Within(r.token, source) && NoIgnore(r.token)
    decreases |lexemes| - i, 0
  {
    var openOffset := lexemes[i].offset;
    var head := ScanControlHead(lexemes, i, source);
    if head.None? || head.value.brace + 1 >= |lexemes| {
      return OutOfRange;
    }
    var children := ConsumeCodeBlockContent(lexemes, head.value.brace + 1, source);
    if children.OutOfRange? {
      return OutOfRange;
    }
    var index := children.next + 1;
    var openLength := head.value.openLength;
    if openLength < 3 {
      return OutOfRange;
    }
    if source[openOffset..openOffset + 3] == "@do" {
      var condition := ScanDoWhileCondition(lexemes, index, source);
      if condition.None? {
        return OutOfRange;
      }
      var (t, length, next) := condition.value;
      return Consumed(ControlStructureToken(children.token, 0, openLength, openOffset, length, lexemes[t].offset), next);
    }
    r := Consumed(ControlStructureToken(children.token, 0, openLength, openOffset,
                                        head.value.expressionLength, head.value.expressionOffset), index);
  }

  /** Builds the token the classifier names for lexeme `i`. An ignore token
      leaves the index where it is; every other token moves past `i`. */
  method ConsumeToken(lexemes: seq<Lexeme>, i: nat, source: string) returns (r: Consumed<Token>)
    requires Ordered(lexemes, source) && i < |lexemes|
    ensures r.Consumed? && r.token.IgnoreToken? ==> r.next == i
    ensures r.Consumed? && !r.token.IgnoreToken? ==> i < r.next && Within(r.token, source) && NoIgnore(r.token)
    ensures SimpleTokenAt(lexemes, i, source).Some? ==> r == SimpleTokenAt(lexemes, i, source).value
    ensures Classify(lexemes, i, source) == Element ==> r.Consumed? ==> r.token.ElementToken?
    ensures Classify(lexemes, i, source) == CodeBlock ==> r.Consumed? ==> r.token.CodeBlockToken?
    ensures Classify(lexemes, i, source) == ControlStructure ==> r.Consumed? ==> r.token.ControlStructureToken?
    decreases |lexemes| - i, 1
  {
    var tokenType := GetTokenType(lexemes, i, source);
    match tokenType
    case ControlStructure =>
      r := ConsumeControlStructure(lexemes, i, source);
    case CodeBlock =>
      r := ConsumeCodeBlock(lexemes, i, source);
    case Element =>
      r := ConsumeElement(lexemes, i, source);
    case _ =>
      r := ConsumeSimpleToken(lexemes, i, source, tokenType);
      if r.Consumed? {
        SimpleTokenWithin(lexemes, i, source);
      }
  }

  /** The dispatcher steps over lexeme `j`: it builds an ignore token there
      and leaves the index where it is. */
  ghost predicate IgnoredAt(lexemes: seq<Lexeme>, source: string, j: nat)
    requires Ordered(lexemes, source) && j < |lexemes|
  {
    SimpleTokenAt(lexemes, j, source) == Some(Consumed(IgnoreToken, j))
  }

  /** Every lexeme of the array from `from` up to `to` is stepped over. */
  ghost predicate Skipped(lexemes: seq<Lexeme>, source: string, from: nat, to: nat)
    requires Ordered(lexemes, source)
  {
    forall j :: from <= j < to && j < |lexemes| ==> IgnoredAt(lexemes, source, j)
  }

  /** `t` is the token the dispatcher builds at lexeme `i`, the parse going
      on at lexeme `next`: exactly `SimpleTokenAt`'s for a token without
      children, otherwise the element, code block or control structure the
      classifier names, past `i`. */
  ghost predicate Builds(lexemes: seq<Lexeme>, source: string, i: nat, t: Token, next: nat)
    requires Ordered(lexemes, source) && i < |lexemes|
  {
    i < next &&
    match SimpleTokenAt(lexemes, i, source)
    case Some(c) => c == Consumed(t, next)
    case None =>
      (Classify(lexemes, i, source) == Element ==> t.ElementToken?) &&
      (Classify(lexemes, i, source) == CodeBlock ==> t.CodeBlockToken?) &&
      (Classify(lexemes, i, source) == ControlStructure ==> t.ControlStructureToken?)
  }

  /** What the parser has yielded on reaching lexeme `index`: at most one
      clean token per lexeme, none of them an ignore token; token `k` is
      built at lexeme `starts[k]` with the parse going on at `ends[k]`; and
      every lexeme before `index` that no token covers is stepped over. */
  ghost predicate Parsed(lexemes: seq<Lexeme>, source: string, tokens: seq<Token>, starts: seq<nat>, ends: seq<nat>,
                         index: nat)
    requires Ordered(lexemes, source)
  {
    |tokens| <= |lexemes| && |starts| == |tokens| && |ends| == |tokens| && TopLevel(tokens, source) &&
    BuiltAt(lexemes, source, tokens, starts, ends) && Chained(lexemes, source, starts, ends, index)
  }

  /** Clean tokens, none of them an ignore token at the top. */
  ghost predicate TopLevel(tokens: seq<Token>, source: string) {
    forall t :: t in tokens ==> !t.IgnoreToken? && Within(t, source) && NoIgnore(t)
  }

  ghost predicate BuiltAt(lexemes: seq<Lexeme>, source: string, tokens: seq<Token>, starts: seq<nat>, ends: seq<nat>)
    requires Ordered(lexemes, source) && |starts| == |tokens| && |ends| == |tokens|
  {
    forall k :: 0 <= k < |starts| ==> starts[k] < |lexemes| && Builds(lexemes, source, starts[k], tokens[k], ends[k])
  }

  /** The first token begins after stepped-over lexemes only, each further
      one where the one before it ended or after stepped-over lexemes, and
      only stepped-over lexemes follow the last one up to `index`. */
  ghost predicate Chained(lexemes: seq<Lexeme>, source: string, starts: seq<nat>, ends: seq<nat>, index: nat)
    requires Ordered(lexemes, source) && |starts| == |ends|
  {
    Skipped(lexemes, source, 0, if |starts| == 0 then index else starts[0]) &&
    (|starts| > 0 ==> Skipped(lexemes, source, ends[|ends| - 1], index)) &&
    forall k :: 0 <= k < |starts| - 1 ==> Linked(lexemes, source, starts, ends, k)
  }

  /** Token `k + 1` begins where token `k` ended, or after stepped-over lexemes. */
  ghost predicate Linked(lexemes: seq<Lexeme>, source: string, starts: seq<nat>, ends: seq<nat>, k: nat)
    requires Ordered(lexemes, source) && k + 1 < |starts| && |starts| == |ends|
  {
    ends[k] <= starts[k + 1] && Skipped(lexemes, source, ends[k], starts[k + 1])
  }

  /** The parse cannot go on at lexeme `i`: a token without children runs off
      the array there, or an element, code block or control structure starts
      there. */
  ghost predicate FailsAt(lexemes: seq<Lexeme>, source: string, i: nat)
    requires Ordered(lexemes, source) && i < |lexemes|
  {
    match SimpleTokenAt(lexemes, i, source)
    case Some(Consumed(_, _)) => false
    case _ => true
  }

  /** What `ConsumeToken` promises of a token that is not an ignore token
      makes it the one built at `i`. */
  lemma ConsumedBuilds(lexemes: seq<Lexeme>, source: string, i: nat, r: Consumed<Token>)
    requires Ordered(lexemes, source) && i < |lexemes| && r.Consumed? && i < r.next
    requires SimpleTokenAt(lexemes, i, source).Some? ==> r == SimpleTokenAt(lexemes, i, source).value
    requires Classify(lexemes, i, source) == Element ==> r.token.ElementToken?
    requires Classify(lexemes, i, source) == CodeBlock ==> r.token.CodeBlockToken?
    requires Classify(lexemes, i, source) == ControlStructure ==> r.token.ControlStructureToken?
    ensures Builds(lexemes, source, i, r.token, r.next)
  {
  }

  /** An ignore token comes only from `SimpleTokenAt`: the lexeme is stepped over. */
  lemma ConsumedIgnored(lexemes: seq<Lexeme>, source: string, i: nat, r: Consumed<Token>)
    requires Ordered(lexemes, source) && i < |lexemes| && r.Consumed? && r.token.IgnoreToken? && r.next == i
    requires SimpleTokenAt(lexemes, i, source).Some? ==> r == SimpleTokenAt(lexemes, i, source).value
    requires Classify(lexemes, i, source) == Element ==> r.token.ElementToken?
    requires Classify(lexemes, i, source) == CodeBlock ==> r.token.CodeBlockToken?
    requires Classify(lexemes, i, source) == ControlStructure ==> r.token.ControlStructureToken?
    ensures IgnoredAt(lexemes, source, i)
  {
  }

  /** A routine that runs off the array fails the parse where it started. */
  lemma ConsumedFails(lexemes: seq<Lexeme>, source: string, i: nat, r: Consumed<Token>)
    requires Ordered(lexemes, source) && i < |lexemes| && r.OutOfRange?
    requires SimpleTokenAt(lexemes, i, source).Some? ==> r == SimpleTokenAt(lexemes, i, source).value
    ensures FailsAt(lexemes, source, i)
  {
  }

  /** One more token, built where the parse stands, keeps what the parser yields. */
  lemma ParsedExtended(lexemes: seq<Lexeme>, source: string, tokens: seq<Token>, starts: seq<nat>, ends: seq<nat>,
                       t: Token, i: nat, next: nat)
    requires Ordered(lexemes, source) && Parsed(lexemes, source, tokens, starts, ends, i)
    requires |tokens| <= i < |lexemes|
    requires !t.IgnoreToken? && Within(t, source) && NoIgnore(t) && Builds(lexemes, source, i, t, next)
    requires |ends| > 0 ==> ends[|ends| - 1] <= i
    ensures Parsed(lexemes, source, tokens + [t], starts + [i], ends + [next], next)
  {
    assert TopLevel(tokens + [t], source) by {
      assert forall u :: u in tokens + [t] ==> u in tokens || u == t;
    }
    BuiltAtExtended(lexemes, source, tokens, starts, ends, t, i, next);
    ChainedExtended(lexemes, source, starts, ends, i, next);
  }

  lemma BuiltAtExtended(lexemes: seq<Lexeme>, source: string, tokens: seq<Token>, starts: seq<nat>, ends: seq<nat>,
                        t: Token, i: nat, next: nat)
    requires Ordered(lexemes, source) && |starts| == |tokens| && |ends| == |tokens|
    requires BuiltAt(lexemes, source, tokens, starts, ends)
    requires i < |lexemes| && Builds(lexemes, source, i, t, next)
    ensures BuiltAt(lexemes, source, tokens + [t], starts + [i], ends + [next])
  {
    var tokens', starts', ends' := tokens + [t], starts + [i], ends + [next];
    forall k | 0 <= k < |starts'|
      ensures starts'[k] < |lexemes| && Builds(lexemes, source, starts'[k], tokens'[k], ends'[k])
    {
      if k < |starts| {
        assert starts'[k] == starts[k] && tokens'[k] == tokens[k] && ends'[k] == ends[k];
      }
    }
  }

  lemma ChainedExtended(lexemes: seq<Lexeme>, source: string, starts: seq<nat>, ends: seq<nat>, i: nat, next: nat)
    requires Ordered(lexemes, source) && |starts| == |ends| && Chained(lexemes, source, starts, ends, i)
    requires |ends| > 0 ==> ends[|ends| - 1] <= i
    ensures Chained(lexemes, source, starts + [i], ends + [next], next)
  {
    var starts', ends' := starts + [i], ends + [next];
    assert starts'[0] == if |starts| == 0 then i else starts[0];
    forall k | 0 <= k < |starts'| - 1
      ensures Linked(lexemes, source, starts', ends', k)
    {
      if k < |starts| - 1 {
        assert Linked(lexemes, source, starts, ends, k);
        assert ends'[k] == ends[k] && starts'[k + 1] == starts[k + 1];
      } else {
        assert ends'[k] == ends[|ends| - 1] && starts'[k + 1] == i;
      }
    }
  }

  /** Stepping over an ignored lexeme keeps what the parser yields. */
  lemma ParsedSkip(lexemes: seq<Lexeme>, source: string, tokens: seq<Token>, starts: seq<nat>, ends: seq<nat>, i: nat)
    requires Ordered(lexemes, source) && Parsed(lexemes, source, tokens, starts, ends, i)
    requires i < |lexemes| && IgnoredAt(lexemes, source, i)
    requires |ends| > 0 ==> ends[|ends| - 1] <= i
    ensures Parsed(lexemes, source, tokens, starts, ends, i + 1)
  {
    if |starts| == 0 {
      SkippedStep(lexemes, source, 0, i);
    } else {
      SkippedStep(lexemes, source, ends[|ends| - 1], i);
    }
  }

  lemma SkippedStep(lexemes: seq<Lexeme>, source: string, from: nat, i: nat)
    requires Ordered(lexemes, source) && from <= i < |lexemes|
    requires Skipped(lexemes, source, from, i) && IgnoredAt(lexemes, source, i)
    ensures Skipped(lexemes, source, from, i + 1)
  {
  }

  /** Past the end of the array, where the parse stands makes no difference. */
  lemma ParsedPastEnd(lexemes: seq<Lexeme>, source: string, tokens: seq<Token>, starts: seq<nat>, ends: seq<nat>,
                      i: nat)
    requires Ordered(lexemes, source) && Parsed(lexemes, source, tokens, starts, ends, i) && |lexemes| <= i
    ensures Parsed(lexemes, source, tokens, starts, ends, |lexemes|)
  {
  }

  /** Nothing the parse reached is lost: each lexeme before `index` lies
      within a token's run of lexemes or was stepped over. */
  lemma {:induction false} ParsedCovers(lexemes: seq<Lexeme>, source: string, tokens: seq<Token>, starts: seq<nat>,
                                        ends: seq<nat>, index: nat, j: nat)
    requires Ordered(lexemes, source) && Parsed(lexemes, source, tokens, starts, ends, index)
    requires j < index && j < |lexemes|
    ensures IgnoredAt(lexemes, source, j) || exists k :: 0 <= k < |starts| && starts[k] <= j < ends[k]
  {
    if |starts| > 0 && starts[0] <= j < ends[|ends| - 1] {
      CoversFrom(lexemes, source, tokens, starts, ends, index, j, 0);
    }
  }

  lemma {:induction false} CoversFrom(lexemes: seq<Lexeme>, source: string, tokens: seq<Token>, starts: seq<nat>,
                                      ends: seq<nat>, index: nat, j: nat, k: nat)
    requires Ordered(lexemes, source) && Parsed(lexemes, source, tokens, starts, ends, index)
    requires j < |lexemes| && k < |starts| && starts[k] <= j < ends[|ends| - 1]
    ensures IgnoredAt(lexemes, source, j) || exists k :: 0 <= k < |starts| && starts[k] <= j < ends[k]
    decreases |starts| - k
  {
    if j >= ends[k] {
      assert k + 1 < |starts|;
      assert Linked(lexemes, source, starts, ends, k);
      if j >= starts[k + 1] {
        CoversFrom(lexemes, source, tokens, starts, ends, index, j, k + 1);
      }
    }
  }

  /** Where the parse stands at lexeme `index`: what it has yielded so far
      is parsed, and the last token ended by `index`. */
  ghost predicate Reached(lexemes: seq<Lexeme>, source: string, yielded: seq<Token>, starts: seq<nat>, ends: seq<nat>,
                          index: nat)
    requires Ordered(lexemes, source)
  {
    |yielded| <= index && Parsed(lexemes, source, yielded, starts, ends, index) &&
    (|ends| > 0 ==> ends[|ends| - 1] <= index)
  }

  /** One turn of the parse loop at lexeme `index`: the token built there is
      added and the parse goes on where it ends, an ignored lexeme is stepped
      over, or the parse fails there and nothing changes. */
  method ParseNext(lexemes: seq<Lexeme>, source: string, yielded: seq<Token>, ghost starts: seq<nat>,
                   ghost ends: seq<nat>, index: nat)
    returns (failed: bool, yielded': seq<Token>, ghost starts': seq<nat>, ghost ends': seq<nat>, index': nat)
    requires Ordered(lexemes, source) && index < |lexemes| && Reached(lexemes, source, yielded, starts, ends, index)
    ensures failed ==> yielded' == yielded && starts' == starts && ends' == ends && index' == index &&
                       index' < |lexemes| && Reached(lexemes, source, yielded', starts', ends', index') &&
                       FailsAt(lexemes, source, index')
    ensures !failed ==> index < index' && Reached(lexemes, source, yielded', starts', ends', index')
  {
    var token := ConsumeToken(lexemes, index, source);
    if token.OutOfRange? {
      ConsumedFails(lexemes, source, index, token);
      return true, yielded, starts, ends, index;
    }
    failed := false;
    yielded', starts', ends', index' := Advance(lexemes, source, yielded, starts, ends, index, token);
  }

  /** The parse takes the token `ConsumeToken` built at `index`: an ignore
      token steps over the lexeme, any other is added. */
  method Advance(lexemes: seq<Lexeme>, source: string, yielded: seq<Token>, ghost starts: seq<nat>,
                 ghost ends: seq<nat>, index: nat, token: Consumed<Token>)
    returns (yielded': seq<Token>, ghost starts': seq<nat>, ghost ends': seq<nat>, index': nat)
    requires Ordered(lexemes, source) && index < |lexemes| && Reached(lexemes, source, yielded, starts, ends, index)
    requires token.Consumed?
    requires token.token.IgnoreToken? ==> token.next == index
    requires !token.token.IgnoreToken? ==> index < token.next && Within(token.token, source) && NoIgnore(token.token)
    requires SimpleTokenAt(lexemes, index, source).Some? ==> token == SimpleTokenAt(lexemes, index, source).value
    requires Classify(lexemes, index, source) == Element ==> token.token.ElementToken?
    requires Classify(lexemes, index, source) == CodeBlock ==> token.token.CodeBlockToken?
    requires Classify(lexemes, index, source) == ControlStructure ==> token.token.ControlStructureToken?
    ensures index < index' && Reached(lexemes, source, yielded', starts', ends', index')
  {
    if !token.token.IgnoreToken? {
      ConsumedBuilds(lexemes, source, index, token);
      ParsedExtended(lexemes, source, yielded, starts, ends, token.token, index, token.next);
      yielded', starts', ends', index' := yielded + [token.token], starts + [index], ends + [token.next], token.next;
    } else {
      ConsumedIgnored(lexemes, source, index, token);
      ParsedSkip(lexemes, source, yielded, starts, ends, index);
      yielded', starts', ends', index' := yielded, starts, ends, index + 1;
    }
  }

  /** The token list of a lexeme array: ignore tokens are dropped and step
      over one lexeme. On success the tokens and the stepped-over lexemes
      account for the whole array; None when a routine runs off the array,
      at a lexeme `at` the parse reached. */
  method Parse(lexemes: seq<Lexeme>, source: string)
    returns (r: Option<seq<Token>>, ghost tokens: seq<Token>, ghost starts: seq<nat>, ghost ends: seq<nat>,
             ghost at: nat)
    requires Ordered(lexemes, source)
    ensures r.Some? ==> r.value == tokens && Parsed(lexemes, source, tokens, starts, ends, |lexemes|)
    ensures r.None? ==> at < |lexemes| && Reached(lexemes, source, tokens, starts, ends, at) &&
                        FailsAt(lexemes, source, at)
  {
    var yielded: seq<Token> := [];
    starts, ends, at := [], [], 0;
    var index := 0;
    while index < |lexemes|
      invariant Reached(lexemes, source, yielded, starts, ends, index)
      decreases |lexemes| - index
    {
      var failed;
      failed, yielded, starts, ends, index := ParseNext(lexemes, source, yielded, starts, ends, index);
      if failed {
        return None, yielded, starts, ends, index;
      }
    }
    ParsedPastEnd(lexemes, source, yielded, starts, ends, index);
    tokens := yielded;
    r := Some(yielded);
  }

  /** What `Parse` promises, as one predicate over its results. */
  ghost predicate Outcome(lexemes: seq<Lexeme>, source: string, r: Option<seq<Token>>, tokens: seq<Token>,
                          starts: seq<nat>, ends: seq<nat>, at: nat)
    requires Ordered(lexemes, source)
  {
    (r.Some? ==> r.value == tokens && Parsed(lexemes, source, tokens, starts, ends, |lexemes|)) &&
    (r.None? ==> at < |lexemes| && Reached(lexemes, source, tokens, starts, ends, at) && FailsAt(lexemes, source, at))
  }

  /** The parser's entry point on text: lex the source with the lexer as
      written, then parse the lexemes. */
  method ParseSource(source: string)
    returns (r: Option<seq<Token>>, ghost tokens: seq<Token>, ghost starts: seq<nat>, ghost ends: seq<nat>,
             ghost at: nat)
    ensures Ordered(Scanner.Scan(source), source)
    ensures Outcome(Scanner.Scan(source), source, r, tokens, starts, ends, at)
  {
    var lexemes := Scanner.Lex(source, false);
    Scanner.ScanIsLexed(source);
    Scanner.LexedIsOrdered(lexemes, source);
    r, tokens, starts, ends, at := Parse(lexemes, source);
  }
}
