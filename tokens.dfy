// The parser's tokens: offset/length windows into the source text, with
// the slice accessors the formatter reads them through.

module Tokens {

  /** An attribute inside an element's start tag; `valueOffset == 0` stands
      for "no value". */
  datatype AttributeToken = AttributeToken(keyLength: nat, keyOffset: nat, valueLength: nat, valueOffset: nat)

  /** The tokens the parser produces; a control structure is a code block
      with an expression in front. */
  datatype Token =
    | CodeBlockToken(children: seq<Token>, closeOffset: nat, openLength: nat, openOffset: nat)
    | ControlStructureToken(children: seq<Token>, closeOffset: nat, openLength: nat, openOffset: nat,
                            expressionLength: nat, expressionOffset: nat)
    | CSharpToken(length: nat, offset: nat)
    | ElementToken(attributes: seq<AttributeToken>, children: seq<Token>, nameLength: nat, nameOffset: nat)
    | ExplicitRazorExpressionToken(closeOffset: nat, openOffset: nat)
    | CommentToken(closeLength: nat, closeOffset: nat, contentLength: nat, contentOffset: nat,
                   openLength: nat, openOffset: nat)
    | ImplicitRazorExpressionToken(length: nat, offset: nat)
    | LineLevelDirectiveToken(directiveLength: nat, directiveOffset: nat, lineLength: nat, lineOffset: nat)
    | NewLineToken(offset: nat)
    | TextToken(length: nat, offset: nat)
    | IgnoreToken

  /** The characters of `source` from `offset` on, `length` of them. */
  function Slice(source: string, offset: nat, length: nat): (r: string)
    requires offset + length <= |source|
    ensures |r| == length
    ensures forall k :: 0 <= k < length ==> r[k] == source[offset + k]
  {
    source[offset..offset + length]
  }

  function Key(a: AttributeToken, source: string): string
    requires a.keyOffset + a.keyLength <= |source|
  {
    Slice(source, a.keyOffset, a.keyLength)
  }

  /** An attribute's value; empty whenever the value offset is zero. */
  function AttributeValue(a: AttributeToken, source: string): string
    requires a.valueOffset == 0 || a.valueOffset + a.valueLength <= |source|
  {
    if a.valueOffset == 0 then "" else Slice(source, a.valueOffset, a.valueLength)
  }

  function CommentOpen(c: Token, source: string): string
    requires c.CommentToken? && c.openOffset + c.openLength <= |source|
  {
    Slice(source, c.openOffset, c.openLength)
  }

  function CommentContent(c: Token, source: string): string
    requires c.CommentToken? && c.contentOffset + c.contentLength <= |source|
  {
    Slice(source, c.contentOffset, c.contentLength)
  }

  function CommentClose(c: Token, source: string): string
    requires c.CommentToken? && c.closeOffset + c.closeLength <= |source|
  {
    Slice(source, c.closeOffset, c.closeLength)
  }

  /** The two characters `@(`. */
  function ExplicitOpen(e: Token, source: string): string
    requires e.ExplicitRazorExpressionToken? && e.openOffset + 2 <= |source|
  {
    Slice(source, e.openOffset, 2)
  }

  /** What lies between `@(` and the closing parenthesis. */
  function ExplicitCode(e: Token, source: string): string
    requires e.ExplicitRazorExpressionToken? && e.openOffset + 2 <= e.closeOffset <= |source|
  {
    source[e.openOffset + 2..e.closeOffset]
  }

  function ExplicitClose(e: Token, source: string): string
    requires e.ExplicitRazorExpressionToken? && e.closeOffset + 1 <= |source|
  {
    Slice(source, e.closeOffset, 1)
  }

  /** The opening of a code block or control structure. */
  function BlockOpen(b: Token, source: string): string
    requires (b.CodeBlockToken? || b.ControlStructureToken?) && b.openOffset + b.openLength <= |source|
  {
    Slice(source, b.openOffset, b.openLength)
  }

  function BlockClose(b: Token, source: string): string
    requires (b.CodeBlockToken? || b.ControlStructureToken?) && b.closeOffset + 1 <= |source|
  {
    Slice(source, b.closeOffset, 1)
  }

  /** A control structure's expression; empty when its length is below one. */
  function Expression(c: Token, source: string): string
    requires c.ControlStructureToken?
    requires c.expressionLength < 1 || c.expressionOffset + c.expressionLength <= |source|
  {
    if c.expressionLength < 1 then "" else Slice(source, c.expressionOffset, c.expressionLength)
  }

  function Name(e: Token, source: string): string
    requires e.ElementToken? && e.nameOffset + e.nameLength <= |source|
  {
    Slice(source, e.nameOffset, e.nameLength)
  }

  function Directive(d: Token, source: string): string
    requires d.LineLevelDirectiveToken? && d.directiveOffset + d.directiveLength <= |source|
  {
    Slice(source, d.directiveOffset, d.directiveLength)
  }

  function Line(d: Token, source: string): string
    requires d.LineLevelDirectiveToken? && d.lineOffset + d.lineLength <= |source|
  {
    Slice(source, d.lineOffset, d.lineLength)
  }

  /** The value of a text, implicit-expression or C# token. */
  function Span(t: Token, source: string): string
    requires t.TextToken? || t.ImplicitRazorExpressionToken? || t.CSharpToken?
    requires t.offset + t.length <= |source|
  {
    Slice(source, t.offset, t.length)
  }

  ghost predicate AttributeWithin(a: AttributeToken, source: string) {
    a.keyOffset + a.keyLength <= |source| && a.valueOffset + a.valueLength <= |source|
  }

  /** Every accessor the formatter uses on the token is defined: each window
      lies inside the source, at any depth. */
  ghost predicate Within(t: Token, source: string) {
    match t
    case CodeBlockToken(children, closeOffset, openLength, openOffset) =>
      openOffset + openLength <= |source| && closeOffset + 1 <= |source| &&
      forall c :: c in children ==> Within(c, source)
    case ControlStructureToken(children, _, openLength, openOffset, expressionLength, expressionOffset) =>
      openOffset + openLength <= |source| && expressionOffset + expressionLength <= |source| &&
      forall c :: c in children ==> Within(c, source)
    case CSharpToken(length, offset) => offset + length <= |source|
    case ElementToken(attributes, children, nameLength, nameOffset) =>
      nameOffset + nameLength <= |source| &&
      (forall a :: a in attributes ==> AttributeWithin(a, source)) &&
      forall c :: c in children ==> Within(c, source)
    case ExplicitRazorExpressionToken(closeOffset, openOffset) => openOffset + 2 <= closeOffset < |source|
    case CommentToken(closeLength, closeOffset, contentLength, contentOffset, openLength, openOffset) =>
      openOffset + openLength <= |source| && contentOffset + contentLength <= |source| &&
      closeOffset + closeLength <= |source|
    case ImplicitRazorExpressionToken(length, offset) => offset + length <= |source|
    case LineLevelDirectiveToken(directiveLength, directiveOffset, lineLength, lineOffset) =>
      directiveOffset + directiveLength <= |source| && lineOffset + lineLength <= |source|
    case NewLineToken(offset) => offset < |source|
    case TextToken(length, offset) => offset + length <= |source|
    case IgnoreToken => true
  }

  /** No ignore token, at any depth. */
  ghost predicate NoIgnore(t: Token) {
    match t
    case IgnoreToken => false
    case CodeBlockToken(children, _, _, _) => forall c :: c in children ==> NoIgnore(c)
    case ControlStructureToken(children, _, _, _, _, _) => forall c :: c in children ==> NoIgnore(c)
    case ElementToken(_, children, _, _) => forall c :: c in children ==> NoIgnore(c)
    case _ => true
  }

  /** The value is empty whenever the value offset is zero, whatever the
      value length says; otherwise it is the window the offset and length give. */
  lemma AttributeValueWindow(a: AttributeToken, source: string)
    requires AttributeWithin(a, source)
    ensures a.valueOffset == 0 ==> AttributeValue(a, source) == ""
    ensures a.valueOffset != 0 ==>
      |AttributeValue(a, source)| == a.valueLength &&
      AttributeValue(a, source) == source[a.valueOffset..a.valueOffset + a.valueLength]
  {
  }

  /** Opening, code and closing of an explicit expression spell the source
      from `@` through the closing parenthesis. */
  lemma ExplicitPartsJoin(e: Token, source: string)
    requires e.ExplicitRazorExpressionToken? && Within(e, source)
    ensures |ExplicitOpen(e, source)| == 2 && |ExplicitClose(e, source)| == 1
    ensures |ExplicitCode(e, source)| == e.closeOffset - e.openOffset - 2
    ensures ExplicitOpen(e, source) + ExplicitCode(e, source) + ExplicitClose(e, source) ==
            source[e.openOffset..e.closeOffset + 1]
  {
    var s := source[e.openOffset..e.closeOffset + 1];
    assert s == source[e.openOffset..e.openOffset + 2] + source[e.openOffset + 2..e.closeOffset] +
                source[e.closeOffset..e.closeOffset + 1];
  }

  /** A comment whose content starts where its opening ends and whose
      closing starts where its content ends is spelled by its three parts. */
  lemma CommentPartsJoin(c: Token, source: string)
    requires c.CommentToken? && Within(c, source)
    requires c.contentOffset == c.openOffset + c.openLength
    requires c.closeOffset == c.contentOffset + c.contentLength
    ensures CommentOpen(c, source) + CommentContent(c, source) + CommentClose(c, source) ==
            source[c.openOffset..c.closeOffset + c.closeLength]
  {
    var s := source[c.openOffset..c.closeOffset + c.closeLength];
    assert s == source[c.openOffset..c.contentOffset] + source[c.contentOffset..c.closeOffset] +
                source[c.closeOffset..c.closeOffset + c.closeLength];
  }

  /** A control structure has an expression exactly when its expression
      length is at least one, and then the expression is that window. */
  lemma ExpressionWindow(c: Token, source: string)
    requires c.ControlStructureToken? && Within(c, source)
    ensures Expression(c, source) == "" <==> c.expressionLength < 1
    ensures c.expressionLength >= 1 ==>
      Expression(c, source) == source[c.expressionOffset..c.expressionOffset + c.expressionLength]
  {
    if c.expressionLength >= 1 {
      assert |Expression(c, source)| == c.expressionLength;
    }
  }

  /** The test templates' token windows: `@(code)` and the two comments. */
  lemma AccessorExamples()
    ensures ExplicitOpen(ExplicitRazorExpressionToken(6, 0), "@(code)") == "@("
    ensures ExplicitCode(ExplicitRazorExpressionToken(6, 0), "@(code)") == "code"
    ensures ExplicitClose(ExplicitRazorExpressionToken(6, 0), "@(code)") == ")"
    ensures CommentOpen(CommentToken(3, 13, 9, 4, 4, 0), "<!-- Comment -->") == "<!--"
    ensures CommentContent(CommentToken(3, 13, 9, 4, 4, 0), "<!-- Comment -->") == " Comment "
    ensures CommentClose(CommentToken(3, 13, 9, 4, 4, 0), "<!-- Comment -->") == "-->"
    ensures CommentContent(CommentToken(2, 11, 9, 2, 2, 0), "@* Comment *@") == " Comment "
    ensures AttributeValue(AttributeToken(8, 8, 0, 0), "<button disabled />") == ""
  {
  }
}
