// What the formatter writes for each token, as functions of the token, the
// source and the layout state (indentation level, prefix, whether anything
// has been written yet). A result of None stands for an exception thrown on
// the way; the formatter's routines in module Formatter are proved to append
// exactly these texts.

module Layout {
  import opened Common
  import Classifier
  import opened Tokens
  import opened Text

  /** What the formatter reads besides the tokens: the line break that
      `AppendLine` writes, the indentation unit, and the C# formatter the
      code blocks are handed to, which receives the code and a line width. */
  datatype Env = Env(newLine: string, tab: string, formatCode: (string, int) -> string)

  /** The comment line that stands for the element with the given key in
      the code handed to the C# formatter. */
  const Marker: string := "//ElementToken-"

  /** The extra prefix of the lines of a code block's body. */
  const BodyIndent: string := "    "

  /** The code handed to the C# formatter starts with this namespace line,
      which the formatter's output is expected to start with too; this many
      characters of the output are dropped. */
  const NamespaceLine: string := "namespace A;"

  /** `AppendIndented`: `level` indentation units, then the value. */
  function Indented(env: Env, value: string, level: nat): string {
    Indent(env.tab, level) + value
  }

  /** Both parts, when neither threw. */
  function Then(a: Option<string>, b: Option<string>): (r: Option<string>)
    ensures r.Some? <==> a.Some? && b.Some?
  {
    if a.Some? && b.Some? then Some(a.value + b.value) else None
  }

  /** The output after appending `a` to `output`. */
  function After(output: string, a: Option<string>): (r: Option<string>)
    ensures r.Some? <==> a.Some?
  {
    if a.Some? then Some(output + a.value) else None
  }

  // ------------------------------------------------------------- attributes

  /** An attribute written after the key: `="value"` when the value length
      is positive (whatever the quotes were), nothing otherwise. */
  function AttributeValueText(a: AttributeToken, source: string): string
    requires AttributeWithin(a, source)
  {
    if a.valueLength > 0 then "=\"" + AttributeValue(a, source) + "\"" else ""
  }

  /** `FormatAttribute`: on its own line when indented, in place otherwise. */
  function AttributeText(a: AttributeToken, source: string, env: Env, level: nat, prefix: string): string
    requires AttributeWithin(a, source)
  {
    (if level > 0 then env.newLine + Indented(env, prefix + Key(a, source), level) else Key(a, source))
    + AttributeValueText(a, source)
  }

  /** The first `n` attributes one after the other. */
  function AttributesText(attributes: seq<AttributeToken>, n: nat, source: string, env: Env, level: nat, prefix: string)
    : string
    requires n <= |attributes|
    requires forall a :: a in attributes ==> AttributeWithin(a, source)
  {
    if n == 0 then ""
    else
      assert attributes[n - 1] in attributes;
      AttributesText(attributes, n - 1, source, env, level, prefix) + AttributeText(attributes[n - 1], source, env, level, prefix)
  }

  /** One more attribute appends its text to the first `n - 1`. */
  lemma AttributesTextStep(attributes: seq<AttributeToken>, n: nat, source: string, env: Env, level: nat, prefix: string)
    requires 0 < n <= |attributes|
    requires forall a :: a in attributes ==> AttributeWithin(a, source)
    ensures attributes[n - 1] in attributes
    ensures AttributesText(attributes, n, source, env, level, prefix) ==
            AttributesText(attributes, n - 1, source, env, level, prefix) + AttributeText(attributes[n - 1], source, env, level, prefix)
  {
    assert attributes[n - 1] in attributes;
  }

  /** The start tag of an element: a single attribute stays on the tag's
      line after a space, any other number goes one per line one level
      deeper. */
  function StartTag(t: Token, source: string, env: Env, level: nat, sameLine: bool, prefix: string, started: bool): string
    requires t.ElementToken? && Within(t, source)
  {
    (if started && !sameLine then env.newLine else "") +
    Indented(env, prefix + "<", level) + Name(t, source) +
    (if |t.attributes| == 1 then " " + AttributeText(t.attributes[0], source, env, 0, "")
     else AttributesText(t.attributes, |t.attributes|, source, env, level + 1, prefix)) +
    ">"
  }

  // --------------------------------------------------------------- leaves

  /** `FormatComment`'s loop over multi-line content: a line's first
      character is indented one level deeper, a run of breaks becomes one
      line break, and breaks before the first line are dropped. */
  function CommentBody(s: string, lastCharWasNewLine: bool, env: Env, level: nat, prefix: string): string
    decreases |s|
  {
    if s == [] then ""
    else if !IsLineBreak(s[0]) then
      (if lastCharWasNewLine then Indented(env, prefix + [s[0]], level + 1) else [s[0]]) +
      CommentBody(s[1..], false, env, level, prefix)
    else if lastCharWasNewLine then CommentBody(s[1..], true, env, level, prefix)
    else env.newLine + CommentBody(s[1..], true, env, level, prefix)
  }

  /** `FormatComment` on the comment's parts, the content trimmed: the
      opening on a new line, then the content and the closing on the same
      line when the content is one line, or the content's lines one level
      deeper and the closing on a line of its own. */
  function CommentLayout(open: string, content: string, close: string, env: Env, level: nat, prefix: string): string {
    var head := env.newLine + Indented(env, prefix + open, level);
    if !('\n' in content || '\r' in content) then head + " " + content + " " + close
    else
      head + env.newLine + CommentBody(content, true, env, level, prefix) + env.newLine +
      Indented(env, prefix + close, level)
  }

  /** `FormatComment`: the layout of the comment's opening, trimmed content
      and closing. */
  function CommentText(c: Token, source: string, env: Env, level: nat, prefix: string): string
    requires c.CommentToken? && Within(c, source)
  {
    CommentLayout(CommentOpen(c, source), Trimmed(CommentContent(c, source), WhiteSpace), CommentClose(c, source),
                  env, level, prefix)
  }

  /** On a new line when indented, in place otherwise. */
  function Placed(env: Env, value: string, level: nat): string {
    if level > 0 then env.newLine + Indented(env, value, level) else value
  }

  /** `FormatExplicitRazorExpression`: `@(`, the trimmed code, `)`; None
      where the span trim throws, on code made only of whitespace (`@( )`). */
  function ExplicitText(e: Token, source: string, env: Env, level: nat, prefix: string): Option<string>
    requires e.ExplicitRazorExpressionToken? && Within(e, source)
  {
    match TrimAsWritten(ExplicitCode(e, source), WhiteSpace)
    case None => None
    case Some(code) => Some(Placed(env, prefix + ExplicitOpen(e, source) + code + ExplicitClose(e, source), level))
  }

  /** `FormatImplicitRazorExpression`: the trimmed expression, or None
      where the span trim throws. */
  function ImplicitText(e: Token, source: string, env: Env, level: nat, prefix: string): Option<string>
    requires e.ImplicitRazorExpressionToken? && Within(e, source)
  {
    match TrimAsWritten(Span(e, source), WhiteSpace)
    case None => None
    case Some(value) => Some(Placed(env, prefix + value, level))
  }

  /** `FormatText`: the trimmed text, the prefix only when indented; None
      where the span trim throws. */
  function PlainText(e: Token, source: string, env: Env, level: nat, prefix: string): Option<string>
    requires e.TextToken? && Within(e, source)
  {
    match TrimAsWritten(Span(e, source), WhiteSpace)
    case None => None
    case Some(value) => Some(if level > 0 then env.newLine + Indented(env, prefix + value, level) else value)
  }

  // ------------------------------------------------------------- children

  /** An element's children without its newline tokens. */
  function NonNewLines(children: seq<Token>): (r: seq<Token>)
    ensures forall c :: c in r ==> c in children && !c.NewLineToken?
    ensures forall c :: c in children && !c.NewLineToken? ==> c in r
  {
    if children == [] then []
    else (if children[0].NewLineToken? then [] else [children[0]]) + NonNewLines(children[1..])
  }

  /** The length an element's only child counts with for the inline rule:
      text, an implicit expression's value or an explicit expression's code;
      none for any other child, for several children or with attributes. */
  function ChildLength(children: seq<Token>, attributes: seq<AttributeToken>, source: string): Option<nat>
    requires forall c :: c in children ==> Within(c, source)
  {
    if |children| == 1 && |attributes| == 0 then
      var child := children[0];
      assert child in children && Within(child, source);
      match child
      case TextToken(length, _) => Some(length)
      case ImplicitRazorExpressionToken(length, _) => Some(length)
      case ExplicitRazorExpressionToken(_, _) => Some(|ExplicitCode(child, source)|)
      case _ => None
    else None
  }

  /** Tokens that are written as running text. */
  predicate IsTextLike(t: Token) {
    t.TextToken? || t.ImplicitRazorExpressionToken? || t.ExplicitRazorExpressionToken?
  }

  /** The closing tag goes on a line of its own unless the element has at
      most one attribute and either no children or one short text child. */
  predicate CloseOnOwnLine(children: seq<Token>, attributes: seq<AttributeToken>, childLength: Option<nat>) {
    |attributes| > 1 || |children| > 1 ||
    (|children| > 0 && (childLength.None? || childLength.value >= 10 || |attributes| > 0))
  }

  // ------------------------------------------------------------ code blocks

  /** The elements among a code block's first `n` children, keyed by their
      count so far, as the routine collects them. */
  function ElementMap(children: seq<Token>, n: nat): map<string, Token>
    requires n <= |children|
  {
    if n == 0 then map[]
    else
      var m := ElementMap(children, n - 1);
      var c := children[n - 1];
      if c.ElementToken? then m[NatString(|m|) := c] else m
  }

  /** Every entry of the dictionary is one of the block's elements. */
  lemma {:induction false} ElementMapElements(children: seq<Token>, n: nat)
    requires n <= |children|
    ensures forall k :: k in ElementMap(children, n) ==>
              ElementMap(children, n)[k] in children && ElementMap(children, n)[k].ElementToken?
  {
    if n > 0 {
      ElementMapElements(children, n - 1);
    }
  }

  /** What a child adds to the code handed to the C# formatter when
      `count` elements came before it: a C# run verbatim, an element as a
      marker line with its key, anything else nothing. */
  function CodePiece(c: Token, source: string, env: Env, count: nat): string
    requires Within(c, source)
  {
    if c.CSharpToken? then Span(c, source)
    else if c.ElementToken? then env.newLine + (Marker + NatString(count)) + env.newLine
    else ""
  }

  /** The code for a block's first `n` children. */
  function CodeText(children: seq<Token>, n: nat, source: string, env: Env): string
    requires n <= |children|
    requires forall c :: c in children ==> Within(c, source)
  {
    if n == 0 then ""
    else
      assert children[n - 1] in children;
      CodeText(children, n - 1, source, env) + CodePiece(children[n - 1], source, env, |ElementMap(children, n - 1)|)
  }

  /** The lines of the C# formatter's output for a block's children: the
      output after the namespace line, CR and LF trimmed off its ends, split
      at CR and LF without empty lines. None when the output is shorter than
      the namespace line. */
  function FormattedLines(t: Token, source: string, env: Env, level: nat): Option<seq<string>>
    requires (t.CodeBlockToken? || t.ControlStructureToken?) && Within(t, source)
  {
    var formatted := env.formatCode(NamespaceLine + env.newLine + CodeText(t.children, |t.children|, source, env), 80 - 4 * level);
    if |formatted| < |NamespaceLine| then None
    else Some(SplitLines(Trimmed(formatted[|NamespaceLine|..], LineBreaks)))
  }

  /** The key of the element a marker line stands for: its second piece
      when split at `-`. */
  function MarkerKey(line: string): string
    requires HasInfix(line, Marker)
  {
    InfixHasChar(line, Marker, 14);
    SecondPiece(line, '-')
  }

  // ------------------------------------------------------ the token tree

  /** `FormatToken`: what a token writes at the given level. */
  function TokenText(t: Token, source: string, env: Env, level: nat, prefix: string, started: bool): Option<string>
    requires Within(t, source)
    decreases t, 3, 0
  {
    match t
    case ElementToken(_, _, _, _) => ElementText(t, source, env, level, false, prefix, started)
    case CommentToken(_, _, _, _, _, _) => Some(CommentText(t, source, env, level, prefix))
    case ExplicitRazorExpressionToken(_, _) => ExplicitText(t, source, env, level, prefix)
    case ImplicitRazorExpressionToken(_, _) => ImplicitText(t, source, env, level, prefix)
    case TextToken(_, _) => PlainText(t, source, env, level, prefix)
    case ControlStructureToken(_, _, _, _, _, _) => ControlText(t, source, env, level, prefix, started)
    case CodeBlockToken(_, _, _, _) => CodeBlockText(t, source, env, level, prefix, started)
    case NewLineToken(_) => Some(env.newLine)
    case _ => Some("")
  }

  /** `FormatElement`: the start tag; then, unless the element is void, its
      children without newlines (one short text child inline, otherwise one
      per line a level deeper, with consecutive text on one line) and the
      closing tag. */
  function ElementText(t: Token, source: string, env: Env, level: nat, sameLine: bool, prefix: string, started: bool)
    : Option<string>
    requires t.ElementToken? && Within(t, source)
    decreases t, 2, 0
  {
    var head := StartTag(t, source, env, level, sameLine, prefix, started);
    if Classifier.IsVoidElement(Name(t, source)) then Some(head)
    else
      var children := NonNewLines(t.children);
      var childLength := ChildLength(children, t.attributes, source);
      var body :=
        if childLength.Some? && childLength.value < 10 then
          assert children[0] in children;
          TokenText(children[0], source, env, 0, "", true)
        else ChildrenText(t, children, 0, source, env, level, prefix, false);
      var close :=
        (if CloseOnOwnLine(children, t.attributes, childLength) then env.newLine + Indented(env, prefix + "</", level)
         else "</") + Name(t, source) + ">";
      if body.None? then None else Some(head + body.value + close)
  }

  /** The children loop of `FormatElement` from child `k` on. */
  function ChildrenText(t: Token, children: seq<Token>, k: nat, source: string, env: Env, level: nat, prefix: string,
                        lastChildWasText: bool): Option<string>
    requires t.ElementToken? && Within(t, source)
    requires forall c :: c in children ==> c in t.children
    requires k <= |children|
    decreases t, 1, |children| - k
  {
    if k == |children| then Some("")
    else
      var child := children[k];
      assert child in t.children;
      var isText := IsTextLike(child);
      var piece :=
        if isText && lastChildWasText then Then(Some(" "), TokenText(child, source, env, 0, "", true))
        else TokenText(child, source, env, level + 1, prefix, true);
      Then(piece, ChildrenText(t, children, k + 1, source, env, level, prefix, isText))
  }

  /** What `FormatControlStructureToken` writes before the body: a blank
      line before it at the top level, a line break when nested; the trimmed
      opening, then the expression on the same line except for `@do`; the
      opening brace on a line of its own. */
  function ControlHead(env: Env, level: nat, prefix: string, open: string, expression: string, started: bool): string {
    (if started then (if level == 0 then env.newLine + env.newLine else env.newLine) else "") +
    Indented(env, prefix + open, level) + (if open != "@do" then " " + expression else "") +
    env.newLine + Indented(env, prefix + "{", level) + env.newLine
  }

  /** What `FormatControlStructureToken` writes after the body: the closing
      brace on a line of its own, followed by the expression for `@do`. */
  function ControlTail(env: Env, level: nat, prefix: string, open: string, expression: string): string {
    env.newLine + Indented(env, prefix + "}", level) + (if open == "@do" then " " + expression else "")
  }

  /** `FormatControlStructureToken`: the head, the body, the tail. */
  function ControlText(t: Token, source: string, env: Env, level: nat, prefix: string, started: bool): Option<string>
    requires t.ControlStructureToken? && Within(t, source)
    decreases t, 2, 0
  {
    match (TrimAsWritten(BlockOpen(t, source), WhiteSpace), TrimAsWritten(Expression(t, source), WhiteSpace))
    case (Some(open), Some(expression)) =>
      (match ContentText(t, source, env, level, prefix)
       case None => None
       case Some(body) =>
         Some(ControlHead(env, level, prefix, open, expression, started) + body +
              ControlTail(env, level, prefix, open, expression)))
    case _ => None
  }

  /** What `FormatCodeBlock` writes before the body: `@{` stays as it is;
      `@code {` and `@functions {` put the brace on a line of its own. The
      opening is a trimmed span, so it starts with a character that is not
      whitespace, and the trim of its keyword cannot throw
      (`TrimAsWrittenOfLeadingText`). */
  function CodeBlockHead(env: Env, level: nat, prefix: string, open: string, started: bool): string
    requires |open| >= 2 && open[0] !in WhiteSpace
  {
    (if started then env.newLine else "") +
    (if open[..2] == "@{" then Indented(env, prefix + "@{", level)
     else Indented(env, prefix + Trimmed(open[..|open| - 1], WhiteSpace), level) + env.newLine +
          Indented(env, prefix + "{", level)) +
    env.newLine
  }

  /** `FormatCodeBlock`: the head, the body, then the closing brace on a
      line of its own. None when the trimmed opening is shorter than two
      characters. */
  function CodeBlockText(t: Token, source: string, env: Env, level: nat, prefix: string, started: bool): Option<string>
    requires t.CodeBlockToken? && Within(t, source)
    decreases t, 2, 0
  {
    match TrimAsWritten(BlockOpen(t, source), WhiteSpace)
    case None => None
    case Some(open) =>
    TrimmedStartsOutside(BlockOpen(t, source), WhiteSpace);
    if |open| < 2 then None
    else
      match ContentText(t, source, env, level, prefix)
      case None => None
      case Some(body) =>
        Some(CodeBlockHead(env, level, prefix, open, started) + body +
             (env.newLine + Indented(env, prefix + BlockClose(t, source), level)))
  }

  /** `FormatCodeBlockContent`: the lines the C# formatter returns, with
      each marker line replaced by its element. */
  function ContentText(t: Token, source: string, env: Env, level: nat, prefix: string): Option<string>
    requires (t.CodeBlockToken? || t.ControlStructureToken?) && Within(t, source)
    decreases t, 1, 0
  {
    match FormattedLines(t, source, env, level)
    case None => None
    case Some(lines) =>
      ElementMapElements(t.children, |t.children|);
      LinesText(t, lines, 0, ElementMap(t.children, |t.children|), source, env, level, prefix, false)
  }

  /** The line loop of `FormatCodeBlockContent` from line `i` on. A marker
      line writes its element, after a line break when the previous line
      was C#; None when its key names no element. Other lines are C#,
      written one per line, indented, behind the prefix and the body
      indent. */
  function LinesText(t: Token, lines: seq<string>, i: nat, elements: map<string, Token>, source: string, env: Env,
                     level: nat, prefix: string, lastLineWasCSharp: bool): Option<string>
    requires (t.CodeBlockToken? || t.ControlStructureToken?) && Within(t, source)
    requires forall k :: k in elements ==> elements[k] in t.children && elements[k].ElementToken?
    requires i <= |lines|
    decreases t, 0, |lines| - i
  {
    if i == |lines| then Some("")
    else
      var line := lines[i];
      if HasInfix(line, Marker) then
        var key := MarkerKey(line);
        if key !in elements then None
        else
          var element := elements[key];
          assert element in t.children;
          Then(Some(if lastLineWasCSharp then env.newLine else ""),
               Then(ElementText(element, source, env, level, !lastLineWasCSharp, prefix + BodyIndent, true),
                    LinesText(t, lines, i + 1, elements, source, env, level, prefix, false)))
      else
        Then(Some((if i > 0 then env.newLine else "") + Indented(env, prefix + BodyIndent + line, level)),
             LinesText(t, lines, i + 1, elements, source, env, level, prefix, true))
  }

  /** `Format`'s loop over the top-level tokens from the first of `tokens`
      on, with `newLineCount` newline tokens pending and `started` telling
      whether anything has been written: pending newlines write one line
      break before the next other token; a final line break closes the
      output. */
  function TopLevelText(tokens: seq<Token>, source: string, env: Env, newLineCount: nat, started: bool): Option<string>
    requires forall t :: t in tokens ==> Within(t, source)
  {
    if tokens == [] then Some(env.newLine)
    else if tokens[0].NewLineToken? then TopLevelText(tokens[1..], source, env, newLineCount + 1, started)
    else
      var before := if newLineCount >= 1 then env.newLine else "";
      var started' := started || |before| > 0;
      match TokenText(tokens[0], source, env, 0, "", started')
      case None => None
      case Some(x) => Then(Some(before + x), TopLevelText(tokens[1..], source, env, 0, started' || |x| > 0))
  }

  /** Whatever the tokens, a formatted document ends with a line break. */
  lemma {:induction false} TopLevelEndsWithNewLine(tokens: seq<Token>, source: string, env: Env, newLineCount: nat,
                                                   started: bool)
    requires forall t :: t in tokens ==> Within(t, source)
    ensures var r := TopLevelText(tokens, source, env, newLineCount, started); r.Some? ==> EndsWith(r.value, env.newLine)
    decreases |tokens|
  {
    if tokens == [] {
      assert env.newLine[|env.newLine| - |env.newLine|..] == env.newLine;
    } else {
      var rest := tokens[1..];
      assert forall t :: t in rest ==> t in tokens;
      if tokens[0].NewLineToken? {
        TopLevelEndsWithNewLine(rest, source, env, newLineCount + 1, started);
      } else {
        var before := if newLineCount >= 1 then env.newLine else "";
        var started' := started || |before| > 0;
        match TokenText(tokens[0], source, env, 0, "", started')
        case None =>
        case Some(x) =>
          TopLevelEndsWithNewLine(rest, source, env, 0, started' || |x| > 0);
          var tail := TopLevelText(rest, source, env, 0, started' || |x| > 0);
          if tail.Some? {
            EndsWithAppend(before + x, tail.value, env.newLine);
          }
      }
    }
  }
}
