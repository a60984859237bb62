// The formatter's routines. Each appends to the output it is given and is
// proved to append exactly what module Layout says, or to fail (None) exactly
// when that says the source throws.

module Formatter {
  import opened Common
  import Classifier
  import opened Tokens
  import opened Text
  import opened Layout
  import Parser
  import Scanner
  import Lexemes

  /** Appending to the output piece by piece appends the pieces joined. */
  lemma Appended(output: string, text: string, piece: string)
    ensures output + text + piece == output + (text + piece)
  {
  }

  method FormatAttribute(a: AttributeToken, source: string, env: Env, level: nat, prefix: string, output: string)
    returns (r: string)
    requires AttributeWithin(a, source)
    ensures r == output + AttributeText(a, source, env, level, prefix)
  {
    var key := Key(a, source);
    if level > 0 {
      r := output + env.newLine;
      r := AppendIndented(r, prefix + key, level, env.tab);
    } else {
      r := output + key;
    }
    ghost var before := r;
    if a.valueLength > 0 {
      r := r + "=\"";
      r := r + AttributeValue(a, source);
      r := r + "\"";
    }
    assert r == before + AttributeValueText(a, source);
  }

  /** The character loop of `FormatComment` over multi-line content. */
  method AppendCommentLines(content: string, env: Env, level: nat, prefix: string, output: string) returns (r: string)
    ensures r == output + CommentBody(content, true, env, level, prefix)
  {
    r := output;
    var lastCharWasNewLine := true;
    var i := 0;
    while i < |content|
      invariant i <= |content|
      invariant r + CommentBody(content[i..], lastCharWasNewLine, env, level, prefix) ==
                output + CommentBody(content, true, env, level, prefix)
      decreases |content| - i
    {
      assert content[i..][1..] == content[i + 1..];
      if content[i] != '\n' && content[i] != '\r' {
        if lastCharWasNewLine {
          r := AppendIndented(r, prefix + [content[i]], level + 1, env.tab);
        } else {
          r := r + [content[i]];
        }
        lastCharWasNewLine := false;
      } else if lastCharWasNewLine {
      } else {
        r := r + env.newLine;
        lastCharWasNewLine := true;
      }
      i := i + 1;
    }
    assert content[i..] == [];
  }

  method FormatComment(c: Token, source: string, env: Env, level: nat, prefix: string, output: string)
    returns (r: string)
    requires c.CommentToken? && Within(c, source)
    ensures r == output + CommentText(c, source, env, level, prefix)
  {
    var content := Trimmed(CommentContent(c, source), WhiteSpace);
    r := AppendComment(CommentOpen(c, source), content, CommentClose(c, source), env, level, prefix, output);
  }

  /** The body of `FormatComment` once the parts are cut out of the source. */
  method AppendComment(open: string, content: string, close: string, env: Env, level: nat, prefix: string,
                       output: string) returns (r: string)
    ensures r == output + CommentLayout(open, content, close, env, level, prefix)
  {
    r := output + env.newLine;
    ghost var text := env.newLine;
    r := AppendIndented(r, prefix + open, level, env.tab);
    Appended(output, text, Indented(env, prefix + open, level));
    text := text + Indented(env, prefix + open, level);
    var hasMultipleLines := '\n' in content || '\r' in content;
    if !hasMultipleLines {
      r := r + " ";
      Appended(output, text, " ");
      text := text + " ";
      r := r + content;
      Appended(output, text, content);
      text := text + content;
      r := r + " ";
      Appended(output, text, " ");
      text := text + " ";
      r := r + close;
      Appended(output, text, close);
      return;
    }
    r := r + env.newLine;
    Appended(output, text, env.newLine);
    text := text + env.newLine;
    r := AppendCommentLines(content, env, level, prefix, r);
    Appended(output, text, CommentBody(content, true, env, level, prefix));
    text := text + CommentBody(content, true, env, level, prefix);
    r := r + env.newLine;
    Appended(output, text, env.newLine);
    text := text + env.newLine;
    r := AppendIndented(r, prefix + close, level, env.tab);
    Appended(output, text, Indented(env, prefix + close, level));
  }

  method FormatExplicitRazorExpression(e: Token, source: string, env: Env, level: nat, prefix: string, output: string)
    returns (r: Option<string>)
    requires e.ExplicitRazorExpressionToken? && Within(e, source)
    ensures r == After(output, ExplicitText(e, source, env, level, prefix))
  {
    var code := Trim(ExplicitCode(e, source), WhiteSpace);
    if code.None? {
      return None;
    }
    var value := prefix + ExplicitOpen(e, source) + code.value + ExplicitClose(e, source);
    var o;
    if level > 0 {
      o := output + env.newLine;
      o := AppendIndented(o, value, level, env.tab);
      Appended(output, env.newLine, Indented(env, value, level));
    } else {
      o := output + value;
    }
    r := Some(o);
  }

  method FormatImplicitRazorExpression(e: Token, source: string, env: Env, level: nat, prefix: string, output: string)
    returns (r: Option<string>)
    requires e.ImplicitRazorExpressionToken? && Within(e, source)
    ensures r == After(output, ImplicitText(e, source, env, level, prefix))
  {
    var trimmed := Trim(Span(e, source), WhiteSpace);
    if trimmed.None? {
      return None;
    }
    var value := prefix + trimmed.value;
    var o;
    if level > 0 {
      o := output + env.newLine;
      o := AppendIndented(o, value, level, env.tab);
      Appended(output, env.newLine, Indented(env, value, level));
    } else {
      o := output + value;
    }
    r := Some(o);
  }

  method FormatText(e: Token, source: string, env: Env, level: nat, prefix: string, output: string)
    returns (r: Option<string>)
    requires e.TextToken? && Within(e, source)
    ensures r == After(output, PlainText(e, source, env, level, prefix))
  {
    var value := Trim(Span(e, source), WhiteSpace);
    if value.None? {
      return None;
    }
    var o;
    if level > 0 {
      o := output + env.newLine;
      o := AppendIndented(o, prefix + value.value, level, env.tab);
      Appended(output, env.newLine, Indented(env, prefix + value.value, level));
    } else {
      o := output + value.value;
    }
    r := Some(o);
  }

  /** Appending a piece and then the rest is appending both. */
  lemma ThenAfter(output: string, piece: string, rest: Option<string>)
    ensures After(output, Then(Some(piece), rest)) == After(output + piece, rest)
  {
    if rest.Some? {
      Appended(output, piece, rest.value);
    }
  }

  /** The attribute loop of `FormatElement`, for any number of attributes
      but one. */
  /** One step of `FormatAttributes`: the attribute at `k` follows the ones before it. */
  method FormatNextAttribute(attributes: seq<AttributeToken>, k: nat, source: string, env: Env, level: nat, prefix: string,
                             output: string, done: string) returns (r: string)
    requires k < |attributes|
    requires forall a :: a in attributes ==> AttributeWithin(a, source)
    requires done == output + AttributesText(attributes, k, source, env, level, prefix)
    ensures r == output + AttributesText(attributes, k + 1, source, env, level, prefix)
  {
    AttributesTextStep(attributes, k + 1, source, env, level, prefix);
    Appended(output, AttributesText(attributes, k, source, env, level, prefix),
             AttributeText(attributes[k], source, env, level, prefix));
    r := FormatAttribute(attributes[k], source, env, level, prefix, done);
  }

  method FormatAttributes(attributes: seq<AttributeToken>, source: string, env: Env, level: nat, prefix: string,
                          output: string) returns (r: string)
    requires forall a :: a in attributes ==> AttributeWithin(a, source)
    ensures r == output + AttributesText(attributes, |attributes|, source, env, level, prefix)
  {
    r := output;
    var k := 0;
    while k < |attributes|
      invariant k <= |attributes|
      invariant r == output + AttributesText(attributes, k, source, env, level, prefix)
      decreases |attributes| - k
    {
      r := FormatNextAttribute(attributes, k, source, env, level, prefix, output, r);
      k := k + 1;
    }
  }

  /** The start tag part of `FormatElement`, through the `>`. */
  method FormatStartTag(t: Token, source: string, env: Env, level: nat, sameLine: bool, prefix: string, output: string)
    returns (r: string)
    requires t.ElementToken? && Within(t, source)
    ensures r == output + StartTag(t, source, env, level, sameLine, prefix, |output| > 0)
  {
    r := output;
    ghost var text: string := if |output| > 0 && !sameLine then env.newLine else "";
    if |output| > 0 && !sameLine {
      r := r + env.newLine;
    } else {
      assert r == output + text;
    }
    r := AppendIndented(r, prefix + "<", level, env.tab);
    Appended(output, text, Indented(env, prefix + "<", level));
    text := text + Indented(env, prefix + "<", level);
    r := r + Name(t, source);
    Appended(output, text, Name(t, source));
    text := text + Name(t, source);
    ghost var beforeAttributes := r;
    if |t.attributes| == 1 {
      r := r + " ";
      r := FormatAttribute(t.attributes[0], source, env, 0, "", r);
      Appended(beforeAttributes, " ", AttributeText(t.attributes[0], source, env, 0, ""));
    } else {
      r := FormatAttributes(t.attributes, source, env, level + 1, prefix, r);
    }
    ghost var attributes :=
      if |t.attributes| == 1 then " " + AttributeText(t.attributes[0], source, env, 0, "")
      else AttributesText(t.attributes, |t.attributes|, source, env, level + 1, prefix);
    Appended(output, text, attributes);
    text := text + attributes;
    r := r + ">";
    Appended(output, text, ">");
  }

  method FormatToken(t: Token, source: string, env: Env, level: nat, prefix: string, output: string)
    returns (r: Option<string>)
    requires Within(t, source)
    ensures r == After(output, TokenText(t, source, env, level, prefix, |output| > 0))
    decreases t, 3, 0
  {
    match t
    case ElementToken(_, _, _, _) =>
      r := FormatElement(t, source, env, level, false, prefix, output);
    case CommentToken(_, _, _, _, _, _) =>
      var s := FormatComment(t, source, env, level, prefix, output);
      r := Some(s);
    case ExplicitRazorExpressionToken(_, _) =>
      r := FormatExplicitRazorExpression(t, source, env, level, prefix, output);
    case ImplicitRazorExpressionToken(_, _) =>
      r := FormatImplicitRazorExpression(t, source, env, level, prefix, output);
    case TextToken(_, _) =>
      r := FormatText(t, source, env, level, prefix, output);
    case ControlStructureToken(_, _, _, _, _, _) =>
      r := FormatControlStructureToken(t, source, env, level, prefix, output);
    case CodeBlockToken(_, _, _, _) =>
      r := FormatCodeBlock(t, source, env, level, prefix, output);
    case NewLineToken(_) =>
      r := Some(output + env.newLine);
    case _ =>
      assert output + "" == output;
      r := Some(output);
  }

  /** The children loop of `FormatElement`. */
  method FormatChildren(t: Token, children: seq<Token>, source: string, env: Env, level: nat, prefix: string,
                        output: string) returns (r: Option<string>)
    requires t.ElementToken? && Within(t, source)
    requires forall c :: c in children ==> c in t.children
    requires |output| > 0
    ensures r == After(output, ChildrenText(t, children, 0, source, env, level, prefix, false))
    decreases t, 1, 0
  {
    var o := output;
    var lastChildWasText := false;
    var k := 0;
    while k < |children|
      invariant k <= |children| && |o| > 0
      invariant After(o, ChildrenText(t, children, k, source, env, level, prefix, lastChildWasText)) ==
                After(output, ChildrenText(t, children, 0, source, env, level, prefix, false))
      decreases |children| - k
    {
      var child := children[k];
      assert child in t.children;
      var isText := IsTextLike(child);
      ghost var rest := ChildrenText(t, children, k + 1, source, env, level, prefix, isText);
      var x;
      if isText && lastChildWasText {
        ghost var before := o;
        o := o + " ";
        x := FormatToken(child, source, env, 0, "", o);
        if x.Some? {
          ghost var piece := TokenText(child, source, env, 0, "", true).value;
          Appended(before, " ", piece);
          ThenAfter(before, " " + piece, rest);
        }
      } else {
        x := FormatToken(child, source, env, level + 1, prefix, o);
        if x.Some? {
          ThenAfter(o, TokenText(child, source, env, level + 1, prefix, true).value, rest);
        }
      }
      if x.None? {
        return None;
      }
      o := x.value;
      lastChildWasText := isText;
      k := k + 1;
    }
    assert o + "" == o;
    r := Some(o);
  }

  method FormatElement(t: Token, source: string, env: Env, level: nat, sameLine: bool, prefix: string, output: string)
    returns (r: Option<string>)
    requires t.ElementToken? && Within(t, source)
    ensures r == After(output, ElementText(t, source, env, level, sameLine, prefix, |output| > 0))
    decreases t, 2, 0
  {
    var o := FormatStartTag(t, source, env, level, sameLine, prefix, output);
    ghost var head := StartTag(t, source, env, level, sameLine, prefix, |output| > 0);
    var name := Name(t, source);
    if Classifier.IsVoidElement(name) {
      return Some(o);
    }
    var children := NonNewLines(t.children);
    var childLength := ChildLength(children, t.attributes, source);
    assert |o| > 0;
    var x;
    ghost var body: Option<string>;
    if childLength.Some? && childLength.value < 10 {
      assert children[0] in children;
      x := FormatToken(children[0], source, env, 0, "", o);
      body := TokenText(children[0], source, env, 0, "", true);
    } else {
      x := FormatChildren(t, children, source, env, level, prefix, o);
      body := ChildrenText(t, children, 0, source, env, level, prefix, false);
    }
    if x.None? {
      return None;
    }
    ghost var text := body.value;
    Appended(output, head, text);
    text := head + text;
    o := x.value;
    ghost var afterBody := o;
    ghost var opening: string;
    if CloseOnOwnLine(children, t.attributes, childLength) {
      o := o + env.newLine;
      o := AppendIndented(o, prefix + "</", level, env.tab);
      opening := env.newLine + Indented(env, prefix + "</", level);
      Appended(afterBody, env.newLine, Indented(env, prefix + "</", level));
    } else {
      o := o + "</";
      opening := "</";
    }
    o := o + name;
    Appended(afterBody, opening, name);
    o := o + ">";
    Appended(afterBody, opening + name, ">");
    Appended(output, text, opening + name + ">");
    r := Some(o);
  }

  method FormatControlStructureToken(t: Token, source: string, env: Env, level: nat, prefix: string, output: string)
    returns (r: Option<string>)
    requires t.ControlStructureToken? && Within(t, source)
    ensures r == After(output, ControlText(t, source, env, level, prefix, |output| > 0))
    decreases t, 2, 0
  {
    var trimmedOpen := Trim(BlockOpen(t, source), WhiteSpace);
    var trimmedExpression := Trim(Expression(t, source), WhiteSpace);
    if trimmedOpen.None? || trimmedExpression.None? {
      return None;
    }
    var open, expression := trimmedOpen.value, trimmedExpression.value;
    var o := AppendControlHead(open, expression, env, level, prefix, output);
    ghost var head := ControlHead(env, level, prefix, open, expression, |output| > 0);
    var x := FormatCodeBlockContent(t, source, env, level, prefix, o);
    if x.None? {
      return None;
    }
    ghost var body := ContentText(t, source, env, level, prefix).value;
    Appended(output, head, body);
    o := AppendControlTail(open, expression, env, level, prefix, x.value);
    Appended(output, head + body, ControlTail(env, level, prefix, open, expression));
    r := Some(o);
  }

  /** The part of `FormatControlStructureToken` before the body. */
  method AppendControlHead(open: string, expression: string, env: Env, level: nat, prefix: string, output: string)
    returns (r: string)
    ensures r == output + ControlHead(env, level, prefix, open, expression, |output| > 0)
    ensures |r| > 0
  {
    r := output;
    ghost var text: string := if |output| > 0 then (if level == 0 then env.newLine + env.newLine else env.newLine) else "";
    if |r| > 0 {
      if level == 0 {
        r := r + env.newLine;
      }
      r := r + env.newLine;
      if level == 0 {
        Appended(output, env.newLine, env.newLine);
      }
    } else {
      assert r == output + text;
    }
    r := AppendIndented(r, prefix + open, level, env.tab);
    Appended(output, text, Indented(env, prefix + open, level));
    text := text + Indented(env, prefix + open, level);
    var isDoWhile := open == "@do";
    ghost var afterOpen := r;
    if !isDoWhile {
      r := r + " ";
      r := r + expression;
      Appended(afterOpen, " ", expression);
    } else {
      assert r == afterOpen + "";
    }
    ghost var inline := if !isDoWhile then " " + expression else "";
    Appended(output, text, inline);
    text := text + inline;
    r := r + env.newLine;
    Appended(output, text, env.newLine);
    text := text + env.newLine;
    r := AppendIndented(r, prefix + "{", level, env.tab);
    Appended(output, text, Indented(env, prefix + "{", level));
    text := text + Indented(env, prefix + "{", level);
    r := r + env.newLine;
    Appended(output, text, env.newLine);
  }

  /** The part of `FormatControlStructureToken` after the body. */
  method AppendControlTail(open: string, expression: string, env: Env, level: nat, prefix: string, output: string)
    returns (r: string)
    ensures r == output + ControlTail(env, level, prefix, open, expression)
  {
    r := output + env.newLine;
    r := AppendIndented(r, prefix + "}", level, env.tab);
    Appended(output, env.newLine, Indented(env, prefix + "}", level));
    ghost var close := env.newLine + Indented(env, prefix + "}", level);
    ghost var afterClose := r;
    if open == "@do" {
      r := r + " ";
      r := r + expression;
      Appended(afterClose, " ", expression);
    } else {
      assert r == afterClose + "";
    }
    Appended(output, close, if open == "@do" then " " + expression else "");
  }

  method FormatCodeBlock(t: Token, source: string, env: Env, level: nat, prefix: string, output: string)
    returns (r: Option<string>)
    requires t.CodeBlockToken? && Within(t, source)
    ensures r == After(output, CodeBlockText(t, source, env, level, prefix, |output| > 0))
    decreases t, 2, 0
  {
    var trimmed := Trim(BlockOpen(t, source), WhiteSpace);
    if trimmed.None? || |trimmed.value| < 2 {
      return None;
    }
    var open := trimmed.value;
    TrimmedStartsOutside(BlockOpen(t, source), WhiteSpace);
    var o := AppendCodeBlockHead(open, env, level, prefix, output);
    ghost var head := CodeBlockHead(env, level, prefix, open, |output| > 0);
    var x := FormatCodeBlockContent(t, source, env, level, prefix, o);
    if x.None? {
      return None;
    }
    ghost var body := ContentText(t, source, env, level, prefix).value;
    Appended(output, head, body);
    o := x.value;
    ghost var afterBody := o;
    o := o + env.newLine;
    o := AppendIndented(o, prefix + BlockClose(t, source), level, env.tab);
    Appended(afterBody, env.newLine, Indented(env, prefix + BlockClose(t, source), level));
    Appended(output, head + body, env.newLine + Indented(env, prefix + BlockClose(t, source), level));
    r := Some(o);
  }

  /** The part of `FormatCodeBlock` before the body. */
  method AppendCodeBlockHead(open: string, env: Env, level: nat, prefix: string, output: string) returns (r: string)
    requires |open| >= 2 && open[0] !in WhiteSpace
    ensures r == output + CodeBlockHead(env, level, prefix, open, |output| > 0)
    ensures |r| > 0
  {
    r := output;
    ghost var text: string := if |output| > 0 then env.newLine else "";
    if |r| > 0 {
      r := r + env.newLine;
    } else {
      assert r == output + text;
    }
    ghost var afterNewLine := r;
    ghost var opening: string;
    if open[..2] == "@{" {
      r := AppendIndented(r, prefix + "@{", level, env.tab);
      opening := Indented(env, prefix + "@{", level);
    } else {
      TrimAsWrittenOfLeadingText(open[..|open| - 1], WhiteSpace);
      var trimmed := Trim(open[..|open| - 1], WhiteSpace);
      var keyword := trimmed.value;
      r := AppendIndented(r, prefix + keyword, level, env.tab);
      r := r + env.newLine;
      Appended(afterNewLine, Indented(env, prefix + keyword, level), env.newLine);
      ghost var line := Indented(env, prefix + keyword, level) + env.newLine;
      r := AppendIndented(r, prefix + "{", level, env.tab);
      Appended(afterNewLine, line, Indented(env, prefix + "{", level));
      opening := line + Indented(env, prefix + "{", level);
    }
    Appended(output, text, opening);
    text := text + opening;
    r := r + env.newLine;
    Appended(output, text, env.newLine);
  }

  /** One child of the first loop of `FormatCodeBlockContent`: a C# run is
      copied, an element gets a marker line and an entry in the dictionary. */
  method CollectChild(child: Token, source: string, env: Env, code: string, elements: map<string, Token>)
    returns (code': string, elements': map<string, Token>)
    requires Within(child, source)
    ensures code' == code + CodePiece(child, source, env, |elements|)
    ensures elements' == if child.ElementToken? then elements[NatString(|elements|) := child] else elements
  {
    code' := code;
    elements' := elements;
    if child.CSharpToken? {
      code' := code' + Span(child, source);
    } else if child.ElementToken? {
      var key := NatString(|elements'|);
      code' := code' + env.newLine;
      code' := code' + (Marker + key);
      Appended(code, env.newLine, Marker + key);
      code' := code' + env.newLine;
      Appended(code, env.newLine + (Marker + key), env.newLine);
      elements' := elements'[key := child];
    } else {
      assert code' == code + "";
    }
  }

  /** One more child adds its piece to the code and, for an element, one
      entry to the dictionary. */
  lemma CodeTextStep(children: seq<Token>, k: nat, source: string, env: Env)
    requires k < |children| && forall c :: c in children ==> Within(c, source)
    ensures children[k] in children
    ensures CodeText(children, k + 1, source, env) ==
            CodeText(children, k, source, env) + CodePiece(children[k], source, env, |ElementMap(children, k)|)
    ensures ElementMap(children, k + 1) ==
            if children[k].ElementToken? then ElementMap(children, k)[NatString(|ElementMap(children, k)|) := children[k]]
            else ElementMap(children, k)
  {
    assert children[k] in children;
  }

  /** The code handed to the C# formatter and the element dictionary, built
      by the first loop of `FormatCodeBlockContent`. */
  method CollectCode(t: Token, source: string, env: Env) returns (code: string, elements: map<string, Token>)
    requires (t.CodeBlockToken? || t.ControlStructureToken?) && Within(t, source)
    ensures code == NamespaceLine + env.newLine + CodeText(t.children, |t.children|, source, env)
    ensures elements == ElementMap(t.children, |t.children|)
  {
    var children := t.children;
    assert forall c :: c in children ==> Within(c, source);
    code := NamespaceLine;
    code := code + env.newLine;
    ghost var start := code;
    elements := map[];
    var k := 0;
    while k < |children|
      invariant k <= |children|
      invariant code == start + CodeText(children, k, source, env)
      invariant elements == ElementMap(children, k)
      decreases |children| - k
    {
      var child := children[k];
      CodeTextStep(children, k, source, env);
      Appended(start, CodeText(children, k, source, env), CodePiece(child, source, env, |elements|));
      code, elements := CollectChild(child, source, env, code, elements);
      k := k + 1;
    }
  }

  method FormatCodeBlockContent(t: Token, source: string, env: Env, level: nat, prefix: string, output: string)
    returns (r: Option<string>)
    requires (t.CodeBlockToken? || t.ControlStructureToken?) && Within(t, source)
    requires |output| > 0
    ensures r == After(output, ContentText(t, source, env, level, prefix))
    decreases t, 1, 0
  {
    var code, elements := CollectCode(t, source, env);
    ElementMapElements(t.children, |t.children|);
    var formatted := env.formatCode(code, 80 - 4 * level);
    if |formatted| < |NamespaceLine| {
      assert FormattedLines(t, source, env, level).None?;
      return None;
    }
    var lines := SplitLines(Trimmed(formatted[|NamespaceLine|..], LineBreaks));
    assert FormattedLines(t, source, env, level) == Some(lines);
    r := FormatLines(t, lines, elements, source, env, level, prefix, output);
  }

  /** The second loop of `FormatCodeBlockContent`, over the lines the C#
      formatter returned. */
  method FormatLines(t: Token, lines: seq<string>, elements: map<string, Token>, source: string, env: Env,
                     level: nat, prefix: string, output: string) returns (r: Option<string>)
    requires (t.CodeBlockToken? || t.ControlStructureToken?) && Within(t, source)
    requires forall k :: k in elements ==> elements[k] in t.children && elements[k].ElementToken?
    requires |output| > 0
    ensures r == After(output, LinesText(t, lines, 0, elements, source, env, level, prefix, false))
    decreases t, 0, 1
  {
    var lastLineWasCSharp := false;
    var o := output;
    var i := 0;
    while i < |lines|
      invariant i <= |lines| && |o| > 0
      invariant After(o, LinesText(t, lines, i, elements, source, env, level, prefix, lastLineWasCSharp)) ==
                After(output, LinesText(t, lines, 0, elements, source, env, level, prefix, false))
      decreases |lines| - i
    {
      var x := FormatLine(t, lines, i, elements, source, env, level, prefix, lastLineWasCSharp, o);
      if x.None? {
        return None;
      }
      o := x.value;
      lastLineWasCSharp := !HasInfix(lines[i], Marker);
      i := i + 1;
    }
    assert o + "" == o;
    r := Some(o);
  }

  /** One line of the second loop of `FormatCodeBlockContent`: a marker line
      writes its element, any other line is written as C#. */
  method FormatLine(t: Token, lines: seq<string>, i: nat, elements: map<string, Token>, source: string, env: Env,
                    level: nat, prefix: string, lastLineWasCSharp: bool, output: string) returns (r: Option<string>)
    requires (t.CodeBlockToken? || t.ControlStructureToken?) && Within(t, source)
    requires forall k :: k in elements ==> elements[k] in t.children && elements[k].ElementToken?
    requires i < |lines| && |output| > 0
    ensures r.None? ==> LinesText(t, lines, i, elements, source, env, level, prefix, lastLineWasCSharp).None?
    ensures r.Some? ==> |output| <= |r.value|
    ensures r.Some? ==>
              After(output, LinesText(t, lines, i, elements, source, env, level, prefix, lastLineWasCSharp)) ==
              After(r.value, LinesText(t, lines, i + 1, elements, source, env, level, prefix, !HasInfix(lines[i], Marker)))
    decreases t, 0, 0
  {
    var line := lines[i];
    var o := output;
    if HasInfix(line, Marker) {
      ghost var breakBefore := if lastLineWasCSharp then env.newLine else "";
      if lastLineWasCSharp {
        o := o + env.newLine;
      } else {
        assert o == output + breakBefore;
      }
      var key := MarkerKey(line);
      if key !in elements {
        return None;
      }
      var element := elements[key];
      assert element in t.children;
      ghost var rest := LinesText(t, lines, i + 1, elements, source, env, level, prefix, false);
      ghost var elementText := ElementText(element, source, env, level, !lastLineWasCSharp, prefix + BodyIndent, true);
      r := FormatElement(element, source, env, level, !lastLineWasCSharp, prefix + BodyIndent, o);
      if r.Some? {
        ThenAfter(output, breakBefore, Then(elementText, rest));
        ThenAfter(o, elementText.value, rest);
      }
    } else {
      ghost var breakBefore := if i > 0 then env.newLine else "";
      if i > 0 {
        o := o + env.newLine;
      } else {
        assert o == output + breakBefore;
      }
      o := AppendIndented(o, prefix + BodyIndent + line, level, env.tab);
      Appended(output, breakBefore, Indented(env, prefix + BodyIndent + line, level));
      ThenAfter(output, breakBefore + Indented(env, prefix + BodyIndent + line, level),
                LinesText(t, lines, i + 1, elements, source, env, level, prefix, true));
      r := Some(o);
    }
  }

  /** `Format` on parsed tokens: newline tokens only count, and the next
      other token is preceded by one line break when any are pending. */
  method FormatTokens(tokens: seq<Token>, source: string, env: Env) returns (r: Option<string>)
    requires forall t :: t in tokens ==> Within(t, source)
    ensures r == TopLevelText(tokens, source, env, 0, false)
  {
    var output := "";
    var newLineCount := 0;
    var i := 0;
    assert tokens[0..] == tokens;
    ghost var whole := TopLevelText(tokens, source, env, 0, false);
    assert whole.Some? ==> "" + whole.value == whole.value;
    while i < |tokens|
      invariant i <= |tokens|
      invariant After(output, TopLevelText(tokens[i..], source, env, newLineCount, |output| > 0)) == whole
      decreases |tokens| - i
    {
      var token := tokens[i];
      assert token in tokens;
      assert tokens[i..][1..] == tokens[i + 1..];
      var isNewLine := token.NewLineToken?;
      if !isNewLine {
        ghost var before := output;
        ghost var pendingText := if newLineCount >= 1 then env.newLine else "";
        var pending := if newLineCount < 1 then newLineCount else 1;
        for j := 0 to pending
          invariant output == before + (if j >= 1 then env.newLine else "")
        {
          output := output + env.newLine;
        }
        assert output == before + pendingText;
        ghost var rest := tokens[i + 1..];
        var x := FormatToken(token, source, env, 0, "", output);
        if x.None? {
          return None;
        }
        ghost var piece := TokenText(token, source, env, 0, "", |output| > 0).value;
        Appended(before, pendingText, piece);
        ThenAfter(before, pendingText + piece, TopLevelText(rest, source, env, 0, |x.value| > 0));
        output := x.value;
        newLineCount := 0;
      } else {
        newLineCount := newLineCount + 1;
      }
      i := i + 1;
    }
    assert tokens[i..] == [];
    output := output + env.newLine;
    r := Some(output);
  }

  /** `Format`: parse the source, then lay the tokens out; `newLine` is the
      platform's line break and `formatCode` the C# formatter. `parsed` is
      what the parser returned, with the tokens, where each begins and ends,
      and on failure the lexeme it failed at (see `Parser.Outcome`). None when
      the parser throws; otherwise the output is the top-level layout of the
      tokens, so it ends with a line break unless the layout throws. */
  method Format(source: string, tab: string, newLine: string, formatCode: (string, int) -> string)
    returns (r: Option<string>, ghost parsed: Option<seq<Token>>, ghost tokens: seq<Token>, ghost starts: seq<nat>,
             ghost ends: seq<nat>, ghost at: nat)
    ensures Lexemes.Ordered(Scanner.Scan(source), source)
    ensures Parser.Outcome(Scanner.Scan(source), source, parsed, tokens, starts, ends, at)
    ensures parsed.None? ==> r.None?
    ensures parsed.Some? ==> r == TopLevelText(tokens, source, Env(newLine, tab, formatCode), 0, false)
    ensures r.Some? ==> EndsWith(r.value, newLine)
  {
    var result;
    result, tokens, starts, ends, at := Parser.ParseSource(source);
    parsed := result;
    if result.None? {
      return None, parsed, tokens, starts, ends, at;
    }
    var env := Env(newLine, tab, formatCode);
    r := FormatTokens(result.value, source, env);
    TopLevelEndsWithNewLine(result.value, source, env, 0, false);
  }
}
