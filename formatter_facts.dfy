// Properties of the formatter's layout: blank lines collapse, multi-line
// comments are re-indented line by line, a code block's elements come back
// from their marker lines, short elements stay on one line, and worked
// examples of whole documents.

module FormatterFacts {
  import opened Common
  import Classifier
  import opened Tokens
  import opened Text
  import opened Layout

  // ------------------------------------------------------------ blank lines

  /** Pending newlines write one line break whatever their number. */
  lemma {:induction false} PendingNewLinesCountOnce(tokens: seq<Token>, source: string, env: Env, newLineCount: nat,
                                                    started: bool)
    requires forall t :: t in tokens ==> Within(t, source)
    requires newLineCount >= 1
    ensures TopLevelText(tokens, source, env, newLineCount, started) == TopLevelText(tokens, source, env, 1, started)
    decreases |tokens|
  {
    if tokens != [] && tokens[0].NewLineToken? {
      assert forall t :: t in tokens[1..] ==> t in tokens;
      PendingNewLinesCountOnce(tokens[1..], source, env, newLineCount + 1, started);
      PendingNewLinesCountOnce(tokens[1..], source, env, 2, started);
    }
  }

  /** A run of newline tokens only adds to the pending count. */
  lemma {:induction false} NewLineRunIsPending(run: seq<Token>, rest: seq<Token>, source: string, env: Env,
                                               newLineCount: nat, started: bool)
    requires forall t :: t in run ==> t.NewLineToken? && Within(t, source)
    requires forall t :: t in rest ==> Within(t, source)
    ensures TopLevelText(run + rest, source, env, newLineCount, started) ==
            TopLevelText(rest, source, env, newLineCount + |run|, started)
    decreases |run|
  {
    if run == [] {
      assert run + rest == rest;
    } else {
      assert (run + rest)[0] == run[0];
      assert (run + rest)[1..] == run[1..] + rest;
      assert run[0] in run;
      NewLineRunIsPending(run[1..], rest, source, env, newLineCount + 1, started);
    }
  }

  /** Between two top-level tokens, any number of blank lines (one newline
      token or more) comes out as exactly one line break. */
  lemma BlankLinesCollapse(run: seq<Token>, rest: seq<Token>, source: string, env: Env, started: bool)
    requires run != [] && forall t :: t in run ==> t.NewLineToken? && Within(t, source)
    requires forall t :: t in rest ==> Within(t, source)
    ensures TopLevelText(run + rest, source, env, 0, started) == TopLevelText(rest, source, env, 1, started)
  {
    NewLineRunIsPending(run, rest, source, env, 0, started);
    PendingNewLinesCountOnce(rest, source, env, |run|, started);
  }

  // ------------------------------------------------------------ comments

  /** The lines of a comment, each indented one level deeper than the
      comment, joined by line breaks. */
  function IndentedLines(lines: seq<string>, env: Env, level: nat, prefix: string): string {
    if lines == [] then ""
    else if |lines| == 1 then Indented(env, prefix + lines[0], level + 1)
    else Indented(env, prefix + lines[0], level + 1) + (env.newLine + IndentedLines(lines[1..], env, level, prefix))
  }

  /** Inside a line the comment loop copies characters as they are. */
  lemma {:induction false} CommentBodyCopiesRun(s: string, env: Env, level: nat, prefix: string)
    ensures CommentBody(s, false, env, level, prefix) ==
            s[..RunLength(s)] + CommentBody(s[RunLength(s)..], false, env, level, prefix)
    decreases |s|
  {
    if s != [] && !IsLineBreak(s[0]) {
      var n := RunLength(s);
      assert RunLength(s[1..]) == n - 1;
      assert s[1..][..n - 1] == s[1..n];
      assert s[1..][n - 1..] == s[n..];
      var rest := CommentBody(s[n..], false, env, level, prefix);
      calc {
        CommentBody(s, false, env, level, prefix);
        [s[0]] + CommentBody(s[1..], false, env, level, prefix);
        { CommentBodyCopiesRun(s[1..], env, level, prefix); }
        [s[0]] + (s[1..n] + rest);
        [s[0]] + s[1..n] + rest;
        { assert s[..n] == [s[0]] + s[1..n]; }
        s[..n] + rest;
      }
    }
  }

  /** A line starting after a break is indented, then copied. */
  lemma CommentBodyLine(s: string, env: Env, level: nat, prefix: string)
    requires s != [] && !IsLineBreak(s[0])
    ensures CommentBody(s, true, env, level, prefix) ==
            Indented(env, prefix + s[..RunLength(s)], level + 1) + CommentBody(s[RunLength(s)..], false, env, level, prefix)
  {
    var n := RunLength(s);
    assert RunLength(s[1..]) == n - 1;
    assert s[1..][..n - 1] == s[1..n];
    assert s[1..][n - 1..] == s[n..];
    var indent := Indent(env.tab, level + 1);
    var rest := CommentBody(s[n..], false, env, level, prefix);
    calc {
      CommentBody(s, true, env, level, prefix);
      indent + (prefix + [s[0]]) + CommentBody(s[1..], false, env, level, prefix);
      { CommentBodyCopiesRun(s[1..], env, level, prefix); }
      indent + (prefix + [s[0]]) + (s[1..n] + rest);
      indent + (prefix + [s[0]]) + s[1..n] + rest;
      { assert indent + (prefix + [s[0]]) + s[1..n] == indent + (prefix + s[..n]); }
      indent + (prefix + s[..n]) + rest;
    }
  }

  /** A line followed by more lines. */
  lemma IndentedLinesCons(line: string, lines: seq<string>, env: Env, level: nat, prefix: string)
    requires lines != []
    ensures IndentedLines([line] + lines, env, level, prefix) ==
            Indented(env, prefix + line, level + 1) + (env.newLine + IndentedLines(lines, env, level, prefix))
  {
    assert ([line] + lines)[0] == line;
    assert ([line] + lines)[1..] == lines;
  }

  /** After a line's last character, a break starts the next line. */
  lemma CommentBodyBreak(s: string, env: Env, level: nat, prefix: string)
    requires s != [] && IsLineBreak(s[0])
    ensures CommentBody(s, false, env, level, prefix) == env.newLine + CommentBody(s[1..], true, env, level, prefix)
  {
  }

  /** The comment loop writes exactly the content's lines (its CR/LF-free
      pieces), each indented one level deeper, one per line, whenever the
      content does not end with a break. */
  lemma {:induction false} CommentBodyIsIndentedLines(s: string, env: Env, level: nat, prefix: string)
    requires s == [] || !IsLineBreak(s[|s| - 1])
    ensures CommentBody(s, true, env, level, prefix) == IndentedLines(SplitLines(s), env, level, prefix)
    decreases |s|
  {
    if s == [] {
    } else if IsLineBreak(s[0]) {
      CommentBodyIsIndentedLines(s[1..], env, level, prefix);
    } else {
      var n := RunLength(s);
      var line := s[..n];
      CommentBodyLine(s, env, level, prefix);
      assert SplitLines(s) == [line] + SplitLines(s[n..]);
      if n == |s| {
        assert s[n..] == [];
        assert SplitLines(s) == [line];
        assert CommentBody(s, true, env, level, prefix) == Indented(env, prefix + line, level + 1) + "";
      } else {
        var rest := s[n + 1..];
        assert rest != [] && rest[|rest| - 1] == s[|s| - 1];
        CommentBodyIsIndentedLines(rest, env, level, prefix);
        assert s[n..][1..] == rest;
        CommentBodyBreak(s[n..], env, level, prefix);
        assert SplitLines(s[n..]) == SplitLines(rest);
        SplitLinesNonEmpty(rest, |rest| - 1);
        IndentedLinesCons(line, SplitLines(rest), env, level, prefix);
      }
    }
  }

  /** How `FormatComment` lays out a comment: on one line between the
      delimiters when the trimmed content has no line break; otherwise the
      opening, the content's lines one level deeper, and the closing, each
      on a line of its own. */
  lemma CommentLines(c: Token, source: string, env: Env, level: nat, prefix: string)
    requires c.CommentToken? && Within(c, source)
    ensures var content := Trimmed(CommentContent(c, source), WhiteSpace);
            var head := env.newLine + Indented(env, prefix + CommentOpen(c, source), level);
            CommentText(c, source, env, level, prefix) ==
            if |SplitLines(content)| <= 1 then head + " " + content + " " + CommentClose(c, source)
            else head + env.newLine + IndentedLines(SplitLines(content), env, level, prefix) + env.newLine +
                 Indented(env, prefix + CommentClose(c, source), level)
  {
    var content := Trimmed(CommentContent(c, source), WhiteSpace);
    TrimmedWindow(CommentContent(c, source), WhiteSpace);
    if '\n' in content || '\r' in content {
      CommentBodyIsIndentedLines(content, env, level, prefix);
      SplitLinesHasBreak(content);
    } else if content != [] {
      SplitLinesOfLine(content);
    }
  }

  /** A content with a break inside and none at its ends has several lines. */
  lemma SplitLinesHasBreak(s: string)
    requires '\n' in s || '\r' in s
    requires s != [] && !IsLineBreak(s[0]) && !IsLineBreak(s[|s| - 1])
    ensures |SplitLines(s)| > 1
  {
    var n := RunLength(s);
    assert n < |s| by {
      var k :| 0 <= k < |s| && IsLineBreak(s[k]);
    }
    assert SplitLines(s) == [s[..n]] + SplitLines(s[n..]);
    assert s[n..][1..] == s[n + 1..];
    SplitLinesNonEmpty(s[n + 1..], |s| - n - 2);
  }

  // ------------------------------------------------------- marker lines

  /** The elements among the first `n` children, in order. */
  function ElementsOf(children: seq<Token>, n: nat): (r: seq<Token>)
    requires n <= |children|
    ensures |r| <= n
  {
    if n == 0 then []
    else ElementsOf(children, n - 1) + (if children[n - 1].ElementToken? then [children[n - 1]] else [])
  }

  /** The elements of a shorter prefix come first among those of a longer one. */
  lemma {:induction false} ElementsOfPrefix(children: seq<Token>, m: nat, n: nat)
    requires m <= n <= |children|
    ensures ElementsOf(children, m) <= ElementsOf(children, n)
    decreases n - m
  {
    if m < n {
      ElementsOfPrefix(children, m, n - 1);
    }
  }

  /** The dictionary `FormatCodeBlockContent` builds numbers the block's
      elements: the key of the `j`-th element is the spelling of `j`, and
      these are all its keys. */
  lemma {:induction false} ElementMapNumbersElements(children: seq<Token>, n: nat)
    requires n <= |children|
    ensures |ElementMap(children, n)| == |ElementsOf(children, n)|
    ensures forall j: nat :: NatString(j) in ElementMap(children, n) <==> j < |ElementsOf(children, n)|
    ensures forall j: nat :: j < |ElementsOf(children, n)| ==> ElementMap(children, n)[NatString(j)] == ElementsOf(children, n)[j]
    ensures forall key :: key in ElementMap(children, n) ==> exists j: nat :: j < |ElementsOf(children, n)| && key == NatString(j)
  {
    if n > 0 {
      ElementMapNumbersElements(children, n - 1);
      var m := ElementMap(children, n - 1);
      var e := ElementsOf(children, n - 1);
      var c := children[n - 1];
      if c.ElementToken? {
        var key := NatString(|m|);
        assert key !in m;
        forall j: nat
          ensures NatString(j) in m[key := c] <==> j < |e| + 1
          ensures j < |e| + 1 ==> m[key := c][NatString(j)] == (e + [c])[j]
        {
          NatStringInjective(j, |m|);
        }
      }
    }
  }

  /** A marker line, whatever the C# formatter put before it (short of a
      `-`), is recognised, and its key is the number it was written with. */
  lemma MarkerKeyRoundTrip(indent: string, n: nat)
    requires '-' !in indent
    ensures HasInfix(indent + Marker + NatString(n), Marker)
    ensures MarkerKey(indent + Marker + NatString(n)) == NatString(n)
  {
    var digits := NatString(n);
    var head := indent + "//ElementToken";
    var line := indent + Marker + digits;
    assert line == head + ['-'] + digits by {
      assert Marker == "//ElementToken" + ['-'];
    }
    assert HasInfix(line, Marker) by {
      assert line[|indent|..|indent| + |Marker|] == Marker;
      InfixAt(line, Marker, |indent|);
    }
    assert '-' !in head && '-' !in digits;
    SecondPieceBetween(head, digits, '-');
  }

  /** The round trip through the C# formatter: the marker line written for
      a code block's `k`-th child, an element, leads `FormatCodeBlockContent`
      back to that very element. */
  lemma MarkerLineFindsItsElement(children: seq<Token>, k: nat, indent: string)
    requires k < |children| && children[k].ElementToken?
    requires '-' !in indent
    ensures var line := indent + Marker + NatString(|ElementMap(children, k)|);
            HasInfix(line, Marker) &&
            MarkerKey(line) in ElementMap(children, |children|) &&
            ElementMap(children, |children|)[MarkerKey(line)] == children[k]
  {
    var j := |ElementMap(children, k)|;
    var all := ElementMap(children, |children|);
    MarkerKeyRoundTrip(indent, j);
    var elements := ElementsOf(children, |children|);
    assert j < |elements| && elements[j] == children[k] by {
      ElementMapNumbersElements(children, k);
      ElementsOfPrefix(children, k + 1, |children|);
      assert ElementsOf(children, k + 1) == ElementsOf(children, k) + [children[k]];
      assert elements[j] == ElementsOf(children, k + 1)[j];
    }
    assert NatString(j) in all && all[NatString(j)] == children[k] by {
      ElementMapNumbersElements(children, |children|);
    }
  }

  // ------------------------------------------------------------- elements

  /** An element without attributes whose only child is a text shorter than
      ten characters is written on one line: start tag, trimmed text,
      closing tag; a text made only of whitespace makes the trim throw. */
  lemma ShortTextStaysInline(t: Token, source: string, env: Env, level: nat, sameLine: bool, prefix: string,
                             started: bool)
    requires t.ElementToken? && Within(t, source)
    requires !Classifier.IsVoidElement(Name(t, source))
    requires t.attributes == []
    requires |NonNewLines(t.children)| == 1
    requires NonNewLines(t.children)[0].TextToken? && NonNewLines(t.children)[0].length < 10
    ensures var c := NonNewLines(t.children)[0];
            Within(c, source) &&
            (TrimAsWritten(Span(c, source), WhiteSpace).None? ==>
               ElementText(t, source, env, level, sameLine, prefix, started) == None) &&
            (TrimAsWritten(Span(c, source), WhiteSpace).Some? ==>
               ElementText(t, source, env, level, sameLine, prefix, started) ==
               Some(StartTag(t, source, env, level, sameLine, prefix, started) + Trimmed(Span(c, source), WhiteSpace) +
                    "</" + Name(t, source) + ">"))
  {
    var children := NonNewLines(t.children);
    var c := children[0];
    assert c in children;
    assert ChildLength(children, t.attributes, source) == Some(c.length);
    TrimAsWrittenThrowsOnlyOnBlank(Span(c, source), WhiteSpace);
    if TrimAsWritten(Span(c, source), WhiteSpace).Some? {
      assert TokenText(c, source, env, 0, "", true) == Some(Trimmed(Span(c, source), WhiteSpace));
      var head := StartTag(t, source, env, level, sameLine, prefix, started);
      var body := Trimmed(Span(c, source), WhiteSpace);
      assert head + body + ("</" + Name(t, source) + ">") == head + body + "</" + Name(t, source) + ">";
    } else {
      assert TokenText(c, source, env, 0, "", true) == None;
    }
  }

  /** An element without attributes whose only child is a text, an implicit
      expression or an explicit expression counting fewer than ten characters
      is written on one line: start tag, the trimmed child, closing tag; a
      child made only of whitespace makes the trim throw. */
  lemma ShortChildStaysInline(t: Token, source: string, env: Env, level: nat, sameLine: bool, prefix: string,
                              started: bool)
    requires t.ElementToken? && Within(t, source)
    requires !Classifier.IsVoidElement(Name(t, source))
    requires ChildLength(NonNewLines(t.children), t.attributes, source).Some?
    requires ChildLength(NonNewLines(t.children), t.attributes, source).value < 10
    ensures t.attributes == [] && |NonNewLines(t.children)| == 1
    ensures var c := NonNewLines(t.children)[0];
            IsTextLike(c) && Within(c, source)
    ensures var c := NonNewLines(t.children)[0];
            var head := StartTag(t, source, env, level, sameLine, prefix, started);
            var close := "</" + Name(t, source) + ">";
            var trimmed := if c.ExplicitRazorExpressionToken? then TrimAsWritten(ExplicitCode(c, source), WhiteSpace)
                           else TrimAsWritten(Span(c, source), WhiteSpace);
            (trimmed.None? ==> ElementText(t, source, env, level, sameLine, prefix, started) == None) &&
            (trimmed.Some? && c.ExplicitRazorExpressionToken? ==>
               ElementText(t, source, env, level, sameLine, prefix, started) ==
               Some(head + (ExplicitOpen(c, source) + trimmed.value + ExplicitClose(c, source)) + close)) &&
            (trimmed.Some? && !c.ExplicitRazorExpressionToken? ==>
               ElementText(t, source, env, level, sameLine, prefix, started) == Some(head + trimmed.value + close))
  {
    var children := NonNewLines(t.children);
    var c := children[0];
    assert c in children;
    assert !CloseOnOwnLine(children, t.attributes, ChildLength(children, t.attributes, source));
    if c.ExplicitRazorExpressionToken? {
      var trimmed := TrimAsWritten(ExplicitCode(c, source), WhiteSpace);
      if trimmed.Some? {
        var text := ExplicitOpen(c, source) + trimmed.value + ExplicitClose(c, source);
        assert "" + ExplicitOpen(c, source) + trimmed.value + ExplicitClose(c, source) == text;
        assert TokenText(c, source, env, 0, "", true) == Some(text);
      }
    } else {
      var trimmed := TrimAsWritten(Span(c, source), WhiteSpace);
      if trimmed.Some? {
        assert "" + trimmed.value == trimmed.value;
        assert TokenText(c, source, env, 0, "", true) == Some(trimmed.value);
      }
    }
  }

  /** Dropping the newlines of newlines leaves nothing. */
  lemma {:induction false} NoneButNewLines(children: seq<Token>)
    requires forall c :: c in children ==> c.NewLineToken?
    ensures NonNewLines(children) == []
  {
    if children != [] {
      assert children[0] in children;
      assert forall c :: c in children[1..] ==> c in children;
      NoneButNewLines(children[1..]);
    }
  }

  /** An element with no children besides newlines and at most one
      attribute closes right after its start tag. */
  lemma EmptyElementClosesInline(t: Token, source: string, env: Env, level: nat, sameLine: bool, prefix: string,
                                 started: bool)
    requires t.ElementToken? && Within(t, source)
    requires !Classifier.IsVoidElement(Name(t, source))
    requires |t.attributes| <= 1
    requires forall c :: c in t.children ==> c.NewLineToken?
    ensures ElementText(t, source, env, level, sameLine, prefix, started) ==
            Some(StartTag(t, source, env, level, sameLine, prefix, started) + "</" + Name(t, source) + ">")
  {
    NoneButNewLines(t.children);
    assert ChildrenText(t, [], 0, source, env, level, prefix, false) == Some("");
    var head := StartTag(t, source, env, level, sameLine, prefix, started);
    assert head + "" + ("</" + Name(t, source) + ">") == head + "</" + Name(t, source) + ">";
  }

  /** An element with several children, with several attributes, with an
      attribute and a child, or with one child that is not running text,
      ends with its closing tag on a line of its own at the element's
      indentation. */
  lemma CrowdedElementClosesOnOwnLine(t: Token, source: string, env: Env, level: nat, sameLine: bool, prefix: string,
                                      started: bool)
    requires t.ElementToken? && Within(t, source)
    requires !Classifier.IsVoidElement(Name(t, source))
    requires |NonNewLines(t.children)| > 1 || |t.attributes| > 1 || (t.attributes != [] && NonNewLines(t.children) != []) ||
             (|NonNewLines(t.children)| == 1 && !IsTextLike(NonNewLines(t.children)[0]))
    ensures var r := ElementText(t, source, env, level, sameLine, prefix, started);
            r.Some? ==> EndsWith(r.value, env.newLine + Indented(env, prefix + "</", level) + Name(t, source) + ">")
  {
    var r := ElementText(t, source, env, level, sameLine, prefix, started);
    if r.Some? {
      var close := env.newLine + Indented(env, prefix + "</", level) + Name(t, source) + ">";
      var front := r.value[..|r.value| - |close|];
      assert r.value == front + close;
    }
  }

  // ------------------------------------------------------ worked documents

  /** A document of one token other than a newline: what the token writes,
      then the final line break. */
  lemma SingleTokenDocument(t: Token, source: string, env: Env)
    requires Within(t, source) && !t.NewLineToken?
    ensures TopLevelText([t], source, env, 0, false) == Then(TokenText(t, source, env, 0, "", false), Some(env.newLine))
  {
    assert [t][1..] == [];
    assert [t][0] == t;
    var r := TokenText(t, source, env, 0, "", false);
    if r.Some? {
      assert "" + r.value == r.value;
    }
  }

  /** A void element loses its self-closing slash. */
  lemma VoidElementDocument(env: Env)
    ensures var source := "<input />";
            var tokens := [ElementToken([], [], 5, 1)];
            (forall t :: t in tokens ==> Within(t, source)) &&
            TopLevelText(tokens, source, env, 0, false) == Some("<input>" + env.newLine)
  {
    var source := "<input />";
    var t := ElementToken([], [], 5, 1);
    assert Name(t, source) == "input";
    assert Classifier.IsVoidElement("input");
    assert StartTag(t, source, env, 0, false, "", false) == "<input>" by {
      assert Indent(env.tab, 0) == "";
    }
    SingleTokenDocument(t, source, env);
  }

  // ------------------------------------------------------------- attributes

  /** One attribute on a line of its own, `level` units deep. */
  function AttributeLine(a: AttributeToken, source: string, env: Env, level: nat, prefix: string): string
    requires AttributeWithin(a, source)
  {
    env.newLine + Indented(env, prefix + Key(a, source), level) + AttributeValueText(a, source)
  }

  /** The first `n` attributes, each on a line of its own. */
  function AttributeLines(attributes: seq<AttributeToken>, n: nat, source: string, env: Env, level: nat, prefix: string)
    : string
    requires n <= |attributes|
    requires forall a :: a in attributes ==> AttributeWithin(a, source)
  {
    if n == 0 then ""
    else
      assert attributes[n - 1] in attributes;
      AttributeLines(attributes, n - 1, source, env, level, prefix) + AttributeLine(attributes[n - 1], source, env, level, prefix)
  }

  lemma AttributeLinesStep(attributes: seq<AttributeToken>, n: nat, source: string, env: Env, level: nat, prefix: string)
    requires 0 < n <= |attributes|
    requires forall a :: a in attributes ==> AttributeWithin(a, source)
    ensures attributes[n - 1] in attributes
    ensures AttributeLines(attributes, n, source, env, level, prefix) ==
            AttributeLines(attributes, n - 1, source, env, level, prefix) + AttributeLine(attributes[n - 1], source, env, level, prefix)
  {
    assert attributes[n - 1] in attributes;
  }

  /** Below the tag, an attribute's text is its own line. */
  lemma AttributeTextIsLine(a: AttributeToken, source: string, env: Env, level: nat, prefix: string)
    requires 0 < level && AttributeWithin(a, source)
    ensures AttributeText(a, source, env, level, prefix) == AttributeLine(a, source, env, level, prefix)
  {
  }

  /** Below the tag, the attribute loop writes the attributes one per line. */
  lemma {:induction false} AttributesTextIsLines(attributes: seq<AttributeToken>, n: nat, source: string, env: Env,
                                                 level: nat, prefix: string)
    requires 0 < level && n <= |attributes|
    requires forall a :: a in attributes ==> AttributeWithin(a, source)
    ensures AttributesText(attributes, n, source, env, level, prefix) == AttributeLines(attributes, n, source, env, level, prefix)
    decreases n
  {
    if n > 0 {
      assert attributes[n - 1] in attributes;
      var line := AttributeLine(attributes[n - 1], source, env, level, prefix);
      calc {
        AttributesText(attributes, n, source, env, level, prefix);
        { AttributesTextStep(attributes, n, source, env, level, prefix);
          AttributeTextIsLine(attributes[n - 1], source, env, level, prefix); }
        AttributesText(attributes, n - 1, source, env, level, prefix) + line;
        { AttributesTextIsLines(attributes, n - 1, source, env, level, prefix); }
        AttributeLines(attributes, n - 1, source, env, level, prefix) + line;
        { AttributeLinesStep(attributes, n, source, env, level, prefix); }
        AttributeLines(attributes, n, source, env, level, prefix);
      }
    }
  }

  /** The start tag keeps a single attribute on its line after a space. */
  lemma StartTagSingleAttribute(t: Token, source: string, env: Env, level: nat, sameLine: bool, prefix: string, started: bool)
    requires t.ElementToken? && Within(t, source) && |t.attributes| == 1
    ensures t.attributes[0] in t.attributes
    ensures StartTag(t, source, env, level, sameLine, prefix, started) ==
            (if started && !sameLine then env.newLine else "") + Indented(env, prefix + "<", level) + Name(t, source) +
            " " + Key(t.attributes[0], source) + AttributeValueText(t.attributes[0], source) + ">"
  {
    assert t.attributes[0] in t.attributes;
  }

  /** Any other number of attributes go one per line, one level deeper
      than the tag. */
  lemma StartTagAttributeLines(t: Token, source: string, env: Env, level: nat, sameLine: bool, prefix: string, started: bool)
    requires t.ElementToken? && Within(t, source) && |t.attributes| != 1
    ensures StartTag(t, source, env, level, sameLine, prefix, started) ==
            (if started && !sameLine then env.newLine else "") + Indented(env, prefix + "<", level) + Name(t, source) +
            AttributeLines(t.attributes, |t.attributes|, source, env, level + 1, prefix) + ">"
  {
    AttributesTextIsLines(t.attributes, |t.attributes|, source, env, level + 1, prefix);
  }

  /** The attributes of `<button class='btn' disabled>`. */
  lemma ButtonAttributeTexts(env: Env)
    ensures var source := "<button class='btn' disabled></button>";
            AttributeWithin(AttributeToken(5, 8, 3, 15), source) && AttributeWithin(AttributeToken(8, 20, 0, 0), source) &&
            AttributeLine(AttributeToken(5, 8, 3, 15), source, env, 1, "") == env.newLine + env.tab + "class=\"btn\"" &&
            AttributeLine(AttributeToken(8, 20, 0, 0), source, env, 1, "") == env.newLine + env.tab + "disabled"
  {
    var source := "<button class='btn' disabled></button>";
    assert Key(AttributeToken(5, 8, 3, 15), source) == "class";
    assert AttributeValue(AttributeToken(5, 8, 3, 15), source) == "btn";
    assert Key(AttributeToken(8, 20, 0, 0), source) == "disabled";
    assert Indent(env.tab, 1) == env.tab;
  }

  /** Two attributes make two lines, the first attribute's first. */
  lemma AttributeLinesOfTwo(attributes: seq<AttributeToken>, source: string, env: Env, level: nat, prefix: string)
    requires |attributes| == 2 && forall a :: a in attributes ==> AttributeWithin(a, source)
    ensures attributes[0] in attributes && attributes[1] in attributes
    ensures AttributeLines(attributes, 2, source, env, level, prefix) ==
            AttributeLine(attributes[0], source, env, level, prefix) + AttributeLine(attributes[1], source, env, level, prefix)
  {
    assert attributes[0] in attributes && attributes[1] in attributes;
    var first := AttributeLine(attributes[0], source, env, level, prefix);
    assert AttributeLines(attributes, 0, source, env, level, prefix) == "";
    assert AttributeLines(attributes, 1, source, env, level, prefix) == "" + first;
    assert "" + first == first;
  }

  /** `<button class='btn' disabled>` lies inside its source and is named
      `button`. */
  lemma ButtonElement()
    ensures var source := "<button class='btn' disabled></button>";
            var t := ElementToken([AttributeToken(5, 8, 3, 15), AttributeToken(8, 20, 0, 0)], [], 6, 1);
            Within(t, source) && Name(t, source) == "button"
  {
    var source := "<button class='btn' disabled></button>";
    var t := ElementToken([AttributeToken(5, 8, 3, 15), AttributeToken(8, 20, 0, 0)], [], 6, 1);
    assert AttributeWithin(AttributeToken(5, 8, 3, 15), source) && AttributeWithin(AttributeToken(8, 20, 0, 0), source);
    assert Within(t, source);
  }

  /** `<button class='btn' disabled>` starts as `<button`, its two
      attributes below it and `>`. */
  lemma ButtonTag(env: Env)
    ensures var source := "<button class='btn' disabled></button>";
            var t := ElementToken([AttributeToken(5, 8, 3, 15), AttributeToken(8, 20, 0, 0)], [], 6, 1);
            Within(t, source) &&
            StartTag(t, source, env, 0, false, "", false) == "<button" + AttributeLines(t.attributes, 2, source, env, 1, "") + ">"
  {
    var source := "<button class='btn' disabled></button>";
    var t := ElementToken([AttributeToken(5, 8, 3, 15), AttributeToken(8, 20, 0, 0)], [], 6, 1);
    ButtonElement();
    var lines := AttributeLines(t.attributes, 2, source, env, 1, "");
    calc {
      StartTag(t, source, env, 0, false, "", false);
      { StartTagAttributeLines(t, source, env, 0, false, "", false); }
      "" + Indented(env, "" + "<", 0) + Name(t, source) + lines + ">";
      { assert Indent(env.tab, 0) == ""; }
      "" + ("" + "<") + "button" + lines + ">";
      { assert "" + ("" + "<") + "button" == "<button"; }
      "<button" + lines + ">";
    }
  }

  /** Values are written in double quotes whatever quotes they had, and an
      attribute without a value is its bare key: `<button class='btn'
      disabled>` starts as `<button`, then `class="btn"` and `disabled` on
      lines of their own. */
  lemma ButtonAttributes(env: Env)
    ensures var source := "<button class='btn' disabled></button>";
            var t := ElementToken([AttributeToken(5, 8, 3, 15), AttributeToken(8, 20, 0, 0)], [], 6, 1);
            Within(t, source) &&
            StartTag(t, source, env, 0, false, "", false) ==
            "<button" + (env.newLine + env.tab + "class=\"btn\"") + (env.newLine + env.tab + "disabled") + ">"
  {
    var source := "<button class='btn' disabled></button>";
    var t := ElementToken([AttributeToken(5, 8, 3, 15), AttributeToken(8, 20, 0, 0)], [], 6, 1);
    ButtonTag(env);
    ButtonAttributeTexts(env);
    AttributeLinesOfTwo(t.attributes, source, env, 1, "");
  }

  // ------------------------------------------------------- control structures

  /** `@do` puts its condition after the closing brace; every other
      control structure keeps it after the keyword on the opening line. */
  lemma DoWhileConditionAfterBrace(env: Env, level: nat, prefix: string, open: string, expression: string, started: bool)
    ensures var lead := (if started then (if level == 0 then env.newLine + env.newLine else env.newLine) else "");
            var brace := env.newLine + Indented(env, prefix + "{", level) + env.newLine;
            var close := env.newLine + Indented(env, prefix + "}", level);
            if open == "@do" then
              ControlHead(env, level, prefix, open, expression, started) == lead + Indented(env, prefix + open, level) + brace &&
              ControlTail(env, level, prefix, open, expression) == close + " " + expression
            else
              ControlHead(env, level, prefix, open, expression, started) ==
              lead + Indented(env, prefix + open, level) + " " + expression + brace &&
              ControlTail(env, level, prefix, open, expression) == close
  {
  }
}
