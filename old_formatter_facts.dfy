// What the older formatter promises: `OutputLine` keeps every character
// but the line breaks and puts each piece on its own indented line, short
// text between a soft `>` and a closing tag stays on the line, and the
// layout of elements by their attributes and children.

module OldFormatterFacts {
  import opened Common
  import opened Text
  import opened OldParser
  import opened OldFormatter

  /** `s` with every CR and LF removed. */
  function WithoutBreaks(s: string): (r: string)
    ensures |r| <= |s|
  {
    if s == [] then "" else (if IsLineBreak(s[0]) then "" else [s[0]]) + WithoutBreaks(s[1..])
  }

  /** The lines one after another. */
  function Concat(lines: seq<string>): string {
    if lines == [] then "" else lines[0] + Concat(lines[1..])
  }

  lemma {:induction false} WithoutBreaksAppend(a: string, b: string)
    ensures WithoutBreaks(a + b) == WithoutBreaks(a) + WithoutBreaks(b)
    decreases |a|
  {
    if a != [] {
      assert (a + b)[1..] == a[1..] + b;
      WithoutBreaksAppend(a[1..], b);
    } else {
      assert a + b == b;
    }
  }

  lemma {:induction false} WithoutBreaksOfLine(a: string)
    requires forall k :: 0 <= k < |a| ==> !IsLineBreak(a[k])
    ensures WithoutBreaks(a) == a
    decreases |a|
  {
    if a != [] {
      WithoutBreaksOfLine(a[1..]);
      assert [a[0]] + a[1..] == a;
    }
  }

  /** Splitting into lines drops the line breaks and nothing else. */
  lemma {:induction false} SplitLinesKeepsText(s: string)
    ensures Concat(SplitLines(s)) == WithoutBreaks(s)
    decreases |s|
  {
    if s != [] {
      if IsLineBreak(s[0]) {
        SplitLinesKeepsText(s[1..]);
      } else {
        var n := RunLength(s);
        SplitLinesKeepsText(s[n..]);
        assert SplitLines(s) == [s[..n]] + SplitLines(s[n..]);
        assert ([s[..n]] + SplitLines(s[n..]))[1..] == SplitLines(s[n..]);
        assert s == s[..n] + s[n..];
        WithoutBreaksAppend(s[..n], s[n..]);
        WithoutBreaksOfLine(s[..n]);
      }
    }
  }

  /** A value made of line breaks alone has no lines. */
  lemma {:induction false} SplitLinesOfBreaks(s: string)
    requires forall k :: 0 <= k < |s| ==> IsLineBreak(s[k])
    ensures SplitLines(s) == []
    decreases |s|
  {
    if s != [] {
      SplitLinesOfBreaks(s[1..]);
    }
  }

  /** `OutputLine` only appends. */
  lemma {:induction false} LinesOutExtends(out: string, lines: seq<string>, n: nat, level: int, s: Settings)
    requires n <= |lines|
    ensures |out| <= |LinesOut(out, lines, n, level, s)| && LinesOut(out, lines, n, level, s)[..|out|] == out
    decreases n
  {
    if n > 0 {
      LinesOutExtends(out, lines, n - 1, level, s);
      var before := LinesOut(out, lines, n - 1, level, s);
      assert LinesOut(out, lines, n, level, s) == before + (LinesOut(out, lines, n, level, s)[|before|..]);
    }
  }

  /** `OutputLine` of a value without line breaks: a line break unless
      the output is empty, the indentation, the value. */
  lemma OutputLineOfLine(out: string, value: string, level: int, s: Settings)
    requires value != [] && forall k :: 0 <= k < |value| ==> !IsLineBreak(value[k])
    ensures LineOut(out, value, level, s) ==
            (if |out| > 0 then out + s.newLine else out) + Indent(s.indentation, Depth(level)) + value
  {
    SplitLinesOfLine(value);
    assert LinesOut(out, [value], 0, level, s) == out;
    assert LinesOut(out, [value], 1, level, s) == Line(out, value, level, s);
  }

  /** `OutputLine` of a value of line breaks alone writes nothing. */
  lemma OutputLineOfBreaks(out: string, value: string, level: int, s: Settings)
    requires forall k :: 0 <= k < |value| ==> IsLineBreak(value[k])
    ensures LineOut(out, value, level, s) == out
  {
    SplitLinesOfBreaks(value);
  }

  /** Text right after a soft `>` and right before a closing tag stays on
      the line when short enough and not forced down; otherwise a line of
      text goes on a line of its own, one level deeper. */
  lemma ContentPlacement(tokens: seq<ParsedToken>, s: Settings, i: nat, level: int, force: bool, out: string)
    requires i < |tokens|
    ensures ContentInline(tokens, s, i, level, force) ==> ContentOut(tokens, s, i, level, force, out) == out + Value(tokens[i])
    ensures var v := Value(tokens[i]);
            !ContentInline(tokens, s, i, level, force) && v != [] && (forall k :: 0 <= k < |v| ==> !IsLineBreak(v[k])) ==>
              ContentOut(tokens, s, i, level, force, out) ==
              (if |out| > 0 then out + s.newLine else out) + Indent(s.indentation, Depth(level + 1)) + v
  {
    var v := Value(tokens[i]);
    if !ContentInline(tokens, s, i, level, force) && v != [] && (forall k :: 0 <= k < |v| ==> !IsLineBreak(v[k])) {
      OutputLineOfLine(out, v, level + 1, s);
    }
  }

  /** A line break inside the code would be one inside the whole line. */
  lemma CodeWithoutBreak(open: string, code: string, close: string)
    requires var v := open + " " + code + " " + close;
             forall k :: 0 <= k < |v| ==> !IsLineBreak(v[k])
    ensures '\n' !in code
  {
    var v := open + " " + code + " " + close;
    forall k | 0 <= k < |code|
      ensures code[k] != '\n'
    {
      assert code[k] == v[|open| + 1 + k];
    }
  }

  /** `CodeOut` of code without a line feed is one `OutputLine`. */
  lemma CodeOutStep(t: ParsedToken, s: Settings, level: int, out: string, code: string)
    requires t.CodeBlockToken?
    requires code == s.formatCode(t.value, MaxLineLength - level * |s.indentation|)
    requires '\n' !in code
    ensures CodeOut(t, s, level, out) == LineOut(out, t.open + " " + code + " " + t.close, level + 1, s)
  {
  }

  /** Code that the C# formatter returns on one line is written between
      its opening and closing, after a space each, on a line of its own
      one level deeper. */
  lemma OneLineCode(t: ParsedToken, s: Settings, level: int, out: string)
    requires t.CodeBlockToken?
    requires var code := s.formatCode(t.value, MaxLineLength - level * |s.indentation|);
             var v := t.open + " " + code + " " + t.close;
             forall k :: 0 <= k < |v| ==> !IsLineBreak(v[k])
    ensures var code := s.formatCode(t.value, MaxLineLength - level * |s.indentation|);
            CodeOut(t, s, level, out) ==
            (if |out| > 0 then out + s.newLine else out) + Indent(s.indentation, Depth(level + 1)) +
            (t.open + " " + code + " " + t.close)
  {
    var code := s.formatCode(t.value, MaxLineLength - level * |s.indentation|);
    var v := t.open + " " + code + " " + t.close;
    CodeWithoutBreak(t.open, code, t.close);
    assert v != [] by { assert |v| >= 2; }
    CodeOutStep(t, s, level, out, code);
    OutputLineOfLine(out, v, level + 1, s);
  }

  /** A start tag closed at once by `>` (a void element): the tag on its
      line, the `>` right after it. */
  lemma VoidElementLayout(tokens: seq<ParsedToken>, s: Settings, i: nat, level: int, out: string)
    requires i + 1 < |tokens| && tokens[i].BeginTagToken? && tokens[i + 1] == HardCloseTagToken(">")
    ensures ElementOut(tokens, s, i, level, out) == Some((i + 1, LineOut(out, tokens[i].value, level + 1, s) + ">"))
  {
  }

  /** A start tag with one attribute and a hard close other than `>`
      (such as `/>`): all on one line, separated by spaces. */
  lemma SingleAttributeLayout(tokens: seq<ParsedToken>, s: Settings, i: nat, level: int, out: string)
    requires i + 2 < |tokens| && tokens[i].BeginTagToken? && tokens[i + 1].AttributeToken?
    requires tokens[i + 2].HardCloseTagToken? && tokens[i + 2].value != ">"
    ensures ElementOut(tokens, s, i, level, out) ==
            Some((i + 2, LineOut(out, tokens[i].value, level + 1, s) + " " + tokens[i + 1].value + " " + tokens[i + 2].value))
  {
    var lv := level + 1;
    var head := LineOut(out, tokens[i].value, lv, s);
    assert !Multiple(tokens, i);
    AttributeStep(tokens, s, i, false, lv, head);
    assert AttributesOut(tokens, s, i, false, lv, head) == (i + 1, head + " " + tokens[i + 1].value);
  }

  /** A start tag with two attributes and a hard close other than `>`:
      the tag, each attribute one level deeper, and the close back at the
      tag's level, each on a line of its own. */
  lemma TwoAttributesLayout(tokens: seq<ParsedToken>, s: Settings, i: nat, level: int, out: string)
    requires i + 3 < |tokens| && tokens[i].BeginTagToken? && tokens[i + 1].AttributeToken? && tokens[i + 2].AttributeToken?
    requires tokens[i + 3].HardCloseTagToken? && tokens[i + 3].value != ">"
    ensures var lv := level + 1;
            ElementOut(tokens, s, i, level, out) ==
            Some((i + 3, LineOut(LineOut(LineOut(LineOut(out, tokens[i].value, lv, s), tokens[i + 1].value, lv + 1, s),
                                         tokens[i + 2].value, lv + 1, s), tokens[i + 3].value, lv, s)))
  {
    var lv := level + 1;
    var head := LineOut(out, tokens[i].value, lv, s);
    var first := LineOut(head, tokens[i + 1].value, lv + 1, s);
    var second := LineOut(first, tokens[i + 2].value, lv + 1, s);
    assert Multiple(tokens, i);
    assert AttributeText(head, Value(tokens[i + 1]), true, lv, s) == first;
    assert AttributeText(first, Value(tokens[i + 2]), true, lv, s) == second;
    AttributeStep(tokens, s, i, true, lv, head);
    AttributeStep(tokens, s, i + 1, true, lv, first);
    var close: nat := i + 3;
    assert AttributesOut(tokens, s, i + 2, true, lv, second) == (i + 2, second);
    assert AttributesOut(tokens, s, i, true, lv, head) == (i + 2, second);
    calc {
      ElementOut(tokens, s, i, level, out);
      { ElementAfterAttributes(tokens, s, i, level, out); }
      RestOut(tokens, s, AttributesOut(tokens, s, i, true, lv, head).0 + 1, lv, true, AttributesOut(tokens, s, i, true, lv, head).1);
      RestOut(tokens, s, close, lv, true, second);
      { HardCloseOnItsLine(tokens, s, close, lv, second); }
      Some((close, LineOut(second, tokens[close].value, lv, s)));
    }
  }

  /** After several attributes, a hard close other than `>` goes on a line
      of its own. */
  lemma HardCloseOnItsLine(tokens: seq<ParsedToken>, s: Settings, j: nat, level: int, out: string)
    requires j < |tokens| && tokens[j].HardCloseTagToken? && tokens[j].value != ">"
    ensures RestOut(tokens, s, j, level, true, out) == Some((j, LineOut(out, tokens[j].value, level, s)))
  {
  }

  /** `ConsumeElement` with several attributes: the rest of the element
      follows the attribute loop. */
  lemma ElementAfterAttributes(tokens: seq<ParsedToken>, s: Settings, i: nat, level: int, out: string)
    requires i + 2 < |tokens| && tokens[i].BeginTagToken? && Multiple(tokens, i)
    ensures var a := AttributesOut(tokens, s, i, true, level + 1, LineOut(out, tokens[i].value, level + 1, s));
            ElementOut(tokens, s, i, level, out) == RestOut(tokens, s, a.0 + 1, level + 1, true, a.1)
  {
  }

  /** An element with no attribute and no child: the tag, the soft `>`
      and the closing tag on one line. */
  lemma EmptyElementLayout(tokens: seq<ParsedToken>, s: Settings, i: nat, level: int, out: string)
    requires i + 2 < |tokens| && tokens[i].BeginTagToken? && tokens[i + 1].SoftCloseTagToken? && tokens[i + 2].HardCloseTagToken?
    ensures ElementOut(tokens, s, i, level, out) ==
            Some((i + 2, LineOut(out, tokens[i].value, level + 1, s) + tokens[i + 1].value + tokens[i + 2].value))
  {
    var lv := level + 1;
    var head := LineOut(out, tokens[i].value, lv, s);
    var close: nat := i + 2;
    assert AttributesOut(tokens, s, i, false, lv, head) == (i, head);
    assert ChildrenOut(tokens, s, close, lv, false, 0, head + tokens[i + 1].value) == Some((close, 0, head + tokens[i + 1].value));
  }

  /** An element with no attribute holding one short line of text: the
      tag, the `>`, the text and the closing tag on one line. */
  lemma ShortTextElementLayout(tokens: seq<ParsedToken>, s: Settings, i: nat, level: int, out: string)
    requires i + 3 < |tokens| && tokens[i].BeginTagToken? && tokens[i + 1].SoftCloseTagToken?
    requires tokens[i + 2].ContentToken? && tokens[i + 3].HardCloseTagToken?
    requires '\r' !in tokens[i + 2].value && '\n' !in tokens[i + 2].value
    requires LineLength(tokens[i + 2], level + 1, s) < MaxLineLength
    ensures ElementOut(tokens, s, i, level, out) ==
            Some((i + 3, LineOut(out, tokens[i].value, level + 1, s) + tokens[i + 1].value + tokens[i + 2].value + tokens[i + 3].value))
  {
    var lv := level + 1;
    var head := LineOut(out, tokens[i].value, lv, s);
    var open := head + tokens[i + 1].value;
    var body := open + tokens[i + 2].value;
    var text: nat := i + 2;
    var close: nat := i + 3;
    assert AttributesOut(tokens, s, i, false, lv, head) == (i, head);
    assert ContentInline(tokens, s, text, lv, false);
    assert TokenOut(tokens, s, text, lv, false, open) == Some((text, body));
    assert ChildrenOut(tokens, s, close, lv, false, 1, body) == Some((close, 1, body));
    assert ChildrenOut(tokens, s, text, lv, false, 0, open) == Some((close, 1, body));
    assert CloseInline(tokens, s, i + 3, lv, false, 1);
  }
}
