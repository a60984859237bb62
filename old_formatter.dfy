// The formatter of the older generation: a class that walks the older
// parser's tokens with an index and appends to an output buffer. A start
// tag goes on a line of its own one level deeper, its attributes stay on
// that line unless there are several, its children are formatted one more
// level in, and its closing tag rejoins the line when the element is empty
// or holds one short text. Reading past the token array (an exception in
// C#) is a result of None.

module OldFormatter {
  import opened Common
  import opened Text
  import opened OldParser

  const MaxLineLength := 80

  /** The formatter's settings: the indentation string, the platform line
      break that `AppendLine` writes, and the C# code formatter, which
      takes the code and the line width it may use. */
  datatype Settings = Settings(indentation: string, newLine: string, formatCode: (string, int) -> string)

  /** Every parsed token but the ignored one carries a value. */
  function Value(t: ParsedToken): string {
    if t.IgnoreToken? then "" else t.value
  }

  /** `LineLength`: the value's length plus the indentation's. */
  function LineLength(t: ParsedToken, level: int, s: Settings): int {
    |Value(t)| + level * |s.indentation|
  }

  /** The indentation loop of `OutputLine` runs `level` times, and not at
      all for a negative level. */
  function Depth(level: int): nat {
    if level > 0 then level else 0
  }

  /** One line of `OutputLine`: a line break first unless the output is
      empty, then the indentation, then the line. */
  function Line(out: string, line: string, level: int, s: Settings): string {
    (if |out| > 0 then out + s.newLine else out) + Indent(s.indentation, Depth(level)) + line
  }

  /** The first `n` lines of `OutputLine` appended. */
  function LinesOut(out: string, lines: seq<string>, n: nat, level: int, s: Settings): string
    requires n <= |lines|
  {
    if n == 0 then out else Line(LinesOut(out, lines, n - 1, level, s), lines[n - 1], level, s)
  }

  /** `OutputLine`: the value split at CR and LF with the empty pieces
      dropped, each piece on a line of its own. */
  function LineOut(out: string, value: string, level: int, s: Settings): string {
    LinesOut(out, SplitLines(value), |SplitLines(value)|, level, s)
  }

  /** `NextTokenIs<T>(index)` for an attribute: false at the last token. */
  predicate NextIsAttribute(tokens: seq<ParsedToken>, j: nat) {
    j + 1 < |tokens| && tokens[j + 1].AttributeToken?
  }

  /** The text between the first two conditions of `ConsumeContent`: not
      forced onto a line of its own, no line break, right after a soft
      `>`, right before a closing tag, and short enough. */
  predicate ContentInline(tokens: seq<ParsedToken>, s: Settings, i: nat, level: int, force: bool)
    requires i < |tokens|
  {
    var v := Value(tokens[i]);
    !force && '\r' !in v && '\n' !in v && i > 0 && tokens[i - 1].SoftCloseTagToken? &&
    i + 1 < |tokens| && tokens[i + 1].HardCloseTagToken? &&
    LineLength(tokens[i], level, s) < MaxLineLength
  }

  /** `ConsumeContent`. */
  function ContentOut(tokens: seq<ParsedToken>, s: Settings, i: nat, level: int, force: bool, out: string): string
    requires i < |tokens|
  {
    if ContentInline(tokens, s, i, level, force) then out + Value(tokens[i])
    else LineOut(out, Value(tokens[i]), level + 1, s)
  }

  /** `ConsumeCode`: the formatted code between its opening and closing on
      one line when it has no line feed, else on three lines with the code
      one level deeper. */
  function CodeOut(t: ParsedToken, s: Settings, level: int, out: string): string
    requires t.CodeBlockToken?
  {
    var code := s.formatCode(t.value, MaxLineLength - level * |s.indentation|);
    if '\n' !in code then LineOut(out, t.open + " " + code + " " + t.close, level + 1, s)
    else LineOut(LineOut(LineOut(out, t.open, level + 1, s), code, level + 2, s), t.close, level + 1, s)
  }

  /** One attribute: on a line of its own one level deeper when there are
      several, else after a space. */
  function AttributeText(out: string, v: string, multiple: bool, level: int, s: Settings): string {
    if multiple then LineOut(out, v, level + 1, s) else out + " " + v
  }

  lemma AttributeStep(tokens: seq<ParsedToken>, s: Settings, j: nat, multiple: bool, level: int, out: string)
    requires NextIsAttribute(tokens, j)
    ensures AttributesOut(tokens, s, j, multiple, level, out) ==
            AttributesOut(tokens, s, j + 1, multiple, level, AttributeText(out, Value(tokens[j + 1]), multiple, level, s))
  {
  }

  /** The attribute loop of `ConsumeElement` from `j`: each following
      attribute on a line of its own when there are several, else after a
      space; the result is the index of the last one. */
  function AttributesOut(tokens: seq<ParsedToken>, s: Settings, j: nat, multiple: bool, level: int, out: string): (r: (nat, string))
    requires j < |tokens|
    ensures j <= r.0 < |tokens| && !NextIsAttribute(tokens, r.0)
    decreases |tokens| - j
  {
    if !NextIsAttribute(tokens, j) then (j, out)
    else
      AttributesOut(tokens, s, j + 1, multiple, level, AttributeText(out, Value(tokens[j + 1]), multiple, level, s))
  }

  /** `ConsumeToken`: an element, a code block, or anything else as
      content; the index where the routine leaves off. */
  function TokenOut(tokens: seq<ParsedToken>, s: Settings, i: nat, level: int, force: bool, out: string): (r: Option<(nat, string)>)
    requires i < |tokens|
    ensures r.Some? ==> i <= r.value.0 < |tokens|
    decreases |tokens| - i, 1
  {
    match tokens[i]
    case BeginTagToken(_) => ElementOut(tokens, s, i, level, out)
    case CodeBlockToken(_, _, _) => Some((i, CodeOut(tokens[i], s, level, out)))
    case _ => Some((i, ContentOut(tokens, s, i, level, force, out)))
  }

  /** The closing-tag rule of `ConsumeElement`: it rejoins the line when
      there is at most one attribute and either no child or one short
      content child right before it. */
  predicate CloseInline(tokens: seq<ParsedToken>, s: Settings, e: nat, level: int, multiple: bool, children: nat)
    requires 0 < e <= |tokens|
  {
    !multiple &&
    (children == 0 || (children == 1 && tokens[e - 1].ContentToken? && LineLength(tokens[e - 1], level, s) < MaxLineLength))
  }

  /** More than one attribute follows the start tag at `i`. */
  predicate Multiple(tokens: seq<ParsedToken>, i: nat) {
    NextIsAttribute(tokens, i) && NextIsAttribute(tokens, i + 1)
  }

  /** `ConsumeElement` on the start tag at `i`: the tag one level deeper,
      its attributes, then the rest. */
  function ElementOut(tokens: seq<ParsedToken>, s: Settings, i: nat, level: int, out: string): (r: Option<(nat, string)>)
    requires i < |tokens|
    ensures r.Some? ==> i < r.value.0 < |tokens|
    decreases |tokens| - i, 0
  {
    var lv := level + 1;
    var multiple := Multiple(tokens, i);
    var a := AttributesOut(tokens, s, i, multiple, lv, LineOut(out, Value(tokens[i]), lv, s));
    RestOut(tokens, s, a.0 + 1, lv, multiple, a.1)
  }

  /** `ConsumeElement` from the token after the attributes at `j`: a hard
      close ends the element; otherwise a soft `>` is written, then the
      children, then the closing tag. */
  function RestOut(tokens: seq<ParsedToken>, s: Settings, j: nat, level: int, multiple: bool, out: string)
    : (r: Option<(nat, string)>)
    requires j <= |tokens|
    ensures r.Some? ==> j <= r.value.0 < |tokens|
    decreases |tokens| - j, 3
  {
    if j == |tokens| then None
    else if tokens[j].HardCloseTagToken? then
      var v := tokens[j].value;
      Some((j, if v == ">" then out + v else if multiple then LineOut(out, v, level, s) else out + " " + v))
    else
      var afterClose := if tokens[j].SoftCloseTagToken? then out + tokens[j].value else out;
      match ChildrenOut(tokens, s, j + 1, level, multiple, 0, afterClose)
      case None => None
      case Some((e, children, body)) => Some((e, CloseOut(tokens, s, e, level, multiple, children, body)))
  }

  /** The closing tag at `e` after the children. */
  function CloseOut(tokens: seq<ParsedToken>, s: Settings, e: nat, level: int, multiple: bool, children: nat, out: string): string
    requires 0 < e < |tokens|
  {
    if CloseInline(tokens, s, e, level, multiple, children) then out + Value(tokens[e])
    else LineOut(out, Value(tokens[e]), level, s)
  }

  /** The children loop of `ConsumeElement` from `j`: every token up to
      the next closing tag, counted; the closing tag's index, the count and
      the output. */
  function ChildrenOut(tokens: seq<ParsedToken>, s: Settings, j: nat, level: int, force: bool, children: nat, out: string)
    : (r: Option<(nat, nat, string)>)
    requires j <= |tokens|
    ensures r.Some? ==> j <= r.value.0 < |tokens| && tokens[r.value.0].HardCloseTagToken? && r.value.1 >= children
    decreases |tokens| - j, 2
  {
    if j == |tokens| then None
    else if tokens[j].HardCloseTagToken? then Some((j, children, out))
    else match TokenOut(tokens, s, j, level, force, out)
      case None => None
      case Some((k, next)) => ChildrenOut(tokens, s, k + 1, level, force, children + 1, next)
  }

  /** `Format` from the token at `i` on, every token at level -1. */
  function FormatFrom(tokens: seq<ParsedToken>, s: Settings, i: nat, out: string): Option<string>
    requires i <= |tokens|
    decreases |tokens| - i
  {
    if i == |tokens| then Some(out)
    else
      var r := TokenOut(tokens, s, i, -1, false, out);
      if r.None? then None else FormatFrom(tokens, s, r.value.0 + 1, r.value.1)
  }

  /** One turn of `Format`'s loop. */
  lemma FormatStep(tokens: seq<ParsedToken>, s: Settings, i: nat, out: string)
    requires i < |tokens|
    ensures TokenOut(tokens, s, i, -1, false, out).None? ==> FormatFrom(tokens, s, i, out).None?
    ensures TokenOut(tokens, s, i, -1, false, out).Some? ==>
              var r := TokenOut(tokens, s, i, -1, false, out).value;
              FormatFrom(tokens, s, i, out) == FormatFrom(tokens, s, r.0 + 1, r.1)
  {
  }

  // ------------------------------------------------------------ the class

  class Formatter {
    const tokens: seq<ParsedToken>
    const settings: Settings
    var index: nat
    var output: string

    /** Takes the parsed tokens directly; see the README on why. */
    constructor(tokens: seq<ParsedToken>, settings: Settings)
      ensures this.tokens == tokens && this.settings == settings && index == 0 && output == ""
    {
      this.tokens := tokens;
      this.settings := settings;
      index := 0;
      output := "";
    }

    /** `Format`: clears the output and starts from the first token, so
        the result is a function of the tokens and settings alone. */
    method Format() returns (r: Option<string>)
      modifies this
      ensures r == FormatFrom(tokens, settings, 0, "")
    {
      output := "";
      index := 0;
      while index != |tokens|
        invariant index <= |tokens|
        invariant FormatFrom(tokens, settings, index, output) == FormatFrom(tokens, settings, 0, "")
        decreases |tokens| - index
      {
        ghost var before := (index, output);
        var ok := ConsumeToken(-1, false);
        FormatStep(tokens, settings, before.0, before.1);
        if !ok {
          return None;
        }
        assert FormatFrom(tokens, settings, before.0, before.1) == FormatFrom(tokens, settings, index + 1, output);
        index := index + 1;
      }
      r := Some(output);
    }

    method ConsumeToken(level: int, force: bool) returns (ok: bool)
      requires index < |tokens|
      modifies this
      ensures var r := TokenOut(tokens, settings, old(index), level, force, old(output));
              (ok <==> r.Some?) && (ok ==> r.value == (index, output))
      decreases |tokens| - index, 1
    {
      match tokens[index]
      case BeginTagToken(_) => ok := ConsumeElement(level);
      case CodeBlockToken(_, _, _) => ConsumeCode(level); ok := true;
      case _ => ConsumeContent(level, force); ok := true;
    }

    method ConsumeContent(level: int, force: bool)
      requires index < |tokens|
      modifies this
      ensures index == old(index) && output == ContentOut(tokens, settings, index, level, force, old(output))
    {
      if ContentInline(tokens, settings, index, level, force) {
        Output(Value(tokens[index]), false);
      } else {
        OutputLine(Value(tokens[index]), level + 1);
      }
    }

    method ConsumeCode(level: int)
      requires index < |tokens| && tokens[index].CodeBlockToken?
      modifies this
      ensures index == old(index) && output == CodeOut(tokens[index], settings, level, old(output))
    {
      var t := tokens[index];
      var code := settings.formatCode(t.value, MaxLineLength - level * |settings.indentation|);
      if '\n' !in code {
        OutputLine(t.open + " " + code + " " + t.close, level + 1);
      } else {
        OutputLine(t.open, level + 1);
        OutputLine(code, level + 2);
        OutputLine(t.close, level + 1);
      }
    }

    method ConsumeElement(level: int) returns (ok: bool)
      requires index < |tokens|
      modifies this
      ensures var r := ElementOut(tokens, settings, old(index), level, old(output));
              (ok <==> r.Some?) && (ok ==> r.value == (index, output))
      decreases |tokens| - index, 0
    {
      var lv := level + 1;
      OutputLine(Value(tokens[index]), lv);
      var multiple := Multiple(tokens, index);
      ConsumeAttributes(multiple, lv);
      index := index + 1;
      ok := ConsumeRest(lv, multiple);
    }

    /** The attribute loop of `ConsumeElement`. */
    method ConsumeAttributes(multiple: bool, level: int)
      requires index < |tokens|
      modifies this
      ensures (index, output) == AttributesOut(tokens, settings, old(index), multiple, level, old(output))
    {
      ghost var a := AttributesOut(tokens, settings, index, multiple, level, output);
      while NextIsAttribute(tokens, index)
        invariant index < |tokens|
        invariant AttributesOut(tokens, settings, index, multiple, level, output) == a
        decreases |tokens| - index
      {
        ghost var before := (index, output);
        ConsumeAttribute(multiple, level);
        AttributeStep(tokens, settings, before.0, multiple, level, before.1);
      }
    }

    /** One turn of the attribute loop. */
    method ConsumeAttribute(multiple: bool, level: int)
      requires NextIsAttribute(tokens, index)
      modifies this
      ensures index == old(index) + 1 && output == AttributeText(old(output), Value(tokens[index]), multiple, level, settings)
    {
      index := index + 1;
      if multiple {
        OutputLine(Value(tokens[index]), level + 1);
      } else {
        Output(Value(tokens[index]), true);
      }
    }

    /** `ConsumeElement` after the attributes. */
    method ConsumeRest(level: int, multiple: bool) returns (ok: bool)
      requires index <= |tokens|
      modifies this
      ensures var r := RestOut(tokens, settings, old(index), level, multiple, old(output));
              (ok <==> r.Some?) && (ok ==> r.value == (index, output))
      decreases |tokens| - index, 3
    {
      if index == |tokens| {
        return false;
      }
      if tokens[index].HardCloseTagToken? {
        if tokens[index].value == ">" {
          Output(tokens[index].value, false);
        } else if multiple {
          OutputLine(tokens[index].value, level);
        } else {
          Output(tokens[index].value, true);
        }
        return true;
      } else if tokens[index].SoftCloseTagToken? {
        Output(tokens[index].value, false);
      }
      index := index + 1;
      var children;
      ok, children := ConsumeChildren(level, multiple);
      if !ok {
        return false;
      }
      if CloseInline(tokens, settings, index, level, multiple, children) {
        Output(Value(tokens[index]), false);
      } else {
        OutputLine(Value(tokens[index]), level);
      }
    }

    /** The children loop of `ConsumeElement`: stops at the closing tag. */
    method ConsumeChildren(level: int, force: bool) returns (ok: bool, children: nat)
      requires index <= |tokens|
      modifies this
      ensures var r := ChildrenOut(tokens, settings, old(index), level, force, 0, old(output));
              (ok <==> r.Some?) && (ok ==> r.value == (index, children, output))
      decreases |tokens| - index, 2
    {
      children := 0;
      ghost var start := index;
      ghost var c := ChildrenOut(tokens, settings, index, level, force, 0, output);
      while true
        invariant start <= index <= |tokens|
        invariant ChildrenOut(tokens, settings, index, level, force, children, output) == c
        decreases |tokens| - index
      {
        if index == |tokens| {
          return false, children;
        }
        if tokens[index].HardCloseTagToken? {
          return true, children;
        }
        children := children + 1;
        ok := ConsumeToken(level, force);
        if !ok {
          return false, children;
        }
        index := index + 1;
      }
    }

    /** `Output`: the value, after a space when asked. */
    method Output(value: string, withSpace: bool)
      modifies this
      ensures index == old(index)
      ensures output == if withSpace then old(output) + " " + value else old(output) + value
    {
      if withSpace {
        output := output + " ";
      }
      output := output + value;
    }

    /** `OutputLine`. */
    method OutputLine(value: string, level: int)
      modifies this
      ensures index == old(index) && output == LineOut(old(output), value, level, settings)
    {
      var lines := SplitLines(value);
      for i := 0 to |lines|
        invariant index == old(index) && output == LinesOut(old(output), lines, i, level, settings)
      {
        if |output| > 0 {
          output := output + settings.newLine;
        }
        AppendIndentation(level);
        output := output + lines[i];
      }
    }

    /** The indentation loop of `OutputLine`. */
    method AppendIndentation(level: int)
      modifies this
      ensures index == old(index) && output == old(output) + Indent(settings.indentation, Depth(level))
    {
      var j := 0;
      while j < level
        invariant index == old(index) && Depth(j) <= Depth(level)
        invariant output == old(output) + Indent(settings.indentation, Depth(j))
        decreases level - j
      {
        output := output + settings.indentation;
        j := j + 1;
      }
    }
  }
}
