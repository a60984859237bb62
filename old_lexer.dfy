// The lexer of the older generation: a class that walks the template with
// an index and the start of the token being read, and produces typed tokens
// whose values are consecutive slices of the input, closed by an
// end-of-file token. A C# exception (an index past the end of the input)
// is a result of None.

module OldLexer {
  import opened Common

  /** The token records of the older lexer, one constructor per record. */
  datatype Kind =
    | BeginCloseTag | BeginCodeBlock | BeginComment | BeginInlineCodeBlock | BeginOpenTag
    | CarriageReturn | CodeBlockContent | EndCodeBlock | EndComment | EndOfFile | EndTag
    | Equals | Escape | NewLine | StringDelimiter | Tab | WhiteSpace | Word

  datatype LexToken = LexToken(kind: Kind, value: string)

  /** The values of the tokens, one after the other. */
  function Values(tokens: seq<LexToken>): string {
    if tokens == [] then "" else Values(tokens[..|tokens| - 1]) + tokens[|tokens| - 1].value
  }

  lemma ValuesAppend(a: seq<LexToken>, b: seq<LexToken>)
    ensures Values(a + b) == Values(a) + Values(b)
    decreases |b|
  {
    if b == [] {
      assert a + b == a;
    } else {
      assert (a + b)[..|a + b| - 1] == a + b[..|b| - 1];
      ValuesAppend(a, b[..|b| - 1]);
    }
  }

  lemma ValuesOfThree(a: LexToken, b: LexToken, c: LexToken)
    ensures Values([a, b, c]) == a.value + b.value + c.value
  {
    assert [a, b, c][..2] == [a, b] && [a, b][..1] == [a] && [a][..0] == [];
    assert Values([a]) == a.value;
    assert Values([a, b]) == a.value + b.value;
  }

  predicate IsWhiteSpace(c: char) {
    c == ' ' || c == '\t' || c == '\r' || c == '\n'
  }

  /** `NextStringIs(index, s)`: `s` is spelled from `index` on. */
  predicate StringAt(input: string, index: nat, s: string) {
    index + |s| <= |input| && input[index..index + |s|] == s
  }

  /** `IsEscaped(index)`: the character before `index` is a backslash that
      is not itself escaped. */
  predicate IsEscaped(input: string, index: nat)
    requires index <= |input|
  {
    index > 0 && input[index - 1] == '\\' && !IsEscaped(input, index - 1)
  }

  /** The number of backslashes that end just before `index`. */
  function BackslashRun(input: string, index: nat): (n: nat)
    requires index <= |input|
    ensures n <= index
    ensures forall k :: index - n <= k < index ==> input[k] == '\\'
    ensures n < index ==> input[index - n - 1] != '\\'
  {
    if index > 0 && input[index - 1] == '\\' then 1 + BackslashRun(input, index - 1) else 0
  }

  /** A character is escaped exactly when an odd number of backslashes
      precedes it. */
  lemma {:induction false} EscapedIffOddRun(input: string, index: nat)
    requires index <= |input|
    ensures IsEscaped(input, index) <==> BackslashRun(input, index) % 2 == 1
  {
    if index > 0 && input[index - 1] == '\\' {
      EscapedIffOddRun(input, index - 1);
    }
  }

  // ---------------------------------------------------------------- words

  /** The characters a word stops before: whitespace, `=`, `<`, `>`, a
      quote, `@`, a backslash, or a `-` that starts `-->`. */
  predicate StopsWord(input: string, j: nat)
    requires j < |input|
  {
    var c := input[j];
    IsWhiteSpace(c) || c == '=' || c == '<' || c == '>' || c == '"' || c == '\'' || c == '@' || c == '\\' ||
    (c == '-' && StringAt(input, j, "-->"))
  }

  /** Where `ConsumeWordToken`'s loop, looking at `j`, stops. */
  function WordEndFrom(input: string, j: nat): (r: nat)
    requires j <= |input|
    ensures j <= r <= |input|
    decreases |input| - j
  {
    if j == |input| || StopsWord(input, j) then j else WordEndFrom(input, j + 1)
  }

  /** A word runs from its first character up to the first character,
      after that one, that stops it, or the end of the input. */
  lemma {:induction false} WordEndFromStops(input: string, j: nat)
    requires j <= |input|
    ensures var r := WordEndFrom(input, j);
            (r == |input| || StopsWord(input, r)) && forall k :: j <= k < r ==> !StopsWord(input, k)
    decreases |input| - j
  {
    if j < |input| && !StopsWord(input, j) {
      WordEndFromStops(input, j + 1);
    }
  }

  // --------------------------------------------------------- code blocks

  /** `ConsumeCodeBlockContentToken`'s loop, having looked at `j`: it moves
      to the next character (None past the end), toggles the string flag
      at an unescaped `"`, counts braces outside strings, and stops at a
      `}` that brings the depth to zero. */
  function ContentFrom(input: string, j: nat, nestLevel: int, isInString: bool): (r: Option<nat>)
    requires j <= |input|
    ensures r.Some? ==> j < r.value < |input| && input[r.value] == '}'
    decreases |input| - j
  {
    if j + 1 >= |input| then None
    else
      var k := j + 1;
      var c := input[k];
      var toggles := c == '"' && !IsEscaped(input, k);
      var isInString' := if toggles then !isInString else isInString;
      var nestLevel' :=
        if toggles then nestLevel
        else if c == '{' && !isInString then nestLevel + 1
        else if c == '}' && !isInString then nestLevel - 1
        else nestLevel;
      if c != '}' || nestLevel' > 0 then ContentFrom(input, k, nestLevel', isInString')
      else Some(k)
  }

  /** `NextCharIs(index, c, true)` from `j`: skips whitespace; None when
      the skipping runs off the end. */
  function SkipWhiteSpace(input: string, j: nat): (r: Option<nat>)
    requires j <= |input|
    ensures r.Some? ==> j <= r.value < |input| && !IsWhiteSpace(input[r.value])
    decreases |input| - j
  {
    if j == |input| then None
    else if IsWhiteSpace(input[j]) then SkipWhiteSpace(input, j + 1)
    else Some(j)
  }

  /** Whether `@code` at `i` is followed, past whitespace, by `{`. */
  function BraceFollowsCode(input: string, i: nat): Option<bool>
    requires i + 5 <= |input|
  {
    if i + 5 == |input| then Some(false)
    else match SkipWhiteSpace(input, i + 5)
      case None => None
      case Some(j) => Some(input[j] == '{')
  }

  /** `AdvanceUntil(c)` from `j`: the first position after `j` holding `c`. */
  function NextIndexOf(input: string, j: nat, c: char): (r: Option<nat>)
    requires j < |input|
    ensures r.Some? ==> j < r.value < |input| && input[r.value] == c
    decreases |input| - j
  {
    if j + 1 == |input| then None
    else if input[j + 1] == c then Some(j + 1)
    else NextIndexOf(input, j + 1, c)
  }

  /** The opening, the content up to the matching `}`, and that `}`. */
  function CodeBlockTokens(input: string, i: nat, open: nat): (r: Option<(seq<LexToken>, nat)>)
    requires i < open <= |input|
    ensures r.Some? ==> i < r.value.1 <= |input| && Values(r.value.0) == input[i..r.value.1]
    ensures r.Some? ==> |r.value.0| == 3 && r.value.0[0].kind == BeginCodeBlock
  {
    match ContentFrom(input, open, 1, false)
    case None => None
    case Some(k) =>
      var ts := [LexToken(BeginCodeBlock, input[i..open]), LexToken(CodeBlockContent, input[open..k]),
                 LexToken(EndCodeBlock, input[k..k + 1])];
      ValuesOfThree(ts[0], ts[1], ts[2]);
      assert input[i..k + 1] == input[i..open] + input[open..k] + input[k..k + 1];
      Some(([LexToken(BeginCodeBlock, input[i..open]), LexToken(CodeBlockContent, input[open..k]),
             LexToken(EndCodeBlock, input[k..k + 1])], k + 1))
  }

  // ---------------------------------------------------------------- steps

  /** A token of `length` characters at `i`. */
  function Fixed(input: string, i: nat, length: nat, kind: Kind): (r: (seq<LexToken>, nat))
    requires i + length <= |input|
    ensures r.1 == i + length && Values(r.0) == input[i..r.1]
  {
    assert [LexToken(kind, input[i..i + length])][..0] == [];
    ([LexToken(kind, input[i..i + length])], i + length)
  }

  function WordAt(input: string, i: nat): (r: (seq<LexToken>, nat))
    requires i < |input|
    ensures i < r.1 <= |input| && Values(r.0) == input[i..r.1]
  {
    assert [LexToken(Word, input[i..WordEndFrom(input, i + 1)])][..0] == [];
    var j := WordEndFrom(input, i + 1);
    ([LexToken(Word, input[i..j])], j)
  }

  /** `ConsumeTokens`: the tokens read at `i` and the index after them. */
  function Step(input: string, i: nat): (r: Option<(seq<LexToken>, nat)>)
    requires i < |input|
    ensures r.Some? ==> i < r.value.1 <= |input| && Values(r.value.0) == input[i..r.value.1]
  {
    var c := input[i];
    if c == '@' then
      if i + 1 < |input| && input[i + 1] == '{' then CodeBlockTokens(input, i, i + 2)
      else if StringAt(input, i, "@code") then
        match BraceFollowsCode(input, i)
        case None => None
        case Some(false) => Some(WordAt(input, i))
        case Some(true) =>
          match NextIndexOf(input, i, '{')
          case None => None
          case Some(j) => CodeBlockTokens(input, i, j + 1)
      else Some(WordAt(input, i))
    else if c == '<' then
      if StringAt(input, i, "</") then Some(Fixed(input, i, 2, BeginCloseTag))
      else if StringAt(input, i, "<!--") then Some(Fixed(input, i, 4, BeginComment))
      else Some(Fixed(input, i, 1, BeginOpenTag))
    else if c == '>' then Some(Fixed(input, i, 1, EndTag))
    else if c == '"' || c == '\'' then
      if !IsEscaped(input, i) then Some(Fixed(input, i, 1, StringDelimiter)) else Some(WordAt(input, i))
    else if c == ' ' then Some(Fixed(input, i, 1, WhiteSpace))
    else if c == '-' then
      if StringAt(input, i, "-->") then Some(Fixed(input, i, 3, EndComment)) else Some(WordAt(input, i))
    else if c == '=' then Some(Fixed(input, i, 1, Equals))
    else if c == '\n' then Some(Fixed(input, i, 1, NewLine))
    else if c == '\r' then Some(Fixed(input, i, 1, CarriageReturn))
    else if c == '\t' then Some(Fixed(input, i, 1, Tab))
    else if c == '\\' then Some(Fixed(input, i, 1, Escape))
    else Some(WordAt(input, i))
  }

  /** `Lex` from `i` on: the tokens of every step, then the end-of-file
      token. */
  function LexFrom(input: string, i: nat): Option<seq<LexToken>>
    requires i <= |input|
    decreases |input| - i
  {
    if i == |input| then Some([LexToken(EndOfFile, "")])
    else match Step(input, i)
      case None => None
      case Some((tokens, j)) =>
        match LexFrom(input, j)
        case None => None
        case Some(rest) => Some(tokens + rest)
  }

  /** The tokens tile the input and the last one is the end of file. */
  lemma {:induction false} LexTiles(input: string, i: nat)
    requires i <= |input|
    ensures var r := LexFrom(input, i);
            r.Some? ==> Values(r.value) == input[i..] && r.value != [] && r.value[|r.value| - 1] == LexToken(EndOfFile, "")
    decreases |input| - i
  {
    if i == |input| {
      assert Values([LexToken(EndOfFile, "")]) == Values([]) + "";
    } else {
      match Step(input, i)
      case None =>
      case Some((tokens, j)) =>
        LexTiles(input, j);
        if LexFrom(input, j).Some? {
          var rest := LexFrom(input, j).value;
          ValuesAppend(tokens, rest);
          assert input[i..] == input[i..j] + input[j..];
          assert (tokens + rest)[|tokens + rest| - 1] == rest[|rest| - 1];
        }
    }
  }

  // ---------------------------------------------------------- properties

  /** Space, tab, CR, LF, `=` and a backslash are tokens of one character. */
  lemma OneCharacterTokens(input: string, i: nat)
    requires i < |input|
    requires var c := input[i]; IsWhiteSpace(c) || c == '=' || c == '\\'
    ensures var r := Step(input, i);
            r.Some? && r.value.1 == i + 1 && |r.value.0| == 1 && r.value.0[0].value == [input[i]] &&
            r.value.0[0].kind == match input[i]
                                 case ' ' => WhiteSpace
                                 case '\t' => Tab
                                 case '\r' => CarriageReturn
                                 case '\n' => NewLine
                                 case '=' => Equals
                                 case _ => Escape
  {
    assert input[i..i + 1] == [input[i]];
  }

  /** A quote is a string delimiter of its own unless it is escaped; an
      escaped quote starts a word. */
  lemma QuoteTokens(input: string, i: nat)
    requires i < |input| && (input[i] == '"' || input[i] == '\'')
    ensures var r := Step(input, i);
            r.Some? && |r.value.0| == 1 && r.value.0[0].value[0] == input[i] &&
            (r.value.0[0].kind == StringDelimiter <==> !IsEscaped(input, i)) &&
            (r.value.0[0].kind == StringDelimiter ==> r.value.0[0].value == [input[i]]) &&
            (r.value.0[0].kind != StringDelimiter ==> r.value.0[0].kind == Word)
  {
  }

  /** `</` opens a closing tag, `<!--` a comment, any other `<` an opening
      tag. */
  lemma BeginTagTokens(input: string, i: nat)
    requires i < |input| && input[i] == '<'
    ensures var r := Step(input, i);
            r.Some? && |r.value.0| == 1 &&
            (r.value.0[0].kind == BeginCloseTag <==> StringAt(input, i, "</")) &&
            (r.value.0[0].kind == BeginComment <==> StringAt(input, i, "<!--")) &&
            (r.value.0[0].kind == BeginOpenTag <==> !StringAt(input, i, "</") && !StringAt(input, i, "<!--")) &&
            (r.value.0[0].kind == BeginOpenTag ==> r.value.0[0].value == "<")
  {
    if StringAt(input, i, "<!--") {
      assert input[i + 1] == '!';
    }
    assert input[i..i + 1] == "<";
  }

  /** A word token holds no character that stops a word after its first
      one, and the character after it, if any, stops it. */
  lemma WordTokenStops(input: string, i: nat)
    requires i < |input|
    requires Step(input, i).Some? && Step(input, i).value.0[0].kind == Word
    ensures var (tokens, j) := Step(input, i).value;
            tokens == [LexToken(Word, input[i..j])] &&
            (forall k :: i < k < j ==> !StopsWord(input, k)) && (j == |input| || StopsWord(input, j))
  {
    var c := input[i];
    assert Step(input, i).value == WordAt(input, i) by {
      if c == '@' {
      } else if c == '<' || c == '-' || c == '"' || c == '\'' {
      }
    }
    WordEndFromStops(input, i + 1);
  }

  /** `@{` yields the opening, the content, and a closing `}`. */
  lemma CodeBlockTokensShape(input: string, i: nat)
    requires i + 1 < |input| && input[i] == '@' && input[i + 1] == '{'
    ensures var r := Step(input, i);
            r.Some? ==> |r.value.0| == 3 &&
                        r.value.0[0] == LexToken(BeginCodeBlock, "@{") &&
                        r.value.0[1].kind == CodeBlockContent &&
                        r.value.0[2] == LexToken(EndCodeBlock, "}")
  {
    assert input[i..i + 2] == "@{";
    var r := Step(input, i);
    if r.Some? {
      var k := ContentFrom(input, i + 2, 1, false).value;
      assert input[k..k + 1] == "}";
    }
  }

  /** The content loop moves before it looks, so the character right
      after `@{` is never examined: `@{}` runs past the end. */
  lemma EmptyCodeBlockFaults()
    ensures Step("@{}", 0) == None
  {
    assert ContentFrom("@{}", 2, 1, false) == None;
  }

  // ------------------------------------------------------------ the class

  class Lexer {
    const input: string
    var index: nat
    var tokenStart: nat

    constructor(input: string)
      ensures this.input == input && index == 0 && tokenStart == 0
    {
      this.input := input;
      index := 0;
      tokenStart := 0;
    }

    /** `Lex`: all the tokens, or None when a routine reads past the end. */
    method Lex() returns (r: Option<seq<LexToken>>)
      modifies this
      ensures r == LexFrom(input, 0)
    {
      index := 0;
      tokenStart := index;
      var tokens: seq<LexToken> := [];
      if LexFrom(input, 0).Some? {
        assert tokens + LexFrom(input, 0).value == LexFrom(input, 0).value;
      }
      while index < |input|
        invariant index <= |input| && tokenStart == index
        invariant LexFrom(input, 0) == match LexFrom(input, index)
                                        case None => None
                                        case Some(rest) => Some(tokens + rest)
        decreases |input| - index
      {
        ghost var i := index;
        var step := ConsumeTokens();
        if step.None? {
          return None;
        }
        assert LexFrom(input, i) == match LexFrom(input, index)
                                    case None => None
                                    case Some(rest) => Some(step.value + rest);
        if LexFrom(input, index).Some? {
          assert tokens + (step.value + LexFrom(input, index).value) ==
                 (tokens + step.value) + LexFrom(input, index).value;
        }
        tokens := tokens + step.value;
      }
      r := Some(tokens + [LexToken(EndOfFile, "")]);
    }

    /** `ConsumeTokens`: the tokens read at the current character. */
    method ConsumeTokens() returns (r: Option<seq<LexToken>>)
      requires index < |input| && tokenStart == index
      modifies this
      ensures var s := Step(input, old(index));
              r.Some? <==> s.Some?
      ensures r.Some? ==> r.value == Step(input, old(index)).value.0 &&
                          index == Step(input, old(index)).value.1 && tokenStart == index
    {
      var c := input[index];
      if c == '@' {
        r := ConsumeCodeBlockTokenOrWordToken();
      } else if c == '<' {
        var t := ConsumeBeginTagToken();
        r := Some([t]);
      } else if c == '>' {
        var t := ConsumeFixedLengthToken(1, EndTag);
        r := Some([t]);
      } else if c == '"' || c == '\'' {
        var t := ConsumeStringDelimiterTokenOrWordToken();
        r := Some([t]);
      } else if c == ' ' {
        var t := ConsumeFixedLengthToken(1, WhiteSpace);
        r := Some([t]);
      } else if c == '-' {
        var t := ConsumeEndCommentTokenOrWordToken();
        r := Some([t]);
      } else if c == '=' {
        var t := ConsumeFixedLengthToken(1, Equals);
        r := Some([t]);
      } else if c == '\n' {
        var t := ConsumeFixedLengthToken(1, NewLine);
        r := Some([t]);
      } else if c == '\r' {
        var t := ConsumeFixedLengthToken(1, CarriageReturn);
        r := Some([t]);
      } else if c == '\t' {
        var t := ConsumeFixedLengthToken(1, Tab);
        r := Some([t]);
      } else if c == '\\' {
        var t := ConsumeFixedLengthToken(1, Escape);
        r := Some([t]);
      } else {
        var t := ConsumeWordToken();
        r := Some([t]);
      }
    }

    /** `ReadToken`: the token from the token start to the index; the next
        token starts here. */
    method ReadToken(kind: Kind) returns (t: LexToken)
      requires tokenStart <= index <= |input|
      modifies this
      ensures index == old(index) && tokenStart == index && t == LexToken(kind, input[old(tokenStart)..index])
    {
      t := LexToken(kind, input[tokenStart..index]);
      tokenStart := index;
    }

    method ConsumeFixedLengthToken(length: nat, kind: Kind) returns (t: LexToken)
      requires tokenStart == index && index + length <= |input|
      modifies this
      ensures ([t], index) == Fixed(input, old(index), length, kind) && tokenStart == index
    {
      index := index + length;
      t := ReadToken(kind);
    }

    /** `NextStringIs(at, s)`, a character-by-character comparison. */
    method NextStringIs(at: nat, s: string) returns (b: bool)
      requires at <= |input|
      ensures b == StringAt(input, at, s)
    {
      var i := 0;
      while i < |s|
        invariant i <= |s|
        invariant at + i <= |input| && input[at..at + i] == s[..i]
      {
        if at + i == |input| || input[at + i] != s[i] {
          return false;
        }
        assert input[at..at + i + 1] == input[at..at + i] + [input[at + i]];
        assert s[..i + 1] == s[..i] + [s[i]];
        i := i + 1;
      }
      assert s[..i] == s;
      b := true;
    }

    method ConsumeBeginTagToken() returns (t: LexToken)
      requires tokenStart == index < |input| && input[index] == '<'
      modifies this
      ensures Step(input, old(index)) == Some(([t], index)) && tokenStart == index
    {
      var closeTag := NextStringIs(index, "</");
      if closeTag {
        t := ConsumeFixedLengthToken(2, BeginCloseTag);
      } else {
        var comment := NextStringIs(index, "<!--");
        if comment {
          t := ConsumeFixedLengthToken(4, BeginComment);
        } else {
          t := ConsumeFixedLengthToken(1, BeginOpenTag);
        }
      }
    }

    method ConsumeStringDelimiterTokenOrWordToken() returns (t: LexToken)
      requires tokenStart == index < |input| && (input[index] == '"' || input[index] == '\'')
      modifies this
      ensures Step(input, old(index)) == Some(([t], index)) && tokenStart == index
    {
      if !IsEscaped(input, index) {
        t := ConsumeFixedLengthToken(1, StringDelimiter);
      } else {
        t := ConsumeWordToken();
      }
    }

    method ConsumeEndCommentTokenOrWordToken() returns (t: LexToken)
      requires tokenStart == index < |input| && input[index] == '-'
      modifies this
      ensures Step(input, old(index)) == Some(([t], index)) && tokenStart == index
    {
      var close := NextStringIs(index, "-->");
      if close {
        t := ConsumeFixedLengthToken(3, EndComment);
      } else {
        t := ConsumeWordToken();
      }
    }

    /** `ConsumeWordToken`: at least one character, then up to the first
        character that stops a word. */
    method ConsumeWordToken() returns (t: LexToken)
      requires tokenStart == index < |input|
      modifies this
      ensures ([t], index) == WordAt(input, old(index)) && tokenStart == index
    {
      index := index + 1;
      while index < |input| && !StopsWord(input, index)
        invariant tokenStart == old(index) < index <= |input|
        invariant WordEndFrom(input, index) == WordEndFrom(input, tokenStart + 1)
        decreases |input| - index
      {
        index := index + 1;
      }
      assert WordEndFrom(input, index) == index;
      t := ReadToken(Word);
    }

    /** `ConsumeCodeBlockContentToken`: the content up to the `}` that
        closes the block; None when the input ends first. */
    method ConsumeCodeBlockContentToken() returns (r: Option<LexToken>)
      requires tokenStart == index <= |input|
      modifies this
      ensures r.Some? <==> ContentFrom(input, old(index), 1, false).Some?
      ensures r.Some? ==> index == ContentFrom(input, old(index), 1, false).value && tokenStart == index &&
                          r.value == LexToken(CodeBlockContent, input[old(index)..index])
    {
      var nestLevel := 1;
      var isInString := false;
      ghost var start := index;
      while true
        invariant start <= index <= |input| && tokenStart == start
        invariant ContentFrom(input, index, nestLevel, isInString) == ContentFrom(input, start, 1, false)
        decreases |input| - index
      {
        if index + 1 >= |input| {
          return None;
        }
        index := index + 1;
        var c := input[index];
        if c == '"' && !IsEscaped(input, index) {
          isInString := !isInString;
        } else if c == '{' && !isInString {
          nestLevel := nestLevel + 1;
        } else if c == '}' && !isInString {
          nestLevel := nestLevel - 1;
        }
        if c == '}' && nestLevel <= 0 {
          break;
        }
      }
      var t := ReadToken(CodeBlockContent);
      r := Some(t);
    }

    /** `NextCharIs(index + 4, '{', true)` for `@code`: whether, past
        whitespace, a `{` follows; None when the whitespace runs to the end. */
    method CodeBraceFollows() returns (r: Option<bool>)
      requires index + 5 <= |input|
      ensures r == BraceFollowsCode(input, index)
    {
      var i := index + 5;
      if i == |input| {
        return Some(false);
      }
      while IsWhiteSpace(input[i])
        invariant index + 5 <= i < |input|
        invariant SkipWhiteSpace(input, i) == SkipWhiteSpace(input, index + 5)
        decreases |input| - i
      {
        i := i + 1;
        if i == |input| {
          return None;
        }
      }
      r := Some(input[i] == '{');
    }

    /** `AdvanceUntil(c)`: moves at least once, then on to the next `c`;
        false when the input ends first. */
    method AdvanceUntil(c: char) returns (ok: bool)
      requires index < |input|
      modifies this
      ensures ok <==> NextIndexOf(input, old(index), c).Some?
      ensures ok ==> index == NextIndexOf(input, old(index), c).value
      ensures tokenStart == old(tokenStart)
    {
      ghost var start := index;
      while true
        invariant start <= index < |input| && tokenStart == old(tokenStart)
        invariant NextIndexOf(input, index, c) == NextIndexOf(input, start, c)
        decreases |input| - index
      {
        if index + 1 == |input| {
          return false;
        }
        index := index + 1;
        if input[index] == c {
          return true;
        }
      }
    }

    /** The three tokens of a code block whose opening ends at the index. */
    method ConsumeCodeBlock(ghost i: nat) returns (r: Option<seq<LexToken>>)
      requires tokenStart == i < index <= |input|
      modifies this
      ensures var s := CodeBlockTokens(input, i, old(index));
              r.Some? <==> s.Some?
      ensures r.Some? ==> r.value == CodeBlockTokens(input, i, old(index)).value.0 &&
                          index == CodeBlockTokens(input, i, old(index)).value.1 && tokenStart == index
    {
      var open := ReadToken(BeginCodeBlock);
      var content := ConsumeCodeBlockContentToken();
      if content.None? {
        return None;
      }
      var close := ConsumeFixedLengthToken(1, EndCodeBlock);
      r := Some([open, content.value, close]);
    }

    /** `ConsumeCodeBlockTokenOrWordToken`: `@{` or `@code … {` opens a
        code block; any other `@` starts a word. */
    method ConsumeCodeBlockTokenOrWordToken() returns (r: Option<seq<LexToken>>)
      requires tokenStart == index < |input| && input[index] == '@'
      modifies this
      ensures var s := Step(input, old(index));
              r.Some? <==> s.Some?
      ensures r.Some? ==> r.value == Step(input, old(index)).value.0 &&
                          index == Step(input, old(index)).value.1 && tokenStart == index
    {
      ghost var i := index;
      if index + 1 < |input| && input[index + 1] == '{' {
        index := index + 2;
        r := ConsumeCodeBlock(i);
        return;
      }
      var code := NextStringIs(index, "@code");
      if code {
        var brace := CodeBraceFollows();
        if brace.None? {
          return None;
        }
        if brace.value {
          var found := AdvanceUntil('{');
          if !found {
            return None;
          }
          index := index + 1;
          r := ConsumeCodeBlock(i);
          return;
        }
      }
      var t := ConsumeWordToken();
      r := Some([t]);
    }
  }
}
