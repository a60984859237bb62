// The parser's consume routines that do not recurse: each walks the lexeme
// array from the lexeme it is given and builds one token. Each routine is a
// method with the loops of the source, proved equal to a function that
// says what it computes. `OutOfRange` stands for the source reading past
// the end of the lexeme array.

module Scans {
  import opened Common
  import opened Lexemes
  import opened Classifier
  import opened Tokens

  /** A token and the index of the lexeme after it, or a read past the end. */
  datatype Consumed<T> = Consumed(token: T, next: nat) | OutOfRange

  // ---------------------------------------------------------------- searches

  /** The first lexeme of kind `t` from `from` on, whitespace included. */
  function FirstKind(lexemes: seq<Lexeme>, t: LexemeType, from: nat): (r: Option<nat>)
    ensures r.Some? ==>
      from <= r.value < |lexemes| && lexemes[r.value].kind == t &&
      forall m :: from <= m < r.value ==> lexemes[m].kind != t
    ensures r.None? ==> forall m :: from <= m < |lexemes| ==> lexemes[m].kind != t
    decreases |lexemes| - from
  {
    if from >= |lexemes| then None
    else if lexemes[from].kind == t then Some(from)
    else FirstKind(lexemes, t, from + 1)
  }

  /** A line break or the end of the file. */
  predicate IsLineEnd(t: LexemeType) {
    t == LexemeType.NewLine || t == LexemeType.CarriageReturn || t == EndOfFile
  }

  /** The first line break or end-of-file lexeme from `from` on. */
  function LineEnd(lexemes: seq<Lexeme>, from: nat): (r: nat)
    requires from < |lexemes| && lexemes[|lexemes| - 1].kind == EndOfFile
    ensures from <= r < |lexemes| && IsLineEnd(lexemes[r].kind)
    ensures forall m :: from <= m < r ==> !IsLineEnd(lexemes[m].kind)
    decreases |lexemes| - from
  {
    if IsLineEnd(lexemes[from].kind) then from else LineEnd(lexemes, from + 1)
  }

  // ------------------------------------------------------------ HTML comment

  /** `-->` starts at lexeme `m`. */
  predicate HtmlCloseAt(lexemes: seq<Lexeme>, m: nat)
    requires m < |lexemes|
  {
    lexemes[m].kind == Dash && m + 2 < |lexemes| &&
    lexemes[m + 1].kind == Dash && lexemes[m + 2].kind == RightChevron
  }

  function HtmlCommentEnd(lexemes: seq<Lexeme>, from: nat): (r: Option<nat>)
    ensures r.Some? ==>
      from <= r.value < |lexemes| && HtmlCloseAt(lexemes, r.value) &&
      forall m :: from <= m < r.value ==> !HtmlCloseAt(lexemes, m)
    ensures r.None? ==> forall m :: from <= m < |lexemes| ==> !HtmlCloseAt(lexemes, m)
    decreases |lexemes| - from
  {
    if from >= |lexemes| then None
    else if HtmlCloseAt(lexemes, from) then Some(from)
    else HtmlCommentEnd(lexemes, from + 1)
  }

  /** `<!--` at `i`: the content starts four lexemes on and runs to the first
      `-->` from there. */
  function HtmlCommentAt(lexemes: seq<Lexeme>, i: nat, source: string): Consumed<Token>
    requires Ordered(lexemes, source) && i < |lexemes|
  {
    if i + 4 >= |lexemes| then OutOfRange
    else match HtmlCommentEnd(lexemes, i + 4)
      case None => OutOfRange
      case Some(c) =>
        Consumed(CommentToken(3, lexemes[c].offset, Distance(lexemes, source, i + 4, c),
                              lexemes[i + 4].offset, 4, lexemes[i].offset), c + 3)
  }

  method ConsumeHtmlComment(lexemes: seq<Lexeme>, i: nat, ghost source: string) returns (r: Consumed<Token>)
    requires Ordered(lexemes, source) && i < |lexemes|
    ensures r == HtmlCommentAt(lexemes, i, source)
  {
    var openOffset := lexemes[i].offset;
    var index := i + 4;
    if index >= |lexemes| {
      return OutOfRange;
    }
    var contentOffset := lexemes[index].offset;
    while lexemes[index].kind != Dash || lexemes[index + 1].kind != Dash ||
          lexemes[index + 2].kind != RightChevron
      invariant i + 4 <= index < |lexemes|
      invariant HtmlCommentEnd(lexemes, index) == HtmlCommentEnd(lexemes, i + 4)
      decreases |lexemes| - index
    {
      index := index + 1;
      if index >= |lexemes| {
        return OutOfRange;
      }
    }
    r := Consumed(CommentToken(3, lexemes[index].offset, Distance(lexemes, source, i + 4, index),
                               contentOffset, 4, openOffset), index + 3);
  }

  // ----------------------------------------------------------- Razor comment

  /** `*@` starts at lexeme `m`. */
  predicate RazorCloseAt(lexemes: seq<Lexeme>, m: nat)
    requires m < |lexemes|
  {
    lexemes[m].kind == Asterisk && m + 1 < |lexemes| && lexemes[m + 1].kind == At
  }

  function RazorCommentEnd(lexemes: seq<Lexeme>, from: nat): (r: Option<nat>)
    ensures r.Some? ==>
      from <= r.value < |lexemes| && RazorCloseAt(lexemes, r.value) &&
      forall m :: from <= m < r.value ==> !RazorCloseAt(lexemes, m)
    ensures r.None? ==> forall m :: from <= m < |lexemes| ==> !RazorCloseAt(lexemes, m)
    decreases |lexemes| - from
  {
    if from >= |lexemes| then None
    else if RazorCloseAt(lexemes, from) then Some(from)
    else RazorCommentEnd(lexemes, from + 1)
  }

  /** `@*` at `i`: the content starts two lexemes on and runs to the first `*@`. */
  function RazorCommentAt(lexemes: seq<Lexeme>, i: nat, source: string): Consumed<Token>
    requires Ordered(lexemes, source) && i < |lexemes|
  {
    if i + 2 >= |lexemes| then OutOfRange
    else match RazorCommentEnd(lexemes, i + 2)
      case None => OutOfRange
      case Some(c) =>
        Consumed(CommentToken(2, lexemes[c].offset, Distance(lexemes, source, i + 2, c),
                              lexemes[i + 2].offset, 2, lexemes[i].offset), c + 2)
  }

  method ConsumeRazorComment(lexemes: seq<Lexeme>, i: nat, ghost source: string) returns (r: Consumed<Token>)
    requires Ordered(lexemes, source) && i < |lexemes|
    ensures r == RazorCommentAt(lexemes, i, source)
  {
    var openOffset := lexemes[i].offset;
    var index := i + 2;
    if index >= |lexemes| {
      return OutOfRange;
    }
    var contentOffset := lexemes[index].offset;
    while lexemes[index].kind != Asterisk || lexemes[index + 1].kind != At
      invariant i + 2 <= index < |lexemes|
      invariant RazorCommentEnd(lexemes, index) == RazorCommentEnd(lexemes, i + 2)
      decreases |lexemes| - index
    {
      index := index + 1;
      if index >= |lexemes| {
        return OutOfRange;
      }
    }
    r := Consumed(CommentToken(2, lexemes[index].offset, Distance(lexemes, source, i + 2, index),
                               contentOffset, 2, openOffset), index + 2);
  }

  // ----------------------------------------------------- explicit expression

  /** The string flag and parenthesis depth after lexeme `j`. */
  function ParenthesisStep(lexemes: seq<Lexeme>, j: nat, inString: bool, nest: int): (bool, int)
    requires j < |lexemes|
  {
    var t := lexemes[j].kind;
    if t == DoubleQuote && !IsEscaped(lexemes, j) then (!inString, nest)
    else if t == LeftParenthesis && !inString then (inString, nest + 1)
    else if t == RightParenthesis && !inString then (inString, nest - 1)
    else (inString, nest)
  }

  /** The closing parenthesis: the first lexeme from `j` on that is a `)`
      outside a string and takes the depth below zero. */
  function ClosingParenthesis(lexemes: seq<Lexeme>, j: nat, inString: bool, nest: int): (r: Option<nat>)
    ensures r.Some? ==> j <= r.value < |lexemes| && lexemes[r.value].kind == RightParenthesis
    decreases |lexemes| - j
  {
    if j >= |lexemes| then None
    else
      var (s, n) := ParenthesisStep(lexemes, j, inString, nest);
      if lexemes[j].kind == RightParenthesis && !inString && n < 0 then Some(j)
      else ClosingParenthesis(lexemes, j + 1, s, n)
  }

  /** `@(` at `i`: the token runs to the matching closing parenthesis. */
  function ExplicitAt(lexemes: seq<Lexeme>, i: nat, source: string): Consumed<Token>
    requires Ordered(lexemes, source) && i < |lexemes|
  {
    match ClosingParenthesis(lexemes, i + 2, false, 0)
    case None => OutOfRange
    case Some(c) => Consumed(ExplicitRazorExpressionToken(lexemes[c].offset, lexemes[i].offset), c + 1)
  }

  method ConsumeExplicitRazorExpression(lexemes: seq<Lexeme>, i: nat, ghost source: string)
    returns (r: Consumed<Token>)
    requires Ordered(lexemes, source) && i < |lexemes|
    ensures r == ExplicitAt(lexemes, i, source)
  {
    var isInString := false;
    var nestLevel := 0;
    var openOffset := lexemes[i].offset;
    var index := i + 2;
    while index < |lexemes|
      invariant i + 2 <= index
      invariant ClosingParenthesis(lexemes, index, isInString, nestLevel) ==
                ClosingParenthesis(lexemes, i + 2, false, 0)
      decreases |lexemes| - index
    {
      if lexemes[index].kind == DoubleQuote && !IsEscaped(lexemes, index) {
        isInString := !isInString;
      } else if lexemes[index].kind == LeftParenthesis && !isInString {
        nestLevel := nestLevel + 1;
      } else if lexemes[index].kind == RightParenthesis && !isInString {
        nestLevel := nestLevel - 1;
        if nestLevel < 0 {
          break;
        }
      }
      index := index + 1;
    }
    if index >= |lexemes| {
      return OutOfRange;
    }
    r := Consumed(ExplicitRazorExpressionToken(lexemes[index].offset, openOffset), index + 1);
  }

  // ----------------------------------------------------- implicit expression

  /** Where an implicit expression stops: whitespace, `<` or end-of-file. */
  predicate EndsImplicit(t: LexemeType) {
    IsAnyWhiteSpaceType(t) || t == LeftChevron || t == EndOfFile
  }

  function ImplicitEnd(lexemes: seq<Lexeme>, from: nat): (r: nat)
    requires from < |lexemes| && lexemes[|lexemes| - 1].kind == EndOfFile
    ensures from <= r < |lexemes| && EndsImplicit(lexemes[r].kind)
    ensures forall m :: from <= m < r ==> !EndsImplicit(lexemes[m].kind)
    decreases |lexemes| - from
  {
    if EndsImplicit(lexemes[from].kind) then from else ImplicitEnd(lexemes, from + 1)
  }

  /** Where an implicit expression's code starts: after `@`, and after an
      `await` and the blanks behind it. */
  function ImplicitStart(lexemes: seq<Lexeme>, i: nat, source: string): (r: nat)
    requires Bounded(lexemes, source) && i + 1 < |lexemes|
    ensures i + 1 <= r < |lexemes|
  {
    if Value(lexemes[i + 1], source) == "await" then SkipBlanks(lexemes, i + 2) else i + 1
  }

  /** `@` at `i`: the expression runs from `@` to the next whitespace, `<`
      or end-of-file after its start. */
  function ImplicitAt(lexemes: seq<Lexeme>, i: nat, source: string): Consumed<Token>
    requires Ordered(lexemes, source) && i < |lexemes|
  {
    if i + 1 >= |lexemes| then OutOfRange
    else
      var e := ImplicitEnd(lexemes, ImplicitStart(lexemes, i, source));
      Consumed(ImplicitRazorExpressionToken(Distance(lexemes, source, i, e), lexemes[i].offset), e)
  }

  /** The `await` step of the source's implicit-expression routine. */
  method SkipAwait(lexemes: seq<Lexeme>, i: nat, source: string) returns (index: nat)
    requires Bounded(lexemes, source) && i + 1 < |lexemes|
    ensures index == ImplicitStart(lexemes, i, source)
  {
    index := i + 1;
    if Value(lexemes[index], source) == "await" {
      index := index + 1;
      while lexemes[index].kind == WhiteSpace || lexemes[index].kind == Tab
        invariant i + 2 <= index < |lexemes|
        invariant SkipBlanks(lexemes, index) == SkipBlanks(lexemes, i + 2)
        decreases |lexemes| - index
      {
        index := index + 1;
      }
    }
  }

  method ConsumeImplicitRazorExpression(lexemes: seq<Lexeme>, i: nat, source: string) returns (r: Consumed<Token>)
    requires Ordered(lexemes, source) && i < |lexemes|
    ensures r == ImplicitAt(lexemes, i, source)
  {
    var offset := lexemes[i].offset;
    if i + 1 >= |lexemes| {
      return OutOfRange;
    }
    var index := SkipAwait(lexemes, i, source);
    ghost var start := index;
    while !IsAnyWhiteSpaceType(lexemes[index].kind) && lexemes[index].kind != LeftChevron &&
          lexemes[index].kind != EndOfFile
      invariant start <= index < |lexemes|
      invariant ImplicitEnd(lexemes, index) == ImplicitEnd(lexemes, start)
      decreases |lexemes| - index
    {
      index := index + 1;
    }
    r := Consumed(ImplicitRazorExpressionToken(Distance(lexemes, source, i, index), offset), index);
  }

  // ------------------------------------------------------ line-level directive

  /** `@` and a directive at `i`: the directive spans both, the line starts
      after the blanks behind them and runs to the line break or end-of-file. */
  function DirectiveAt(lexemes: seq<Lexeme>, i: nat, source: string): Consumed<Token>
    requires Ordered(lexemes, source) && i < |lexemes|
  {
    if i + 2 >= |lexemes| then OutOfRange
    else
      var s := SkipBlanks(lexemes, i + 2);
      var e := LineEnd(lexemes, s);
      Consumed(LineLevelDirectiveToken(Distance(lexemes, source, i, i + 2), lexemes[i].offset,
                                       Distance(lexemes, source, s, e), lexemes[s].offset), e)
  }

  method ConsumeLineLevelDirective(lexemes: seq<Lexeme>, i: nat, ghost source: string) returns (r: Consumed<Token>)
    requires Ordered(lexemes, source) && i < |lexemes|
    ensures r == DirectiveAt(lexemes, i, source)
  {
    var directiveOffset := lexemes[i].offset;
    var index := i + 2;
    if index >= |lexemes| {
      return OutOfRange;
    }
    var directiveLength := Distance(lexemes, source, i, index);
    while lexemes[index].kind == WhiteSpace || lexemes[index].kind == Tab
      invariant i + 2 <= index < |lexemes|
      invariant SkipBlanks(lexemes, index) == SkipBlanks(lexemes, i + 2)
      decreases |lexemes| - index
    {
      index := index + 1;
    }
    var lineOffset := lexemes[index].offset;
    var lineStart := index;
    while lexemes[index].kind != LexemeType.NewLine && lexemes[index].kind != LexemeType.CarriageReturn &&
          lexemes[index].kind != EndOfFile
      invariant lineStart <= index < |lexemes|
      invariant LineEnd(lexemes, index) == LineEnd(lexemes, lineStart)
      decreases |lexemes| - index
    {
      index := index + 1;
    }
    r := Consumed(LineLevelDirectiveToken(directiveLength, directiveOffset,
                                          Distance(lexemes, source, lineStart, index), lineOffset), index);
  }

  // --------------------------------------------------------------------- text

  /** Text goes on over lexemes the classifier calls text or ignores. */
  ghost predicate ContinuesText(lexemes: seq<Lexeme>, j: nat, source: string)
    requires Bounded(lexemes, source) && j < |lexemes|
  {
    lexemes[j].kind != EndOfFile &&
    (Classify(lexemes, j, source) == TokenType.Text || Classify(lexemes, j, source) == Ignore)
  }

  ghost function TextEnd(lexemes: seq<Lexeme>, from: nat, source: string): (r: nat)
    requires Bounded(lexemes, source) && from < |lexemes|
    ensures from <= r < |lexemes| && !ContinuesText(lexemes, r, source)
    ensures forall m :: from <= m < r ==> ContinuesText(lexemes, m, source)
    decreases |lexemes| - from
  {
    if !ContinuesText(lexemes, from, source) then from else TextEnd(lexemes, from + 1, source)
  }

  /** Text at `i`: it takes in every following lexeme that is text or ignored. */
  ghost function TextAt(lexemes: seq<Lexeme>, i: nat, source: string): Consumed<Token>
    requires Ordered(lexemes, source) && i < |lexemes|
  {
    if i + 1 >= |lexemes| then OutOfRange
    else
      var e := TextEnd(lexemes, i + 1, source);
      Consumed(TextToken(Distance(lexemes, source, i, e), lexemes[i].offset), e)
  }

  method ConsumeText(lexemes: seq<Lexeme>, i: nat, source: string) returns (r: Consumed<Token>)
    requires Ordered(lexemes, source) && i < |lexemes|
    ensures r == TextAt(lexemes, i, source)
  {
    var offset := lexemes[i].offset;
    var index := i + 1;
    if index >= |lexemes| {
      return OutOfRange;
    }
    while lexemes[index].kind != EndOfFile
      invariant i + 1 <= index < |lexemes|
      invariant TextEnd(lexemes, index, source) == TextEnd(lexemes, i + 1, source)
      decreases |lexemes| - index
    {
      var tokenType := GetTokenType(lexemes, index, source);
      if tokenType != TokenType.Text && tokenType != Ignore {
        break;
      }
      index := index + 1;
    }
    r := Consumed(TextToken(Distance(lexemes, source, i, index), offset), index);
  }

  // ---------------------------------------------------------------- attribute

  /** Where an attribute key stops: `=`, whitespace, `/` or `>`. */
  predicate EndsKey(t: LexemeType) {
    t == LexemeType.Equals || IsAnyWhiteSpaceType(t) || t == ForwardSlash || t == RightChevron
  }

  function KeyEnd(lexemes: seq<Lexeme>, from: nat): (r: Option<nat>)
    ensures r.Some? ==>
      from <= r.value < |lexemes| && EndsKey(lexemes[r.value].kind) &&
      forall m :: from <= m < r.value ==> !EndsKey(lexemes[m].kind)
    ensures r.None? ==> forall m :: from <= m < |lexemes| ==> !EndsKey(lexemes[m].kind)
    decreases |lexemes| - from
  {
    if from >= |lexemes| then None
    else if EndsKey(lexemes[from].kind) then Some(from)
    else KeyEnd(lexemes, from + 1)
  }

  /** The value goes on while a `@(` expression is open; an unquoted value
      until `/`, `>` or whitespace; a quoted one until an unescaped quote of
      the same kind. */
  predicate ValueContinues(lexemes: seq<Lexeme>, j: nat, nest: int, delimiter: Option<LexemeType>)
    requires j < |lexemes|
  {
    var t := lexemes[j].kind;
    nest > 0 ||
    (delimiter.None? && t != ForwardSlash && t != RightChevron && !IsAnyWhiteSpaceType(t)) ||
    (delimiter.Some? && (t != delimiter.value || IsEscaped(lexemes, j)))
  }

  /** The lexeme that ends an attribute value, scanning from `j` with the
      `@(` depth and string flag given. */
  function ValueEnd(lexemes: seq<Lexeme>, j: nat, nest: int, inString: bool, delimiter: Option<LexemeType>)
    : (r: Option<nat>)
    ensures r.Some? ==>
      j <= r.value < |lexemes| && !ValueContinues(lexemes, r.value, 0, delimiter)
    decreases |lexemes| - j
  {
    if j >= |lexemes| then None
    else if !ValueContinues(lexemes, j, nest, delimiter) then Some(j)
    else
      var t := lexemes[j].kind;
      if !inString && nest > 0 && t == LeftParenthesis then
        ValueEnd(lexemes, j + 1, nest + 1, inString, delimiter)
      else if t == At && j + 1 >= |lexemes| then None
      else if t == At && lexemes[j + 1].kind == LeftParenthesis then
        ValueEnd(lexemes, j + 2, nest + 1, inString, delimiter)
      else if !inString && t == RightParenthesis then
        ValueEnd(lexemes, j + 1, nest - 1, inString, delimiter)
      else if nest > 0 && t == DoubleQuote && !IsEscaped(lexemes, j) then
        ValueEnd(lexemes, j + 1, nest, !inString, delimiter)
      else ValueEnd(lexemes, j + 1, nest, inString, delimiter)
  }

  /** The value of an attribute whose `=` is at `w`: where it starts, the
      lexeme that ends it, and the lexeme after the attribute. */
  function ValueAt(lexemes: seq<Lexeme>, w: nat): (r: Option<(nat, nat, nat)>)
    requires w < |lexemes| && lexemes[|lexemes| - 1].kind == EndOfFile
    requires lexemes[w].kind == LexemeType.Equals
    ensures r.Some? ==> w < r.value.0 <= r.value.1 < |lexemes| && r.value.1 <= r.value.2
  {
    var v := SkipWhiteSpace(lexemes, w + 1);
    if lexemes[v].kind == DoubleQuote || lexemes[v].kind == SingleQuote then
      ValueFrom(lexemes, v + 1, Some(lexemes[v].kind))
    else ValueFrom(lexemes, v, None)
  }

  /** A value starting at `s`, closed by `delimiter` when it is quoted. */
  function ValueFrom(lexemes: seq<Lexeme>, s: nat, delimiter: Option<LexemeType>): (r: Option<(nat, nat, nat)>)
    ensures r.Some? ==> s == r.value.0 <= r.value.1 < |lexemes| && r.value.1 <= r.value.2
  {
    match ValueEnd(lexemes, s, 0, false, delimiter)
    case None => None
    case Some(e) => Some((s, e, if delimiter.Some? then e + 1 else e))
  }

  /** An attribute whose key starts at `i`: the key runs to the first `=`,
      whitespace, `/` or `>`; without `=` after the whitespace there is no
      value; otherwise the value starts after the whitespace behind `=`,
      inside the quotes when quoted. */
  function AttributeAt(lexemes: seq<Lexeme>, i: nat, source: string): (r: Consumed<AttributeToken>)
    requires Ordered(lexemes, source) && i < |lexemes|
    ensures r.Consumed? ==> i < r.next
  {
    match KeyEnd(lexemes, i + 1)
    case None => OutOfRange
    case Some(k) =>
      var keyLength := Distance(lexemes, source, i, k);
      var w := SkipWhiteSpace(lexemes, k);
      if lexemes[w].kind != LexemeType.Equals then
        Consumed(AttributeToken(keyLength, lexemes[i].offset, 0, 0), w)
      else match ValueAt(lexemes, w)
        case None => OutOfRange
        case Some((s, e, next)) =>
          Consumed(AttributeToken(keyLength, lexemes[i].offset, Distance(lexemes, source, s, e),
                                  lexemes[s].offset), next)
  }

  method ConsumeAttribute(lexemes: seq<Lexeme>, i: nat, ghost source: string) returns (r: Consumed<AttributeToken>)
    requires Ordered(lexemes, source) && i < |lexemes|
    ensures r == AttributeAt(lexemes, i, source)
  {
    var keyOffset := lexemes[i].offset;
    var k := ScanKey(lexemes, i);
    if k.None? {
      return OutOfRange;
    }
    var keyLength := Distance(lexemes, source, i, k.value);
    var w := SkipWhiteSpaceFrom(lexemes, k.value);
    if lexemes[w].kind != LexemeType.Equals {
      return Consumed(AttributeToken(keyLength, keyOffset, 0, 0), w);
    }
    var value := ConsumeValue(lexemes, w);
    if value.None? {
      return OutOfRange;
    }
    var (s, e, next) := value.value;
    r := Consumed(AttributeToken(keyLength, keyOffset, Distance(lexemes, source, s, e), lexemes[s].offset), next);
  }

  /** The key loop of the source's attribute routine. */
  method ScanKey(lexemes: seq<Lexeme>, i: nat) returns (k: Option<nat>)
    requires i < |lexemes|
    ensures k == KeyEnd(lexemes, i + 1)
  {
    var index := i;
    while true
      invariant i <= index < |lexemes|
      invariant KeyEnd(lexemes, index + 1) == KeyEnd(lexemes, i + 1)
      decreases |lexemes| - index
    {
      index := index + 1;
      if index >= |lexemes| {
        return None;
      }
      if EndsKey(lexemes[index].kind) {
        return Some(index);
      }
    }
  }

  /** The value part of the source's attribute routine, from the `=` at `w`. */
  method ConsumeValue(lexemes: seq<Lexeme>, w: nat) returns (r: Option<(nat, nat, nat)>)
    requires w < |lexemes| && lexemes[|lexemes| - 1].kind == EndOfFile
    requires lexemes[w].kind == LexemeType.Equals
    ensures r == ValueAt(lexemes, w)
  {
    var index := SkipWhiteSpaceFrom(lexemes, w + 1);
    var kind := lexemes[index].kind;
    if kind == DoubleQuote || kind == SingleQuote {
      r := ScanValueFrom(lexemes, index + 1, Some(kind));
    } else {
      r := ScanValueFrom(lexemes, index, None);
    }
  }

  method ScanValueFrom(lexemes: seq<Lexeme>, s: nat, delimiter: Option<LexemeType>) returns (r: Option<(nat, nat, nat)>)
    requires s < |lexemes| && lexemes[|lexemes| - 1].kind == EndOfFile
    ensures r == ValueFrom(lexemes, s, delimiter)
  {
    var end := ScanValue(lexemes, s, delimiter);
    if end.None? {
      return None;
    }
    r := Some((s, end.value, if delimiter.Some? then end.value + 1 else end.value));
  }

  /** The source's `while (IsAnyWhiteSpaceType(...)) index++` loops. */
  method SkipWhiteSpaceFrom(lexemes: seq<Lexeme>, from: nat) returns (index: nat)
    requires from < |lexemes| && lexemes[|lexemes| - 1].kind == EndOfFile
    ensures index == SkipWhiteSpace(lexemes, from)
  {
    index := from;
    while IsAnyWhiteSpaceType(lexemes[index].kind)
      invariant from <= index < |lexemes|
      invariant SkipWhiteSpace(lexemes, index) == SkipWhiteSpace(lexemes, from)
      decreases |lexemes| - index
    {
      index := index + 1;
    }
  }

  /** The value loop of the source's attribute routine. */
  method ScanValue(lexemes: seq<Lexeme>, from: nat, delimiter: Option<LexemeType>) returns (end: Option<nat>)
    requires from < |lexemes| && lexemes[|lexemes| - 1].kind == EndOfFile
    ensures end == ValueEnd(lexemes, from, 0, false, delimiter)
  {
    var nest := 0;
    var inString := false;
    var index := from;
    while index < |lexemes| && ValueContinues(lexemes, index, nest, delimiter)
      invariant ValueEnd(lexemes, index, nest, inString, delimiter) == ValueEnd(lexemes, from, 0, false, delimiter)
      decreases |lexemes| - index
    {
      if !inString && nest > 0 && lexemes[index].kind == LeftParenthesis {
        nest := nest + 1;
      } else if lexemes[index].kind == At && lexemes[index + 1].kind == LeftParenthesis {
        nest := nest + 1;
        index := index + 1;
      } else if !inString && lexemes[index].kind == RightParenthesis {
        nest := nest - 1;
      } else if nest > 0 && lexemes[index].kind == DoubleQuote && !IsEscaped(lexemes, index) {
        inString := !inString;
      }
      index := index + 1;
    }
    if index >= |lexemes| {
      return None;
    }
    return Some(index);
  }

  // ----------------------------------------------------------------------- C#

  /** What the C# routine tracks: inside a string, inside a statement, the
      parenthesis depth and the brace depth. */
  datatype CSharpState = CSharpState(inString: bool, inStatement: bool, expressionNest: int, nest: int)

  /** A C# run goes on until a `}` at brace depth zero or a `<` outside any
      string, statement and parenthesis. */
  predicate CSharpContinues(t: LexemeType, st: CSharpState) {
    (t != RightBrace || st.nest > 0) &&
    (st.inString || st.inStatement || st.expressionNest > 0 || t != LeftChevron)
  }

  /** The effect of lexeme `j` on the state. */
  function CSharpStep(lexemes: seq<Lexeme>, j: nat, st: CSharpState): (r: CSharpState)
    requires j < |lexemes|
  {
    var t := lexemes[j].kind;
    var toggled := t == DoubleQuote && !IsEscaped(lexemes, j);
    if !toggled && (st.inString || IsAnyWhiteSpaceType(t)) then st
    else
      var s := if toggled then st.(inString := !st.inString) else st;
      if t == LeftParenthesis then s.(expressionNest := s.expressionNest + 1)
      else if t == RightParenthesis then s.(expressionNest := s.expressionNest - 1)
      else if t == LeftBrace then s.(nest := s.nest + 1)
      else if t == RightBrace then s.(inStatement := false, nest := s.nest - 1)
      else if t == Semicolon then s.(inStatement := false)
      else s.(inStatement := true)
  }

  /** Where the C# run that is in state `st` at `j` stops, and its state there. */
  function CSharpEnd(lexemes: seq<Lexeme>, j: nat, st: CSharpState): (r: (nat, CSharpState))
    requires j <= |lexemes|
    ensures j <= r.0 <= |lexemes|
    ensures r.0 < |lexemes| ==> !CSharpContinues(lexemes[r.0].kind, r.1)
    decreases |lexemes| - j
  {
    if j == |lexemes| || !CSharpContinues(lexemes[j].kind, st) then (j, st)
    else CSharpEnd(lexemes, j + 1, CSharpStep(lexemes, j, st))
  }

  const CSharpStart := CSharpState(false, true, 0, 0)

  /** C# at `i`: the token runs to where the scan stops; running off the end
      of the array is an error. */
  function CSharpAt(lexemes: seq<Lexeme>, i: nat, source: string): Consumed<Token>
    requires Ordered(lexemes, source) && i < |lexemes|
  {
    var e := CSharpEnd(lexemes, i, CSharpStart).0;
    if e == |lexemes| then OutOfRange
    else Consumed(Token.CSharpToken(Distance(lexemes, source, i, e), lexemes[i].offset), e)
  }

  method ConsumeCSharp(lexemes: seq<Lexeme>, i: nat, ghost source: string) returns (r: Consumed<Token>)
    requires Ordered(lexemes, source) && i < |lexemes|
    ensures r == CSharpAt(lexemes, i, source)
  {
    var offset := lexemes[i].offset;
    var index := ScanCSharp(lexemes, i);
    if index == |lexemes| {
      return OutOfRange;
    }
    r := Consumed(Token.CSharpToken(Distance(lexemes, source, i, index), offset), index);
  }

  /** The loop of the source's C# routine. */
  method ScanCSharp(lexemes: seq<Lexeme>, i: nat) returns (index: nat)
    requires i < |lexemes|
    ensures index == CSharpEnd(lexemes, i, CSharpStart).0
  {
    var isInString := false;
    var isInStatement := true;
    var expressionNestLevel := 0;
    var nestLevel := 0;
    index := i;
    while index < |lexemes| &&
          (lexemes[index].kind != RightBrace || nestLevel > 0) &&
          (isInString || isInStatement || expressionNestLevel > 0 || lexemes[index].kind != LeftChevron)
      invariant i <= index <= |lexemes|
      invariant CSharpEnd(lexemes, index, CSharpState(isInString, isInStatement, expressionNestLevel, nestLevel)) ==
                CSharpEnd(lexemes, i, CSharpStart)
      decreases |lexemes| - index
    {
      ghost var before := CSharpState(isInString, isInStatement, expressionNestLevel, nestLevel);
      ghost var at := index;
      if lexemes[index].kind == DoubleQuote && !IsEscaped(lexemes, index) {
        isInString := !isInString;
      } else if isInString || IsAnyWhiteSpaceType(lexemes[index].kind) {
        index := index + 1;
        assert CSharpState(isInString, isInStatement, expressionNestLevel, nestLevel) == CSharpStep(lexemes, at, before);
        continue;
      }
      if lexemes[index].kind == LeftParenthesis {
        expressionNestLevel := expressionNestLevel + 1;
      } else if lexemes[index].kind == RightParenthesis {
        expressionNestLevel := expressionNestLevel - 1;
      } else if lexemes[index].kind == LeftBrace {
        nestLevel := nestLevel + 1;
      } else if lexemes[index].kind == RightBrace {
        isInStatement := false;
        nestLevel := nestLevel - 1;
      } else if lexemes[index].kind == Semicolon {
        isInStatement := false;
      } else {
        isInStatement := true;
      }
      index := index + 1;
      assert CSharpState(isInString, isInStatement, expressionNestLevel, nestLevel) == CSharpStep(lexemes, at, before);
    }
  }

  // -------------------------------------------------------- control structure

  predicate OpensBody(t: LexemeType) {
    t == LeftParenthesis || t == LeftBrace
  }

  /** Where a control structure's opening ends: the first `(` or `{`. */
  function OpeningEnd(lexemes: seq<Lexeme>, from: nat): (r: Option<nat>)
    ensures r.Some? ==>
      from <= r.value < |lexemes| && OpensBody(lexemes[r.value].kind) &&
      forall m :: from <= m < r.value ==> !OpensBody(lexemes[m].kind)
    ensures r.None? ==> forall m :: from <= m < |lexemes| ==> !OpensBody(lexemes[m].kind)
    decreases |lexemes| - from
  {
    if from >= |lexemes| then None
    else if OpensBody(lexemes[from].kind) then Some(from)
    else OpeningEnd(lexemes, from + 1)
  }

  method ScanOpening(lexemes: seq<Lexeme>, from: nat) returns (r: Option<nat>)
    ensures r == OpeningEnd(lexemes, from)
  {
    var index := from;
    while index < |lexemes| && !OpensBody(lexemes[index].kind)
      invariant from <= index
      invariant OpeningEnd(lexemes, index) == OpeningEnd(lexemes, from)
      decreases |lexemes| - index
    {
      index := index + 1;
    }
    if index >= |lexemes| {
      return None;
    }
    return Some(index);
  }

  /** The lexeme the source's condition loop stops at: it steps from `j`
      and stops after a step that leaves it outside a string with the depth
      at most zero on a `)`, or inside a string. */
  function ConditionEndAsWritten(lexemes: seq<Lexeme>, j: nat, inString: bool, nest: int): (r: Option<nat>)
    ensures r.Some? ==> j <= r.value < |lexemes|
    decreases |lexemes| - j
  {
    if j >= |lexemes| then None
    else
      var (s, n) := ParenthesisStep(lexemes, j, inString, nest);
      if !s && (n > 0 || lexemes[j].kind != RightParenthesis) then ConditionEndAsWritten(lexemes, j + 1, s, n)
      else Some(j)
  }

  /** The condition behind the `(` at `p` as the source reads it: its length
      up to the lexeme after the stop, and that lexeme's index. The stop is
      the first lexeme after which the loop is inside a string, or outside a
      string on a `)` with nothing left open (`ParserFacts.ConditionEndIsFirstExit`);
      for a condition holding a call or a string this cuts it short. */
  function ConditionAt(lexemes: seq<Lexeme>, p: nat, source: string): (r: Option<(nat, nat)>)
    requires Ordered(lexemes, source) && p < |lexemes|
    ensures r.Some? ==> p < r.value.1 < |lexemes|
    ensures r.Some? <==> ConditionEndAsWritten(lexemes, p + 1, false, 0).Some? &&
                         ConditionEndAsWritten(lexemes, p + 1, false, 0).value + 1 < |lexemes|
    ensures r.Some? ==> r.value.1 == ConditionEndAsWritten(lexemes, p + 1, false, 0).value + 1 &&
                        lexemes[p].offset + r.value.0 == lexemes[r.value.1].offset
  {
    match ConditionEndAsWritten(lexemes, p + 1, false, 0)
    case None => None
    case Some(e) => if e + 1 >= |lexemes| then None else Some((Distance(lexemes, source, p, e + 1), e + 1))
  }

  /** The condition behind the `(` at `p`, read through its matching
      closing parenthesis as the explicit expression is: what the condition
      loop evidently means to find. */
  function ConditionAtCorrected(lexemes: seq<Lexeme>, p: nat, source: string): (r: Option<(nat, nat)>)
    requires Ordered(lexemes, source) && p < |lexemes|
    ensures r.Some? ==> p < r.value.1 < |lexemes| && lexemes[r.value.1 - 1].kind == RightParenthesis
  {
    match ClosingParenthesis(lexemes, p + 1, false, 0)
    case None => None
    case Some(e) => if e + 1 >= |lexemes| then None else Some((Distance(lexemes, source, p, e + 1), e + 1))
  }

  /** The `do … while` condition loop of the source's control-structure
      routine, then the step past its stop. */
  method ScanCondition(lexemes: seq<Lexeme>, p: nat, ghost source: string) returns (r: Option<(nat, nat)>)
    requires Ordered(lexemes, source) && p < |lexemes|
    ensures r == ConditionAt(lexemes, p, source)
  {
    var nestLevel := 0;
    var isInString := false;
    var index := p;
    while true
      invariant p <= index < |lexemes|
      invariant ConditionEndAsWritten(lexemes, index + 1, isInString, nestLevel) ==
                ConditionEndAsWritten(lexemes, p + 1, false, 0)
      decreases |lexemes| - index
    {
      index := index + 1;
      if index >= |lexemes| {
        return None;
      }
      if lexemes[index].kind == DoubleQuote && !IsEscaped(lexemes, index) {
        isInString := !isInString;
      } else if !isInString && lexemes[index].kind == LeftParenthesis {
        nestLevel := nestLevel + 1;
      } else if !isInString && lexemes[index].kind == RightParenthesis {
        nestLevel := nestLevel - 1;
      }
      if !(!isInString && (nestLevel > 0 || lexemes[index].kind != RightParenthesis)) {
        if index + 1 >= |lexemes| {
          return None;
        }
        return Some((Distance(lexemes, source, p, index + 1), index + 1));
      }
    }
  }

  /** What a control structure's routine reads before its body: the length
      of the opening, the condition's offset and length (zero when there is
      none), and the index of the `{` that opens the body. */
  datatype ControlHead = ControlHead(openLength: nat, expressionOffset: nat, expressionLength: nat, brace: nat)

  /** The head of the control structure at `i`: the opening runs to the first
      `(` or `{`; a `(` starts the condition; the body opens at the next `{`. */
  function ControlHeadAt(lexemes: seq<Lexeme>, i: nat, source: string): (r: Option<ControlHead>)
    requires Ordered(lexemes, source) && i < |lexemes|
    ensures r.Some? ==>
      OpeningEnd(lexemes, i).Some? &&
      r.value.openLength == Distance(lexemes, source, i, OpeningEnd(lexemes, i).value) &&
      OpeningEnd(lexemes, i).value <= r.value.brace < |lexemes| && lexemes[r.value.brace].kind == LeftBrace
    ensures r.Some? ==>
      lexemes[i].offset + r.value.openLength <= |source| &&
      r.value.expressionOffset + r.value.expressionLength <= |source|
    ensures r.Some? && lexemes[OpeningEnd(lexemes, i).value].kind == LeftParenthesis ==>
      var p := OpeningEnd(lexemes, i).value;
      ConditionAt(lexemes, p, source).Some? &&
      r.value.expressionOffset == lexemes[p].offset &&
      r.value.expressionLength == ConditionAt(lexemes, p, source).value.0 &&
      FirstKind(lexemes, LeftBrace, ConditionAt(lexemes, p, source).value.1) == Some(r.value.brace)
    ensures r.Some? && lexemes[OpeningEnd(lexemes, i).value].kind != LeftParenthesis ==>
      r.value.expressionOffset == 0 && r.value.expressionLength == 0 &&
      r.value.brace == OpeningEnd(lexemes, i).value
  {
    match OpeningEnd(lexemes, i)
    case None => None
    case Some(p) =>
      var openLength := Distance(lexemes, source, i, p);
      if lexemes[p].kind == LeftParenthesis then
        match ConditionAt(lexemes, p, source)
        case None => None
        case Some(condition) =>
          match FirstKind(lexemes, LeftBrace, condition.1)
          case None => None
          case Some(b) => Some(ControlHead(openLength, lexemes[p].offset, condition.0, b))
      else
        assert FirstKind(lexemes, LeftBrace, p) == Some(p);
        Some(ControlHead(openLength, 0, 0, p))
  }

  /** The head loops of the source's control-structure routine. */
  method ScanControlHead(lexemes: seq<Lexeme>, i: nat, ghost source: string) returns (r: Option<ControlHead>)
    requires Ordered(lexemes, source) && i < |lexemes|
    ensures r == ControlHeadAt(lexemes, i, source)
  {
    var opening := ScanOpening(lexemes, i);
    if opening.None? {
      return None;
    }
    var index := opening.value;
    var openLength := Distance(lexemes, source, i, index);
    var expressionOffset := 0;
    var expressionLength := 0;
    if lexemes[index].kind == LeftParenthesis {
      expressionOffset := lexemes[index].offset;
      var condition := ScanCondition(lexemes, index, source);
      if condition.None? {
        return None;
      }
      expressionLength := condition.value.0;
      index := condition.value.1;
    }
    var brace := ScanKind(lexemes, LeftBrace, index);
    if brace.None? {
      return None;
    }
    r := Some(ControlHead(openLength, expressionOffset, expressionLength, brace.value));
  }

  /** The first `;` outside a string from `j` on, with the string flag given. */
  function SemicolonEnd(lexemes: seq<Lexeme>, j: nat, inString: bool): (r: Option<nat>)
    ensures r.Some? ==> j <= r.value < |lexemes| && lexemes[r.value].kind == Semicolon
    decreases |lexemes| - j
  {
    if j >= |lexemes| then None
    else if !inString && lexemes[j].kind == Semicolon then Some(j)
    else SemicolonEnd(lexemes, j + 1, if lexemes[j].kind == DoubleQuote && !IsEscaped(lexemes, j) then !inString else inString)
  }

  /** The `while` condition of a do-while loop whose body ends before `from`:
      it starts at the first text lexeme and runs through the first `;`
      outside a string; the index of that text lexeme, the length, and the
      lexeme after the `;`. */
  function DoWhileConditionAt(lexemes: seq<Lexeme>, from: nat, source: string): (r: Option<(nat, nat, nat)>)
    requires Ordered(lexemes, source)
    ensures r.Some? ==> from <= r.value.0 < r.value.2 < |lexemes|
    ensures r.Some? ==> lexemes[r.value.0].offset + r.value.1 <= |source|
  {
    match FirstKind(lexemes, LexemeType.Text, from)
    case None => None
    case Some(t) =>
      match SemicolonEnd(lexemes, t, false)
      case None => None
      case Some(e) => if e + 1 >= |lexemes| then None else Some((t, Distance(lexemes, source, t, e + 1), e + 1))
  }

  method ScanDoWhileCondition(lexemes: seq<Lexeme>, from: nat, ghost source: string) returns (r: Option<(nat, nat, nat)>)
    requires Ordered(lexemes, source)
    ensures r == DoWhileConditionAt(lexemes, from, source)
  {
    var start := ScanKind(lexemes, LexemeType.Text, from);
    if start.None? {
      return None;
    }
    var t := start.value;
    var semicolon := ScanSemicolon(lexemes, t);
    if semicolon.None? || semicolon.value + 1 >= |lexemes| {
      return None;
    }
    var next := semicolon.value + 1;
    r := Some((t, Distance(lexemes, source, t, next), next));
  }

  /** The source's `while (lexemes[index].Type != t) index++` loops. */
  method ScanKind(lexemes: seq<Lexeme>, t: LexemeType, from: nat) returns (r: Option<nat>)
    ensures r == FirstKind(lexemes, t, from)
  {
    var index := from;
    while index < |lexemes| && lexemes[index].kind != t
      invariant from <= index
      invariant FirstKind(lexemes, t, index) == FirstKind(lexemes, t, from)
      decreases |lexemes| - index
    {
      index := index + 1;
    }
    if index >= |lexemes| {
      return None;
    }
    return Some(index);
  }

  /** The semicolon loop of the do-while condition. */
  method ScanSemicolon(lexemes: seq<Lexeme>, start: nat) returns (r: Option<nat>)
    ensures r == SemicolonEnd(lexemes, start, false)
  {
    var index := start;
    var isInString := false;
    while index < |lexemes| && (isInString || lexemes[index].kind != Semicolon)
      invariant start <= index
      invariant SemicolonEnd(lexemes, index, isInString) == SemicolonEnd(lexemes, start, false)
      decreases |lexemes| - index
    {
      if lexemes[index].kind == DoubleQuote && !IsEscaped(lexemes, index) {
        isInString := !isInString;
      }
      index := index + 1;
    }
    if index >= |lexemes| {
      return None;
    }
    return Some(index);
  }

  // ------------------------------------------------------- tokens in bounds

  /** Every token the non-recursive routines build lies inside the source,
      and each routine moves past the lexeme it started at. */
  lemma HtmlCommentWithin(lexemes: seq<Lexeme>, i: nat, source: string)
    requires Ordered(lexemes, source) && i < |lexemes|
    ensures HtmlCommentAt(lexemes, i, source).Consumed? ==>
      i < HtmlCommentAt(lexemes, i, source).next && Within(HtmlCommentAt(lexemes, i, source).token, source)
  {
    if HtmlCommentAt(lexemes, i, source).Consumed? {
      var c := HtmlCommentEnd(lexemes, i + 4).value;
      assert c + 2 != |lexemes| - 1 by {
        assert lexemes[c + 2].kind == RightChevron;
      }
      OrderedOffsets(lexemes, source, i, i + 4);
      OrderedOffsets(lexemes, source, c, c + 3);
      assert lexemes[c + 3].offset + lexemes[c + 3].length <= |source|;
      assert HtmlCommentAt(lexemes, i, source).token ==
        CommentToken(3, lexemes[c].offset, Distance(lexemes, source, i + 4, c), lexemes[i + 4].offset, 4, lexemes[i].offset);
    }
  }

  lemma RazorCommentWithin(lexemes: seq<Lexeme>, i: nat, source: string)
    requires Ordered(lexemes, source) && i < |lexemes|
    ensures RazorCommentAt(lexemes, i, source).Consumed? ==>
      i < RazorCommentAt(lexemes, i, source).next && Within(RazorCommentAt(lexemes, i, source).token, source)
  {
    if RazorCommentAt(lexemes, i, source).Consumed? {
      var c := RazorCommentEnd(lexemes, i + 2).value;
      assert c + 1 != |lexemes| - 1 by {
        assert lexemes[c + 1].kind == At;
      }
      OrderedOffsets(lexemes, source, i, i + 2);
      OrderedOffsets(lexemes, source, c, c + 2);
      assert lexemes[c + 2].offset + lexemes[c + 2].length <= |source|;
      assert RazorCommentAt(lexemes, i, source).token ==
        CommentToken(2, lexemes[c].offset, Distance(lexemes, source, i + 2, c), lexemes[i + 2].offset, 2, lexemes[i].offset);
    }
  }

  lemma ExplicitWithin(lexemes: seq<Lexeme>, i: nat, source: string)
    requires Ordered(lexemes, source) && i < |lexemes|
    ensures ExplicitAt(lexemes, i, source).Consumed? ==>
      i < ExplicitAt(lexemes, i, source).next && Within(ExplicitAt(lexemes, i, source).token, source)
  {
    if ExplicitAt(lexemes, i, source).Consumed? {
      var c := ClosingParenthesis(lexemes, i + 2, false, 0).value;
      assert c != |lexemes| - 1 by {
        assert lexemes[c].kind == RightParenthesis;
      }
      OrderedOffsets(lexemes, source, i, i + 2);
      OrderedOffsets(lexemes, source, i + 2, c);
      OrderedOffsets(lexemes, source, c, c + 1);
      assert lexemes[c + 1].offset + lexemes[c + 1].length <= |source|;
      assert ExplicitAt(lexemes, i, source).token == ExplicitRazorExpressionToken(lexemes[c].offset, lexemes[i].offset);
    }
  }

  lemma ImplicitWithin(lexemes: seq<Lexeme>, i: nat, source: string)
    requires Ordered(lexemes, source) && i < |lexemes|
    ensures ImplicitAt(lexemes, i, source).Consumed? ==>
      i < ImplicitAt(lexemes, i, source).next && Within(ImplicitAt(lexemes, i, source).token, source)
  {
  }

  lemma DirectiveWithin(lexemes: seq<Lexeme>, i: nat, source: string)
    requires Ordered(lexemes, source) && i < |lexemes|
    ensures DirectiveAt(lexemes, i, source).Consumed? ==>
      i < DirectiveAt(lexemes, i, source).next && Within(DirectiveAt(lexemes, i, source).token, source)
  {
  }

  lemma TextWithin(lexemes: seq<Lexeme>, i: nat, source: string)
    requires Ordered(lexemes, source) && i < |lexemes|
    ensures TextAt(lexemes, i, source).Consumed? ==>
      i < TextAt(lexemes, i, source).next && Within(TextAt(lexemes, i, source).token, source)
  {
  }

  /** A C# run that starts at neither `}` nor `<` takes at least that lexeme. */
  lemma CSharpWithin(lexemes: seq<Lexeme>, i: nat, source: string)
    requires Ordered(lexemes, source) && i < |lexemes|
    requires lexemes[i].kind != RightBrace && lexemes[i].kind != LeftChevron
    ensures CSharpAt(lexemes, i, source).Consumed? ==>
      i < CSharpAt(lexemes, i, source).next && Within(CSharpAt(lexemes, i, source).token, source)
  {
  }

  lemma AttributeWithinSource(lexemes: seq<Lexeme>, i: nat, source: string)
    requires Ordered(lexemes, source) && i < |lexemes|
    ensures AttributeAt(lexemes, i, source).Consumed? ==> AttributeWithin(AttributeAt(lexemes, i, source).token, source)
  {
  }

  /** The token the dispatcher builds at `i` for every kind whose routine
      holds no tokens of its own; None for elements, code blocks and control
      structures. A carriage return followed by a line feed, and every kind
      the dispatcher has no routine for, give an ignore token in place. */
  ghost function SimpleTokenAt(lexemes: seq<Lexeme>, i: nat, source: string): (r: Option<Consumed<Token>>)
    requires Ordered(lexemes, source) && i < |lexemes|
    ensures r.None? <==> Classify(lexemes, i, source) in {Element, CodeBlock, ControlStructure}
  {
    match Classify(lexemes, i, source)
    case ExplicitRazorExpression => Some(ExplicitAt(lexemes, i, source))
    case LineLevelDirective => Some(DirectiveAt(lexemes, i, source))
    case ImplicitRazorExpression => Some(ImplicitAt(lexemes, i, source))
    case HtmlComment => Some(HtmlCommentAt(lexemes, i, source))
    case RazorComment => Some(RazorCommentAt(lexemes, i, source))
    case Text => Some(TextAt(lexemes, i, source))
    case NewLine => Some(Consumed(NewLineToken(lexemes[i].offset), i + 1))
    case CarriageReturn =>
      if i == |lexemes| - 1 || Classify(lexemes, i + 1, source) != TokenType.NewLine
      then Some(Consumed(NewLineToken(lexemes[i].offset), i + 1))
      else Some(Consumed(IgnoreToken, i))
    case Element => None
    case CodeBlock => None
    case ControlStructure => None
    case _ => Some(Consumed(IgnoreToken, i))
  }

  /** The dispatcher's arms for the kinds in `SimpleTokenAt`, given the kind
      the classifier gave lexeme `i`. */
  method ConsumeSimpleToken(lexemes: seq<Lexeme>, i: nat, source: string, tokenType: TokenType)
    returns (r: Consumed<Token>)
    requires Ordered(lexemes, source) && i < |lexemes|
    requires tokenType == Classify(lexemes, i, source) && tokenType !in {Element, CodeBlock, ControlStructure}
    ensures SimpleTokenAt(lexemes, i, source) == Some(r)
  {
    match tokenType
    case ExplicitRazorExpression =>
      r := ConsumeExplicitRazorExpression(lexemes, i, source);
    case LineLevelDirective =>
      r := ConsumeLineLevelDirective(lexemes, i, source);
    case ImplicitRazorExpression =>
      r := ConsumeImplicitRazorExpression(lexemes, i, source);
    case HtmlComment =>
      r := ConsumeHtmlComment(lexemes, i, source);
    case RazorComment =>
      r := ConsumeRazorComment(lexemes, i, source);
    case Text =>
      r := ConsumeText(lexemes, i, source);
    case NewLine =>
      r := Consumed(NewLineToken(lexemes[i].offset), i + 1);
    case CarriageReturn =>
      var lineFeed := false;
      if i < |lexemes| - 1 {
        var following := GetTokenType(lexemes, i + 1, source);
        lineFeed := following == TokenType.NewLine;
      }
      if !lineFeed {
        r := Consumed(NewLineToken(lexemes[i].offset), i + 1);
      } else {
        r := Consumed(IgnoreToken, i);
      }
    case _ =>
      r := Consumed(IgnoreToken, i);
  }

  /** A token of these kinds is an ignore token left in place, or it moves
      past `i` and lies inside the source. */
  lemma SimpleTokenWithin(lexemes: seq<Lexeme>, i: nat, source: string)
    requires Ordered(lexemes, source) && i < |lexemes|
    requires SimpleTokenAt(lexemes, i, source).Some? && SimpleTokenAt(lexemes, i, source).value.Consumed?
    ensures var r := SimpleTokenAt(lexemes, i, source).value;
      if r.token.IgnoreToken? then r.next == i else i < r.next && Within(r.token, source) && NoIgnore(r.token)
  {
    match Classify(lexemes, i, source)
    case ExplicitRazorExpression => ExplicitWithin(lexemes, i, source);
    case LineLevelDirective => DirectiveWithin(lexemes, i, source);
    case ImplicitRazorExpression => ImplicitWithin(lexemes, i, source);
    case HtmlComment => HtmlCommentWithin(lexemes, i, source);
    case RazorComment => RazorCommentWithin(lexemes, i, source);
    case Text => TextWithin(lexemes, i, source);
    case NewLine =>
    case CarriageReturn =>
    case _ =>
  }
}
