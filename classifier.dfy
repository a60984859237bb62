// The parser's classifier: which construct starts at a lexeme, and the
// small look-around helpers and keyword sets it consults.

module Classifier {
  import opened Common
  import opened Lexemes

  /** The constructs the parser distinguishes. */
  datatype TokenType =
    | Attribute | CodeBlock | ControlStructure | CSharpToken | Element
    | ExplicitRazorExpression | HtmlComment | Ignore | ImplicitRazorExpression
    | LineLevelDirective | RazorComment | Text | CarriageReturn | NewLine

  const ControlStructureKeywords: set<string> :=
    {"if", "else", "switch", "for", "foreach", "while", "do", "using", "try", "catch", "finally", "lock"}

  /** Keywords that open a control structure without a leading `@`. */
  const FollowingControlStructureKeywords: set<string> := {"else", "catch", "finally"}

  const LineLevelDirectives: set<string> :=
    {"implements", "inherits", "using", "model", "inject", "layout", "namespace", "page",
     "preservewhitespace", "section", "typeparam"}

  /** The void elements of section 13.1.2 of the WHATWG HTML Living Standard,
      with `command`, `keygen` and `!DOCTYPE` added. */
  const VoidTypes: set<string> :=
    {"area", "base", "br", "col", "command", "embed", "hr", "img", "input", "keygen", "link",
     "meta", "param", "source", "track", "wbr", "!DOCTYPE"}

  predicate IsAnyWhiteSpaceType(t: LexemeType) {
    t == WhiteSpace || t == Tab || t == LexemeType.NewLine || t == LexemeType.CarriageReturn
  }

  /** Space or tab: the blanks that may precede a directive on its line. */
  predicate IsBlank(t: LexemeType) {
    t == WhiteSpace || t == Tab
  }

  predicate IsLineBreak(t: LexemeType) {
    t == LexemeType.NewLine || t == LexemeType.CarriageReturn
  }

  predicate IsVoidElement(name: string) {
    name in VoidTypes
  }

  predicate IsCodeBlockDirective(l: Lexeme, source: string)
    requires l.offset + l.length <= |source|
  {
    Value(l, source) == "code" || Value(l, source) == "functions"
  }

  predicate IsLineLevelDirective(l: Lexeme, source: string)
    requires l.offset + l.length <= |source|
  {
    Value(l, source) in LineLevelDirectives
  }

  /** Whether the lexeme at `index` is escaped by the backslashes before it. */
  function IsEscaped(lexemes: seq<Lexeme>, index: nat): bool
    requires index <= |lexemes|
  {
    if index < 1 then false
    else if lexemes[index - 1].kind != BackSlash then false
    else !IsEscaped(lexemes, index - 1)
  }

  /** Exactly `run` backslash lexemes stand right before `index`. */
  ghost predicate BackSlashRun(lexemes: seq<Lexeme>, index: nat, run: nat)
    requires index <= |lexemes|
  {
    run <= index &&
    (forall m :: index - run <= m < index ==> lexemes[m].kind == BackSlash) &&
    (run < index ==> lexemes[index - run - 1].kind != BackSlash)
  }

  /** A lexeme is escaped exactly when an odd number of backslashes precede it. */
  lemma {:induction false} EscapeParity(lexemes: seq<Lexeme>, index: nat, run: nat)
    requires index <= |lexemes|
    requires BackSlashRun(lexemes, index, run)
    ensures IsEscaped(lexemes, index) <==> run % 2 == 1
    decreases index
  {
    if run > 0 {
      EscapeParity(lexemes, index - 1, run - 1);
    }
  }

  /** The first lexeme of kind `t` from `from` on; whitespace kinds are never found. */
  function FirstOfType(lexemes: seq<Lexeme>, t: LexemeType, from: nat): (r: Option<nat>)
    ensures r.Some? ==>
      from <= r.value < |lexemes| && lexemes[r.value].kind == t && !IsAnyWhiteSpaceType(t) &&
      forall m :: from <= m < r.value ==> lexemes[m].kind != t
    ensures r.None? ==>
      IsAnyWhiteSpaceType(t) || forall m :: from <= m < |lexemes| ==> lexemes[m].kind != t
    decreases |lexemes| - from
  {
    if from >= |lexemes| then None
    else if !IsAnyWhiteSpaceType(lexemes[from].kind) && lexemes[from].kind == t then Some(from)
    else FirstOfType(lexemes, t, from + 1)
  }

  /** The first lexeme of kind `t` from `index` on, skipping whitespace. */
  method Next(lexemes: seq<Lexeme>, t: LexemeType, index: nat) returns (r: Option<Lexeme>)
    ensures r.Some? <==> FirstOfType(lexemes, t, index).Some?
    ensures r.Some? ==> r.value == lexemes[FirstOfType(lexemes, t, index).value]
  {
    var i := index;
    while i < |lexemes|
      invariant index <= i
      invariant FirstOfType(lexemes, t, i) == FirstOfType(lexemes, t, index)
      decreases |lexemes| - i
    {
      var skipWhiteSpace := IsAnyWhiteSpaceType(lexemes[i].kind);
      if !skipWhiteSpace && lexemes[i].kind == t {
        return Some(lexemes[i]);
      }
      i := i + 1;
    }
    return None;
  }

  /** The first lexeme from `from` on that is not whitespace of any kind. */
  function SkipWhiteSpace(lexemes: seq<Lexeme>, from: nat): (r: nat)
    requires from < |lexemes| && lexemes[|lexemes| - 1].kind == EndOfFile
    ensures from <= r < |lexemes| && !IsAnyWhiteSpaceType(lexemes[r].kind)
    ensures forall m :: from <= m < r ==> IsAnyWhiteSpaceType(lexemes[m].kind)
    decreases |lexemes| - from
  {
    if !IsAnyWhiteSpaceType(lexemes[from].kind) then from else SkipWhiteSpace(lexemes, from + 1)
  }

  /** The first lexeme from `from` on that is neither a space nor a tab. */
  function SkipBlanks(lexemes: seq<Lexeme>, from: nat): (r: nat)
    requires from < |lexemes| && lexemes[|lexemes| - 1].kind == EndOfFile
    ensures from <= r < |lexemes| && !IsBlank(lexemes[r].kind)
    ensures forall m :: from <= m < r ==> IsBlank(lexemes[m].kind)
    decreases |lexemes| - from
  {
    if !IsBlank(lexemes[from].kind) then from else SkipBlanks(lexemes, from + 1)
  }

  /** A control-structure keyword; `using` only when a `(` follows it. */
  ghost predicate ControlKeywordAt(lexemes: seq<Lexeme>, index: nat, source: string)
    requires Bounded(lexemes, source) && index < |lexemes|
  {
    var value := Value(lexemes[index], source);
    value in ControlStructureKeywords &&
    (value == "using" ==>
      index + 1 < |lexemes| && lexemes[SkipWhiteSpace(lexemes, index + 1)].kind == LeftParenthesis)
  }

  method IsControlStructureKeyword(lexemes: seq<Lexeme>, index: nat, source: string) returns (b: bool)
    requires Bounded(lexemes, source) && index < |lexemes|
    ensures b == ControlKeywordAt(lexemes, index, source)
  {
    var value := Value(lexemes[index], source);
    if value !in ControlStructureKeywords {
      return false;
    }
    if value == "using" {
      var i := index;
      assert i < |lexemes| - 1;
      i := i + 1;
      while IsAnyWhiteSpaceType(lexemes[i].kind)
        invariant index < i < |lexemes|
        invariant forall m :: index < m < i ==> IsAnyWhiteSpaceType(lexemes[m].kind)
        decreases |lexemes| - i
      {
        i := i + 1;
      }
      assert i == SkipWhiteSpace(lexemes, index + 1) by {
        SkipWhiteSpaceUnique(lexemes, index + 1, i);
      }
      return lexemes[i].kind == LeftParenthesis;
    }
    return true;
  }

  lemma SkipWhiteSpaceUnique(lexemes: seq<Lexeme>, from: nat, i: nat)
    requires from <= i < |lexemes| && lexemes[|lexemes| - 1].kind == EndOfFile
    requires !IsAnyWhiteSpaceType(lexemes[i].kind)
    requires forall m :: from <= m < i ==> IsAnyWhiteSpaceType(lexemes[m].kind)
    ensures SkipWhiteSpace(lexemes, from) == i
  {
  }

  /** Only spaces and tabs stand between the previous line break (or the
      start of the template) and `index`. */
  ghost predicate AtLineStart(lexemes: seq<Lexeme>, index: nat)
    requires index <= |lexemes|
  {
    (forall m :: 0 <= m < index ==> IsBlank(lexemes[m].kind)) ||
    exists m :: 0 <= m < index && IsLineBreak(lexemes[m].kind) &&
      forall p :: m < p < index ==> IsBlank(lexemes[p].kind)
  }

  method IsLineStart(lexemes: seq<Lexeme>, index: nat) returns (b: bool)
    requires index <= |lexemes|
    ensures b == AtLineStart(lexemes, index)
  {
    var i := index;
    while i > 0
      invariant 0 <= i <= index
      invariant forall p :: i <= p < index ==> IsBlank(lexemes[p].kind)
    {
      i := i - 1;
      if lexemes[i].kind == LexemeType.NewLine || lexemes[i].kind == LexemeType.CarriageReturn {
        return true;
      }
      if lexemes[i].kind == Tab || lexemes[i].kind == WhiteSpace {
        continue;
      }
      assert !IsBlank(lexemes[i].kind) && !IsLineBreak(lexemes[i].kind);
      assert !AtLineStart(lexemes, index) by {
        forall m | 0 <= m < index && IsLineBreak(lexemes[m].kind)
          ensures exists p :: m < p < index && !IsBlank(lexemes[p].kind)
        {
          assert m < i;
        }
      }
      return false;
    }
    return true;
  }

  /** The construct that starts at `index`, in the order the source tests them. */
  ghost function Classify(lexemes: seq<Lexeme>, index: nat, source: string): TokenType
    requires Bounded(lexemes, source) && index < |lexemes|
  {
    var t := lexemes[index].kind;
    if t == LexemeType.CarriageReturn then TokenType.CarriageReturn
    else if t == LexemeType.NewLine then TokenType.NewLine
    else if t == LexemeType.Text && Value(lexemes[index], source) in FollowingControlStructureKeywords then
      ControlStructure
    else if t == LexemeType.Text then TokenType.Text
    else if t == At then ClassifyAt(lexemes, index, source)
    else if t == LeftChevron then
      if lexemes[index + 1].kind == Exclamation && lexemes[index + 2].kind == Dash &&
         lexemes[index + 3].kind == Dash then
        HtmlComment
      else Element
    else Ignore
  }

  /** The first text lexeme from `index` on is a code-block directive and a
      `{` follows somewhere after the directive. */
  ghost predicate DirectiveBlockAt(lexemes: seq<Lexeme>, index: nat, source: string)
    requires Bounded(lexemes, source)
  {
    FirstOfType(lexemes, LexemeType.Text, index).Some? &&
    IsCodeBlockDirective(lexemes[FirstOfType(lexemes, LexemeType.Text, index).value], source) &&
    FirstOfType(lexemes, LeftBrace, index + 2).Some?
  }

  method IsDirectiveBlock(lexemes: seq<Lexeme>, index: nat, source: string) returns (b: bool)
    requires Bounded(lexemes, source)
    ensures b == DirectiveBlockAt(lexemes, index, source)
  {
    var l := Next(lexemes, LexemeType.Text, index);
    b := false;
    if l.Some? && IsCodeBlockDirective(l.value, source) {
      var brace := Next(lexemes, LeftBrace, index + 2);
      b := brace.Some?;
    }
  }

  /** The construct that starts at an `@`. */
  ghost function ClassifyAt(lexemes: seq<Lexeme>, index: nat, source: string): TokenType
    requires Bounded(lexemes, source) && index < |lexemes| && lexemes[index].kind == At
  {
      var next := lexemes[index + 1].kind;
      if next == Asterisk then RazorComment
      else if next == LeftParenthesis && (index == 0 || lexemes[index - 1].kind != At) then
        ExplicitRazorExpression
      else if next == LeftBrace || DirectiveBlockAt(lexemes, index, source) then
        CodeBlock
      else if next == LexemeType.Text && ControlKeywordAt(lexemes, index + 1, source) then
        ControlStructure
      else if IsLineLevelDirective(lexemes[index + 1], source) && AtLineStart(lexemes, index) then
        LineLevelDirective
      else ImplicitRazorExpression
  }

  method GetTokenType(lexemes: seq<Lexeme>, index: nat, source: string) returns (r: TokenType)
    requires Bounded(lexemes, source) && index < |lexemes|
    ensures r == Classify(lexemes, index, source)
  {
    var t := lexemes[index].kind;
    if t == LexemeType.CarriageReturn {
      return TokenType.CarriageReturn;
    } else if t == LexemeType.NewLine {
      return TokenType.NewLine;
    } else if t == LexemeType.Text {
      if Value(lexemes[index], source) in FollowingControlStructureKeywords {
        return ControlStructure;
      }
      return TokenType.Text;
    } else if t == At {
      r := GetAtTokenType(lexemes, index, source);
    } else if t == LeftChevron {
      if lexemes[index + 1].kind == Exclamation && lexemes[index + 2].kind == Dash &&
         lexemes[index + 3].kind == Dash {
        return HtmlComment;
      }
      return Element;
    } else {
      return Ignore;
    }
  }

  /** The `@` arm of the classifier. */
  method GetAtTokenType(lexemes: seq<Lexeme>, index: nat, source: string) returns (r: TokenType)
    requires Bounded(lexemes, source) && index < |lexemes| && lexemes[index].kind == At
    ensures r == ClassifyAt(lexemes, index, source)
  {
    var next := lexemes[index + 1].kind;
    if next == Asterisk {
      return RazorComment;
    }
    if next == LeftParenthesis && (index == 0 || lexemes[index - 1].kind != At) {
      return ExplicitRazorExpression;
    }
    var isCodeBlock := next == LeftBrace;
    if !isCodeBlock {
      isCodeBlock := IsDirectiveBlock(lexemes, index, source);
    }
    if isCodeBlock {
      return CodeBlock;
    }
    if next == LexemeType.Text {
      var keyword := IsControlStructureKeyword(lexemes, index + 1, source);
      if keyword {
        return ControlStructure;
      }
    }
    var isDirective := IsLineLevelDirective(lexemes[index + 1], source);
    if isDirective {
      var lineStart := IsLineStart(lexemes, index);
      if lineStart {
        return LineLevelDirective;
      }
    }
    return ImplicitRazorExpression;
  }

  // ------------------------------------------------------------ the rules

  /** `@(` opens an explicit expression exactly when no `@` stands right
      before the `@`, so `@@(` opens none. */
  lemma ExplicitNeedsLoneAt(lexemes: seq<Lexeme>, index: nat, source: string)
    requires Bounded(lexemes, source) && index < |lexemes|
    ensures Classify(lexemes, index, source) == ExplicitRazorExpression <==>
            lexemes[index].kind == At && index + 1 < |lexemes| && lexemes[index + 1].kind == LeftParenthesis &&
            (index == 0 || lexemes[index - 1].kind != At)
  {
  }

  /** `@using` opens a control structure exactly when the next lexeme that
      is not whitespace is `(`; otherwise it is a directive or an implicit
      expression. */
  lemma UsingNeedsParenthesis(lexemes: seq<Lexeme>, index: nat, source: string)
    requires Bounded(lexemes, source) && index + 1 < |lexemes|
    requires lexemes[index].kind == At && lexemes[index + 1].kind == LexemeType.Text
    requires Value(lexemes[index + 1], source) == "using"
    ensures Classify(lexemes, index, source) == ControlStructure <==>
            lexemes[SkipWhiteSpace(lexemes, index + 2)].kind == LeftParenthesis
  {
    assert FirstOfType(lexemes, LexemeType.Text, index) == Some(index + 1) by {
      assert FirstOfType(lexemes, LexemeType.Text, index + 1) == Some(index + 1);
    }
    assert !DirectiveBlockAt(lexemes, index, source);
  }

  /** A bare `else`, `catch` or `finally` opens a control structure. */
  lemma FollowingKeywordOpensControlStructure(lexemes: seq<Lexeme>, index: nat, source: string)
    requires Bounded(lexemes, source) && index < |lexemes| && lexemes[index].kind == LexemeType.Text
    ensures Classify(lexemes, index, source) == ControlStructure <==>
            Value(lexemes[index], source) in FollowingControlStructureKeywords
  {
  }

  /** A line-level directive is an `@` followed by a directive name with
      only spaces and tabs before it on its line. */
  lemma DirectiveAtLineStart(lexemes: seq<Lexeme>, index: nat, source: string)
    requires Bounded(lexemes, source) && index < |lexemes|
    requires Classify(lexemes, index, source) == LineLevelDirective
    ensures lexemes[index].kind == At && index + 1 < |lexemes|
    ensures IsLineLevelDirective(lexemes[index + 1], source) && AtLineStart(lexemes, index)
  {
  }
}
