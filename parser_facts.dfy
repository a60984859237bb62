// Properties of the parser's scans: the closing parenthesis of an explicit
// expression or condition, the line-break rule of the dispatcher, and the
// worked templates of the parser's tests.

module ParserFacts {
  import opened Common
  import opened Lexemes
  import opened Classifier
  import opened Tokens
  import opened Scans
  import Scanner

  // ------------------------------------------------------ closing parenthesis

  /** The string flag and depth in front of lexeme `k` when the scan starts
      at `from` outside a string at depth zero. */
  function StateBefore(lexemes: seq<Lexeme>, from: nat, k: nat): (bool, int)
    requires from <= k <= |lexemes|
    decreases k - from
  {
    if k == from then (false, 0)
    else
      var before := StateBefore(lexemes, from, k - 1);
      ParenthesisStep(lexemes, k - 1, before.0, before.1)
  }

  /** Lexeme `k` is a `)` outside a string with nothing left open in front of it. */
  predicate Closes(lexemes: seq<Lexeme>, from: nat, k: nat)
    requires from <= k < |lexemes|
  {
    lexemes[k].kind == RightParenthesis && !StateBefore(lexemes, from, k).0 && StateBefore(lexemes, from, k).1 <= 0
  }

  /** The scan stops at `j` itself exactly when `j` is a `)` outside a string
      at depth zero or below. */
  lemma StopsHere(lexemes: seq<Lexeme>, j: nat, inString: bool, nest: int)
    requires j < |lexemes|
    ensures ClosingParenthesis(lexemes, j, inString, nest) == Some(j) <==>
            lexemes[j].kind == RightParenthesis && !inString && nest <= 0
  {
    var next := ParenthesisStep(lexemes, j, inString, nest);
    if !(lexemes[j].kind == RightParenthesis && !inString && nest <= 0) {
      assert ClosingParenthesis(lexemes, j, inString, nest) == ClosingParenthesis(lexemes, j + 1, next.0, next.1);
    }
  }

  /** Before the first closing parenthesis the scan is where its state says. */
  lemma {:induction false} ClosingWalk(lexemes: seq<Lexeme>, from: nat, j: nat)
    requires from <= j <= |lexemes|
    requires forall k :: from <= k < j ==> !Closes(lexemes, from, k)
    ensures ClosingParenthesis(lexemes, from, false, 0) ==
            ClosingParenthesis(lexemes, j, StateBefore(lexemes, from, j).0, StateBefore(lexemes, from, j).1)
    decreases j - from
  {
    if j > from {
      ClosingWalk(lexemes, from, j - 1);
      var st := StateBefore(lexemes, from, j - 1);
      var next := ParenthesisStep(lexemes, j - 1, st.0, st.1);
      assert StateBefore(lexemes, from, j) == next;
      assert !Closes(lexemes, from, j - 1);
      assert ClosingParenthesis(lexemes, j - 1, st.0, st.1) == ClosingParenthesis(lexemes, j, next.0, next.1);
    }
  }

  /** The depth never drops below zero before the first closing parenthesis. */
  lemma {:induction false} DepthNonNegative(lexemes: seq<Lexeme>, from: nat, j: nat)
    requires from <= j <= |lexemes|
    requires forall k :: from <= k < j ==> !Closes(lexemes, from, k)
    ensures StateBefore(lexemes, from, j).1 >= 0
    decreases j - from
  {
    if j > from {
      DepthNonNegative(lexemes, from, j - 1);
      var st := StateBefore(lexemes, from, j - 1);
      assert StateBefore(lexemes, from, j) == ParenthesisStep(lexemes, j - 1, st.0, st.1);
      assert !Closes(lexemes, from, j - 1);
    }
  }

  lemma {:induction false} ClosingFound(lexemes: seq<Lexeme>, from: nat, c: nat, j: nat)
    requires from <= j <= c < |lexemes|
    requires ClosingParenthesis(lexemes, from, false, 0) == Some(c)
    requires forall k :: from <= k < j ==> !Closes(lexemes, from, k)
    ensures Closes(lexemes, from, c) && forall k :: from <= k < c ==> !Closes(lexemes, from, k)
    decreases c - j
  {
    ClosingWalk(lexemes, from, j);
    var st := StateBefore(lexemes, from, j);
    StopsHere(lexemes, j, st.0, st.1);
    if j < c {
      ClosingFound(lexemes, from, c, j + 1);
    }
  }

  /** The scan of an explicit expression or a condition stops exactly at the
      first `)` outside a string at depth zero, and the depth it counts on the
      way never goes negative. */
  lemma ClosingParenthesisIsFirstClose(lexemes: seq<Lexeme>, from: nat, c: nat)
    requires from <= c < |lexemes|
    ensures ClosingParenthesis(lexemes, from, false, 0) == Some(c) <==>
            Closes(lexemes, from, c) && forall k :: from <= k < c ==> !Closes(lexemes, from, k)
    ensures ClosingParenthesis(lexemes, from, false, 0) == Some(c) ==> StateBefore(lexemes, from, c).1 == 0
  {
    if Closes(lexemes, from, c) && forall k :: from <= k < c ==> !Closes(lexemes, from, k) {
      ClosingWalk(lexemes, from, c);
      DepthNonNegative(lexemes, from, c);
    }
    if ClosingParenthesis(lexemes, from, false, 0) == Some(c) {
      ClosingFound(lexemes, from, c, from);
      ClosingWalk(lexemes, from, c);
      DepthNonNegative(lexemes, from, c);
    }
  }

  // ------------------------------------------------- the condition loop

  /** The source's condition loop leaves after lexeme `k`: the step there
      puts it inside a string, or outside one on a `)` with nothing left open. */
  predicate ExitsAfter(lexemes: seq<Lexeme>, from: nat, k: nat)
    requires from <= k < |lexemes|
  {
    var after := StateBefore(lexemes, from, k + 1);
    after.0 || (after.1 <= 0 && lexemes[k].kind == RightParenthesis)
  }

  /** The loop stops at `j` itself exactly when the step there leaves it
      inside a string, or outside one on a `)` at depth zero or below. */
  lemma ExitsHere(lexemes: seq<Lexeme>, j: nat, inString: bool, nest: int)
    requires j < |lexemes|
    ensures ConditionEndAsWritten(lexemes, j, inString, nest) == Some(j) <==>
            var after := ParenthesisStep(lexemes, j, inString, nest);
            after.0 || (after.1 <= 0 && lexemes[j].kind == RightParenthesis)
  {
  }

  /** Before its first exit the loop is where its state says. */
  lemma {:induction false} ExitWalk(lexemes: seq<Lexeme>, from: nat, j: nat)
    requires from <= j <= |lexemes|
    requires forall k :: from <= k < j ==> !ExitsAfter(lexemes, from, k)
    ensures ConditionEndAsWritten(lexemes, from, false, 0) ==
            ConditionEndAsWritten(lexemes, j, StateBefore(lexemes, from, j).0, StateBefore(lexemes, from, j).1)
    decreases j - from
  {
    if j > from {
      ExitWalk(lexemes, from, j - 1);
      var st := StateBefore(lexemes, from, j - 1);
      var next := ParenthesisStep(lexemes, j - 1, st.0, st.1);
      assert StateBefore(lexemes, from, j) == next;
      assert !ExitsAfter(lexemes, from, j - 1);
      assert ConditionEndAsWritten(lexemes, j - 1, st.0, st.1) == ConditionEndAsWritten(lexemes, j, next.0, next.1);
    }
  }

  lemma {:induction false} ExitFound(lexemes: seq<Lexeme>, from: nat, c: nat, j: nat)
    requires from <= j <= c < |lexemes|
    requires ConditionEndAsWritten(lexemes, from, false, 0) == Some(c)
    requires forall k :: from <= k < j ==> !ExitsAfter(lexemes, from, k)
    ensures ExitsAfter(lexemes, from, c) && forall k :: from <= k < c ==> !ExitsAfter(lexemes, from, k)
    decreases c - j
  {
    ExitWalk(lexemes, from, j);
    var st := StateBefore(lexemes, from, j);
    ExitsHere(lexemes, j, st.0, st.1);
    assert StateBefore(lexemes, from, j + 1) == ParenthesisStep(lexemes, j, st.0, st.1);
    if j < c {
      ExitFound(lexemes, from, c, j + 1);
    }
  }

  /** The source's condition loop stops exactly at its first exit: the first
      lexeme after which it is inside a string, or outside one on a `)` that
      leaves nothing open. So it stops at the first `)` that closes a nested
      call as well as at the quote that opens a string. */
  lemma ConditionEndIsFirstExit(lexemes: seq<Lexeme>, from: nat, c: nat)
    requires from <= c < |lexemes|
    ensures ConditionEndAsWritten(lexemes, from, false, 0) == Some(c) <==>
            ExitsAfter(lexemes, from, c) && forall k :: from <= k < c ==> !ExitsAfter(lexemes, from, k)
  {
    if ExitsAfter(lexemes, from, c) && forall k :: from <= k < c ==> !ExitsAfter(lexemes, from, k) {
      ExitWalk(lexemes, from, c);
      var st := StateBefore(lexemes, from, c);
      ExitsHere(lexemes, c, st.0, st.1);
      assert StateBefore(lexemes, from, c + 1) == ParenthesisStep(lexemes, c, st.0, st.1);
    }
    if ConditionEndAsWritten(lexemes, from, false, 0) == Some(c) {
      ExitFound(lexemes, from, c, from);
    }
  }

  // ----------------------------------------------- C# runs and attribute values

  /** The C# state after the lexemes from `from` up to `k`, starting in `st`. */
  function CSharpStateAt(lexemes: seq<Lexeme>, from: nat, k: nat, st: CSharpState): CSharpState
    requires from <= k <= |lexemes|
    decreases k - from
  {
    if k == from then st else CSharpStep(lexemes, k - 1, CSharpStateAt(lexemes, from, k - 1, st))
  }

  /** The run, started at `from` in `st`, goes on past lexeme `k`. */
  predicate GoesOn(lexemes: seq<Lexeme>, from: nat, st: CSharpState, k: nat)
    requires from <= k < |lexemes|
  {
    CSharpContinues(lexemes[k].kind, CSharpStateAt(lexemes, from, k, st))
  }

  /** While the run goes on, the scan is where its state says. */
  lemma {:induction false} CSharpWalk(lexemes: seq<Lexeme>, from: nat, st: CSharpState, j: nat)
    requires from <= j <= |lexemes|
    requires forall k :: from <= k < j ==> GoesOn(lexemes, from, st, k)
    ensures CSharpEnd(lexemes, from, st) == CSharpEnd(lexemes, j, CSharpStateAt(lexemes, from, j, st))
    decreases j - from
  {
    if j > from {
      CSharpWalk(lexemes, from, st, j - 1);
      var before := CSharpStateAt(lexemes, from, j - 1, st);
      assert GoesOn(lexemes, from, st, j - 1);
      assert CSharpStateAt(lexemes, from, j, st) == CSharpStep(lexemes, j - 1, before);
      assert CSharpEnd(lexemes, j - 1, before) == CSharpEnd(lexemes, j, CSharpStep(lexemes, j - 1, before));
    }
  }

  /** The run stops at `j` itself exactly when the state there forbids going on. */
  lemma CSharpStopsHere(lexemes: seq<Lexeme>, j: nat, st: CSharpState)
    requires j <= |lexemes|
    ensures CSharpEnd(lexemes, j, st).0 == j <==> j == |lexemes| || !CSharpContinues(lexemes[j].kind, st)
    ensures CSharpEnd(lexemes, j, st).0 == j ==> CSharpEnd(lexemes, j, st).1 == st
  {
  }

  lemma {:induction false} CSharpFound(lexemes: seq<Lexeme>, from: nat, st: CSharpState, e: nat, j: nat)
    requires from <= j <= e <= |lexemes|
    requires CSharpEnd(lexemes, from, st).0 == e
    requires forall k :: from <= k < j ==> GoesOn(lexemes, from, st, k)
    ensures e == |lexemes| || !CSharpContinues(lexemes[e].kind, CSharpStateAt(lexemes, from, e, st))
    ensures forall k :: from <= k < e ==> GoesOn(lexemes, from, st, k)
    ensures CSharpEnd(lexemes, from, st).1 == CSharpStateAt(lexemes, from, e, st)
    decreases e - j
  {
    CSharpWalk(lexemes, from, st, j);
    var here := CSharpStateAt(lexemes, from, j, st);
    CSharpStopsHere(lexemes, j, here);
    if j < e {
      assert CSharpStateAt(lexemes, from, j + 1, st) == CSharpStep(lexemes, j, here);
      CSharpFound(lexemes, from, st, e, j + 1);
    }
  }

  /** A C# run stops at the first lexeme, from where it starts, at which its
      state forbids going on — a `}` at brace depth zero, or a `<` outside
      strings, statements and parentheses — or at the end of the array, and
      it is in the state those lexemes lead to. */
  lemma CSharpEndIsFirstStop(lexemes: seq<Lexeme>, from: nat, st: CSharpState, e: nat)
    requires from <= e <= |lexemes|
    ensures CSharpEnd(lexemes, from, st).0 == e <==>
            (e == |lexemes| || !CSharpContinues(lexemes[e].kind, CSharpStateAt(lexemes, from, e, st))) &&
            forall k :: from <= k < e ==> GoesOn(lexemes, from, st, k)
    ensures CSharpEnd(lexemes, from, st).0 == e ==> CSharpEnd(lexemes, from, st).1 == CSharpStateAt(lexemes, from, e, st)
  {
    if (e == |lexemes| || !CSharpContinues(lexemes[e].kind, CSharpStateAt(lexemes, from, e, st))) &&
       forall k :: from <= k < e ==> GoesOn(lexemes, from, st, k) {
      CSharpWalk(lexemes, from, st, e);
    }
    if CSharpEnd(lexemes, from, st).0 == e {
      CSharpFound(lexemes, from, st, e, from);
    }
  }

  /** Outside `@( … )` expressions an attribute value ends at the first
      lexeme that stops it: for an unquoted value the first `/`, `>` or
      whitespace, for a quoted one the first unescaped quote of its kind. */
  lemma {:induction false} ValueEndIsFirstStop(lexemes: seq<Lexeme>, j: nat, nest: int, inString: bool,
                                               delimiter: Option<LexemeType>, e: nat)
    requires nest <= 0 && j <= e < |lexemes|
    requires forall k :: j <= k < e ==> lexemes[k].kind != At
    ensures ValueEnd(lexemes, j, nest, inString, delimiter) == Some(e) <==>
            !ValueContinues(lexemes, e, 0, delimiter) && forall k :: j <= k < e ==> ValueContinues(lexemes, k, 0, delimiter)
    decreases e - j
  {
    if j < e && ValueContinues(lexemes, j, nest, delimiter) {
      var t := lexemes[j].kind;
      var nest' := if !inString && t == RightParenthesis then nest - 1 else nest;
      ValueEndIsFirstStop(lexemes, j + 1, nest', inString, delimiter, e);
      assert ValueEnd(lexemes, j, nest, inString, delimiter) == ValueEnd(lexemes, j + 1, nest', inString, delimiter);
      assert (forall k :: j <= k < e ==> ValueContinues(lexemes, k, 0, delimiter)) <==>
             (forall k :: j + 1 <= k < e ==> ValueContinues(lexemes, k, 0, delimiter));
    }
  }

  // ------------------------------------------------------- worked templates

  /** The lexemes of `@if (f(x)) {}`, with the condition's words as text. */
  function IfCallTemplate(): seq<Lexeme> {
    [Lexeme(1, 0, At), Lexeme(2, 1, LexemeType.Text), Lexeme(1, 3, WhiteSpace), Lexeme(1, 4, LeftParenthesis),
     Lexeme(1, 5, LexemeType.Text), Lexeme(1, 6, LeftParenthesis), Lexeme(1, 7, LexemeType.Text), Lexeme(1, 8, RightParenthesis),
     Lexeme(1, 9, RightParenthesis), Lexeme(1, 10, WhiteSpace), Lexeme(1, 11, LeftBrace),
     Lexeme(1, 12, RightBrace), Lexeme(0, 13, EndOfFile)]
  }

  lemma IfCallTemplateOrdered()
    ensures Ordered(IfCallTemplate(), "@if (f(x)) {}")
  {
    var l := IfCallTemplate();
    assert InOrderFrom(l, 12) && InOrderFrom(l, 11) && InOrderFrom(l, 10) && InOrderFrom(l, 9);
    assert InOrderFrom(l, 8) && InOrderFrom(l, 7) && InOrderFrom(l, 6) && InOrderFrom(l, 5);
    assert InOrderFrom(l, 4) && InOrderFrom(l, 3) && InOrderFrom(l, 2) && InOrderFrom(l, 1);
  }

  /** The source's condition loop stops at the inner `)` of a call in the
      condition and cuts the condition short: `(f(x)` instead of `(f(x))`. */
  lemma ConditionStopsAtInnerParenthesis()
    ensures Ordered(IfCallTemplate(), "@if (f(x)) {}")
    ensures ConditionAt(IfCallTemplate(), 3, "@if (f(x)) {}") == Some((5, 8))
    ensures "@if (f(x)) {}"[4..4 + 5] == "(f(x)"
  {
    IfCallTemplateOrdered();
    var l := IfCallTemplate();
    assert ConditionEndAsWritten(l, 7, false, 1) == Some(7);
    assert ConditionEndAsWritten(l, 6, false, 1) == Some(7);
    assert ConditionEndAsWritten(l, 5, false, 0) == Some(7);
    assert ConditionEndAsWritten(l, 4, false, 0) == Some(7);
    assert Distance(l, "@if (f(x)) {}", 3, 8) == 5;
  }

  /** The condition read through its matching parenthesis covers the whole
      call: `(f(x))`. */
  lemma ConditionThroughMatchingParenthesis()
    ensures Ordered(IfCallTemplate(), "@if (f(x)) {}")
    ensures ConditionAtCorrected(IfCallTemplate(), 3, "@if (f(x)) {}") == Some((6, 9))
    ensures "@if (f(x)) {}"[4..4 + 6] == "(f(x))"
  {
    IfCallTemplateOrdered();
    var l := IfCallTemplate();
    assert ClosingParenthesis(l, 8, false, 0) == Some(8);
    assert ClosingParenthesis(l, 7, false, 1) == Some(8);
    assert ClosingParenthesis(l, 6, false, 1) == Some(8);
    assert ClosingParenthesis(l, 5, false, 0) == Some(8);
    assert ClosingParenthesis(l, 4, false, 0) == Some(8);
    assert Distance(l, "@if (f(x)) {}", 3, 9) == 6;
  }

  /** The lexemes of `@if ("a") {}`, the words as text. */
  function QuotedConditionTemplate(): seq<Lexeme> {
    [Lexeme(1, 0, At), Lexeme(2, 1, LexemeType.Text), Lexeme(1, 3, WhiteSpace), Lexeme(1, 4, LeftParenthesis),
     Lexeme(1, 5, DoubleQuote), Lexeme(1, 6, LexemeType.Text), Lexeme(1, 7, DoubleQuote), Lexeme(1, 8, RightParenthesis),
     Lexeme(1, 9, WhiteSpace), Lexeme(1, 10, LeftBrace), Lexeme(1, 11, RightBrace), Lexeme(0, 12, EndOfFile)]
  }

  lemma QuotedConditionTemplateOrdered()
    ensures Ordered(QuotedConditionTemplate(), "@if (\"a\") {}")
  {
    var l := QuotedConditionTemplate();
    assert InOrderFrom(l, 11) && InOrderFrom(l, 10) && InOrderFrom(l, 9) && InOrderFrom(l, 8);
    assert InOrderFrom(l, 7) && InOrderFrom(l, 6) && InOrderFrom(l, 5) && InOrderFrom(l, 4);
    assert InOrderFrom(l, 3) && InOrderFrom(l, 2) && InOrderFrom(l, 1);
  }

  /** The source's condition loop also stops at the quote that opens a
      string: the condition of `@if ("a") {}` is cut to `("`, where the
      matching parenthesis gives `("a")`. */
  lemma ConditionStopsAtOpeningQuote()
    ensures Ordered(QuotedConditionTemplate(), "@if (\"a\") {}")
    ensures ConditionAt(QuotedConditionTemplate(), 3, "@if (\"a\") {}") == Some((2, 5))
    ensures "@if (\"a\") {}"[4..4 + 2] == "(\""
    ensures ConditionAtCorrected(QuotedConditionTemplate(), 3, "@if (\"a\") {}") == Some((5, 8))
    ensures "@if (\"a\") {}"[4..4 + 5] == "(\"a\")"
  {
    QuotedConditionTemplateOrdered();
    var l := QuotedConditionTemplate();
    assert !IsEscaped(l, 4) && !IsEscaped(l, 6);
    assert ConditionEndAsWritten(l, 4, false, 0) == Some(4);
    assert Distance(l, "@if (\"a\") {}", 3, 5) == 2;
    assert ClosingParenthesis(l, 7, false, 0) == Some(7);
    assert ClosingParenthesis(l, 6, true, 0) == Some(7);
    assert ClosingParenthesis(l, 5, true, 0) == Some(7);
    assert ClosingParenthesis(l, 4, false, 0) == Some(7);
    assert Distance(l, "@if (\"a\") {}", 3, 8) == 5;
  }

  /** The lexemes of `@(())`. */
  function NestedCallTemplate(): seq<Lexeme> {
    [Lexeme(1, 0, At), Lexeme(1, 1, LeftParenthesis), Lexeme(1, 2, LeftParenthesis),
     Lexeme(1, 3, RightParenthesis), Lexeme(1, 4, RightParenthesis), Lexeme(0, 5, EndOfFile)]
  }

  /** An explicit expression closes at the `)` that matches its `(`: in
      `@(())` that is the one at offset 4. */
  lemma ExplicitClosesAtMatchingParenthesis()
    ensures Ordered(NestedCallTemplate(), "@(())")
    ensures ExplicitAt(NestedCallTemplate(), 0, "@(())") == Consumed(ExplicitRazorExpressionToken(4, 0), 5)
  {
    var l := NestedCallTemplate();
    assert InOrderFrom(l, 5) && InOrderFrom(l, 4) && InOrderFrom(l, 3) && InOrderFrom(l, 2) && InOrderFrom(l, 1);
    assert ClosingParenthesis(l, 4, false, 0) == Some(4);
    assert ClosingParenthesis(l, 3, false, 1) == Some(4);
    assert ClosingParenthesis(l, 2, false, 0) == Some(4);
  }

  /** The lexemes of `@("Code)")`, the word as text. */
  function QuotedParenthesisTemplate(): seq<Lexeme> {
    [Lexeme(1, 0, At), Lexeme(1, 1, LeftParenthesis), Lexeme(1, 2, DoubleQuote), Lexeme(4, 3, LexemeType.Text),
     Lexeme(1, 7, RightParenthesis), Lexeme(1, 8, DoubleQuote), Lexeme(1, 9, RightParenthesis), Lexeme(0, 10, EndOfFile)]
  }

  lemma QuotedParenthesisTemplateOrdered()
    ensures Ordered(QuotedParenthesisTemplate(), "@(\"Code)\")")
  {
    var l := QuotedParenthesisTemplate();
    assert InOrderFrom(l, 7) && InOrderFrom(l, 6) && InOrderFrom(l, 5) && InOrderFrom(l, 4);
    assert InOrderFrom(l, 3) && InOrderFrom(l, 2) && InOrderFrom(l, 1);
  }

  /** A `)` inside double quotes does not close an explicit expression:
      `@("Code)")` closes at offset 9. */
  lemma ExplicitSkipsQuotedParenthesis()
    ensures Ordered(QuotedParenthesisTemplate(), "@(\"Code)\")")
    ensures ExplicitAt(QuotedParenthesisTemplate(), 0, "@(\"Code)\")") == Consumed(ExplicitRazorExpressionToken(9, 0), 7)
  {
    QuotedParenthesisTemplateOrdered();
    var l := QuotedParenthesisTemplate();
    assert !IsEscaped(l, 2) && !IsEscaped(l, 5);
    assert ClosingParenthesis(l, 6, false, 0) == Some(6);
    assert ClosingParenthesis(l, 5, true, 0) == Some(6);
    assert ClosingParenthesis(l, 4, true, 0) == Some(6);
    assert ClosingParenthesis(l, 3, true, 0) == Some(6);
    assert ClosingParenthesis(l, 2, false, 0) == Some(6);
  }

  // ---------------------------------------------------------- line breaks

  /** A line feed is a new line; a carriage return is one too unless a line
      feed follows it, in which case it is ignored and the line feed makes
      the single new line. */
  lemma LineBreakTokens(lexemes: seq<Lexeme>, i: nat, source: string)
    requires Ordered(lexemes, source) && i < |lexemes|
    requires lexemes[i].kind == LexemeType.NewLine || lexemes[i].kind == LexemeType.CarriageReturn
    ensures SimpleTokenAt(lexemes, i, source).Some?
    ensures var r := SimpleTokenAt(lexemes, i, source).value;
            if lexemes[i].kind == LexemeType.CarriageReturn && i + 1 < |lexemes| &&
               lexemes[i + 1].kind == LexemeType.NewLine
            then r == Consumed(IgnoreToken, i)
            else r == Consumed(NewLineToken(lexemes[i].offset), i + 1)
  {
  }
}
