// The lexer of the current generation: it splits a template into
// one-character delimiter lexemes and the runs of other characters between
// them, and closes the list with an end-of-file lexeme.

module Scanner {
  import opened Lexemes

  /** The characters that end a run and form a lexeme of their own. */
  predicate IsDelimiter(c: char) {
    c == '@' || c == '<' || c == '>' || c == '(' || c == ')' || c == '{' || c == '}' ||
    c == '/' || c == '\\' || c == '-' || c == '!' || c == '*' || c == ' ' || c == '\n' ||
    c == '\r' || c == '\t' || c == '\'' || c == '"'
  }

  /** The kind of a one-character lexeme. */
  function CharType(c: char): (t: LexemeType)
    ensures t != Unknown <==> IsDelimiter(c)
    ensures t != Unknown ==> IsDelimiterType(t) && DelimiterChar(t) == c
  {
    match c
    case '@' => At
    case '<' => LeftChevron
    case '>' => RightChevron
    case '(' => LeftParenthesis
    case ')' => RightParenthesis
    case '{' => LeftBrace
    case '}' => RightBrace
    case '/' => ForwardSlash
    case '\\' => BackSlash
    case '-' => Dash
    case '!' => Exclamation
    case '*' => Asterisk
    case '"' => DoubleQuote
    case '\'' => SingleQuote
    case ' ' => WhiteSpace
    case '\n' => NewLine
    case '\r' => CarriageReturn
    case '\t' => Tab
    case _ => Unknown
  }

  /** The kinds the lexer gives to delimiters. */
  predicate IsDelimiterType(t: LexemeType) {
    !(t.Text? || t.EndOfFile? || t.RazorKeyword? || t.CSharpRazorKeyword? ||
      t.Semicolon? || t.Equals? || t.Unknown?)
  }

  /** The character a delimiter kind stands for. */
  function DelimiterChar(t: LexemeType): (c: char)
    requires IsDelimiterType(t)
    ensures IsDelimiter(c)
  {
    match t
    case At => '@'
    case LeftChevron => '<'
    case RightChevron => '>'
    case LeftParenthesis => '('
    case RightParenthesis => ')'
    case LeftBrace => '{'
    case RightBrace => '}'
    case ForwardSlash => '/'
    case BackSlash => '\\'
    case Dash => '-'
    case Exclamation => '!'
    case Asterisk => '*'
    case DoubleQuote => '"'
    case SingleQuote => '\''
    case WhiteSpace => ' '
    case NewLine => '\n'
    case CarriageReturn => '\r'
    case Tab => '\t'
  }

  /** The kind of a span: a delimiter kind only for a span that is one delimiter. */
  function TypeOf(span: string): (t: LexemeType)
    ensures t != Unknown <==> |span| == 1 && IsDelimiter(span[0])
    ensures t != Unknown ==> IsDelimiterType(t) && [DelimiterChar(t)] == span
  {
    if |span| == 1 then CharType(span[0]) else Unknown
  }

  function EndOfFileAt(source: string): Lexeme {
    Lexeme(0, |source|, EndOfFile)
  }

  /** What the lexer emits after the loop: the pending run when it is long
      enough, then end-of-file. The lexer as written emits the run only when
      it has at least two characters; `lossless` emits any non-empty run. */
  function Tail(source: string, lossless: bool, start: nat): seq<Lexeme>
    requires start <= |source|
  {
    var pending := if lossless then start < |source| else start < |source| - 1;
    (if pending then [Lexeme(|source| - start, start, TypeOf(source[start..]))] else [])
    + [EndOfFileAt(source)]
  }

  /** The lexemes the loop emits from position `i` on, with the current
      run starting at `start`. */
  function ScanFrom(source: string, lossless: bool, start: nat, i: nat): seq<Lexeme>
    requires start <= i <= |source|
    decreases |source| - i
  {
    if i == |source| then Tail(source, lossless, start)
    else if !IsDelimiter(source[i]) then ScanFrom(source, lossless, start, i + 1)
    else
      (if start < i then [Lexeme(i - start, start, TypeOf(source[start..i + 1]))] else [])
      + [Lexeme(1, i, TypeOf(source[i..i + 1]))]
      + ScanFrom(source, lossless, i + 1, i + 1)
  }

  /** The lexer's output, as written. */
  function Scan(source: string): seq<Lexeme> {
    ScanFrom(source, false, 0, 0)
  }

  /** The lexer's output when a one-character trailing run is kept too. */
  function ScanLossless(source: string): seq<Lexeme> {
    ScanFrom(source, true, 0, 0)
  }

  /** The lexer: one pass over the input that closes the pending run at each
      delimiter. `lossless` chooses the tail rule (see `Tail`); the source's
      lexer is `Lex(input, false)`. */
  method Lex(input: string, lossless: bool) returns (lexemes: seq<Lexeme>)
    ensures lexemes == ScanFrom(input, lossless, 0, 0)
  {
    var lexemeStart := 0;
    lexemes := [];
    var i := 0;
    while i < |input|
      invariant lexemeStart <= i <= |input|
      invariant lexemes + ScanFrom(input, lossless, lexemeStart, i) == ScanFrom(input, lossless, 0, 0)
    {
      if IsDelimiter(input[i]) {
        ScanFromDelimiter(input, lossless, lexemeStart, i);
        var run := if lexemeStart < i then [Lexeme(i - lexemeStart, lexemeStart, TypeOf(input[lexemeStart..i + 1]))] else [];
        var single := Lexeme(1, i, TypeOf(input[i..i + 1]));
        assert lexemes + ScanFrom(input, lossless, lexemeStart, i) ==
               (lexemes + run + [single]) + ScanFrom(input, lossless, i + 1, i + 1);
        lexemes := lexemes + run + [single];
        lexemeStart := i + 1;
      }
      i := i + 1;
    }
    assert ScanFrom(input, lossless, lexemeStart, i) == Tail(input, lossless, lexemeStart);
    if (if lossless then lexemeStart < |input| else lexemeStart < |input| - 1) {
      lexemes := lexemes + [Lexeme(|input| - lexemeStart, lexemeStart, TypeOf(input[lexemeStart..]))];
    }
    lexemes := lexemes + [EndOfFileAt(input)];
  }

  /** A lexeme before end-of-file: non-empty, inside the source, and either a
      run of non-delimiters of kind Unknown or one delimiter of its own kind. */
  ghost predicate Classified(l: Lexeme, source: string) {
    1 <= l.length && l.offset + l.length <= |source| &&
    if l.kind == Unknown then
      forall j :: l.offset <= j < l.offset + l.length ==> !IsDelimiter(source[j])
    else
      l.length == 1 && IsDelimiter(source[l.offset]) && l.kind == CharType(source[l.offset])
  }

  /** No run of non-delimiters is cut in two: an `Unknown` lexeme is never
      followed by another. Side by side and classified, every run between
      delimiters is therefore exactly one lexeme. */
  ghost predicate RunsWhole(lexemes: seq<Lexeme>) {
    forall k :: 0 <= k < |lexemes| - 1 ==> !(lexemes[k].kind == Unknown && lexemes[k + 1].kind == Unknown)
  }

  /** What every list the lexer returns looks like: classified lexemes side by
      side from offset 0, each run whole, then end-of-file; `gap` characters
      at the end of the source may be left uncovered. */
  ghost predicate Covers(lexemes: seq<Lexeme>, source: string, gap: nat) {
    |lexemes| >= 1 &&
    lexemes[|lexemes| - 1] == EndOfFileAt(source) &&
    (forall k :: 0 <= k < |lexemes| - 1 ==> Classified(lexemes[k], source)) &&
    RunsWhole(lexemes) &&
    gap <= |source| &&
    Adjacent(lexemes, 0, |source| - gap)
  }

  /** A lexeme list that covers the whole source. */
  ghost predicate WellFormed(lexemes: seq<Lexeme>, source: string) {
    Covers(lexemes, source, 0)
  }

  /** A lexeme list as the lexer returns it: the whole source, or all but a
      last non-delimiter character. */
  ghost predicate Lexed(lexemes: seq<Lexeme>, source: string) {
    WellFormed(lexemes, source) ||
    (|source| >= 1 && !IsDelimiter(source[|source| - 1]) && Covers(lexemes, source, 1))
  }

  /** The shape of what the lexer emits from a run starting at `start` on. */
  ghost predicate EmitsFrom(r: seq<Lexeme>, source: string, lossless: bool, start: int) {
    |r| >= 1 && r[|r| - 1] == EndOfFileAt(source) &&
    (forall k :: 0 <= k < |r| - 1 ==> Classified(r[k], source)) &&
    RunsWhole(r) &&
    (Adjacent(r, start, |source|) ||
     (!lossless && |source| >= 1 && !IsDelimiter(source[|source| - 1]) && Adjacent(r, start, |source| - 1)))
  }

  lemma EmitsCons(x: Lexeme, rest: seq<Lexeme>, source: string, lossless: bool, start: int)
    requires EmitsFrom(rest, source, lossless, start + x.length)
    requires Classified(x, source) && x.offset == start
    requires x.kind == Unknown ==> rest[0].kind != Unknown
    ensures EmitsFrom([x] + rest, source, lossless, start)
  {
    var r := [x] + rest;
    forall k | 0 <= k < |r| - 1
      ensures Classified(r[k], source)
    {
      if k > 0 {
        assert r[k] == rest[k - 1];
      }
    }
    forall k | 0 <= k < |r| - 1
      ensures !(r[k].kind == Unknown && r[k + 1].kind == Unknown)
    {
      if k > 0 {
        assert r[k] == rest[k - 1] && r[k + 1] == rest[k];
      }
    }
    if Adjacent(rest, start + x.length, |source|) {
      AdjacentCons(x, rest, start, |source|);
    } else {
      AdjacentCons(x, rest, start, |source| - 1);
    }
  }

  lemma TailEmits(source: string, lossless: bool, start: nat)
    requires start <= |source|
    requires forall j :: start <= j < |source| ==> !IsDelimiter(source[j])
    ensures EmitsFrom(Tail(source, lossless, start), source, lossless, start)
  {
    var r := Tail(source, lossless, start);
    if lossless || start < |source| - 1 {
      if start < |source| {
        var run := Lexeme(|source| - start, start, TypeOf(source[start..]));
        assert r == [run, EndOfFileAt(source)];
        assert Classified(run, source);
      }
    } else if start == |source| - 1 {
      assert !IsDelimiter(source[|source| - 1]);
    }
  }

  lemma {:induction false} ScanFromCovers(source: string, lossless: bool, start: nat, i: nat)
    requires start <= i <= |source|
    requires forall j :: start <= j < i ==> !IsDelimiter(source[j])
    ensures EmitsFrom(ScanFrom(source, lossless, start, i), source, lossless, start)
    decreases |source| - i
  {
    if i == |source| {
      TailEmits(source, lossless, start);
    } else if !IsDelimiter(source[i]) {
      ScanFromCovers(source, lossless, start, i + 1);
    } else {
      ScanFromCovers(source, lossless, i + 1, i + 1);
      ScanFromDelimiter(source, lossless, start, i);
      DelimiterEmits(source, lossless, start, i, ScanFrom(source, lossless, i + 1, i + 1));
    }
  }

  lemma DelimiterClassified(source: string, i: nat)
    requires i < |source| && IsDelimiter(source[i])
    ensures Classified(Lexeme(1, i, TypeOf(source[i..i + 1])), source)
  {
    assert source[i..i + 1] == [source[i]];
  }

  lemma RunClassified(source: string, start: nat, i: nat)
    requires start < i < |source|
    requires forall j :: start <= j < i ==> !IsDelimiter(source[j])
    ensures Classified(Lexeme(i - start, start, TypeOf(source[start..i + 1])), source)
  {
  }

  /** One step of the loop at a delimiter: the pending run, if any, then the delimiter. */
  lemma ScanFromDelimiter(source: string, lossless: bool, start: nat, i: nat)
    requires start <= i < |source| && IsDelimiter(source[i])
    ensures ScanFrom(source, lossless, start, i) ==
      (if start < i then [Lexeme(i - start, start, TypeOf(source[start..i + 1]))] else []) +
      ([Lexeme(1, i, TypeOf(source[i..i + 1]))] + ScanFrom(source, lossless, i + 1, i + 1))
  {
  }

  /** A delimiter at `i` closes the run that started at `start`. */
  lemma DelimiterEmits(source: string, lossless: bool, start: nat, i: nat, rest: seq<Lexeme>)
    requires start <= i < |source| && IsDelimiter(source[i])
    requires forall j :: start <= j < i ==> !IsDelimiter(source[j])
    requires EmitsFrom(rest, source, lossless, i + 1)
    ensures EmitsFrom(
      (if start < i then [Lexeme(i - start, start, TypeOf(source[start..i + 1]))] else []) +
      ([Lexeme(1, i, TypeOf(source[i..i + 1]))] + rest), source, lossless, start)
  {
    var delimiter := Lexeme(1, i, TypeOf(source[i..i + 1]));
    DelimiterClassified(source, i);
    EmitsCons(delimiter, rest, source, lossless, i);
    if start < i {
      var run := Lexeme(i - start, start, TypeOf(source[start..i + 1]));
      RunClassified(source, start, i);
      EmitsCons(run, [delimiter] + rest, source, lossless, start);
    } else {
      assert [] + ([delimiter] + rest) == [delimiter] + rest;
    }
  }

  /** The lexer's output is a list of classified lexemes side by side from
      offset 0, closed by end-of-file; it covers the whole source except,
      possibly, a last non-delimiter character. */
  lemma ScanIsLexed(source: string)
    ensures Lexed(Scan(source), source)
  {
    ScanFromCovers(source, false, 0, 0);
  }

  /** Each run between delimiters is one lexeme, with either tail rule. */
  lemma ScanRunsWhole(source: string)
    ensures RunsWhole(Scan(source))
    ensures RunsWhole(ScanLossless(source))
  {
    ScanFromCovers(source, false, 0, 0);
    ScanFromCovers(source, true, 0, 0);
  }

  /** A run cut in two is not a lexer output: "ab" is never two lexemes. */
  lemma SplitRunIsNotLexed()
    ensures !Lexed([Lexeme(1, 0, Unknown), Lexeme(1, 1, Unknown), Lexeme(0, 2, EndOfFile)], "ab")
  {
    var split := [Lexeme(1, 0, Unknown), Lexeme(1, 1, Unknown), Lexeme(0, 2, EndOfFile)];
    assert !RunsWhole(split) by {
      assert split[0].kind == Unknown && split[1].kind == Unknown;
    }
  }

  /** Keeping the one-character trailing run, the lexemes' values spell the
      source exactly. */
  lemma ScanLosslessRoundTrip(source: string)
    ensures WellFormed(ScanLossless(source), source)
    ensures Spelled(ScanLossless(source), source) == source
  {
    var r := ScanLossless(source);
    ScanFromCovers(source, true, 0, 0);
    AdjacentText(r, source, 0, |source|);
  }

  /** As written, a trailing one-character run is lost: "a" lexes to
      end-of-file alone, and the lexemes no longer spell the source. */
  lemma ScanDropsLoneTrailingCharacter()
    ensures Scan("a") == [Lexeme(0, 1, EndOfFile)]
    ensures Spelled(Scan("a"), "a") == ""
    ensures ScanLossless("a") == [Lexeme(1, 0, Unknown), Lexeme(0, 1, EndOfFile)]
  {
    assert !IsDelimiter('a');
    assert ScanFrom("a", false, 0, 0) == ScanFrom("a", false, 0, 1);
    assert ScanFrom("a", true, 0, 0) == ScanFrom("a", true, 0, 1);
  }

  /** The source ends in a one-character run: a last non-delimiter that
      stands alone or follows a delimiter. */
  predicate EndsInLoneCharacter(source: string) {
    |source| >= 1 && !IsDelimiter(source[|source| - 1]) &&
    (|source| == 1 || IsDelimiter(source[|source| - 2]))
  }

  /** Where the run pending after the loop starts, scanning from `i` with
      the current run starting at `start`: just past the last delimiter, or
      `start` when none is left. */
  function FinalRun(source: string, start: nat, i: nat): (f: nat)
    requires start <= i <= |source|
    ensures (f == start && forall j :: i <= j < |source| ==> !IsDelimiter(source[j])) ||
            (i < f <= |source| && IsDelimiter(source[f - 1]) &&
             forall j :: f <= j < |source| ==> !IsDelimiter(source[j]))
    decreases |source| - i
  {
    if i == |source| then start
    else if IsDelimiter(source[i]) then FinalRun(source, i + 1, i + 1)
    else FinalRun(source, start, i + 1)
  }

  /** Both tail rules give the same lexemes unless the final run is one character. */
  lemma {:induction false} ScanFromAgree(source: string, start: nat, i: nat)
    requires start <= i <= |source|
    requires FinalRun(source, start, i) != |source| - 1
    ensures ScanFrom(source, false, start, i) == ScanFrom(source, true, start, i)
    decreases |source| - i
  {
    if i < |source| {
      if IsDelimiter(source[i]) {
        ScanFromAgree(source, i + 1, i + 1);
      } else {
        ScanFromAgree(source, start, i + 1);
      }
    }
  }

  /** With a one-character final run, the lexer as written covers nothing
      past the source's second-to-last character. */
  lemma {:induction false} ScanFromStopsShort(source: string, start: nat, i: nat)
    requires start <= i <= |source|
    requires FinalRun(source, start, i) == |source| - 1
    ensures forall k :: 0 <= k < |ScanFrom(source, false, start, i)| - 1 ==>
              ScanFrom(source, false, start, i)[k].offset + ScanFrom(source, false, start, i)[k].length <= |source| - 1
    decreases |source| - i
  {
    if i < |source| {
      if IsDelimiter(source[i]) {
        ScanFromStopsShort(source, i + 1, i + 1);
        var rest := ScanFrom(source, false, i + 1, i + 1);
        var head := (if start < i then [Lexeme(i - start, start, TypeOf(source[start..i + 1]))] else [])
                    + [Lexeme(1, i, TypeOf(source[i..i + 1]))];
        var r := head + rest;
        assert ScanFrom(source, false, start, i) == r;
        forall k | 0 <= k < |r| - 1
          ensures r[k].offset + r[k].length <= |source| - 1
        {
          if k >= |head| {
            assert r[k] == rest[k - |head|];
          }
        }
      } else {
        ScanFromStopsShort(source, start, i + 1);
      }
    }
  }

  /** The final run of the whole source is one character exactly when the
      source ends in a one-character run. */
  lemma FinalRunIsLone(source: string)
    ensures FinalRun(source, 0, 0) == |source| - 1 <==> EndsInLoneCharacter(source)
  {
    var f := FinalRun(source, 0, 0);
    if EndsInLoneCharacter(source) && |source| >= 2 {
      assert IsDelimiter(source[|source| - 2]);
    }
  }

  /** Every lexeme of the lexer's output lies inside the source. */
  lemma ScanInBounds(source: string)
    ensures forall k :: 0 <= k < |Scan(source)| ==> Scan(source)[k].offset + Scan(source)[k].length <= |source|
  {
    ScanIsLexed(source);
    var r := Scan(source);
    assert forall k :: 0 <= k < |r| - 1 ==> Classified(r[k], source);
  }

  lemma ScanLosesLastCharacter(source: string)
    requires FinalRun(source, 0, 0) == |source| - 1
    ensures forall k :: 0 <= k < |Scan(source)| ==> Scan(source)[k].offset + Scan(source)[k].length <= |source|
    ensures Spelled(Scan(source), source) == source[..|source| - 1]
  {
    ScanInBounds(source);
    var r := Scan(source);
    ScanFromCovers(source, false, 0, 0);
    ScanFromStopsShort(source, 0, 0);
    assert !Adjacent(r, 0, |source|);
    assert forall k :: 0 <= k < |r| - 1 ==> Classified(r[k], source);
    AdjacentText(r, source, 0, |source| - 1);
  }

  /** The lexer as written spells the source back exactly when the source
      does not end in a one-character run; when it does, that character is
      the one lost. */
  lemma ScanSpellsSource(source: string)
    ensures forall k :: 0 <= k < |Scan(source)| ==> Scan(source)[k].offset + Scan(source)[k].length <= |source|
    ensures Spelled(Scan(source), source) == source <==> !EndsInLoneCharacter(source)
    ensures EndsInLoneCharacter(source) ==> Spelled(Scan(source), source) == source[..|source| - 1]
  {
    ScanInBounds(source);
    FinalRunIsLone(source);
    if EndsInLoneCharacter(source) {
      ScanLosesLastCharacter(source);
      assert |source[..|source| - 1]| != |source|;
    } else {
      ScanFromAgree(source, 0, 0);
      ScanLosslessRoundTrip(source);
    }
  }

  lemma {:induction false} ScanFromDelimiters(source: string, lossless: bool, start: nat, i: nat, j: nat)
    requires start <= i <= j < |source|
    requires IsDelimiter(source[j])
    ensures Lexeme(1, j, CharType(source[j])) in ScanFrom(source, lossless, start, i)
    decreases |source| - i
  {
    if !IsDelimiter(source[i]) {
      ScanFromDelimiters(source, lossless, start, i + 1, j);
    } else if i < j {
      ScanFromDelimiters(source, lossless, i + 1, i + 1, j);
    } else {
      assert source[i..i + 1] == [source[i]];
    }
  }

  /** Every delimiter character of the source is a one-character lexeme of
      its own kind. */
  lemma ScanDelimiters(source: string, j: nat)
    requires j < |source| && IsDelimiter(source[j])
    ensures Lexeme(1, j, CharType(source[j])) in Scan(source)
  {
    ScanFromDelimiters(source, false, 0, 0, j);
  }

  /** Lexeme counts of small templates, end-of-file included. */
  lemma ScanCountsBlank()
    ensures |Scan("  ")| == 3
    ensures |Scan(" ")| == 2
  {
    assert Scan("  ") == [Lexeme(1, 0, WhiteSpace), Lexeme(1, 1, WhiteSpace), Lexeme(0, 2, EndOfFile)];
    assert Scan(" ") == [Lexeme(1, 0, WhiteSpace), Lexeme(0, 1, EndOfFile)];
  }

  lemma ScanCountsContent()
    ensures |Scan("Content ")| == 3
    ensures |Scan("Content")| == 2
  {
    assert Scan("Content ") == [Lexeme(7, 0, Unknown), Lexeme(1, 7, WhiteSpace), Lexeme(0, 8, EndOfFile)];
    assert Scan("Content") == [Lexeme(7, 0, Unknown), Lexeme(0, 7, EndOfFile)];
  }

  lemma ScanCountsComment()
    ensures |Scan("@*")| == 3
    ensures |Scan("@*()")| == 5
  {
    assert Scan("@*") == [Lexeme(1, 0, At), Lexeme(1, 1, Asterisk), Lexeme(0, 2, EndOfFile)];
  }

  /** Non-delimiters only extend the pending run. */
  lemma {:induction false} ScanFromRun(source: string, lossless: bool, start: nat, i: nat, j: nat)
    requires start <= i <= j <= |source|
    requires forall k :: i <= k < j ==> !IsDelimiter(source[k])
    ensures ScanFrom(source, lossless, start, i) == ScanFrom(source, lossless, start, j)
    decreases j - i
  {
    if i < j {
      ScanFromRun(source, lossless, start, i + 1, j);
    }
  }

  /** The lexemes of a Razor comment: the word between the asterisks is one run. */
  lemma ScanComment()
    ensures Scan("@*Comment*@") ==
      [Lexeme(1, 0, At), Lexeme(1, 1, Asterisk), Lexeme(7, 2, Unknown),
       Lexeme(1, 9, Asterisk), Lexeme(1, 10, At), Lexeme(0, 11, EndOfFile)]
  {
    var c := "@*Comment*@";
    ScanCommentTail();
    ScanFromRun(c, false, 2, 2, 9);
    assert ScanFrom(c, false, 1, 1) == [Lexeme(1, 1, Asterisk)] + ScanFrom(c, false, 2, 2);
    assert ScanFrom(c, false, 0, 0) == [Lexeme(1, 0, At)] + ScanFrom(c, false, 1, 1);
  }

  lemma ScanCommentTail()
    ensures ScanFrom("@*Comment*@", false, 2, 9) ==
      [Lexeme(7, 2, Unknown), Lexeme(1, 9, Asterisk), Lexeme(1, 10, At), Lexeme(0, 11, EndOfFile)]
  {
    var c := "@*Comment*@";
    assert ScanFrom(c, false, 10, 10) == [Lexeme(1, 10, At), Lexeme(0, 11, EndOfFile)];
  }

  /** The lexer's output is an array the parser can walk. */
  lemma LexedIsOrdered(lexemes: seq<Lexeme>, source: string)
    requires Lexed(lexemes, source)
    ensures Ordered(lexemes, source)
  {
    LexedInOrder(lexemes, source, 0);
  }

  lemma {:induction false} LexedInOrder(lexemes: seq<Lexeme>, source: string, k: nat)
    requires Lexed(lexemes, source) && k < |lexemes|
    ensures InOrderFrom(lexemes, k)
    decreases |lexemes| - k
  {
    if k + 1 < |lexemes| {
      LexedInOrder(lexemes, source, k + 1);
    }
  }
}
