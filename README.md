# Razier in Dafny

Razier formats Razor templates (`.cshtml` / `.razor`): HTML with embedded C#.
This project models its two generations of lexer, parser and formatter and proves properties of each.

**The current pipeline** is `Razier.Lexing`, then `Razier.Parsing`, then `Razier.Formatting`.

- `lexemes.dfy` (module `Lexemes`) and `scanner.dfy` (module `Scanner`) model `Lexeme` and `Lexer.Lex`.
  - The lexer cuts the source at eighteen one-character delimiters.
  - Each run between delimiters becomes one lexeme, and the list ends with an empty end-of-file lexeme.
  - `Lex` is a `while` loop proved equal to a recursive scan function.
  - The lemmas show that the lexemes lie side by side and are classified, and they say exactly when the lexemes spell the source back: always, unless the source ends in a one-character run, which the lexer drops (see Findings).
- `tokens.dfy` (module `Tokens`) models the parser's token records and their accessor windows into the source.
- `classifier.dfy` (module `Classifier`) models `GetTokenType` and its helpers: `Next`, `IsEscaped`, `IsLineStart` and the keyword tests.
- `scans.dfy` (module `Scans`) models each non-recursive `Consume*` routine. Each loop is a method proved equal to a search function, and the lemmas state what that search finds.
- `parser.dfy` (module `Parser`) models the recursive routines: elements with their children, code blocks, control structures, the token dispatch and `Parse`.
- `parser_facts.dfy` (module `ParserFacts`) proves properties of the parser and works through test templates.
- `text.dfy` (module `Text`) holds string helpers: `Trim`, line splitting, indentation and decimal spelling.
- `layout.dfy` (module `Layout`) gives, for each token, the text the formatter writes, as a function.
- `formatter.dfy` (module `Formatter`) holds the methods that mirror `Formatter`'s loops.
- `formatter_facts.dfy` (module `FormatterFacts`) proves layout properties: element placement, comments, blank-line collapse and the examples from the tests.

**The older generation** is `Razier.Lexer`, `Razier.Parser` and `Razier.Formatter`. Each is a class whose methods move an index through a list.

- Each is modelled as a Dafny `class` with the source's fields (`old_lexer.dfy`, `old_parser.dfy`, `old_formatter.dfy`).
- Every method is proved against a specification function over the input and the old field values.
- The lemmas in `old_parser_facts.dfy` and `old_formatter_facts.dfy` are stated about those functions.

`common.dfy` (module `Common`) holds the `Option` type.

**How failure is modelled.** A C# exception is a result of `None`. This covers reading past the end of an array or string, an explicit `throw`, and an old-generation tag left open.

**Parameters in place of outside code.**

- The CSharpier formatter is a parameter `formatCode` of the formatter's environment.
- So is `Environment.NewLine`.

Paths below are relative to the repository root.

## Model

| member | source | states |
|---|---|---|
| Lexemes.Value | src/Razier.Lexing/Lexeme.cs:9 | a lexeme's value has its length, and its characters are the source's from its offset on |
| Lexemes.AdjacentText | src/Razier.Lexing/Lexer.cs:17-47 | lexemes laid side by side from `from` to `to`, closed by an empty end-of-file lexeme, spell exactly the source between `from` and `to` |
| Lexemes.OffsetsGrow | src/Razier.Lexing/Lexer.cs:17-28 | in an adjacent run, a later lexeme starts no earlier than an earlier one, and no earlier than it ends |
| Lexemes.OrderedOffsets | src/Razier.Lexing/Lexer.cs:17-47 | in an ordered lexeme list, a later lexeme starts after an earlier one ends, and at least one character per lexeme further on |
| Lexemes.InOrderOffsets | src/Razier.Lexing/Lexer.cs:17-47 | the same ordering, from any position of a list in order |
| Lexemes.Distance | src/Razier.Lexing/Lexer.cs:17-47 | the gap between the offsets of two lexemes of an ordered list is a natural number |
| Scanner.CharType | src/Razier.Lexing/Lexer.cs:64-86 | a one-character span has a kind other than Unknown exactly when the character is one of the delimiters, and that kind stands for the character |
| Scanner.DelimiterChar | src/Razier.Lexing/Lexer.cs:92-113 | each delimiter kind stands for one of the eighteen delimiter characters |
| Scanner.TypeOf | src/Razier.Lexing/Lexer.cs:64-86 | a span gets a delimiter kind exactly when it is one delimiter character, and then the kind spells that span |
| Scanner.Lex | src/Razier.Lexing/Lexer.cs:6-50 | the loop returns the scan function's lexemes: each delimiter closes the pending run, then the tail rule and end-of-file |
| Scanner.ScanFromCovers | src/Razier.Lexing/Lexer.cs:12-47 | from any run start, the lexer emits classified lexemes side by side up to the end of the source (or one short of it as written), then end-of-file |
| Scanner.ScanFromDelimiter | src/Razier.Lexing/Lexer.cs:14-28 | at a delimiter the lexer emits the pending run, if any, typed over the run and the delimiter, then the delimiter on its own |
| Scanner.DelimiterEmits | src/Razier.Lexing/Lexer.cs:17-28 | the run and the delimiter emitted at a delimiter keep the output side by side and classified |
| Scanner.TailEmits | src/Razier.Lexing/Lexer.cs:31-47 | the tail rule keeps the output side by side and classified: a trailing run then end-of-file at the source's length |
| Scanner.ScanIsLexed | src/Razier.Lexing/Lexer.cs:6-50 | the lexer's output covers the whole source with classified lexemes, or all but a last non-delimiter character, never puts two runs side by side, and ends with end-of-file |
| Scanner.ScanRunsWhole | src/Razier.Lexing/Lexer.cs:14-28 | with either tail rule, a run of non-delimiters is never cut in two: no `Unknown` lexeme follows another, so each run between delimiters is exactly one lexeme |
| Scanner.SplitRunIsNotLexed | src/Razier.Lexing/Lexer.cs:14-28 | `ab` cut into two one-character lexemes is not a list the lexer returns |
| Scanner.ScanLosslessRoundTrip | src/Razier.Lexing/Lexer.cs:31 | with the tail guard corrected (`Lex(input, true)`), the lexemes are well formed and their values spell the source exactly |
| Scanner.ScanDropsLoneTrailingCharacter | src/Razier.Lexing/Lexer.cs:31 | as written, "a" lexes to end-of-file alone and the lexemes spell the empty string; the corrected guard keeps the run |
| Scanner.FinalRun | src/Razier.Lexing/Lexer.cs:12-31 | the run pending after the loop starts just past the last delimiter, or where the current run began when no delimiter is left |
| Scanner.ScanFromAgree | src/Razier.Lexing/Lexer.cs:31-47 | the guard as written and the corrected guard give the same lexemes unless the final run is one character |
| Scanner.ScanFromStopsShort | src/Razier.Lexing/Lexer.cs:31 | with a one-character final run, no lexeme of the lexer as written reaches the last character |
| Scanner.FinalRunIsLone | src/Razier.Lexing/Lexer.cs:12-31 | the final run is one character exactly when the source ends in a non-delimiter that stands alone or follows a delimiter |
| Scanner.ScanInBounds | src/Razier.Lexing/Lexer.cs:6-50 | every lexeme of the lexer's output lies inside the source |
| Scanner.ScanLosesLastCharacter | src/Razier.Lexing/Lexer.cs:31 | when the final run is one character, the lexemes spell the source without its last character |
| Scanner.ScanSpellsSource | src/Razier.Lexing/Lexer.cs:6-50 | the lexer as written spells the source back exactly when the source does not end in a one-character run, and otherwise spells all of it but that last character |
| Scanner.ScanFromDelimiters | src/Razier.Lexing/Lexer.cs:25-28 | every delimiter at or after the scan position is emitted as a one-character lexeme of its own kind |
| Scanner.ScanDelimiters | src/Razier.Lexing/Lexer.cs:25-28 | every delimiter of the source is a one-character lexeme of the output |
| Scanner.ScanFromRun | src/Razier.Lexing/Lexer.cs:14-15 | non-delimiters only extend the pending run: skipping them changes nothing emitted |
| Scanner.ScanCountsBlank | test/Razier.Lexing.Tests.Unit/DelimiterTests.cs:9 | one space lexes to two lexemes and two spaces to three, end-of-file included |
| Scanner.ScanCountsContent | test/Razier.Lexing.Tests.Unit/EndOfFileTests.cs:44-50 | "Content" lexes to two lexemes and "Content " to three |
| Scanner.ScanCountsComment | test/Razier.Lexing.Tests.Unit/DelimiterTests.cs:10 | "@*" lexes to three lexemes and "@*()" to five |
| Scanner.ScanComment | test/Razier.Lexing.Tests.Unit/DelimiterTests.cs:45 | `@*Comment*@` lexes to at, asterisk, the word as one Unknown run, asterisk, at and end-of-file at their offsets |
| Scanner.ScanCommentTail | test/Razier.Lexing.Tests.Unit/DelimiterTests.cs:45 | from the word on, `@*Comment*@` lexes to the word as one run, asterisk, at and end-of-file |
| Scanner.LexedIsOrdered | src/Razier.Lexing/Lexer.cs:6-50 | the lexer's output is an ordered list the parser can walk: bounded, non-empty before end-of-file, without overlap |
| Scanner.LexedInOrder | src/Razier.Lexing/Lexer.cs:17-47 | every suffix of the lexer's output is in order |
| Tokens.Slice | src/Razier.Parsing/Tokens/CommentToken.cs:12-19 | a window of the source has the requested length and the source's characters from the offset on |
| Tokens.AttributeValueWindow | src/Razier.Parsing/Tokens/AttributeToken.cs:13-16 | an attribute's value is empty when its value offset is 0 and otherwise exactly the source window it names |
| Tokens.ExplicitPartsJoin | src/Razier.Parsing/Tokens/ExplicitRazorExpressionToken.cs:8-15 | `@(`, the code and `)` have lengths 2, close − open − 2 and 1, and together spell the expression's whole source window |
| Tokens.CommentPartsJoin | src/Razier.Parsing/Tokens/CommentToken.cs:12-19 | a comment's opening, content and closing, laid side by side, spell its whole source window |
| Tokens.ExpressionWindow | src/Razier.Parsing/Tokens/ControlStructureToken.cs:8-11 | a control structure's expression is empty exactly when its length is below 1, and otherwise the source window it names |
| Tokens.AccessorExamples | test/Razier.Parsing.Tests.Unit/CommentTests.cs:12-39 | the windows of `@(code)`, `<!-- Comment -->`, `@* Comment *@` and a value-less attribute are the expected texts |
| Classifier.EscapeParity | src/Razier.Parsing/Parser.cs:627-636 | a lexeme is escaped exactly when an odd number of backslashes stand right before it |
| Classifier.FirstOfType | src/Razier.Parsing/Parser.cs:678-715 | the search finds the first lexeme of the kind from the start index on, or nothing when there is none; a whitespace kind is never found because whitespace is skipped |
| Classifier.Next | src/Razier.Parsing/Parser.cs:678-715 | the loop finds a lexeme exactly when the search function does, and returns that lexeme |
| Classifier.SkipWhiteSpace | src/Razier.Parsing/Parser.cs:616-619 | the first lexeme from the start on that is not whitespace of any kind: everything skipped is whitespace |
| Classifier.SkipBlanks | src/Razier.Parsing/Parser.cs:427-433 | the first lexeme from the start on that is neither a space nor a tab: everything skipped is one |
| Classifier.SkipWhiteSpaceUnique | src/Razier.Parsing/Parser.cs:616-619 | the skip ends at the only non-whitespace lexeme preceded by whitespace alone |
| Classifier.IsControlStructureKeyword | src/Razier.Parsing/Parser.cs:603-625 | true exactly for a control-structure keyword, and for `using` only when the next non-whitespace lexeme is `(` |
| Classifier.IsLineStart | src/Razier.Parsing/Parser.cs:641-663 | true exactly when only spaces and tabs stand between the previous line break, or the start of the template, and the lexeme |
| Classifier.IsDirectiveBlock | src/Razier.Parsing/Parser.cs:572-576 | true exactly when the first text lexeme is `code` or `functions` and a `{` follows somewhere after it |
| Classifier.GetTokenType | src/Razier.Parsing/Parser.cs:550-594 | the switch returns the classification function's construct, the cases taken in the source's order |
| Classifier.GetAtTokenType | src/Razier.Parsing/Parser.cs:564-585 | the `@` arms return the classification function's construct for an `@` |
| Classifier.ExplicitNeedsLoneAt | src/Razier.Parsing/Parser.cs:566-569 | a lexeme starts an explicit expression exactly when it is an `@` followed by `(` and not preceded by another `@` |
| Classifier.UsingNeedsParenthesis | src/Razier.Parsing/Parser.cs:614-622 | `@using` opens a control structure exactly when the next non-whitespace lexeme is `(` |
| Classifier.FollowingKeywordOpensControlStructure | src/Razier.Parsing/Parser.cs:558-563 | a text lexeme opens a control structure exactly when it is `else`, `catch` or `finally` |
| Classifier.DirectiveAtLineStart | src/Razier.Parsing/Parser.cs:582-584 | a line-level directive is an `@` followed by a directive name, at the start of a line |
| Scans.FirstKind | src/Razier.Parsing/Parser.cs:218-219 | the first lexeme of the kind from the start on, whitespace included, or nothing when there is none |
| Scans.ScanKind | src/Razier.Parsing/Parser.cs:138-139 | the `while (kind != t) index++` loop stops at the search function's lexeme |
| Scans.LineEnd | src/Razier.Parsing/Parser.cs:465-470 | the first line break or end-of-file from the start on: nothing before it ends the line |
| Scans.HtmlCommentEnd | src/Razier.Parsing/Parser.cs:396-403 | the first `-->` from the start on, or nothing when there is none |
| Scans.ConsumeHtmlComment | src/Razier.Parsing/Parser.cs:390-413 | the loop returns the comment function's token and next index: a 4-character opening, the content up to the first `-->`, a 3-character closing |
| Scans.RazorCommentEnd | src/Razier.Parsing/Parser.cs:486-491 | the first `*@` from the start on, or nothing when there is none |
| Scans.ConsumeRazorComment | src/Razier.Parsing/Parser.cs:481-501 | the loop returns the comment function's token and next index: a 2-character opening, the content up to the first `*@`, a 2-character closing |
| Scans.ClosingParenthesis | src/Razier.Parsing/Parser.cs:369-382 | where the explicit expression's loop breaks is a `)` at or after the start |
| Scans.ConsumeExplicitRazorExpression | src/Razier.Parsing/Parser.cs:359-388 | the loop returns the expression function's token: from the `@` to the `)` that takes the depth below zero outside strings |
| Scans.ImplicitEnd | src/Razier.Parsing/Parser.cs:436-441 | the first whitespace, `<` or end-of-file from the start on: nothing before it ends the expression |
| Scans.ImplicitStart | src/Razier.Parsing/Parser.cs:421-434 | the implicit expression's scan starts after the `@`, and after `await` and the blanks behind it |
| Scans.SkipAwait | src/Razier.Parsing/Parser.cs:423-434 | the `await` step stops where the start function says |
| Scans.ConsumeImplicitRazorExpression | src/Razier.Parsing/Parser.cs:415-447 | the loops return the implicit expression function's token: from the `@` to the first whitespace, `<` or end-of-file |
| Scans.ConsumeLineLevelDirective | src/Razier.Parsing/Parser.cs:449-476 | the loops return the directive function's token: the directive name, then the line after the blanks up to the line break or end-of-file |
| Scans.TextEnd | src/Razier.Parsing/Parser.cs:508-517 | the first lexeme after the start that is end-of-file or classified as neither text nor ignored |
| Scans.ConsumeText | src/Razier.Parsing/Parser.cs:503-523 | the loop returns the text function's token: from the start to the first lexeme that is not text or ignored |
| Scans.KeyEnd | src/Razier.Parsing/Parser.cs:41-49 | the first `=`, whitespace, `/` or `>` after the key's start, or nothing when there is none |
| Scans.ScanKey | src/Razier.Parsing/Parser.cs:41-49 | the key loop stops where the key function says |
| Scans.ValueEnd | src/Razier.Parsing/Parser.cs:80-120 | the value loop stops only on a lexeme where its condition fails at depth zero |
| Scans.ScanValue | src/Razier.Parsing/Parser.cs:80-120 | the value loop stops where the value-end function says |
| Scans.ValueAt | src/Razier.Parsing/Parser.cs:59-75 | after the `=` and whitespace, a value starts past the `=` and ends no earlier than it starts |
| Scans.ValueFrom | src/Razier.Parsing/Parser.cs:64-125 | a value, quoted or not, starts at the given lexeme and its end and next index follow it in order |
| Scans.ConsumeValue | src/Razier.Parsing/Parser.cs:59-125 | the value part returns the value function's start, end and next index |
| Scans.ScanValueFrom | src/Razier.Parsing/Parser.cs:77-125 | the value loop and the closing quote step return the value function's result |
| Scans.AttributeAt | src/Razier.Parsing/Parser.cs:37-128 | a consumed attribute always moves past its first lexeme |
| Scans.ConsumeAttribute | src/Razier.Parsing/Parser.cs:37-128 | the routine returns the attribute function's token and next index |
| Scans.SkipWhiteSpaceFrom | src/Razier.Parsing/Parser.cs:53-54 | the whitespace loop stops at the first non-whitespace lexeme |
| Scans.CSharpEnd | src/Razier.Parsing/Parser.cs:258-294 | the C# loop ends at or after the start, on a lexeme where its condition fails or at the end of the array |
| Scans.ScanCSharp | src/Razier.Parsing/Parser.cs:258-294 | the loop stops where the C# function says |
| Scans.ConsumeCSharp | src/Razier.Parsing/Parser.cs:250-300 | the routine returns the C# function's token and next index |
| Scans.OpeningEnd | src/Razier.Parsing/Parser.cs:184-188 | the first `(` or `{` from the start on, or nothing when there is none |
| Scans.ScanOpening | src/Razier.Parsing/Parser.cs:184-188 | the opening loop stops where the opening function says |
| Scans.ConditionEndAsWritten | src/Razier.Parsing/Parser.cs:198-210 | the condition loop as written stops at or after the start |
| Scans.ConditionAt | src/Razier.Parsing/Parser.cs:192-215 | the condition as written: it runs from the `(` to one past where the do-while loop stops, and is None exactly when that loop runs off the array or stops on its last lexeme |
| Scans.ConditionAtCorrected | src/Razier.Parsing/Parser.cs:192-215 | the corrected condition runs through the matching `)`, so it ends right after a `)` and inside the array |
| Scans.ScanCondition | src/Razier.Parsing/Parser.cs:192-215 | the do-while loop over the string flag and the depth returns the condition function's length and position |
| Scans.ControlHeadAt | src/Razier.Parsing/Parser.cs:182-221 | the opening runs to the first `(` or `{`; after a `(` the expression starts there and runs through the condition as written, then the body opens at the next `{`; with no `(` the expression is empty and the body opens right there |
| Scans.ScanControlHead | src/Razier.Parsing/Parser.cs:182-221 | the head loops return the head function's result |
| Scans.SemicolonEnd | src/Razier.Parsing/Parser.cs:233-239 | the first `;` outside a string from the start on |
| Scans.ScanSemicolon | src/Razier.Parsing/Parser.cs:233-239 | the semicolon loop stops where the semicolon function says |
| Scans.DoWhileConditionAt | src/Razier.Parsing/Parser.cs:225-245 | a `do` loop's trailing condition starts at or after the body's end, before its `;`, inside the source |
| Scans.ScanDoWhileCondition | src/Razier.Parsing/Parser.cs:225-245 | the trailing-condition loops return the do-while function's result |
| Scans.HtmlCommentWithin | src/Razier.Parsing/Parser.cs:390-413 | a consumed HTML comment moves forward and its windows lie inside the source |
| Scans.RazorCommentWithin | src/Razier.Parsing/Parser.cs:481-501 | a consumed Razor comment moves forward and its windows lie inside the source |
| Scans.ExplicitWithin | src/Razier.Parsing/Parser.cs:359-388 | a consumed explicit expression moves forward and its windows lie inside the source |
| Scans.ImplicitWithin | src/Razier.Parsing/Parser.cs:415-447 | a consumed implicit expression moves forward and lies inside the source |
| Scans.DirectiveWithin | src/Razier.Parsing/Parser.cs:449-476 | a consumed directive moves forward and its windows lie inside the source |
| Scans.TextWithin | src/Razier.Parsing/Parser.cs:503-523 | a consumed text moves forward and lies inside the source |
| Scans.CSharpWithin | src/Razier.Parsing/Parser.cs:250-300 | a C# run that starts at neither `}` nor `<` moves forward and lies inside the source |
| Scans.AttributeWithinSource | src/Razier.Parsing/Parser.cs:37-128 | a consumed attribute's key and value windows lie inside the source |
| Scans.SimpleTokenAt | src/Razier.Parsing/Parser.cs:525-548 | the dispatch of the non-recursive constructs is defined exactly for the constructs other than element, code block and control structure |
| Scans.ConsumeSimpleToken | src/Razier.Parsing/Parser.cs:525-548 | the dispatch returns the simple-token function's token and next index |
| Scans.SimpleTokenWithin | src/Razier.Parsing/Parser.cs:525-548 | an ignored lexeme leaves the index where it was; any other simple token moves forward, lies inside the source and holds nothing ignored |
| Parser.ElementHead | src/Razier.Parsing/Parser.cs:314-326 | the attribute loop stops at or after its start, on a `/` that closes the tag or on `>`, or runs off the array (then not self-closing); every attribute it collects lies inside the source |
| Parser.Prefixed | src/Razier.Parsing/Parser.cs:325 | adding attributes in front of a head keeps its stop and self-closing flag and puts them before its own attributes |
| Parser.PrefixedTwice | src/Razier.Parsing/Parser.cs:325 | adding one attribute and then more in front is adding both, in order |
| Parser.HeadAttribute | src/Razier.Parsing/Parser.cs:322-325 | at a lexeme that is neither whitespace, `>` nor a closing `/>`, the head is the attribute read there followed by the head after it; an attribute that runs off the array fails the element |
| Parser.ConsumeAttributes | src/Razier.Parsing/Parser.cs:314-326 | the attribute loop returns the head function's attributes, stop and self-closing flag |
| Parser.ConsumeElement | src/Razier.Parsing/Parser.cs:302-357 | an element names the lexeme after `<` and holds the head's attributes; a self-closing or void element has no children and ends at the head's stop; any element moves forward, lies inside the source and holds nothing ignored |
| Parser.ConsumeChildren | src/Razier.Parsing/Parser.cs:333-356 | the children loop moves forward, keeps only clean children, and when it stops inside the array it has just passed the `>` of the closing tag |
| Parser.ConsumeCodeBlockContent | src/Razier.Parsing/Parser.cs:148-174 | the content loop moves forward, collects elements and C# runs only, and when it stops inside the array it is on a `}` |
| Parser.ConsumeCodeBlock | src/Razier.Parsing/Parser.cs:130-146 | a code block opens at the `@`, its opening runs through the first `{`, it closes at the `}` just passed, and it lies inside the source holding elements and C# runs only |
| Parser.ConsumeControlStructure | src/Razier.Parsing/Parser.cs:176-248 | a control structure's opening and expression are the head function's, except that a `do` body is followed by its trailing condition up to the `;`; it moves forward, lies inside the source and holds elements and C# runs only |
| Parser.ConsumeToken | src/Razier.Parsing/Parser.cs:525-548 | the dispatch returns the simple-token function's result where that is defined and otherwise the element, code block or control structure the classifier names; an ignored lexeme stays put and any other token moves forward and lies inside the source |
| Parser.Parse | src/Razier.Parsing/Parser.cs:15-31 | on success the whole array is accounted for: each token, clean and not an ignore token, is the one built at its first lexeme (exactly `SimpleTokenAt`'s when it has no children, otherwise the element, code block or control structure the classifier names), the next token begins where it ended or after lexemes that are stepped over, and only stepped-over lexemes come before the first token and after the last one; on None the same holds up to a lexeme `at` the parse reached, and there a token without children runs off the array or an element, code block or control structure begins |
| Parser.ParseNext | src/Razier.Parsing/Parser.cs:19-27 | one turn of the loop: either the parse fails at the current lexeme and nothing changes, or it moves forward and keeps what `Parse` promises of the tokens so far |
| Parser.Advance | src/Razier.Parsing/Parser.cs:19-27 | an ignore token steps over one lexeme and any other token is added; either way the index moves forward and what `Parse` promises still holds |
| Parser.ParsedExtended | src/Razier.Parsing/Parser.cs:19-23 | a token built at the lexeme where the parse stands keeps everything `Parse` promises, with the parse going on where that token ends |
| Parser.ParsedSkip | src/Razier.Parsing/Parser.cs:24-27 | stepping over an ignored lexeme keeps everything `Parse` promises, one lexeme further on |
| Parser.ParsedCovers | src/Razier.Parsing/Parser.cs:15-31 | nothing the parse reached is lost: each earlier lexeme lies within some token's run of lexemes or was stepped over |
| Parser.ParseSource | src/Razier.Parsing/Parser.cs:9-13 | parsing a template lexes it with the lexer as written, whose output is ordered, and yields what `Parse` promises of those lexemes: the complete token list, or None at a lexeme where the parse fails |
| ParserFacts.StopsHere | src/Razier.Parsing/Parser.cs:375-380 | the closing search stops at once exactly on a `)` outside a string with the depth at most zero |
| ParserFacts.ClosingWalk | src/Razier.Parsing/Parser.cs:369-382 | before the first closing parenthesis, the search from the start is the search from any later lexeme in the state the loop has there |
| ParserFacts.DepthNonNegative | src/Razier.Parsing/Parser.cs:369-382 | the depth never drops below zero before the first closing parenthesis |
| ParserFacts.ClosingFound | src/Razier.Parsing/Parser.cs:369-382 | the lexeme the search finds closes, and nothing before it does |
| ParserFacts.ClosingParenthesisIsFirstClose | src/Razier.Parsing/Parser.cs:369-382 | the search finds a lexeme exactly when it is the first `)` outside strings that takes the depth below zero, and the depth is zero just before it |
| ParserFacts.IfCallTemplateOrdered | src/Razier.Parsing/Parser.cs:176-248 | the lexemes of `@if (f(x)) {}` form an ordered array |
| ParserFacts.ConditionStopsAtInnerParenthesis | src/Razier.Parsing/Parser.cs:198-215 | as written, the condition of `@if (f(x)) {}` is cut to `(f(x)` |
| ParserFacts.ConditionThroughMatchingParenthesis | src/Razier.Parsing/Parser.cs:198-215 | corrected, the condition of `@if (f(x)) {}` is `(f(x))` |
| ParserFacts.ExitsHere | src/Razier.Parsing/Parser.cs:198-210 | the condition loop stops at a lexeme exactly when the step there leaves it inside a string, or outside one on a `)` at depth zero or below |
| ParserFacts.ExitWalk | src/Razier.Parsing/Parser.cs:198-210 | before its first exit, the condition loop is where the state folded over the lexemes says |
| ParserFacts.ExitFound | src/Razier.Parsing/Parser.cs:198-210 | where the condition loop stops is an exit, and no lexeme before it is one |
| ParserFacts.ConditionEndIsFirstExit | src/Razier.Parsing/Parser.cs:198-210 | the condition loop stops exactly at its first exit: the first lexeme after which it is inside a string, or outside one on a `)` that leaves no parenthesis open |
| ParserFacts.QuotedConditionTemplateOrdered | src/Razier.Lexing/Lexer.cs:6-50 | the lexemes of `@if ("a") {}` form an ordered list |
| ParserFacts.ConditionStopsAtOpeningQuote | src/Razier.Parsing/Parser.cs:198-215 | as written, the condition of `@if ("a") {}` is cut to `("`, where the corrected condition is `("a")` |
| ParserFacts.CSharpWalk | src/Razier.Parsing/Parser.cs:258-294 | while the C# run goes on, its scan is where the state folded over the lexemes says |
| ParserFacts.CSharpStopsHere | src/Razier.Parsing/Parser.cs:258-294 | the C# run stops at a lexeme exactly when its state there forbids going on, or at the end of the array |
| ParserFacts.CSharpFound | src/Razier.Parsing/Parser.cs:258-294 | where the C# run stops, its state forbids going on, every lexeme before it lets the run go on, and the state returned is the folded one |
| ParserFacts.CSharpEndIsFirstStop | src/Razier.Parsing/Parser.cs:258-294 | a C# run stops exactly at the first lexeme where its state forbids going on (a `}` at brace depth zero, or a `<` outside strings, statements and parentheses), or at the end of the array, in the state those lexemes lead to |
| ParserFacts.ValueEndIsFirstStop | src/Razier.Parsing/Parser.cs:80-120 | outside `@( … )` expressions an attribute value ends exactly at the first lexeme that stops it: the first `/`, `>` or whitespace unquoted, the first unescaped matching quote quoted |
| ParserFacts.ExplicitClosesAtMatchingParenthesis | test/Razier.Parsing.Tests.Unit/ExplicitRazorExpressionTests.cs:54-62 | `@(())` is one explicit expression closed at its last `)` |
| ParserFacts.QuotedParenthesisTemplateOrdered | test/Razier.Parsing.Tests.Unit/ExplicitRazorExpressionTests.cs:69-77 | the lexemes of `@("Code)")` form an ordered array |
| ParserFacts.ExplicitSkipsQuotedParenthesis | test/Razier.Parsing.Tests.Unit/ExplicitRazorExpressionTests.cs:69-77 | in `@("Code)")` the `)` inside the string does not close the expression; the last one does |
| ParserFacts.LineBreakTokens | src/Razier.Parsing/Parser.cs:542-546 | a line feed is a new-line token; a carriage return is one too unless a line feed follows it, in which case it is ignored |
| Text.Leading | src/Razier.Formatting/Formatter.cs:464-466 | the number of characters in the set at the front: all of them are in it, and the next one is not |
| Text.Trailing | src/Razier.Formatting/Formatter.cs:468-470 | the number of characters in the set at the back: all of them are in it, and the one before is not |
| Text.TrimmedWindow | src/Razier.Formatting/Formatter.cs:459-473 | the trimmed text is the source window after the leading run, and when not empty it starts and ends with characters outside the set |
| Text.TrimmedStrips | src/Razier.Formatting/Formatter.cs:459-473 | everything the trim drops, on either side, is in the set |
| Text.TrimmedIdempotent | src/Razier.Formatting/Formatter.cs:459-473 | trimming twice is trimming once |
| Text.TrimAsWrittenThrowsOnlyOnBlank | src/Razier.Formatting/Formatter.cs:459-473 | as written, the trim fails exactly on a non-empty text made only of trimmed characters, and otherwise returns the trimmed text |
| Text.TrimOfOneSpace | src/Razier.Formatting/Formatter.cs:472 | as written, trimming " " fails, where the intended trim gives "" |
| Text.LeadingUnique | src/Razier.Formatting/Formatter.cs:464-466 | the front run is the only count whose characters are in the set and whose next character is not |
| Text.TrailingUnique | src/Razier.Formatting/Formatter.cs:468-470 | the back run is the only count whose characters are in the set and whose previous character is not |
| Text.Trim | src/Razier.Formatting/Formatter.cs:456-473 | the two loops return the trim as written: None (the throw) exactly on a non-empty span made only of trimmed characters, and the trimmed text otherwise |
| Text.Trimmed | src/Razier.Formatting/Formatter.cs:456-473 | the intended trim is never longer than the text |
| Text.TrimmedStartsOutside | src/Razier.Formatting/Formatter.cs:456-473 | a non-empty result of the trim as written starts and ends with characters outside the set |
| Text.TrimAsWrittenOfLeadingText | src/Razier.Formatting/Formatter.cs:456-473 | a text that starts outside the set trims as written without throwing, to the intended trim |
| Text.RunLength | src/Razier.Formatting/Formatter.cs:215-233 | the length of the first line: none of its characters is CR or LF and the next one is |
| Text.SplitLines | src/Razier.Formatting/Formatter.cs:153 | splitting at CR and LF and dropping empty entries gives non-empty pieces without CR or LF |
| Text.SplitLinesNonEmpty | src/Razier.Formatting/Formatter.cs:153 | a text holding a character other than CR and LF has a line |
| Text.SplitLinesOfLine | src/Razier.Formatting/Formatter.cs:153 | a non-empty text without CR and LF is its own single line |
| Text.IndentAdd | src/Razier.Formatting/Formatter.cs:47-48 | indenting by a levels and then by b levels is indenting by a + b levels |
| Text.AppendIndented | src/Razier.Formatting/Formatter.cs:40-51 | the loop appends the tab once per level, then the value |
| Text.InfixAt | src/Razier.Formatting/Formatter.cs:160 | text holding the pattern at some position contains it |
| Text.InfixHasChar | src/Razier.Formatting/Formatter.cs:160 | every character of a contained pattern occurs in the text |
| Text.IndexOf | src/Razier.Formatting/Formatter.cs:166 | the first position of the character: it is there and not before |
| Text.SecondPiece | src/Razier.Formatting/Formatter.cs:166 | the second piece of a split at a character holds no such character |
| Text.SecondPieceBetween | src/Razier.Formatting/Formatter.cs:166 | splitting `a` + c + `b` at c, with no c in `a` or `b`, gives `b` as the second piece |
| Text.Digit | src/Razier.Formatting/Formatter.cs:144 | a digit below ten is spelled by a character from '0' to '9' |
| Text.NatString | src/Razier.Formatting/Formatter.cs:144 | the decimal spelling of a count is non-empty and made of digits |
| Text.NatStringValue | src/Razier.Formatting/Formatter.cs:144 | reading the decimal spelling back gives the number |
| Text.NatStringInjective | src/Razier.Formatting/Formatter.cs:143-144 | two counts have the same spelling exactly when they are equal, so the dictionary keys never clash |
| Layout.Then | src/Razier.Formatting/Formatter.cs:426-451 | two parts of the output exist exactly when neither failed |
| Layout.After | src/Razier.Formatting/Formatter.cs:426-451 | the output after a part exists exactly when the part did not fail |
| Layout.NonNewLines | src/Razier.Formatting/Formatter.cs:313 | the children without newline tokens: every one kept is a child and not a newline, and every child that is not a newline is kept |
| Layout.ElementMapElements | src/Razier.Formatting/Formatter.cs:134-146 | every entry of the element dictionary is one of the block's elements |
| Layout.TopLevelEndsWithNewLine | src/Razier.Formatting/Formatter.cs:16-33 | whatever the tokens, a formatted document that did not fail ends with a line break |
| Formatter.FormatAttribute | src/Razier.Formatting/Formatter.cs:66-91 | appends the attribute's text: below the tag a line break and the indented key, otherwise the bare key; then `="value"` when the value is not empty |
| Formatter.AppendCommentLines | src/Razier.Formatting/Formatter.cs:213-233 | the character loop appends the comment body function's text |
| Formatter.FormatComment | src/Razier.Formatting/Formatter.cs:187-238 | appends the comment function's text for the token's opening, content and closing |
| Formatter.AppendComment | src/Razier.Formatting/Formatter.cs:196-237 | appends the comment layout of the trimmed content: one line when it has no line break, else indented lines and the closing on its own line |
| Formatter.FormatExplicitRazorExpression | src/Razier.Formatting/Formatter.cs:366-384 | appends `@(`, the trimmed code and `)`, on a new indented line below the top level; None when the trim throws on blank code |
| Formatter.FormatImplicitRazorExpression | src/Razier.Formatting/Formatter.cs:386-404 | appends the trimmed expression, on a new indented line below the top level; None when the trim throws on a blank expression |
| Formatter.FormatText | src/Razier.Formatting/Formatter.cs:406-424 | appends the trimmed text, on a new indented line below the top level; None when the trim throws on blank text |
| Formatter.ThenAfter | src/Razier.Formatting/Formatter.cs:426-451 | appending a part and then the rest is appending both |
| Formatter.FormatAttributes | src/Razier.Formatting/Formatter.cs:305-306 | the attribute loop appends the attribute function's text for each attribute in order |
| Formatter.FormatNextAttribute | src/Razier.Formatting/Formatter.cs:305-306 | one pass of the attribute loop extends the text of the attributes before it by the next one's text |
| Layout.AttributesTextStep | src/Razier.Formatting/Formatter.cs:305-306 | the text of the first n attributes is that of the first n - 1 followed by the n-th attribute's text |
| Formatter.FormatStartTag | src/Razier.Formatting/Formatter.cs:292-308 | appends the start tag function's text: a line break unless first or on the same line, the indented `<` and name, the attributes, then `>` |
| Formatter.FormatToken | src/Razier.Formatting/Formatter.cs:426-451 | the dispatch appends the token function's text for each kind of token, a line break for a newline token |
| Formatter.FormatChildren | src/Razier.Formatting/Formatter.cs:329-345 | the children loop appends the children function's text: text after text on the same line after a space, anything else one level deeper |
| Formatter.FormatElement | src/Razier.Formatting/Formatter.cs:282-364 | appends the element function's text: start tag, children inline or below, closing tag inline or on its own line |
| Formatter.FormatControlStructureToken | src/Razier.Formatting/Formatter.cs:240-280 | appends the control structure function's text: head, formatted body, closing brace and, after `@do`, the condition |
| Formatter.AppendControlHead | src/Razier.Formatting/Formatter.cs:249-270 | appends the head function's text and leaves the output non-empty |
| Formatter.AppendControlTail | src/Razier.Formatting/Formatter.cs:272-279 | appends the tail function's text |
| Formatter.FormatCodeBlock | src/Razier.Formatting/Formatter.cs:93-120 | appends the code block function's text: the opening, the formatted content, the closing on its own line |
| Formatter.AppendCodeBlockHead | src/Razier.Formatting/Formatter.cs:102-116 | appends the head function's text, `@{` alone or the directive and `{` on two lines, and leaves the output non-empty |
| Formatter.CollectChild | src/Razier.Formatting/Formatter.cs:136-146 | a C# child adds its code; an element adds a numbered marker line and is stored under its number |
| Formatter.CodeTextStep | src/Razier.Formatting/Formatter.cs:131-146 | one more child adds its piece to the code and, for an element, one entry keyed by the count so far to the dictionary |
| Formatter.CollectCode | src/Razier.Formatting/Formatter.cs:131-146 | the loop builds the namespace line and the children's code, and the dictionary of the block's elements by number |
| Formatter.FormatCodeBlockContent | src/Razier.Formatting/Formatter.cs:122-185 | appends the content function's text for the C# formatter's lines |
| Formatter.FormatLines | src/Razier.Formatting/Formatter.cs:156-184 | the line loop appends the lines function's text |
| Formatter.FormatLine | src/Razier.Formatting/Formatter.cs:158-183 | one line: a marker line formats its element, any other line is indented C#; the rest follows from the next line |
| Formatter.FormatTokens | src/Razier.Formatting/Formatter.cs:16-33 | the top-level loop appends the document function's text |
| Formatter.Format | src/Razier.Formatting/Formatter.cs:10-34 | the parser's result on the lexer's output is what `Parse` promises; when the parse fails the formatter returns None, otherwise the top-level layout of the parsed tokens (None where the layout throws); a document it returns ends with a line break |
| FormatterFacts.PendingNewLinesCountOnce | src/Razier.Formatting/Formatter.cs:22-23 | any number of pending newline tokens writes a single line break |
| FormatterFacts.NewLineRunIsPending | src/Razier.Formatting/Formatter.cs:18-29 | a run of newline tokens only adds to the pending count |
| FormatterFacts.BlankLinesCollapse | test/Razier.Formatting.Tests.Unit/CommentTests.cs:8-19 | a run of newline tokens between two tokens writes exactly one line break |
| FormatterFacts.CommentBodyCopiesRun | src/Razier.Formatting/Formatter.cs:217-224 | inside a line the comment loop copies the characters as they are |
| FormatterFacts.CommentBodyLine | src/Razier.Formatting/Formatter.cs:217-224 | a line that starts after a break is indented one level deeper, then copied |
| FormatterFacts.IndentedLinesCons | src/Razier.Formatting/Formatter.cs:215-233 | a line followed by more lines is the indented line, a line break and the rest |
| FormatterFacts.CommentBodyBreak | src/Razier.Formatting/Formatter.cs:228-232 | a break after a line's last character starts the next line |
| FormatterFacts.CommentBodyIsIndentedLines | src/Razier.Formatting/Formatter.cs:215-233 | the comment loop writes the content's non-empty lines, each indented one level deeper, separated by line breaks: blank lines collapse |
| FormatterFacts.CommentLines | src/Razier.Formatting/Formatter.cs:187-238 | a comment is its opening on a new line, then either the trimmed content and closing on the same line, or the content's lines indented and the closing on its own line |
| FormatterFacts.SplitLinesHasBreak | src/Razier.Formatting/Formatter.cs:201 | a trimmed content with a break inside has more than one line |
| FormatterFacts.ElementsOf | src/Razier.Formatting/Formatter.cs:140-145 | the block's elements, in order, are no more than its children |
| FormatterFacts.ElementsOfPrefix | src/Razier.Formatting/Formatter.cs:136-146 | the elements of the first children come first among the elements of more children |
| FormatterFacts.ElementMapNumbersElements | src/Razier.Formatting/Formatter.cs:143-144 | the dictionary holds exactly the keys "0" to the element count − 1, and key j holds the j-th element |
| FormatterFacts.MarkerKeyRoundTrip | src/Razier.Formatting/Formatter.cs:160-166 | a marker line, however the C# formatter indented it, is recognised and gives back the number written into it |
| FormatterFacts.MarkerLineFindsItsElement | src/Razier.Formatting/Formatter.cs:143-166 | the marker line written for a child element finds that same element in the dictionary |
| FormatterFacts.ShortChildStaysInline | src/Razier.Formatting/Formatter.cs:317-327 | an element without attributes whose one child is a text, an implicit expression (by its value's length) or an explicit expression (by its code's length) under ten characters keeps the start tag, the trimmed child and the closing tag on one line, and fails when the child's trim throws |
| FormatterFacts.ShortTextStaysInline | src/Razier.Formatting/Formatter.cs:317-327 | an element without attributes holding one short text keeps the start tag, the trimmed text and the closing tag on one line, and fails when the text is blank but not empty |
| FormatterFacts.NoneButNewLines | src/Razier.Formatting/Formatter.cs:313 | children that are all newline tokens leave nothing |
| FormatterFacts.EmptyElementClosesInline | src/Razier.Formatting/Formatter.cs:347-363 | an element without children and with at most one attribute closes right after its start tag |
| FormatterFacts.CrowdedElementClosesOnOwnLine | src/Razier.Formatting/Formatter.cs:347-358 | an element with several children, several attributes, an attribute and a child, or one child that is not running text ends with its closing tag on its own line at its indentation |
| FormatterFacts.SingleTokenDocument | src/Razier.Formatting/Formatter.cs:16-33 | a document of one token is that token's text followed by a line break |
| FormatterFacts.VoidElementDocument | test/Razier.Formatting.Tests.Unit/ElementTests.cs:8-18 | `<input />` formats to `<input>` and a line break: a void element loses its slash |
| FormatterFacts.AttributesTextIsLines | src/Razier.Formatting/Formatter.cs:305-306 | below the tag the attribute loop writes the attributes one per line, in order |
| FormatterFacts.StartTagSingleAttribute | src/Razier.Formatting/Formatter.cs:299-303 | a single attribute stays on the tag's line after a space |
| FormatterFacts.StartTagAttributeLines | src/Razier.Formatting/Formatter.cs:304-308 | any other number of attributes puts each on its own line, one level deeper, before the `>` |
| FormatterFacts.AttributeLinesOfTwo | src/Razier.Formatting/Formatter.cs:305-306 | two attributes make two lines, the first attribute's first |
| FormatterFacts.ButtonAttributeTexts | test/Razier.Formatting.Tests.Unit/ElementTests.cs:21-23 | the attributes of `<button class='btn' disabled>` write as an indented `class="btn"` and an indented `disabled` |
| FormatterFacts.ButtonElement | test/Razier.Formatting.Tests.Unit/ElementTests.cs:21-23 | the button element lies inside its template and is named `button` |
| FormatterFacts.ButtonTag | test/Razier.Formatting.Tests.Unit/ElementTests.cs:21-23 | the button's start tag is `<button`, its attribute lines, then `>` |
| FormatterFacts.ButtonAttributes | test/Razier.Formatting.Tests.Unit/ElementTests.cs:21-23 | the button's start tag puts `class="btn"` and `disabled` on lines of their own, one level deeper |
| FormatterFacts.DoWhileConditionAfterBrace | src/Razier.Formatting/Formatter.cs:257-279 | after `@do` the condition follows the closing brace after a space; for any other opening it follows the opening after a space |
| OldLexer.BackslashRun | src/Razier.Lexer/Lexer.cs:193-200 | the length of the run of backslashes ending just before an index: every character in it is a backslash and the one before it is not |
| OldLexer.EscapedIffOddRun | src/Razier.Lexer/Lexer.cs:193-200 | the recursive `IsEscaped` holds exactly when an odd number of backslashes precede the character |
| OldLexer.WordEndFrom | src/Razier.Lexer/Lexer.cs:160-179 | the end of a word never lies before where the scan starts or past the input |
| OldLexer.WordEndFromStops | src/Razier.Lexer/Lexer.cs:165-176 | a word runs up to the first whitespace, `=`, `<`, `>`, quote, `@`, backslash or `-->`, or to the end of the input |
| OldLexer.ContentFrom | src/Razier.Lexer/Lexer.cs:67-85 | the content loop, when it stays inside the input, stops on a `}` after its start (braces inside unescaped double quotes do not count) |
| OldLexer.SkipWhiteSpace | src/Razier.Lexer/Lexer.cs:207-221 | skipping whitespace stops on a character that is not whitespace, or finds none |
| OldLexer.NextIndexOf | src/Razier.Lexer/Lexer.cs:38-44 | `AdvanceUntil(c)` finds the first `c` after the current character, or reads past the end |
| OldLexer.CodeBlockTokens | src/Razier.Lexer/Lexer.cs:87-102 | a code block yields three tokens, the first a code block opening, whose text is exactly the input they cover |
| OldLexer.Fixed | src/Razier.Lexer/Lexer.cs:112-117 | a fixed-length token covers exactly `length` characters of the input |
| OldLexer.WordAt | src/Razier.Lexer/Lexer.cs:160-179 | a word token covers at least one character, and its text is the input it covers |
| OldLexer.Step | src/Razier.Lexer/Lexer.cs:132-158 | each dispatch either faults or advances, and the tokens it yields spell out the input it consumed |
| OldLexer.LexTiles | src/Razier.Lexer/Lexer.cs:13-28 | when lexing succeeds, the token values concatenated give back the whole input and the last token is the end-of-file token |
| OldLexer.OneCharacterTokens | src/Razier.Lexer/Lexer.cs:149-155 | a space, tab, CR, LF, `=` or backslash is a token of its own kind, one character long |
| OldLexer.QuoteTokens | src/Razier.Lexer/Lexer.cs:119-130 | a quote is a string delimiter exactly when it is not escaped; an escaped quote starts a word |
| OldLexer.BeginTagTokens | src/Razier.Lexer/Lexer.cs:60-65 | `<` opens a closing tag before `/`, a comment before `!--`, and an opening tag `<` otherwise |
| OldLexer.WordTokenStops | src/Razier.Lexer/Lexer.cs:156-179 | a word token holds the input up to the first character that stops a word, none of which it contains |
| OldLexer.CodeBlockTokensShape | src/Razier.Lexer/Lexer.cs:89-94 | `@{` yields `@{`, the content and a closing `}` |
| OldLexer.EmptyCodeBlockFaults | src/Razier.Lexer/Lexer.cs:67-85 | `@{}` reads past the end: the content loop moves before it looks, so it skips the first `}` |
| OldLexer.Lexer.constructor | src/Razier.Lexer/Lexer.cs:8-11 | a new lexer holds the input, at index 0 |
| OldLexer.Lexer.Lex | src/Razier.Lexer/Lexer.cs:13-28 | the loop returns the token list of the specification function (and so tiles the input) |
| OldLexer.Lexer.ConsumeTokens | src/Razier.Lexer/Lexer.cs:132-158 | the tokens read and the new index are those of the dispatch function, and it faults exactly when that does |
| OldLexer.Lexer.ReadToken | src/Razier.Lexer/Lexer.cs:250-261 | the token is the slice from the token start to the index, and the next token starts here |
| OldLexer.Lexer.ConsumeFixedLengthToken | src/Razier.Lexer/Lexer.cs:112-117 | moves on `length` characters and returns them as one token |
| OldLexer.Lexer.NextStringIs | src/Razier.Lexer/Lexer.cs:229-238 | the character loop answers whether the input holds `s` at that position |
| OldLexer.Lexer.ConsumeBeginTagToken | src/Razier.Lexer/Lexer.cs:60-65 | returns the token of the dispatch function for `<` and moves past it |
| OldLexer.Lexer.ConsumeStringDelimiterTokenOrWordToken | src/Razier.Lexer/Lexer.cs:119-130 | returns the token of the dispatch function for a quote and moves past it |
| OldLexer.Lexer.ConsumeEndCommentTokenOrWordToken | src/Razier.Lexer/Lexer.cs:107-110 | returns `-->` as a comment end, or otherwise a word, as the dispatch function does |
| OldLexer.Lexer.ConsumeWordToken | src/Razier.Lexer/Lexer.cs:160-179 | the loop stops where the word function says the word ends |
| OldLexer.Lexer.ConsumeCodeBlockContentToken | src/Razier.Lexer/Lexer.cs:67-85 | the nesting loop ends at the `}` the content function names, or faults when it does |
| OldLexer.Lexer.CodeBraceFollows | src/Razier.Lexer/Lexer.cs:95 | whether `{` follows `@code`, past any whitespace, as the function on the input says |
| OldLexer.Lexer.AdvanceUntil | src/Razier.Lexer/Lexer.cs:38-44 | the index moves to the first `c` after it, or the call faults |
| OldLexer.Lexer.ConsumeCodeBlock | src/Razier.Lexer/Lexer.cs:91-93 | the three tokens of a code block, as the code block function gives them |
| OldLexer.Lexer.ConsumeCodeBlockTokenOrWordToken | src/Razier.Lexer/Lexer.cs:87-105 | `@{`, `@code {` or a word, as the dispatch function gives them |
| OldParser.NextOfKind | src/Razier.Parser/Parser.cs:41-48 | `AdvanceUntil<T>` lands on the next token of that kind after the current one, or reads past the end |
| OldParser.FirstOfKind | src/Razier.Parser/Parser.cs:168-172 | the first token of a kind at or after a position, when there is one |
| OldParser.SkipSpace | src/Razier.Parser/Parser.cs:268-279 | the whitespace skip of `NextTokenIs` stops on a token that is not space, tab, CR or LF, or runs past the end |
| OldParser.EscapedIsParity | src/Razier.Parser/Parser.cs:233-238 | because `PreviousTokenIs` ignores its index, `IsEscaped` only tests whether an escape precedes the current token and whether the index it asks about is odd |
| OldParser.Comment | src/Razier.Parser/Parser.cs:163-175 | a comment leaves the index inside the token list, never before where it started |
| OldParser.CloseTag | src/Razier.Parser/Parser.cs:107-119 | a closing tag leaves the index inside the token list, never before where it started |
| OldParser.CodeBlock | src/Razier.Parser/Parser.cs:148-161 | a code block leaves the index inside the token list, never before where it started |
| OldParser.BeginTag | src/Razier.Parser/Parser.cs:121-146 | a start tag leaves the index inside the token list, never before where it started |
| OldParser.EndTagOf | src/Razier.Parser/Parser.cs:191-207 | `>` leaves the index where it is |
| OldParser.ValueEnd | src/Razier.Parser/Parser.cs:93-101 | the value loop ends after its start, inside the token list, or reads past the end |
| OldParser.Attribute | src/Razier.Parser/Parser.cs:80-105 | an attribute leaves the index inside the token list, never before where it started |
| OldParser.ContentEnd | src/Razier.Parser/Parser.cs:182-186 | the content loop stops before the last token, or reads past the end |
| OldParser.Content | src/Razier.Parser/Parser.cs:177-189 | content leaves the index inside the token list, never before where it started |
| OldParser.ConsumeTokenAt | src/Razier.Parser/Parser.cs:209-219 | every dispatch leaves the index inside the token list, never before where it started |
| OldParser.ParseFrom | src/Razier.Parser/Parser.cs:15-31 | a successful parse yields no ignored token and at most one parsed token per lexer token left |
| OldParser.Yielded | src/Razier.Parser/Parser.cs:23-24 | an ignored token yields nothing, any other yields itself |
| OldParser.ParseStep | src/Razier.Parser/Parser.cs:19-27 | one turn of the loop: a routine that throws ends the parse, otherwise its token's yield comes before the rest of the parse, one token further on |
| OldParser.ParseAdvance | src/Razier.Parser/Parser.cs:19-27 | the loop invariant of `Parse`: what is yielded so far, ahead of the parse from the current fields, is the whole parse |
| OldParser.Prepend | src/Razier.Parser/Parser.cs:24 | putting yielded tokens ahead keeps a throw a throw and adds their count |
| OldParser.Parser.constructor | src/Razier.Parser/Parser.cs:10-13 | a new parser holds the tokens, at index 0, outside any tag, at nesting level 0, with no tag name |
| OldParser.Parser.Parse | src/Razier.Parser/Parser.cs:15-31 | the loop yields the specification function's parse from index 0, or throws when it does |
| OldParser.Parser.ConsumeToken | src/Razier.Parser/Parser.cs:209-219 | the token and the new fields are those of the dispatch function, and it throws exactly when that does |
| OldParser.Parser.AdvanceUntil | src/Razier.Parser/Parser.cs:41-48 | the index moves to the next token of the kind, or the call throws; the tag fields stay |
| OldParser.Parser.NextTokenIs | src/Razier.Parser/Parser.cs:261-282 | the answer of `NextTokenIs<T>(ignoreWhiteSpace)`: false at the last token, None when the skip runs past the end |
| OldParser.Parser.ConsumeCommentToken | src/Razier.Parser/Parser.cs:163-175 | the token and the new fields are those of the comment function |
| OldParser.Parser.ConsumeBeginCloseTagToken | src/Razier.Parser/Parser.cs:107-119 | the token and the new fields are those of the closing-tag function |
| OldParser.Parser.ConsumeBeginCodeBlockToken | src/Razier.Parser/Parser.cs:148-161 | the token and the new fields are those of the code block function |
| OldParser.Parser.ConsumeBeginTagToken | src/Razier.Parser/Parser.cs:121-146 | the token and the new fields are those of the start-tag function |
| OldParser.Parser.ConsumeEndTagToken | src/Razier.Parser/Parser.cs:191-207 | the token and the new fields are those of the `>` function |
| OldParser.Parser.ConsumeAttributeToken | src/Razier.Parser/Parser.cs:80-105 | the token and the new fields are those of the attribute function |
| OldParser.Parser.ConsumeAttributeValue | src/Razier.Parser/Parser.cs:93-101 | the loop stops where the value function says and returns the values of the tokens it read |
| OldParser.Parser.ConsumeContentToken | src/Razier.Parser/Parser.cs:177-189 | the token and the new fields are those of the content function |
| OldParserFacts.Walk | src/Razier.Parser/Parser.cs:19-27 | the parser's fields once the loop has read every token |
| OldParserFacts.WalkStep | src/Razier.Parser/Parser.cs:19-27 | one turn of the parse loop: a throwing routine ends it, otherwise the loop goes on one token past where the routine stopped |
| OldParserFacts.ParseSucceedsIffClosed | src/Razier.Parser/Parser.cs:29-30 | a parse succeeds exactly when no routine throws and no tag is left open at the end |
| OldParserFacts.OpenTagOfP | src/Razier.Parser/Parser.cs:121-146 | `<p>` is one start-tag token `<p>` that opens one level and remembers the name `p` |
| OldParserFacts.UnclosedTagThrows | src/Razier.Parser/Parser.cs:29-30 | a lone `<p>` makes `Parse` throw "A tag is not closed!" |
| OldParserFacts.ParsedKindFollowsLexeme | src/Razier.Parser/Parser.cs:209-219 | the parsed token's kind follows the lexer token's kind: `>` closes hard after a void element and softly otherwise, a word is an attribute exactly inside a tag |
| OldParserFacts.EndTagBookkeeping | src/Razier.Parser/Parser.cs:191-207 | `>` always succeeds, leaves the tag, forgets the name and opens a level unless the element is void |
| OldParserFacts.CloseTagBookkeeping | src/Razier.Parser/Parser.cs:107-119 | a closing tag spells `</`, the name and `>`, and closes one level |
| OldParserFacts.BeginTagBookkeeping | src/Razier.Parser/Parser.cs:121-146 | a start tag followed by `>` ends the tag and opens a level unless void; otherwise it stays in the tag with the name remembered |
| OldParserFacts.FirstOfKindIsFirst | src/Razier.Parser/Parser.cs:168-172 | the search finds a token exactly when one exists, and none comes before it |
| OldParserFacts.CommentRunsToFirstEnd | src/Razier.Parser/Parser.cs:163-175 | a comment is every token through the first `-->`, and there is one exactly when `-->` follows |
| OldParserFacts.ContentEndIsFirstTag | src/Razier.Parser/Parser.cs:182-186 | the content loop stops just before the first opening or closing tag, and throws exactly when none follows |
| OldParserFacts.ContentRunsToNextTag | src/Razier.Parser/Parser.cs:177-189 | text outside a tag is every token up to the next tag, and throws when no tag follows |
| OldParserFacts.ValueEndIsFirstClose | src/Razier.Parser/Parser.cs:93-101 | the attribute-value loop stops at the first unescaped quote matching the opening one, and throws exactly when there is none |
| OldParserFacts.AttributeWithoutValue | src/Razier.Parser/Parser.cs:80-85 | a word with no `=` after it (past whitespace) is an attribute of its own text, and the index stays |
| OldParserFacts.AttributeKeepsTag | src/Razier.Parser/Parser.cs:80-105 | reading an attribute changes neither the in-tag flag, nor the nesting level, nor the tag name |
| OldParserFacts.SpanIsValues | src/Razier.Parser/Extensions.cs:8 | appending token after token gives the concatenation of their values |
| OldParserFacts.SpanOfThree | src/Razier.Parser/Extensions.cs:8 | the text of three tokens is their three values in order |
| OldParserFacts.CodeBlockTakesThree | src/Razier.Parser/Parser.cs:148-161 | a code block takes exactly three tokens, whose texts are its open, code and close parts, and throws when fewer remain |
| OldParserFacts.CloseTagOfP | src/Razier.Parser/Parser.cs:107-119 | `</p>` after `<p>` closes the element and the parse ends cleanly |
| OldParserFacts.ElementParses | src/Razier.Parser/Parser.cs:15-31 | `<p></p>` parses into a start tag `<p>` and a closing tag `</p>` |
| OldFormatter.AttributeStep | src/Razier.Formatter/Formatter.cs:82-90 | one turn of the attribute loop: the attribute is written (on its own line when there are several, after a space otherwise) and the loop goes on from the next token |
| OldFormatter.AttributesOut | src/Razier.Formatter/Formatter.cs:82-90 | the attribute loop stops on a token not followed by an attribute, never before where it started |
| OldFormatter.TokenOut | src/Razier.Formatter/Formatter.cs:134-143 | each token's routine leaves the index inside the token list, never before where it started |
| OldFormatter.ElementOut | src/Razier.Formatter/Formatter.cs:76-132 | an element always moves past its start tag and stays inside the token list |
| OldFormatter.RestOut | src/Razier.Formatter/Formatter.cs:92-131 | after the attributes, the element ends inside the token list, never before where it started |
| OldFormatter.ChildrenOut | src/Razier.Formatter/Formatter.cs:108-116 | the children loop stops on a hard closing tag and only counts up |
| OldFormatter.FormatStep | src/Razier.Formatter/Formatter.cs:22-26 | one turn of `Format`'s loop: a routine that faults ends the format, otherwise the format goes on one token after where the routine stopped |
| OldFormatter.Formatter.constructor | src/Razier.Formatter/Formatter.cs:9-15 | a new formatter holds the parsed tokens and the indentation, with empty output |
| OldFormatter.Formatter.Format | src/Razier.Formatter/Formatter.cs:17-29 | the loop returns the output of the specification function over the tokens from index 0 |
| OldFormatter.Formatter.ConsumeToken | src/Razier.Formatter/Formatter.cs:134-143 | the new index and output are those of the dispatch function, and it faults exactly when that does |
| OldFormatter.Formatter.ConsumeContent | src/Razier.Formatter/Formatter.cs:58-74 | the output is the content function's: inline text or a line of its own |
| OldFormatter.Formatter.ConsumeCode | src/Razier.Formatter/Formatter.cs:37-56 | the output is the code function's: one line for one-line code, else opening, code and closing on lines of their own |
| OldFormatter.Formatter.ConsumeElement | src/Razier.Formatter/Formatter.cs:76-132 | the new index and output are those of the element function |
| OldFormatter.Formatter.ConsumeAttributes | src/Razier.Formatter/Formatter.cs:82-90 | the loop ends where the attribute function says, with its output |
| OldFormatter.Formatter.ConsumeAttribute | src/Razier.Formatter/Formatter.cs:84-89 | one attribute: a line one level deeper when there are several, after a space otherwise |
| OldFormatter.Formatter.ConsumeRest | src/Razier.Formatter/Formatter.cs:92-131 | the new index and output are those of the function for the rest of the element |
| OldFormatter.Formatter.ConsumeChildren | src/Razier.Formatter/Formatter.cs:108-116 | the loop stops where the children function says, with its count and output |
| OldFormatter.Formatter.Output | src/Razier.Formatter/Formatter.cs:166-167 | appends the value, after a space when asked |
| OldFormatter.Formatter.OutputLine | src/Razier.Formatter/Formatter.cs:171-185 | appends each non-empty line of the value, each after a line break (unless the output is empty) and the indentation |
| OldFormatter.Formatter.AppendIndentation | src/Razier.Formatter/Formatter.cs:180-181 | appends the indentation unit once per level, none at a negative level |
| OldFormatterFacts.WithoutBreaks | src/Razier.Formatter/Formatter.cs:173 | the text with its CR and LF characters removed is no longer than the text |
| OldFormatterFacts.SplitLinesKeepsText | src/Razier.Formatter/Formatter.cs:173 | splitting on CR and LF and dropping empty entries keeps every character but the line breaks, in order |
| OldFormatterFacts.SplitLinesOfBreaks | src/Razier.Formatter/Formatter.cs:173 | a value made only of line breaks has no lines |
| OldFormatterFacts.LinesOutExtends | src/Razier.Formatter/Formatter.cs:171-185 | `OutputLine` only appends: the old output is a prefix of the new |
| OldFormatterFacts.OutputLineOfLine | src/Razier.Formatter/Formatter.cs:171-185 | a one-line value is written after a line break (unless the output is empty) and the indentation |
| OldFormatterFacts.OutputLineOfBreaks | src/Razier.Formatter/Formatter.cs:171-185 | a value of line breaks alone writes nothing |
| OldFormatterFacts.ContentPlacement | src/Razier.Formatter/Formatter.cs:58-74 | text between a soft `>` and a closing tag stays inline when short and not forced down; otherwise a one-line text is on its own line one level deeper |
| OldFormatterFacts.WithoutBreaksOfLine | src/Razier.Formatter/Formatter.cs:173 | a text without CR or LF keeps every character when the line breaks are removed |
| OldFormatterFacts.CodeWithoutBreak | src/Razier.Formatter/Formatter.cs:48-49 | code written on one line between its opening and closing holds no line feed |
| OldFormatterFacts.CodeOutStep | src/Razier.Formatter/Formatter.cs:37-56 | code without a line feed is written as one line: opening, space, code, space, closing |
| OldFormatterFacts.HardCloseOnItsLine | src/Razier.Formatter/Formatter.cs:94-99 | after several attributes, a hard close other than `>` goes on a line of its own at the tag's level, and the element ends there |
| OldFormatterFacts.ElementAfterAttributes | src/Razier.Formatter/Formatter.cs:76-92 | an element with several attributes writes the tag on its line, then each attribute one level deeper, then the rest of the element |
| OldFormatterFacts.OneLineCode | src/Razier.Formatter/Formatter.cs:48-49 | code the C# formatter returns on one line is written as opening, space, code, space, closing on a line of its own one level deeper |
| OldFormatterFacts.VoidElementLayout | src/Razier.Formatter/Formatter.cs:92-97 | a start tag closed at once by `>` is the tag on its line, then `>` right after it |
| OldFormatterFacts.SingleAttributeLayout | src/Razier.Formatter/Formatter.cs:79-101 | one attribute and a hard close other than `>` stay on the tag's line, each after a space |
| OldFormatterFacts.TwoAttributesLayout | src/Razier.Formatter/Formatter.cs:79-99 | with two attributes, each attribute is on its own line one level deeper and the close is on its own line at the tag's level |
| OldFormatterFacts.EmptyElementLayout | src/Razier.Formatter/Formatter.cs:105-129 | an element with no attribute and no child is tag, `>` and closing tag on one line |
| OldFormatterFacts.ShortTextElementLayout | src/Razier.Formatter/Formatter.cs:105-129 | an element holding one short line of text keeps tag, `>`, text and closing tag on one line |

## Left out

- Input and output are left out: reading files, the console application (`Razier.Console`), the benchmarks and the test harness. The formatter is modelled from its input string to its output string.
- The CSharpier call in `FormatCodeBlockContent` is replaced by the parameter `formatCode`, which stands for `CSharpier.CodeFormatter.Format` applied to the wrapped code (the namespace line, a newline, then the collected code). The model assumes nothing about it beyond what each lemma requires. Stripping the namespace line from its output (the `[12..]` slice) and trimming the carriage returns and line feeds are modelled, as the formatter does them. CSharpier itself is not part of this model.
- The newline is a parameter `newLine`, since `Environment.NewLine` depends on the platform.
- C# iterators (`IEnumerable` with `yield return`) become sequences that are built eagerly. When an iterator's consumer would stop early, the laziness and the exception timing are not captured; the model yields what a full enumeration yields.
- Exceptions become a result of `None`. Their types and messages are not kept.
- The old `Formatter` constructor calls a two-argument `Parser` constructor that the old parser does not have. The model's old formatter takes the parsed token list directly.
- The old formatter's `_indentationLevel` field is not modelled. The routines that use it are never called: `IncreaseIndentation`, `DecreaseIndentation` and the one-argument `OutputLine`. Every formatting routine passes the level as an argument instead.
- `Keywords.cs` and the keyword tables are modelled only as the membership tests the parser uses: `IsControlStructureKeyword`, `IsLineLevelDirective` and the code block directives.
- `Next` in the new parser has `skip` and `ignoreWhiteSpace` parameters. Only the values that the parser's call sites pass are modelled: the first match of a kind, and the whitespace skip.
- The new lexer's `Type` never returns `Text`, `Semicolon`, `Equals` or `RazorKeyword`, because none of these is a delimiter. The parser's branches for those kinds are therefore unreachable from the lexer's output. The parser model still takes any ordered lexeme list, so those branches are modelled and exercised on hand-built lists.
- A lexing test (`EndOfFileTests.cs:51`) expects a run of letters to have kind `Text`, and `DelimiterTests` lists `;` and `=` as delimiters. The code gives `Unknown` and does not split at `;` or `=`. The model follows the code.
- Several old parser tests expect a start tag to be read as `<div` and `>` to be a soft close. The old parser's code disagrees with them, and the model follows the code.
- For the old parser, the shape of an attribute that has a value (`key="value"`) is stated only by `OldParser.Parser.ConsumeAttributeToken` and `OldParserFacts.ValueEndIsFirstClose`. There is no lemma for the whole token text.
- OldParser.Comment: its ensures states only how far the index moves. The token and the fields it produces are stated by `OldParserFacts.CommentRunsToFirstEnd`.
- OldParser.CloseTag: its ensures states only how far the index moves. What it produces is stated by `OldParserFacts.CloseTagBookkeeping`.
- OldParser.CodeBlock: its ensures states only how far the index moves. What it produces is stated by `OldParserFacts.CodeBlockTakesThree`.
- OldParser.BeginTag: its ensures states only how far the index moves. What it produces is stated by `OldParserFacts.BeginTagBookkeeping`.
- OldParser.EndTagOf: its ensures states only that the index stays. What it produces is stated by `OldParserFacts.EndTagBookkeeping`.
- OldParser.ValueEnd: its ensures states only bounds. Where the loop stops is stated by `OldParserFacts.ValueEndIsFirstClose`.
- OldParser.Attribute: its ensures states only how far the index moves. What it produces is stated by `OldParserFacts.AttributeWithoutValue` and `OldParserFacts.AttributeKeepsTag`.
- OldParser.ContentEnd: its ensures states only bounds. Where the loop stops is stated by `OldParserFacts.ContentEndIsFirstTag`.
- OldParser.Content: its ensures states only how far the index moves. What it produces is stated by `OldParserFacts.ContentRunsToNextTag`.
- OldParser.ConsumeTokenAt: its ensures states only how far the index moves. The kind it produces is stated by `OldParserFacts.ParsedKindFollowsLexeme`.
- OldParser.ParseFrom: its ensures states only counts and the absence of ignored tokens. When the parse succeeds is stated by `OldParserFacts.ParseSucceedsIffClosed`.
- OldFormatter.AttributesOut: its ensures states only where the loop stops. The text is stated by `OldFormatter.AttributeStep` and the layout lemmas.
- OldFormatter.TokenOut: its ensures states only how far the index moves. The text it writes is stated by `OldFormatterFacts` lemmas such as `ContentPlacement` and `OneLineCode`.
- OldFormatter.ElementOut: its ensures states only how far the index moves. The text it writes is stated by the layout lemmas in `OldFormatterFacts`.
- OldFormatter.RestOut: its ensures states only how far the index moves. The text it writes is stated by the layout lemmas in `OldFormatterFacts`.
- OldFormatter.ChildrenOut: its ensures states only where the loop stops. The text it writes is stated by `OldFormatterFacts.ShortTextElementLayout` and `EmptyElementLayout`.
- Scans.ClosingParenthesis: its ensures states only that the search stops on a `)`. That this is the first `)` taking the depth below zero is `ParserFacts.ClosingParenthesisIsFirstClose`.
- Scans.ValueEnd: its ensures states only the stop condition. That it is the first stop is `ParserFacts.ValueEndIsFirstStop`, for values without `@( … )` expressions; inside those the depth and string tracking is stated only step by step.
- Scans.CSharpEnd: its ensures states only the stop condition. That it is the first stop, in the folded state, is `ParserFacts.CSharpEndIsFirstStop`.
- Scans.AttributeAt: its ensures states only progress. The windows it produces are stated by `Scans.AttributeWithinSource`.
- Scans.ImplicitStart: its ensures states only where the scan starts, not the exact number of blanks skipped.
- Parser.Parse: elements, code blocks and control structures are stated by kind only; their contents are in the ensures of `Parser.ConsumeElement`, `Parser.ConsumeCodeBlock` and `Parser.ConsumeControlStructure`. On None, the failure is placed at a lexeme the parse reached where a token without children runs off the array, or where an element, code block or control structure begins. For those three the ensures does not state that their routine runs off the array there, because when those routines fail is not characterised.
- Formatter.Format: a failed parse makes it return None, and that failure is stated only as far as `Parser.Parse` states it.
- The old formatter's layout lemmas in `OldFormatterFacts` assume the token shape of the two-argument parser that `Formatter` calls: a start tag, then its attributes, then a soft `>`. The old parser as written ends a tag without attributes inside its begin-tag token (src/Razier.Parser/Parser.cs:129-139), and `ConsumeElement` then skips the next token (src/Razier.Formatter/Formatter.cs:76-132). By that reading, `<div>Hello</div>` would be laid out as `<div></div>`. Nothing was executed, and the model does not chain the old parser into the old formatter.
- Parser.ConsumeChildren: its ensures states progress and the closing tag, not every child. The children are those of `Parser.ConsumeToken`.
- Parser.ConsumeCodeBlockContent: its ensures states progress, the kinds collected and the closing `}`, not every item.

## Findings

The pipeline (`Parser.ParseSource`, `Formatter.Format`) follows the code as written in all three rows. Each corrected member stands beside it, with the intended property proved.

| source | as written | input that shows it | evidently intended | confidence | as-written member | corrected member |
|---|---|---|---|---|---|---|
| src/Razier.Lexing/Lexer.cs:31 | the tail guard `lexemeStart < source.Length - 1` drops a pending run of one character at the end of the source | `a` lexes to the end-of-file lexeme alone, so the lexemes spell the empty string | every character of the source ends up in a lexeme, as it does for longer runs | high, not executed | Scanner.ScanDropsLoneTrailingCharacter | Scanner.ScanLosslessRoundTrip |
| src/Razier.Parsing/Parser.cs:198-215 | the control-structure condition loop is a do-while that leaves after the first lexeme that puts it inside a string, or that is a `)` bringing the depth back to zero, even an inner one | `@if (f(x)) {}`: the condition is cut to `(f(x)`; `@if ("a") {}`: it is cut to `("` | the condition runs through the matching `)`, skipping parentheses inside strings, as the explicit-expression loop at lines 369-382 does | medium, not executed | ParserFacts.ConditionStopsAtInnerParenthesis | ParserFacts.ConditionThroughMatchingParenthesis |
| src/Razier.Formatting/Formatter.cs:459-473 | `Trim` slices from the leading count to the length minus the trailing count; for a non-empty span made only of trimmed characters, the start passes the end and the slice throws | `Trim(" ", whitespace)`, and so formatting `@( )` | an all-whitespace span trims to the empty text, as `string.Trim` does | high, not executed | Text.TrimAsWrittenThrowsOnlyOnBlank | Text.TrimmedWindow |
