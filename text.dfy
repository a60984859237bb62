// Text helpers of the formatter: the hand-written trim, line splitting,
// indentation, substring search and the decimal keys of the element
// placeholders.

module Text {
  import opened Common

  /** What the formatter's one-argument trim strips: space, LF, CR and tab. */
  const WhiteSpace: set<char> := {' ', '\n', '\r', '\t'}

  /** The characters the formatter splits lines at. */
  const LineBreaks: set<char> := {'\r', '\n'}

  // ------------------------------------------------------------------- trim

  /** How many characters at the front of `s` are in `chars`. */
  function Leading(s: string, chars: set<char>): (n: nat)
    ensures n <= |s|
    ensures forall k :: 0 <= k < n ==> s[k] in chars
    ensures n < |s| ==> s[n] !in chars
  {
    if s == [] || s[0] !in chars then 0 else 1 + Leading(s[1..], chars)
  }

  /** How many characters at the back of `s` are in `chars`. */
  function Trailing(s: string, chars: set<char>): (n: nat)
    ensures n <= |s|
    ensures forall k :: |s| - n <= k < |s| ==> s[k] in chars
    ensures n < |s| ==> s[|s| - n - 1] !in chars
  {
    if s == [] || s[|s| - 1] !in chars then 0 else 1 + Trailing(s[..|s| - 1], chars)
  }

  /** The hand-written trim as it reads: the range from the first character
      outside `chars` to the last one, or None where the range comes out
      inverted and slicing throws. */
  function TrimAsWritten(s: string, chars: set<char>): Option<string> {
    var startIndex := Leading(s, chars);
    var endIndex := Trailing(s, chars) + 1;
    if startIndex <= |s| - endIndex + 1 then Some(s[startIndex..|s| - endIndex + 1]) else None
  }

  /** `s` without the characters of `chars` at either end; empty when all of
      `s` is made of them. */
  function Trimmed(s: string, chars: set<char>): (r: string)
    ensures |r| <= |s|
  {
    var a := Leading(s, chars);
    if a == |s| then "" else s[a..|s| - Trailing(s, chars)]
  }

  /** The trim keeps the window of `s` that starts after the leading trim
      characters; the window neither starts nor ends with one of `chars`. */
  lemma TrimmedWindow(s: string, chars: set<char>)
    ensures Leading(s, chars) + |Trimmed(s, chars)| <= |s|
    ensures Trimmed(s, chars) == s[Leading(s, chars)..Leading(s, chars) + |Trimmed(s, chars)|]
    ensures Trimmed(s, chars) != [] ==>
      Trimmed(s, chars)[0] !in chars && Trimmed(s, chars)[|Trimmed(s, chars)| - 1] !in chars
  {
    var a := Leading(s, chars);
    if a < |s| {
      var b := Trailing(s, chars);
      assert s[|s| - b - 1] !in chars;
      var r := s[a..|s| - b];
      assert r[0] == s[a] && r[|r| - 1] == s[|s| - b - 1];
    }
  }

  /** Everything the trim drops, on either side, is in `chars`. */
  lemma TrimmedStrips(s: string, chars: set<char>)
    ensures forall k :: 0 <= k < Leading(s, chars) ==> s[k] in chars
    ensures forall k :: Leading(s, chars) + |Trimmed(s, chars)| <= k < |s| ==> s[k] in chars
  {
    var a := Leading(s, chars);
    if a < |s| {
      var b := Trailing(s, chars);
      assert s[|s| - b - 1] !in chars;
      assert a + |Trimmed(s, chars)| == |s| - b;
    }
  }

  /** Trimming twice is trimming once. */
  lemma TrimmedIdempotent(s: string, chars: set<char>)
    ensures Trimmed(Trimmed(s, chars), chars) == Trimmed(s, chars)
  {
    TrimmedWindow(s, chars);
    var r := Trimmed(s, chars);
    if r != [] {
      assert Leading(r, chars) == 0;
      assert Trailing(r, chars) == 0;
    }
  }

  /** The trim as written agrees with the intended one wherever `s` is empty
      or holds a character outside `chars`, and throws on every other
      input: a non-empty run of trim characters only. */
  lemma TrimAsWrittenThrowsOnlyOnBlank(s: string, chars: set<char>)
    ensures TrimAsWritten(s, chars) == None <==> s != [] && forall k :: 0 <= k < |s| ==> s[k] in chars
    ensures TrimAsWritten(s, chars).Some? ==> TrimAsWritten(s, chars).value == Trimmed(s, chars)
  {
    var a := Leading(s, chars);
    var b := Trailing(s, chars);
    if a < |s| {
      assert s[|s| - b - 1] !in chars;
      assert a <= |s| - b - 1;
    } else if s != [] {
      assert s[|s| - 1] in chars;
      assert b == |s|;
    }
  }

  /** What the trim as written returns starts and ends with characters
      outside `chars`. */
  lemma TrimmedStartsOutside(s: string, chars: set<char>)
    ensures TrimAsWritten(s, chars).Some? && TrimAsWritten(s, chars).value != [] ==>
      TrimAsWritten(s, chars).value[0] !in chars &&
      TrimAsWritten(s, chars).value[|TrimAsWritten(s, chars).value| - 1] !in chars
  {
    TrimAsWrittenThrowsOnlyOnBlank(s, chars);
    TrimmedWindow(s, chars);
  }

  /** A span that starts with a character outside `chars` trims without
      throwing. */
  lemma TrimAsWrittenOfLeadingText(s: string, chars: set<char>)
    requires s != [] && s[0] !in chars
    ensures TrimAsWritten(s, chars) == Some(Trimmed(s, chars))
  {
    TrimAsWrittenThrowsOnlyOnBlank(s, chars);
  }

  /** `@( )`: the code between the parentheses is one space, on which the
      trim as written throws while the intended trim gives "". */
  lemma TrimOfOneSpace()
    ensures TrimAsWritten(" ", WhiteSpace) == None
    ensures Trimmed(" ", WhiteSpace) == ""
  {
    assert Leading(" ", WhiteSpace) == 1;
    assert Trailing(" ", WhiteSpace) == 1;
  }

  /** The count of leading trim characters is fixed by its two defining
      facts. */
  lemma {:induction false} LeadingUnique(s: string, chars: set<char>, n: nat)
    requires n <= |s| && (forall k :: 0 <= k < n ==> s[k] in chars) && (n < |s| ==> s[n] !in chars)
    ensures Leading(s, chars) == n
  {
    if n > 0 {
      LeadingUnique(s[1..], chars, n - 1);
    }
  }

  lemma {:induction false} TrailingUnique(s: string, chars: set<char>, n: nat)
    requires n <= |s| && (forall k :: |s| - n <= k < |s| ==> s[k] in chars)
    requires n < |s| ==> s[|s| - n - 1] !in chars
    ensures Trailing(s, chars) == n
  {
    if n > 0 {
      TrailingUnique(s[..|s| - 1], chars, n - 1);
    }
  }

  /** The hand-written trim with its two loops, as written: the final slice
      throws (None) when the range comes out inverted, which happens exactly
      on a non-empty span of trim characters (`TrimAsWrittenThrowsOnlyOnBlank`). */
  method Trim(span: string, chars: set<char>) returns (r: Option<string>)
    ensures r == TrimAsWritten(span, chars)
  {
    var startIndex := 0;
    while startIndex < |span|
      invariant startIndex <= |span|
      invariant forall k :: 0 <= k < startIndex ==> span[k] in chars
      decreases |span| - startIndex
    {
      if span[startIndex] !in chars {
        break;
      }
      startIndex := startIndex + 1;
    }
    LeadingUnique(span, chars, startIndex);
    var endIndex := 1;
    while endIndex <= |span|
      invariant 1 <= endIndex <= |span| + 1
      invariant forall k :: |span| - endIndex + 1 <= k < |span| ==> span[k] in chars
      decreases |span| + 1 - endIndex
    {
      if span[|span| - endIndex] !in chars {
        break;
      }
      endIndex := endIndex + 1;
    }
    TrailingUnique(span, chars, endIndex - 1);
    if startIndex > |span| - endIndex + 1 {
      return None;
    }
    r := Some(span[startIndex..|span| - endIndex + 1]);
  }

  // ---------------------------------------------------------------- lines

  predicate IsLineBreak(c: char) {
    c == '\r' || c == '\n'
  }

  /** The length of the run of non-break characters `s` starts with. */
  function RunLength(s: string): (n: nat)
    ensures n <= |s|
    ensures forall k :: 0 <= k < n ==> !IsLineBreak(s[k])
    ensures n < |s| ==> IsLineBreak(s[n])
  {
    if s == [] || IsLineBreak(s[0]) then 0 else 1 + RunLength(s[1..])
  }

  /** `s` split at CR and LF with the empty pieces dropped. */
  function SplitLines(s: string): (r: seq<string>)
    ensures forall p :: p in r ==> p != [] && forall k :: 0 <= k < |p| ==> !IsLineBreak(p[k])
    decreases |s|
  {
    if s == [] then []
    else if IsLineBreak(s[0]) then SplitLines(s[1..])
    else
      var n := RunLength(s);
      [s[..n]] + SplitLines(s[n..])
  }

  /** A string with a character other than CR and LF has a line. */
  lemma {:induction false} SplitLinesNonEmpty(s: string, k: nat)
    requires k < |s| && !IsLineBreak(s[k])
    ensures SplitLines(s) != []
    decreases |s|
  {
    if IsLineBreak(s[0]) {
      SplitLinesNonEmpty(s[1..], k - 1);
    }
  }

  /** A non-empty string without CR or LF is a single line. */
  lemma SplitLinesOfLine(s: string)
    requires s != [] && forall k :: 0 <= k < |s| ==> !IsLineBreak(s[k])
    ensures SplitLines(s) == [s]
  {
    assert RunLength(s) == |s|;
    assert s[..|s|] == s;
    assert s[|s|..] == [];
    assert SplitLines(s) == [s] + SplitLines([]);
  }

  // ---------------------------------------------------------- indentation

  /** `count` copies of `tab`. */
  function Indent(tab: string, count: nat): string {
    if count == 0 then "" else Indent(tab, count - 1) + tab
  }

  /** Indenting by `a` and then by `b` is indenting by `a + b`. */
  lemma {:induction false} IndentAdd(tab: string, a: nat, b: nat)
    ensures Indent(tab, a) + Indent(tab, b) == Indent(tab, a + b)
    decreases b
  {
    if b > 0 {
      IndentAdd(tab, a, b - 1);
      assert Indent(tab, a) + Indent(tab, b) == Indent(tab, a) + Indent(tab, b - 1) + tab;
    }
  }

  /** `s` ends with `suffix`. */
  predicate EndsWith(s: string, suffix: string) {
    |suffix| <= |s| && s[|s| - |suffix|..] == suffix
  }

  /** Text in front keeps the ending. */
  lemma EndsWithAppend(front: string, s: string, suffix: string)
    requires EndsWith(s, suffix)
    ensures EndsWith(front + s, suffix)
  {
    assert (front + s)[|front + s| - |suffix|..] == s[|s| - |suffix|..];
  }

  /** The formatter's indented append: `indentLevel` tabs, then the value. */
  method AppendIndented(output: string, value: string, indentLevel: nat, tab: string) returns (r: string)
    ensures r == output + (Indent(tab, indentLevel) + value)
  {
    r := output;
    var i := 0;
    while i < indentLevel
      invariant i <= indentLevel
      invariant r == output + Indent(tab, i)
    {
      r := r + tab;
      i := i + 1;
    }
    r := r + value;
  }

  // ------------------------------------------------------------ searching

  /** Whether `p` occurs in `s`. */
  predicate HasInfix(s: string, p: string)
    decreases |s|
  {
    |p| <= |s| && (s[..|p|] == p || HasInfix(s[1..], p))
  }

  /** An occurrence of `p` at position `k` is found. */
  lemma {:induction false} InfixAt(s: string, p: string, k: nat)
    requires k + |p| <= |s| && s[k..k + |p|] == p
    ensures HasInfix(s, p)
    decreases k
  {
    if k > 0 {
      assert s[1..][k - 1..k - 1 + |p|] == p;
      InfixAt(s[1..], p, k - 1);
    }
  }

  /** A character of `p` is in every string that holds `p`. */
  lemma {:induction false} InfixHasChar(s: string, p: string, k: nat)
    requires HasInfix(s, p) && k < |p|
    ensures p[k] in s
    decreases |s|
  {
    if s[..|p|] == p {
      assert s[k] == p[k];
    } else {
      InfixHasChar(s[1..], p, k);
    }
  }

  /** The index of the first `c` in `s`. */
  function IndexOf(s: string, c: char): (r: nat)
    requires c in s
    ensures r < |s| && s[r] == c && c !in s[..r]
  {
    if s[0] == c then 0 else
      var r := 1 + IndexOf(s[1..], c);
      assert s[..r] == [s[0]] + s[1..][..r - 1];
      r
  }

  /** The second piece of `s` split at `c`: what lies between the first `c`
      and the next one, or the end. */
  function SecondPiece(s: string, c: char): (r: string)
    requires c in s
    ensures c !in r
  {
    var rest := s[IndexOf(s, c) + 1..];
    if c in rest then rest[..IndexOf(rest, c)] else rest
  }

  /** Split at `c`, `a + [c] + b` has `b` as its second piece when neither
      part holds a `c`. */
  lemma SecondPieceBetween(a: string, b: string, c: char)
    requires c !in a && c !in b
    ensures c in a + [c] + b && SecondPiece(a + [c] + b, c) == b
  {
    var s := a + [c] + b;
    assert s[|a|] == c;
    assert s[..|a|] == a;
    assert s[|a| + 1..] == b;
  }

  // ------------------------------------------------------------- numbers

  function Digit(d: nat): (c: char)
    requires d < 10
    ensures '0' <= c <= '9'
  {
    "0123456789"[d]
  }

  /** The decimal spelling of `n`, as `int.ToString()` writes it. */
  function NatString(n: nat): (r: string)
    ensures r != []
    ensures forall k :: 0 <= k < |r| ==> '0' <= r[k] <= '9'
  {
    (if n < 10 then "" else NatString(n / 10)) + [Digit(n % 10)]
  }

  /** The number a string of decimal digits stands for. */
  function DigitsValue(s: string): nat
    requires forall k :: 0 <= k < |s| ==> '0' <= s[k] <= '9'
  {
    if s == [] then 0 else DigitsValue(s[..|s| - 1]) * 10 + (s[|s| - 1] as int - '0' as int)
  }

  /** Reading the decimal spelling back gives the number. */
  lemma {:induction false} NatStringValue(n: nat)
    ensures DigitsValue(NatString(n)) == n
  {
    var s := NatString(n);
    assert s[..|s| - 1] == if n < 10 then "" else NatString(n / 10);
    assert s[|s| - 1] as int - '0' as int == n % 10 by {
      assert "0123456789"[n % 10] as int - '0' as int == n % 10;
    }
    if n >= 10 {
      NatStringValue(n / 10);
    }
  }

  /** Different numbers have different spellings, so a dictionary keyed by
      them holds one entry per number. */
  lemma NatStringInjective(m: nat, n: nat)
    ensures NatString(m) == NatString(n) <==> m == n
  {
    NatStringValue(m);
    NatStringValue(n);
  }
}
