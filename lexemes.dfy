// The lexeme record of the lexing stage: a typed window (offset, length)
// into the source text.

module Lexemes {

  /** The kinds a lexeme can have. `Unknown` is the kind the lexer gives to
      every run of non-delimiter characters. */
  datatype LexemeType =
    | At | LeftChevron | RightChevron | LeftParenthesis | RightParenthesis
    | LeftBrace | RightBrace | BackSlash | ForwardSlash | Dash | Exclamation
    | Asterisk | WhiteSpace | NewLine | CarriageReturn | Tab | Text
    | EndOfFile | RazorKeyword | CSharpRazorKeyword | SingleQuote
    | DoubleQuote | Semicolon | Equals | Unknown

  datatype Lexeme = Lexeme(length: nat, offset: nat, kind: LexemeType)

  /** The source characters the lexeme covers. */
  function Value(l: Lexeme, source: string): (r: string)
    requires l.offset + l.length <= |source|
    ensures |r| == l.length
    ensures forall k :: 0 <= k < |r| ==> r[k] == source[l.offset + k]
  {
    source[l.offset..l.offset + l.length]
  }

  /** The lexemes' values, one after the other. */
  function Spelled(lexemes: seq<Lexeme>, source: string): string
    requires forall k :: 0 <= k < |lexemes| ==> lexemes[k].offset + lexemes[k].length <= |source|
  {
    if lexemes == [] then "" else Value(lexemes[0], source) + Spelled(lexemes[1..], source)
  }

  /** The lexemes before the last one lie side by side, the first starting
      at `from` and the last of them ending at `to`; with the last lexeme
      alone, nothing is covered. */
  ghost predicate Adjacent(lexemes: seq<Lexeme>, from: int, to: int) {
    |lexemes| >= 1 &&
    if |lexemes| == 1 then from == to
    else
      lexemes[0].offset == from &&
      (forall k :: 0 <= k < |lexemes| - 2 ==> lexemes[k].offset + lexemes[k].length == lexemes[k + 1].offset) &&
      lexemes[|lexemes| - 2].offset + lexemes[|lexemes| - 2].length == to
  }

  lemma AdjacentCons(x: Lexeme, rest: seq<Lexeme>, from: int, to: int)
    requires Adjacent(rest, from + x.length, to)
    requires x.offset == from
    ensures Adjacent([x] + rest, from, to)
  {
    var l := [x] + rest;
    assert l[1..] == rest;
    forall k | 0 <= k < |l| - 2
      ensures l[k].offset + l[k].length == l[k + 1].offset
    {
      if k > 0 {
        assert l[k] == rest[k - 1] && l[k + 1] == rest[k];
      }
    }
  }

  lemma {:induction false} AdjacentText(lexemes: seq<Lexeme>, source: string, from: nat, to: nat)
    requires Adjacent(lexemes, from, to)
    requires forall k :: 0 <= k < |lexemes| ==> 1 <= lexemes[k].length || k == |lexemes| - 1
    requires forall k :: 0 <= k < |lexemes| ==> lexemes[k].offset + lexemes[k].length <= |source|
    requires lexemes[|lexemes| - 1].length == 0
    requires from <= to <= |source|
    ensures Spelled(lexemes, source) == source[from..to]
    decreases |lexemes|
  {
    if |lexemes| == 1 {
      assert Spelled(lexemes[1..], source) == "";
    } else {
      var x := lexemes[0];
      var rest := lexemes[1..];
      AdjacentRest(lexemes, source, from, to);
      AdjacentText(rest, source, from + x.length, to);
      assert Spelled(lexemes, source) == Value(x, source) + Spelled(rest, source);
      assert source[from..to] == source[from..from + x.length] + source[from + x.length..to];
    }
  }

  /** What the lexemes after the first of an adjacent run still satisfy. */
  lemma AdjacentRest(lexemes: seq<Lexeme>, source: string, from: nat, to: nat)
    requires Adjacent(lexemes, from, to) && |lexemes| > 1
    requires forall k :: 0 <= k < |lexemes| ==> 1 <= lexemes[k].length || k == |lexemes| - 1
    requires forall k :: 0 <= k < |lexemes| ==> lexemes[k].offset + lexemes[k].length <= |source|
    ensures Adjacent(lexemes[1..], from + lexemes[0].length, to)
    ensures from + lexemes[0].length <= to
    ensures forall k :: 0 <= k < |lexemes| - 1 ==> 1 <= lexemes[1..][k].length || k == |lexemes| - 2
    ensures forall k :: 0 <= k < |lexemes| - 1 ==> lexemes[1..][k].offset + lexemes[1..][k].length <= |source|
  {
    var x := lexemes[0];
    var rest := lexemes[1..];
    assert Adjacent(rest, from + x.length, to) by {
      if |rest| > 1 {
        assert rest[0].offset == from + x.length;
        forall k | 0 <= k < |rest| - 2
          ensures rest[k].offset + rest[k].length == rest[k + 1].offset
        {
          assert rest[k] == lexemes[k + 1];
        }
      }
    }
    if |rest| > 1 {
      OffsetsGrow(lexemes, 1, |lexemes| - 2);
    }
  }

  /** Within an adjacent run, a later lexeme starts no earlier than an earlier one ends. */
  lemma {:induction false} OffsetsGrow(lexemes: seq<Lexeme>, i: nat, j: nat)
    requires |lexemes| >= 2
    requires forall k :: 0 <= k < |lexemes| - 2 ==> lexemes[k].offset + lexemes[k].length == lexemes[k + 1].offset
    requires i <= j <= |lexemes| - 2
    ensures lexemes[i].offset <= lexemes[j].offset
    ensures i < j ==> lexemes[i].offset + lexemes[i].length <= lexemes[j].offset
    decreases j - i
  {
    if i < j {
      OffsetsGrow(lexemes, i + 1, j);
    }
  }

  /** A lexeme array that ends with an empty end-of-file lexeme and whose
      lexemes all lie inside the source. */
  ghost predicate Bounded(lexemes: seq<Lexeme>, source: string) {
    |lexemes| >= 1 &&
    lexemes[|lexemes| - 1].kind == EndOfFile && lexemes[|lexemes| - 1].length == 0 &&
    forall k :: 0 <= k < |lexemes| ==> lexemes[k].offset + lexemes[k].length <= |source|
  }

  /** What the parser relies on in the lexeme array it walks: it is bounded,
      and the lexemes before end-of-file are non-empty and follow each other
      without overlapping. */
  ghost predicate Ordered(lexemes: seq<Lexeme>, source: string) {
    Bounded(lexemes, source) &&
    (forall k :: 0 <= k < |lexemes| - 1 ==> 1 <= lexemes[k].length) &&
    InOrderFrom(lexemes, 0)
  }

  /** From lexeme `k` on, each lexeme ends no later than the next one starts. */
  ghost predicate InOrderFrom(lexemes: seq<Lexeme>, k: nat)
    decreases |lexemes| - k
  {
    k + 1 >= |lexemes| ||
    (lexemes[k].offset + lexemes[k].length <= lexemes[k + 1].offset && InOrderFrom(lexemes, k + 1))
  }

  lemma {:induction false} InOrderSuffix(lexemes: seq<Lexeme>, k: nat, m: nat)
    requires InOrderFrom(lexemes, k) && k <= m
    ensures InOrderFrom(lexemes, m)
    decreases m - k
  {
    if k < m && k + 1 < |lexemes| {
      InOrderSuffix(lexemes, k + 1, m);
    }
  }

  /** In an ordered array, a lexeme ends no later than any later one starts,
      so offsets grow by at least one per lexeme. */
  lemma {:induction false} OrderedOffsets(lexemes: seq<Lexeme>, source: string, i: nat, j: nat)
    requires Ordered(lexemes, source) && i <= j < |lexemes|
    ensures lexemes[i].offset <= lexemes[j].offset
    ensures i < j ==> lexemes[i].offset + lexemes[i].length <= lexemes[j].offset
    ensures lexemes[i].offset + (j - i) <= lexemes[j].offset
  {
    InOrderSuffix(lexemes, 0, i);
    InOrderOffsets(lexemes, i, j);
  }

  lemma {:induction false} InOrderOffsets(lexemes: seq<Lexeme>, i: nat, j: nat)
    requires InOrderFrom(lexemes, i) && i <= j < |lexemes|
    requires forall k :: 0 <= k < |lexemes| - 1 ==> 1 <= lexemes[k].length
    ensures lexemes[i].offset <= lexemes[j].offset
    ensures i < j ==> lexemes[i].offset + lexemes[i].length <= lexemes[j].offset
    ensures lexemes[i].offset + (j - i) <= lexemes[j].offset
    decreases j - i
  {
    if i < j {
      InOrderOffsets(lexemes, i + 1, j);
    }
  }

  /** How far lexeme `j` starts after lexeme `i`. */
  function Distance(lexemes: seq<Lexeme>, ghost source: string, i: nat, j: nat): (r: nat)
    requires Ordered(lexemes, source) && i <= j < |lexemes|
    ensures lexemes[i].offset + r == lexemes[j].offset
  {
    OrderedOffsets(lexemes, source, i, j);
    lexemes[j].offset - lexemes[i].offset
  }
}
