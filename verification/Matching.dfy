/** Small deterministic matchers, in place of the log parsers' regular expressions: in each of those
    every repetition is followed by something it cannot itself consume, so the longest run is the only
    candidate. */
module Matching {
  import opened Text

  /** The length of the longest prefix of `p` characters. */
  function Span(s: string, p: char -> bool): (n: nat)
    ensures n <= |s|
    ensures forall i | 0 <= i < n :: p(s[i])
    ensures n < |s| ==> !p(s[n])
  {
    if s != "" && p(s[0]) then 1 + Span(s[1..], p) else 0
  }

  lemma SpanOf(a: string, b: string, p: char -> bool)
    requires forall i | 0 <= i < |a| :: p(a[i])
    requires b == "" || !p(b[0])
    ensures Span(a + b, p) == |a|
    ensures (a + b)[..|a|] == a && (a + b)[|a|..] == b
  {
    var s := a + b;
    var n := Span(s, p);
    assert forall i | 0 <= i < |a| :: s[i] == a[i];
    assert b != "" ==> s[|a|] == b[0];
  }

  function Digits(): char -> bool {
    c => IsDigit(c)
  }

  function Spaces(): char -> bool {
    c => c == ' '
  }

  /** \s */
  predicate IsWhite(c: char) {
    c == ' ' || c == '\t' || c == '\n' || c == '\r' || c == '\U{0C}'
  }

  function Whites(): char -> bool {
    c => IsWhite(c)
  }

  function NonWhites(): char -> bool {
    c => !IsWhite(c)
  }

  function Except(d: char): char -> bool {
    c => c != d
  }

  /** What follows the longest run of `p` characters, if that has at least one. */
  function Some1(s: string, p: char -> bool): Option<string> {
    if Span(s, p) == 0 then None else Some(s[Span(s, p)..])
  }

  /** What follows the literal. */
  function Lit(s: string, lit: string): Option<string> {
    if lit <= s then Some(s[|lit|..]) else None
  }

  lemma LitOf(lit: string, rest: string)
    ensures Lit(lit + rest, lit) == Some(rest)
  {
  }

  lemma Some1Of(a: string, b: string, p: char -> bool)
    requires a != "" && forall i | 0 <= i < |a| :: p(a[i])
    requires b == "" || !p(b[0])
    ensures Some1(a + b, p) == Some(b)
    ensures Span(a + b, p) == |a| && (a + b)[..|a|] == a
  {
    SpanOf(a, b, p);
  }

  /** Fixed-width text in which `d` stands for any digit. */
  predicate Shaped(s: string, pattern: string) {
    |s| == |pattern| &&
    forall i | 0 <= i < |s| :: if pattern[i] == 'd' then IsDigit(s[i]) else s[i] == pattern[i]
  }

  function Shape(s: string, pattern: string): Option<string> {
    if |s| >= |pattern| && Shaped(s[..|pattern|], pattern) then Some(s[|pattern|..]) else None
  }

  lemma ShapeOf(a: string, rest: string, pattern: string)
    requires Shaped(a, pattern)
    ensures Shape(a + rest, pattern) == Some(rest)
  {
    assert (a + rest)[..|a|] == a;
  }

  // ----- what a match says about the text -------------------------------------------------------

  lemma LitSplits(s: string, lit: string)
    ensures Lit(s, lit).Some? ==> s == lit + Lit(s, lit).value
  {
  }

  lemma SpanSplits(s: string, p: char -> bool)
    ensures s == s[..Span(s, p)] + s[Span(s, p)..] && forall i | 0 <= i < Span(s, p) :: p(s[..Span(s, p)][i])
  {
  }

  lemma Some1Splits(s: string, p: char -> bool) returns (a: string)
    ensures Some1(s, p).Some? ==>
              && a != "" && s == a + Some1(s, p).value && forall i | 0 <= i < |a| :: p(a[i])
    ensures Some1(s, p).Some? && Some1(s, p).value != "" ==> !p(Some1(s, p).value[0])
  {
    a := s[..Span(s, p)];
  }

  lemma ShapeSplits(s: string, pattern: string) returns (a: string)
    ensures Shape(s, pattern).Some? ==> Shaped(a, pattern) && s == a + Shape(s, pattern).value
  {
    a := if |s| >= |pattern| then s[..|pattern|] else "";
  }
}
