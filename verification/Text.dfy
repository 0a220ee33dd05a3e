/** Byte strings and the few library operations on them that the modelled code calls.
    One `char` stands for one byte of a Go string; nothing below depends on a char being under 256. */
module Text {

  datatype Option<+T> = None | Some(value: T)

  predicate IsDigit(c: char) {
    '0' <= c <= '9'
  }

  predicate IsIdentChar(c: char) {
    'a' <= c <= 'z' || 'A' <= c <= 'Z' || IsDigit(c) || c == '_'
  }

  predicate IsBlank(c: char) {
    c == ' ' || c == '\t' || c == '\r' || c == '\n'
  }

  function UpperChar(c: char): char {
    if 'a' <= c <= 'z' then c - 'a' + 'A' else c
  }

  function Upper(s: string): (u: string)
    ensures |u| == |s|
    ensures forall i | 0 <= i < |s| :: u[i] == UpperChar(s[i])
  {
    seq(|s|, i requires 0 <= i < |s| => UpperChar(s[i]))
  }

  /** `p` occurs in `s` at offset `i`. */
  predicate HasAt(s: string, i: int, p: string) {
    0 <= i && i + |p| <= |s| && s[i..i + |p|] == p
  }

  /** strings.Contains */
  predicate Contains(s: string, p: string) {
    exists i | 0 <= i <= |s| :: HasAt(s, i, p)
  }

  lemma AtStart(s: string, p: string)
    ensures HasAt(s, 0, p) <==> p <= s
  {
  }

  lemma AtShifted(s: string, p: string, j: int)
    requires s != "" && j > 0
    ensures HasAt(s, j, p) <==> HasAt(s[1..], j - 1, p)
  {
    if j + |p| <= |s| {
      assert s[1..][j - 1..j - 1 + |p|] == s[j..j + |p|];
    }
  }

  /** `k` is the least offset of `p`, or -1 when there is none. */
  ghost predicate IsFirst(s: string, p: string, k: int) {
    -1 <= k && (k >= 0 ==> HasAt(s, k, p)) && forall j | 0 <= j && HasAt(s, j, p) :: 0 <= k <= j
  }

  lemma FirstShifted(s: string, p: string, k: int)
    requires s != "" && !(p <= s) && IsFirst(s[1..], p, k)
    ensures IsFirst(s, p, if k < 0 then -1 else k + 1)
  {
    AtStart(s, p);
    if k >= 0 {
      AtShifted(s, p, k + 1);
    }
    forall j | 0 <= j && HasAt(s, j, p) ensures 0 <= k && k + 1 <= j {
      AtShifted(s, p, j);
      assert HasAt(s[1..], j - 1, p);
    }
  }

  /** strings.Index */
  function Find(s: string, p: string): (k: int)
    ensures IsFirst(s, p, k)
  {
    if p <= s then 0
    else if s == "" then -1
    else
      var k := Find(s[1..], p);
      FirstShifted(s, p, k);
      if k < 0 then -1 else k + 1
  }

  /** The least offset is determined by being an occurrence with none before it. */
  lemma FindIs(s: string, p: string, k: int)
    requires HasAt(s, k, p)
    requires forall j | 0 <= j < k :: !HasAt(s, j, p)
    ensures Find(s, p) == k
  {
  }

  /** The length of the maximal identifier run at the start of `s`. */
  function RunLength(s: string): (n: nat)
    ensures n <= |s|
    ensures forall i | 0 <= i < n :: IsIdentChar(s[i])
    ensures n < |s| ==> !IsIdentChar(s[n])
  {
    if s != "" && IsIdentChar(s[0]) then 1 + RunLength(s[1..]) else 0
  }

  /** The identifier token at the start of `s`; empty when there is none. */
  function Token(s: string): string {
    s[..RunLength(s)]
  }

  /** Runs are determined by their two defining facts. */
  lemma RunLengthIs(s: string, n: nat)
    requires n <= |s|
    requires forall i | 0 <= i < n :: IsIdentChar(s[i])
    requires n < |s| ==> !IsIdentChar(s[n])
    ensures RunLength(s) == n
  {
    assert RunLength(s) < |s| ==> !IsIdentChar(s[RunLength(s)]);
  }

  lemma Assoc(a: string, b: string, c: string)
    ensures (a + b) + c == a + (b + c)
  {
  }

  lemma FrontOf<T>(a: seq<T>, b: seq<T>)
    requires b != []
    ensures |a + b| > 0 && (a + b)[..|a + b| - 1] == a + b[..|b| - 1] && (a + b)[|a + b| - 1] == b[|b| - 1]
  {
  }

  lemma TakeThree(a: string, b: string, c: string, d: string)
    ensures (a + (b + (c + d)))[..|a| + |b| + |c|] == a + (b + c)
  {
  }

  /** A statement text reassembled from its first line and the further ones. */
  function Glue(text: string, more: seq<string>): string {
    if more == [] then text else Glue(text, more[..|more| - 1]) + "\n" + more[|more| - 1]
  }

  /** The lines of a text. */
  function LinesOf(s: string): (ls: seq<string>)
    ensures ls != []
  {
    if s == "" then [""]
    else
      var ls, c := LinesOf(s[..|s| - 1]), s[|s| - 1];
      if c == '\n' then ls + [""] else ls[..|ls| - 1] + [ls[|ls| - 1] + [c]]
  }

  /** One byte at the end either starts a line or lengthens the last one. */
  lemma LinesSnoc(s: string, c: char)
    ensures var ls := LinesOf(s);
            LinesOf(s + [c]) == if c == '\n' then ls + [""] else ls[..|ls| - 1] + [ls[|ls| - 1] + [c]]
  {
    assert (s + [c])[..|s + [c]| - 1] == s;
  }

  /** The last of some lines, lengthened. */
  function Extended(ls: seq<string>, t: string): seq<string>
    requires ls != []
  {
    ls[..|ls| - 1] + [ls[|ls| - 1] + t]
  }

  lemma ExtendedBy(ls: seq<string>, t: string, c: char)
    requires ls != []
    ensures Extended(ls, "") == ls
    ensures Extended(Extended(ls, t), [c]) == Extended(ls, t + [c])
  {
    assert ls[|ls| - 1] + "" == ls[|ls| - 1];
    Assoc(ls[|ls| - 1], t, [c]);
  }

  lemma {:induction false} LinesAppend(s: string, t: string)
    requires '\n' !in t
    ensures LinesOf(s + t) == Extended(LinesOf(s), t)
    decreases |t|
  {
    if t == "" {
      assert s + t == s;
      ExtendedBy(LinesOf(s), "", ' ');
    } else {
      var u, c := t[..|t| - 1], t[|t| - 1];
      assert t == u + [c] && c in t;
      LinesAppend(s, u);
      Assoc(s, u, [c]);
      LinesSnoc(s + u, c);
      ExtendedBy(LinesOf(s), u, c);
    }
  }

  lemma LinesMore(s: string, t: string)
    requires '\n' !in t
    ensures LinesOf(s + "\n" + t) == LinesOf(s) + [t]
  {
    LinesSnoc(s, '\n');
    LinesAppend(s + "\n", t);
    assert "" + t == t;
  }

  lemma GlueSnoc(first: string, front: seq<string>, l: string)
    ensures Glue(first, front + [l]) == Glue(first, front) + "\n" + l
  {
    assert (front + [l])[..|front + [l]| - 1] == front;
  }

  /** The lines of a reassembled text are the lines it was reassembled from. */
  lemma {:induction false} LinesOfGlue(first: string, more: seq<string>)
    requires '\n' !in first && forall l | l in more :: '\n' !in l
    ensures LinesOf(Glue(first, more)) == [first] + more
    decreases |more|
  {
    if more == [] {
      LinesAppend("", first);
      assert "" + first == first;
    } else {
      var front, l := more[..|more| - 1], more[|more| - 1];
      assert l in more && more == front + [l];
      forall x | x in front ensures '\n' !in x {
        assert x in more;
      }
      LinesOfGlue(first, front);
      GlueSnoc(first, front, l);
      var text := Glue(first, front);
      LinesMore(text, l);
    }
  }
}
