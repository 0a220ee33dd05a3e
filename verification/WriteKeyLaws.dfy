/** What the throttle key of an unbounded write identifies: exactly the words of the statement, up to the
    cut. */
module WriteKeyLaws {
  import opened Text
  import opened Utf8
  import opened WriteKey

  /** The key before it is cut. */
  function Normal(query: string): string {
    Join(Fields(Runes(query)))
  }

  /** The key is the first 200 bytes of the normalized text, or all of it. */
  lemma KeyIsPrefix(query: string)
    ensures Key(query) <= Normal(query) && |Key(query)| == if |Normal(query)| < 200 then |Normal(query)| else 200
  {
  }

  /** The white space, code point by code point. */
  lemma SpacesAre(r: int)
    ensures IsSpace(r) <==> r in {0x09, 0x0A, 0x0B, 0x0C, 0x0D, 0x20, 0x85, 0xA0, 0x1680, 0x2000, 0x2001, 0x2002,
                                  0x2003, 0x2004, 0x2005, 0x2006, 0x2007, 0x2008, 0x2009, 0x200A, 0x2028, 0x2029,
                                  0x202F, 0x205F, 0x3000}
  {
  }

  // ----- decoding is local ----------------------------------------------------------------------

  /** What follows cannot belong to a rune that has started before. */
  predicate Fresh(t: string) {
    t == "" || !IsTail(t[0] as int)
  }

  lemma BytesOf(w: string, t: string, i: nat)
    ensures i < |w| ==> ByteAt(w + t, i) == ByteAt(w, i)
    ensures i == |w| && Fresh(t) ==> !IsTail(ByteAt(w + t, i)) && !IsTail(ByteAt(w, i))
  {
  }

  lemma DecodeLocal(w: string, t: string)
    requires w != "" && Fresh(t)
    ensures DecodeRune(w + t) == DecodeRune(w)
  {
    BytesOf(w, t, 0);
    BytesOf(w, t, 1);
    BytesOf(w, t, 2);
    BytesOf(w, t, 3);
  }

  lemma {:induction false} RunesLocal(w: string, t: string)
    requires Fresh(t)
    ensures Runes(w + t) == Runes(w) + Runes(t)
  {
    if w == "" {
      assert w + t == t;
    } else {
      var n := DecodeRune(w).1;
      DecodeLocal(w, t);
      assert (w + t)[..n] == w[..n] && (w + t)[n..] == w[n..] + t;
      RunesLocal(w[n..], t);
      var head := [Rune(w[..n], IsSpace(DecodeRune(w).0))];
      RunesStep(w);
      RunesStep(w + t);
      RunesAssoc(head, Runes(w[n..]), Runes(t));
    }
  }

  lemma RunesAssoc(a: seq<Rune>, b: seq<Rune>, c: seq<Rune>)
    ensures (a + b) + c == a + (b + c)
  {
  }

  lemma SpaceIsFresh(t: string)
    requires t != "" && IsSpace(DecodeRune(t).0)
    ensures Fresh(t)
  {
  }

  // ----- words ----------------------------------------------------------------------------------

  function Bytes(rs: seq<Rune>): string {
    if rs == [] then "" else rs[0].bytes + Bytes(rs[1..])
  }

  lemma {:induction false} BytesOfRunes(s: string)
    ensures Bytes(Runes(s)) == s
  {
    if s != "" {
      var n := DecodeRune(s).1;
      BytesOfRunes(s[n..]);
      RunesStep(s);
      assert s == s[..n] + s[n..];
    }
  }

  ghost predicate NoSpace(rs: seq<Rune>) {
    forall r | r in rs :: !r.space
  }

  /** A word: not empty, and none of its runes is white space. */
  ghost predicate IsWord(w: string) {
    w != "" && NoSpace(Runes(w))
  }

  /** Behind a word and something that cannot continue it, splitting starts afresh. */
  lemma {:induction false} FieldsOfWord(rs: seq<Rune>, xs: seq<Rune>)
    requires NoSpace(rs) && (xs == [] || xs[0].space)
    ensures WordBytes(rs + xs) == Bytes(rs) && WordLen(rs + xs) == |rs|
  {
    if rs == [] {
      assert rs + xs == xs;
    } else {
      assert (rs + xs)[1..] == rs[1..] + xs && rs[0] in rs;
      assert forall r | r in rs[1..] :: r in rs;
      FieldsOfWord(rs[1..], xs);
    }
  }

  lemma FieldsCons(rs: seq<Rune>, xs: seq<Rune>)
    requires rs != [] && NoSpace(rs) && (xs == [] || xs[0].space)
    ensures Fields(rs + xs) == [Bytes(rs)] + Fields(xs)
  {
    FieldsOfWord(rs, xs);
    assert rs[0] in rs && (rs + xs)[0] == rs[0];
    assert (rs + xs)[|rs|..] == xs;
  }

  // ----- splitting a text into its first word and the rest --------------------------------------

  /** The first word of a text, and what stands behind it. */
  lemma {:induction false} WordSplits(s: string) returns (w: string, t: string)
    ensures s == w + t && Fresh(t) && (t == "" || IsSpace(DecodeRune(t).0))
    ensures NoSpace(Runes(w)) && (w == "" <==> s == "" || IsSpace(DecodeRune(s).0))
  {
    if s == "" || IsSpace(DecodeRune(s).0) {
      w, t := "", s;
      if s != "" {
        SpaceIsFresh(s);
      }
    } else {
      var n := DecodeRune(s).1;
      var v;
      v, t := WordSplits(s[n..]);
      w := s[..n] + v;
      assert s == s[..n] + s[n..];
      Assoc(s[..n], v, t);
      DecodeLocal(w, t);
      assert w[..n] == s[..n] && w[n..] == v;
      RunesStep(w);
    }
  }

  lemma SpaceSkipped(t: string) returns (rest: string)
    requires t != "" && IsSpace(DecodeRune(t).0)
    ensures |rest| < |t| && Fields(Runes(t)) == Fields(Runes(rest))
  {
    RunesStep(t);
    rest := t[DecodeRune(t).1..];
  }

  /** Every field is a word. */
  lemma {:induction false} FieldsAreWords(s: string)
    ensures forall w | w in Fields(Runes(s)) :: IsWord(w)
    decreases |s|
  {
    var w, t := WordSplits(s);
    RunesLocal(w, t);
    if w != "" {
      RunesStep(w);
      if t != "" {
        RunesStep(t);
      }
      FieldsCons(Runes(w), Runes(t));
      BytesOfRunes(w);
      FieldsAreWords(t);
    } else if s != "" {
      var rest := SpaceSkipped(s);
      FieldsAreWords(rest);
    }
  }

  // ----- the normalized text and the words determine each other ---------------------------------

  lemma {:induction false} FieldsOfJoin(ws: seq<string>)
    requires forall w | w in ws :: IsWord(w)
    ensures Fields(Runes(Join(ws))) == ws
  {
    if ws != [] {
      var w, rest := ws[0], ws[1..];
      assert w in ws && forall v | v in rest :: v in ws;
      FieldsOfJoin(rest);
      JoinTail(w, rest);
      assert ws == [w] + rest;
    }
  }

  lemma JoinTail(w: string, rest: seq<string>)
    requires IsWord(w) && Fields(Runes(Join(rest))) == rest
    ensures Fields(Runes(Join([w] + rest))) == [w] + rest
  {
    var t := if rest == [] then "" else " " + Join(rest);
    JoinCons(w, rest);
    RunesLocal(w, t);
    RunesStep(w);
    if rest != [] {
      RunesOfSpace(Join(rest));
    }
    FieldsCons(Runes(w), Runes(t));
    BytesOfRunes(w);
  }

  lemma RunesOfSpace(s: string)
    ensures Runes(" " + s) == [Rune(" ", true)] + Runes(s)
    ensures Fields(Runes(" " + s)) == Fields(Runes(s))
  {
    var t := " " + s;
    assert t[0] == ' ' && DecodeRune(t) == (0x20, 1);
    assert t[..1] == " " && t[1..] == s;
  }

  /** Normalizing keeps the words, so doing it twice is doing it once. */
  lemma NormalKeepsWords(query: string)
    ensures Fields(Runes(Normal(query))) == Fields(Runes(query)) && Normal(Normal(query)) == Normal(query)
  {
    FieldsAreWords(query);
    FieldsOfJoin(Fields(Runes(query)));
  }

  /** Two statements have the same normalized text exactly when they consist of the same words. */
  lemma SameNormalIffSameWords(a: string, b: string)
    ensures Normal(a) == Normal(b) <==> Fields(Runes(a)) == Fields(Runes(b))
  {
    NormalKeepsWords(a);
    NormalKeepsWords(b);
  }

  // ----- gaps -----------------------------------------------------------------------------------

  type Space = r: int | IsSpace(r) witness 0x20

  /** Some white space, encoded. */
  function EncodeAll(g: seq<Space>): string {
    if g == [] then "" else Encode(g[0]) + EncodeAll(g[1..])
  }

  lemma {:induction false} GapFields(g: seq<Space>, b: string)
    ensures Fields(Runes(EncodeAll(g) + b)) == Fields(Runes(b))
    ensures g != [] ==> Runes(EncodeAll(g) + b) != [] && Runes(EncodeAll(g) + b)[0].space && Fresh(EncodeAll(g) + b)
  {
    if g == [] {
      assert EncodeAll(g) + b == b;
    } else {
      var rest := EncodeAll(g[1..]) + b;
      GapFields(g[1..], b);
      Assoc(Encode(g[0]), EncodeAll(g[1..]), b);
      DecodeEncode(g[0], rest);
      var s := Encode(g[0]) + rest;
      assert s[|Encode(g[0])|..] == rest;
      RunesStep(s);
      SpaceIsFresh(s);
    }
  }

  /** Fields on both sides of a gap. */
  lemma {:induction false} FieldsSplit(rs: seq<Rune>, xs: seq<Rune>)
    requires xs == [] || xs[0].space
    ensures Fields(rs + xs) == Fields(rs) + Fields(xs)
    decreases |rs|
  {
    if rs == [] {
      assert rs + xs == xs;
    } else if rs[0].space {
      assert (rs + xs)[1..] == rs[1..] + xs;
      FieldsSplit(rs[1..], xs);
    } else {
      var n := WordLen(rs);
      WordPrefix(rs, xs);
      assert (rs + xs)[n..] == rs[n..] + xs;
      FieldsSplit(rs[n..], xs);
    }
  }

  lemma {:induction false} WordPrefix(rs: seq<Rune>, xs: seq<Rune>)
    requires xs == [] || xs[0].space
    ensures WordBytes(rs + xs) == WordBytes(rs) && WordLen(rs + xs) == WordLen(rs)
  {
    if rs == [] {
      assert rs + xs == xs;
    } else if !rs[0].space {
      assert (rs + xs)[1..] == rs[1..] + xs;
      WordPrefix(rs[1..], xs);
    }
  }

  lemma FieldsAround(a: string, g: seq<Space>, b: string)
    requires g != []
    ensures Fields(Runes(a + (EncodeAll(g) + b))) == Fields(Runes(a)) + Fields(Runes(b))
  {
    GapFields(g, b);
    RunesLocal(a, EncodeAll(g) + b);
    FieldsSplit(Runes(a), Runes(EncodeAll(g) + b));
  }

  /** How much white space stands between two parts, and of which kind, never changes the key. */
  lemma GapsDoNotMatter(a: string, g: seq<Space>, h: seq<Space>, b: string)
    requires g != [] && h != []
    ensures Key(a + (EncodeAll(g) + b)) == Key(a + (EncodeAll(h) + b))
  {
    FieldsAround(a, g, b);
    FieldsAround(a, h, b);
  }
}
