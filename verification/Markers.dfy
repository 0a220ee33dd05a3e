/** When scenario markers can be confused, and what that means for slicing. */
module Markers {
  import opened Text
  import opened CrossCheck
  import opened Scenario

  predicate QuoteFree(s: string) {
    '\'' !in s
  }

  lemma {:induction false} EscapePlain(name: string)
    requires QuoteFree(name)
    ensures Escape(name) == name
  {
    if name != "" {
      EscapePlain(name[1..]);
    }
  }

  lemma {:induction false} EscapeConcat(a: string, b: string)
    ensures Escape(a + b) == Escape(a) + Escape(b)
  {
    if a == "" {
      assert a + b == b;
    } else {
      EscapeConcat(a[1..], b);
      assert (a + b)[1..] == a[1..] + b && (a + b)[0] == a[0];
      Assoc(EscapeChar(a[0]), Escape(a[1..]), Escape(b));
    }
  }

  /** Only a quote-free label escapes to a quote-free text. */
  lemma {:induction false} EscapedQuoteFree(name: string)
    requires QuoteFree(Escape(name))
    ensures QuoteFree(name)
  {
    if name != "" {
      var head, tail := EscapeChar(name[0]), Escape(name[1..]);
      assert Escape(name) == head + tail;
      assert forall c | c in head :: c in Escape(name);
      assert forall c | c in tail :: c in Escape(name);
      assert head[0] in head;
      EscapedQuoteFree(name[1..]);
      assert name == [name[0]] + name[1..];
    }
  }

  /** A quote-free label's marker holds exactly two quotes: where the literal opens and where it closes. */
  lemma MarkerQuotes(kind: string, name: string, i: nat)
    requires QuoteFree(name) && QuoteFree(kind)
    requires i < |"SELECT " + MarkerLiteral(kind, name)|
    ensures var s := "SELECT " + MarkerLiteral(kind, name);
            s[i] == '\'' <==> i == 7 || i == |s| - 1
  {
    EscapePlain(name);
    var inner := "txnproof:" + kind + ":" + name;
    var s := "SELECT " + MarkerLiteral(kind, name);
    assert s == "SELECT '" + inner + "'";
    assert QuoteFree(inner);
    if 7 < i < |s| - 1 {
      assert s[i] == inner[i - 8];
      assert inner[i - 8] in inner;
    } else if i < 7 {
      assert s[i] == "SELECT "[i];
    }
  }

  /** In a quote-free label's marker only its own literal, and nothing shorter or longer, can occur. */
  lemma OnlyOwnLiteral(kind: string, name: string, kind': string, name': string)
    requires QuoteFree(name) && QuoteFree(kind)
    requires Contains("SELECT " + MarkerLiteral(kind, name), MarkerLiteral(kind', name'))
    ensures MarkerLiteral(kind, name) == MarkerLiteral(kind', name')
  {
    var s, lit := "SELECT " + MarkerLiteral(kind, name), MarkerLiteral(kind', name');
    var i :| 0 <= i <= |s| && HasAt(s, i, lit);
    var n := |lit| - 1;
    LiteralEnds(kind', name');
    AtEnds(s, i, lit);
    MarkerQuotes(kind, name, i);
    MarkerQuotes(kind, name, i + n);
    assert s[7..] == MarkerLiteral(kind, name);
  }

  lemma LiteralEnds(kind: string, name: string)
    ensures var lit := MarkerLiteral(kind, name); |lit| > 1 && lit[0] == lit[|lit| - 1] == '\''
  {
  }

  lemma AtEnds(s: string, i: nat, lit: string)
    requires HasAt(s, i, lit) && lit != ""
    ensures i + |lit| <= |s| && s[i] == lit[0] && s[i + |lit| - 1] == lit[|lit| - 1]
    ensures i + |lit| == |s| ==> s[i..] == lit
  {
    assert s[i..i + |lit|][0] == lit[0] && s[i..i + |lit|][|lit| - 1] == lit[|lit| - 1];
  }

  lemma SameLabel(name: string, name': string)
    requires QuoteFree(name) && MarkerLiteral("begin", name) == MarkerLiteral("begin", name')
    ensures name == name'
  {
    var a, b := MarkerLiteral("begin", name), MarkerLiteral("begin", name');
    assert a == "'txnproof:begin:" + Escape(name) + "'" && b == "'txnproof:begin:" + Escape(name') + "'";
    assert Escape(name) == a[16..|a| - 1] == b[16..|b| - 1] == Escape(name');
    EscapePlain(name);
    EscapedQuoteFree(name');
    EscapePlain(name');
  }

  lemma KindsDiffer(name: string, name': string)
    ensures MarkerLiteral("begin", name) != MarkerLiteral("end", name')
  {
    assert MarkerLiteral("begin", name)[10] == 'b';
    assert MarkerLiteral("end", name')[10] == 'e';
  }

  lemma OwnLiteral(name: string)
    ensures Contains(BeginMarker(name), MarkerLiteral("begin", name))
  {
    var s, lit := BeginMarker(name), MarkerLiteral("begin", name);
    assert s[7..7 + |lit|] == lit;
    assert HasAt(s, 7, lit);
  }

  /** A quote-free label's begin marker never closes any scenario. */
  lemma BeginNeverEnds(name: string, name': string)
    requires QuoteFree(name)
    ensures !Contains(BeginMarker(name), MarkerLiteral("end", name'))
  {
    if Contains(BeginMarker(name), MarkerLiteral("end", name')) {
      OnlyOwnLiteral("begin", name, "end", name');
      KindsDiffer(name, name');
    }
  }

  lemma {:induction false} SplitAtQuote(name: string) returns (front: string, rest: string)
    requires !QuoteFree(name)
    ensures name == front + rest && QuoteFree(front) && rest != "" && rest[0] == '\''
  {
    if name[0] == '\'' {
      front, rest := "", name;
    } else {
      assert name == [name[0]] + name[1..];
      var f;
      f, rest := SplitAtQuote(name[1..]);
      front := [name[0]] + f;
    }
  }

  /** A label with a quote opens the scenario of its part before the quote as well. */
  lemma QuoteOpensAnother(name: string) returns (other: string)
    requires !QuoteFree(name)
    ensures other != name && QuoteFree(other)
    ensures Contains(BeginMarker(name), MarkerLiteral("begin", other))
  {
    var rest;
    other, rest := SplitAtQuote(name);
    EscapeConcat(other, rest);
    EscapePlain(other);
    LiteralPrefix(other, rest, Escape(rest[1..]));
  }

  lemma LiteralPrefix(other: string, rest: string, after: string)
    requires Escape(other + rest) == other + Escape(rest) && Escape(other) == other
    requires Escape(rest) == "''" + after
    ensures Contains(BeginMarker(other + rest), MarkerLiteral("begin", other))
  {
    var head := "'txnproof:" + "begin" + ":";
    var lit := MarkerLiteral("begin", other);
    assert lit == head + other + "'";
    assert MarkerLiteral("begin", other + rest) == head + (other + ("''" + after)) + "'";
    Regroup(head, other, after);
    Occurs("SELECT ", lit, "'" + after + "'");
  }

  lemma Regroup(head: string, other: string, after: string)
    ensures head + (other + ("''" + after)) + "'" == (head + other + "'") + ("'" + after + "'")
  {
  }

  lemma Occurs(pre: string, lit: string, post: string)
    ensures Contains(pre + (lit + post), lit)
  {
    var s := pre + (lit + post);
    assert s[|pre|..|pre| + |lit|] == lit;
    assert HasAt(s, |pre|, lit);
  }

  /** A begin marker opens its own scenario and no other exactly when its label holds no quote. */
  lemma OpensOnlyItsOwnIff(name: string)
    ensures QuoteFree(name) <==>
            forall other :: Contains(BeginMarker(name), MarkerLiteral("begin", other)) <==> other == name
  {
    OwnLiteral(name);
    if QuoteFree(name) {
      forall other | Contains(BeginMarker(name), MarkerLiteral("begin", other)) ensures other == name {
        OnlyOwnLiteral("begin", name, "begin", other);
        SameLabel(name, other);
      }
    } else {
      var other := QuoteOpensAnother(name);
    }
  }

  /** Reading an SQL string literal from behind its opening quote: a doubled quote stands for one, a single one
      ends it. The value, and what follows. */
  function ReadLiteral(s: string): Option<(string, string)> {
    if s == "" then None
    else if s[0] != '\'' then
      (match ReadLiteral(s[1..])
       case None => None
       case Some(p) => Some(([s[0]] + p.0, p.1)))
    else if "\'\'" <= s then
      (match ReadLiteral(s[2..])
       case None => None
       case Some(p) => Some((['\''] + p.0, p.1)))
    else Some(("", s[1..]))
  }

  lemma {:induction false} EscapeReadsBack(name: string, rest: string)
    requires rest == "" || rest[0] != '\''
    ensures ReadLiteral(Escape(name) + ("'" + rest)) == Some((name, rest))
  {
    var t := "'" + rest;
    if name == "" {
      assert "" + t == t && t[1..] == rest;
    } else {
      EscapeReadsBack(name[1..], rest);
      var tail := Escape(name[1..]) + t;
      Assoc(EscapeChar(name[0]), Escape(name[1..]), t);
      var s := EscapeChar(name[0]) + tail;
      assert s[|EscapeChar(name[0])|..] == tail;
      assert name == [name[0]] + name[1..];
    }
  }

  lemma {:induction false} PlainReads(head: string, s: string)
    requires QuoteFree(head) && ReadLiteral(s).Some?
    ensures ReadLiteral(head + s) == Some((head + ReadLiteral(s).value.0, ReadLiteral(s).value.1))
  {
    if head == "" {
      assert head + s == s && head + ReadLiteral(s).value.0 == ReadLiteral(s).value.0;
    } else {
      assert head[0] in head && forall c | c in head[1..] :: c in head;
      PlainReads(head[1..], s);
      assert (head + s)[1..] == head[1..] + s && (head + s)[0] == head[0];
      assert [head[0]] + (head[1..] + ReadLiteral(s).value.0) == head + ReadLiteral(s).value.0;
    }
  }

  /** A marker selects one string literal and nothing else, and the server reads it as the tag, the kind and
      the label, whatever quotes the label holds. */
  lemma MarkerReadsBack(kind: string, name: string)
    requires QuoteFree(kind)
    ensures MarkerLiteral(kind, name) != "" && MarkerLiteral(kind, name)[0] == '\''
    ensures ReadLiteral(MarkerLiteral(kind, name)[1..]) == Some(("txnproof:" + kind + ":" + name, ""))
  {
    var head := "txnproof:" + kind + ":";
    var lit := MarkerLiteral(kind, name);
    EscapeReadsBack(name, "");
    HeadQuoteFree(kind);
    PlainReads(head, Escape(name) + ("'" + ""));
    LiteralParts(kind, name);
  }

  lemma HeadQuoteFree(kind: string)
    requires QuoteFree(kind)
    ensures QuoteFree("txnproof:" + kind + ":")
  {
  }

  lemma LiteralParts(kind: string, name: string)
    ensures MarkerLiteral(kind, name)[1..] == ("txnproof:" + kind + ":") + (Escape(name) + ("'" + ""))
  {
    var lit := MarkerLiteral(kind, name);
    assert lit == "'" + (("txnproof:" + kind + ":") + (Escape(name) + ("'" + "")));
  }

  /** The two statements, spelled out for a label. */
  lemma MarkersSay(name: string)
    requires QuoteFree(name)
    ensures BeginMarker(name) == "SELECT 'txnproof:begin:" + name + "'"
    ensures EndMarker(name) == "SELECT 'txnproof:end:" + name + "'"
  {
    EscapePlain(name);
  }

  // ----- slicing ------------------------------------------------------------------------------

  /** One scenario in a log comes back exactly, if nothing before it opens it and nothing in it closes it. */
  lemma SlicesInner(pre: seq<Statement>, b: Statement, inner: seq<Statement>, e: Statement, post: seq<Statement>,
                    name: string)
    requires b.sql == BeginMarker(name) && e.sql == EndMarker(name)
    requires NoneWith(pre, MarkerLiteral("begin", name), 0)
    requires NoneWith(inner, MarkerLiteral("end", name), 0)
    ensures IsSlice(pre + [b] + inner + [e] + post, name, Sliced(inner))
  {
    var log := pre + [b] + inner + [e] + post;
    var i, k := |pre|, |pre| + 1 + |inner|;
    OwnLiteral(name);
    var lit := MarkerLiteral("end", name);
    assert EndMarker(name)[7..7 + |lit|] == lit;
    assert HasAt(EndMarker(name), 7, lit);
    assert log[i] == b && log[k] == e;
    assert forall j | 0 <= j < i :: log[j] == pre[j];
    assert forall j | i + 1 <= j < k :: log[j] == inner[j - i - 1];
    assert FirstWith(log, MarkerLiteral("begin", name), 0, i);
    assert SlicedAt(log, MarkerLiteral("begin", name), lit, i, k);
    assert log[i + 1..k] == inner;
  }

  /** One scenario of a log: its label, its two marker statements and what ran between them. */
  datatype Block = Block(name: string, b: Statement, inner: seq<Statement>, e: Statement)
  {
    function Stmts(): seq<Statement> {
      [b] + inner + [e]
    }

    ghost predicate Valid() {
      && QuoteFree(name) && b.sql == BeginMarker(name) && e.sql == EndMarker(name)
      && forall s | s in inner :: Unmarked(s.sql)
    }
  }

  /** No marker literal of any scenario occurs. */
  ghost predicate Unmarked(sql: string) {
    forall n :: !Contains(sql, MarkerLiteral("begin", n)) && !Contains(sql, MarkerLiteral("end", n))
  }

  function Concat(bs: seq<Block>): seq<Statement> {
    if bs == [] then [] else Concat(bs[..|bs| - 1]) + bs[|bs| - 1].Stmts()
  }

  lemma BlockOpensNoOther(k: Block, name: string)
    requires k.Valid() && k.name != name
    ensures NoneWith(k.Stmts(), MarkerLiteral("begin", name), 0)
  {
    var lit := MarkerLiteral("begin", name);
    var ss := k.Stmts();
    forall j | 0 <= j < |ss| ensures !Contains(ss[j].sql, lit) {
      if j == 0 {
        OpensOnlyItsOwnIff(k.name);
      } else if j == |ss| - 1 {
        if Contains(EndMarker(k.name), lit) {
          OnlyOwnLiteral("end", k.name, "begin", name);
          KindsDiffer(name, k.name);
        }
      } else {
        assert ss[j] == k.inner[j - 1] && k.inner[j - 1] in k.inner;
      }
    }
  }

  lemma {:induction false} BlocksOpenNoOther(bs: seq<Block>, name: string)
    requires forall k | k in bs :: k.Valid() && k.name != name
    ensures NoneWith(Concat(bs), MarkerLiteral("begin", name), 0)
  {
    if bs != [] {
      var n := |bs| - 1;
      BlocksOpenNoOther(bs[..n], name);
      assert bs[n] in bs;
      BlockOpensNoOther(bs[n], name);
      var front, ss := Concat(bs[..n]), bs[n].Stmts();
      assert forall j | 0 <= j < |front| :: (front + ss)[j] == front[j];
      assert forall j | |front| <= j < |front + ss| :: (front + ss)[j] == ss[j - |front|];
    }
  }

  lemma {:induction false} ConcatAround(bs: seq<Block>, i: nat) returns (post: seq<Statement>)
    requires i < |bs|
    ensures Concat(bs) == Concat(bs[..i]) + bs[i].Stmts() + post
    decreases |bs|
  {
    var n := |bs| - 1;
    if i == n {
      post := [];
    } else {
      var rest := ConcatAround(bs[..n], i);
      assert bs[..n][..i] == bs[..i];
      post := rest + bs[n].Stmts();
    }
  }

  /** A log of many scenarios with distinct quote-free labels: each one slices out exactly its own
      statements, wherever it stands. */
  lemma ScenariosSliceIndependently(bs: seq<Block>, i: nat)
    requires forall k | k in bs :: k.Valid()
    requires forall j, k | 0 <= j < k < |bs| :: bs[j].name != bs[k].name
    requires i < |bs|
    ensures IsSlice(Concat(bs), bs[i].name, Sliced(bs[i].inner))
  {
    var k := bs[i];
    EarlierBlocks(bs, i);
    var post := ConcatAround(bs, i);
    var pre := Concat(bs[..i]);
    assert k in bs;
    InnerIsUnmarked(k);
    SlicesInner(pre, k.b, k.inner, k.e, post, k.name);
    RegroupLog(pre, k, post);
  }

  lemma EarlierBlocks(bs: seq<Block>, i: nat)
    requires forall k | k in bs :: k.Valid()
    requires forall j, k | 0 <= j < k < |bs| :: bs[j].name != bs[k].name
    requires i < |bs|
    ensures NoneWith(Concat(bs[..i]), MarkerLiteral("begin", bs[i].name), 0)
  {
    forall k | k in bs[..i] ensures k.Valid() && k.name != bs[i].name {
      var j :| 0 <= j < i && bs[j] == k;
      assert k in bs;
    }
    BlocksOpenNoOther(bs[..i], bs[i].name);
  }

  lemma InnerIsUnmarked(k: Block)
    requires k.Valid()
    ensures NoneWith(k.inner, MarkerLiteral("end", k.name), 0)
  {
    assert forall j | 0 <= j < |k.inner| :: k.inner[j] in k.inner;
  }

  lemma RegroupLog(pre: seq<Statement>, k: Block, post: seq<Statement>)
    ensures pre + k.Stmts() + post == pre + [k.b] + k.inner + [k.e] + post
  {
  }
}
