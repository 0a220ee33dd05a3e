/** Printing statements in the stderr format under the default prefix and parsing them back. */
module PgLogRoundTrip {
  import opened Text
  import opened Classify
  import opened CrossCheck
  import opened Matching
  import opened PgLog
  import opened PgLogLaws

  /** The duration field: a number, and the white space behind it. */
  datatype Duration = Duration(number: string, gap: string)
  {
    predicate Valid() {
      number != "" && (forall i | 0 <= i < |number| :: InNumber(number[i])) && IsGap(gap)
    }

    function Before(carried: string): string {
      "duration: " + (number + (" ms" + (gap + carried)))
    }
  }

  predicate IsGap(s: string) {
    s != "" && forall i | 0 <= i < |s| :: IsWhite(s[i])
  }

  /** What a message carries: the statement, or the name it was prepared under and the statement, behind
      one white-space character or none. */
  datatype Carried = Carried(prepared: Option<string>, sep: string, first: string)
  {
    predicate Valid() {
      && (prepared.Some? ==> forall i | 0 <= i < |prepared.value| :: prepared.value[i] != ':')
      && if sep == "" then first == "" || !IsWhite(first[0]) else |sep| == 1 && IsWhite(sep[0])
    }

    function Text(): string {
      if prepared.Some? then "execute " + (prepared.value + (":" + (sep + first)))
      else "statement:" + (sep + first)
    }
  }

  /** A message body: level, white space, duration if there is one, and what it carries. */
  datatype Body = Body(gap: string, duration: Option<Duration>, carried: Carried)
  {
    predicate Valid() {
      IsGap(gap) && (duration.Some? ==> duration.value.Valid()) && carried.Valid()
    }

    function Message(): string {
      if duration.Some? then duration.value.Before(carried.Text()) else carried.Text()
    }

    function Text(): string {
      "LOG:" + (gap + Message())
    }
  }

  /** A logged statement with the further lines of its text, or any other message with its own. */
  datatype Item =
    | Logged(stamp: string, fraction: string, zone: string, pid: string, xid: string, vxid: Option<string>,
             body: Body, more: seq<string>)
    | Message(line: string, more: seq<string>)
  {
    predicate Valid() {
      match this
      case Message(line, _) => KindOfLine(MatchPrefix, line) == Skip
      case Logged(_, _, _, _, _, _, _, _) =>
        Shaped(stamp, "dddd-dd-dd dd:dd:dd.") && AllDigits(fraction) && IsZone(zone) && ValidIds()
    }

    predicate ValidIds()
      requires Logged?
    {
      AllDigits(pid) && AllDigits(xid) && (vxid.Some? ==> VxidLength(vxid.value) == Some(|vxid.value|)) && body.Valid()
    }

    function First(): string
      requires Logged?
    {
      body.carried.first
    }

    function Ids(): string
      requires Logged?
    {
      xid + (" " + ((if vxid.Some? then vxid.value else "") + (" " + body.Text())))
    }

    function Process(): string
      requires Logged?
    {
      " [" + (pid + ("] " + Ids()))
    }

    function HeadLine(): string
      requires Logged?
    {
      stamp + (fraction + (" " + (zone + Process())))
    }

    function Lines(): seq<string> {
      (match this
       case Message(line, _) => [line]
       case Logged(_, _, _, _, _, _, _, _) => [HeadLine()]) + Indented(more)
    }

    predicate Recognized(kind: string -> LineKind) {
      match this
      case Message(line, _) => kind(line) == Skip
      case Logged(_, _, _, _, _, _, _, _) => kind(HeadLine()) == PgLog.First(Identity(xid, vxid), First())
    }
  }

  predicate IsZone(s: string) {
    s != "" && forall i | 0 <= i < |s| :: !IsWhite(s[i])
  }

  /** Continuation lines carry one leading tab. */
  function Indented(more: seq<string>): (r: seq<string>)
    ensures |r| == |more| && forall i | 0 <= i < |r| :: r[i] == "\t" + more[i]
  {
    seq(|more|, i requires 0 <= i < |more| => "\t" + more[i])
  }

  function Print(items: seq<Item>): seq<string> {
    if items == [] then [] else Print(items[..|items| - 1]) + items[|items| - 1].Lines()
  }

  function Expected(items: seq<Item>): seq<Statement> {
    if items == [] then []
    else
      var front, last := items[..|items| - 1], items[|items| - 1];
      Expected(front) +
      if last.Logged? then
        [Statement(Glue(last.First(), last.more), Other, Identity(last.xid, last.vxid), |Print(front)| + 1)]
      else []
  }

  // ----- a printed head is recognized ---------------------------------------------------------

  /** The words a message can go on with after its level. */
  predicate Starts(r: string) {
    r != "" && (r[0] == 'e' || r[0] == 's')
  }

  lemma SepDropped(c: Carried)
    requires c.Valid()
    ensures DropOne(c.sep + c.first) == c.first
  {
    if c.sep != "" {
      assert c.sep == [c.sep[0]];
      assert (c.sep + c.first)[1..] == c.first;
    } else {
      assert c.sep + c.first == c.first;
    }
  }

  lemma CarriedMatches(c: Carried)
    requires c.Valid()
    ensures MatchStatement(c.Text()) == Some(c.first) && Starts(c.Text())
  {
    SepDropped(c);
    var rest := c.sep + c.first;
    if c.prepared.Some? {
      PreparedMatches(c.prepared.value, rest);
    } else {
      LitOf("statement:", rest);
      assert c.Text()[0] == 's';
    }
  }

  lemma PreparedMatches(name: string, rest: string)
    requires forall i | 0 <= i < |name| :: name[i] != ':'
    ensures var r := "execute " + (name + (":" + rest)); MatchStatement(r) == Some(DropOne(rest)) && Starts(r)
  {
    var r := "execute " + (name + (":" + rest));
    assert r[0] == 'e';
    LitOf("execute ", name + (":" + rest));
    SpanOf(name, ":" + rest, Except(':'));
    LitOf(":", rest);
  }

  lemma DurationSkipped(d: Duration, r: string)
    requires d.Valid() && Starts(r)
    ensures AfterDuration(d.Before(r)) == r && d.Before(r)[0] == 'd'
  {
    var a := d.gap + r;
    var b := " ms" + a;
    Some1Of(d.gap, r, Whites());
    LitOf(" ms", a);
    Some1Of(d.number, b, Numbers());
    LitOf("duration: ", d.number + b);
  }

  lemma NoDuration(r: string)
    requires Starts(r)
    ensures AfterDuration(r) == r
  {
    assert "duration: "[0] == 'd';
  }

  lemma LogMatches(gap: string, r: string)
    requires IsGap(gap) && r != "" && !IsWhite(r[0])
    ensures MatchBody("LOG:" + (gap + r)) == MatchStatement(AfterDuration(r))
  {
    Some1Of(gap, r, Whites());
    LitOf("LOG:", gap + r);
  }

  lemma BodyMatches(b: Body)
    requires b.Valid()
    ensures MatchBody(b.Text()) == Some(b.carried.first)
  {
    var r := b.carried.Text();
    CarriedMatches(b.carried);
    if b.duration.Some? {
      DurationSkipped(b.duration.value, r);
    } else {
      NoDuration(r);
    }
    LogMatches(b.gap, b.Message());
  }

  lemma VxidStops(v: string, rest: string)
    requires VxidLength(v) == Some(|v|)
    ensures VxidLength(v + (" " + rest)) == Some(|v|)
  {
    var s := v + (" " + rest);
    var n := Span(v, Digits());
    var u, w := v[..n], v[n..][1..];
    assert v == u + ("/" + w);
    VxidParts(u, w, rest);
    Regroup(u, "/", w, " " + rest);
  }

  lemma Regroup(a: string, b: string, c: string, d: string)
    ensures (a + (b + c)) + d == a + (b + (c + d))
  {
  }

  lemma VxidParts(u: string, w: string, rest: string)
    requires AllDigits(u) && AllDigits(w)
    ensures VxidLength(u + ("/" + (w + (" " + rest)))) == Some(|u| + 1 + |w|)
  {
    var r := w + (" " + rest);
    SpanOf(w, " " + rest, Digits());
    LitOf("/", r);
    SpanOf(u, "/" + r, Digits());
  }

  lemma VirtualMatches(xid: string, v: string, body: string)
    requires VxidLength(v) == Some(|v|)
    ensures MatchVirtual(xid, v + (" " + body)) == Some(Prefix(xid, Some(v), body))
  {
    var r := v + (" " + body);
    VxidStops(v, body);
    assert r[..|v|] == v && r[|v|] == ' ' && r[|v| + 1..] == body;
  }

  lemma NoVirtualMatches(xid: string, body: string)
    ensures MatchVirtual(xid, "" + (" " + body)) == Some(Prefix(xid, None, body))
  {
    var r := "" + (" " + body);
    assert r == " " + body && r[0] == ' ';
    assert Span(r, Digits()) == 0;
    LitOf(" ", body);
  }

  lemma RealMatches(xid: string, r: string)
    requires AllDigits(xid)
    ensures MatchIds(xid + (" " + r)) == MatchVirtual(xid, r)
  {
    SpanOf(xid, " " + r, Digits());
    LitOf(" ", r);
  }

  lemma IdsMatch(it: Item)
    requires it.Logged? && it.Valid()
    ensures MatchIds(it.Ids()) == Some(Prefix(it.xid, it.vxid, it.body.Text()))
  {
    if it.vxid.Some? {
      VirtualMatches(it.xid, it.vxid.value, it.body.Text());
      RealMatches(it.xid, it.vxid.value + (" " + it.body.Text()));
    } else {
      NoVirtualMatches(it.xid, it.body.Text());
      RealMatches(it.xid, "" + (" " + it.body.Text()));
    }
  }

  lemma ProcessMatches(pid: string, ids: string)
    requires AllDigits(pid)
    ensures MatchProcess(" [" + (pid + ("] " + ids))) == MatchIds(ids)
  {
    LitOf("] ", ids);
    Some1Of(pid, "] " + ids, Digits());
    LitOf(" [", pid + ("] " + ids));
  }

  lemma PrefixMatches(stamp: string, fraction: string, zone: string, process: string)
    requires Shaped(stamp, "dddd-dd-dd dd:dd:dd.") && AllDigits(fraction)
    requires zone != "" && forall i | 0 <= i < |zone| :: !IsWhite(zone[i])
    requires process != "" && process[0] == ' '
    ensures MatchPrefix(stamp + (fraction + (" " + (zone + process)))) == MatchProcess(process)
  {
    var r := " " + (zone + process);
    Some1Of(zone, process, NonWhites());
    LitOf(" ", zone + process);
    Some1Of(fraction, r, Digits());
    ShapeOf(stamp, fraction + r, "dddd-dd-dd dd:dd:dd.");
  }

  lemma LineMatches(line: string, p: Prefix, sql: string)
    ensures line != "" && line[0] != '\t' && MatchPrefix(line) == Some(p) && MatchBody(p.body) == Some(sql) ==>
              KindOfLine(MatchPrefix, line) == First(Identity(p.xid, p.vxid), sql)
  {
  }

  lemma HeadMatches(it: Item)
    requires it.Logged? && it.Valid()
    ensures KindOfLine(MatchPrefix, it.HeadLine()) == PgLog.First(Identity(it.xid, it.vxid), it.First())
  {
    ProcessMatches(it.pid, it.Ids());
    PrefixMatches(it.stamp, it.fraction, it.zone, it.Process());
    IdsMatch(it);
    BodyMatches(it.body);
    assert it.HeadLine()[0] == it.stamp[0] != '\t';
    LineMatches(it.HeadLine(), Prefix(it.xid, it.vxid, it.body.Text()), it.First());
  }

  // ----- reading the lines of one item --------------------------------------------------------

  lemma {:induction false} ReadConcat(kind: string -> LineKind, st: Scan, a: seq<string>, b: seq<string>)
    ensures ReadLines(kind, st, a + b) == ReadLines(kind, ReadLines(kind, st, a), b)
  {
    if b == [] {
      assert a + b == a;
    } else {
      ReadConcat(kind, st, a, b[..|b| - 1]);
      FrontOf(a, b);
    }
  }

  lemma {:induction false} LinesRead(kind: string -> LineKind, st: Scan, lines: seq<string>)
    ensures ReadLines(kind, st, lines).lines == st.lines + |lines|
  {
    if lines != [] {
      LinesRead(kind, st, lines[..|lines| - 1]);
    }
  }

  /** A tab always means continuation. */
  ghost predicate Tabbed(kind: string -> LineKind) {
    forall l: string :: kind("\t" + l) == More(l)
  }

  lemma {:induction false} MoreRead(kind: string -> LineKind, st: Scan, front: seq<Statement>, s: Statement,
                                    more: seq<string>)
    requires Tabbed(kind) && st.continuing && st.stmts == front + [s]
    ensures ReadLines(kind, st, Indented(more)).continuing
    ensures ReadLines(kind, st, Indented(more)).stmts == front + [s.(sql := Glue(s.sql, more))]
  {
    if more != [] {
      var n := |more| - 1;
      MoreRead(kind, st, front, s, more[..n]);
      assert Indented(more)[..n] == Indented(more[..n]);
      var r := ReadLines(kind, st, Indented(more[..n]));
      assert r.stmts[..|r.stmts| - 1] == front;
      assert kind("\t" + more[n]) == More(more[n]);
    }
  }

  lemma {:induction false} NothingRead(kind: string -> LineKind, st: Scan, more: seq<string>)
    requires Tabbed(kind) && !st.continuing
    ensures !ReadLines(kind, st, Indented(more)).continuing
    ensures ReadLines(kind, st, Indented(more)).stmts == st.stmts
  {
    if more != [] {
      var n := |more| - 1;
      NothingRead(kind, st, more[..n]);
      assert Indented(more)[..n] == Indented(more[..n]);
      assert kind("\t" + more[n]) == More(more[n]);
    }
  }

  lemma OneLine(kind: string -> LineKind, st: Scan, l: string)
    ensures ReadLines(kind, st, [l]) == ReadAs(st, kind(l))
  {
    assert [l][..0] == [];
    assert ReadLines(kind, st, []) == st;
  }

  lemma ItemRead(kind: string -> LineKind, st: Scan, it: Item)
    requires Tabbed(kind) && it.Recognized(kind)
    ensures ReadLines(kind, st, it.Lines()).stmts == st.stmts +
            if it.Logged? then
              [Statement(Glue(it.First(), it.more), Other, Identity(it.xid, it.vxid), st.lines + 1)]
            else []
  {
    var l := if it.Logged? then it.HeadLine() else it.line;
    OneLine(kind, st, l);
    ReadConcat(kind, st, [l], Indented(it.more));
    var s := ReadAs(st, kind(l));
    if it.Logged? {
      MoreRead(kind, s, st.stmts, Statement(it.First(), Other, Identity(it.xid, it.vxid), st.lines + 1), it.more);
    } else {
      NothingRead(kind, s, it.more);
      assert st.stmts + [] == st.stmts;
    }
  }

  lemma {:induction false} RoundTripFor(kind: string -> LineKind, items: seq<Item>)
    requires Tabbed(kind) && forall it | it in items :: it.Recognized(kind)
    ensures ReadLines(kind, START, Print(items)).stmts == Expected(items)
  {
    if items != [] {
      var front, last := items[..|items| - 1], items[|items| - 1];
      assert last in items;
      RoundTripFor(kind, front);
      ReadConcat(kind, START, Print(front), last.Lines());
      LinesRead(kind, START, Print(front));
      ItemRead(kind, ReadLines(kind, START, Print(front)), last);
    }
  }

  /** Logged statements come back whole, whatever their further lines hold: the tab alone marks them;
      other messages and their continuation lines contribute nothing. */
  lemma RoundTrip(classify: string -> Kind, items: seq<Item>)
    requires forall it | it in items :: it.Valid()
    ensures Parsed(MatchPrefix, classify, Print(items)) == Classified(classify, Expected(items))
  {
    var kind := Under(MatchPrefix);
    forall it | it in items ensures it.Recognized(kind) {
      if it.Logged? {
        HeadMatches(it);
      }
    }
    assert forall l: string :: ("\t" + l)[1..] == l;
    RoundTripFor(kind, items);
  }
}
