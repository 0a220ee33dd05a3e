/** A boundary that receives any share of a run's statements, against the server's view of the same share;
    in particular the statements between two scenario markers. */
module Shares {
  import opened Text
  import opened Classify
  import opened CrossCheck
  import opened Reconstruct
  import opened TxIds
  import opened Ledgers
  import opened Allowlists
  import opened Verdicts
  import opened Simulation
  import opened Agreement
  import opened Stretches
  import S = Scenario
  import Markers

  // ----- the client's units of a share ----------------------------------------------------------

  /** The attributed writes at the positions `mine`. */
  function WritesIn(c: Checker, tr: seq<Event>, mine: set<nat>): seq<Attributed> {
    if tr == [] then []
    else
      var n := |tr| - 1;
      WritesIn(c, tr[..n], mine) + if n in mine && IsWrite(c, tr[n]) then [LastWrite(c, tr)] else []
  }

  lemma {:induction false} ShareOfRun(c: Checker, tr: seq<Event>, mine: set<nat>)
    ensures forall w | w in WritesIn(c, tr, mine) :: w in Run(c, tr).writes
  {
    if tr != [] {
      ShareOfRun(c, tr[..|tr| - 1], mine);
      WritesGrow(c, tr);
    }
  }

  /** A write runs under the id held before it. */
  lemma WriteKeepsId(c: Checker, tr: seq<Event>)
    requires tr != [] && IsWrite(c, tr[|tr| - 1])
    ensures var t := tr[|tr| - 1].thread; Held(c, tr, t) == Held(c, tr[..|tr| - 1], t)
  {
  }

  lemma {:induction false} ShareMatches(c: Checker, tr: seq<Event>, mine: set<nat>)
    ensures Matches(Part(c, tr, mine), WritesIn(c, tr, mine), |tr|)
  {
    if tr != [] {
      var n, e := |tr| - 1, tr[|tr| - 1];
      ShareMatches(c, tr[..n], mine);
      ShareStep(c, tr, mine, Part(c, tr[..n], mine), WritesIn(c, tr[..n], mine));
    }
  }

  lemma ShareStep(c: Checker, tr: seq<Event>, mine: set<nat>, rs: seq<Record>, ws: seq<Attributed>)
    requires tr != [] && Matches(rs, ws, |tr| - 1)
    ensures var n, e := |tr| - 1, tr[|tr| - 1];
            var rs' := rs +
                       if n in mine && e.Exec? then [Record(e.text, c.classify(e.text), Held(c, tr, e.thread))]
                       else [];
            var ws' := ws + if n in mine && IsWrite(c, e) then [LastWrite(c, tr)] else [];
            Matches(rs', ws', |tr|)
  {
    var n, e := |tr| - 1, tr[|tr| - 1];
    if n in mine && e.Exec? {
      var r := Record(e.text, c.classify(e.text), Held(c, tr, e.thread));
      if IsWrite(c, e) {
        WriteKeepsId(c, tr);
        MatchWrite(rs, ws, n, r, LastWrite(c, tr));
      } else {
        MatchOther(rs, ws, n, r);
        assert ws + [] == ws;
      }
    } else {
      assert rs + [] == rs && ws + [] == ws;
    }
  }

  /** What a boundary with this share counts is the number of client units of its writes. */
  lemma ShareCount(c: Checker, tr: seq<Event>, mine: set<nat>, mark: Option<Mark>, cap: int)
    ensures RecordedAll(Opened(mark), cap, Part(c, tr, mine)).Units() == |Units(WritesIn(c, tr, mine))|
  {
    LedgerOfTimeline(mark, cap, Part(c, tr, mine));
    ShareMatches(c, tr, mine);
  }

  /** The identities the server gave to the share's writes. */
  function ServerIds(c: Checker, tr: seq<Event>, mine: set<nat>): set<string> {
    ShownTags(WritesIn(c, tr, mine))
  }

  lemma ShareUnits(c: Checker, tr: seq<Event>, mine: set<nat>)
    requires Decimal(tr) && Drawn(c, tr) < U64 && forall e | e in tr :: Intact(c, e)
    ensures |Units(WritesIn(c, tr, mine))| <= |ServerIds(c, tr, mine)|
  {
    Holds(c, tr);
    ShareOfRun(c, tr, mine);
    TagThreads(c, tr);
    AsManyIffInjective(WritesIn(c, tr, mine));
    ShownCount(WritesIn(c, tr, mine));
  }

  /** A violation of a boundary with any share of any run: the server ran the share's writes in at least as
      many transactions. */
  lemma ShareViolation(c: Checker, tr: seq<Event>, mine: set<nat>, who: Subject, mark: Option<Mark>, cap: int,
                       list: Option<Entries>)
    requires Decimal(tr) && Drawn(c, tr) < U64 && forall e | e in tr :: Intact(c, e)
    ensures var v := Verdict(who, RecordedAll(Opened(mark), cap, Part(c, tr, mine)), list);
            v.Some? && v.value.Violation? ==> 2 <= v.value.writeUnits <= |ServerIds(c, tr, mine)|
  {
    ShareCount(c, tr, mine, mark, cap);
    ShareUnits(c, tr, mine);
    VerdictCases(who, RecordedAll(Opened(mark), cap, Part(c, tr, mine)), list);
  }

  // ----- a segment of the log -------------------------------------------------------------------

  /** What the last event of the trace adds to the parsed log. */
  function LastLogged(c: Checker, tr: seq<Event>): seq<Statement>
    requires tr != []
  {
    var n, e := |tr| - 1, tr[|tr| - 1];
    Statements(Step(c, LogEntry(e), ConnOf(Run(c, tr[..n]), e.thread).st).1)
  }

  lemma LoggedSnoc(c: Checker, tr: seq<Event>)
    requires tr != []
    ensures Logged(c, tr) == Logged(c, tr[..|tr| - 1]) + LastLogged(c, tr)
  {
    var n, e := |tr| - 1, tr[|tr| - 1];
    var r := Replay(c, Log(tr[..n]));
    SameState(c, tr[..n], e.thread);
    LogSnoc(tr);
    StatementsConcat(r.out, Step(c, LogEntry(e), StateOf(r.states, e.thread)).1);
  }

  lemma LastLoggedIs(c: Checker, tr: seq<Event>)
    requires tr != [] && Intact(c, tr[|tr| - 1])
    ensures var e, more := tr[|tr| - 1], LastLogged(c, tr);
            && (e.Quit? <==> more == []) && (!e.Quit? ==> |more| == 1 && more[0].sql == e.text)
            && (|more| == 1 ==> (more[0].kind == Write <==> IsWrite(c, e)))
            && (IsWrite(c, e) ==> more[0].txID == LastWrite(c, tr).tag.Show())
  {
  }

  /** The log of the trace from event `from` on. */
  function Since(c: Checker, tr: seq<Event>, from: nat): seq<Statement>
    requires from <= |tr|
  {
    if from == |tr| then [] else Since(c, tr[..|tr| - 1], from) + LastLogged(c, tr)
  }

  lemma {:induction false} LoggedCut(c: Checker, tr: seq<Event>, from: nat)
    requires from <= |tr|
    ensures Logged(c, tr) == Logged(c, tr[..from]) + Since(c, tr, from)
    decreases |tr|
  {
    if from == |tr| {
      assert tr[..from] == tr;
    } else {
      var front := tr[..|tr| - 1];
      assert front[..from] == tr[..from];
      LoggedCut(c, front, from);
      LoggedSnoc(c, tr);
      Regroup(Logged(c, tr[..from]), Since(c, front, from), LastLogged(c, tr));
    }
  }

  lemma Regroup<T>(a: seq<T>, b: seq<T>, c: seq<T>)
    ensures (a + b) + c == a + (b + c)
  {
  }

  lemma WritesMore(ss: seq<Statement>, s: Statement)
    ensures Writes(ss + [s]) == Writes(ss) + if s.kind == Write then [s] else []
  {
    assert (ss + [s])[..|ss|] == ss;
  }

  lemma AddStatement(ss: seq<Statement>, s: Statement)
    ensures IdSet(Writes(ss + [s])) == IdSet(Writes(ss)) + if s.kind == Write then {s.txID} else {}
  {
    WritesMore(ss, s);
    if s.kind == Write {
      assert IdSet(Writes(ss) + [s]) == IdSet(Writes(ss)) + {s.txID};
    }
  }

  /** The identities of a segment's writes are those of the writes at its positions. */
  lemma {:induction false} SegmentIds(c: Checker, tr: seq<Event>, from: nat, mine: set<nat>)
    requires from <= |tr| && forall i: nat | i < |tr| :: i in mine <==> from <= i
    requires forall e | e in tr :: Intact(c, e)
    ensures IdSet(Writes(Since(c, tr, from))) == ServerIds(c, tr, mine)
    decreases |tr|
  {
    if from == |tr| {
      NoWritesIn(c, tr, mine);
    } else {
      var n, e := |tr| - 1, tr[|tr| - 1];
      var ss, ws := Since(c, tr[..n], from), WritesIn(c, tr[..n], mine);
      assert e in tr && forall x | x in tr[..n] :: x in tr;
      SegmentIds(c, tr[..n], from, mine);
      LastLoggedIs(c, tr);
      if e.Quit? {
        assert ss + [] == ss && ws + [] == ws;
      } else {
        AddStatement(ss, LastLogged(c, tr)[0]);
        if IsWrite(c, e) {
          AddShown(ws, LastWrite(c, tr));
        } else {
          assert ws + [] == ws;
        }
      }
    }
  }

  lemma {:induction false} NoWritesIn(c: Checker, tr: seq<Event>, mine: set<nat>)
    requires forall i: nat | i < |tr| :: i !in mine
    ensures WritesIn(c, tr, mine) == []
  {
    if tr != [] {
      NoWritesIn(c, tr[..|tr| - 1], mine);
    }
  }

  lemma {:induction false} WritesInCut(c: Checker, tr: seq<Event>, mine: set<nat>, front: seq<Event>)
    requires front <= tr && forall i | i in mine :: i < |front|
    ensures WritesIn(c, tr, mine) == WritesIn(c, front, mine)
  {
    if |front| < |tr| {
      WritesInCut(c, tr[..|tr| - 1], mine, front);
    } else {
      assert front == tr;
    }
  }

  /** No event of the trace from `from` on has the text in its statement. */
  predicate Lacks(tr: seq<Event>, from: nat, lit: string) {
    forall i | from <= i < |tr| :: tr[i].Quit? || !Contains(tr[i].text, lit)
  }

  lemma {:induction false} SegmentLacks(c: Checker, tr: seq<Event>, from: nat, lit: string)
    requires from <= |tr| && Lacks(tr, from, lit) && forall e | e in tr :: Intact(c, e)
    ensures S.NoneWith(Since(c, tr, from), lit, 0)
    decreases |tr|
  {
    if from < |tr| {
      var n := |tr| - 1;
      assert tr[n] in tr && forall x | x in tr[..n] :: x in tr;
      assert Lacks(tr[..n], from, lit);
      SegmentLacks(c, tr[..n], from, lit);
      LastLoggedIs(c, tr);
      AppendLacks(Since(c, tr[..n], from), LastLogged(c, tr), lit);
    }
  }

  lemma AppendLacks(ss: seq<Statement>, more: seq<Statement>, lit: string)
    requires S.NoneWith(ss, lit, 0) && |more| <= 1 && (|more| == 1 ==> !Contains(more[0].sql, lit))
    ensures S.NoneWith(ss + more, lit, 0)
  {
    assert forall j | 0 <= j < |ss| :: (ss + more)[j] == ss[j];
    assert |more| == 1 ==> (ss + more)[|ss|] == more[0];
  }

  // ----- a scenario between its markers ---------------------------------------------------------

  /** The trace runs the begin marker at `lo` and the end marker at `hi`, and no marker of that name that
      could be taken for them. */
  predicate Marked(tr: seq<Event>, lo: nat, hi: nat, name: string) {
    && lo < hi < |tr|
    && tr[lo].Exec? && tr[lo].text == S.BeginMarker(name)
    && tr[hi].Exec? && tr[hi].text == S.EndMarker(name)
    && Lacks(tr[..lo], 0, S.MarkerLiteral("begin", name))
    && Lacks(tr[..hi], lo + 1, S.MarkerLiteral("end", name))
  }

  /** The positions strictly between. */
  function Between(lo: nat, hi: nat): (mine: set<nat>)
    ensures forall i: nat :: i in mine <==> lo < i < hi
  {
    if hi <= lo + 1 then {} else Between(lo, hi - 1) + {hi - 1}
  }

  /** Cutting the log out by the markers gives the statements of the events between them. */
  lemma MarkersCut(c: Checker, tr: seq<Event>, lo: nat, hi: nat, name: string)
    requires Marked(tr, lo, hi, name) && forall e | e in tr :: Intact(c, e)
    ensures S.IsSlice(Logged(c, tr), name, S.Sliced(Since(c, tr[..hi], lo + 1)))
  {
    LogUpTo(c, tr, lo, hi);
    LogBeyond(c, tr, hi);
    FirstPart(c, tr, lo, S.MarkerLiteral("begin", name));
    assert forall e | e in tr[..hi] :: e in tr;
    SegmentLacks(c, tr[..hi], lo + 1, S.MarkerLiteral("end", name));
    Markers.SlicesInner(Logged(c, tr[..lo]), StatementAt(c, tr, lo), Since(c, tr[..hi], lo + 1),
                        StatementAt(c, tr, hi), Since(c, tr, hi + 1), name);
  }

  lemma FirstPart(c: Checker, tr: seq<Event>, lo: nat, lit: string)
    requires lo <= |tr| && Lacks(tr[..lo], 0, lit) && forall e | e in tr :: Intact(c, e)
    ensures S.NoneWith(Logged(c, tr[..lo]), lit, 0)
  {
    assert forall e | e in tr[..lo] :: e in tr;
    SegmentLacks(c, tr[..lo], 0, lit);
    LoggedCut(c, tr[..lo], 0);
    assert Logged(c, tr[..lo][..0]) == [];
  }

  /** The statement the event at `i` is logged as. */
  function StatementAt(c: Checker, tr: seq<Event>, i: nat): (s: Statement)
    requires i < |tr| && tr[i].Exec?
    ensures s.sql == tr[i].text
  {
    var e := tr[i];
    var st := ConnOf(Run(c, tr[..i]), e.thread).st;
    Labelled(LogEntry(e), c.classify(e.text),
             Execute(e.thread, c.classify(e.text), c.implicitCommit(e.text), st).1).ToStatement()
  }

  lemma LogAt(c: Checker, tr: seq<Event>, i: nat)
    requires i < |tr| && tr[i].Exec?
    ensures Logged(c, tr[..i + 1]) == Logged(c, tr[..i]) + [StatementAt(c, tr, i)]
  {
    assert tr[..i + 1][..i] == tr[..i];
    LoggedSnoc(c, tr[..i + 1]);
  }

  lemma LogUpTo(c: Checker, tr: seq<Event>, lo: nat, hi: nat)
    requires lo < hi < |tr| && tr[lo].Exec?
    ensures Logged(c, tr[..hi]) == Logged(c, tr[..lo]) + [StatementAt(c, tr, lo)] + Since(c, tr[..hi], lo + 1)
  {
    LogAt(c, tr, lo);
    LogCut(c, tr, lo + 1, hi);
  }

  lemma LogBeyond(c: Checker, tr: seq<Event>, hi: nat)
    requires hi < |tr| && tr[hi].Exec?
    ensures Logged(c, tr) == Logged(c, tr[..hi]) + [StatementAt(c, tr, hi)] + Since(c, tr, hi + 1)
  {
    LogAt(c, tr, hi);
    LoggedCut(c, tr, hi + 1);
  }

  lemma LogCut(c: Checker, tr: seq<Event>, from: nat, upTo: nat)
    requires from <= upTo <= |tr|
    ensures Logged(c, tr[..upTo]) == Logged(c, tr[..from]) + Since(c, tr[..upTo], from)
  {
    assert tr[..upTo][..from] == tr[..from];
    LoggedCut(c, tr[..upTo], from);
  }

  /** The write units of what Scenario cuts out are those of the events between the markers. */
  lemma SliceIds(c: Checker, tr: seq<Event>, lo: nat, hi: nat, name: string, slice: seq<Statement>)
    requires Marked(tr, lo, hi, name) && S.IsSlice(Logged(c, tr), name, S.Sliced(slice))
    requires forall e | e in tr :: Intact(c, e)
    ensures IdSet(Writes(slice)) == ServerIds(c, tr, Between(lo, hi))
  {
    MarkersCut(c, tr, lo, hi, name);
    S.SliceIsUnique(Logged(c, tr), name, S.Sliced(slice), S.Sliced(Since(c, tr[..hi], lo + 1)));
    assert forall e | e in tr[..hi] :: e in tr;
    SegmentServerIds(c, tr[..hi], lo, Between(lo, hi));
    ServerIdsCut(c, tr, tr[..hi], Between(lo, hi));
  }

  lemma SegmentServerIds(c: Checker, front: seq<Event>, lo: nat, mine: set<nat>)
    requires lo < |front| && forall i: nat :: i in mine <==> lo < i < |front|
    requires forall e | e in front :: Intact(c, e)
    ensures IdSet(Writes(Since(c, front, lo + 1))) == ServerIds(c, front, mine)
  {
    SegmentIds(c, front, lo + 1, mine);
  }

  lemma ServerIdsCut(c: Checker, tr: seq<Event>, front: seq<Event>, mine: set<nat>)
    requires front <= tr && forall i | i in mine :: i < |front|
    ensures ServerIds(c, tr, mine) == ServerIds(c, front, mine)
  {
    WritesInCut(c, tr, mine, front);
  }

  /** A boundary around a scenario: what Scenario cuts out of the log of any run, whatever ran before, after
      and on other connections, has at least as many write units as the boundary's violation. */
  lemma ScenarioViolation(c: Checker, tr: seq<Event>, lo: nat, hi: nat, name: string, who: Subject,
                          mark: Option<Mark>, cap: int, list: Option<Entries>, slice: seq<Statement>)
    requires Marked(tr, lo, hi, name) && S.IsSlice(Logged(c, tr), name, S.Sliced(slice))
    requires Decimal(tr) && Drawn(c, tr) < U64 && forall e | e in tr :: Intact(c, e)
    ensures var v := Verdict(who, RecordedAll(Opened(mark), cap, Part(c, tr, Between(lo, hi))), list);
            v.Some? && v.value.Violation? ==> 2 <= v.value.writeUnits <= |IdSet(Writes(slice))|
  {
    SliceIds(c, tr, lo, hi, name, slice);
    ShareViolation(c, tr, Between(lo, hi), who, mark, cap, list);
  }
}
