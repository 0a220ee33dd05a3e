/** What the client counts in one boundary against what the server-side check counts in the log of the
    same trace. */
module Agreement {
  import opened Classify
  import opened CrossCheck
  import opened Reconstruct
  import opened Labels
  import opened TxIds
  import opened Ledgers
  import opened Simulation
  import opened Images

  // ----- the client side ----------------------------------------------------------------------

  /** The statements the Session observes, with the ids they are recorded under. */
  function Observed(c: Checker, tr: seq<Event>): seq<Record> {
    if tr == [] then []
    else
      var e := tr[|tr| - 1];
      Observed(c, tr[..|tr| - 1]) +
      if e.Exec? then [Record(e.text, c.classify(e.text), ConnOf(Run(c, tr), e.thread).held)] else []
  }

  /** The units an unfinished boundary that receives the whole trace has accumulated. */
  function ClientUnits(c: Checker, tr: seq<Event>): nat {
    |TxUnits(Observed(c, tr))| + AutoUnits(Observed(c, tr))
  }

  /** As many, and the same transactions. */
  ghost predicate SameUnits(ids: set<u64>, autos: nat, units: set<ClientUnit>) {
    |ids| + autos == |units| && forall x: u64 :: x in ids <==> InTx(x) in units
  }

  /** The recorded statements and the attributed writes describe the same client units. */
  ghost predicate Matches(rs: seq<Record>, ws: seq<Attributed>, n: nat) {
    && SameUnits(TxUnits(rs), AutoUnits(rs), Units(ws))
    && (forall w | w in ws && w.unit.Auto? :: w.unit.index < n)
  }

  lemma AddTx(ids: set<u64>, autos: nat, units: set<ClientUnit>, x: u64)
    requires SameUnits(ids, autos, units)
    ensures SameUnits(ids + {x}, autos, units + {InTx(x)})
  {
    if x in ids {
      assert ids + {x} == ids && units + {InTx(x)} == units;
    }
  }

  lemma AddAuto(ids: set<u64>, autos: nat, units: set<ClientUnit>, n: nat)
    requires SameUnits(ids, autos, units) && Auto(n) !in units
    ensures SameUnits(ids, autos + 1, units + {Auto(n)})
  {
  }

  lemma MatchWrite(rs: seq<Record>, ws: seq<Attributed>, n: nat, r: Record, w: Attributed)
    requires Matches(rs, ws, n) && r.kind == Write
    requires w.unit == if r.txID != 0 then InTx(r.txID) else Auto(n)
    ensures Matches(rs + [r], ws + [w], n + 1)
  {
    UnitsSnoc(rs, r);
    AddOne(ws, w);
    if r.txID != 0 {
      AddTx(TxUnits(rs), AutoUnits(rs), Units(ws), r.txID);
    } else {
      AddAuto(TxUnits(rs), AutoUnits(rs), Units(ws), n);
    }
  }

  lemma MatchOther(rs: seq<Record>, ws: seq<Attributed>, n: nat, r: Record)
    requires Matches(rs, ws, n) && r.kind != Write
    ensures Matches(rs + [r], ws, n + 1)
  {
    UnitsSnoc(rs, r);
  }

  /** The last event of the trace, when it is a write, as both sides see it. */
  function LastWrite(c: Checker, tr: seq<Event>): Attributed
    requires tr != [] && IsWrite(c, tr[|tr| - 1])
  {
    var n, e := |tr| - 1, tr[|tr| - 1];
    var k := ConnOf(Run(c, tr[..n]), e.thread);
    Attributed(if k.held != 0 then InTx(k.held) else Auto(n),
               Execute(e.thread, Write, c.implicitCommit(e.text), k.st).1)
  }

  /** What one event adds to the attributed writes. */
  lemma WritesGrow(c: Checker, tr: seq<Event>)
    requires tr != []
    ensures Run(c, tr).writes ==
            Run(c, tr[..|tr| - 1]).writes + if IsWrite(c, tr[|tr| - 1]) then [LastWrite(c, tr)] else []
  {
  }

  /** What one event adds to the observed statements. */
  lemma ObservedGrow(c: Checker, tr: seq<Event>)
    requires tr != [] && tr[|tr| - 1].Exec?
    ensures var n, e := |tr| - 1, tr[|tr| - 1];
            exists r: Record | r.kind == c.classify(e.text) ::
              && Observed(c, tr) == Observed(c, tr[..n]) + [r]
              && (r.kind == Write ==> r.txID == ConnOf(Run(c, tr[..n]), e.thread).held)
  {
    var n, e := |tr| - 1, tr[|tr| - 1];
    var r := Record(e.text, c.classify(e.text), ConnOf(Run(c, tr), e.thread).held);
    assert Observed(c, tr) == Observed(c, tr[..n]) + [r];
  }

  lemma {:induction false} ClientCount(c: Checker, tr: seq<Event>)
    ensures Matches(Observed(c, tr), Run(c, tr).writes, |tr|)
  {
    if tr != [] {
      var n := |tr| - 1;
      var e := tr[n];
      ClientCount(c, tr[..n]);
      WritesGrow(c, tr);
      ClientCountStep(c, tr, Observed(c, tr[..n]), Run(c, tr[..n]).writes, Run(c, tr).writes);
    }
  }

  lemma ClientCountStep(c: Checker, tr: seq<Event>, rs: seq<Record>, ws: seq<Attributed>, ws': seq<Attributed>)
    requires tr != [] && rs == Observed(c, tr[..|tr| - 1]) && Matches(rs, ws, |tr| - 1)
    requires ws' == ws + if IsWrite(c, tr[|tr| - 1]) then [LastWrite(c, tr)] else []
    ensures Matches(Observed(c, tr), ws', |tr|)
  {
    var n := |tr| - 1;
    var e := tr[n];
    if e.Exec? {
      ObservedGrow(c, tr);
      var r: Record :| r.kind == c.classify(e.text) && Observed(c, tr) == rs + [r] &&
                       (r.kind == Write ==> r.txID == ConnOf(Run(c, tr[..n]), e.thread).held);
      if r.kind == Write {
        MatchWrite(rs, ws, n, r, LastWrite(c, tr));
      } else {
        assert ws' == ws;
        MatchOther(rs, ws, n, r);
      }
    } else {
      assert ws' == ws;
      assert Observed(c, tr) == rs;
    }
  }

  // ----- the server side ----------------------------------------------------------------------

  function Log(tr: seq<Event>): (log: seq<Entry>)
    ensures |log| == |tr|
  {
    seq(|tr|, i requires 0 <= i < |tr| => LogEntry(tr[i]))
  }

  /** What mycheck hands to Check for the trace's log. */
  function Logged(c: Checker, tr: seq<Event>): seq<Statement> {
    Statements(Replay(c, Log(tr)).out)
  }

  /** The distinct identities among the log's writes; Check's WriteUnits. */
  function ServerUnits(c: Checker, tr: seq<Event>): nat {
    |IdSet(Writes(Logged(c, tr)))|
  }

  predicate Decimal(tr: seq<Event>) {
    forall e | e in tr :: IsDecimal(e.thread)
  }

  lemma LogSnoc(tr: seq<Event>)
    requires tr != []
    ensures Log(tr) == Log(tr[..|tr| - 1]) + [LogEntry(tr[|tr| - 1])]
    ensures Log(tr)[..|tr| - 1] == Log(tr[..|tr| - 1])
  {
  }

  lemma WritesSnoc(out: seq<Labelled>, more: seq<Labelled>)
    requires |more| <= 1
    ensures Writes(Statements(out + more)) ==
            Writes(Statements(out)) + (if |more| == 1 && more[0].kind == Write then [more[0].ToStatement()] else [])
  {
    if more == [] {
      assert out + more == out;
    } else {
      var s := Statements(out + more);
      assert s == Statements(out) + [more[0].ToStatement()];
      assert s[..|s| - 1] == Statements(out);
    }
  }

  lemma {:induction false} SameState(c: Checker, tr: seq<Event>, t: string)
    ensures StateOf(Replay(c, Log(tr)).states, t) == ConnOf(Run(c, tr), t).st
  {
    if tr != [] {
      var n := |tr| - 1;
      SameState(c, tr[..n], t);
      SameState(c, tr[..n], tr[n].thread);
      LogSnoc(tr);
    }
  }

  function ShownTags(ws: seq<Attributed>): set<string> {
    set w | w in ws :: w.tag.Show()
  }

  /** What one event adds to the log's writes is what it adds to the attributed writes. */
  lemma LoggedGrows(c: Checker, tr: seq<Event>)
    requires tr != [] && Intact(c, tr[|tr| - 1])
    ensures var n, e := |tr| - 1, tr[|tr| - 1];
            Writes(Logged(c, tr)) == Writes(Logged(c, tr[..n])) +
            if IsWrite(c, e) then [Statement(e.text, Write, LastWrite(c, tr).tag.Show(), 0)] else []
  {
    var n := |tr| - 1;
    var e := tr[n];
    var r := Replay(c, Log(tr[..n]));
    SameState(c, tr[..n], e.thread);
    LogSnoc(tr);
    var (st, more) := Step(c, LogEntry(e), StateOf(r.states, e.thread));
    WritesSnoc(r.out, more);
    assert Replay(c, Log(tr)).out == r.out + more;
  }

  lemma ShowOne(ws: seq<Attributed>, w: Attributed, ls: seq<Statement>, l: Statement)
    requires IdSet(ls) == ShownTags(ws) && l.txID == w.tag.Show()
    ensures IdSet(ls + [l]) == ShownTags(ws + [w])
  {
    AddShown(ws, w);
    assert IdSet(ls + [l]) == IdSet(ls) + {l.txID};
  }

  lemma {:induction false} ServerSide(c: Checker, tr: seq<Event>)
    requires forall e | e in tr :: Intact(c, e)
    ensures IdSet(Writes(Logged(c, tr))) == ShownTags(Run(c, tr).writes)
  {
    if tr != [] {
      var n := |tr| - 1;
      ServerSide(c, tr[..n]);
      LoggedGrows(c, tr);
      WritesGrow(c, tr);
      var ws, ls := Run(c, tr[..n]).writes, Writes(Logged(c, tr[..n]));
      if IsWrite(c, tr[n]) {
        var w := LastWrite(c, tr);
        ShowOne(ws, w, ls, Statement(tr[n].text, Write, w.tag.Show(), 0));
      } else {
        assert Run(c, tr).writes == ws && Writes(Logged(c, tr)) == ls;
      }
    }
  }

  // ----- the counts compared ------------------------------------------------------------------

  lemma {:induction false} TagThreads(c: Checker, tr: seq<Event>)
    requires Decimal(tr)
    ensures forall w | w in Run(c, tr).writes :: IsDecimal(w.tag.thread)
  {
    if tr != [] {
      TagThreads(c, tr[..|tr| - 1]);
      WritesGrow(c, tr);
      assert tr[|tr| - 1] in tr;
    }
  }

  /** Rendering merges no two identities. */
  lemma {:induction false} ShownCount(ws: seq<Attributed>)
    requires forall w | w in ws :: IsDecimal(w.tag.thread)
    ensures |ShownTags(ws)| == |Tags(ws)|
  {
    if ws != [] {
      var front, w := ws[..|ws| - 1], ws[|ws| - 1];
      assert ws == front + [w];
      assert forall v | v in front :: v in ws;
      ShownCount(front);
      AddOne(front, w);
      AddShown(front, w);
      SameMember(front, w);
      BothGrow(ShownTags(front), Tags(front), w.tag.Show(), w.tag);
    }
  }

  lemma AddShown(ws: seq<Attributed>, w: Attributed)
    ensures ShownTags(ws + [w]) == ShownTags(ws) + {w.tag.Show()}
  {
  }

  lemma SameMember(ws: seq<Attributed>, w: Attributed)
    requires IsDecimal(w.tag.thread) && forall v | v in ws :: IsDecimal(v.tag.thread)
    ensures w.tag.Show() in ShownTags(ws) <==> w.tag in Tags(ws)
  {
    if w.tag.Show() in ShownTags(ws) {
      var v :| v in ws && v.tag.Show() == w.tag.Show();
      ShowInjective(v.tag, w.tag);
    }
  }

  /** The server-side check counts exactly one unit more than the client for every split: for every
      write that starts another server unit inside a client transaction that had already written. */
  lemma ServerCountsEverySplit(c: Checker, tr: seq<Event>)
    requires Decimal(tr) && Drawn(c, tr) < U64
    requires forall e | e in tr :: Intact(c, e)
    ensures ServerUnits(c, tr) == ClientUnits(c, tr) + Run(c, tr).splits
  {
    Holds(c, tr);
    ClientCount(c, tr);
    ServerSide(c, tr);
    TagThreads(c, tr);
    ShownCount(Run(c, tr).writes);
  }

  /** Two writes that share a logged identity share the client's unit. */
  lemma ServerUnitsMapOntoClientUnits(c: Checker, tr: seq<Event>, a: Attributed, b: Attributed)
    requires Decimal(tr) && Drawn(c, tr) < U64
    requires forall e | e in tr :: Intact(c, e)
    requires a in Run(c, tr).writes && b in Run(c, tr).writes
    ensures a.tag.Show() == b.tag.Show() ==> a.unit == b.unit
  {
    Holds(c, tr);
    TagThreads(c, tr);
    if a.tag.Show() == b.tag.Show() {
      ShowInjective(a.tag, b.tag);
    }
  }

  /** So a client violation is always a non-atomic report of the server-side check. */
  lemma ClientViolationIsNonAtomic(c: Checker, tr: seq<Event>, rep: Report)
    requires Decimal(tr) && Drawn(c, tr) < U64
    requires forall e | e in tr :: Intact(c, e)
    requires rep.writeUnits == |IdSet(Writes(Logged(c, tr)))|
    ensures ClientUnits(c, tr) <= rep.writeUnits
    ensures ClientUnits(c, tr) >= 2 ==> !rep.Atomic()
  {
    ServerCountsEverySplit(c, tr);
  }

  // ----- exactly when they agree --------------------------------------------------------------

  ghost predicate Injective(ws: seq<Attributed>) {
    forall a, b | a in ws && b in ws && a.unit == b.unit :: a.tag == b.tag
  }

  ghost predicate AsMany(ws: seq<Attributed>) {
    && |Units(ws)| <= |Tags(ws)|
    && (|Units(ws)| == |Tags(ws)| <==> Injective(ws))
  }

  lemma {:induction false} AsManyIffInjective(ws: seq<Attributed>)
    requires Functional(ws)
    ensures AsMany(ws)
  {
    if ws != [] {
      var front, w := ws[..|ws| - 1], ws[|ws| - 1];
      assert ws == front + [w];
      assert forall v | v in front :: v in ws;
      AsManyIffInjective(front);
      if w.tag in Tags(front) {
        SameTag(front, w);
      } else if w.unit in Units(front) {
        SplitTag(front, w);
      } else {
        InjectiveOneMore(front, w);
        AddOne(front, w);
      }
    }
  }

  lemma SameTag(ws: seq<Attributed>, w: Attributed)
    requires Functional(ws + [w]) && AsMany(ws) && w.tag in Tags(ws)
    ensures AsMany(ws + [w])
  {
    var v :| v in ws && v.tag == w.tag;
    assert v in ws + [w] && w in ws + [w];
    assert v.unit == w.unit && v.unit in Units(ws);
    AddOne(ws, w);
    assert Units(ws + [w]) == Units(ws) && Tags(ws + [w]) == Tags(ws);
    InjectiveOneMore(ws, w);
  }

  lemma SplitTag(ws: seq<Attributed>, w: Attributed)
    requires AsMany(ws) && w.tag !in Tags(ws) && w.unit in Units(ws)
    ensures AsMany(ws + [w])
  {
    var v :| v in ws && v.unit == w.unit;
    assert v.tag in Tags(ws);
    assert v in ws + [w] && w in ws + [w];
    AddOne(ws, w);
    assert Units(ws + [w]) == Units(ws);
  }

  lemma InjectiveOneMore(ws: seq<Attributed>, w: Attributed)
    requires w.unit in Units(ws) ==> exists v | v in ws :: v.unit == w.unit && v.tag == w.tag
    ensures Injective(ws + [w]) <==> Injective(ws)
  {
    assert forall v | v in ws :: v in ws + [w];
    if Injective(ws) {
      forall a, b | a in ws + [w] && b in ws + [w] && a.unit == b.unit ensures a.tag == b.tag {
        assert a in ws ==> a.unit in Units(ws);
        assert b in ws ==> b.unit in Units(ws);
      }
    }
  }

  /** The two counts agree exactly on the traces without a split, and then client units and logged
      identities of writes correspond one to one. */
  lemma CountsAgreeIffNoSplit(c: Checker, tr: seq<Event>)
    requires Decimal(tr) && Drawn(c, tr) < U64
    requires forall e | e in tr :: Intact(c, e)
    ensures ServerUnits(c, tr) == ClientUnits(c, tr) <==> Run(c, tr).splits == 0
    ensures ServerUnits(c, tr) == ClientUnits(c, tr) <==>
            forall a, b | a in Run(c, tr).writes && b in Run(c, tr).writes ::
              a.unit == b.unit <==> a.tag == b.tag
  {
    ServerCountsEverySplit(c, tr);
    Holds(c, tr);
    AsManyIffInjective(Run(c, tr).writes);
  }

  /** The statement disturbs the server's view of an open client transaction: a textual BEGIN, or an
      implicit commit. */
  predicate Disturbs(c: Checker, e: Event, held: u64) {
    e.Exec? && held != 0 &&
    (var kind := c.classify(e.text);
     kind == Begin || (kind != Commit && kind != Rollback && c.implicitCommit(e.text)))
  }

  predicate Undisturbed(c: Checker, tr: seq<Event>) {
    forall i | 0 <= i < |tr| :: !Disturbs(c, tr[i], ConnOf(Run(c, tr[..i]), tr[i].thread).held)
  }

  predicate Whole(p: Phase) {
    p.Open? ==> p.joined && !p.before
  }

  lemma StaysWhole(c: Checker, e: Event, k: Conn)
    requires Whole(k.phase) && (k.held == 0 <==> k.phase.Closed?) && !Disturbs(c, e, k.held)
    ensures Whole(PhaseStep(c, e, k.phase)) && !SplitsHere(c, e, k.phase)
  {
  }

  ghost predicate AllWhole(j: Joint) {
    forall t :: Whole(ConnOf(j, t).phase)
  }

  lemma AdvanceWhole(c: Checker, e: Event, n: nat, j: Joint)
    requires Inv(j, n) && AllWhole(j) && !Disturbs(c, e, ConnOf(j, e.thread).held)
    ensures AllWhole(Advance(c, e, n, j)) && Advance(c, e, n, j).splits == j.splits
  {
    HeldIffOpen(j, n, e.thread);
    StaysWhole(c, e, ConnOf(j, e.thread));
    AdvancePhases(c, e, n, j);
  }

  /** A trace on which no textual BEGIN and no implicit commit runs inside an open transaction has no
      split; a driver-level begin inside one is harmless, being a new unit on both sides. */
  lemma {:induction false} UndisturbedHasNoSplit(c: Checker, tr: seq<Event>)
    requires Drawn(c, tr) < U64 && Undisturbed(c, tr)
    requires forall e | e in tr :: Intact(c, e)
    ensures Run(c, tr).splits == 0
    ensures AllWhole(Run(c, tr))
  {
    if tr != [] {
      var n := |tr| - 1;
      assert forall i | 0 <= i < n :: tr[..n][..i] == tr[..i];
      UndisturbedHasNoSplit(c, tr[..n]);
      Holds(c, tr[..n]);
      AdvanceWhole(c, tr[n], n, Run(c, tr[..n]));
    }
  }

  lemma HeldIffOpen(j: Joint, n: nat, t: string)
    requires Inv(j, n)
    ensures ConnOf(j, t).held == 0 <==> ConnOf(j, t).phase.Closed?
  {
    assert ConnOk(j, t);
  }

  lemma AdvancePhases(c: Checker, e: Event, n: nat, j: Joint)
    ensures ConnOf(Advance(c, e, n, j), e.thread).phase == PhaseStep(c, e, ConnOf(j, e.thread).phase)
    ensures forall t | t != e.thread :: ConnOf(Advance(c, e, n, j), t) == ConnOf(j, t)
    ensures !SplitsHere(c, e, ConnOf(j, e.thread).phase) ==> Advance(c, e, n, j).splits == j.splits
  {
  }

  /** The two conditions together: without a disturbance the counts agree. */
  lemma UndisturbedCountsAgree(c: Checker, tr: seq<Event>)
    requires Decimal(tr) && Drawn(c, tr) < U64 && Undisturbed(c, tr)
    requires forall e | e in tr :: Intact(c, e)
    ensures ServerUnits(c, tr) == ClientUnits(c, tr)
  {
    UndisturbedHasNoSplit(c, tr);
    CountsAgreeIffNoSplit(c, tr);
  }

  // ----- the documented false negative --------------------------------------------------------

  lemma BeginWrite(c: Checker, t: string, begin: string, write: string)
    requires c.classify(begin) == Begin && c.classify(write) == Write && !c.implicitCommit(write)
    ensures var j := Run(c, [Exec(t, begin), Exec(t, write)]);
            && ConnOf(j, t) == Conn(1, ThreadState(true, 1, 2), Open(true, true, false))
            && j.writes == [Attributed(InTx(1), Tx(t, 1))] && j.splits == 0
  {
    var j1 := Advance(c, Exec(t, begin), 0, Run(c, []));
    assert ConnOf(j1, t) == Conn(1, ThreadState(true, 1, 1), Open(true, false, false));
    RunSnoc(c, [], Exec(t, begin));
    RunSnoc(c, [Exec(t, begin)], Exec(t, write));
    assert [Exec(t, begin)] + [Exec(t, write)] == [Exec(t, begin), Exec(t, write)];
  }

  /** BEGIN, write, BEGIN, write on one connection: one unit for the client, two for the server. */
  lemma TextualBeginSplits(c: Checker, t: string, begin: string, write: string)
    requires IsDecimal(t)
    requires c.classify(begin) == Begin && c.classify(write) == Write && !c.implicitCommit(write)
    ensures var tr := [Exec(t, begin), Exec(t, write), Exec(t, begin), Exec(t, write)];
            Run(c, tr).splits == 1 && ClientUnits(c, tr) == 1 && ServerUnits(c, tr) == 2
  {
    var tr2 := [Exec(t, begin), Exec(t, write)];
    var tr3 := tr2 + [Exec(t, begin)];
    var tr4 := tr3 + [Exec(t, write)];
    BeginWrite(c, t, begin, write);
    BeginAgain(c, t, Run(c, tr2), begin, write);
    RunSnoc(c, tr2, Exec(t, begin));
    RunSnoc(c, tr3, Exec(t, write));
    assert tr4 == [Exec(t, begin), Exec(t, write), Exec(t, begin), Exec(t, write)];
    CountOne(c, tr4, InTx(1));
  }

  lemma BeginAgain(c: Checker, t: string, j: Joint, begin: string, write: string)
    requires c.classify(begin) == Begin && c.classify(write) == Write && !c.implicitCommit(write)
    requires ConnOf(j, t) == Conn(1, ThreadState(true, 1, 2), Open(true, true, false))
    ensures var j' := Advance(c, Exec(t, write), 3, Advance(c, Exec(t, begin), 2, j));
            && j'.writes == j.writes + [Attributed(InTx(1), Tx(t, 2))]
            && j'.splits == j.splits + 1
  {
    var j3 := Advance(c, Exec(t, begin), 2, j);
    assert ConnOf(j3, t) == Conn(1, ThreadState(true, 2, 3), Open(true, false, true));
  }

  lemma DdlWrite(c: Checker, t: string, j: Joint, ddl: string, write: string)
    requires c.classify(ddl) == Write && c.implicitCommit(ddl) && c.classify(write) == Write && !c.implicitCommit(write)
    requires ConnOf(j, t) == Conn(1, ThreadState(true, 1, 2), Open(true, true, false))
    ensures var j' := Advance(c, Exec(t, write), 3, Advance(c, Exec(t, ddl), 2, j));
            && j'.writes == j.writes + [Attributed(InTx(1), Stmt(t, 3))] + [Attributed(InTx(1), Stmt(t, 4))]
            && j'.splits == j.splits + 2
  {
    var j3 := Advance(c, Exec(t, ddl), 2, j);
    assert ConnOf(j3, t) == Conn(1, ThreadState(false, 1, 3), Open(false, false, true));
  }

  lemma CommitKeeps(c: Checker, t: string, commit: string, j: Joint)
    requires c.classify(commit) == Commit
    ensures var j' := Advance(c, Exec(t, commit), 4, j); j'.writes == j.writes && j'.splits == j.splits
  {
  }

  function DdlTrace(t: string, begin: string, write: string, ddl: string, commit: string): seq<Event> {
    [Exec(t, begin), Exec(t, write), Exec(t, ddl), Exec(t, write), Exec(t, commit)]
  }

  lemma RunDdlTrace(c: Checker, t: string, begin: string, write: string, ddl: string, commit: string)
    requires c.classify(begin) == Begin && c.classify(commit) == Commit
    requires c.classify(write) == Write && !c.implicitCommit(write)
    requires c.classify(ddl) == Write && c.implicitCommit(ddl)
    ensures var j := Run(c, DdlTrace(t, begin, write, ddl, commit));
            j.splits == 2 && j.writes != [] && forall w | w in j.writes :: w.unit == InTx(1)
  {
    var tr2 := [Exec(t, begin), Exec(t, write)];
    var tr3 := tr2 + [Exec(t, ddl)];
    var tr4 := tr3 + [Exec(t, write)];
    BeginWrite(c, t, begin, write);
    DdlWrite(c, t, Run(c, tr2), ddl, write);
    RunSnoc(c, tr2, Exec(t, ddl));
    RunSnoc(c, tr3, Exec(t, write));
    RunSnoc(c, tr4, Exec(t, commit));
    CommitKeeps(c, t, commit, Run(c, tr4));
    assert tr4 + [Exec(t, commit)] == DdlTrace(t, begin, write, ddl, commit);
  }

  /** BEGIN, write, DDL, write, COMMIT on one connection: one unit for the client, three for the server. */
  lemma ImplicitCommitSplitsInThree(c: Checker, t: string, begin: string, write: string, ddl: string, commit: string)
    requires IsDecimal(t)
    requires c.classify(begin) == Begin && c.classify(commit) == Commit
    requires c.classify(write) == Write && !c.implicitCommit(write)
    requires c.classify(ddl) == Write && c.implicitCommit(ddl)
    ensures var tr := DdlTrace(t, begin, write, ddl, commit); ClientUnits(c, tr) == 1 && ServerUnits(c, tr) == 3
  {
    RunDdlTrace(c, t, begin, write, ddl, commit);
    CountOne(c, DdlTrace(t, begin, write, ddl, commit), InTx(1));
  }

  /** A trace all of whose writes are one client unit. */
  lemma CountOne(c: Checker, tr: seq<Event>, u: ClientUnit)
    requires Decimal(tr) && |tr| < U64 && forall e | e in tr :: Intact(c, e)
    requires Run(c, tr).writes != [] && forall w | w in Run(c, tr).writes :: w.unit == u
    ensures ClientUnits(c, tr) == 1 && ServerUnits(c, tr) == 1 + Run(c, tr).splits
  {
    DrawsAtMostOnce(c, tr);
    ServerCountsEverySplit(c, tr);
    ClientCount(c, tr);
    OneUnit(Run(c, tr).writes, u);
  }

  lemma OneUnit(ws: seq<Attributed>, u: ClientUnit)
    requires ws != [] && forall w | w in ws :: w.unit == u
    ensures |Units(ws)| == 1
  {
    assert ws[0] in ws;
    assert Units(ws) == {u};
  }

  lemma RunSnoc(c: Checker, tr: seq<Event>, e: Event)
    ensures [] + [e] == [e]
    ensures Run(c, tr + [e]) == Advance(c, e, |tr|, Run(c, tr))
  {
    assert (tr + [e])[..|tr|] == tr;
  }

  lemma {:induction false} DrawsAtMostOnce(c: Checker, tr: seq<Event>)
    ensures Drawn(c, tr) <= |tr|
  {
    if tr != [] {
      DrawsAtMostOnce(c, tr[..|tr| - 1]);
    }
  }
}
