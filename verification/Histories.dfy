/** The reconstruction read independently of its state machine: which entries yield statements, and which
    identity each statement has, said in terms of what the log holds before it. */
module Histories {
  import opened Classify
  import opened Decimals
  import opened Filters
  import opened Labels
  import opened Reconstruct

  // ----- which entries yield statements ---------------------------------------------------------

  /** The two commands that carry an executed statement. */
  function Runs(): Entry -> bool {
    (e: Entry) => e.command == "Query" || e.command == "Execute"
  }

  /** The entries behind the statements. */
  function Sources(out: seq<Labelled>): (es: seq<Entry>)
    ensures |es| == |out| && forall i | 0 <= i < |out| :: es[i] == out[i].entry
  {
    seq(|out|, i requires 0 <= i < |out| => out[i].entry)
  }

  lemma SourcesSnoc(out: seq<Labelled>, o: Labelled)
    ensures Sources(out + [o]) == Sources(out) + [o.entry]
    ensures Sources(out + []) == Sources(out)
  {
    assert out + [] == out;
  }

  /** One statement for every "Query" and every "Execute" entry, in order, and none for any other. */
  lemma {:induction false} ExecutedEntries(c: Checker, es: seq<Entry>)
    ensures IsFilter(es, Runs(), Sources(Replay(c, es).out))
  {
    if es == [] {
      FilterNone(Runs());
    } else {
      var front, e := es[..|es| - 1], es[|es| - 1];
      var r := Replay(c, front);
      assert es == front + [e];
      ExecutedEntries(c, front);
      StepRuns(c, e, StateOf(r.states, e.thread));
      var more := Step(c, e, StateOf(r.states, e.thread)).1;
      FilterSnoc(front, e, Runs(), Sources(r.out));
      if more == [] {
        assert r.out + more == r.out;
      } else {
        SourcesSnoc(r.out, more[0]);
        assert more == [more[0]];
      }
    }
  }

  lemma StepRuns(c: Checker, e: Entry, st: ThreadState)
    ensures var more := Step(c, e, st).1;
            if e.command == "Query" || e.command == "Execute" then |more| == 1 && more[0].entry == e else more == []
  {
  }

  lemma {:induction false} KindsOfTexts(c: Checker, es: seq<Entry>)
    ensures forall o | o in Replay(c, es).out :: o.kind == c.classify(o.entry.text)
  {
    if es != [] {
      KindsOfTexts(c, es[..|es| - 1]);
    }
  }

  /** What the statements say besides their identities: text and line of their entries, and the kind of the
      text. */
  lemma StatementsSay(c: Checker, es: seq<Entry>)
    ensures var ss, src := Statements(Replay(c, es).out), Sources(Replay(c, es).out);
            |ss| == |src| && forall i | 0 <= i < |ss| ::
              ss[i].sql == src[i].text && ss[i].line == src[i].line && ss[i].kind == c.classify(src[i].text)
  {
    KindsOfTexts(c, es);
    var out := Replay(c, es).out;
    assert forall i | 0 <= i < |out| :: out[i] in out;
  }

  // ----- which identity a statement has ---------------------------------------------------------

  predicate IsBegin(c: Checker, e: Entry) {
    Runs()(e) && c.classify(e.text) == Begin
  }

  predicate EndsTx(c: Checker, e: Entry) {
    Runs()(e) && (c.classify(e.text) == Commit || c.classify(e.text) == Rollback)
  }

  predicate ImplicitlyEndsTx(c: Checker, e: Entry) {
    Runs()(e) && !IsBegin(c, e) && !EndsTx(c, e) && c.implicitCommit(e.text)
  }

  /** After the entry no transaction is open. */
  predicate Closes(c: Checker, e: Entry) {
    e.command == "Quit" || EndsTx(c, e) || ImplicitlyEndsTx(c, e)
  }

  predicate OpenSince(c: Checker, es: seq<Entry>, i: nat) {
    i < |es| && IsBegin(c, es[i]) && forall j | i < j < |es| :: !Closes(c, es[j])
  }

  /** The thread is inside a transaction: a BEGIN, and nothing since that closes one. */
  ghost predicate Open(c: Checker, es: seq<Entry>) {
    exists i: nat :: OpenSince(c, es, i)
  }

  function Begins(c: Checker): Entry -> bool {
    (e: Entry) => IsBegin(c, e)
  }

  /** The identity of the next statement `e` of a thread whose entries so far are `es`. */
  ghost function Named(c: Checker, es: seq<Entry>, e: Entry): Label {
    if IsBegin(c, e) then Tx(e.thread, Rank(es, Begins(c)) + 1)
    else if Open(c, es) && !ImplicitlyEndsTx(c, e) then Tx(e.thread, Rank(es, Begins(c)))
    else Stmt(e.thread, Rank(es, Runs()) + 1)
  }

  /** The name as the report shows it, and the number behind it. */
  lemma NameSays(c: Checker, es: seq<Entry>, e: Entry)
    ensures var begun, run := Rank(es, Begins(c)), Rank(es, Runs());
            var (text, n) := if IsBegin(c, e) then (" tx ", begun + 1)
                             else if Open(c, es) && !ImplicitlyEndsTx(c, e) then (" tx ", begun)
                             else (" stmt ", run + 1);
            var name := Named(c, es, e).Show();
            && "thread " + e.thread + text <= name
            && Value10(name[|"thread " + e.thread + text|..]) == n
  {
    var (text, n) := match Named(c, es, e) case Tx(_, n) => (" tx ", n) case Stmt(_, n) => (" stmt ", n);
    var head := "thread " + e.thread + text;
    ShowValue(n);
    assert (head + Show10(n))[|head|..] == Show10(n);
  }

  lemma OpenSnoc(c: Checker, es: seq<Entry>, e: Entry)
    ensures Open(c, es + [e]) <==> IsBegin(c, e) || (Open(c, es) && !Closes(c, e))
  {
    var all := es + [e];
    assert all[|es|] == e && forall j | 0 <= j < |es| :: all[j] == es[j];
    if IsBegin(c, e) {
      assert OpenSince(c, all, |es|);
    } else if Open(c, es) && !Closes(c, e) {
      var i: nat :| OpenSince(c, es, i);
      assert OpenSince(c, all, i);
    }
    if Open(c, all) && !IsBegin(c, e) {
      var i: nat :| OpenSince(c, all, i);
      assert OpenSince(c, es, i);
    }
  }

  lemma RankSnoc<T>(s: seq<T>, x: T, p: T -> bool)
    ensures Rank(s + [x], p) == Rank(s, p) + if p(x) then 1 else 0
  {
    assert (s + [x])[..|s|] == s;
  }

  /** The state the machine is in after a thread's entries. */
  ghost function History(c: Checker, es: seq<Entry>): ThreadState {
    ThreadState(Open(c, es), Rank(es, Begins(c)), Rank(es, Runs()))
  }

  /** One step of the machine, by what the entry is. */
  lemma StepIs(c: Checker, e: Entry, open: bool, begun: nat, run: nat)
    ensures Step(c, e, ThreadState(open, begun, run)) ==
            (ThreadState(IsBegin(c, e) || (open && !Closes(c, e)),
                         begun + (if IsBegin(c, e) then 1 else 0), run + (if Runs()(e) then 1 else 0)),
             if Runs()(e) then [Labelled(e, c.classify(e.text), NameFrom(c, e, open, begun, run))] else [])
  {
  }

  function NameFrom(c: Checker, e: Entry, open: bool, begun: nat, run: nat): Label {
    if IsBegin(c, e) then Tx(e.thread, begun + 1)
    else if open && !ImplicitlyEndsTx(c, e) then Tx(e.thread, begun)
    else Stmt(e.thread, run + 1)
  }

  lemma HistorySnoc(c: Checker, es: seq<Entry>, e: Entry)
    ensures var h := History(c, es);
            History(c, es + [e]) ==
            ThreadState(IsBegin(c, e) || (h.inTx && !Closes(c, e)),
                        h.txSeq + (if IsBegin(c, e) then 1 else 0), h.stmtSeq + (if Runs()(e) then 1 else 0))
  {
    OpenSnoc(c, es, e);
    RankSnoc(es, e, Begins(c));
    RankSnoc(es, e, Runs());
  }

  /** One step of the machine, against the history. */
  lemma StepIsNamed(c: Checker, es: seq<Entry>, e: Entry)
    ensures var (st, more) := Step(c, e, History(c, es));
            && st == History(c, es + [e])
            && more == if e.command == "Query" || e.command == "Execute"
                       then [Labelled(e, c.classify(e.text), Named(c, es, e))] else []
  {
    var h := History(c, es);
    HistorySnoc(c, es, e);
    StepIs(c, e, h.inTx, h.txSeq, h.stmtSeq);
    assert Named(c, es, e) == NameFrom(c, e, h.inTx, h.txSeq, h.stmtSeq);
  }

  lemma {:induction false} StateIsHistory(c: Checker, es: seq<Entry>, thread: string)
    requires forall e | e in es :: e.thread == thread
    ensures StateOf(Replay(c, es).states, thread) == History(c, es)
  {
    if es != [] {
      var front, e := es[..|es| - 1], es[|es| - 1];
      assert es == front + [e] && e in es;
      StateIsHistory(c, front, thread);
      StepIsNamed(c, front, e);
    }
  }

  /** In every log, whatever the interleaving: the statement of the entry at `k` is named by what its own
      thread did before it. */
  lemma IdentityByHistory(c: Checker, es: seq<Entry>, k: nat)
    requires k < |es|
    ensures var e := es[k];
            Replay(c, es[..k + 1]).out == Replay(c, es[..k]).out +
            if e.command == "Query" || e.command == "Execute"
            then [Labelled(e, c.classify(e.text), Named(c, EntriesOf(es[..k], e.thread), e))] else []
  {
    var mine := EntriesOf(es[..k], es[k].thread);
    ReplaySnoc(c, es, k);
    NonInterference(c, es[..k], es[k].thread);
    OnlyThread(es[..k], es[k].thread);
    StateIsHistory(c, mine, es[k].thread);
    StepIsNamed(c, mine, es[k]);
  }
}
