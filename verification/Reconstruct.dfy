/** mycheck's transaction reconstruction: every thread's entries replayed through a small state
    machine that synthesizes one identity per statement. */
module Reconstruct {
  import opened Classify
  import opened CrossCheck
  import opened Decimals

  /** What the replay asks about a statement's text. Nothing below depends on the two answers. */
  datatype Checker = Checker(classify: string -> Kind, implicitCommit: string -> bool)

  /** The checker mycheck builds around a classifier. */
  function MySQL(classify: string -> Kind): Checker {
    Checker(classify, IsImplicitCommit)
  }

  datatype Entry = Entry(thread: string, command: string, text: string, line: int)

  datatype ThreadState = ThreadState(inTx: bool, txSeq: nat, stmtSeq: nat)

  const FRESH := ThreadState(false, 0, 0)

  type States = map<string, ThreadState>

  function StateOf(m: States, thread: string): ThreadState {
    if thread in m then m[thread] else FRESH
  }

  function TxLabel(thread: string, n: nat): string {
    "thread " + thread + " tx " + Show10(n)
  }

  function StmtLabel(thread: string, n: nat): string {
    "thread " + thread + " stmt " + Show10(n)
  }

  /** What an identity says before it is rendered. */
  datatype Label = Tx(thread: string, seqNo: nat) | Stmt(thread: string, seqNo: nat)
  {
    function Show(): string {
      match this
      case Tx(thread, n) => TxLabel(thread, n)
      case Stmt(thread, n) => StmtLabel(thread, n)
    }
  }

  datatype Labelled = Labelled(entry: Entry, kind: Kind, tag: Label)
  {
    function ToStatement(): Statement {
      Statement(entry.text, kind, tag.Show(), entry.line)
    }
  }

  // ----- specification ------------------------------------------------------------------------

  predicate Executes(e: Entry) {
    e.command == "Query" || e.command == "Execute"
  }

  /** One executed statement: its identity and the thread's next state. */
  function Execute(thread: string, kind: Kind, implicit: bool, st: ThreadState): (ThreadState, Label) {
    var n := st.stmtSeq + 1;
    match kind
    case Begin =>
      (ThreadState(true, st.txSeq + 1, n), Tx(thread, st.txSeq + 1))
    case Commit | Rollback =>
      (ThreadState(false, st.txSeq, n), if st.inTx then Tx(thread, st.txSeq) else Stmt(thread, n))
    case _ =>
      if implicit then (ThreadState(false, st.txSeq, n), Stmt(thread, n))
      else (st.(stmtSeq := n), if st.inTx then Tx(thread, st.txSeq) else Stmt(thread, n))
  }

  /** One entry: the thread's next state, and the labelled statement if the entry executes one. */
  function Step(c: Checker, e: Entry, st: ThreadState): (ThreadState, seq<Labelled>) {
    if e.command == "Quit" then (st.(inTx := false), [])
    else if !Executes(e) then (st, [])
    else
      var kind := c.classify(e.text);
      var (st', tag) := Execute(e.thread, kind, c.implicitCommit(e.text), st);
      (st', [Labelled(e, kind, tag)])
  }

  datatype Replayed = Replayed(states: States, out: seq<Labelled>)

  function Replay(c: Checker, entries: seq<Entry>): Replayed {
    if entries == [] then Replayed(map[], [])
    else
      var e := entries[|entries| - 1];
      var r := Replay(c, entries[..|entries| - 1]);
      var (st, out) := Step(c, e, StateOf(r.states, e.thread));
      Replayed(r.states[e.thread := st], r.out + out)
  }

  function Statements(out: seq<Labelled>): (s: seq<Statement>)
    ensures |s| == |out|
    ensures forall i | 0 <= i < |out| :: s[i] == out[i].ToStatement()
  {
    seq(|out|, i requires 0 <= i < |out| => out[i].ToStatement())
  }

  // ----- the code -----------------------------------------------------------------------------

  lemma ReplaySnoc(c: Checker, entries: seq<Entry>, k: nat)
    requires k < |entries|
    ensures var e, r := entries[k], Replay(c, entries[..k]);
            var (st, out) := Step(c, e, StateOf(r.states, e.thread));
            Replay(c, entries[..k + 1]) == Replayed(r.states[e.thread := st], r.out + out)
  {
    assert entries[..k + 1][..k] == entries[..k];
  }

  /** The loop body: one entry moves its own thread and adds at most one statement. */
  method ReconstructEntry(c: Checker, e: Entry, states0: States, stmts0: seq<Statement>)
    returns (states: States, stmts: seq<Statement>)
    ensures var (st, out) := Step(c, e, StateOf(states0, e.thread));
            states == states0[e.thread := st] && stmts == stmts0 + Statements(out)
  {
    states, stmts := states0, stmts0;
    if e.thread !in states {
      states := states[e.thread := ThreadState(false, 0, 0)];
    }
    var st := states[e.thread];
    if e.command == "Quit" {
      states := states[e.thread := st.(inTx := false)];
      return;
    } else if e.command != "Query" && e.command != "Execute" {
      return;
    }
    var kind := c.classify(e.text);
    var txID;
    st, txID := Identify(e.thread, kind, c.implicitCommit(e.text), st);
    states := states[e.thread := st];
    stmts := stmts + [Statement(e.text, kind, txID, e.line)];
  }

  lemma StatementsConcat(out: seq<Labelled>, more: seq<Labelled>)
    ensures Statements(out + more) == Statements(out) + Statements(more)
  {
  }

  method ReconstructEntries(c: Checker, entries: seq<Entry>) returns (stmts: seq<Statement>)
    ensures stmts == Statements(Replay(c, entries).out)
  {
    var states: States := map[];
    stmts := [];
    for k := 0 to |entries|
      invariant states == Replay(c, entries[..k]).states
      invariant stmts == Statements(Replay(c, entries[..k]).out)
    {
      ghost var r := Replay(c, entries[..k]);
      ReplaySnoc(c, entries, k);
      StatementsConcat(r.out, Step(c, entries[k], StateOf(r.states, entries[k].thread)).1);
      states, stmts := ReconstructEntry(c, entries[k], states, stmts);
    }
    assert entries[..|entries|] == entries;
  }

  /** The body of the replay loop for an executed statement. */
  method Identify(thread: string, kind: Kind, implicit: bool, st0: ThreadState)
    returns (st: ThreadState, txID: string)
    ensures st == Execute(thread, kind, implicit, st0).0
    ensures txID == Execute(thread, kind, implicit, st0).1.Show()
  {
    st := st0.(stmtSeq := st0.stmtSeq + 1);
    match kind {
      case Begin =>
        st := st.(txSeq := st.txSeq + 1, inTx := true);
        txID := TxLabel(thread, st.txSeq);
      case Commit | Rollback =>
        if st.inTx {
          txID := TxLabel(thread, st.txSeq);
          st := st.(inTx := false);
        } else {
          txID := StmtLabel(thread, st.stmtSeq);
        }
      case _ =>
        if implicit {
          st := st.(inTx := false);
          txID := StmtLabel(thread, st.stmtSeq);
        } else if st.inTx {
          txID := TxLabel(thread, st.txSeq);
        } else {
          txID := StmtLabel(thread, st.stmtSeq);
        }
    }
  }

  // ----- threads do not interfere -------------------------------------------------------------

  function EntriesOf(entries: seq<Entry>, thread: string): seq<Entry> {
    if entries == [] then []
    else
      var e := entries[|entries| - 1];
      EntriesOf(entries[..|entries| - 1], thread) + if e.thread == thread then [e] else []
  }

  function OutputOf(out: seq<Labelled>, thread: string): seq<Labelled> {
    if out == [] then []
    else
      var o := out[|out| - 1];
      OutputOf(out[..|out| - 1], thread) + if o.entry.thread == thread then [o] else []
  }

  /** Restricting the output to one thread is replaying that thread's entries alone. */
  lemma {:induction false} NonInterference(c: Checker, entries: seq<Entry>, thread: string)
    ensures OutputOf(Replay(c, entries).out, thread) == Replay(c, EntriesOf(entries, thread)).out
    ensures StateOf(Replay(c, entries).states, thread) ==
            StateOf(Replay(c, EntriesOf(entries, thread)).states, thread)
  {
    if entries != [] {
      var n := |entries| - 1;
      var e := entries[n];
      var r := Replay(c, entries[..n]);
      NonInterference(c, entries[..n], thread);
      var (st, out) := Step(c, e, StateOf(r.states, e.thread));
      assert (r.out + out)[..|r.out + out| - |out|] == r.out;
      if e.thread == thread {
        var mine := EntriesOf(entries[..n], thread);
        assert EntriesOf(entries, thread) == mine + [e];
        assert (mine + [e])[..|mine|] == mine;
      } else {
        assert EntriesOf(entries, thread) == EntriesOf(entries[..n], thread);
      }
      if out == [] {
        assert r.out + out == r.out;
      }
    }
  }
}
