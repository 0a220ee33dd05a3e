/** The client's and the server's transaction attribution, run side by side on one interleaved trace. */
module Simulation {
  import opened Classify
  import opened Reconstruct
  import opened TxIds

  /** One step of one connection. A driver-level begin or end reaches the server as a statement the
      driver itself executes; on the client it is a call of BeginTx or EndTx. */
  datatype Event =
    | Exec(thread: string, text: string)
    | DriverBegin(thread: string, text: string)
    | DriverEnd(thread: string, text: string)
    | Quit(thread: string)

  /** Where a connection stands inside the client's transaction: whether the server agrees that a
      transaction is open, whether the server's current transaction has a write, and whether the
      client's transaction had one before that. */
  datatype Phase = Closed | Open(joined: bool, here: bool, before: bool)

  datatype Conn = Conn(held: u64, st: ThreadState, phase: Phase)

  const IDLE := Conn(0, FRESH, Closed)

  /** The client's atomic unit of a write: a transaction id, or the write itself. */
  datatype ClientUnit = InTx(id: u64) | Auto(index: nat)

  /** One write as both sides see it. */
  datatype Attributed = Attributed(unit: ClientUnit, tag: Label)

  datatype Joint = Joint(seqNo: u64, conns: map<string, Conn>, writes: seq<Attributed>, splits: nat)

  function ConnOf(j: Joint, thread: string): Conn {
    if thread in j.conns then j.conns[thread] else IDLE
  }

  /** What the server logs for the event. */
  function LogEntry(e: Event): Entry {
    match e
    case Exec(t, text) => Entry(t, "Query", text, 0)
    case DriverBegin(t, text) => Entry(t, "Query", text, 0)
    case DriverEnd(t, text) => Entry(t, "Query", text, 0)
    case Quit(t) => Entry(t, "Quit", "", 0)
  }

  /** The classifier recognizes the statements drivers use for transaction control. */
  predicate Intact(c: Checker, e: Event) {
    match e
    case DriverBegin(_, text) => c.classify(text) == Begin
    case DriverEnd(_, text) => c.classify(text) == Commit || c.classify(text) == Rollback
    case _ => true
  }

  predicate IsWrite(c: Checker, e: Event) {
    e.Exec? && c.classify(e.text) == Write
  }

  /** The client's half: (txID, txSeq) after the event. */
  function ClientStep(c: Checker, e: Event, held: u64, seqNo: u64): (u64, u64) {
    match e
    case Exec(_, text) => Observe(c.classify(text), held, seqNo)
    case DriverBegin(_, _) => (Next(seqNo), Next(seqNo))
    case DriverEnd(_, _) => (0, seqNo)
    case Quit(_) => (0, seqNo)
  }

  function PhaseStep(c: Checker, e: Event, p: Phase): Phase {
    match e
    case DriverBegin(_, _) => Open(true, false, false)
    case DriverEnd(_, _) => Closed
    case Quit(_) => Closed
    case Exec(_, text) =>
      match c.classify(text)
      case Begin => if p.Closed? then Open(true, false, false) else Open(true, false, p.here || p.before)
      case Commit | Rollback => Closed
      case kind =>
        if p.Closed? then Closed
        else if c.implicitCommit(text) then Open(false, false, p.here || p.before || kind == Write)
        else if p.joined then Open(true, p.here || kind == Write, p.before)
        else Open(false, false, p.before || kind == Write)
  }

  /** The write starts another server unit inside a client transaction that already wrote. */
  predicate SplitsHere(c: Checker, e: Event, p: Phase) {
    IsWrite(c, e) && p.Open? &&
    if c.implicitCommit(e.text) || !p.joined then p.here || p.before else !p.here && p.before
  }

  function Attribution(c: Checker, e: Event, index: nat, held: u64, st: ThreadState): seq<Attributed> {
    if IsWrite(c, e) then
      [Attributed(if held != 0 then InTx(held) else Auto(index),
                  Execute(e.thread, Write, c.implicitCommit(e.text), st).1)]
    else []
  }

  function Advance(c: Checker, e: Event, index: nat, j: Joint): Joint {
    var k := ConnOf(j, e.thread);
    var (held, seqNo) := ClientStep(c, e, k.held, j.seqNo);
    Joint(seqNo,
          j.conns[e.thread := Conn(held, Step(c, LogEntry(e), k.st).0, PhaseStep(c, e, k.phase))],
          j.writes + Attribution(c, e, index, held, k.st),
          j.splits + if SplitsHere(c, e, k.phase) then 1 else 0)
  }

  function Run(c: Checker, tr: seq<Event>): Joint {
    if tr == [] then Joint(0, map[], [], 0)
    else Advance(c, tr[|tr| - 1], |tr| - 1, Run(c, tr[..|tr| - 1]))
  }

  /** The event takes a fresh id from the Detector. */
  predicate Draws(c: Checker, e: Event, held: u64) {
    e.DriverBegin? || (e.Exec? && c.classify(e.text) == Begin && held == 0)
  }

  /** How many ids the trace draws from the counter. */
  function Drawn(c: Checker, tr: seq<Event>): nat {
    if tr == [] then 0
    else
      var e := tr[|tr| - 1];
      var front := tr[..|tr| - 1];
      Drawn(c, front) + if Draws(c, e, ConnOf(Run(c, front), e.thread).held) then 1 else 0
  }

  function Units(ws: seq<Attributed>): set<ClientUnit> {
    set w | w in ws :: w.unit
  }

  function Tags(ws: seq<Attributed>): set<Label> {
    set w | w in ws :: w.tag
  }

  // ----- the invariant ------------------------------------------------------------------------

  ghost predicate ConnOk(j: Joint, t: string) {
    var k := ConnOf(j, t);
    && k.held <= j.seqNo
    && (k.held == 0 <==> k.phase.Closed?)
    && (k.phase.Closed? ==> !k.st.inTx)
    && (k.phase.Open? ==>
          && k.phase.joined == k.st.inTx
          && (k.phase.here ==> k.phase.joined)
          && (InTx(k.held) in Units(j.writes) <==> k.phase.here || k.phase.before)
          && (k.phase.joined ==> (Tx(t, k.st.txSeq) in Tags(j.writes) <==> k.phase.here)))
  }

  ghost predicate WriteOk(j: Joint, n: nat, w: Attributed) {
    var k := ConnOf(j, w.tag.thread);
    && (w.unit.InTx? ==> 1 <= w.unit.id <= j.seqNo)
    && (w.unit.Auto? ==> w.unit.index < n)
    && (w.tag.Tx? ==> w.tag.seqNo <= k.st.txSeq)
    && (w.tag.Stmt? ==> w.tag.seqNo <= k.st.stmtSeq)
    && (k.st.inTx && w.tag == Tx(w.tag.thread, k.st.txSeq) ==> w.unit == InTx(k.held))
  }

  ghost predicate Functional(ws: seq<Attributed>) {
    forall a, b | a in ws && b in ws && a.tag == b.tag :: a.unit == b.unit
  }

  ghost predicate Inv(j: Joint, n: nat) {
    && (forall t :: ConnOk(j, t))
    && (forall s, t | s != t && ConnOf(j, s).held != 0 :: ConnOf(j, s).held != ConnOf(j, t).held)
    && (forall w | w in j.writes :: WriteOk(j, n, w))
    && Functional(j.writes)
    && |Tags(j.writes)| == |Units(j.writes)| + j.splits
  }

  lemma AddOne(ws: seq<Attributed>, w: Attributed)
    ensures Units(ws + [w]) == Units(ws) + {w.unit}
    ensures Tags(ws + [w]) == Tags(ws) + {w.tag}
  {
  }

  /** The ways an event that is no write can move its connection: the client's transaction ends, a new
      one starts, the server alone starts another, the server alone ends its own, or nothing. */
  predicate QuietMove(k: Conn, k': Conn, seqNo: u64, seqNo': u64) {
    var p := k.phase;
    || (&& k'.held == 0 && k'.phase == Closed && !k'.st.inTx && k'.st.txSeq == k.st.txSeq
        && seqNo' == seqNo)
    || (&& k'.held == seqNo' == seqNo + 1 && k'.phase == Open(true, false, false)
        && k'.st.inTx && k'.st.txSeq == k.st.txSeq + 1)
    || (&& k'.held == k.held && p.Open? && k'.phase == Open(true, false, p.here || p.before)
        && k'.st.inTx && k'.st.txSeq == k.st.txSeq + 1 && seqNo' == seqNo)
    || (&& k'.held == k.held && p.Open? && k'.phase == Open(false, false, p.here || p.before)
        && !k'.st.inTx && k'.st.txSeq == k.st.txSeq && seqNo' == seqNo)
    || (&& k'.held == k.held && k'.phase == p
        && k'.st.inTx == k.st.inTx && k'.st.txSeq == k.st.txSeq && seqNo' == seqNo)
  }

  lemma QuietMoves(c: Checker, e: Event, j: Joint, n: nat)
    requires ConnOk(j, e.thread) && Intact(c, e) && !IsWrite(c, e)
    requires Draws(c, e, ConnOf(j, e.thread).held) ==> j.seqNo + 1 < U64
    ensures var j' := Advance(c, e, n, j);
            && j'.writes == j.writes && j'.splits == j.splits
            && (forall t | t != e.thread :: ConnOf(j', t) == ConnOf(j, t))
            && QuietMove(ConnOf(j, e.thread), ConnOf(j', e.thread), j.seqNo, j'.seqNo)
            && ConnOf(j', e.thread).st.stmtSeq >= ConnOf(j, e.thread).st.stmtSeq
  {
  }

  lemma NothingFresh(j: Joint, n: nat, t: string)
    requires Inv(j, n)
    ensures Auto(n) !in Units(j.writes)
    ensures j.seqNo + 1 < U64 ==> InTx(j.seqNo + 1) !in Units(j.writes)
    ensures Tx(t, ConnOf(j, t).st.txSeq + 1) !in Tags(j.writes)
    ensures Stmt(t, ConnOf(j, t).st.stmtSeq + 1) !in Tags(j.writes)
  {
    assert forall w | w in j.writes :: WriteOk(j, n, w);
  }

  lemma QuietInv(j: Joint, j': Joint, t: string, n: nat)
    requires Inv(j, n) && j'.writes == j.writes && j'.splits == j.splits
    requires forall s | s != t :: ConnOf(j', s) == ConnOf(j, s)
    requires QuietMove(ConnOf(j, t), ConnOf(j', t), j.seqNo, j'.seqNo)
    requires ConnOf(j', t).st.stmtSeq >= ConnOf(j, t).st.stmtSeq
    ensures Inv(j', n + 1)
  {
    assert ConnOk(j, t);
    NothingFresh(j, n, t);
    assert ConnOk(j', t);
    forall s ensures ConnOk(j', s) {
      assert ConnOk(j, s);
    }
    forall s, u | s != u && ConnOf(j', s).held != 0 ensures ConnOf(j', s).held != ConnOf(j', u).held {
      assert ConnOk(j, s) && ConnOk(j, u);
    }
    forall w | w in j'.writes ensures WriteOk(j', n + 1, w) {
      assert WriteOk(j, n, w);
      assert w.tag in Tags(j.writes);
    }
  }

  /** The ways a write can go: outside any client transaction, inside one that the server does not (or
      no longer) share, inside one that it shares. */
  predicate WriteMove(t: string, k: Conn, k': Conn, n: nat, w: Attributed, split: bool) {
    var p := k.phase;
    && w.tag.thread == t && k'.held == k.held && k'.st.txSeq == k.st.txSeq && k'.st.stmtSeq == k.st.stmtSeq + 1
    && w.unit == (if p.Closed? then Auto(n) else InTx(k.held))
    && (|| (&& p.Closed? && k'.phase == Closed && w.tag == Stmt(t, k.st.stmtSeq + 1)
            && !k'.st.inTx && !split)
        || (&& p.Open? && k'.phase == Open(false, false, true) && w.tag == Stmt(t, k.st.stmtSeq + 1)
            && !k'.st.inTx && split == (p.here || p.before))
        || (&& p.Open? && p.joined && k'.phase == Open(true, true, p.before) && w.tag == Tx(t, k.st.txSeq)
            && k'.st.inTx && split == (!p.here && p.before)))
  }

  lemma WriteMoves(c: Checker, e: Event, j: Joint, n: nat)
    requires ConnOk(j, e.thread) && IsWrite(c, e)
    ensures var j' := Advance(c, e, n, j);
            && |j'.writes| == |j.writes| + 1 && j'.writes == j.writes + [j'.writes[|j.writes|]]
            && (forall t | t != e.thread :: ConnOf(j', t) == ConnOf(j, t))
            && j'.seqNo == j.seqNo
            && j'.splits == j.splits + (if SplitsHere(c, e, ConnOf(j, e.thread).phase) then 1 else 0)
            && WriteMove(e.thread, ConnOf(j, e.thread), ConnOf(j', e.thread), n, j'.writes[|j.writes|],
                         SplitsHere(c, e, ConnOf(j, e.thread).phase))
  {
  }

  ghost predicate WriteAdvance(j: Joint, j': Joint, t: string, n: nat, w: Attributed, split: bool) {
    && j'.writes == j.writes + [w] && j'.seqNo == j.seqNo
    && j'.splits == j.splits + (if split then 1 else 0)
    && (forall s | s != t :: ConnOf(j', s) == ConnOf(j, s))
    && WriteMove(t, ConnOf(j, t), ConnOf(j', t), n, w, split)
  }

  lemma WriteCount(j: Joint, j': Joint, t: string, n: nat, w: Attributed, split: bool)
    requires Inv(j, n) && WriteAdvance(j, j', t, n, w, split)
    ensures |Tags(j'.writes)| == |Units(j'.writes)| + j'.splits
  {
    assert ConnOk(j, t);
    NothingFresh(j, n, t);
    AddOne(j.writes, w);
  }

  lemma WriteConn(j: Joint, j': Joint, t: string, n: nat, w: Attributed, split: bool, s: string)
    requires Inv(j, n) && WriteAdvance(j, j', t, n, w, split)
    ensures ConnOk(j', s)
  {
    assert ConnOk(j, t) && ConnOk(j, s);
    AddOne(j.writes, w);
    if s != t {
      assert ConnOf(j, s).held != 0 ==> ConnOf(j, s).held != ConnOf(j, t).held;
    }
  }

  lemma WriteInv(j: Joint, j': Joint, t: string, n: nat, w: Attributed, split: bool)
    requires Inv(j, n) && WriteAdvance(j, j', t, n, w, split)
    ensures Inv(j', n + 1)
  {
    assert ConnOk(j, t);
    forall s ensures ConnOk(j', s) {
      WriteConn(j, j', t, n, w, split, s);
    }
    forall s, u | s != u && ConnOf(j', s).held != 0 ensures ConnOf(j', s).held != ConnOf(j', u).held {
      assert ConnOf(j, s).held != ConnOf(j, u).held;
    }
    forall v | v in j'.writes ensures WriteOk(j', n + 1, v) {
      if v in j.writes {
        assert WriteOk(j, n, v);
      }
    }
    WriteCount(j, j', t, n, w, split);
    NothingFresh(j, n, t);
    KeepsFunctional(j, n, w);
  }

  /** A write tagged with the server's open transaction belongs to the client's. */
  lemma KeepsFunctional(j: Joint, n: nat, w: Attributed)
    requires Inv(j, n)
    requires w.tag in Tags(j.writes) ==>
               w.tag == Tx(w.tag.thread, ConnOf(j, w.tag.thread).st.txSeq) &&
               ConnOf(j, w.tag.thread).st.inTx && w.unit == InTx(ConnOf(j, w.tag.thread).held)
    ensures Functional(j.writes + [w])
  {
    forall v | v in j.writes && v.tag == w.tag ensures v.unit == w.unit {
      assert w.tag in Tags(j.writes);
      assert WriteOk(j, n, v);
    }
  }

  lemma AdvanceInv(c: Checker, e: Event, j: Joint, n: nat)
    requires Inv(j, n) && Intact(c, e)
    requires Draws(c, e, ConnOf(j, e.thread).held) ==> j.seqNo + 1 < U64
    ensures Inv(Advance(c, e, n, j), n + 1)
  {
    var j' := Advance(c, e, n, j);
    assert ConnOk(j, e.thread);
    if IsWrite(c, e) {
      WriteMoves(c, e, j, n);
      WriteInv(j, j', e.thread, n, j'.writes[|j.writes|], SplitsHere(c, e, ConnOf(j, e.thread).phase));
    } else {
      QuietMoves(c, e, j, n);
      QuietInv(j, j', e.thread, n);
    }
  }

  lemma AdvanceCounter(c: Checker, e: Event, j: Joint, n: nat)
    requires Draws(c, e, ConnOf(j, e.thread).held) ==> j.seqNo + 1 < U64
    ensures Advance(c, e, n, j).seqNo == j.seqNo + if Draws(c, e, ConnOf(j, e.thread).held) then 1 else 0
  {
  }

  lemma {:induction false} Holds(c: Checker, tr: seq<Event>)
    requires forall e | e in tr :: Intact(c, e)
    requires Drawn(c, tr) < U64
    ensures Run(c, tr).seqNo == Drawn(c, tr)
    ensures Inv(Run(c, tr), |tr|)
  {
    if tr != [] {
      var n := |tr| - 1;
      Holds(c, tr[..n]);
      AdvanceInv(c, tr[n], Run(c, tr[..n]), n);
      AdvanceCounter(c, tr[n], Run(c, tr[..n]), n);
    }
  }
}
