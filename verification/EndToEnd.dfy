/** A boundary around a whole trace, its verdict, and the server-side report on the log of that trace. */
module EndToEnd {
  import opened Text
  import opened CrossCheck
  import opened Reconstruct
  import opened Labels
  import opened TxIds
  import opened Ledgers
  import opened Allowlists
  import opened Verdicts
  import opened Simulation
  import opened Agreement

  /** What a boundary holds that received every statement of the trace. */
  function Whole(c: Checker, tr: seq<Event>, mark: Option<Mark>, cap: int): Ledger {
    RecordedAll(Opened(mark), cap, Observed(c, tr))
  }

  lemma WholeUnits(c: Checker, tr: seq<Event>, mark: Option<Mark>, cap: int)
    ensures Whole(c, tr, mark, cap).Units() == ClientUnits(c, tr)
    ensures Whole(c, tr, mark, cap).mark == mark
  {
    LedgerOfTimeline(mark, cap, Observed(c, tr));
  }

  /** Every statement of a reconstructed log has an identity, so Check always gives a report on it. */
  lemma LogIsIdentified(c: Checker, tr: seq<Event>)
    ensures forall s | s in Logged(c, tr) :: !Anonymous(s)
  {
    LabelsNameTheirThread(c, Log(tr));
    var out := Replay(c, Log(tr)).out;
    assert forall i | 0 <= i < |out| :: out[i] in out;
  }

  /** The report Check gives on the trace's log. */
  predicate Reports(c: Checker, tr: seq<Event>, rep: Report) {
    rep.writeUnits == |IdSet(Writes(Logged(c, tr)))|
  }

  /** A violation is never a false alarm for the server: whatever the interleaving, the kinds of
      statements and the record cap, the server-side report of the same trace is non-atomic. */
  lemma ViolationIsNonAtomic(c: Checker, tr: seq<Event>, who: Subject, mark: Option<Mark>, cap: int,
                             list: Option<Entries>, rep: Report)
    requires Decimal(tr) && Drawn(c, tr) < U64 && Reports(c, tr, rep)
    requires forall e | e in tr :: Intact(c, e)
    ensures var v := Verdict(who, Whole(c, tr, mark, cap), list);
            v.Some? && v.value.Violation? ==> !rep.Atomic() && v.value.writeUnits <= rep.writeUnits
  {
    WholeUnits(c, tr, mark, cap);
    ClientViolationIsNonAtomic(c, tr, rep);
    VerdictCases(who, Whole(c, tr, mark, cap), list);
  }

  /** Without an allowance the two verdicts agree exactly when no split turns an atomic boundary into
      several server units. */
  lemma VerdictsAgreeIff(c: Checker, tr: seq<Event>, who: Subject, cap: int, rep: Report)
    requires Decimal(tr) && Drawn(c, tr) < U64 && Reports(c, tr, rep)
    requires forall e | e in tr :: Intact(c, e)
    ensures (Verdict(who, Whole(c, tr, None, cap), None).Some? <==> !rep.Atomic()) <==>
            !(ClientUnits(c, tr) == 1 && Run(c, tr).splits > 0)
  {
    WholeUnits(c, tr, None, cap);
    VerdictCases(who, Whole(c, tr, None, cap), None);
    ServerCountsEverySplit(c, tr);
    NoUnitNoSplit(c, tr);
  }

  /** A trace without writes has nothing to split. */
  lemma NoUnitNoSplit(c: Checker, tr: seq<Event>)
    requires Drawn(c, tr) < U64 && forall e | e in tr :: Intact(c, e)
    ensures ClientUnits(c, tr) == 0 ==> Run(c, tr).splits == 0
  {
    Holds(c, tr);
    ClientCount(c, tr);
    var ws := Run(c, tr).writes;
    assert ws != [] ==> ws[0].unit in Units(ws);
    assert ws == [] ==> Tags(ws) == {};
  }

  /** In particular they agree on every trace without a textual BEGIN or an implicit commit inside an
      open transaction. */
  lemma UndisturbedVerdictsAgree(c: Checker, tr: seq<Event>, who: Subject, cap: int, rep: Report)
    requires Decimal(tr) && Drawn(c, tr) < U64 && Undisturbed(c, tr) && Reports(c, tr, rep)
    requires forall e | e in tr :: Intact(c, e)
    ensures Verdict(who, Whole(c, tr, None, cap), None).Some? <==> !rep.Atomic()
  {
    UndisturbedHasNoSplit(c, tr);
    VerdictsAgreeIff(c, tr, who, cap, rep);
  }
}
