/** From the lines of a server log to the units of the run that wrote it: parse, replay, check. */
module Pipeline {
  import opened Classify
  import opened CrossCheck
  import opened Reconstruct
  import opened Labels
  import opened TxIds
  import opened Simulation
  import opened Agreement
  import MyLog
  import P = MyLogRoundTrip

  /** The entries the replay acts on; a log holds others as well (connections, prepares, pings). */
  predicate Relevant(e: Entry) {
    e.command == "Query" || e.command == "Execute" || e.command == "Quit"
  }

  /** The entry is what the server logs for the event. */
  predicate Carries(e: Entry, ev: Event) {
    e.thread == ev.thread &&
    if ev.Quit? then e.command == "Quit" else (e.command == "Query" || e.command == "Execute") && e.text == ev.text
  }

  /** The relevant entries are the trace's, in order; what else the log holds, and on which lines, is
      free. */
  predicate IsLogOf(entries: seq<Entry>, tr: seq<Event>) {
    if entries == [] then tr == []
    else
      var e, front := entries[|entries| - 1], entries[..|entries| - 1];
      if Relevant(e) then tr != [] && Carries(e, tr[|tr| - 1]) && IsLogOf(front, tr[..|tr| - 1])
      else IsLogOf(front, tr)
  }

  lemma StepAlike(c: Checker, e: Entry, ev: Event, st: ThreadState)
    requires Carries(e, ev)
    ensures var (s, out) := Step(c, e, st); var (s', out') := Step(c, LogEntry(ev), st);
            && s == s' && |out| == |out'| <= 1
            && (|out| == 1 ==> out[0].kind == out'[0].kind && out[0].tag == out'[0].tag)
  {
  }

  lemma StepIdle(c: Checker, e: Entry, st: ThreadState)
    requires !Relevant(e)
    ensures Step(c, e, st) == (st, [])
  {
  }

  lemma ReplayLast(c: Checker, entries: seq<Entry>)
    requires entries != []
    ensures var e, r := entries[|entries| - 1], Replay(c, entries[..|entries| - 1]);
            var (st, out) := Step(c, e, StateOf(r.states, e.thread));
            Replay(c, entries) == Replayed(r.states[e.thread := st], r.out + out)
  {
  }

  /** Each thread is in the same state, whatever other entries the log holds. */
  lemma {:induction false} SameStates(c: Checker, entries: seq<Entry>, tr: seq<Event>, t: string)
    requires IsLogOf(entries, tr)
    ensures StateOf(Replay(c, entries).states, t) == StateOf(Replay(c, Log(tr)).states, t)
  {
    if entries != [] {
      var e, front := entries[|entries| - 1], entries[..|entries| - 1];
      ReplayLast(c, entries);
      if Relevant(e) {
        var n := |tr| - 1;
        SameStates(c, front, tr[..n], t);
        SameStates(c, front, tr[..n], e.thread);
        StepAlike(c, e, tr[n], StateOf(Replay(c, front).states, e.thread));
        LogSnoc(tr);
        ReplayLast(c, Log(tr));
      } else {
        SameStates(c, front, tr, t);
        SameStates(c, front, tr, e.thread);
        StepIdle(c, e, StateOf(Replay(c, front).states, e.thread));
      }
    }
  }

  /** The identities of the writes. */
  function WriteIds(out: seq<Labelled>): set<string> {
    IdSet(Writes(Statements(out)))
  }

  lemma WriteIdsSnoc(out: seq<Labelled>, more: seq<Labelled>)
    requires |more| <= 1
    ensures WriteIds(out + more) ==
            WriteIds(out) + if |more| == 1 && more[0].kind == Write then {more[0].tag.Show()} else {}
  {
    WritesSnoc(out, more);
    var ws := Writes(Statements(out));
    if |more| == 1 && more[0].kind == Write {
      var s := more[0].ToStatement();
      assert IdSet(ws + [s]) == IdSet(ws) + {s.txID};
    } else {
      assert ws + [] == ws;
    }
  }

  lemma {:induction false} SameWriteIds(c: Checker, entries: seq<Entry>, tr: seq<Event>)
    requires IsLogOf(entries, tr)
    ensures WriteIds(Replay(c, entries).out) == WriteIds(Replay(c, Log(tr)).out)
  {
    if entries != [] {
      var e, front := entries[|entries| - 1], entries[..|entries| - 1];
      var r := Replay(c, front);
      var st := StateOf(r.states, e.thread);
      ReplayLast(c, entries);
      if Relevant(e) {
        var n := |tr| - 1;
        SameWriteIds(c, front, tr[..n]);
        SameStates(c, front, tr[..n], e.thread);
        StepAlike(c, e, tr[n], st);
        LogSnoc(tr);
        ReplayLast(c, Log(tr));
        WriteIdsSnoc(r.out, Step(c, e, st).1);
        WriteIdsSnoc(Replay(c, Log(tr[..n])).out, Step(c, LogEntry(tr[n]), st).1);
      } else {
        SameWriteIds(c, front, tr);
        StepIdle(c, e, st);
        WriteIdsSnoc(r.out, []);
      }
    }
  }

  // ----- thread ids -----------------------------------------------------------------------------

  lemma {:induction false} ExpectedThreads(items: seq<P.Item>)
    requires forall it | it in items :: it.Valid()
    ensures forall e | e in P.Expected(items) :: IsDecimal(e.thread)
  {
    if items != [] {
      var front, last := items[..|items| - 1], items[|items| - 1];
      assert last in items && forall it | it in front :: it in items;
      ExpectedThreads(front);
    }
  }

  lemma {:induction false} TraceThreads(entries: seq<Entry>, tr: seq<Event>)
    requires IsLogOf(entries, tr) && forall e | e in entries :: IsDecimal(e.thread)
    ensures Decimal(tr)
  {
    if entries != [] {
      var e, front := entries[|entries| - 1], entries[..|entries| - 1];
      assert e in entries && forall f | f in front :: f in entries;
      if Relevant(e) {
        TraceThreads(front, tr[..|tr| - 1]);
        assert tr == tr[..|tr| - 1] + [tr[|tr| - 1]];
      } else {
        TraceThreads(front, tr);
      }
    }
  }

  // ----- the whole way --------------------------------------------------------------------------

  /** Print a log of the trace, with any banner lines, unrelated entries and multi-line statements none
      of whose further lines looks like an entry: parsing it, replaying it and counting its write units
      gives the client's units plus one for every split. */
  lemma PrintedLogCounts(c: Checker, items: seq<P.Item>, tr: seq<Event>)
    requires forall it | it in items :: it.Valid()
    requires P.AllClean(MyLog.KindOfLine, items)
    requires IsLogOf(P.Expected(items), tr)
    requires Drawn(c, tr) < U64 && forall e | e in tr :: Intact(c, e)
    ensures |WriteIds(Replay(c, MyLog.Parsed(P.Print(items)).entries).out)| == ClientUnits(c, tr) + Run(c, tr).splits
  {
    P.RoundTripIff(items);
    ExpectedThreads(items);
    TraceThreads(P.Expected(items), tr);
    SameWriteIds(c, P.Expected(items), tr);
    ServerCountsEverySplit(c, tr);
  }
}
