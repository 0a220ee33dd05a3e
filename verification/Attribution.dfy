/** Where observed statements go: a run of nested boundaries, statements and finishes on one Detector. */
module Attribution {
  import opened Text
  import opened Classify
  import opened Ledgers

  /** A context chain by boundary number; boundaries are numbered in the order they are started. */
  datatype Ctx = Root | Derived(parent: Ctx) | Within(id: nat, parent: Ctx)

  function Innermost(ctx: Ctx): Option<nat> {
    match ctx
    case Root => None
    case Derived(parent) => Innermost(parent)
    case Within(id, _) => Some(id)
  }

  datatype Event =
    | Start(mark: Option<Mark>)
    | Observe(ctx: Ctx, r: Record)
    | Allow(ctx: Ctx, m: Mark)
    | Finish(id: nat)

  datatype Config = Config(cap: int, reportUnbounded: bool)

  /** The boundaries' contents and the unbounded writes reported. */
  datatype World = World(ledgers: seq<Ledger>, unbounded: seq<Record>)

  function Step(c: Config, e: Event, w: World): World {
    match e
    case Start(mark) => w.(ledgers := w.ledgers + [Opened(mark)])
    case Observe(ctx, r) =>
      (match Innermost(ctx)
       case None => if r.kind == Write && c.reportUnbounded then w.(unbounded := w.unbounded + [r]) else w
       case Some(b) => if b < |w.ledgers| then w.(ledgers := w.ledgers[b := Recorded(w.ledgers[b], c.cap, r)]) else w)
    case Allow(ctx, m) =>
      (match Innermost(ctx)
       case None => w
       case Some(b) => if b < |w.ledgers| then w.(ledgers := w.ledgers[b := Marked(w.ledgers[b], m)]) else w)
    case Finish(b) =>
      if b < |w.ledgers| then w.(ledgers := w.ledgers[b := w.ledgers[b].(finished := true)]) else w
  }

  function Run(c: Config, run: seq<Event>): World {
    if run == [] then World([], []) else Step(c, run[|run| - 1], Run(c, run[..|run| - 1]))
  }

  // ----- an independent reading of the run ----------------------------------------------------

  function Started(run: seq<Event>): nat {
    if run == [] then 0
    else Started(run[..|run| - 1]) + if run[|run| - 1].Start? then 1 else 0
  }

  /** Boundary `b` was finished after it had been started. */
  predicate Ended(run: seq<Event>, b: nat) {
    exists i | 0 <= i < |run| :: run[i] == Finish(b) && b < Started(run[..i])
  }

  datatype Destination = To(b: nat) | Dropped | Outside

  /** The innermost boundary decides alone; a finished one drops the statement, it does not pass it on.
      (No context names a boundary before it is started; such a step would count as a drop.) */
  function Goes(before: seq<Event>, ctx: Ctx): Destination {
    match Innermost(ctx)
    case None => Outside
    case Some(b) => if b < Started(before) && !Ended(before, b) then To(b) else Dropped
  }

  /** `n` derivations of a context. */
  function Derive(n: nat, ctx: Ctx): Ctx {
    if n == 0 then ctx else Derived(Derive(n - 1, ctx))
  }

  /** However often derived, a boundary's context sends a statement to that boundary or nowhere, whatever it
      was started in; one without a boundary sends it outside. */
  lemma {:induction false} GoesDerived(before: seq<Event>, n: nat, b: nat, p: Ctx)
    ensures Goes(before, Derive(n, Within(b, p))) ==
            if b < Started(before) && !Ended(before, b) then To(b) else Dropped
    ensures Goes(before, Derive(n, Root)) == Outside
  {
    if n > 0 {
      GoesDerived(before, n - 1, b, p);
    }
  }

  /** The observed statements with that destination, in order. */
  function Sent(run: seq<Event>, d: Destination): seq<Record> {
    if run == [] then []
    else
      var before, e := run[..|run| - 1], run[|run| - 1];
      Sent(before, d) + if e.Observe? && Goes(before, e.ctx) == d then [e.r] else []
  }

  function Observed(run: seq<Event>): seq<Record> {
    if run == [] then []
    else Observed(run[..|run| - 1]) + if run[|run| - 1].Observe? then [run[|run| - 1].r] else []
  }

  function OnlyWrites(rs: seq<Record>): seq<Record> {
    if rs == [] then []
    else OnlyWrites(rs[..|rs| - 1]) + if rs[|rs| - 1].kind == Write then [rs[|rs| - 1]] else []
  }

  lemma EndedSnoc(before: seq<Event>, e: Event, b: nat)
    ensures Ended(before + [e], b) <==> Ended(before, b) || (e == Finish(b) && b < Started(before))
  {
    var run := before + [e];
    assert run[..|before|] == before;
    assert forall i | 0 <= i < |before| :: run[..i] == before[..i];
    if Ended(before, b) {
      var i :| 0 <= i < |before| && before[i] == Finish(b) && b < Started(before[..i]);
      assert run[i] == Finish(b);
    }
    if e == Finish(b) && b < Started(before) {
      assert run[|before|] == Finish(b);
    }
    if Ended(run, b) {
      var i :| 0 <= i < |run| && run[i] == Finish(b) && b < Started(run[..i]);
      if i < |before| {
        assert before[i] == Finish(b);
      }
    }
  }

  /** The mark of boundary `b`: the last one sent to it before its finish, or the one it was started with. */
  function LastMark(run: seq<Event>, b: nat): Option<Mark> {
    if run == [] then None
    else
      var before, e := run[..|run| - 1], run[|run| - 1];
      if e.Start? && b == Started(before) then e.mark
      else if e.Allow? && Goes(before, e.ctx) == To(b) then Some(e.m)
      else LastMark(before, b)
  }

  /** What boundary `b` holds at the end of the run is its own timeline and mark, cut at its finish. */
  ghost predicate Holds(c: Config, run: seq<Event>, l: Ledger, b: nat) {
    l == Content(Sent(run, To(b)), c.cap, LastMark(run, b)).(finished := Ended(run, b))
  }

  lemma MarkSnoc(before: seq<Event>, e: Event, b: nat)
    ensures LastMark(before + [e], b) ==
            if e.Start? && b == Started(before) then e.mark
            else if e.Allow? && Goes(before, e.ctx) == To(b) then Some(e.m)
            else LastMark(before, b)
  {
    assert (before + [e])[..|before|] == before;
  }

  /** The event's effect on boundary `b` alone. */
  function Local(c: Config, e: Event, b: nat, l: Ledger): Ledger {
    match e
    case Start(_) => l
    case Observe(ctx, r) => if Innermost(ctx) == Some(b) then Recorded(l, c.cap, r) else l
    case Allow(ctx, m) => if Innermost(ctx) == Some(b) then Marked(l, m) else l
    case Finish(id) => if id == b then l.(finished := true) else l
  }

  lemma StepIsLocal(c: Config, e: Event, w: World, b: nat)
    requires b < |w.ledgers|
    ensures |Step(c, e, w).ledgers| == |w.ledgers| + if e.Start? then 1 else 0
    ensures Step(c, e, w).ledgers[b] == Local(c, e, b, w.ledgers[b])
  {
  }

  lemma StartedSnoc(before: seq<Event>, e: Event)
    ensures Started(before + [e]) == Started(before) + if e.Start? then 1 else 0
  {
    assert (before + [e])[..|before|] == before;
  }

  lemma SentSnoc(before: seq<Event>, e: Event, d: Destination)
    ensures Sent(before + [e], d) ==
            if e.Observe? && Goes(before, e.ctx) == d then Sent(before, d) + [e.r] else Sent(before, d)
  {
    assert (before + [e])[..|before|] == before;
  }

  lemma {:induction false} NothingBeforeStart(run: seq<Event>, b: nat)
    requires b >= Started(run)
    ensures Sent(run, To(b)) == [] && !Ended(run, b)
  {
    if run != [] {
      var before, e := run[..|run| - 1], run[|run| - 1];
      assert run == before + [e];
      StartedSnoc(before, e);
      NothingBeforeStart(before, b);
      SentSnoc(before, e, To(b));
      EndedSnoc(before, e, b);
    }
  }

  /** Only a statement whose innermost boundary this is, while open, changes its timeline. */
  lemma LocalHolds(c: Config, before: seq<Event>, e: Event, l: Ledger, b: nat)
    requires b < Started(before) && Holds(c, before, l, b)
    ensures Holds(c, before + [e], Local(c, e, b, l), b)
  {
    EndedSnoc(before, e, b);
    SentSnoc(before, e, To(b));
    MarkSnoc(before, e, b);
    if e.Observe? && Innermost(e.ctx) == Some(b) && !l.finished {
      OneMoreRecord(Sent(before, To(b)), e.r, c.cap, l.mark);
    }
  }

  lemma StartHolds(c: Config, before: seq<Event>, mark: Option<Mark>, b: nat)
    requires b == Started(before)
    ensures Holds(c, before + [Start(mark)], Opened(mark), b)
  {
    NothingBeforeStart(before, b);
    SentSnoc(before, Start(mark), To(b));
    EndedSnoc(before, Start(mark), b);
    MarkSnoc(before, Start(mark), b);
  }

  /** Every boundary of every run holds exactly the timeline sent to it: the records are a prefix of it,
      recorded plus truncated is its length, and its units are the units of the whole of it. */
  lemma {:induction false} BoundariesHoldTheirTimelines(c: Config, run: seq<Event>)
    ensures |Run(c, run).ledgers| == Started(run)
    ensures forall b | 0 <= b < Started(run) ::
              var l, rs := Run(c, run).ledgers[b], Sent(run, To(b));
              && Holds(c, run, l, b)
              && l.statements == Prefix(rs, c.cap) && |l.statements| + l.truncated == |rs|
  {
    if run != [] {
      var before, e := run[..|run| - 1], run[|run| - 1];
      BoundariesHoldTheirTimelines(c, before);
      assert run == before + [e];
      StartedSnoc(before, e);
      var w := Run(c, before);
      forall b | 0 <= b < Started(run) ensures Holds(c, run, Run(c, run).ledgers[b], b) {
        if b < Started(before) {
          StepIsLocal(c, e, w, b);
          LocalHolds(c, before, e, w.ledgers[b], b);
        } else {
          StartHolds(c, before, e.mark, b);
        }
      }
    }
  }

  lemma StepUnbounded(c: Config, before: seq<Event>, e: Event, w: World)
    ensures Step(c, e, w).unbounded == w.unbounded +
            if e.Observe? && Goes(before, e.ctx) == Outside && e.r.kind == Write && c.reportUnbounded then [e.r] else []
  {
  }

  lemma OnlyWritesSnoc(rs: seq<Record>, r: Record)
    ensures OnlyWrites(rs + [r]) == OnlyWrites(rs) + if r.kind == Write then [r] else []
  {
    assert (rs + [r])[..|rs|] == rs;
  }

  /** The unbounded channel carries the writes that had no boundary, and nothing else. */
  lemma {:induction false} UnboundedChannel(c: Config, run: seq<Event>)
    ensures Run(c, run).unbounded == if c.reportUnbounded then OnlyWrites(Sent(run, Outside)) else []
  {
    if run != [] {
      var before, e := run[..|run| - 1], run[|run| - 1];
      assert run == before + [e];
      UnboundedChannel(c, before);
      StepUnbounded(c, before, e, Run(c, before));
      SentSnoc(before, e, Outside);
      if e.Observe? {
        OnlyWritesSnoc(Sent(before, Outside), e.r);
      }
    }
  }

  // ----- conservation -------------------------------------------------------------------------

  /** How many statements (`writesOnly`: how many writes) of the run went into the first `n` boundaries. */
  function Attributed(run: seq<Event>, n: nat, writesOnly: bool): nat {
    if n == 0 then 0
    else Attributed(run, n - 1, writesOnly) + Size(Sent(run, To(n - 1)), writesOnly)
  }

  function Size(rs: seq<Record>, writesOnly: bool): nat {
    if writesOnly then |OnlyWrites(rs)| else |rs|
  }

  lemma SizeSnoc(rs: seq<Record>, r: Record, writesOnly: bool)
    ensures Size(rs + [r], writesOnly) == Size(rs, writesOnly) + if writesOnly && r.kind != Write then 0 else 1
  {
    assert (rs + [r])[..|rs|] == rs;
  }

  /** What one event adds to the statements with a destination. */
  function Adds(before: seq<Event>, e: Event, d: Destination, writesOnly: bool): nat {
    if e.Observe? && Goes(before, e.ctx) == d && !(writesOnly && e.r.kind != Write) then 1 else 0
  }

  lemma SentSize(before: seq<Event>, e: Event, d: Destination, writesOnly: bool)
    ensures Size(Sent(before + [e], d), writesOnly) ==
            Size(Sent(before, d), writesOnly) + Adds(before, e, d, writesOnly)
  {
    SentSnoc(before, e, d);
    if e.Observe? {
      SizeSnoc(Sent(before, d), e.r, writesOnly);
    }
  }

  /** What it adds to the first `n` boundaries together. */
  function AddsBelow(before: seq<Event>, e: Event, n: nat, writesOnly: bool): nat {
    if e.Observe? && Goes(before, e.ctx).To? && Goes(before, e.ctx).b < n && !(writesOnly && e.r.kind != Write) then 1
    else 0
  }

  lemma AddsUpTo(before: seq<Event>, e: Event, n: nat, writesOnly: bool)
    ensures AddsBelow(before, e, n + 1, writesOnly) ==
            AddsBelow(before, e, n, writesOnly) + Adds(before, e, To(n), writesOnly)
  {
  }

  lemma {:induction false} AttributedSnoc(before: seq<Event>, e: Event, n: nat, writesOnly: bool)
    ensures Attributed(before + [e], n, writesOnly) ==
            Attributed(before, n, writesOnly) + AddsBelow(before, e, n, writesOnly)
  {
    if n > 0 {
      AttributedSnoc(before, e, n - 1, writesOnly);
      SentSize(before, e, To(n - 1), writesOnly);
      AddsUpTo(before, e, n - 1, writesOnly);
    }
  }

  lemma {:induction false} AttributedStable(run: seq<Event>, n: nat, writesOnly: bool)
    requires n >= Started(run)
    ensures Attributed(run, n, writesOnly) == Attributed(run, Started(run), writesOnly)
  {
    if n > Started(run) {
      AttributedStable(run, n - 1, writesOnly);
      NothingBeforeStart(run, n - 1);
    }
  }

  function Seen(e: Event, writesOnly: bool): nat {
    if e.Observe? && !(writesOnly && e.r.kind != Write) then 1 else 0
  }

  lemma ObservedSize(before: seq<Event>, e: Event, writesOnly: bool)
    ensures Size(Observed(before + [e]), writesOnly) == Size(Observed(before), writesOnly) + Seen(e, writesOnly)
  {
    assert (before + [e])[..|before|] == before;
    if e.Observe? {
      SizeSnoc(Observed(before), e.r, writesOnly);
    } else {
      assert Observed(before) + [] == Observed(before);
    }
  }

  /** One statement has exactly one destination. */
  lemma OnePlace(before: seq<Event>, e: Event, n: nat, writesOnly: bool)
    requires n >= Started(before)
    ensures Seen(e, writesOnly) ==
            AddsBelow(before, e, n, writesOnly) +
            Adds(before, e, Dropped, writesOnly) + Adds(before, e, Outside, writesOnly)
  {
  }

  /** Conservation: each observed statement, and each observed write, went to exactly one boundary, was
      dropped by a finished one, or had none. */
  lemma {:induction false} EveryStatementGoesOnePlace(run: seq<Event>, writesOnly: bool)
    ensures Size(Observed(run), writesOnly) ==
            Attributed(run, Started(run), writesOnly) +
            Size(Sent(run, Dropped), writesOnly) + Size(Sent(run, Outside), writesOnly)
  {
    if run != [] {
      var before, e := run[..|run| - 1], run[|run| - 1];
      EveryStatementGoesOnePlace(before, writesOnly);
      assert run == before + [e];
      StartedSnoc(before, e);
      AttributedSnoc(before, e, Started(run), writesOnly);
      AttributedStable(before, Started(run), writesOnly);
      SentSize(before, e, Dropped, writesOnly);
      SentSize(before, e, Outside, writesOnly);
      ObservedSize(before, e, writesOnly);
      OnePlace(before, e, Started(run), writesOnly);
    }
  }
}
