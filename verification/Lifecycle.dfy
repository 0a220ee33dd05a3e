/** One boundary under any interleaving of the goroutines that record into it, mark it and finish it,
    and of others that use the same allowlist. Every action below is one step that the code performs
    either under a lock or as one unlocked read. */
module Lifecycle {
  import opened Text
  import opened Ledgers
  import opened Allowlists
  import opened Verdicts

  /** How far one call of Finish has come. */
  datatype Finisher =
    | Snapshot(units: nat, mark: Option<Mark>)
    | Asking(units: nat, mark: Option<Mark>)
    | Unsuppressed(units: nat, declined: seq<int>)
    | Copied(units: nat, declined: seq<int>, statements: seq<Record>)
    | Done

  datatype Action =
    | Observe(r: Record)
    | Allow(m: Mark)
    | FinishLock(call: nat)
    | Decide(call: nat)
    | Ask(call: nat)
    | Copy(call: nat)
    | Report(call: nat)
    | ListAdd(boundary: string, reason: string, units: seq<int>)
    | ListAllow(boundary: string, count: int)

  /** The boundary, its Finish calls, the allowlist if there is one, what the boundary has reported, and
      two history variables: the call that set `finished`, and the entries it asked. */
  datatype State = State(
    ledger: Ledger, calls: map<nat, Finisher>, list: Option<Entries>, reported: seq<Signal>,
    winner: Option<nat>, asked: Option<Entries>)

  /** What is fixed about the run. */
  datatype Setup = Setup(who: Subject, cap: int, mark: Option<Mark>, list: Option<Entries>)

  function Init(c: Setup): State {
    State(Opened(c.mark), map[], c.list, [], None, None)
  }

  function To(s: State, call: nat, f: Finisher): State {
    s.(calls := s.calls[call := f])
  }

  function Step(c: Setup, a: Action, s: State): State {
    match a
    case Observe(r) => s.(ledger := Recorded(s.ledger, c.cap, r))
    case Allow(m) => s.(ledger := Marked(s.ledger, m))
    case FinishLock(i) =>
      if i in s.calls then s
      else if s.ledger.finished then To(s, i, Done)
      else To(s, i, Snapshot(s.ledger.Units(), s.ledger.mark))
           .(ledger := s.ledger.(finished := true), winner := Some(i))
    case Decide(i) =>
      if i !in s.calls || !s.calls[i].Snapshot? then s
      else
        var Snapshot(units, mark) := s.calls[i];
        if units < 2 then
          To(s, i, Done).(reported := s.reported +
                          if mark.Some? then [StaleAllow(c.who.name, mark.value.reason, units)] else [])
        else if MarkCovers(mark, units) then To(s, i, Done)
        else if s.list.None? then To(s, i, Unsuppressed(units, DeclinedUnits(c.who.name, mark, units, None)))
        else To(s, i, Asking(units, mark))
    case Ask(i) =>
      if i !in s.calls || !s.calls[i].Asking? || s.list.None? then s
      else
        var Asking(units, mark) := s.calls[i];
        var m := s.list.value;
        To(s, i, if Allows(m, c.who.name, units) then Done
                 else Unsuppressed(units, DeclinedUnits(c.who.name, mark, units, s.list)))
        .(list := Some(Consulted(m, c.who.name, units)), asked := Some(m))
    case Copy(i) =>
      if i !in s.calls || !s.calls[i].Unsuppressed? then s
      else To(s, i, Copied(s.calls[i].units, s.calls[i].declined, s.ledger.statements))
    case Report(i) =>
      if i !in s.calls || !s.calls[i].Copied? then s
      else
        var Copied(units, declined, statements) := s.calls[i];
        To(s, i, Done).(reported := s.reported +
                        [Violation(c.who.name, units, statements, s.ledger.truncated, declined, c.who.attrs)])
    case ListAdd(b, reason, units) =>
      if s.list.None? then s else s.(list := Some(Added(s.list.value, b, reason, units)))
    case ListAllow(b, count) =>
      if s.list.None? then s else s.(list := Some(Consulted(s.list.value, b, count)))
  }

  function Run(c: Setup, acts: seq<Action>): State {
    if acts == [] then Init(c) else Step(c, acts[|acts| - 1], Run(c, acts[..|acts| - 1]))
  }

  // ----- an independent reading of the history ------------------------------------------------

  function Timeline(acts: seq<Action>): seq<Record> {
    if acts == [] then []
    else
      var a := acts[|acts| - 1];
      Timeline(acts[..|acts| - 1]) + if a.Observe? then [a.r] else []
  }

  function LastMark(mark: Option<Mark>, acts: seq<Action>): Option<Mark> {
    if acts == [] then mark
    else if acts[|acts| - 1].Allow? then Some(acts[|acts| - 1].m)
    else LastMark(mark, acts[..|acts| - 1])
  }

  /** What the boundary holds after the history `acts`: its timeline and the last mark in it. */
  function Holding(c: Setup, acts: seq<Action>): Ledger {
    Content(Timeline(acts), c.cap, LastMark(c.mark, acts))
  }

  /** The instant the boundary is finished: the first lock taken by any Finish call. */
  predicate FinishesAt(acts: seq<Action>, k: nat) {
    k < |acts| && acts[k].FinishLock? && forall j | 0 <= j < k :: !acts[j].FinishLock?
  }

  lemma HoldingStep(c: Setup, acts: seq<Action>, s: State)
    requires acts != [] && !acts[|acts| - 1].FinishLock? && s.calls == map[]
    requires s.ledger == Holding(c, acts[..|acts| - 1])
    ensures Step(c, acts[|acts| - 1], s).ledger == Holding(c, acts)
  {
    var front, a := acts[..|acts| - 1], acts[|acts| - 1];
    if a.Observe? {
      assert Timeline(acts) == Timeline(front) + [a.r];
      OneMoreRecord(Timeline(front), a.r, c.cap, LastMark(c.mark, front));
    } else {
      assert Timeline(acts) == Timeline(front);
    }
  }

  lemma {:induction false} BeforeFinish(c: Setup, acts: seq<Action>)
    requires forall a | a in acts :: !a.FinishLock?
    ensures Run(c, acts).ledger == Holding(c, acts)
    ensures Run(c, acts).calls == map[] && Run(c, acts).reported == []
    ensures Run(c, acts).winner == None && Run(c, acts).asked == None
  {
    if acts != [] {
      var front, a := acts[..|acts| - 1], acts[|acts| - 1];
      assert a in acts && forall b | b in front :: b in acts;
      BeforeFinish(c, front);
      HoldingStep(c, acts, Run(c, front));
    }
  }

  // ----- after the instant of finishing -------------------------------------------------------

  function ToSeq(o: Option<Signal>): seq<Signal> {
    if o.Some? then [o.value] else []
  }

  /** The state of a finished boundary: its content is frozen, every Finish call but the winner is done,
      and the winner has reported nothing until it reports the verdict on the frozen content. */
  ghost predicate Settling(c: Setup, s: State, l: Ledger, winner: nat) {
    && s.ledger == l.(finished := true)
    && s.winner == Some(winner) && winner in s.calls
    && (forall i | i in s.calls && i != winner :: s.calls[i] == Done)
    && (s.list.None? <==> c.list.None?)
    && (s.asked.Some? ==> s.list.Some?)
    && match s.calls[winner]
       case Snapshot(units, mark) => units == l.Units() && mark == l.mark && s.reported == [] && s.asked.None?
       case Asking(units, mark) =>
         units == l.Units() && mark == l.mark && s.reported == [] && s.asked.None? && Consults(l) && s.list.Some?
       case Unsuppressed(units, declined) =>
         units == l.Units() && s.reported == [] && Consults(l) && (s.list.Some? ==> s.asked.Some?)
         && Verdict(c.who, l, s.asked) ==
            Some(Violation(c.who.name, units, l.statements, l.truncated, declined, c.who.attrs))
       case Copied(units, declined, statements) =>
         units == l.Units() && s.reported == [] && Consults(l) && (s.list.Some? ==> s.asked.Some?)
         && statements == l.statements
         && Verdict(c.who, l, s.asked) ==
            Some(Violation(c.who.name, units, l.statements, l.truncated, declined, c.who.attrs))
       case Done =>
         s.reported == ToSeq(Verdict(c.who, l, s.asked)) && (s.asked.Some? <==> Consults(l) && s.list.Some?)
  }

  lemma Freezes(c: Setup, s: State, i: nat)
    requires !s.ledger.finished && s.calls == map[] && s.reported == [] && s.asked == None
    requires s.list.None? <==> c.list.None?
    ensures Settling(c, Step(c, FinishLock(i), s), s.ledger, i)
  {
  }

  lemma Settles(c: Setup, a: Action, s: State, l: Ledger, winner: nat)
    requires Settling(c, s, l, winner)
    ensures Settling(c, Step(c, a, s), l, winner)
  {
  }

  lemma {:induction false} ListStays(c: Setup, acts: seq<Action>)
    ensures Run(c, acts).list.None? <==> c.list.None?
  {
    if acts != [] {
      ListStays(c, acts[..|acts| - 1]);
    }
  }

  lemma {:induction false} AfterFinish(c: Setup, acts: seq<Action>, k: nat)
    requires FinishesAt(acts, k)
    ensures Settling(c, Run(c, acts), Holding(c, acts[..k]), acts[k].call)
    decreases |acts|
  {
    var front := acts[..|acts| - 1];
    if k == |acts| - 1 {
      BeforeFinish(c, front);
      ListStays(c, front);
      Freezes(c, Run(c, front), acts[k].call);
    } else {
      assert front[..k] == acts[..k] && FinishesAt(front, k);
      AfterFinish(c, front, k);
      Settles(c, acts[|acts| - 1], Run(c, front), Holding(c, acts[..k]), acts[k].call);
    }
  }

  /** Whatever the interleaving: nothing is reported before the first Finish takes the lock, and at most
      one signal ever. The content stays what it was at that instant, so what the winner reads after
      unlocking is what it locked. When it is done, it has reported exactly the verdict on the timeline
      and the last mark before that instant, and on the allowlist as it was when asked. */
  lemma OutcomeOfEveryInterleaving(c: Setup, acts: seq<Action>)
    ensures var s := Run(c, acts);
            && |s.reported| <= 1
            && ((forall k | 0 <= k < |acts| :: !FinishesAt(acts, k)) ==> s.reported == [])
            && (forall k | 0 <= k < |acts| && FinishesAt(acts, k) ::
                  var l := Holding(c, acts[..k]);
                  && s.ledger == l.(finished := true)
                  && acts[k].call in s.calls
                  && (s.reported != [] ==> s.calls[acts[k].call].Done?)
                  && (s.calls[acts[k].call].Done? ==> s.reported == ToSeq(Verdict(c.who, l, s.asked))))
  {
    if exists k :: FinishesAt(acts, k) {
      var k :| FinishesAt(acts, k);
      AfterFinish(c, acts, k);
      forall j | 0 <= j < |acts| && FinishesAt(acts, j) ensures j == k {
      }
    } else {
      NoFinish(acts);
      BeforeFinish(c, acts);
    }
  }

  lemma {:induction false} NoFinish(acts: seq<Action>)
    requires forall k: nat :: !FinishesAt(acts, k)
    ensures forall a | a in acts :: !a.FinishLock?
  {
    if acts != [] {
      var n := |acts| - 1;
      forall k: nat ensures !FinishesAt(acts[..n], k) {
        assert !FinishesAt(acts, k);
      }
      NoFinish(acts[..n]);
      assert forall j | 0 <= j < n :: acts[j] == acts[..n][j] && acts[..n][j] in acts[..n];
      assert !FinishesAt(acts, n);
    }
  }

  /** The entries the winner asked are the allowlist's at some moment after the boundary was finished. */
  lemma {:induction false} AskedAtSomeMoment(c: Setup, acts: seq<Action>) returns (m: nat)
    requires Run(c, acts).asked.Some?
    ensures m < |acts| && acts[m].Ask? && Run(c, acts[..m]).list == Run(c, acts).asked
    ensures Run(c, acts[..m]).ledger.finished
    decreases |acts|
  {
    var n := |acts| - 1;
    if Run(c, acts[..n]).asked == Run(c, acts).asked {
      m := AskedAtSomeMoment(c, acts[..n]);
      assert acts[..n][..m] == acts[..m];
    } else {
      m := n;
      CallsNeedFinish(c, acts[..n]);
    }
  }

  lemma CallsNeedFinish(c: Setup, acts: seq<Action>)
    ensures Run(c, acts).calls != map[] ==> Run(c, acts).ledger.finished
  {
    if forall k: nat :: !FinishesAt(acts, k) {
      NoFinish(acts);
      BeforeFinish(c, acts);
    } else {
      var k: nat :| FinishesAt(acts, k);
      AfterFinish(c, acts, k);
    }
  }

  // ----- the used flag ------------------------------------------------------------------------

  /** The action suppresses a violation of boundary `b` through the allowlist. */
  predicate Suppresses(c: Setup, a: Action, s: State, b: string) {
    s.list.Some? &&
    match a
    case Ask(i) => i in s.calls && s.calls[i].Asking? && b == c.who.name && Allows(s.list.value, b, s.calls[i].units)
    case ListAllow(name, count) => b == name && Allows(s.list.value, b, count)
    case _ => false
  }

  lemma UsedStep(c: Setup, a: Action, s: State, b: string)
    requires s.list.Some?
    ensures var m, m' := s.list.value, Step(c, a, s).list;
            && m'.Some?
            && (b in m'.value <==> b in m || (a.ListAdd? && a.boundary == b))
            && (b in m'.value ==>
                  (m'.value[b].used <==>
                     !(a.ListAdd? && a.boundary == b) && (m[b].used || Suppresses(c, a, s, b))))
  {
  }

  predicate AddedAt(acts: seq<Action>, j: nat, b: string) {
    j < |acts| && acts[j].ListAdd? && acts[j].boundary == b
  }

  /** Step `j` suppressed a violation of `b`, and `b` has not been added again since. */
  predicate SuppressedSince(c: Setup, acts: seq<Action>, j: nat, b: string) {
    && j < |acts| && Suppresses(c, acts[j], Run(c, acts[..j]), b)
    && forall k | j < k < |acts| :: !AddedAt(acts, k, b)
  }

  ghost predicate EverSuppressed(c: Setup, acts: seq<Action>, b: string) {
    exists j: nat :: SuppressedSince(c, acts, j, b)
  }

  /** Over every run on an allowlist that starts unused: an entry is used exactly when it has suppressed
      a violation since it was last added. */
  lemma {:induction false} UsedIffSuppressed(c: Setup, acts: seq<Action>, b: string)
    requires c.list.Some? && forall n | n in c.list.value :: !c.list.value[n].used
    ensures Run(c, acts).list.Some?
    ensures b in Run(c, acts).list.value ==>
              (Run(c, acts).list.value[b].used <==> EverSuppressed(c, acts, b))
  {
    if acts != [] {
      var front, a := acts[..|acts| - 1], acts[|acts| - 1];
      var n := |front|;
      UsedIffSuppressed(c, front, b);
      UsedStep(c, a, Run(c, front), b);
      SinceLast(c, acts, b);
    }
  }

  lemma SinceLast(c: Setup, acts: seq<Action>, b: string)
    requires acts != []
    ensures var n := |acts| - 1;
            EverSuppressed(c, acts, b) <==>
            !AddedAt(acts, n, b) &&
            (Suppresses(c, acts[n], Run(c, acts[..n]), b) || EverSuppressed(c, acts[..n], b))
  {
    var n := |acts| - 1;
    var front := acts[..n];
    assert forall j | 0 <= j <= n :: front[..j] == acts[..j];
    assert forall k: nat | k < n :: AddedAt(acts, k, b) == AddedAt(front, k, b);
    forall j: nat ensures SuppressedSince(c, acts, j, b) <==>
      !AddedAt(acts, n, b) &&
      (if j == n then Suppresses(c, acts[n], Run(c, front), b) else SuppressedSince(c, front, j, b))
    {
      SinceAt(c, acts, j, b);
    }
    if !AddedAt(acts, n, b) && Suppresses(c, acts[n], Run(c, front), b) {
      assert SuppressedSince(c, acts, n, b);
    }
  }

  lemma SinceAt(c: Setup, acts: seq<Action>, j: nat, b: string)
    requires acts != []
    ensures var n := |acts| - 1;
            SuppressedSince(c, acts, j, b) <==>
            !AddedAt(acts, n, b) &&
            (if j == n then Suppresses(c, acts[n], Run(c, acts[..n]), b) else SuppressedSince(c, acts[..n], j, b))
  {
    var n := |acts| - 1;
    var front := acts[..n];
    assert forall i | 0 <= i <= n :: front[..i] == acts[..i];
    assert forall k: nat | k < n :: AddedAt(acts, k, b) == AddedAt(front, k, b);
    if j == n {
      assert !SuppressedSince(c, front, j, b);
      if AddedAt(acts, n, b) {
        assert !Suppresses(c, acts[n], Run(c, front), b);
      }
    }
  }
}
