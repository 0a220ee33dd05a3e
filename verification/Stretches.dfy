/** Transaction ids are fresh: over any run of any number of Sessions, a nonzero id belongs to one
    Session during one uninterrupted stretch. */
module Stretches {
  import opened Text
  import opened Reconstruct
  import opened TxIds
  import opened Simulation
  import opened Images
  import opened Ledgers

  function Held(c: Checker, tr: seq<Event>, t: string): u64 {
    ConnOf(Run(c, tr), t).held
  }

  /** How many transactions the Session of `t` has started. */
  function Stretch(c: Checker, tr: seq<Event>, t: string): nat {
    if tr == [] then 0
    else
      var front, e := tr[..|tr| - 1], tr[|tr| - 1];
      Stretch(c, front, t) + if e.thread == t && Draws(c, e, Held(c, front, t)) then 1 else 0
  }

  /** Which Session drew each id, for which of its stretches. */
  function Owners(c: Checker, tr: seq<Event>): map<u64, (string, nat)> {
    if tr == [] then map[]
    else
      var front, e := tr[..|tr| - 1], tr[|tr| - 1];
      if Draws(c, e, Held(c, front, e.thread)) then
        Owners(c, front)[Next(Run(c, front).seqNo) := (e.thread, Stretch(c, front, e.thread) + 1)]
      else Owners(c, front)
  }

  ghost predicate Owned(c: Checker, tr: seq<Event>) {
    var o := Owners(c, tr);
    && Run(c, tr).seqNo == Drawn(c, tr)
    && (forall x | x in o :: 1 <= x <= Run(c, tr).seqNo)
    && (forall x | x in o :: o[x].1 <= Stretch(c, tr, o[x].0))
    && (forall x, y | x in o && y in o && o[x] == o[y] :: x == y)
  }

  /** What one event does to the counter and to the held ids. */
  lemma AdvanceHeld(c: Checker, e: Event, n: nat, j: Joint)
    ensures var j' := Advance(c, e, n, j);
            var held, held' := ConnOf(j, e.thread).held, ConnOf(j', e.thread).held;
            && (forall t | t != e.thread :: ConnOf(j', t).held == ConnOf(j, t).held)
            && (if Draws(c, e, held) then j'.seqNo == held' == Next(j.seqNo)
                else j'.seqNo == j.seqNo && (held' == 0 || held' == held))
  {
  }

  lemma HeldStep(c: Checker, tr: seq<Event>, t: string)
    requires tr != []
    ensures var front, e := tr[..|tr| - 1], tr[|tr| - 1];
            var j, j' := Run(c, front), Run(c, tr);
            var held, held' := ConnOf(j, t).held, ConnOf(j', t).held;
            && (t != e.thread ==> held' == held)
            && (t == e.thread ==>
                  if Draws(c, e, held) then j'.seqNo == held' == Next(j.seqNo)
                  else j'.seqNo == j.seqNo && (held' == 0 || held' == held))
  {
    var n := |tr| - 1;
    var j := Run(c, tr[..n]);
    AdvanceHeld(c, tr[n], n, j);
    assert Run(c, tr) == Advance(c, tr[n], n, j);
  }

  lemma StretchStep(c: Checker, tr: seq<Event>, t: string)
    requires tr != []
    ensures var front, e := tr[..|tr| - 1], tr[|tr| - 1];
            Stretch(c, tr, t) == Stretch(c, front, t) +
            if e.thread == t && Draws(c, e, ConnOf(Run(c, front), t).held) then 1 else 0
  {
  }

  lemma DrawnStep(c: Checker, tr: seq<Event>)
    requires tr != []
    ensures var front, e := tr[..|tr| - 1], tr[|tr| - 1];
            Drawn(c, tr) == Drawn(c, front) +
            if Draws(c, e, ConnOf(Run(c, front), e.thread).held) then 1 else 0
  {
  }

  /** How one step moves a Session that is or is not its own, with the counter at `k` before it. */
  predicate Moves(own: bool, draws: bool, k: u64, held: u64, held': u64, stretch: nat, stretch': nat) {
    if own && draws then held' == k + 1 && stretch' == stretch + 1
    else stretch' == stretch && (held' == held || (own && held' == 0))
  }

  lemma MovesFrom(own: bool, draws: bool, k: u64, k': u64, held: u64, held': u64, stretch: nat, stretch': nat,
                  drawn: nat, drawn': nat)
    requires k == drawn && drawn' == (drawn + if draws then 1 else 0) < U64
    requires k' == if draws then Next(k) else k
    requires if own && draws then held' == Next(k) else held' == held || (own && held' == 0)
    requires stretch' == stretch + if own && draws then 1 else 0
    ensures Moves(own, draws, k, held, held', stretch, stretch') && k' == drawn'
  {
  }

  lemma OneStep(c: Checker, tr: seq<Event>, t: string)
    requires tr != [] && Drawn(c, tr) < U64
    requires Run(c, tr[..|tr| - 1]).seqNo == Drawn(c, tr[..|tr| - 1])
    ensures var front, e := tr[..|tr| - 1], tr[|tr| - 1];
            Moves(t == e.thread, Draws(c, e, Held(c, front, e.thread)), Run(c, front).seqNo,
                  Held(c, front, t), Held(c, tr, t), Stretch(c, front, t), Stretch(c, tr, t))
    ensures Run(c, tr).seqNo == Drawn(c, tr)
  {
    var front, e := tr[..|tr| - 1], tr[|tr| - 1];
    HeldStep(c, tr, t);
    HeldStep(c, tr, e.thread);
    DrawnStep(c, tr);
    StretchStep(c, tr, t);
    MovesFrom(t == e.thread, Draws(c, e, Held(c, front, e.thread)), Run(c, front).seqNo, Run(c, tr).seqNo,
              Held(c, front, t), Held(c, tr, t), Stretch(c, front, t), Stretch(c, tr, t),
              Drawn(c, front), Drawn(c, tr));
  }

  lemma {:induction false} OwnersHold(c: Checker, tr: seq<Event>)
    requires Drawn(c, tr) < U64
    ensures Owned(c, tr)
  {
    if tr != [] {
      var front, e := tr[..|tr| - 1], tr[|tr| - 1];
      OwnersHold(c, front);
      OneStep(c, tr, e.thread);
      var o, o' := Owners(c, front), Owners(c, tr);
      forall x | x in o' ensures o'[x].1 <= Stretch(c, tr, o'[x].0) {
        OneStep(c, tr, o'[x].0);
      }
    }
  }

  /** The id a Session holds is recorded as drawn by it, for its current stretch. */
  lemma {:induction false} HolderOwns(c: Checker, tr: seq<Event>, t: string)
    requires Drawn(c, tr) < U64 && Held(c, tr, t) != 0
    ensures Held(c, tr, t) in Owners(c, tr) && Owners(c, tr)[Held(c, tr, t)] == (t, Stretch(c, tr, t))
  {
    if tr != [] {
      var front, e := tr[..|tr| - 1], tr[|tr| - 1];
      OwnersHold(c, front);
      OneStep(c, tr, t);
      if Held(c, tr, t) == Held(c, front, t) {
        HolderOwns(c, front, t);
      }
    }
  }

  lemma KeepsOwner(o: map<u64, (string, nat)>, k: u64, owner: (string, nat), x: u64)
    requires x in o && x <= k && k + 1 < U64
    ensures var o' := o[Next(k) := owner]; x in o' && o'[x] == o[x]
  {
  }

  /** Ids once drawn keep their owner. */
  lemma {:induction false} OwnersGrow(c: Checker, tr: seq<Event>, i: nat, x: u64)
    requires i <= |tr| && Drawn(c, tr) < U64 && x in Owners(c, tr[..i])
    ensures x in Owners(c, tr) && Owners(c, tr)[x] == Owners(c, tr[..i])[x]
    decreases |tr|
  {
    if i == |tr| {
      assert tr[..i] == tr;
    } else {
      var front := tr[..|tr| - 1];
      assert front[..i] == tr[..i];
      var e := tr[|tr| - 1];
      OwnersGrow(c, front, i, x);
      OwnersHold(c, front);
      if Draws(c, e, Held(c, front, e.thread)) {
        KeepsOwner(Owners(c, front), Run(c, front).seqNo, (e.thread, Stretch(c, front, e.thread) + 1), x);
      }
    }
  }

  lemma {:induction false} DrawnGrows(c: Checker, tr: seq<Event>, i: nat)
    requires i <= |tr|
    ensures Drawn(c, tr[..i]) <= Drawn(c, tr)
    decreases |tr|
  {
    if i < |tr| {
      assert tr[..|tr| - 1][..i] == tr[..i];
      DrawnGrows(c, tr[..|tr| - 1], i);
    } else {
      assert tr[..i] == tr;
    }
  }

  /** At any two moments of a run, the same nonzero id means the same Session in the same stretch. */
  lemma SameIdIffSameStretch(c: Checker, tr: seq<Event>, i: nat, s: string, j: nat, t: string)
    requires i <= |tr| && j <= |tr| && Drawn(c, tr) < U64
    requires Held(c, tr[..i], s) != 0 && Held(c, tr[..j], t) != 0
    ensures Held(c, tr[..i], s) == Held(c, tr[..j], t) <==>
            s == t && Stretch(c, tr[..i], s) == Stretch(c, tr[..j], t)
  {
    DrawnGrows(c, tr, i);
    DrawnGrows(c, tr, j);
    HolderOwns(c, tr[..i], s);
    HolderOwns(c, tr[..j], t);
    OwnersGrow(c, tr, i, Held(c, tr[..i], s));
    OwnersGrow(c, tr, j, Held(c, tr[..j], t));
    OwnersHold(c, tr);
  }

  lemma {:induction false} StretchGrows(c: Checker, tr: seq<Event>, i: nat, t: string)
    requires i <= |tr|
    ensures Stretch(c, tr[..i], t) <= Stretch(c, tr, t)
    decreases |tr|
  {
    if i < |tr| {
      assert tr[..|tr| - 1][..i] == tr[..i];
      StretchGrows(c, tr[..|tr| - 1], i, t);
    } else {
      assert tr[..i] == tr;
    }
  }

  lemma MovesKeep(own: bool, draws: bool, k: u64, held: u64, held': u64, stretch: nat, stretch': nat, low: nat)
    requires Moves(own, draws, k, held, held', stretch, stretch')
    requires held' != 0 && low <= stretch && low == stretch'
    ensures held == held' && low == stretch
  {
  }

  lemma {:induction false} CounterIsDrawn(c: Checker, tr: seq<Event>)
    requires Drawn(c, tr) < U64
    ensures Run(c, tr).seqNo == Drawn(c, tr)
  {
    if tr != [] {
      DrawnGrows(c, tr, |tr| - 1);
      CounterIsDrawn(c, tr[..|tr| - 1]);
      OneStep(c, tr, tr[|tr| - 1].thread);
    }
  }

  /** A Session that holds an id at two moments of one stretch held it all the time between. */
  lemma {:induction false} StretchIsContiguous(c: Checker, tr: seq<Event>, i: nat, k: nat, t: string)
    requires i <= k <= |tr| && Drawn(c, tr) < U64
    requires Held(c, tr, t) != 0 && Stretch(c, tr[..i], t) == Stretch(c, tr, t)
    ensures Held(c, tr[..k], t) == Held(c, tr, t)
    decreases |tr|
  {
    if k == |tr| {
      assert tr[..k] == tr;
    } else {
      var n := |tr| - 1;
      var front, e := tr[..n], tr[n];
      assert front[..i] == tr[..i] && front[..k] == tr[..k];
      DrawnGrows(c, tr, n);
      CounterIsDrawn(c, front);
      StretchGrows(c, front, i, t);
      OneStep(c, tr, t);
      MovesKeep(t == e.thread, Draws(c, e, Held(c, front, e.thread)), Run(c, front).seqNo,
                Held(c, front, t), Held(c, tr, t), Stretch(c, front, t), Stretch(c, tr, t), Stretch(c, front[..i], t));
      StretchIsContiguous(c, front, i, k, t);
    }
  }

  // ----- what a boundary counts ---------------------------------------------------------------

  /** The id the event at `i` is recorded under. */
  function IdAt(c: Checker, tr: seq<Event>, i: nat): u64
    requires i < |tr|
  {
    Held(c, tr[..i + 1], tr[i].thread)
  }

  function StretchAt(c: Checker, tr: seq<Event>, i: nat): (string, nat)
    requires i < |tr|
  {
    (tr[i].thread, Stretch(c, tr[..i + 1], tr[i].thread))
  }

  /** The ids the events are recorded under, in order. */
  function AllIds(c: Checker, tr: seq<Event>): (ids: seq<u64>)
    ensures |ids| == |tr| && forall i | 0 <= i < |tr| :: ids[i] == IdAt(c, tr, i)
  {
    seq(|tr|, i requires 0 <= i < |tr| => IdAt(c, tr, i))
  }

  function AllStretches(c: Checker, tr: seq<Event>): (ss: seq<(string, nat)>)
    ensures |ss| == |tr| && forall i | 0 <= i < |tr| :: ss[i] == StretchAt(c, tr, i)
  {
    seq(|tr|, i requires 0 <= i < |tr| => StretchAt(c, tr, i))
  }

  /** A boundary that received the statements at any set of positions counts as many transactions as
      there are (Session, stretch) pairs among its in-transaction writes. */
  lemma TransactionsAreStretches(c: Checker, tr: seq<Event>, mine: set<nat>)
    requires Drawn(c, tr) < U64
    requires forall i | i in mine :: i < |tr| && AllIds(c, tr)[i] != 0
    ensures |At(AllIds(c, tr), mine)| == |At(AllStretches(c, tr), mine)|
  {
    var ids, ss := AllIds(c, tr), AllStretches(c, tr);
    forall i, j | i in mine && j in mine ensures ids[i] == ids[j] <==> ss[i] == ss[j] {
      SamePair(c, tr, i, j);
    }
    SameSizeAt(ids, ss, mine);
  }

  lemma SamePair(c: Checker, tr: seq<Event>, i: nat, j: nat)
    requires i < |tr| && j < |tr| && Drawn(c, tr) < U64
    requires Held(c, tr[..i + 1], tr[i].thread) != 0 && Held(c, tr[..j + 1], tr[j].thread) != 0
    ensures Held(c, tr[..i + 1], tr[i].thread) == Held(c, tr[..j + 1], tr[j].thread) <==>
            StretchAt(c, tr, i) == StretchAt(c, tr, j)
  {
    var s, t := tr[i].thread, tr[j].thread;
    SameIdIffSameStretch(c, tr, i + 1, s, j + 1, t);
  }

  /** The timeline of a boundary that receives the statements at the positions `mine`, by whatever
      Sessions they run on. */
  function Part(c: Checker, tr: seq<Event>, mine: set<nat>): seq<Record> {
    if tr == [] then []
    else
      var n, e := |tr| - 1, tr[|tr| - 1];
      Part(c, tr[..n], mine) +
      if n in mine && e.Exec? then [Record(e.text, c.classify(e.text), Held(c, tr, e.thread))] else []
  }

  /** The writes among them that ran inside a transaction, or (`auto`) outside one. */
  function WritesAt(c: Checker, tr: seq<Event>, mine: set<nat>, auto: bool): set<nat> {
    set i | i in mine && i < |tr| && IsWrite(c, tr[i]) && (IdAt(c, tr, i) == 0) == auto
  }

  lemma IdAtFront(c: Checker, tr: seq<Event>, i: nat)
    requires i < |tr| - 1
    ensures IdAt(c, tr[..|tr| - 1], i) == IdAt(c, tr, i)
  {
    assert tr[..|tr| - 1][..i + 1] == tr[..i + 1];
  }

  lemma IdAtLast(c: Checker, tr: seq<Event>)
    requires tr != []
    ensures IdAt(c, tr, |tr| - 1) == Held(c, tr, tr[|tr| - 1].thread)
  {
    assert tr[..|tr|] == tr;
  }

  lemma WritesAtStep(c: Checker, tr: seq<Event>, mine: set<nat>, auto: bool)
    requires tr != []
    ensures var n := |tr| - 1;
            var front := WritesAt(c, tr[..n], mine, auto);
            && n !in front
            && WritesAt(c, tr, mine, auto) ==
               if n in mine && IsWrite(c, tr[n]) && (IdAt(c, tr, n) == 0) == auto then front + {n} else front
  {
    var n := |tr| - 1;
    forall i: nat | i < n ensures IdAt(c, tr[..n], i) == IdAt(c, tr, i) {
      IdAtFront(c, tr, i);
    }
  }

  lemma AtFront(c: Checker, tr: seq<Event>, at: set<nat>)
    requires tr != [] && forall i | i in at :: i < |tr| - 1
    ensures At(AllIds(c, tr), at) == At(AllIds(c, tr[..|tr| - 1]), at)
  {
    var ids, front := AllIds(c, tr), AllIds(c, tr[..|tr| - 1]);
    forall i | i in at ensures ids[i] == front[i] {
      IdAtFront(c, tr, i);
    }
  }

  lemma {:induction false} PartUnits(c: Checker, tr: seq<Event>, mine: set<nat>)
    ensures TxUnits(Part(c, tr, mine)) == At(AllIds(c, tr), WritesAt(c, tr, mine, false))
    ensures AutoUnits(Part(c, tr, mine)) == |WritesAt(c, tr, mine, true)|
  {
    if tr != [] {
      var n, e := |tr| - 1, tr[|tr| - 1];
      PartUnits(c, tr[..n], mine);
      WritesAtStep(c, tr, mine, false);
      WritesAtStep(c, tr, mine, true);
      IdAtLast(c, tr);
      AtFront(c, tr, WritesAt(c, tr[..n], mine, false));
      AtOneMore(AllIds(c, tr), WritesAt(c, tr[..n], mine, false), n);
      if n in mine && e.Exec? {
        UnitsSnoc(Part(c, tr[..n], mine), Record(e.text, c.classify(e.text), Held(c, tr, e.thread)));
      } else {
        assert Part(c, tr, mine) == Part(c, tr[..n], mine);
      }
    }
  }

  /** Whatever share of a run's statements a boundary receives: it counts the (Session, stretch) pairs in
      which it received a write, and its auto-commit writes one by one. */
  lemma BoundaryCountsStretches(c: Checker, tr: seq<Event>, mine: set<nat>, mark: Option<Mark>, cap: int)
    requires Drawn(c, tr) < U64
    ensures RecordedAll(Opened(mark), cap, Part(c, tr, mine)).Units() ==
            |At(AllStretches(c, tr), WritesAt(c, tr, mine, false))| + |WritesAt(c, tr, mine, true)|
  {
    LedgerOfTimeline(mark, cap, Part(c, tr, mine));
    PartUnits(c, tr, mine);
    TransactionsAreStretches(c, tr, WritesAt(c, tr, mine, false));
  }

  // ----- exactly how long ids are fresh --------------------------------------------------------

  /** The event at `i` draws an id, and its Session then holds 0, which reads as auto-commit. */
  predicate DrawsZero(c: Checker, tr: seq<Event>, i: nat) {
    && i < |tr| && Draws(c, tr[i], Held(c, tr[..i], tr[i].thread))
    && Held(c, tr[..i + 1], tr[i].thread) == 0
  }

  lemma AdvanceModulo(c: Checker, e: Event, n: nat, j: Joint, drawn: nat)
    requires j.seqNo == drawn % U64
    ensures Advance(c, e, n, j).seqNo == (drawn + if Draws(c, e, ConnOf(j, e.thread).held) then 1 else 0) % U64
  {
    AdvanceHeld(c, e, n, j);
    NextWraps(drawn + 1, j.seqNo);
  }

  /** The counter is the number of ids drawn, modulo its width. */
  lemma {:induction false} CounterModulo(c: Checker, tr: seq<Event>)
    ensures Run(c, tr).seqNo == Drawn(c, tr) % U64
  {
    if tr != [] {
      var n := |tr| - 1;
      CounterModulo(c, tr[..n]);
      AdvanceModulo(c, tr[n], n, Run(c, tr[..n]), Drawn(c, tr[..n]));
    }
  }

  lemma NextZero(drawn: nat, k: u64)
    requires k == drawn % U64
    ensures Next(k) == 0 ==> drawn + 1 >= U64
    ensures drawn + 1 == U64 ==> Next(k) == 0
  {
    NextWraps(drawn + 1, k);
  }

  /** A draw yields 0 only from the 2^64-th on, and the 2^64-th does. */
  lemma LastDrawsZero(c: Checker, tr: seq<Event>)
    requires tr != []
    ensures var front, e := tr[..|tr| - 1], tr[|tr| - 1];
            Draws(c, e, Held(c, front, e.thread)) ==>
              && Drawn(c, tr) == Drawn(c, front) + 1
              && (Held(c, tr, e.thread) == 0 ==> Drawn(c, tr) >= U64)
              && (Drawn(c, tr) == U64 ==> Held(c, tr, e.thread) == 0)
  {
    var front := tr[..|tr| - 1];
    HeldStep(c, tr, tr[|tr| - 1].thread);
    DrawnStep(c, tr);
    CounterModulo(c, front);
    NextZero(Drawn(c, front), Run(c, front).seqNo);
  }

  lemma {:induction false} FirstZero(c: Checker, tr: seq<Event>) returns (i: nat)
    requires Drawn(c, tr) >= U64
    ensures DrawsZero(c, tr, i)
  {
    var n := |tr| - 1;
    if Drawn(c, tr[..n]) >= U64 {
      i := FirstZero(c, tr[..n]);
      assert tr[..n][..i] == tr[..i] && tr[..n][..i + 1] == tr[..i + 1];
    } else {
      i := n;
      LastDrawsZero(c, tr);
      assert tr[..n + 1] == tr;
    }
  }

  lemma ZeroWraps(c: Checker, tr: seq<Event>, i: nat)
    requires DrawsZero(c, tr, i)
    ensures Drawn(c, tr) >= U64
  {
    assert tr[..i + 1][..i] == tr[..i];
    LastDrawsZero(c, tr[..i + 1]);
    DrawnGrows(c, tr, i + 1);
  }

  /** Every id drawn is one that identifies a transaction exactly as long as fewer than 2^64 are drawn. */
  lemma IdsFailIff(c: Checker, tr: seq<Event>)
    ensures (exists i: nat :: DrawsZero(c, tr, i)) <==> Drawn(c, tr) >= U64
  {
    if Drawn(c, tr) >= U64 {
      var i := FirstZero(c, tr);
    }
    forall i: nat | DrawsZero(c, tr, i) ensures Drawn(c, tr) >= U64 {
      ZeroWraps(c, tr, i);
    }
  }

  function Begins(t: string, n: nat): seq<Event> {
    seq(n, _ => DriverBegin(t, "BEGIN"))
  }

  /** The bound is tight: the draw that wraps the counter yields 0, which reads as auto-commit, and the
      next one repeats the very first id. */
  lemma {:induction false} WrappedIds(c: Checker, t: string, n: nat)
    requires n > 0
    ensures Drawn(c, Begins(t, n)) == n && Stretch(c, Begins(t, n), t) == n
    ensures Held(c, Begins(t, n), t) == Run(c, Begins(t, n)).seqNo == n % U64
  {
    var tr := Begins(t, n);
    var e := DriverBegin(t, "BEGIN");
    assert tr == tr[..n - 1] + [e] && tr[..n - 1] == Begins(t, n - 1);
    var k := if n == 1 then 0 else (n - 1) % U64;
    if n > 1 {
      WrappedIds(c, t, n - 1);
    } else {
      assert Begins(t, 0) == [];
    }
    assert Run(c, tr[..n - 1]).seqNo == k;
    NextWraps(n, k);
    BeginsStep(c, tr, e, t);
  }

  lemma NextWraps(n: nat, k: u64)
    requires n > 0 && k == (n - 1) % U64
    ensures Next(k) == n % U64
  {
  }

  lemma BeginsStep(c: Checker, tr: seq<Event>, e: Event, t: string)
    requires tr != [] && e == tr[|tr| - 1] == DriverBegin(t, "BEGIN")
    ensures Run(c, tr).seqNo == Held(c, tr, t) == Next(Run(c, tr[..|tr| - 1]).seqNo)
    ensures Drawn(c, tr) == Drawn(c, tr[..|tr| - 1]) + 1
    ensures Stretch(c, tr, t) == Stretch(c, tr[..|tr| - 1], t) + 1
  {
  }
}
