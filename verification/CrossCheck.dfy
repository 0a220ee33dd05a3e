/** crosscheck.Check: the server-side write units of a statement list. */
module CrossCheck {
  import opened Classify
  import opened Filters
  import opened Images

  datatype Statement = Statement(sql: string, kind: Kind, txID: string, line: int)

  datatype Unit = Unit(txID: string, statements: seq<Statement>)

  datatype Report = Report(writeUnits: nat, units: seq<Unit>)
  {
    predicate Atomic() {
      writeUnits <= 1
    }
  }

  /** The write that carries no identity is the error. */
  datatype Outcome = Ok(report: Report) | MissingTxID(statement: Statement)

  // ----- specification ------------------------------------------------------------------------

  function Writes(stmts: seq<Statement>): seq<Statement> {
    if stmts == [] then []
    else
      var last := stmts[|stmts| - 1];
      Writes(stmts[..|stmts| - 1]) + if last.kind == Write then [last] else []
  }

  function WithId(ws: seq<Statement>, id: string): seq<Statement> {
    if ws == [] then []
    else
      var last := ws[|ws| - 1];
      WithId(ws[..|ws| - 1], id) + if last.txID == id then [last] else []
  }

  /** The identities, each once, in order of first appearance. */
  function Ids(ws: seq<Statement>): seq<string> {
    if ws == [] then []
    else
      var last := ws[|ws| - 1];
      var ids := Ids(ws[..|ws| - 1]);
      if last.txID in ids then ids else ids + [last.txID]
  }

  function IdSet(ws: seq<Statement>): set<string> {
    set w | w in ws :: w.txID
  }

  function Grouped(ws: seq<Statement>): seq<Unit> {
    var ids := Ids(ws);
    seq(|ids|, i requires 0 <= i < |ids| => Unit(ids[i], WithId(ws, ids[i])))
  }

  predicate Anonymous(s: Statement) {
    s.kind == Write && s.txID == ""
  }

  lemma {:induction false} WithIdMembers(ws: seq<Statement>, id: string, w: Statement)
    ensures w in WithId(ws, id) <==> w in ws && w.txID == id
  {
    if ws != [] {
      WithIdMembers(ws[..|ws| - 1], id, w);
      assert ws == ws[..|ws| - 1] + [ws[|ws| - 1]];
    }
  }

  lemma {:induction false} IdsMembers(ws: seq<Statement>, id: string)
    ensures id in Ids(ws) <==> id in IdSet(ws)
  {
    if ws != [] {
      IdsMembers(ws[..|ws| - 1], id);
      assert ws == ws[..|ws| - 1] + [ws[|ws| - 1]];
      assert IdSet(ws) == IdSet(ws[..|ws| - 1]) + {ws[|ws| - 1].txID};
    }
  }

  lemma {:induction false} IdsDistinct(ws: seq<Statement>)
    ensures forall i, j | 0 <= i < j < |Ids(ws)| :: Ids(ws)[i] != Ids(ws)[j]
  {
    if ws != [] {
      IdsDistinct(ws[..|ws| - 1]);
    }
  }

  // ----- the code -----------------------------------------------------------------------------

  /** `order` and `units` are the grouping of the writes `ws` seen so far. */
  predicate Tracks(ws: seq<Statement>, order: seq<string>, units: map<string, seq<Statement>>) {
    && order == Ids(ws)
    && (forall id | id in order :: id in units && units[id] == WithId(ws, id))
    && (forall id | id in units :: id in order)
  }

  function Ordered(order: seq<string>, units: map<string, seq<Statement>>, st: Statement): seq<string> {
    if st.txID in units then order else order + [st.txID]
  }

  function Joined(units: map<string, seq<Statement>>, st: Statement): map<string, seq<Statement>> {
    units[st.txID := (if st.txID in units then units[st.txID] else []) + [st]]
  }

  lemma TracksOneMore(ws: seq<Statement>, order: seq<string>, units: map<string, seq<Statement>>, st: Statement)
    requires Tracks(ws, order, units)
    ensures Tracks(ws + [st], Ordered(order, units, st), Joined(units, st))
  {
    assert (ws + [st])[..|ws|] == ws;
    if st.txID !in units {
      NoneYet(ws, st.txID);
    }
  }

  lemma NoneYet(ws: seq<Statement>, id: string)
    requires id !in Ids(ws)
    ensures WithId(ws, id) == []
  {
    IdsMembers(ws, id);
    if WithId(ws, id) != [] {
      var w := WithId(ws, id)[0];
      WithIdMembers(ws, id, w);
    }
  }

  /** The first statement that is a write without an identity. */
  predicate FirstAnonymous(stmts: seq<Statement>, i: nat) {
    i < |stmts| && Anonymous(stmts[i]) && forall j | 0 <= j < i :: !Anonymous(stmts[j])
  }

  lemma WritesOfTake(stmts: seq<Statement>, k: nat)
    requires k < |stmts|
    ensures Writes(stmts[..k + 1]) ==
            if stmts[k].kind == Write then Writes(stmts[..k]) + [stmts[k]] else Writes(stmts[..k])
  {
    assert stmts[..k + 1][..k] == stmts[..k];
  }

  /** The statement goes to its identity's unit, a new one if there is none yet. */
  method Append(ghost ws: seq<Statement>, order0: seq<string>, units0: map<string, seq<Statement>>, st: Statement)
    returns (order: seq<string>, units: map<string, seq<Statement>>)
    requires Tracks(ws, order0, units0)
    ensures Tracks(ws + [st], order, units)
  {
    TracksOneMore(ws, order0, units0, st);
    order, units := order0, units0;
    if st.txID !in units {
      units := units[st.txID := []];
      order := order + [st.txID];
    }
    units := units[st.txID := units[st.txID] + [st]];
    assert order == Ordered(order0, units0, st) && units == Joined(units0, st);
  }

  /** The grouping loop: every write is appended to its identity's unit. */
  method Group(stmts: seq<Statement>)
    returns (order: seq<string>, units: map<string, seq<Statement>>, missing: nat)
    ensures missing <= |stmts|
    ensures missing < |stmts| ==> FirstAnonymous(stmts, missing)
    ensures missing == |stmts| ==> forall j | 0 <= j < |stmts| :: !Anonymous(stmts[j])
    ensures missing == |stmts| ==> Tracks(Writes(stmts), order, units)
  {
    order, units := [], map[];
    for k := 0 to |stmts|
      invariant forall j | 0 <= j < k :: !Anonymous(stmts[j])
      invariant Tracks(Writes(stmts[..k]), order, units)
    {
      var st := stmts[k];
      WritesOfTake(stmts, k);
      if st.kind != Write {
        continue;
      }
      if st.txID == "" {
        return order, units, k;
      }
      order, units := Append(Writes(stmts[..k]), order, units, st);
    }
    assert stmts[..|stmts|] == stmts;
    missing := |stmts|;
  }

  /** The units in the order of their identities. */
  method Collect(ghost ws: seq<Statement>, order: seq<string>, units: map<string, seq<Statement>>)
    returns (rep: seq<Unit>)
    requires Tracks(ws, order, units)
    ensures rep == Grouped(ws) && |rep| == |order|
  {
    rep := [];
    for k := 0 to |order|
      invariant |rep| == k && forall i | 0 <= i < k :: rep[i] == Unit(order[i], WithId(ws, order[i]))
    {
      rep := rep + [Unit(order[k], units[order[k]])];
    }
  }

  /** Each identity gets the order-preserving filter of the writes, identities in order of first
      appearance; the first write without an identity stops the check. */
  method Check(stmts: seq<Statement>) returns (out: Outcome)
    ensures out.MissingTxID? <==> exists s | s in stmts :: s.kind == Write && s.txID == ""
    ensures out.MissingTxID? ==>
              exists i | 0 <= i < |stmts| ::
                && stmts[i] == out.statement && stmts[i].kind == Write && stmts[i].txID == ""
                && forall j | 0 <= j < i :: stmts[j].kind != Write || stmts[j].txID != ""
    ensures out.Ok? ==> out.report.units == Grouped(Writes(stmts))
    ensures out.Ok? ==> out.report.writeUnits == |out.report.units| == |IdSet(Writes(stmts))|
  {
    var order, units, missing := Group(stmts);
    if missing < |stmts| {
      return MissingTxID(stmts[missing]);
    }
    var rep := Collect(Writes(stmts), order, units);
    IdsCount(Writes(stmts));
    return Ok(Report(|order|, rep));
  }

  // ----- what the grouping means --------------------------------------------------------------

  lemma IdsCount(ws: seq<Statement>)
    ensures |Ids(ws)| == |IdSet(ws)|
  {
    IdsDistinct(ws);
    ElementsSize(Ids(ws));
    forall id ensures id in Ids(ws) <==> id in IdSet(ws) {
      IdsMembers(ws, id);
    }
    assert Elements(Ids(ws)) == IdSet(ws);
  }

  function IsWriteOf(id: string): Statement -> bool {
    (s: Statement) => s.kind == Write && s.txID == id
  }

  /** A unit is the writes with its identity, in input order, whatever else the input holds. */
  lemma {:induction false} UnitIsFilter(stmts: seq<Statement>, id: string)
    ensures IsFilter(stmts, IsWriteOf(id), WithId(Writes(stmts), id))
  {
    if stmts == [] {
      FilterNone(IsWriteOf(id));
    } else {
      var front, last := stmts[..|stmts| - 1], stmts[|stmts| - 1];
      var ws := Writes(front);
      assert stmts == front + [last];
      UnitIsFilter(front, id);
      FilterSnoc(front, last, IsWriteOf(id), WithId(ws, id));
      assert (ws + [last])[..|ws|] == ws;
      assert ws + [] == ws && WithId(ws, id) + [] == WithId(ws, id);
    }
  }

  /** The units of a report: their identities are those of the writes, each once, and each unit is the
      order-preserving filter of the input. */
  lemma UnitsAreFilters(stmts: seq<Statement>)
    ensures var units := Grouped(Writes(stmts));
            && (forall k | 0 <= k < |units| :: IsFilter(stmts, IsWriteOf(units[k].txID), units[k].statements))
            && (forall j, k | 0 <= j < k < |units| :: units[j].txID != units[k].txID)
            && (forall s | s in stmts && s.kind == Write :: exists k | 0 <= k < |units| :: units[k].txID == s.txID)
  {
    var ws := Writes(stmts);
    var units := Grouped(ws);
    IdsDistinct(ws);
    forall k | 0 <= k < |units| ensures IsFilter(stmts, IsWriteOf(units[k].txID), units[k].statements) {
      UnitIsFilter(stmts, units[k].txID);
    }
    forall s | s in stmts && s.kind == Write ensures exists k | 0 <= k < |units| :: units[k].txID == s.txID {
      WriteIsKept(stmts, s);
      IdsMembers(ws, s.txID);
      assert s.txID in IdSet(ws);
      var k :| 0 <= k < |Ids(ws)| && Ids(ws)[k] == s.txID;
      assert units[k].txID == s.txID;
    }
  }

  lemma {:induction false} WriteIsKept(stmts: seq<Statement>, s: Statement)
    requires s in stmts && s.kind == Write
    ensures s in Writes(stmts)
  {
    if s in stmts[..|stmts| - 1] {
      WriteIsKept(stmts[..|stmts| - 1], s);
    }
  }

  function Sizes(units: seq<Unit>): nat {
    if units == [] then 0 else Sizes(units[..|units| - 1]) + |units[|units| - 1].statements|
  }

  function SizesFor(ws: seq<Statement>, ids: seq<string>): nat {
    if ids == [] then 0 else SizesFor(ws, ids[..|ids| - 1]) + |WithId(ws, ids[|ids| - 1])|
  }

  lemma {:induction false} SizesOfGroups(ws: seq<Statement>, units: seq<Unit>, ids: seq<string>)
    requires |units| == |ids| && forall i | 0 <= i < |ids| :: units[i].statements == WithId(ws, ids[i])
    ensures Sizes(units) == SizesFor(ws, ids)
  {
    if ids != [] {
      SizesOfGroups(ws, units[..|ids| - 1], ids[..|ids| - 1]);
    }
  }

  lemma {:induction false} OneMore(ws: seq<Statement>, w: Statement, ids: seq<string>)
    requires forall i, j | 0 <= i < j < |ids| :: ids[i] != ids[j]
    ensures SizesFor(ws + [w], ids) == SizesFor(ws, ids) + if w.txID in ids then 1 else 0
  {
    assert (ws + [w])[..|ws|] == ws;
    if ids != [] {
      var n := |ids| - 1;
      OneMore(ws, w, ids[..n]);
      assert w.txID in ids <==> w.txID in ids[..n] || w.txID == ids[n];
    }
  }

  lemma {:induction false} SizesCover(ws: seq<Statement>, ids: seq<string>)
    requires forall i, j | 0 <= i < j < |ids| :: ids[i] != ids[j]
    requires forall w | w in ws :: w.txID in ids
    ensures SizesFor(ws, ids) == |ws|
  {
    if ws == [] {
      NothingToCover(ids);
    } else {
      var n := |ws| - 1;
      assert ws == ws[..n] + [ws[n]];
      SizesCover(ws[..n], ids);
      OneMore(ws[..n], ws[n], ids);
    }
  }

  lemma {:induction false} NothingToCover(ids: seq<string>)
    ensures SizesFor([], ids) == 0
  {
    if ids != [] {
      NothingToCover(ids[..|ids| - 1]);
    }
  }

  /** Every write lands in exactly one unit, the one with its identity. */
  lemma UnitsPartitionWrites(stmts: seq<Statement>)
    ensures Sizes(Grouped(Writes(stmts))) == |Writes(stmts)|
    ensures forall w | w in Writes(stmts) ::
              exists k | 0 <= k < |Grouped(Writes(stmts))| :: w in Grouped(Writes(stmts))[k].statements
    ensures forall i, j, w | 0 <= i < j < |Grouped(Writes(stmts))| && w in Grouped(Writes(stmts))[i].statements ::
              w !in Grouped(Writes(stmts))[j].statements
  {
    var ws := Writes(stmts);
    var ids := Ids(ws);
    var units := Grouped(ws);
    IdsDistinct(ws);
    forall w | w in ws ensures w.txID in ids {
      IdsMembers(ws, w.txID);
      assert w.txID in IdSet(ws);
    }
    SizesOfGroups(ws, units, ids);
    SizesCover(ws, ids);
    forall w | w in ws ensures exists k | 0 <= k < |units| :: w in units[k].statements {
      var k :| 0 <= k < |ids| && ids[k] == w.txID;
      WithIdMembers(ws, ids[k], w);
      assert w in units[k].statements;
    }
    forall i, j, w | 0 <= i < j < |units| && w in units[i].statements ensures w !in units[j].statements {
      WithIdMembers(ws, ids[i], w);
      WithIdMembers(ws, ids[j], w);
    }
  }

  /** `i` is where identity `id` first appears. */
  predicate FirstAt(ws: seq<Statement>, id: string, i: nat) {
    i < |ws| && ws[i].txID == id && forall j | 0 <= j < i :: ws[j].txID != id
  }

  lemma {:induction false} IdAppears(ws: seq<Statement>, a: nat) returns (i: nat)
    requires a < |Ids(ws)|
    ensures FirstAt(ws, Ids(ws)[a], i)
    ensures a == |Ids(ws)| - 1 && ws[|ws| - 1].txID !in Ids(ws[..|ws| - 1]) ==> i == |ws| - 1
    ensures a < |Ids(ws[..|ws| - 1])| ==> i < |ws| - 1
  {
    var n := |ws| - 1;
    if a < |Ids(ws[..n])| {
      i := IdAppears(ws[..n], a);
      assert forall j | 0 <= j < n :: ws[..n][j] == ws[j];
    } else {
      i := n;
      forall j | 0 <= j < n ensures ws[j].txID != ws[n].txID {
        IdsMembers(ws[..n], ws[n].txID);
        assert ws[j] in ws[..n];
      }
    }
  }

  /** Units come in the order in which their first writes came. */
  lemma {:induction false} UnitsFollowFirstAppearance(ws: seq<Statement>, a: nat, b: nat, i: nat, j: nat)
    requires a < b < |Ids(ws)|
    requires FirstAt(ws, Ids(ws)[a], i) && FirstAt(ws, Ids(ws)[b], j)
    ensures i < j
  {
    var n := |ws| - 1;
    var p := IdAppears(ws, a);
    var q := IdAppears(ws, b);
    assert p == i && q == j;
    if b < |Ids(ws[..n])| {
      assert FirstAt(ws[..n], Ids(ws)[a], i) && FirstAt(ws[..n], Ids(ws)[b], j);
      UnitsFollowFirstAppearance(ws[..n], a, b, i, j);
    }
  }
}
