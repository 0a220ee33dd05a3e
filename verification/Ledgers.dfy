/** What a boundary has accumulated, as a value: the specification of the Boundary object and the state
    the protocol models step through. */
module Ledgers {
  import opened Text
  import opened Classify
  import opened TxIds

  datatype Record = Record(query: string, kind: Kind, txID: u64)

  /** An in-code allow mark; no counts means every violating count is covered. */
  datatype Mark = Mark(reason: string, units: seq<int>)

  datatype Ledger = Ledger(
    statements: seq<Record>, truncated: nat, ids: set<u64>, autos: nat, mark: Option<Mark>, finished: bool)
  {
    /** One per transaction that wrote, one per auto-commit write. */
    function Units(): nat {
      |ids| + autos
    }
  }

  function Opened(mark: Option<Mark>): Ledger {
    Ledger([], 0, {}, 0, mark, false)
  }

  /** `cap` bounds what is kept for reports, never what is counted. */
  function Kept(l: Ledger, cap: int, r: Record): Ledger {
    if |l.statements| < cap then l.(statements := l.statements + [r]) else l.(truncated := l.truncated + 1)
  }

  function Counted(l: Ledger, r: Record): Ledger {
    if r.kind != Write then l
    else if r.txID != 0 then l.(ids := l.ids + {r.txID})
    else l.(autos := l.autos + 1)
  }

  /** One executed statement. */
  function Recorded(l: Ledger, cap: int, r: Record): Ledger {
    if l.finished then l else Counted(Kept(l, cap, r), r)
  }

  function Marked(l: Ledger, m: Mark): Ledger {
    if l.finished then l else l.(mark := Some(m))
  }

  function RecordedAll(l: Ledger, cap: int, rs: seq<Record>): Ledger {
    if rs == [] then l else Recorded(RecordedAll(l, cap, rs[..|rs| - 1]), cap, rs[|rs| - 1])
  }

  // ----- an independent reading of a timeline -------------------------------------------------

  function TxUnits(rs: seq<Record>): set<u64> {
    set r | r in rs && r.kind == Write && r.txID != 0 :: r.txID
  }

  function AutoUnits(rs: seq<Record>): nat {
    if rs == [] then 0
    else
      var r := rs[|rs| - 1];
      AutoUnits(rs[..|rs| - 1]) + if r.kind == Write && r.txID == 0 then 1 else 0
  }

  function Prefix<T>(s: seq<T>, cap: int): (p: seq<T>)
    ensures p <= s && |p| == if cap <= 0 then 0 else if cap < |s| then cap else |s|
  {
    if cap <= 0 then [] else if cap < |s| then s[..cap] else s
  }

  /** The content of an open boundary as a function of its timeline. */
  function Content(rs: seq<Record>, cap: int, mark: Option<Mark>): Ledger {
    Ledger(Prefix(rs, cap), |rs| - |Prefix(rs, cap)|, TxUnits(rs), AutoUnits(rs), mark, false)
  }

  lemma PrefixSnoc<T>(rs: seq<T>, r: T, cap: int)
    ensures Prefix(rs + [r], cap) == if |Prefix(rs, cap)| < cap then Prefix(rs, cap) + [r] else Prefix(rs, cap)
  {
    assert (rs + [r])[..|rs|] == rs;
  }

  lemma UnitsSnoc(rs: seq<Record>, r: Record)
    ensures TxUnits(rs + [r]) == if r.kind == Write && r.txID != 0 then TxUnits(rs) + {r.txID} else TxUnits(rs)
    ensures AutoUnits(rs + [r]) == AutoUnits(rs) + if r.kind == Write && r.txID == 0 then 1 else 0
  {
    assert (rs + [r])[..|rs|] == rs;
    assert forall q | q in rs :: q in rs + [r];
  }

  lemma OneMoreRecord(rs: seq<Record>, r: Record, cap: int, mark: Option<Mark>)
    ensures Content(rs + [r], cap, mark) == Recorded(Content(rs, cap, mark), cap, r)
  {
    PrefixSnoc(rs, r, cap);
    UnitsSnoc(rs, r);
    var p := Prefix(rs, cap);
    var l, l' := Content(rs, cap, mark), Content(rs + [r], cap, mark);
    assert |p| <= |rs| && |rs + [r]| == |rs| + 1;
    assert l.statements == p && l.truncated == |rs| - |p|;
    if |p| < cap {
      assert l'.statements == p + [r] && l'.truncated == l.truncated;
    } else {
      assert l'.statements == p && l'.truncated == l.truncated + 1;
    }
  }

  /** An open boundary's content is a function of its timeline: the kept records are the longest prefix
      the cap allows, everything else is counted as truncated, and the units count distinct nonzero
      ids and zero-id writes over the whole timeline. */
  lemma {:induction false} LedgerOfTimeline(mark: Option<Mark>, cap: int, rs: seq<Record>)
    ensures RecordedAll(Opened(mark), cap, rs) == Content(rs, cap, mark)
  {
    if rs != [] {
      var n := |rs| - 1;
      LedgerOfTimeline(mark, cap, rs[..n]);
      OneMoreRecord(rs[..n], rs[n], cap, mark);
      assert rs == rs[..n] + [rs[n]];
    }
  }
}
