/** The Boundary object, the Session and the Detector that connects them. */
module Boundaries {
  import opened Text
  import opened Images
  import opened Classify
  import opened TxIds
  import opened Ledgers
  import opened Allowlists
  import opened Verdicts

  const INLINE_WRITE_TX_CAP := 4

  /** The overflow map: unallocated until the first id past the inline capacity. */
  datatype Overflow = Unallocated | Allocated(ids: set<u64>)
  {
    function Ids(): set<u64> {
      if Allocated? then ids else {}
    }
  }

  /** A representation of a set of `n` ids: inline ids and overflow ids are distinct, and nothing
      overflows before the inline part is full. */
  predicate Represents(inline: seq<u64>, overflow: set<u64>, n: nat) {
    && |inline| <= INLINE_WRITE_TX_CAP
    && (forall i, j | 0 <= i < j < |inline| :: inline[i] != inline[j])
    && Elements(inline) !! overflow
    && n == |inline| + |overflow|
    && (overflow != {} ==> |inline| == INLINE_WRITE_TX_CAP)
  }

  lemma RepresentsInline(inline: seq<u64>, overflow: set<u64>, n: nat, x: u64)
    requires Represents(inline, overflow, n) && n < INLINE_WRITE_TX_CAP && x !in Elements(inline)
    ensures overflow == {} && |inline| == n && Represents(inline + [x], overflow, n + 1)
  {
    ElementsSnoc(inline, x);
  }

  lemma RepresentsOverflow(inline: seq<u64>, overflow: set<u64>, n: nat, x: u64)
    requires Represents(inline, overflow, n) && n >= INLINE_WRITE_TX_CAP
    requires x !in Elements(inline) && x !in overflow
    ensures |inline| == INLINE_WRITE_TX_CAP && Represents(inline, overflow + {x}, n + 1)
  {
    assert |overflow + {x}| == |overflow| + 1;
  }

  /** What StartBoundary can be given besides the name. */
  datatype BoundaryOption = AllowNonAtomic(mark: Mark) | WithBoundaryAttrs(attrs: seq<Attr>)
  {
    function Attrs(): seq<Attr> {
      if WithBoundaryAttrs? then attrs else []
    }
  }

  function LaterMark(m: Option<Mark>, o: BoundaryOption): Option<Mark> {
    if o.AllowNonAtomic? then Some(o.mark) else m
  }

  /** The last mark among the options wins. */
  function MarkOf(opts: seq<BoundaryOption>): Option<Mark> {
    if opts == [] then None else LaterMark(MarkOf(opts[..|opts| - 1]), opts[|opts| - 1])
  }

  /** The attributes of all options, in order. */
  function AttrsOf(opts: seq<BoundaryOption>): seq<Attr> {
    if opts == [] then [] else AttrsOf(opts[..|opts| - 1]) + opts[|opts| - 1].Attrs()
  }

  /** The last mark among the options is the boundary's; without any there is none. */
  lemma {:induction false} LastOptionWins(opts: seq<BoundaryOption>, k: nat)
    ensures (forall o | o in opts :: o.WithBoundaryAttrs?) ==> MarkOf(opts) == None
    ensures k < |opts| && opts[k].AllowNonAtomic? && (forall j | k < j < |opts| :: opts[j].WithBoundaryAttrs?) ==>
              MarkOf(opts) == Some(opts[k].mark)
  {
    if opts != [] {
      var n := |opts| - 1;
      LastOptionWins(opts[..n], k);
      assert opts[n] in opts && forall o | o in opts[..n] :: o in opts;
    }
  }

  /** Attributes are appended option by option. */
  lemma {:induction false} AttrsInOrder(a: seq<BoundaryOption>, b: seq<BoundaryOption>, attrs: seq<Attr>)
    ensures AttrsOf(a + b) == AttrsOf(a) + AttrsOf(b)
    ensures AttrsOf([WithBoundaryAttrs(attrs)]) == attrs
  {
    assert [WithBoundaryAttrs(attrs)][..0] == [];
    if b == [] {
      assert a + b == a;
    } else {
      var n := |b| - 1;
      AttrsInOrder(a, b[..n], attrs);
      assert (a + b)[..|a + b| - 1] == a + b[..n] && (a + b)[|a + b| - 1] == b[n];
    }
  }

  class Boundary {
    const name: string
    var attrs: seq<Attr>
    const writeTxInline: array<u64>
    var writeTxN: nat
    var writeTxOverflow: Overflow
    var autoCommitWrites: nat
    var statements: seq<Record>
    var truncated: nat
    var finished: bool
    var allowed: bool
    var allowReason: string
    var allowUnits: seq<int>

    /** The part of the inline array in use. */
    function InlineN(): (n: nat)
      reads this`writeTxN
      ensures n <= INLINE_WRITE_TX_CAP
    {
      if writeTxN > INLINE_WRITE_TX_CAP then INLINE_WRITE_TX_CAP else writeTxN
    }

    ghost predicate Valid()
      reads this`writeTxN, this`writeTxOverflow, writeTxInline
    {
      writeTxInline.Length == INLINE_WRITE_TX_CAP &&
      Represents(writeTxInline[..InlineN()], writeTxOverflow.Ids(), writeTxN)
    }

    /** The distinct ids noted so far. */
    ghost function Ids(): set<u64>
      requires writeTxInline.Length == INLINE_WRITE_TX_CAP
      reads this`writeTxN, this`writeTxOverflow, writeTxInline
    {
      Elements(writeTxInline[..InlineN()]) + writeTxOverflow.Ids()
    }

    ghost function View(): Ledger
      requires writeTxInline.Length == INLINE_WRITE_TX_CAP
      reads this, writeTxInline
    {
      Ledger(statements, truncated, Ids(), autoCommitWrites,
             if allowed then Some(Mark(allowReason, allowUnits)) else None, finished)
    }

    constructor (name: string, attrs: seq<Attr>)
      ensures Valid() && fresh(writeTxInline) && this.name == name && this.attrs == attrs
      ensures View() == Opened(None)
    {
      this.name, this.attrs := name, attrs;
      writeTxInline := new u64[INLINE_WRITE_TX_CAP](_ => 0);
      writeTxN := 0;
      writeTxOverflow := Unallocated;
      autoCommitWrites := 0;
      statements := [];
      truncated := 0;
      finished := false;
      allowed := false;
      allowReason := "";
      allowUnits := [];
    }

    function Who(): Subject
      reads this`attrs
    {
      Subject(name, attrs)
    }

    method SetMark(reason: string, exactWriteUnits: seq<int>)
      requires Valid()
      modifies this`allowed, this`allowReason, this`allowUnits
      ensures Valid() && View() == old(View()).(mark := Some(Mark(reason, exactWriteUnits)))
    {
      allowed := true;
      allowReason := reason;
      allowUnits := exactWriteUnits;
    }

    /** One option of StartBoundary, before the boundary is shared. */
    method Apply(o: BoundaryOption)
      requires Valid() && !finished
      modifies this`allowed, this`allowReason, this`allowUnits, this`attrs
      ensures Valid() && View() == old(View()).(mark := LaterMark(old(View().mark), o))
      ensures attrs == old(attrs) + o.Attrs()
    {
      match o {
        case AllowNonAtomic(mark) =>
          SetMark(mark.reason, mark.units);
        case WithBoundaryAttrs(more) =>
          attrs := attrs + more;
      }
    }

    /** What the boundary holds depends on nothing but its own fields. */
    twostate lemma Untouched()
      requires old(Valid()) && unchanged(this, writeTxInline)
      ensures Valid() && View() == old(View())
    {
    }

    /** The count is the number of distinct ids noted. */
    lemma CountsDistinct()
      requires Valid()
      ensures writeTxN == |Ids()|
    {
      ElementsSize(writeTxInline[..InlineN()]);
      assert Elements(writeTxInline[..InlineN()]) !! writeTxOverflow.Ids();
    }

    /** A new id goes into the next inline slot. */
    method NoteInline(txID: u64)
      requires Valid() && writeTxN < INLINE_WRITE_TX_CAP && txID !in Ids()
      modifies this`writeTxN, writeTxInline
      ensures Valid() && Ids() == old(Ids()) + {txID} && writeTxN == old(writeTxN) + 1
    {
      ghost var before := writeTxInline[..InlineN()];
      RepresentsInline(before, writeTxOverflow.Ids(), writeTxN, txID);
      writeTxInline[writeTxN] := txID;
      writeTxN := writeTxN + 1;
      assert writeTxInline[..writeTxN] == before + [txID];
      ElementsSnoc(before, txID);
    }

    /** A new id beyond the inline capacity spills into the map. */
    method NoteOverflow(txID: u64)
      requires Valid() && writeTxN >= INLINE_WRITE_TX_CAP && txID !in Ids()
      modifies this`writeTxN, this`writeTxOverflow
      ensures Valid() && Ids() == old(Ids()) + {txID} && writeTxN == old(writeTxN) + 1
    {
      RepresentsOverflow(writeTxInline[..InlineN()], writeTxOverflow.Ids(), writeTxN, txID);
      if writeTxOverflow.Unallocated? {
        writeTxOverflow := Allocated({});
      }
      writeTxOverflow := Allocated(writeTxOverflow.ids + {txID});
      writeTxN := writeTxN + 1;
    }

    /** Notes one more id; noting a known one changes nothing. */
    method NoteWriteTx(txID: u64)
      requires Valid()
      modifies this`writeTxN, this`writeTxOverflow, writeTxInline
      ensures Valid()
      ensures Ids() == old(Ids()) + {txID}
      ensures writeTxN == old(writeTxN) + if txID in old(Ids()) then 0 else 1
    {
      var inline := if writeTxN > INLINE_WRITE_TX_CAP then INLINE_WRITE_TX_CAP else writeTxN;
      for i := 0 to inline
        invariant txID !in writeTxInline[..i]
      {
        if writeTxInline[i] == txID {
          assert txID in writeTxInline[..inline];
          return;
        }
        assert writeTxInline[..i + 1] == writeTxInline[..i] + [writeTxInline[i]];
      }
      if writeTxOverflow.Allocated? && txID in writeTxOverflow.ids {
        return;
      }
      if writeTxN < INLINE_WRITE_TX_CAP {
        NoteInline(txID);
      } else {
        NoteOverflow(txID);
      }
    }

    /** Keeps the record, or counts it as truncated once the cap is reached. */
    method Keep(cap: int, rec: Ledgers.Record)
      requires Valid()
      modifies this`statements, this`truncated
      ensures Valid() && View() == Kept(old(View()), cap, rec)
    {
      if |statements| < cap {
        statements := statements + [rec];
      } else {
        truncated := truncated + 1;
      }
    }

    /** A write inside a transaction counts that transaction. */
    method CountTx(txID: u64)
      requires Valid()
      modifies this`writeTxN, this`writeTxOverflow, writeTxInline
      ensures Valid() && View() == old(View()).(ids := old(Ids()) + {txID})
    {
      NoteWriteTx(txID);
    }

    /** A write outside any transaction counts itself. */
    method CountAuto()
      requires Valid()
      modifies this`autoCommitWrites
      ensures Valid() && View() == old(View()).(autos := old(autoCommitWrites) + 1)
    {
      autoCommitWrites := autoCommitWrites + 1;
    }

    /** What the statement adds to the units: nothing unless it is a write. */
    method Count(rec: Ledgers.Record)
      requires Valid()
      modifies this`writeTxN, this`writeTxOverflow, this`autoCommitWrites, writeTxInline
      ensures Valid() && View() == Counted(old(View()), rec)
    {
      if rec.kind == Write {
        if rec.txID != 0 {
          CountTx(rec.txID);
        } else {
          CountAuto();
        }
      }
    }

    /** One executed statement, under the lock. */
    method Record(cap: int, query: string, kind: Kind, txID: u64)
      requires Valid()
      modifies this, writeTxInline
      ensures Valid()
      ensures View() == Recorded(old(View()), cap, Ledgers.Record(query, kind, txID))
    {
      if finished {
        return;
      }
      var rec := Ledgers.Record(query, kind, txID);
      Keep(cap, rec);
      Count(rec);
    }

    /** AllowNonAtomicHere, under the lock: the last mark wins until the boundary is finished. */
    method AllowHere(reason: string, exactWriteUnits: seq<int>)
      requires Valid()
      modifies this
      ensures Valid()
      ensures View() == Marked(old(View()), Mark(reason, exactWriteUnits))
    {
      if finished {
        return;
      }
      SetMark(reason, exactWriteUnits);
    }

    /** The first half of Finish, under the lock: nothing changes any more, and the units and the mark are
        taken along. */
    method Close() returns (units: nat, allow: bool, reason: string, exactWriteUnits: seq<int>)
      requires Valid()
      modifies this`finished
      ensures Valid() && View() == old(View()).(finished := true) && finished
      ensures units == View().Units()
      ensures View().mark == if allow then Some(Mark(reason, exactWriteUnits)) else None
    {
      finished := true;
      CountsDistinct();
      units := writeTxN + autoCommitWrites;
      allow, reason, exactWriteUnits := allowed, allowReason, allowUnits;
    }
  }

  /** A reporter is the sequence of what it has received; the extensions it implements are flags. */
  class Reporter {
    const takesStale: bool
    const takesUnbounded: bool
    const takesNested: bool
    var received: seq<Signal>

    constructor (stale: bool, unbounded: bool, nested: bool)
      ensures received == [] && takesStale == stale && takesUnbounded == unbounded && takesNested == nested
    {
      takesStale, takesUnbounded, takesNested := stale, unbounded, nested;
      received := [];
    }

    predicate Takes(s: Signal) {
      match s
      case Violation(_, _, _, _, _, _) => true
      case StaleAllow(_, _, _) => takesStale
      case UnboundedWrite(_, _) => takesUnbounded
      case NestedBoundary(_, _) => takesNested
    }

    /** What arrives of a signal at this reporter. */
    function Delivered(s: Signal): seq<Signal> {
      if Takes(s) then [s] else []
    }

    method Deliver(s: Signal)
      modifies this`received
      ensures received == old(received) + Delivered(s)
    {
      if Takes(s) {
        received := received + [s];
      }
    }
  }

  /** What arrives at `r` of a signal sent to all of `rs` in turn; a reporter may be listed twice. */
  function Copies(rs: seq<Reporter>, r: Reporter, s: Signal): seq<Signal> {
    if rs == [] then []
    else Copies(rs[..|rs| - 1], r, s) + if rs[|rs| - 1] == r then r.Delivered(s) else []
  }

  function Listings(rs: seq<Reporter>, r: Reporter): nat {
    if rs == [] then 0 else Listings(rs[..|rs| - 1], r) + if rs[|rs| - 1] == r then 1 else 0
  }

  /** A violation arrives once for every listing; each of the other signals does where it is supported, and
      nowhere else. */
  lemma {:induction false} CopiesAre(rs: seq<Reporter>, r: Reporter, s: Signal)
    ensures var takes := s.Violation? || (s.StaleAllow? && r.takesStale) ||
                         (s.UnboundedWrite? && r.takesUnbounded) || (s.NestedBoundary? && r.takesNested);
            |Copies(rs, r, s)| == if takes then Listings(rs, r) else 0
    ensures forall c | c in Copies(rs, r, s) :: c == s
  {
    if rs != [] {
      CopiesAre(rs[..|rs| - 1], r, s);
    }
  }

  /** A context chain; a boundary is its own context node. */
  datatype Context = Background | Derived(parent: Context) | Within(boundary: Boundary, parent: Context)

  /** ctx.Value for the boundary key: the nearest boundary up the chain. */
  function Innermost(ctx: Context): Boundary? {
    match ctx
    case Background => null
    case Derived(parent) => Innermost(parent)
    case Within(b, _) => b
  }

  /** `n` derivations of a context (deadlines, cancellations, other values). */
  function Derive(n: nat, ctx: Context): Context {
    if n == 0 then ctx else Derived(Derive(n - 1, ctx))
  }

  /** However often derived, the context of a boundary leads to that boundary, whatever it was started in;
      and one without any boundary leads to none. */
  lemma {:induction false} InnermostDerived(n: nat, b: Boundary, p: Context)
    ensures Innermost(Derive(n, Within(b, p))) == b
    ensures Innermost(Derive(n, Background)) == null
  {
    if n > 0 {
      InnermostDerived(n - 1, b, p);
    }
  }

  function Touched(ctx: Context): set<object> {
    var b := Innermost(ctx);
    if b == null then {} else {b, b.writeTxInline}
  }

  class Detector {
    const reporters: seq<Reporter>
    const allowlist: Allowlist?
    const classify: string -> Kind
    const reportUnbounded: bool
    const reportNested: bool
    const maxRecordedStatements: int
    const attrsFunc: Context -> seq<Attr>
    var txSeq: u64

    constructor (reporters: seq<Reporter>, allowlist: Allowlist?, classify: string -> Kind, reportUnbounded: bool,
                 reportNested: bool, maxRecordedStatements: int, attrsFunc: Context -> seq<Attr>)
      ensures txSeq == 0 && this.reporters == reporters && this.allowlist == allowlist
      ensures this.maxRecordedStatements == maxRecordedStatements && this.classify == classify
      ensures this.reportUnbounded == reportUnbounded && this.reportNested == reportNested
      ensures this.attrsFunc == attrsFunc
    {
      this.reporters, this.allowlist, this.classify := reporters, allowlist, classify;
      this.reportUnbounded, this.reportNested := reportUnbounded, reportNested;
      this.maxRecordedStatements, this.attrsFunc := maxRecordedStatements, attrsFunc;
      txSeq := 0;
    }

    method NextTxID() returns (id: u64)
      modifies this`txSeq
      ensures id == txSeq == Next(old(txSeq))
    {
      txSeq := Next(txSeq);
      return txSeq;
    }

    /** Every reporter has received the signal, if there is one, and nothing else. */
    twostate predicate Notified(s: Option<Signal>)
      reads reporters
    {
      forall r | r in reporters ::
        r.received == old(r.received) + if s.Some? then Copies(reporters, r, s.value) else []
    }

    method Notify(s: Signal)
      modifies reporters
      ensures Notified(Some(s))
    {
      for i := 0 to |reporters|
        invariant forall r | r in reporters :: r.received == old(r.received) + Copies(reporters[..i], r, s)
      {
        assert reporters[..i + 1][..i] == reporters[..i];
        reporters[i].Deliver(s);
      }
      assert reporters[..|reporters|] == reporters;
    }

    /** The report of a boundary started inside another, if it is asked for. */
    function Nesting(ctx: Context, name: string): Option<Signal> {
      if reportNested && Innermost(ctx) != null then Some(NestedBoundary(Innermost(ctx).name, name)) else None
    }

    /** A new boundary shadows the one the context carries; the nesting itself may be reported. */
    method StartBoundary(ctx: Context, name: string, opts: seq<BoundaryOption>)
      returns (inner: Context, b: Boundary)
      modifies reporters
      ensures fresh(b) && fresh(b.writeTxInline) && b.Valid() && b.View() == Opened(MarkOf(opts))
      ensures b.name == name && b.attrs == attrsFunc(ctx) + AttrsOf(opts)
      ensures inner == Within(b, ctx) && Innermost(inner) == b
      ensures Notified(Nesting(ctx, name))
      ensures reportNested && Innermost(ctx) != null ==>
                Notified(Some(NestedBoundary(Innermost(ctx).name, name)))
      ensures !reportNested || Innermost(ctx) == null ==> Notified(None)
    {
      if reportNested {
        var outer := Innermost(ctx);
        if outer != null {
          Notify(NestedBoundary(outer.name, name));
        }
      }
      b := NewBoundary(name, attrsFunc(ctx), opts);
      inner := Within(b, ctx);
    }

    method NewBoundary(name: string, attrs: seq<Attr>, opts: seq<BoundaryOption>) returns (b: Boundary)
      ensures fresh(b) && fresh(b.writeTxInline) && b.Valid() && b.View() == Opened(MarkOf(opts))
      ensures b.name == name && b.attrs == attrs + AttrsOf(opts)
    {
      b := new Boundary(name, attrs);
      for i := 0 to |opts|
        invariant b.Valid() && b.View() == Opened(MarkOf(opts[..i]))
        invariant b.attrs == attrs + AttrsOf(opts[..i])
      {
        assert opts[..i + 1][..i] == opts[..i];
        b.Apply(opts[i]);
      }
      assert opts[..|opts|] == opts;
    }

    /** The report of a statement without any boundary, if it is a write and the report is asked for. */
    function Unbounded(ctx: Context, rec: Ledgers.Record): Option<Signal> {
      if Innermost(ctx) == null && rec.kind == Write && reportUnbounded then
        Some(UnboundedWrite(rec, attrsFunc(ctx)))
      else None
    }

    /** The innermost boundary of the context has taken the statement. */
    twostate predicate Took(ctx: Context, rec: Ledgers.Record)
      requires Innermost(ctx) != null ==> old(Innermost(ctx).Valid())
      reads Touched(ctx)
    {
      var b := Innermost(ctx);
      b != null ==> b.Valid() && b.View() == Recorded(old(b.View()), maxRecordedStatements, rec)
    }

    /** The innermost boundary takes the statement, finished or not; only a write that has no boundary
        at all is reported as unbounded. */
    method Record(ctx: Context, query: string, kind: Kind, txID: u64)
      requires Innermost(ctx) != null ==> Innermost(ctx).Valid()
      modifies reporters, Touched(ctx)
      ensures Took(ctx, Ledgers.Record(query, kind, txID))
      ensures Notified(Unbounded(ctx, Ledgers.Record(query, kind, txID)))
      ensures Innermost(ctx) == null && kind == Write && reportUnbounded ==>
                Notified(Some(UnboundedWrite(Ledgers.Record(query, kind, txID), attrsFunc(ctx))))
      ensures Innermost(ctx) != null || kind != Write || !reportUnbounded ==> Notified(None)
    {
      var b := Innermost(ctx);
      if b == null {
        if kind == Write && reportUnbounded {
          Notify(UnboundedWrite(Ledgers.Record(query, kind, txID), attrsFunc(ctx)));
        }
        return;
      }
      b.Record(maxRecordedStatements, query, kind, txID);
    }

    /** Recording through any derivation of a boundary's context: the boundary takes the statement, and
        nothing is reported. */
    method RecordDerived(n: nat, b: Boundary, p: Context, query: string, kind: Kind, txID: u64)
      requires b.Valid()
      modifies reporters, b, b.writeTxInline
      ensures b.Valid() && b.View() == Recorded(old(b.View()), maxRecordedStatements, Ledgers.Record(query, kind, txID))
      ensures forall r | r in reporters :: r.received == old(r.received)
    {
      InnermostDerived(n, b, p);
      Record(Derive(n, Within(b, p)), query, kind, txID);
    }

    ghost function ListEntries(): Option<Entries>
      reads allowlist
    {
      if allowlist == null then None else Some(allowlist.entries)
    }

    /** Finish: reports once, from what the boundary held when `finished` was set. */
    method FinishBoundary(b: Boundary)
      requires b.Valid()
      modifies b`finished, reporters, allowlist
      ensures b.View() == old(b.View()).(finished := true)
      ensures Notified(if old(b.finished) then None else Verdict(b.Who(), old(b.View()), old(ListEntries())))
      ensures old(b.View()).Units() >= 2 &&
              (MarkApplies(old(b.View())) || EntryApplies(b.name, old(b.View()), old(ListEntries()))) ==>
                Notified(None)
      ensures !old(b.finished) && old(b.View()).Units() >= 2 && !old(b.allowed) && allowlist == null ==>
                Notified(Some(Violation(b.name, old(b.View()).Units(), old(b.statements), old(b.truncated), [],
                                        b.attrs)))
      ensures allowlist != null ==>
              allowlist.entries == if !old(b.finished) && Consults(old(b.View()))
                                   then Consulted(old(allowlist.entries), b.name, old(b.View()).Units())
                                   else old(allowlist.entries)
    {
      if b.finished {
        return;
      }
      FinishingKeepsVerdict(b.Who(), b.View(), ListEntries());
      VerdictIs(b.Who(), b.View(), ListEntries());
      var units, allowed, allowReason, allowUnits := b.Close();
      label Closed:
      Conclude(b, units, allowed, allowReason, allowUnits);
      b.Untouched@Closed();
    }

    /** The second half of Finish, outside the boundary's lock: units and mark are the snapshot taken
        under it, statements and truncated are read here. */
    method Conclude(b: Boundary, units: nat, allowed: bool, allowReason: string, allowUnits: seq<int>)
      requires b.Valid() && b.finished
      requires units == b.View().Units()
      requires b.View().mark == if allowed then Some(Mark(allowReason, allowUnits)) else None
      modifies reporters, allowlist
      ensures Notified(Verdict(b.Who(), old(b.View()), old(ListEntries())))
      ensures allowlist != null ==>
              allowlist.entries == if Consults(old(b.View()))
                                   then Consulted(old(allowlist.entries), b.name, units)
                                   else old(allowlist.entries)
    {
      var s := Judge(b, units, allowed, allowReason, allowUnits);
      if s.Some? {
        Notify(s.value);
      }
    }

    /** What the boundary reports, if anything; the allowlist is asked only about an uncovered violation. */
    method Judge(b: Boundary, units: nat, allowed: bool, allowReason: string, allowUnits: seq<int>)
      returns (s: Option<Signal>)
      requires b.Valid() && b.finished
      requires units == b.View().Units()
      requires b.View().mark == if allowed then Some(Mark(allowReason, allowUnits)) else None
      modifies allowlist
      ensures s == Verdict(b.Who(), old(b.View()), old(ListEntries()))
      ensures allowlist != null ==>
              allowlist.entries == if Consults(old(b.View()))
                                   then Consulted(old(allowlist.entries), b.name, units)
                                   else old(allowlist.entries)
    {
      if units < 2 {
        return if allowed then Some(StaleAllow(b.name, allowReason, units)) else None;
      }
      var declinedUnits: seq<int> := [];
      if allowed {
        var covers := CoversWriteUnits(allowUnits, units);
        if covers {
          return None;
        }
        declinedUnits := allowUnits;
      }
      if allowlist != null {
        var listed, declined := allowlist.Allow(b.name, units);
        if listed {
          return None;
        }
        if declinedUnits == [] {
          declinedUnits := declined;
        }
      }
      return Some(Violation(b.name, units, b.statements, b.truncated, declinedUnits, b.attrs));
    }
  }

  /** AllowNonAtomicHere marks the innermost boundary, if there is one. */
  method AllowNonAtomicHere(ctx: Context, reason: string, exactWriteUnits: seq<int>)
    requires Innermost(ctx) != null ==> Innermost(ctx).Valid()
    modifies Touched(ctx)
    ensures var b := Innermost(ctx);
            b != null ==> b.Valid() && b.View() == Marked(old(b.View()), Mark(reason, exactWriteUnits))
  {
    var b := Innermost(ctx);
    if b == null {
      return;
    }
    b.AllowHere(reason, exactWriteUnits);
  }

  /** The observation surface of one connection. */
  class Session {
    const det: Detector
    var txID: u64

    constructor (det: Detector)
      ensures this.det == det && txID == 0
    {
      this.det := det;
      txID := 0;
    }

    method Transition(kind: Kind)
      modifies this`txID, det`txSeq
      ensures (txID, det.txSeq) == TxIds.Observe(kind, old(txID), old(det.txSeq))
    {
      match kind {
        case Begin =>
          if txID == 0 {
            txID := det.NextTxID();
          }
        case Commit | Rollback =>
          txID := 0;
        case _ =>
      }
    }

    /** Moves the transaction state by the statement's kind, then records it under the resulting id. */
    method ObserveKind(ctx: Context, query: string, kind: Kind)
      requires Innermost(ctx) != null ==> Innermost(ctx).Valid()
      modifies this`txID, det`txSeq, det.reporters, Touched(ctx)
      ensures (txID, det.txSeq) == TxIds.Observe(kind, old(txID), old(det.txSeq))
      ensures det.Took(ctx, Ledgers.Record(query, kind, txID))
      ensures det.Notified(det.Unbounded(ctx, Ledgers.Record(query, kind, txID)))
    {
      var b := Innermost(ctx);
      Transition(kind);
      if b != null {
        b.Untouched();
      }
      RecordHere(ctx, query, kind);
    }

    /** Recording a statement leaves the connection's state alone. */
    method RecordHere(ctx: Context, query: string, kind: Kind)
      requires Innermost(ctx) != null ==> Innermost(ctx).Valid()
      modifies det.reporters, Touched(ctx)
      ensures txID == old(txID) && det.txSeq == old(det.txSeq)
      ensures det.Took(ctx, Ledgers.Record(query, kind, txID))
      ensures det.Notified(det.Unbounded(ctx, Ledgers.Record(query, kind, txID)))
    {
      det.Record(ctx, query, kind, txID);
    }

    method Observe(ctx: Context, query: string)
      requires Innermost(ctx) != null ==> Innermost(ctx).Valid()
      modifies this`txID, det`txSeq, det.reporters, Touched(ctx)
      ensures (txID, det.txSeq) == TxIds.Observe(det.classify(query), old(txID), old(det.txSeq))
      ensures det.Took(ctx, Ledgers.Record(query, det.classify(query), txID))
      ensures det.Notified(det.Unbounded(ctx, Ledgers.Record(query, det.classify(query), txID)))
    {
      ObserveKind(ctx, query, det.classify(query));
    }

    method BeginTx()
      modifies this`txID, det`txSeq
      ensures txID == det.txSeq == Next(old(det.txSeq))
    {
      txID := det.NextTxID();
    }

    method EndTx()
      modifies this`txID
      ensures txID == 0
    {
      txID := 0;
    }
  }
}
