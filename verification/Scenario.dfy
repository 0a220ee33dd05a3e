/** Marker statements and the slice they delimit. */
module Scenario {
  import opened Text
  import opened CrossCheck

  function EscapeChar(c: char): string {
    if c == '\'' then "''" else [c]
  }

  /** strings.ReplaceAll(name, "'", "''") */
  function Escape(name: string): string {
    if name == "" then "" else EscapeChar(name[0]) + Escape(name[1..])
  }

  function MarkerLiteral(kind: string, name: string): string {
    "'txnproof:" + kind + ":" + Escape(name) + "'"
  }

  function BeginMarker(name: string): string {
    "SELECT " + MarkerLiteral("begin", name)
  }

  function EndMarker(name: string): string {
    "SELECT " + MarkerLiteral("end", name)
  }

  datatype Slice = Sliced(stmts: seq<Statement>) | BeginMissing | EndMissing

  // ----- specification ------------------------------------------------------------------------

  /** No statement before `i` contains the literal, and the one at `i` does. */
  predicate FirstWith(stmts: seq<Statement>, lit: string, from: nat, i: nat) {
    from <= i < |stmts| && Contains(stmts[i].sql, lit) && forall j | from <= j < i :: !Contains(stmts[j].sql, lit)
  }

  predicate NoneWith(stmts: seq<Statement>, lit: string, from: nat) {
    forall j | from <= j < |stmts| :: !Contains(stmts[j].sql, lit)
  }

  ghost predicate IsSlice(stmts: seq<Statement>, name: string, out: Slice) {
    var b, e := MarkerLiteral("begin", name), MarkerLiteral("end", name);
    match out
    case BeginMissing => NoneWith(stmts, b, 0)
    case EndMissing => exists i: nat :: FirstWith(stmts, b, 0, i) && NoneWith(stmts, e, i + 1)
    case Sliced(s) => exists i: nat, k: nat :: SlicedAt(stmts, b, e, i, k) && s == stmts[i + 1..k]
  }

  /** The marker positions. */
  predicate SlicedAt(stmts: seq<Statement>, beginLit: string, endLit: string, i: nat, k: nat) {
    FirstWith(stmts, beginLit, 0, i) && FirstWith(stmts, endLit, i + 1, k)
  }

  // ----- the code -----------------------------------------------------------------------------

  /** The statements strictly between the first begin marker and the first end marker behind it. */
  method Scenario(stmts: seq<Statement>, name: string) returns (out: Slice)
    ensures IsSlice(stmts, name, out)
  {
    var beginLit := MarkerLiteral("begin", name);
    var endLit := MarkerLiteral("end", name);
    var begin := -1;
    for i := 0 to |stmts|
      invariant begin == -1
      invariant forall j | 0 <= j < i :: !Contains(stmts[j].sql, beginLit)
    {
      if Contains(stmts[i].sql, beginLit) {
        begin := i;
        break;
      }
    }
    if begin < 0 {
      return BeginMissing;
    }
    assert FirstWith(stmts, beginLit, 0, begin);
    for i := begin + 1 to |stmts|
      invariant forall j | begin + 1 <= j < i :: !Contains(stmts[j].sql, endLit)
    {
      if Contains(stmts[i].sql, endLit) {
        assert SlicedAt(stmts, beginLit, endLit, begin, i);
        return Sliced(stmts[begin + 1..i]);
      }
    }
    assert NoneWith(stmts, endLit, begin + 1);
    return EndMissing;
  }

  /** The specification leaves no choice. */
  lemma SliceIsUnique(stmts: seq<Statement>, name: string, a: Slice, b: Slice)
    requires IsSlice(stmts, name, a) && IsSlice(stmts, name, b)
    ensures a == b
  {
  }

  /** The first marker is at `i`, and no second one follows it. */
  predicate Unclosed(stmts: seq<Statement>, b: string, e: string, i: nat) {
    && i < |stmts| && Contains(stmts[i].sql, b) && (forall j | 0 <= j < i :: !Contains(stmts[j].sql, b))
    && forall k | i < k < |stmts| :: !Contains(stmts[k].sql, e)
  }

  /** The first marker is at `i`, the next second one at `k`. */
  predicate Closed(stmts: seq<Statement>, b: string, e: string, i: nat, k: nat) {
    && i < k < |stmts| && Contains(stmts[i].sql, b) && (forall j | 0 <= j < i :: !Contains(stmts[j].sql, b))
    && Contains(stmts[k].sql, e) && forall j | i < j < k :: !Contains(stmts[j].sql, e)
  }

  /** What each result says about the log, with the literals spelled out. */
  lemma SliceSays(stmts: seq<Statement>, name: string, out: Slice)
    requires IsSlice(stmts, name, out)
    ensures var b, e := "'txnproof:begin:" + Escape(name) + "'", "'txnproof:end:" + Escape(name) + "'";
            && (out == BeginMissing <==> forall s | s in stmts :: !Contains(s.sql, b))
            && (out == EndMissing <==> exists i: nat :: Unclosed(stmts, b, e, i))
            && (out.Sliced? <==> exists i: nat, k: nat :: Closed(stmts, b, e, i, k))
            && forall i: nat, k: nat | Closed(stmts, b, e, i, k) :: out == Sliced(stmts[i + 1..k])
  {
    var b, e := "'txnproof:begin:" + Escape(name) + "'", "'txnproof:end:" + Escape(name) + "'";
    assert MarkerLiteral("begin", name) == b && MarkerLiteral("end", name) == e;
    MissingSays(stmts, b);
    UnclosedSays(stmts, name, b, e);
    ClosedSays(stmts, name, b, e);
    if i: nat :| Unclosed(stmts, b, e, i) {
      SliceIsUnique(stmts, name, out, EndMissing);
    }
    forall i: nat, k: nat | Closed(stmts, b, e, i, k) ensures out == Sliced(stmts[i + 1..k]) {
      SliceIsUnique(stmts, name, out, Sliced(stmts[i + 1..k]));
    }
  }

  lemma UnclosedSays(stmts: seq<Statement>, name: string, b: string, e: string)
    requires MarkerLiteral("begin", name) == b && MarkerLiteral("end", name) == e
    ensures IsSlice(stmts, name, EndMissing) <==> exists i: nat :: Unclosed(stmts, b, e, i)
  {
    forall i: nat ensures Unclosed(stmts, b, e, i) <==> FirstWith(stmts, b, 0, i) && NoneWith(stmts, e, i + 1) {
    }
  }

  lemma ClosedSays(stmts: seq<Statement>, name: string, b: string, e: string)
    requires MarkerLiteral("begin", name) == b && MarkerLiteral("end", name) == e
    ensures forall i: nat, k: nat :: Closed(stmts, b, e, i, k) <==> SlicedAt(stmts, b, e, i, k)
    ensures forall i: nat, k: nat | Closed(stmts, b, e, i, k) :: IsSlice(stmts, name, Sliced(stmts[i + 1..k]))
    ensures forall s | IsSlice(stmts, name, Sliced(s)) :: exists i: nat, k: nat :: Closed(stmts, b, e, i, k)
  {
    forall i: nat, k: nat ensures Closed(stmts, b, e, i, k) <==> SlicedAt(stmts, b, e, i, k) {
    }
  }

  lemma MissingSays(stmts: seq<Statement>, b: string)
    ensures NoneWith(stmts, b, 0) <==> forall s | s in stmts :: !Contains(s.sql, b)
  {
    assert forall j | 0 <= j < |stmts| :: stmts[j] in stmts;
  }
}
