/** What a finished boundary reports. */
module Verdicts {
  import opened Text
  import opened Ledgers
  import opened Allowlists

  /** A contextual value a report carries. */
  datatype Attr = Attr(key: string, value: string)

  /** What a boundary's reports say about it besides its content. */
  datatype Subject = Subject(name: string, attrs: seq<Attr>)

  /** Everything a reporter can receive. */
  datatype Signal =
    | Violation(boundary: string, writeUnits: int, statements: seq<Record>, truncated: int,
                allowedWriteUnits: seq<int>, attrs: seq<Attr>)
    | StaleAllow(boundary: string, reason: string, writeUnits: int)
    | UnboundedWrite(record: Record, attrs: seq<Attr>)
    | NestedBoundary(outer: string, inner: string)

  /** The mark suppresses a violation of this many units. */
  predicate MarkCovers(mark: Option<Mark>, units: int) {
    mark.Some? && Covers(mark.value.units, units)
  }

  /** The counts that exist but do not apply; those of the mark come before those of the allowlist. */
  function DeclinedUnits(name: string, mark: Option<Mark>, units: int, list: Option<Entries>): seq<int> {
    if mark.Some? && mark.value.units != [] then mark.value.units
    else if list.Some? then Declined(list.value, name, units)
    else []
  }

  /** Whether the allowlist is asked at all. */
  predicate Consults(l: Ledger) {
    l.Units() >= 2 && !MarkCovers(l.mark, l.Units())
  }

  /** The verdict on what the boundary holds: a violation, a stale allow, or silence. */
  function Verdict(who: Subject, l: Ledger, list: Option<Entries>): Option<Signal> {
    var units := l.Units();
    var name := who.name;
    if units < 2 then
      if l.mark.Some? then Some(StaleAllow(name, l.mark.value.reason, units)) else None
    else if MarkCovers(l.mark, units) then None
    else if list.Some? && Allows(list.value, name, units) then None
    else Some(Violation(name, units, l.statements, l.truncated, DeclinedUnits(name, l.mark, units, list), who.attrs))
  }

  lemma FinishingKeepsVerdict(who: Subject, l: Ledger, list: Option<Entries>)
    ensures Verdict(who, l.(finished := true), list) == Verdict(who, l, list)
    ensures Consults(l.(finished := true)) == Consults(l)
  {
  }

  /** Whether a violation of the boundary's units is suppressed. */
  predicate Suppressed(who: Subject, l: Ledger, list: Option<Entries>) {
    l.Units() >= 2 && Verdict(who, l, list) == None
  }

  /** The two allow mechanisms decide identically and independently: a mark and an allowlist entry with the
      same counts suppress the same violations, and a violation is suppressed exactly when one of the two
      would suppress it alone, whatever counts the other one holds. */
  lemma MechanismsDecideIdentically(who: Subject, l: Ledger, m: Mark, list: Entries)
    ensures who.name in list && list[who.name].units == m.units ==>
              (Suppressed(who, l.(mark := Some(m)), None) <==> Suppressed(who, l.(mark := None), Some(list)))
    ensures Suppressed(who, l.(mark := Some(m)), Some(list)) <==>
              Suppressed(who, l.(mark := Some(m)), None) || Suppressed(who, l.(mark := None), Some(list))
  {
    assert l.(mark := Some(m)).Units() == l.Units() == l.(mark := None).Units();
  }

  /** A verdict is silence exactly when the boundary is atomic and unmarked, or an allowance covers its
      units; it is a stale allow exactly when the boundary is atomic and marked. */
  lemma VerdictCases(who: Subject, l: Ledger, list: Option<Entries>)
    ensures var v := Verdict(who, l, list);
            var covered := MarkCovers(l.mark, l.Units()) || (list.Some? && Allows(list.value, who.name, l.Units()));
            && (v == None <==> if l.Units() < 2 then l.mark.None? else covered)
            && (v.Some? ==> v.value.StaleAllow? || v.value.Violation?)
            && (v.Some? && v.value.StaleAllow? <==> l.Units() < 2 && l.mark.Some?)
            && (v.Some? && v.value.Violation? ==> v.value.writeUnits == l.Units() >= 2)
  {
  }

  // ----- the verdict spelled out ----------------------------------------------------------------

  /** A count is among the given ones. */
  predicate Listed(counts: seq<int>, units: int) {
    exists i | 0 <= i < |counts| :: counts[i] == units
  }

  /** The mark applies: it names no counts, or this one. */
  predicate MarkApplies(l: Ledger) {
    l.mark.Some? && (l.mark.value.units == [] || Listed(l.mark.value.units, |l.ids| + l.autos))
  }

  /** The allowlist's entry for the boundary applies. */
  predicate EntryApplies(name: string, l: Ledger, list: Option<Entries>) {
    list.Some? && name in list.value &&
    (list.value[name].units == [] || Listed(list.value[name].units, |l.ids| + l.autos))
  }

  /** Fewer than two units: silence without a mark, a stale allow with its reason with one. Otherwise
      silence exactly when the mark or the entry applies; else a violation that carries what was kept, what
      was truncated, the attributes, and the counts that did not apply, the mark's before the entry's. */
  lemma VerdictIs(who: Subject, l: Ledger, list: Option<Entries>)
    ensures var units := |l.ids| + l.autos;
            var v := Verdict(who, l, list);
            if units < 2 then
              v == if l.mark.None? then None else Some(StaleAllow(who.name, l.mark.value.reason, units))
            else if MarkApplies(l) || EntryApplies(who.name, l, list) then v == None
            else v == Some(Violation(who.name, units, l.statements, l.truncated,
                                     if l.mark.Some? then l.mark.value.units
                                     else if list.Some? && who.name in list.value then list.value[who.name].units
                                     else [],
                                     who.attrs))
  {
    var units := |l.ids| + l.autos;
    if l.mark.Some? {
      CoversIs(l.mark.value.units, units);
    }
    if list.Some? && who.name in list.value {
      CoversIs(list.value[who.name].units, units);
    }
  }

  lemma CoversIs(counts: seq<int>, units: int)
    ensures Covers(counts, units) <==> counts == [] || Listed(counts, units)
  {
  }

  /** An allowance without counts silences every violation. */
  lemma UnconstrainedSilences(who: Subject, l: Ledger, list: Option<Entries>)
    requires l.Units() >= 2
    ensures l.mark.Some? && l.mark.value.units == [] ==> Verdict(who, l, list) == None
    ensures list.Some? && who.name in list.value && list.value[who.name].units == [] ==> Verdict(who, l, list) == None
  {
    VerdictIs(who, l, list);
  }

  /** An allowance with counts, alone, silences exactly the violations with one of them. */
  lemma CountsSilenceIff(who: Subject, l: Ledger, m: Mark, reason: string, used: bool)
    requires l.Units() >= 2 && m.units != []
    ensures Verdict(who, l.(mark := Some(m)), None) == None <==>
            exists i | 0 <= i < |m.units| :: m.units[i] == l.Units()
    ensures Verdict(who, l.(mark := None), Some(map[who.name := Allowance(reason, m.units, used)])) == None <==>
            exists i | 0 <= i < |m.units| :: m.units[i] == l.Units()
  {
    VerdictIs(who, l.(mark := Some(m)), None);
    VerdictIs(who, l.(mark := None), Some(map[who.name := Allowance(reason, m.units, used)]));
    assert Listed(m.units, l.Units()) <==> exists i | 0 <= i < |m.units| :: m.units[i] == l.Units();
  }
}
