/** The central allowlist and the rule both allow mechanisms share. */
module Allowlists {

  datatype Allowance = Allowance(reason: string, units: seq<int>, used: bool)

  type Entries = map<string, Allowance>

  /** No counts cover everything; otherwise only the listed ones. */
  predicate Covers(allowed: seq<int>, units: int) {
    allowed == [] || units in allowed
  }

  function Added(m: Entries, boundary: string, reason: string, units: seq<int>): Entries {
    m[boundary := Allowance(reason, units, false)]
  }

  predicate Allows(m: Entries, boundary: string, units: int) {
    boundary in m && Covers(m[boundary].units, units)
  }

  /** Only an entry that covers the count becomes used, and nothing else changes. */
  function Consulted(m: Entries, boundary: string, units: int): Entries {
    if Allows(m, boundary, units) then m[boundary := m[boundary].(used := true)] else m
  }

  /** The counts of an entry that exists but does not cover. */
  function Declined(m: Entries, boundary: string, units: int): seq<int> {
    if boundary in m && !Allows(m, boundary, units) then m[boundary].units else []
  }

  method CoversWriteUnits(allowed: seq<int>, units: int) returns (b: bool)
    ensures b <==> |allowed| == 0 || exists i | 0 <= i < |allowed| :: allowed[i] == units
    ensures b <==> Covers(allowed, units)
  {
    if |allowed| == 0 {
      return true;
    }
    for i := 0 to |allowed|
      invariant units !in allowed[..i]
    {
      if allowed[i] == units {
        return true;
      }
    }
    return false;
  }

  class Allowlist {
    var entries: Entries

    constructor ()
      ensures entries == map[]
    {
      entries := map[];
    }

    method Add(boundary: string, reason: string, exactWriteUnits: seq<int>)
      modifies this
      ensures entries == Added(old(entries), boundary, reason, exactWriteUnits)
    {
      entries := entries[boundary := Allowance(reason, exactWriteUnits, false)];
    }

    method Allow(boundary: string, units: int) returns (allowed: bool, declined: seq<int>)
      modifies this
      ensures allowed <==>
              boundary in old(entries) &&
              var counts := old(entries)[boundary].units;
              |counts| == 0 || exists i | 0 <= i < |counts| :: counts[i] == units
      ensures allowed <==> Allows(old(entries), boundary, units)
      ensures declined == Declined(old(entries), boundary, units)
      ensures entries == Consulted(old(entries), boundary, units)
    {
      if boundary !in entries {
        return false, [];
      }
      var e := entries[boundary];
      var covered := CoversWriteUnits(e.units, units);
      if !covered {
        return false, e.units;
      }
      entries := entries[boundary := e.(used := true)];
      return true, [];
    }
  }
}
