/** The throttling reporter: per key, one report per interval. */
module Throttle {
  import opened Verdicts
  import opened Boundaries
  import opened WriteKey

  const MAX_UNBOUNDED_WRITE_KEYS := 1024

  /** What is remembered about a key: the instant of its latest forward, and the number of its reports held
      back over the reporter's whole life. */
  datatype Window = Window(lastForwarded: int, suppressed: nat)

  type Windows = map<string, Window>

  // ----- specification of one channel ---------------------------------------------------------

  /** A key that is not tracked and cannot be any more. */
  predicate FailsOpen(m: Windows, key: string, maxKeys: int) {
    key !in m && maxKeys > 0 && |m| >= maxKeys
  }

  predicate Admits(m: Windows, key: string, maxKeys: int, interval: int, now: int) {
    key !in m || now - m[key].lastForwarded >= interval
  }

  function Admitted(m: Windows, key: string, maxKeys: int, interval: int, now: int): Windows {
    if FailsOpen(m, key, maxKeys) then m
    else if key !in m then m[key := Window(now, 0)]
    else if Admits(m, key, maxKeys, interval, now) then m[key := m[key].(lastForwarded := now)]
    else m[key := m[key].(suppressed := m[key].suppressed + 1)]
  }

  /** The keys that have suppressed anything, and how much. */
  function Suppressions(m: Windows): map<string, nat> {
    map k | k in m && m[k].suppressed > 0 :: m[k].suppressed
  }

  // ----- the four signals ---------------------------------------------------------------------

  datatype Lane = Violations | UnboundedWrites | StaleAllows | NestedBoundaries

  function LaneOf(s: Signal): Lane {
    match s
    case Violation(_, _, _, _, _, _) => Violations
    case StaleAllow(_, _, _) => StaleAllows
    case UnboundedWrite(_, _) => UnboundedWrites
    case NestedBoundary(_, _) => NestedBoundaries
  }

  function KeyOf(s: Signal): string {
    match s
    case Violation(b, _, _, _, _, _) => b
    case StaleAllow(b, _, _) => b
    case UnboundedWrite(r, _) => Key(r.query)
    case NestedBoundary(outer, inner) => outer + ['\0'] + inner
  }

  function MaxKeys(lane: Lane): int {
    if lane.UnboundedWrites? then MAX_UNBOUNDED_WRITE_KEYS else 0
  }

  /** The reporter's four windows, one per signal. */
  datatype Lanes = Lanes(violations: Windows, unbounded: Windows, staleAllows: Windows, nested: Windows)
  {
    function Get(lane: Lane): Windows {
      match lane
      case Violations => violations
      case UnboundedWrites => unbounded
      case StaleAllows => staleAllows
      case NestedBoundaries => nested
    }

    function Set(lane: Lane, m: Windows): Lanes {
      match lane
      case Violations => this.(violations := m)
      case UnboundedWrites => this.(unbounded := m)
      case StaleAllows => this.(staleAllows := m)
      case NestedBoundaries => this.(nested := m)
    }
  }

  const NO_LANES := Lanes(map[], map[], map[], map[])

  predicate Forwards(l: Lanes, s: Signal, interval: int, now: int) {
    interval <= 0 || Admits(l.Get(LaneOf(s)), KeyOf(s), MaxKeys(LaneOf(s)), interval, now)
  }

  /** The windows after a report the wrapped reporter supports; only those of its own signal move. */
  function Reported(l: Lanes, s: Signal, interval: int, now: int): Lanes {
    if interval <= 0 then l
    else l.Set(LaneOf(s), Admitted(l.Get(LaneOf(s)), KeyOf(s), MaxKeys(LaneOf(s)), interval, now))
  }

  // ----- the code -----------------------------------------------------------------------------

  class ThrottlingReporter {
    const next: Reporter
    const interval: int
    var violations: Windows
    var staleAllows: Windows
    var unbounded: Windows
    var nested: Windows

    constructor (next: Reporter, interval: int)
      ensures this.next == next && this.interval == interval && View() == NO_LANES
    {
      this.next, this.interval := next, interval;
      violations, staleAllows, unbounded, nested := map[], map[], map[], map[];
    }

    function View(): Lanes
      reads this
    {
      Lanes(violations, unbounded, staleAllows, nested)
    }

    /** Whether a report for `key` is forwarded now, and the windows after it. */
    method Admit(m: Windows, key: string, maxKeys: int, now: int) returns (ok: bool, m': Windows)
      ensures ok <==> Admits(m, key, maxKeys, interval, now)
      ensures m' == Admitted(m, key, maxKeys, interval, now)
    {
      if key !in m {
        if maxKeys > 0 && |m| >= maxKeys {
          return true, m;
        }
        return true, m[key := Window(now, 0)];
      }
      var st := m[key];
      if now - st.lastForwarded >= interval {
        return true, m[key := st.(lastForwarded := now)];
      }
      return false, m[key := st.(suppressed := st.suppressed + 1)];
    }

    method Report(v: Signal, now: int)
      requires v.Violation?
      modifies this`violations, next`received
      ensures View() == Reported(old(View()), v, interval, now)
      ensures next.received == old(next.received) + if Forwards(old(View()), v, interval, now) then [v] else []
    {
      var ok := interval <= 0;
      if !ok {
        ok, violations := Admit(violations, v.boundary, 0, now);
      }
      if ok {
        next.Deliver(v);
      }
    }

    method ReportUnboundedWrite(s: Signal, now: int)
      requires s.UnboundedWrite?
      modifies this`unbounded, next`received
      ensures next.takesUnbounded ==> View() == Reported(old(View()), s, interval, now)
      ensures next.takesUnbounded ==>
                next.received == old(next.received) + if Forwards(old(View()), s, interval, now) then [s] else []
      ensures !next.takesUnbounded ==> View() == old(View()) && next.received == old(next.received)
    {
      if !next.takesUnbounded {
        return;
      }
      var ok := interval <= 0;
      if !ok {
        var key := UnboundedWriteKey(s.record.query);
        ok, unbounded := Admit(unbounded, key, MAX_UNBOUNDED_WRITE_KEYS, now);
      }
      if ok {
        next.Deliver(s);
      }
    }

    method ReportStaleAllow(s: Signal, now: int)
      requires s.StaleAllow?
      modifies this`staleAllows, next`received
      ensures next.takesStale ==> View() == Reported(old(View()), s, interval, now)
      ensures next.takesStale ==>
                next.received == old(next.received) + if Forwards(old(View()), s, interval, now) then [s] else []
      ensures !next.takesStale ==> View() == old(View()) && next.received == old(next.received)
    {
      if !next.takesStale {
        return;
      }
      var ok := interval <= 0;
      if !ok {
        ok, staleAllows := Admit(staleAllows, s.boundary, 0, now);
      }
      if ok {
        next.Deliver(s);
      }
    }

    method ReportNestedBoundary(s: Signal, now: int)
      requires s.NestedBoundary?
      modifies this`nested, next`received
      ensures next.takesNested ==> View() == Reported(old(View()), s, interval, now)
      ensures next.takesNested ==>
                next.received == old(next.received) + if Forwards(old(View()), s, interval, now) then [s] else []
      ensures !next.takesNested ==> View() == old(View()) && next.received == old(next.received)
    {
      if !next.takesNested {
        return;
      }
      var ok := interval <= 0;
      if !ok {
        ok, nested := Admit(nested, s.outer + ['\0'] + s.inner, 0, now);
      }
      if ok {
        next.Deliver(s);
      }
    }

    /** The suppression counts of one signal; keys without suppressions are omitted. */
    method Snapshot(m: Windows) returns (out: map<string, nat>)
      ensures out == Suppressions(m)
    {
      out := map[];
      var keys := m.Keys;
      while keys != {}
        invariant keys <= m.Keys
        invariant out == map k | k in m && k !in keys && m[k].suppressed > 0 :: m[k].suppressed
        decreases keys
      {
        var k :| k in keys;
        keys := keys - {k};
        if m[k].suppressed > 0 {
          out := out[k := m[k].suppressed];
        }
      }
    }
  }
}
