/** What the throttle guarantees over whole runs, for any clock. */
module ThrottleLaws {
  import opened Images
  import opened Verdicts
  import opened Throttle

  // ----- one signal ---------------------------------------------------------------------------

  /** A submitted report: what it says, its key, and what the clock says. */
  datatype Ticket = Ticket(report: Signal, key: string, now: int)

  datatype Channel = Channel(windows: Windows, forwarded: seq<Ticket>)

  /** interval > 0 throttles, anything else forwards everything. */
  function Submit(interval: int, cap: int, ch: Channel, t: Ticket): Channel {
    if interval <= 0 then ch.(forwarded := ch.forwarded + [t])
    else Channel(Admitted(ch.windows, t.key, cap, interval, t.now),
                 if Admits(ch.windows, t.key, cap, interval, t.now) then ch.forwarded + [t] else ch.forwarded)
  }

  function Run(interval: int, cap: int, ts: seq<Ticket>): Channel {
    if ts == [] then Channel(map[], [])
    else Submit(interval, cap, Run(interval, cap, ts[..|ts| - 1]), ts[|ts| - 1])
  }

  // ----- conservation -------------------------------------------------------------------------

  ghost function Total(m: map<string, nat>): nat
    decreases m.Keys
  {
    if m == map[] then 0
    else
      var k :| k in m;
      m[k] + Total(m - {k})
  }

  lemma {:induction false} TotalWithout(m: map<string, nat>, k: string)
    requires k in m
    ensures Total(m) == m[k] + Total(m - {k})
    decreases m.Keys
  {
    var j :| j in m && Total(m) == m[j] + Total(m - {j});
    if j != k {
      TotalWithout(m - {j}, k);
      TotalWithout(m - {k}, j);
      assert (m - {j}) - {k} == (m - {k}) - {j};
    }
  }

  lemma TotalUpdate(m: map<string, nat>, k: string, v: nat)
    ensures Total(m[k := v]) == Total(m - {k}) + v
    ensures Total(m) == Total(m - {k}) + if k in m then m[k] else 0
  {
    TotalWithout(m[k := v], k);
    assert m[k := v] - {k} == m - {k};
    if k in m {
      TotalWithout(m, k);
    } else {
      assert m - {k} == m;
    }
  }

  lemma SuppressionsStep(m: Windows, key: string, cap: int, interval: int, now: int)
    ensures Total(Suppressions(Admitted(m, key, cap, interval, now))) ==
            Total(Suppressions(m)) + if Admits(m, key, cap, interval, now) then 0 else 1
  {
    var s, s' := Suppressions(m), Suppressions(Admitted(m, key, cap, interval, now));
    if Admits(m, key, cap, interval, now) {
      assert s' == s;
    } else {
      assert s' == s[key := m[key].suppressed + 1];
      TotalUpdate(s, key, m[key].suppressed + 1);
    }
  }

  /** Submitted = forwarded + suppressed, whatever the interval, the cap and the clock. */
  lemma {:induction false} Conservation(interval: int, cap: int, ts: seq<Ticket>)
    ensures var ch := Run(interval, cap, ts);
            |ts| == |ch.forwarded| + Total(Suppressions(ch.windows))
  {
    if ts != [] {
      var before := Run(interval, cap, ts[..|ts| - 1]);
      var t := ts[|ts| - 1];
      Conservation(interval, cap, ts[..|ts| - 1]);
      SuppressionsStep(before.windows, t.key, cap, interval, t.now);
    } else {
      assert Suppressions(map[]) == map[];
    }
  }

  /** How many of the tickets have the key. */
  function OfKey(ts: seq<Ticket>, key: string): nat {
    if ts == [] then 0 else OfKey(ts[..|ts| - 1], key) + if ts[|ts| - 1].key == key then 1 else 0
  }

  function SuppressedOf(m: Windows, key: string): nat {
    if key in Suppressions(m) then Suppressions(m)[key] else 0
  }

  /** And key by key: each suppression is counted under the key of its report. */
  lemma {:induction false} KeyConservation(interval: int, cap: int, ts: seq<Ticket>, key: string)
    ensures var ch := Run(interval, cap, ts);
            OfKey(ts, key) == OfKey(ch.forwarded, key) + SuppressedOf(ch.windows, key)
  {
    if ts != [] {
      var t := ts[|ts| - 1];
      var ch := Run(interval, cap, ts[..|ts| - 1]);
      KeyConservation(interval, cap, ts[..|ts| - 1], key);
      SubmitKey(interval, cap, ch, t, key);
    }
  }

  lemma SubmitKey(interval: int, cap: int, ch: Channel, t: Ticket, key: string)
    ensures var ch' := Submit(interval, cap, ch, t);
            OfKey(ch'.forwarded, key) + SuppressedOf(ch'.windows, key) ==
            OfKey(ch.forwarded, key) + SuppressedOf(ch.windows, key) + if t.key == key then 1 else 0
  {
    assert (ch.forwarded + [t])[..|ch.forwarded|] == ch.forwarded;
  }

  // ----- the rate bound -----------------------------------------------------------------------

  /** When reports of `key` were forwarded. */
  function Times(fs: seq<Ticket>, key: string): seq<int> {
    if fs == [] then []
    else Times(fs[..|fs| - 1], key) + if fs[|fs| - 1].key == key then [fs[|fs| - 1].now] else []
  }

  predicate Spaced(times: seq<int>, interval: int) {
    forall i | 0 < i < |times| :: times[i] - times[i - 1] >= interval
  }

  predicate Full(m: Windows, cap: int) {
    cap > 0 && |m| >= cap
  }

  ghost predicate Throttled(interval: int, cap: int, ch: Channel, key: string) {
    var times := Times(ch.forwarded, key);
    && (key in ch.windows ==>
          times != [] && times[|times| - 1] == ch.windows[key].lastForwarded && Spaced(times, interval))
    && (key !in ch.windows && !Full(ch.windows, cap) ==> times == [])
  }

  lemma TimesSnoc(fs: seq<Ticket>, t: Ticket, key: string)
    ensures Times(fs + [t], key) == Times(fs, key) + if t.key == key then [t.now] else []
  {
    assert (fs + [t])[..|fs|] == fs;
  }

  lemma {:induction false} KeepsThrottled(interval: int, cap: int, ts: seq<Ticket>, key: string)
    requires interval > 0
    ensures Throttled(interval, cap, Run(interval, cap, ts), key)
  {
    if ts != [] {
      var t := ts[|ts| - 1];
      var ch := Run(interval, cap, ts[..|ts| - 1]);
      KeepsThrottled(interval, cap, ts[..|ts| - 1], key);
      SubmitThrottled(interval, cap, ch, t, key);
    }
  }

  lemma SubmitThrottled(interval: int, cap: int, ch: Channel, t: Ticket, key: string)
    requires interval > 0 && Throttled(interval, cap, ch, key)
    ensures Throttled(interval, cap, Submit(interval, cap, ch, t), key)
  {
    TimesSnoc(ch.forwarded, t, key);
    assert Full(ch.windows, cap) ==> |ch.windows| <= |Submit(interval, cap, ch, t).windows|;
  }

  /** Forwards of a tracked key are at least the interval apart, whatever the clock does. */
  lemma ForwardsAreSpaced(interval: int, cap: int, ts: seq<Ticket>, key: string)
    requires interval > 0 && key in Run(interval, cap, ts).windows
    ensures Spaced(Times(Run(interval, cap, ts).forwarded, key), interval)
  {
    KeepsThrottled(interval, cap, ts, key);
  }

  lemma {:induction false} MulStrict(a: int, b: int, interval: int)
    requires interval > 0 && a < b
    ensures a * interval + interval <= b * interval
    decreases b - a
  {
    assert (b - 1) * interval + interval == b * interval;
    if a < b - 1 {
      MulStrict(a, b - 1, interval);
    }
  }

  /** The quotient bounds every count whose intervals fit into the span. */
  lemma AtMost(n: nat, interval: int, span: int)
    requires interval > 0 && n * interval <= span
    ensures n <= span / interval
  {
    var q := span / interval;
    assert q * interval + interval > span;
    if q < n {
      MulStrict(q, n, interval);
    }
  }

  /** How many of the times lie in the window from `start` on that is `span` long, both ends included. */
  function InWindow(times: seq<int>, start: int, span: nat): nat {
    if times == [] then 0
    else
      InWindow(times[..|times| - 1], start, span) +
      if start <= times[|times| - 1] <= start + span then 1 else 0
  }

  function Least(a: int, b: int): int {
    if a <= b then a else b
  }

  /** The times in the window stretch over one interval less than they are many. */
  lemma {:induction false} WindowStretch(times: seq<int>, interval: int, start: int, span: nat)
    requires interval > 0 && Spaced(times, interval) && InWindow(times, start, span) > 0
    ensures (InWindow(times, start, span) - 1) * interval <= Least(times[|times| - 1], start + span) - start
  {
    var n := |times| - 1;
    var before := InWindow(times[..n], start, span);
    if before > 0 {
      assert Spaced(times[..n], interval);
      WindowStretch(times[..n], interval, start, span);
      assert times[n] - times[n - 1] >= interval;
      assert before * interval == (before - 1) * interval + interval;
    }
  }

  /** A window of any length `span`, wherever it starts, holds at most span / interval + 1 forwards of a
      tracked key. */
  lemma RateBound(interval: int, cap: int, ts: seq<Ticket>, key: string, start: int, span: nat)
    requires interval > 0 && key in Run(interval, cap, ts).windows
    ensures InWindow(Times(Run(interval, cap, ts).forwarded, key), start, span) <= span / interval + 1
  {
    ForwardsAreSpaced(interval, cap, ts, key);
    WindowCount(Times(Run(interval, cap, ts).forwarded, key), interval, start, span);
  }

  lemma WindowCount(times: seq<int>, interval: int, start: int, span: nat)
    requires interval > 0 && Spaced(times, interval)
    ensures InWindow(times, start, span) <= span / interval + 1
  {
    var n := InWindow(times, start, span);
    if n > 0 {
      WindowStretch(times, interval, start, span);
      AtMost(n - 1, interval, span);
    }
  }

  lemma {:induction false} TimesAreForwards(fs: seq<Ticket>, key: string, i: nat)
    requires i < |Times(fs, key)|
    ensures exists f | f in fs :: f.key == key && f.now == Times(fs, key)[i]
  {
    var n := |fs| - 1;
    if i < |Times(fs[..n], key)| {
      TimesAreForwards(fs[..n], key, i);
    } else {
      assert fs[n] in fs;
    }
  }

  /** A report is suppressed only less than one interval after an earlier forward of the same key. */
  lemma SuppressionsFollowAForward(interval: int, cap: int, ts: seq<Ticket>, i: nat)
    requires interval > 0 && i < |ts|
    requires Run(interval, cap, ts[..i + 1]).forwarded == Run(interval, cap, ts[..i]).forwarded
    ensures exists f | f in Run(interval, cap, ts[..i]).forwarded ::
              f.key == ts[i].key && ts[i].now - f.now < interval
  {
    var ch := Run(interval, cap, ts[..i]);
    assert ts[..i + 1][..i] == ts[..i];
    assert !Admits(ch.windows, ts[i].key, cap, interval, ts[i].now);
    KeepsThrottled(interval, cap, ts[..i], ts[i].key);
    var times := Times(ch.forwarded, ts[i].key);
    TimesAreForwards(ch.forwarded, ts[i].key, |times| - 1);
  }

  // ----- which keys are tracked ---------------------------------------------------------------

  /** The keys submitted, each once, in order of first appearance. */
  function Keys(ts: seq<Ticket>): seq<string> {
    if ts == [] then []
    else
      var ks := Keys(ts[..|ts| - 1]);
      if ts[|ts| - 1].key in ks then ks else ks + [ts[|ts| - 1].key]
  }

  function FirstKeys(ts: seq<Ticket>, cap: int): seq<string> {
    if cap <= 0 || cap >= |Keys(ts)| then Keys(ts) else Keys(ts)[..cap]
  }

  lemma FirstKeysStep(ts: seq<Ticket>, cap: int)
    requires ts != []
    ensures var ks, t := Keys(ts[..|ts| - 1]), ts[|ts| - 1];
            FirstKeys(ts, cap) == FirstKeys(ts[..|ts| - 1], cap) +
            if t.key !in ks && (cap <= 0 || |ks| < cap) then [t.key] else []
  {
  }

  lemma TrackedStep(m: Windows, ks: seq<string>, cap: int, key: string, interval: int, now: int)
    requires var first := if cap <= 0 || cap >= |ks| then ks else ks[..cap];
             m.Keys == Elements(first) && |m| == |first|
    ensures var room := key !in ks && (cap <= 0 || |ks| < cap);
            var m' := Admitted(m, key, cap, interval, now);
            && m'.Keys == m.Keys + (if room then {key} else {})
            && |m'| == |m| + if room then 1 else 0
  {
    var m' := Admitted(m, key, cap, interval, now);
    var room := key !in ks && (cap <= 0 || |ks| < cap);
    assert |m'| == |m'.Keys| && |m| == |m.Keys|;
    if room {
      assert key !in m;
      assert m'.Keys == m.Keys + {key};
    } else {
      assert m'.Keys == m.Keys;
    }
  }

  /** The tracked keys are exactly the first ones ever submitted, up to the cap; none is ever evicted. */
  lemma {:induction false} TrackedKeys(interval: int, cap: int, ts: seq<Ticket>)
    requires interval > 0
    ensures Run(interval, cap, ts).windows.Keys == Elements(FirstKeys(ts, cap))
    ensures |Run(interval, cap, ts).windows| == |FirstKeys(ts, cap)|
  {
    if ts != [] {
      var front, t := ts[..|ts| - 1], ts[|ts| - 1];
      TrackedKeys(interval, cap, front);
      FirstKeysStep(ts, cap);
      TrackedStep(Run(interval, cap, front).windows, Keys(front), cap, t.key, interval, t.now);
      ElementsSnoc(FirstKeys(front, cap), t.key);
      assert FirstKeys(front, cap) + [] == FirstKeys(front, cap);
    }
  }

  // ----- the four signals together ------------------------------------------------------------

  /** A report of any signal, and what the clock says. */
  datatype Timed = Timed(signal: Signal, now: int)

  datatype Throttler = Throttler(lanes: Lanes, forwarded: seq<Timed>)

  /** Which of the signals the wrapped reporter supports. */
  datatype Support = Support(stale: bool, unbounded: bool, nested: bool)
  {
    predicate Takes(lane: Lane) {
      match lane
      case Violations => true
      case StaleAllows => stale
      case UnboundedWrites => unbounded
      case NestedBoundaries => nested
    }
  }

  function Dispatch(interval: int, sup: Support, th: Throttler, t: Timed): Throttler {
    if !sup.Takes(LaneOf(t.signal)) then th
    else Throttler(Reported(th.lanes, t.signal, interval, t.now),
                   th.forwarded + if Forwards(th.lanes, t.signal, interval, t.now) then [t] else [])
  }

  function RunAll(interval: int, sup: Support, ts: seq<Timed>): Throttler {
    if ts == [] then Throttler(NO_LANES, [])
    else Dispatch(interval, sup, RunAll(interval, sup, ts[..|ts| - 1]), ts[|ts| - 1])
  }

  /** The reports of one signal, as its channel sees them. */
  function TicketsOf(ts: seq<Timed>, lane: Lane): seq<Ticket> {
    if ts == [] then []
    else
      var t := ts[|ts| - 1];
      TicketsOf(ts[..|ts| - 1], lane) + if LaneOf(t.signal) == lane then [TicketOf(t)] else []
  }

  function TicketOf(t: Timed): Ticket {
    Ticket(t.signal, KeyOf(t.signal), t.now)
  }

  /** The reports among `ss` that belong to one signal, in order. */
  function OfLane(ss: seq<Timed>, lane: Lane): seq<Timed> {
    if ss == [] then []
    else OfLane(ss[..|ss| - 1], lane) + if LaneOf(ss[|ss| - 1].signal) == lane then [ss[|ss| - 1]] else []
  }

  /** What the tickets say, and when. */
  function ReportsOf(fs: seq<Ticket>): (ss: seq<Timed>)
    ensures |ss| == |fs| && forall i | 0 <= i < |fs| :: ss[i] == Timed(fs[i].report, fs[i].now)
  {
    seq(|fs|, i requires 0 <= i < |fs| => Timed(fs[i].report, fs[i].now))
  }

  lemma OfLaneMore(ss: seq<Timed>, t: Timed, forward: bool, lane: Lane)
    ensures OfLane(ss + (if forward then [t] else []), lane) ==
            OfLane(ss, lane) + if forward && LaneOf(t.signal) == lane then [t] else []
  {
    assert (ss + [t])[..|ss|] == ss;
    assert ss + [] == ss;
  }

  lemma ReportsOfMore(fs: seq<Ticket>, t: Ticket)
    ensures ReportsOf(fs + [t]) == ReportsOf(fs) + [Timed(t.report, t.now)]
  {
  }

  lemma GetSet(l: Lanes, lane: Lane, other: Lane, m: Windows)
    ensures l.Set(lane, m).Get(other) == if lane == other then m else l.Get(other)
  {
  }

  /** A supported report reaches its own channel as one submission. */
  lemma DispatchOwn(interval: int, sup: Support, th: Throttler, t: Timed, ch: Channel)
    requires sup.Takes(LaneOf(t.signal))
    requires th.lanes.Get(LaneOf(t.signal)) == ch.windows
    requires OfLane(th.forwarded, LaneOf(t.signal)) == ReportsOf(ch.forwarded)
    ensures var lane := LaneOf(t.signal);
            var ch' := Submit(interval, MaxKeys(lane), ch, TicketOf(t));
            && Dispatch(interval, sup, th, t).lanes.Get(lane) == ch'.windows
            && OfLane(Dispatch(interval, sup, th, t).forwarded, lane) == ReportsOf(ch'.forwarded)
  {
    var lane := LaneOf(t.signal);
    OfLaneMore(th.forwarded, t, Forwards(th.lanes, t.signal, interval, t.now), lane);
    GetSet(th.lanes, lane, lane, Admitted(ch.windows, KeyOf(t.signal), MaxKeys(lane), interval, t.now));
    ReportsOfMore(ch.forwarded, TicketOf(t));
  }

  lemma DispatchOther(interval: int, sup: Support, th: Throttler, t: Timed, lane: Lane)
    requires LaneOf(t.signal) != lane
    ensures Dispatch(interval, sup, th, t).lanes.Get(lane) == th.lanes.Get(lane)
    ensures OfLane(Dispatch(interval, sup, th, t).forwarded, lane) == OfLane(th.forwarded, lane)
  {
    var own := LaneOf(t.signal);
    OfLaneMore(th.forwarded, t, Forwards(th.lanes, t.signal, interval, t.now), lane);
    GetSet(th.lanes, own, lane, Admitted(th.lanes.Get(own), KeyOf(t.signal), MaxKeys(own), interval, t.now));
  }

  /** Each supported signal behaves as if it were alone: other signals never move its windows, and what is
      forwarded of it, report by report and in order, is what its own run forwards. */
  lemma {:induction false} SignalsAreIndependent(interval: int, sup: Support, ts: seq<Timed>, lane: Lane)
    requires sup.Takes(lane)
    ensures var ch := Run(interval, MaxKeys(lane), TicketsOf(ts, lane));
            && RunAll(interval, sup, ts).lanes.Get(lane) == ch.windows
            && OfLane(RunAll(interval, sup, ts).forwarded, lane) == ReportsOf(ch.forwarded)
  {
    if ts != [] {
      var front, t := ts[..|ts| - 1], ts[|ts| - 1];
      var th, ks := RunAll(interval, sup, front), TicketsOf(front, lane);
      SignalsAreIndependent(interval, sup, front, lane);
      if LaneOf(t.signal) == lane {
        DispatchOwn(interval, sup, th, t, Run(interval, MaxKeys(lane), ks));
        assert (ks + [TicketOf(t)])[..|ks|] == ks;
      } else {
        DispatchOther(interval, sup, th, t, lane);
        assert TicketsOf(ts, lane) == ks;
      }
    }
  }

  /** Over any sequence of reports: for each signal the wrapped reporter supports, everything submitted
      was forwarded or is in the suppression counts; for an unsupported one, neither. */
  lemma NoReportIsLost(interval: int, sup: Support, ts: seq<Timed>, lane: Lane)
    requires sup.Takes(lane)
    ensures |TicketsOf(ts, lane)| ==
            |OfLane(RunAll(interval, sup, ts).forwarded, lane)| +
            Total(Suppressions(RunAll(interval, sup, ts).lanes.Get(lane)))
  {
    SignalsAreIndependent(interval, sup, ts, lane);
    Conservation(interval, MaxKeys(lane), TicketsOf(ts, lane));
  }

  lemma {:induction false} UnsupportedIsIgnored(interval: int, sup: Support, ts: seq<Timed>, lane: Lane)
    requires !sup.Takes(lane)
    ensures RunAll(interval, sup, ts).lanes.Get(lane) == map[]
    ensures OfLane(RunAll(interval, sup, ts).forwarded, lane) == []
  {
    if ts != [] {
      var th, t := RunAll(interval, sup, ts[..|ts| - 1]), ts[|ts| - 1];
      UnsupportedIsIgnored(interval, sup, ts[..|ts| - 1], lane);
      if LaneOf(t.signal) != lane {
        DispatchOther(interval, sup, th, t, lane);
      }
    }
  }
}
