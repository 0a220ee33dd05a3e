/** What the throttle does to the reports of one name, said in the reports' own terms: violations and stale
    allows by boundary, nestings by their two boundaries, unbounded writes by their normalized text. */
module ThrottleNames {
  import opened Verdicts
  import opened Throttle
  import opened ThrottleLaws
  import opened WriteKey

  datatype Name =
    | OfViolation(boundary: string)
    | OfStaleAllow(boundary: string)
    | OfNesting(outer: string, inner: string)
    | OfWrite(text: string)

  function NameOf(s: Signal): Name {
    match s
    case Violation(b, _, _, _, _, _) => OfViolation(b)
    case StaleAllow(b, _, _) => OfStaleAllow(b)
    case NestedBoundary(outer, inner) => OfNesting(outer, inner)
    case UnboundedWrite(r, _) => OfWrite(Key(r.query))
  }

  /** The wrapped reporter takes signals of that name. */
  predicate Supported(sup: Support, n: Name) {
    match n
    case OfViolation(_) => true
    case OfStaleAllow(_) => sup.stale
    case OfNesting(_, _) => sup.nested
    case OfWrite(_) => sup.unbounded
  }

  predicate NulFree(s: string) {
    '\0' !in s
  }

  /** The name of a boundary with another inside holds no NUL. */
  predicate Plain(s: Signal) {
    s.NestedBoundary? ==> NulFree(s.outer)
  }

  /** The reports of that name, in order. */
  function Named(ts: seq<Timed>, n: Name): seq<Timed> {
    if ts == [] then []
    else Named(ts[..|ts| - 1], n) + if NameOf(ts[|ts| - 1].signal) == n then [ts[|ts| - 1]] else []
  }

  // ----- names are what the windows are keyed by ------------------------------------------------

  function LaneOfName(n: Name): Lane {
    match n
    case OfViolation(_) => Violations
    case OfStaleAllow(_) => StaleAllows
    case OfNesting(_, _) => NestedBoundaries
    case OfWrite(_) => UnboundedWrites
  }

  function KeyOfName(n: Name): string {
    match n
    case OfViolation(b) => b
    case OfStaleAllow(b) => b
    case OfNesting(outer, inner) => outer + ['\0'] + inner
    case OfWrite(text) => text
  }

  lemma NoLonger(a: string, b: string, c: string, d: string)
    requires NulFree(c) && a + ['\0'] + b == c + ['\0'] + d
    ensures |a| >= |c|
  {
    var s := a + ['\0'] + b;
    assert s[|a|] == '\0';
    assert forall k | 0 <= k < |c| :: s[k] == c[k] && c[k] in c;
  }

  lemma PairSplits(a: string, b: string, c: string, d: string)
    requires NulFree(a) && NulFree(c) && a + ['\0'] + b == c + ['\0'] + d
    ensures a == c && b == d
  {
    NoLonger(a, b, c, d);
    NoLonger(c, d, a, b);
    var s := a + ['\0'] + b;
    assert a == s[..|a|] == c;
    assert b == s[|a| + 1..] == d;
  }

  predicate PlainName(n: Name) {
    n.OfNesting? ==> NulFree(n.outer)
  }

  lemma NamesAreKeys(s: Signal, n: Name)
    requires Plain(s) && PlainName(n)
    ensures NameOf(s) == n <==> LaneOf(s) == LaneOfName(n) && KeyOf(s) == KeyOfName(n)
  {
    if s.NestedBoundary? && n.OfNesting? && KeyOf(s) == KeyOfName(n) {
      PairSplits(s.outer, s.inner, n.outer, n.inner);
    }
  }

  // ----- pairs that share a window --------------------------------------------------------------

  /** The second pair is the first with the NUL between its names moved further on. */
  ghost predicate Shifted(a: string, b: string, c: string, d: string) {
    exists m :: c == a + ['\0'] + m && b == m + ['\0'] + d
  }

  lemma SharedIsShifted(a: string, b: string, c: string, d: string)
    requires a + ['\0'] + b == c + ['\0'] + d && |a| < |c|
    ensures Shifted(a, b, c, d)
  {
    var s, n := a + ['\0'] + b, |c| - |a| - 1;
    assert b == s[|a| + 1..] && c == s[..|c|] && d == s[|c| + 1..];
    var m := s[|a| + 1..|c|];
    assert b[n] == s[|c|] == '\0';
    assert c == a + ['\0'] + m;
    assert b == m + ['\0'] + d;
  }

  lemma ShiftedIsShared(a: string, b: string, c: string, d: string)
    requires Shifted(a, b, c, d)
    ensures a + ['\0'] + b == c + ['\0'] + d
  {
    var m :| c == a + ['\0'] + m && b == m + ['\0'] + d;
    assert a + ['\0'] + (m + ['\0'] + d) == (a + ['\0'] + m) + ['\0'] + d;
  }

  /** Two nestings are throttled together exactly when they are the same pair, or one is the other with
      the NUL between its names moved; for the latter an outer name has to hold one. */
  lemma PairsShareIff(a: string, b: string, c: string, d: string)
    ensures KeyOf(NestedBoundary(a, b)) == KeyOf(NestedBoundary(c, d)) <==>
            (a == c && b == d) || Shifted(a, b, c, d) || Shifted(c, d, a, b)
    ensures Shifted(a, b, c, d) ==> !NulFree(c)
  {
    var p, q := a + ['\0'] + b, c + ['\0'] + d;
    if p == q {
      if |a| == |c| {
        assert a == p[..|a|] && c == q[..|c|] && b == p[|a| + 1..] && d == q[|c| + 1..];
      } else if |a| < |c| {
        SharedIsShifted(a, b, c, d);
      } else {
        SharedIsShifted(c, d, a, b);
      }
    }
    if Shifted(a, b, c, d) {
      ShiftedIsShared(a, b, c, d);
      var m :| c == a + ['\0'] + m && b == m + ['\0'] + d;
      assert c[|a|] == '\0';
    }
    if Shifted(c, d, a, b) {
      ShiftedIsShared(c, d, a, b);
    }
  }

  const ONE_PAIR := NestedBoundary("a", ['b', '\0', 'c'])
  const OTHER_PAIR := NestedBoundary(['a', '\0', 'b'], "c")

  /** With such names the first report of a pair can be held back. */
  lemma FirstHeldBack(interval: int, sup: Support, now: int)
    requires interval > 0 && sup.nested
    ensures NameOf(ONE_PAIR) != NameOf(OTHER_PAIR)
    ensures RunAll(interval, sup, [Timed(ONE_PAIR, now), Timed(OTHER_PAIR, now)]).forwarded == [Timed(ONE_PAIR, now)]
  {
    var s, t := Timed(ONE_PAIR, now), Timed(OTHER_PAIR, now);
    assert KeyOf(ONE_PAIR) == ['a', '\0', 'b', '\0', 'c'] == KeyOf(OTHER_PAIR);
    RunMore(interval, sup, [], s);
    RunMore(interval, sup, [s], t);
    assert [] + [s] == [s] && [s] + [t] == [s, t];
    var one := RunAll(interval, sup, [s]);
    assert one.forwarded == [] + [s];
    assert KeyOf(ONE_PAIR) in one.lanes.nested && one.lanes.nested[KeyOf(ONE_PAIR)].lastForwarded == now;
  }

  // ----- one name at a time ---------------------------------------------------------------------

  predicate SameWindow(m: Windows, m': Windows, key: string) {
    (key in m <==> key in m') && (key in m ==> m[key] == m'[key])
  }

  lemma NamedSnoc(ts: seq<Timed>, t: Timed, n: Name)
    ensures Named(ts + [t], n) == Named(ts, n) + if NameOf(t.signal) == n then [t] else []
    ensures Named(ts + [], n) == Named(ts, n)
  {
    assert (ts + [t])[..|ts|] == ts;
    assert ts + [] == ts;
  }

  lemma OtherKey(interval: int, sup: Support, th: Throttler, t: Timed, lane: Lane, key: string)
    requires LaneOf(t.signal) != lane || KeyOf(t.signal) != key
    ensures SameWindow(th.lanes.Get(lane), Dispatch(interval, sup, th, t).lanes.Get(lane), key)
  {
    var own := LaneOf(t.signal);
    GetSet(th.lanes, own, lane, Admitted(th.lanes.Get(own), KeyOf(t.signal), MaxKeys(own), interval, t.now));
  }

  lemma Forwarding(interval: int, sup: Support, th: Throttler, t: Timed)
    ensures Dispatch(interval, sup, th, t).forwarded == th.forwarded ||
            Dispatch(interval, sup, th, t).forwarded == th.forwarded + [t]
  {
    assert th.forwarded + [] == th.forwarded;
  }

  /** A report of another name leaves this name's window and forwards alone. */
  lemma OtherName(interval: int, sup: Support, th: Throttler, t: Timed, n: Name)
    requires Plain(t.signal) && PlainName(n) && NameOf(t.signal) != n
    ensures SameWindow(th.lanes.Get(LaneOfName(n)), Dispatch(interval, sup, th, t).lanes.Get(LaneOfName(n)),
                       KeyOfName(n))
    ensures Named(Dispatch(interval, sup, th, t).forwarded, n) == Named(th.forwarded, n)
  {
    NamesAreKeys(t.signal, n);
    OtherKey(interval, sup, th, t, LaneOfName(n), KeyOfName(n));
    Forwarding(interval, sup, th, t);
    NamedSnoc(th.forwarded, t, n);
  }

  lemma OwnKey(interval: int, sup: Support, th: Throttler, t: Timed, lane: Lane, key: string)
    requires LaneOf(t.signal) == lane && KeyOf(t.signal) == key && sup.Takes(lane)
    ensures var ok := interval <= 0 || Admits(th.lanes.Get(lane), key, MaxKeys(lane), interval, t.now);
            var th' := Dispatch(interval, sup, th, t);
            && th'.forwarded == th.forwarded + (if ok then [t] else [])
            && th'.lanes.Get(lane) == (if interval <= 0 then th.lanes.Get(lane)
                                       else Admitted(th.lanes.Get(lane), key, MaxKeys(lane), interval, t.now))
  {
    GetSet(th.lanes, lane, lane, Admitted(th.lanes.Get(lane), key, MaxKeys(lane), interval, t.now));
  }

  /** A report of this name: what happens to it depends on its window alone. */
  lemma ThisName(interval: int, sup: Support, th: Throttler, t: Timed, n: Name)
    requires Plain(t.signal) && PlainName(n) && NameOf(t.signal) == n && Supported(sup, n)
    ensures var lane, key := LaneOfName(n), KeyOfName(n);
            var ok := interval <= 0 || Admits(th.lanes.Get(lane), key, MaxKeys(lane), interval, t.now);
            var th' := Dispatch(interval, sup, th, t);
            && th'.forwarded == th.forwarded + (if ok then [t] else [])
            && th'.lanes.Get(lane) == (if interval <= 0 then th.lanes.Get(lane)
                                       else Admitted(th.lanes.Get(lane), key, MaxKeys(lane), interval, t.now))
  {
    NamesAreKeys(t.signal, n);
    OwnKey(interval, sup, th, t, LaneOfName(n), KeyOfName(n));
  }

  lemma SameOutcome(m: Windows, m': Windows, key: string, interval: int, now: int)
    requires SameWindow(m, m', key)
    ensures Admits(m, key, 0, interval, now) == Admits(m', key, 0, interval, now)
    ensures SameWindow(Admitted(m, key, 0, interval, now), Admitted(m', key, 0, interval, now), key)
  {
  }

  predicate AllPlain(ts: seq<Timed>) {
    forall t | t in ts :: Plain(t.signal)
  }

  ghost predicate Alike(th: Throttler, alone: Throttler, n: Name) {
    && Named(th.forwarded, n) == alone.forwarded
    && SameWindow(th.lanes.Get(LaneOfName(n)), alone.lanes.Get(LaneOfName(n)), KeyOfName(n))
  }

  lemma AppendNamed(fs: seq<Timed>, mine: seq<Timed>, t: Timed, ok: bool, n: Name)
    requires Named(fs, n) == mine && NameOf(t.signal) == n
    ensures Named(fs + (if ok then [t] else []), n) == mine + if ok then [t] else []
  {
    NamedSnoc(fs, t, n);
    assert mine + [] == mine;
  }

  lemma ThisAlike(interval: int, sup: Support, th: Throttler, alone: Throttler, t: Timed, n: Name)
    requires Plain(t.signal) && PlainName(n) && Supported(sup, n) && !n.OfWrite? && NameOf(t.signal) == n
    requires Alike(th, alone, n)
    ensures Alike(Dispatch(interval, sup, th, t), Dispatch(interval, sup, alone, t), n)
  {
    var lane, key := LaneOfName(n), KeyOfName(n);
    ThisName(interval, sup, th, t, n);
    ThisName(interval, sup, alone, t, n);
    SameOutcome(th.lanes.Get(lane), alone.lanes.Get(lane), key, interval, t.now);
    AppendNamed(th.forwarded, alone.forwarded, t,
                interval <= 0 || Admits(th.lanes.Get(lane), key, MaxKeys(lane), interval, t.now), n);
  }

  lemma OtherAlike(interval: int, sup: Support, th: Throttler, alone: Throttler, t: Timed, n: Name)
    requires Plain(t.signal) && PlainName(n) && NameOf(t.signal) != n && Alike(th, alone, n)
    ensures Alike(Dispatch(interval, sup, th, t), alone, n)
  {
    OtherName(interval, sup, th, t, n);
  }

  lemma RunMore(interval: int, sup: Support, ts: seq<Timed>, t: Timed)
    ensures RunAll(interval, sup, ts + [t]) == Dispatch(interval, sup, RunAll(interval, sup, ts), t)
  {
    assert (ts + [t])[..|ts|] == ts;
  }

  lemma {:induction false} NameAlone(interval: int, sup: Support, ts: seq<Timed>, n: Name)
    requires AllPlain(ts) && PlainName(n) && Supported(sup, n) && !n.OfWrite?
    ensures Alike(RunAll(interval, sup, ts), RunAll(interval, sup, Named(ts, n)), n)
  {
    if ts != [] {
      var front, t := ts[..|ts| - 1], ts[|ts| - 1];
      assert ts == front + [t] && t in ts && forall x | x in front :: x in ts;
      NameAlone(interval, sup, front, n);
      RunMore(interval, sup, front, t);
      NamedSnoc(front, t, n);
      if NameOf(t.signal) == n {
        RunMore(interval, sup, Named(front, n), t);
        ThisAlike(interval, sup, RunAll(interval, sup, front), RunAll(interval, sup, Named(front, n)), t, n);
      } else {
        OtherAlike(interval, sup, RunAll(interval, sup, front), RunAll(interval, sup, Named(front, n)), t, n);
        assert Named(front, n) + [] == Named(front, n);
      }
    }
  }

  /** What is forwarded of one boundary's violations, of its stale allows, or of one pair's nestings is what
      would be forwarded of them alone: no report of another name ever changes it. */
  lemma EachNameAlone(interval: int, sup: Support, ts: seq<Timed>, n: Name)
    requires AllPlain(ts) && PlainName(n) && Supported(sup, n) && !n.OfWrite?
    ensures Named(RunAll(interval, sup, ts).forwarded, n) == RunAll(interval, sup, Named(ts, n)).forwarded
  {
    NameAlone(interval, sup, ts, n);
  }

  // ----- the first report -----------------------------------------------------------------------

  lemma {:induction false} Unseen(interval: int, sup: Support, ts: seq<Timed>, n: Name)
    requires AllPlain(ts) && PlainName(n) && forall t | t in ts :: NameOf(t.signal) != n
    ensures KeyOfName(n) !in RunAll(interval, sup, ts).lanes.Get(LaneOfName(n))
  {
    if ts != [] {
      var front, t := ts[..|ts| - 1], ts[|ts| - 1];
      assert t in ts && forall x | x in front :: x in ts;
      Unseen(interval, sup, front, n);
      OtherName(interval, sup, RunAll(interval, sup, front), t, n);
    }
  }

  /** The first report of a name is forwarded, whatever other names were reported before. */
  lemma FirstIsForwarded(interval: int, sup: Support, ts: seq<Timed>, t: Timed)
    requires AllPlain(ts + [t]) && Supported(sup, NameOf(t.signal))
    requires forall x | x in ts :: NameOf(x.signal) != NameOf(t.signal)
    ensures RunAll(interval, sup, ts + [t]).forwarded == RunAll(interval, sup, ts).forwarded + [t]
  {
    assert forall x | x in ts :: x in ts + [t];
    assert t in ts + [t] && (ts + [t])[..|ts|] == ts;
    Unseen(interval, sup, ts, NameOf(t.signal));
    ThisName(interval, sup, RunAll(interval, sup, ts), t, NameOf(t.signal));
  }

  // ----- the rate -------------------------------------------------------------------------------

  /** When reports of the name were forwarded. */
  function NamedTimes(fs: seq<Timed>, n: Name): seq<int> {
    if fs == [] then []
    else NamedTimes(fs[..|fs| - 1], n) + if NameOf(fs[|fs| - 1].signal) == n then [fs[|fs| - 1].now] else []
  }

  lemma NamedTimesSnoc(fs: seq<Timed>, t: Timed, n: Name)
    ensures NamedTimes(fs + [t], n) == NamedTimes(fs, n) + if NameOf(t.signal) == n then [t.now] else []
    ensures NamedTimes(fs + [], n) == NamedTimes(fs, n)
  {
    assert (fs + [t])[..|fs|] == fs;
    assert fs + [] == fs;
  }

  ghost predicate Paced(interval: int, th: Throttler, n: Name) {
    var m, key, times := th.lanes.Get(LaneOfName(n)), KeyOfName(n), NamedTimes(th.forwarded, n);
    && (key in m ==> times != [] && times[|times| - 1] == m[key].lastForwarded && Spaced(times, interval))
    && (key !in m && !Full(m, MaxKeys(LaneOfName(n))) ==> times == [])
  }

  /** A window admits, holds back or is opened as the name's times allow. */
  lemma PacedWindow(m: Windows, key: string, maxKeys: int, interval: int, now: int, times: seq<int>)
    requires key in m ==> times != [] && times[|times| - 1] == m[key].lastForwarded && Spaced(times, interval)
    requires key !in m && !Full(m, maxKeys) ==> times == []
    ensures var m' := Admitted(m, key, maxKeys, interval, now);
            var times' := times + if Admits(m, key, maxKeys, interval, now) then [now] else [];
            && (key in m' ==> times' != [] && times'[|times'| - 1] == m'[key].lastForwarded && Spaced(times', interval))
            && (key !in m' && !Full(m', maxKeys) ==> times' == [])
  {
  }

  lemma OtherTimes(interval: int, sup: Support, th: Throttler, t: Timed, n: Name)
    requires NameOf(t.signal) != n
    ensures NamedTimes(Dispatch(interval, sup, th, t).forwarded, n) == NamedTimes(th.forwarded, n)
  {
    Forwarding(interval, sup, th, t);
    NamedTimesSnoc(th.forwarded, t, n);
  }

  lemma OtherPaced(interval: int, sup: Support, th: Throttler, t: Timed, n: Name)
    requires Plain(t.signal) && PlainName(n) && NameOf(t.signal) != n && Paced(interval, th, n)
    ensures Paced(interval, Dispatch(interval, sup, th, t), n)
  {
    OtherName(interval, sup, th, t, n);
    OtherTimes(interval, sup, th, t, n);
    StaysFull(interval, sup, th, t, LaneOfName(n));
  }

  lemma StaysFull(interval: int, sup: Support, th: Throttler, t: Timed, lane: Lane)
    ensures |Dispatch(interval, sup, th, t).lanes.Get(lane)| >= |th.lanes.Get(lane)|
  {
    var own := LaneOf(t.signal);
    GetSet(th.lanes, own, lane, Admitted(th.lanes.Get(own), KeyOf(t.signal), MaxKeys(own), interval, t.now));
  }

  lemma ThisPaced(interval: int, sup: Support, th: Throttler, t: Timed, n: Name)
    requires interval > 0 && Plain(t.signal) && PlainName(n) && NameOf(t.signal) == n && Supported(sup, n)
    requires Paced(interval, th, n)
    ensures Paced(interval, Dispatch(interval, sup, th, t), n)
  {
    var lane, key := LaneOfName(n), KeyOfName(n);
    ThisName(interval, sup, th, t, n);
    NamedTimesSnoc(th.forwarded, t, n);
    PacedWindow(th.lanes.Get(lane), key, MaxKeys(lane), interval, t.now, NamedTimes(th.forwarded, n));
  }

  lemma {:induction false} PacedByName(interval: int, sup: Support, ts: seq<Timed>, n: Name)
    requires interval > 0 && AllPlain(ts) && PlainName(n) && Supported(sup, n)
    ensures Paced(interval, RunAll(interval, sup, ts), n)
  {
    if ts != [] {
      var front, t := ts[..|ts| - 1], ts[|ts| - 1];
      assert ts == front + [t] && t in ts && forall x | x in front :: x in ts;
      PacedByName(interval, sup, front, n);
      RunMore(interval, sup, front, t);
      if NameOf(t.signal) == n {
        ThisPaced(interval, sup, RunAll(interval, sup, front), t, n);
      } else {
        OtherPaced(interval, sup, RunAll(interval, sup, front), t, n);
      }
    }
  }

  /** The distinct texts of the unbounded writes, in order of first appearance. */
  function Texts(ts: seq<Timed>): seq<string> {
    if ts == [] then []
    else
      var texts, n := Texts(ts[..|ts| - 1]), NameOf(ts[|ts| - 1].signal);
      if n.OfWrite? && n.text !in texts then texts + [n.text] else texts
  }

  /** The name has a window of its own: always, but for a text only if it is one of the first 1024. */
  ghost predicate Tracked(ts: seq<Timed>, n: Name) {
    n.OfWrite? ==> exists i | 0 <= i < |Texts(ts)| && i < 1024 :: Texts(ts)[i] == n.text
  }

  lemma KeysMore(ks: seq<Ticket>, k: Ticket)
    ensures Keys(ks + [k]) == if k.key in Keys(ks) then Keys(ks) else Keys(ks) + [k.key]
  {
    assert (ks + [k])[..|ks|] == ks;
  }

  lemma {:induction false} TextsAreKeys(ts: seq<Timed>)
    ensures Texts(ts) == Keys(TicketsOf(ts, UnboundedWrites))
  {
    if ts != [] {
      var front, t := ts[..|ts| - 1], ts[|ts| - 1];
      TextsAreKeys(front);
      var ks := TicketsOf(front, UnboundedWrites);
      KeysMore(ks, TicketOf(t));
      if LaneOf(t.signal) == UnboundedWrites {
        assert TicketsOf(ts, UnboundedWrites) == ks + [TicketOf(t)];
      } else {
        assert TicketsOf(ts, UnboundedWrites) == ks;
      }
    }
  }

  /** The windows of the unbounded writes are those of the first 1024 texts. */
  lemma WriteWindows(interval: int, sup: Support, ts: seq<Timed>, text: string)
    requires interval > 0 && sup.unbounded
    ensures text in RunAll(interval, sup, ts).lanes.unbounded <==> Tracked(ts, OfWrite(text))
    ensures Full(RunAll(interval, sup, ts).lanes.unbounded, 1024) <==> |Texts(ts)| >= 1024
  {
    var ks := TicketsOf(ts, UnboundedWrites);
    SignalsAreIndependent(interval, sup, ts, UnboundedWrites);
    TrackedKeys(interval, 1024, ks);
    TextsAreKeys(ts);
    FirstTexts(Texts(ts), text);
  }

  lemma FirstTexts(texts: seq<string>, text: string)
    ensures var first := if 1024 >= |texts| then texts else texts[..1024];
            && |first| == (if 1024 >= |texts| then |texts| else 1024)
            && (text in first <==> exists i | 0 <= i < |texts| && i < 1024 :: texts[i] == text)
  {
    var first := if 1024 >= |texts| then texts else texts[..1024];
    assert forall i | 0 <= i < |first| :: first[i] == texts[i];
  }

  lemma {:induction false} SubmittedIsSeen(interval: int, sup: Support, ts: seq<Timed>, n: Name)
    requires interval > 0 && AllPlain(ts) && PlainName(n) && Supported(sup, n) && !n.OfWrite?
    ensures KeyOfName(n) !in RunAll(interval, sup, ts).lanes.Get(LaneOfName(n)) ==>
              NamedTimes(RunAll(interval, sup, ts).forwarded, n) == []
  {
    PacedByName(interval, sup, ts, n);
  }

  /** Forwards of one name are at least the interval apart, and a window of any length, wherever it starts,
      holds at most span / interval + 1 of them. */
  lemma RateByName(interval: int, sup: Support, ts: seq<Timed>, n: Name, start: int, span: nat)
    requires interval > 0 && AllPlain(ts) && PlainName(n) && Supported(sup, n) && Tracked(ts, n)
    ensures var times := NamedTimes(RunAll(interval, sup, ts).forwarded, n);
            Spaced(times, interval) && InWindow(times, start, span) <= span / interval + 1
  {
    PacedByName(interval, sup, ts, n);
    if n.OfWrite? {
      WriteWindows(interval, sup, ts, n.text);
    } else {
      SubmittedIsSeen(interval, sup, ts, n);
    }
    WindowCount(NamedTimes(RunAll(interval, sup, ts).forwarded, n), interval, start, span);
  }

  // ----- beyond the cap -------------------------------------------------------------------------

  lemma TrackedGrows(ts: seq<Timed>, n: Name)
    requires ts != [] && Tracked(ts[..|ts| - 1], n)
    ensures Tracked(ts, n)
  {
    if n.OfWrite? {
      var texts := Texts(ts[..|ts| - 1]);
      var i :| 0 <= i < |texts| && i < 1024 && texts[i] == n.text;
      assert Texts(ts)[i] == n.text;
    }
  }

  /** A text that is not among the first 1024 is forwarded every time. */
  lemma {:induction false} UntrackedIsForwarded(interval: int, sup: Support, ts: seq<Timed>, text: string)
    requires interval > 0 && sup.unbounded && AllPlain(ts) && !Tracked(ts, OfWrite(text))
    ensures Named(RunAll(interval, sup, ts).forwarded, OfWrite(text)) == Named(ts, OfWrite(text))
  {
    if ts != [] {
      var front, t := ts[..|ts| - 1], ts[|ts| - 1];
      var n, th := OfWrite(text), RunAll(interval, sup, front);
      assert t in ts && forall x | x in front :: x in ts;
      if Tracked(front, n) {
        TrackedGrows(ts, n);
      }
      UntrackedIsForwarded(interval, sup, front, text);
      WriteWindows(interval, sup, front, text);
      if NameOf(t.signal) == n {
        ThisName(interval, sup, th, t, n);
        NamedSnoc(th.forwarded, t, n);
      } else {
        OtherName(interval, sup, th, t, n);
      }
    }
  }

  // ----- what the snapshots count ---------------------------------------------------------------

  /** What the signal's snapshot says about the name. */
  function HeldBack(l: Lanes, n: Name): nat {
    match n
    case OfViolation(b) => SuppressedOf(l.violations, b)
    case OfStaleAllow(b) => SuppressedOf(l.staleAllows, b)
    case OfNesting(outer, inner) => SuppressedOf(l.nested, outer + ['\0'] + inner)
    case OfWrite(text) => SuppressedOf(l.unbounded, text)
  }

  lemma SameHeldBack(m: Windows, m': Windows, key: string)
    requires SameWindow(m, m', key)
    ensures SuppressedOf(m, key) == SuppressedOf(m', key)
  {
  }

  lemma OneHeldBack(m: Windows, key: string, maxKeys: int, interval: int, now: int)
    ensures SuppressedOf(Admitted(m, key, maxKeys, interval, now), key) ==
            SuppressedOf(m, key) + if Admits(m, key, maxKeys, interval, now) then 0 else 1
  {
  }

  /** Name by name: every report submitted was forwarded or is counted under its name. */
  lemma {:induction false} NameConservation(interval: int, sup: Support, ts: seq<Timed>, n: Name)
    requires AllPlain(ts) && PlainName(n) && Supported(sup, n)
    ensures var th := RunAll(interval, sup, ts);
            |Named(ts, n)| == |Named(th.forwarded, n)| + HeldBack(th.lanes, n)
  {
    if ts != [] {
      var front, t := ts[..|ts| - 1], ts[|ts| - 1];
      assert ts == front + [t] && t in ts && forall x | x in front :: x in ts;
      NameConservation(interval, sup, front, n);
      RunMore(interval, sup, front, t);
      NamedSnoc(front, t, n);
      CountedStep(interval, sup, RunAll(interval, sup, front), t, n);
    }
  }

  lemma CountedStep(interval: int, sup: Support, th: Throttler, t: Timed, n: Name)
    requires Plain(t.signal) && PlainName(n) && Supported(sup, n)
    ensures var th' := Dispatch(interval, sup, th, t);
            |Named(th'.forwarded, n)| + HeldBack(th'.lanes, n) ==
            |Named(th.forwarded, n)| + HeldBack(th.lanes, n) + if NameOf(t.signal) == n then 1 else 0
  {
    var m, key := th.lanes.Get(LaneOfName(n)), KeyOfName(n);
    if NameOf(t.signal) == n {
      ThisName(interval, sup, th, t, n);
      NamedSnoc(th.forwarded, t, n);
      OneHeldBack(m, key, MaxKeys(LaneOfName(n)), interval, t.now);
    } else {
      OtherName(interval, sup, th, t, n);
      SameHeldBack(m, Dispatch(interval, sup, th, t).lanes.Get(LaneOfName(n)), key);
    }
  }
}
