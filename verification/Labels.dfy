/** The identities the reconstruction hands out: what they look like as text and how they are spread
    over one thread's statements. */
module Labels {
  import opened Text
  import opened Decimals
  import opened Reconstruct

  // ----- rendering loses nothing --------------------------------------------------------------

  /** The thread ids a log line can carry. */
  predicate IsDecimal(s: string) {
    forall c | c in s :: IsDigit(c)
  }

  lemma PartsOf(l: Label)
    requires IsDecimal(l.thread)
    ensures var s, n := l.Show(), |l.thread|;
            && |s| >= n + 12
            && s[..7] == "thread " && s[7..7 + n] == l.thread && s[7 + n] == ' '
            && (forall k | 7 <= k < 7 + n :: IsDigit(s[k]))
            && s[8 + n] == (if l.Tx? then 't' else 's')
            && s[if l.Tx? then 11 + n else 13 + n..] == Show10(l.seqNo)
  {
    var s, n := l.Show(), |l.thread|;
    var head := "thread " + l.thread + if l.Tx? then " tx " else " stmt ";
    assert s == head + Show10(l.seqNo);
    assert s[7..7 + n] == head[7..7 + n] == l.thread;
    forall k | 7 <= k < 7 + n ensures IsDigit(s[k]) {
      assert s[k] == l.thread[k - 7];
      assert l.thread[k - 7] in l.thread;
    }
  }

  lemma SameThread(a: Label, b: Label)
    requires IsDecimal(a.thread) && IsDecimal(b.thread) && a.Show() == b.Show()
    ensures |a.thread| >= |b.thread|
  {
    PartsOf(a);
    PartsOf(b);
    assert a.Show()[7 + |a.thread|] == ' ';
  }

  /** Two identities print the same only if they are the same. */
  lemma ShowInjective(a: Label, b: Label)
    requires IsDecimal(a.thread) && IsDecimal(b.thread)
    requires a.Show() == b.Show()
    ensures a == b
  {
    SameThread(a, b);
    SameThread(b, a);
    PartsOf(a);
    PartsOf(b);
    ShowValue(a.seqNo);
    ShowValue(b.seqNo);
  }

  // ----- how identities spread over a thread --------------------------------------------------

  /** The statement at `k` opens its transaction: a BEGIN, and no earlier statement carries its tag. */
  predicate Opens(out: seq<Labelled>, k: nat)
    requires k < |out|
  {
    out[k].kind.Begin? && forall j | 0 <= j < k :: out[j].tag != out[k].tag
  }

  /** The statement at `k` carries the tag of the one before it and is no BEGIN. */
  predicate Continues(out: seq<Labelled>, k: nat)
    requires k < |out|
  {
    k > 0 && out[k - 1].tag == out[k].tag && !out[k].kind.Begin?
  }

  ghost predicate Regular(out: seq<Labelled>, st: ThreadState, thread: string) {
    && |out| == st.stmtSeq
    && (forall k | 0 <= k < |out| :: out[k].tag.thread == out[k].entry.thread == thread)
    && (forall k | 0 <= k < |out| && out[k].tag.Stmt? :: out[k].tag.seqNo == k + 1)
    && (forall k | 0 <= k < |out| && out[k].tag.Tx? :: out[k].tag.seqNo <= st.txSeq)
    && (forall k | 0 <= k < |out| && out[k].tag.Tx? :: Opens(out, k) || Continues(out, k))
    && (st.inTx ==> out != [] && out[|out| - 1].tag == Tx(thread, st.txSeq))
  }

  lemma RegularStep(c: Checker, e: Entry, out: seq<Labelled>, st: ThreadState)
    requires Regular(out, st, e.thread)
    ensures var (st', more) := Step(c, e, st); Regular(out + more, st', e.thread)
  {
    var (st', more) := Step(c, e, st);
    var all := out + more;
    if more == [] {
      assert all == out;
    } else {
      assert more == [more[0]] && all[|out|] == more[0];
      forall k | 0 <= k < |all| && all[k].tag.Tx? ensures Opens(all, k) || Continues(all, k) {
        if k < |out| {
          assert Opens(out, k) || Continues(out, k);
          assert all[k] == out[k] && (k > 0 ==> all[k - 1] == out[k - 1]);
        }
      }
    }
  }

  lemma {:induction false} RegularReplay(c: Checker, entries: seq<Entry>, thread: string)
    requires forall e | e in entries :: e.thread == thread
    ensures Regular(Replay(c, entries).out, StateOf(Replay(c, entries).states, thread), thread)
  {
    if entries != [] {
      var n := |entries| - 1;
      RegularReplay(c, entries[..n], thread);
      RegularStep(c, entries[n], Replay(c, entries[..n]).out, StateOf(Replay(c, entries[..n]).states, thread));
    }
  }

  lemma {:induction false} OnlyThread(entries: seq<Entry>, thread: string)
    ensures forall e | e in EntriesOf(entries, thread) :: e.thread == thread
  {
    if entries != [] {
      OnlyThread(entries[..|entries| - 1], thread);
    }
  }

  lemma {:induction false} RunBetween(out: seq<Labelled>, st: ThreadState, thread: string, i: nat, j: nat)
    requires Regular(out, st, thread) && i < j < |out| && out[i].tag == out[j].tag
    ensures out[j].tag.Tx? && forall k | i <= k <= j :: out[k].tag == out[j].tag
    ensures forall k | i < k <= j :: !out[k].kind.Begin?
    decreases j - i
  {
    assert out[j].tag.Tx?;
    assert Opens(out, j) || Continues(out, j);
    if i < j - 1 {
      RunBetween(out, st, thread, i, j - 1);
    }
  }

  lemma {:induction false} RunStart(out: seq<Labelled>, st: ThreadState, thread: string, i: nat)
    returns (s: nat)
    requires Regular(out, st, thread) && i < |out| && out[i].tag.Tx?
    ensures s <= i && out[s].kind.Begin? && forall k | s <= k <= i :: out[k].tag == out[i].tag
  {
    if Opens(out, i) {
      s := i;
    } else {
      assert Continues(out, i);
      s := RunStart(out, st, thread, i - 1);
    }
  }

  /** On one thread, whatever the interleaving with others: an auto-commit identity is carried by one
      statement only, and the statements that share a transaction identity are a gap-free run of the
      thread's statements whose first one, and only that one, is a BEGIN. */
  lemma ThreadLabels(c: Checker, entries: seq<Entry>, thread: string, i: nat, j: nat)
    requires i < j < |OutputOf(Replay(c, entries).out, thread)|
    ensures var out := OutputOf(Replay(c, entries).out, thread);
            && (out[i].tag == out[j].tag ==>
                  && out[i].tag.Tx?
                  && (forall k | i <= k <= j :: out[k].tag == out[i].tag)
                  && (forall k | i < k <= j :: !out[k].kind.Begin?))
            && (out[i].tag.Tx? ==>
                  exists s | 0 <= s <= i ::
                    out[s].kind.Begin? && forall k | s <= k <= i :: out[k].tag == out[i].tag)
  {
    var mine := EntriesOf(entries, thread);
    var out := OutputOf(Replay(c, entries).out, thread);
    var st := StateOf(Replay(c, mine).states, thread);
    NonInterference(c, entries, thread);
    OnlyThread(entries, thread);
    RegularReplay(c, mine, thread);
    if out[i].tag == out[j].tag {
      RunBetween(out, st, thread, i, j);
    }
    if out[i].tag.Tx? {
      var s := RunStart(out, st, thread, i);
    }
  }

  /** Every statement's identity names its own thread, so no two threads ever share one. */
  lemma {:induction false} LabelsNameTheirThread(c: Checker, entries: seq<Entry>)
    ensures forall o | o in Replay(c, entries).out ::
              o.tag.thread == o.entry.thread && o.entry in entries && o.tag.Show() != ""
  {
    if entries != [] {
      var n := |entries| - 1;
      LabelsNameTheirThread(c, entries[..n]);
    }
  }
}
