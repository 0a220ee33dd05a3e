/** Printing entries in the general-log format and parsing them back. */
module MyLogRoundTrip {
  import opened Text
  import opened Matching
  import opened Reconstruct
  import opened MyLog

  /** One entry as the server prints it, with the further lines of its argument; or a banner line, with
      lines that belong to nothing. */
  datatype Item =
    | Logged(stamp: string, fraction: string, zone: string, pad: string,
             thread: string, command: string, first: string, more: seq<string>)
    | Notice(line: string, more: seq<string>)
  {
    predicate Valid() {
      match this
      case Notice(line, _) => KindOfLine(line) == Banner
      case Logged(_, _, _, _, _, _, _, _) =>
        && Shaped(stamp, "dddd-dd-ddTdd:dd:dd.")
        && fraction != "" && (forall i | 0 <= i < |fraction| :: IsDigit(fraction[i]))
        && ValidTail()
    }

    predicate ValidTail()
      requires Logged?
    {
      && (zone == "Z" || (zone != "" && zone[0] in "+-" && Shaped(zone[1..], "dd:dd")))
      && (forall i | 0 <= i < |pad| :: pad[i] == ' ')
      && thread != "" && (forall i | 0 <= i < |thread| :: IsDigit(thread[i]))
      && command != "" && (forall i | 0 <= i < |command| :: command[i] != '\t')
    }

    function Tail(): string
      requires Logged?
    {
      zone + ("\t" + (pad + (thread + (" " + (command + ("\t" + first))))))
    }

    function HeadLine(): string
      requires Logged?
    {
      stamp + (fraction + Tail())
    }

    function Lines(): seq<string> {
      match this
      case Notice(line, more) => [line] + more
      case Logged(_, _, _, _, _, _, _, more) => [HeadLine()] + more
    }

    /** Its first line is read as what it is. */
    predicate Recognized(kind: string -> LineKind) {
      match this
      case Notice(line, _) => kind(line) == Banner
      case Logged(_, _, _, _, _, _, _, _) => kind(HeadLine()) == Head(thread, command, first)
    }

    /** No further line of an entry looks like an entry or a banner, none behind a banner like an entry. */
    predicate Clean(kind: string -> LineKind) {
      forall l | l in more :: if Logged? then kind(l) == Plain else !kind(l).Head?
    }
  }

  function Print(items: seq<Item>): seq<string> {
    if items == [] then [] else Print(items[..|items| - 1]) + items[|items| - 1].Lines()
  }

  /** What should come back: each entry with its whole argument, numbered by its first line. */
  function Expected(items: seq<Item>): seq<Entry> {
    if items == [] then []
    else
      var front, last := items[..|items| - 1], items[|items| - 1];
      Expected(front) +
      if last.Logged? then [Entry(last.thread, last.command, Glue(last.first, last.more), |Print(front)| + 1)]
      else []
  }

  // ----- a printed head is recognized ---------------------------------------------------------

  lemma CommandMatches(thread: string, command: string, first: string)
    requires thread != "" && forall i | 0 <= i < |thread| :: IsDigit(thread[i])
    requires command != "" && forall i | 0 <= i < |command| :: command[i] != '\t'
    ensures MatchCommand(thread + (" " + (command + ("\t" + first)))) == Some(Head(thread, command, first))
  {
    var tail := "\t" + first;
    SpanOf(command, tail, Except('\t'));
    LitOf("\t", first);
    LitOf(" ", command + tail);
    SpanOf(thread, " " + (command + tail), Digits());
  }

  lemma ZoneMatches(zone: string, rest: string)
    requires zone == "Z" || (zone != "" && zone[0] in "+-" && Shaped(zone[1..], "dd:dd"))
    ensures Zone(zone + rest) == Some(rest) && !IsDigit((zone + rest)[0])
  {
    if zone != "Z" {
      ShapeOf(zone[1..], rest, "dd:dd");
      assert (zone + rest)[1..] == zone[1..] + rest;
    }
  }

  lemma TailMatches(it: Item)
    requires it.Logged? && it.Valid()
    ensures MatchTail(it.Tail()) == Some(Head(it.thread, it.command, it.first)) && !IsDigit(it.Tail()[0])
  {
    var r5 := it.thread + (" " + (it.command + ("\t" + it.first)));
    var r4 := it.pad + r5;
    CommandMatches(it.thread, it.command, it.first);
    SpanOf(it.pad, r5, Spaces());
    LitOf("\t", r4);
    ZoneMatches(it.zone, "\t" + r4);
  }

  lemma HeadMatches(it: Item)
    requires it.Logged? && it.Valid()
    ensures KindOfLine(it.HeadLine()) == Head(it.thread, it.command, it.first)
  {
    TailMatches(it);
    Some1Of(it.fraction, it.Tail(), Digits());
    ShapeOf(it.stamp, it.fraction + it.Tail(), "dddd-dd-ddTdd:dd:dd.");
  }

  // ----- reading the lines of one item --------------------------------------------------------

  lemma {:induction false} ReadConcat(kind: string -> LineKind, st: Scan, a: seq<string>, b: seq<string>)
    ensures ReadLines(kind, st, a + b) == ReadLines(kind, ReadLines(kind, st, a), b)
  {
    if b == [] {
      assert a + b == a;
    } else {
      ReadConcat(kind, st, a, b[..|b| - 1]);
      FrontOf(a, b);
    }
  }

  lemma {:induction false} LinesRead(kind: string -> LineKind, st: Scan, lines: seq<string>)
    ensures ReadLines(kind, st, lines).lines == st.lines + |lines|
  {
    if lines != [] {
      LinesRead(kind, st, lines[..|lines| - 1]);
    }
  }

  lemma {:induction false} CleanRead(kind: string -> LineKind, st: Scan, e: Entry, front: seq<Entry>, more: seq<string>)
    requires st.continuing && st.entries == front + [e]
    requires forall l | l in more :: kind(l) == Plain
    ensures ReadLines(kind, st, more).continuing
    ensures ReadLines(kind, st, more).entries == front + [e.(text := Glue(e.text, more))]
  {
    if more != [] {
      var n := |more| - 1;
      CleanRead(kind, st, e, front, more[..n]);
      assert more[n] in more;
      var s := ReadLines(kind, st, more[..n]);
      assert s.entries[..|s.entries| - 1] == front;
    }
  }

  lemma HeadRead(kind: string -> LineKind, st: Scan, it: Item)
    requires it.Logged? && it.Recognized(kind)
    ensures ReadLines(kind, st, [it.HeadLine()]) ==
            Scan(st.entries + [Entry(it.thread, it.command, it.first, st.lines + 1)], true, st.lines + 1)
  {
    assert [it.HeadLine()][..0] == [];
    assert ReadLines(kind, st, []) == st;
  }

  /** Behind a banner, and before the first entry, plain lines belong to nothing. */
  lemma {:induction false} OrphansRead(kind: string -> LineKind, st: Scan, more: seq<string>)
    requires !st.continuing
    ensures var st' := ReadLines(kind, st, more);
            && |st'.entries| >= |st.entries|
            && (|st'.entries| == |st.entries| <==> forall l | l in more :: !kind(l).Head?)
            && (|st'.entries| == |st.entries| ==> st'.entries == st.entries && !st'.continuing)
  {
    if more != [] {
      var n := |more| - 1;
      OrphansRead(kind, st, more[..n]);
      assert more == more[..n] + [more[n]];
      LineAdds(kind, ReadLines(kind, st, more[..n]), more[n]);
    }
  }

  lemma OneLine(kind: string -> LineKind, st: Scan, l: string)
    ensures ReadLines(kind, st, [l]) == ReadAs(st, kind(l), l)
  {
    assert [l][..0] == [];
    assert ReadLines(kind, st, []) == st;
  }

  lemma ItemRead(kind: string -> LineKind, st: Scan, it: Item)
    requires it.Recognized(kind) && it.Clean(kind)
    ensures ReadLines(kind, st, it.Lines()).entries == st.entries +
            if it.Logged? then [Entry(it.thread, it.command, Glue(it.first, it.more), st.lines + 1)] else []
  {
    if it.Logged? {
      HeadRead(kind, st, it);
      var e := Entry(it.thread, it.command, it.first, st.lines + 1);
      var s := ReadLines(kind, st, [it.HeadLine()]);
      ReadConcat(kind, st, [it.HeadLine()], it.more);
      CleanRead(kind, s, e, st.entries, it.more);
    } else {
      OneLine(kind, st, it.line);
      ReadConcat(kind, st, [it.line], it.more);
      OrphansRead(kind, ReadAs(st, Banner, it.line), it.more);
      assert st.entries + [] == st.entries;
    }
  }

  lemma {:induction false} RoundTrip(kind: string -> LineKind, items: seq<Item>)
    requires forall it | it in items :: it.Recognized(kind) && it.Clean(kind)
    ensures ReadLines(kind, START, Print(items)).entries == Expected(items)
  {
    if items != [] {
      var front, last := items[..|items| - 1], items[|items| - 1];
      assert last in items;
      RoundTrip(kind, front);
      ReadConcat(kind, START, Print(front), last.Lines());
      LinesRead(kind, START, Print(front));
      ItemRead(kind, ReadLines(kind, START, Print(front)), last);
    }
  }

  // ----- and only then ------------------------------------------------------------------------

  /** How much text the entries hold. */
  function Size(entries: seq<Entry>): nat {
    if entries == [] then 0 else Size(entries[..|entries| - 1]) + |entries[|entries| - 1].text|
  }

  function LineSizes(more: seq<string>): nat {
    if more == [] then 0 else LineSizes(more[..|more| - 1]) + 1 + |more[|more| - 1]|
  }

  lemma {:induction false} GlueSize(text: string, more: seq<string>)
    ensures |Glue(text, more)| == |text| + LineSizes(more)
  {
    if more != [] {
      GlueSize(text, more[..|more| - 1]);
    }
  }

  lemma SizeSnoc(entries: seq<Entry>, e: Entry)
    ensures Size(entries + [e]) == Size(entries) + |e.text|
  {
    assert (entries + [e])[..|entries|] == entries;
  }

  /** One line never removes an entry; without adding one it adds its text at most, and all of it only
      as a continuation line. */
  lemma LineAdds(kind: string -> LineKind, st: Scan, text: string)
    ensures var st' := ReadAs(st, kind(text), text);
            && |st'.entries| >= |st.entries|
            && (kind(text).Head? <==> |st'.entries| > |st.entries|)
            && (|st'.entries| == |st.entries| ==>
                  Size(st'.entries) <= Size(st.entries) + 1 + |text|
                  && (Size(st'.entries) == Size(st.entries) + 1 + |text| ==> kind(text) == Plain))
  {
    if kind(text).Plain? && st.continuing && st.entries != [] {
      var n := |st.entries| - 1;
      assert st.entries == st.entries[..n] + [st.entries[n]];
      SizeSnoc(st.entries[..n], st.entries[n]);
      SizeSnoc(st.entries[..n], st.entries[n].(text := st.entries[n].text + "\n" + text));
    }
  }

  /** What reading `more` adds, against what a clean reading would add. */
  ghost predicate AtMostClean(kind: string -> LineKind, st: Scan, st': Scan, more: seq<string>) {
    && |st'.entries| >= |st.entries|
    && (|st'.entries| == |st.entries| ==>
          && Size(st'.entries) <= Size(st.entries) + LineSizes(more)
          && (Size(st'.entries) == Size(st.entries) + LineSizes(more) ==>
                forall l | l in more :: kind(l) == Plain))
  }

  lemma {:induction false} LinesAdd(kind: string -> LineKind, st: Scan, more: seq<string>)
    ensures AtMostClean(kind, st, ReadLines(kind, st, more), more)
  {
    if more != [] {
      var n := |more| - 1;
      LinesAdd(kind, st, more[..n]);
      LineAdds(kind, ReadLines(kind, st, more[..n]), more[n]);
      assert more == more[..n] + [more[n]];
    }
  }

  /** What reading an item adds, against what it should. */
  lemma ItemAdds(kind: string -> LineKind, st: Scan, it: Item)
    requires it.Recognized(kind)
    ensures var st' := ReadLines(kind, st, it.Lines());
            var due := if it.Logged? then |Glue(it.first, it.more)| else 0;
            var n := |st.entries| + if it.Logged? then 1 else 0;
            && |st'.entries| >= n
            && (|st'.entries| == n ==>
                  Size(st'.entries) <= Size(st.entries) + due
                  && (Size(st'.entries) == Size(st.entries) + due ==> it.Clean(kind)))
  {
    if it.Logged? {
      HeadRead(kind, st, it);
      GlueSize(it.first, it.more);
      var s := ReadLines(kind, st, [it.HeadLine()]);
      SizeSnoc(st.entries, Entry(it.thread, it.command, it.first, st.lines + 1));
      ReadConcat(kind, st, [it.HeadLine()], it.more);
      LinesAdd(kind, s, it.more);
    } else {
      OneLine(kind, st, it.line);
      ReadConcat(kind, st, [it.line], it.more);
      OrphansRead(kind, ReadAs(st, Banner, it.line), it.more);
    }
  }

  ghost predicate AllClean(kind: string -> LineKind, items: seq<Item>) {
    forall it | it in items :: it.Clean(kind)
  }

  lemma {:induction false} ItemsAdd(kind: string -> LineKind, items: seq<Item>)
    requires forall it | it in items :: it.Recognized(kind)
    ensures var got := ReadLines(kind, START, Print(items)).entries;
            && |got| >= |Expected(items)|
            && (|got| == |Expected(items)| ==>
                  Size(got) <= Size(Expected(items))
                  && (Size(got) == Size(Expected(items)) ==> AllClean(kind, items)))
  {
    if items != [] {
      var front, last := items[..|items| - 1], items[|items| - 1];
      assert last in items && items == front + [last];
      ItemsAdd(kind, front);
      ReadConcat(kind, START, Print(front), last.Lines());
      ItemAdds(kind, ReadLines(kind, START, Print(front)), last);
      if last.Logged? {
        SizeSnoc(Expected(front),
                 Entry(last.thread, last.command, Glue(last.first, last.more), |Print(front)| + 1));
      } else {
        assert Expected(items) == Expected(front);
      }
    }
  }

  lemma RoundTripIffFor(kind: string -> LineKind, items: seq<Item>)
    requires forall it | it in items :: it.Recognized(kind)
    ensures ReadLines(kind, START, Print(items)).entries == Expected(items) <==> AllClean(kind, items)
  {
    if AllClean(kind, items) {
      RoundTrip(kind, items);
    }
    ItemsAdd(kind, items);
  }

  /** Printed entries come back unchanged exactly when no continuation line of theirs looks like an
      entry or like a banner line. */
  lemma RoundTripIff(items: seq<Item>)
    requires forall it | it in items :: it.Valid()
    ensures Parsed(Print(items)).entries == Expected(items) <==> AllClean(KindOfLine, items)
  {
    forall it | it in items ensures it.Recognized(KindOfLine) {
      if it.Logged? {
        HeadMatches(it);
      }
    }
    RoundTripIffFor(KindOfLine, items);
  }
}
