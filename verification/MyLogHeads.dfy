/** A line is read as the first line of an entry exactly when it is one that the server could have printed. */
module MyLogHeads {
  import opened Text
  import opened Matching
  import opened MyLog
  import opened MyLogRoundTrip

  /** The item's first line is this one, read as this. */
  predicate Prints(it: Item, s: string, k: LineKind) {
    it.Logged? && it.Valid() && it.HeadLine() == s && k == Head(it.thread, it.command, it.first)
  }

  lemma CommandSplits(s: string) returns (thread: string, command: string, first: string)
    ensures MatchCommand(s).Some? ==>
              && MatchCommand(s) == Some(Head(thread, command, first))
              && s == thread + (" " + (command + ("\t" + first)))
              && thread != "" && (forall i | 0 <= i < |thread| :: IsDigit(thread[i]))
              && command != "" && (forall i | 0 <= i < |command| :: command[i] != '\t')
  {
    thread, command, first := "", "", "";
    if MatchCommand(s).Some? {
      var n := Span(s, Digits());
      SpanSplits(s, Digits());
      LitSplits(s[n..], " ");
      var r := Lit(s[n..], " ").value;
      var m := Span(r, Except('\t'));
      SpanSplits(r, Except('\t'));
      LitSplits(r[m..], "\t");
      thread, command, first := s[..n], r[..m], Lit(r[m..], "\t").value;
    }
  }

  lemma ZoneSplits(s: string) returns (zone: string)
    ensures Zone(s).Some? ==>
              && s == zone + Zone(s).value
              && (zone == "Z" || (zone != "" && zone[0] in "+-" && Shaped(zone[1..], "dd:dd")))
  {
    zone := "Z";
    if "Z" <= s {
      assert s == "Z" + s[1..];
    } else if Zone(s).Some? {
      var a := ShapeSplits(s[1..], "dd:dd");
      zone := [s[0]] + a;
      assert s == [s[0]] + s[1..];
      assert zone[1..] == a;
      SignOf(s);
    }
  }

  lemma SignOf(s: string)
    requires "+" <= s || "-" <= s
    ensures s[0] in "+-"
  {
    assert "+-"[0] == '+' && "+-"[1] == '-';
  }

  lemma PadSplits(s: string) returns (pad: string)
    ensures s == pad + s[Span(s, Spaces())..] && forall i | 0 <= i < |pad| :: pad[i] == ' '
  {
    pad := s[..Span(s, Spaces())];
  }

  lemma TailIsPrinted(s: string) returns (it: Item)
    ensures MatchTail(s).Some? ==>
              && it.Logged? && it.Tail() == s && it.ValidTail()
              && MatchTail(s) == Some(Head(it.thread, it.command, it.first))
  {
    it := Notice("", []);
    if MatchTail(s).Some? {
      var zone := ZoneSplits(s);
      LitSplits(Zone(s).value, "\t");
      var t := Lit(Zone(s).value, "\t").value;
      var pad := PadSplits(t);
      var thread, command, first := CommandSplits(t[Span(t, Spaces())..]);
      it := Logged("", "", zone, pad, thread, command, first, []);
    }
  }

  lemma HeadSplits(s: string) returns (stamp: string, fraction: string, tail: string)
    ensures MatchHead(s).Some? ==>
              && s == stamp + (fraction + tail) && MatchHead(s) == MatchTail(tail)
              && Shaped(stamp, "dddd-dd-ddTdd:dd:dd.")
              && fraction != "" && forall i | 0 <= i < |fraction| :: IsDigit(fraction[i])
  {
    stamp, fraction, tail := "", "", "";
    if MatchHead(s).Some? {
      stamp := ShapeSplits(s, "dddd-dd-ddTdd:dd:dd.");
      var r := Shape(s, "dddd-dd-ddTdd:dd:dd.").value;
      fraction := Some1Splits(r, Digits());
      tail := Some1(r, Digits()).value;
    }
  }

  lemma Stamped(t: Item, stamp: string, fraction: string) returns (it: Item)
    requires t.Logged? && t.ValidTail() && Shaped(stamp, "dddd-dd-ddTdd:dd:dd.")
    requires fraction != "" && forall i | 0 <= i < |fraction| :: IsDigit(fraction[i])
    ensures Prints(it, stamp + (fraction + t.Tail()), Head(t.thread, t.command, t.first))
  {
    it := t.(stamp := stamp, fraction := fraction);
    assert it.Tail() == t.Tail();
  }

  lemma HeadIsPrinted(s: string) returns (it: Item)
    ensures KindOfLine(s).Head? ==> Prints(it, s, KindOfLine(s))
  {
    it := Notice("", []);
    if MatchHead(s).Some? {
      var stamp, fraction, tail := HeadSplits(s);
      var t := TailIsPrinted(tail);
      it := Stamped(t, stamp, fraction);
    }
  }

  /** A line is an entry's first line exactly when some entry prints it, and then with what it prints. */
  lemma HeadIffPrinted(s: string, k: LineKind)
    requires k.Head?
    ensures KindOfLine(s) == k <==> exists it :: Prints(it, s, k)
  {
    var it := HeadIsPrinted(s);
    if KindOfLine(s) == k {
      assert Prints(it, s, k);
    }
    forall it | Prints(it, s, k) ensures KindOfLine(s) == k {
      HeadMatches(it);
    }
  }
}
