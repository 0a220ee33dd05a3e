/** A line is read as the first line of a statement exactly when it is one that the server could have
    printed under the default prefix. */
module PgLogHeads {
  import opened Text
  import opened Matching
  import opened PgLog
  import opened PgLogLaws
  import opened PgLogRoundTrip

  /** The item's first line is this one, read as this. */
  predicate Prints(it: Item, s: string, k: LineKind) {
    it.Logged? && it.Valid() && it.HeadLine() == s && k == First(Identity(it.xid, it.vxid), it.First())
  }

  // ----- the message body -----------------------------------------------------------------------

  lemma SepSplits(t: string) returns (sep: string, first: string)
    ensures t == sep + first && DropOne(t) == first
    ensures if sep == "" then first == "" || !IsWhite(first[0]) else |sep| == 1 && IsWhite(sep[0])
  {
    sep, first := "", t;
    if t != "" && IsWhite(t[0]) {
      sep, first := [t[0]], t[1..];
    }
  }

  lemma CarriedSplits(r: string) returns (c: Carried)
    ensures MatchStatement(r).Some? ==> c.Valid() && c.Text() == r && MatchStatement(r) == Some(c.first)
  {
    c := Carried(None, "", "");
    LitSplits(r, "statement:");
    LitSplits(r, "execute ");
    if Lit(r, "statement:").Some? {
      var sep, first := SepSplits(Lit(r, "statement:").value);
      c := Carried(None, sep, first);
    } else if MatchStatement(r).Some? {
      c := PreparedSplits(Lit(r, "execute ").value);
    }
  }

  lemma PreparedSplits(r: string) returns (c: Carried)
    ensures var t := Lit(r[Span(r, Except(':'))..], ":");
            t.Some? ==> c.Valid() && c.Text() == "execute " + r && DropOne(t.value) == c.first
  {
    var n := Span(r, Except(':'));
    SpanSplits(r, Except(':'));
    LitSplits(r[n..], ":");
    var t := Lit(r[n..], ":");
    var sep, first := SepSplits(if t.Some? then t.value else "");
    c := Carried(Some(r[..n]), sep, first);
  }

  lemma DurationSplits(r: string) returns (d: Option<Duration>)
    ensures d.None? ==> AfterDuration(r) == r
    ensures d.Some? ==> d.value.Valid() && r == d.value.Before(AfterDuration(r))
  {
    d := None;
    LitSplits(r, "duration: ");
    if Lit(r, "duration: ").Some? {
      var a := Lit(r, "duration: ").value;
      var number := Some1Splits(a, Numbers());
      if Some1(a, Numbers()).Some? {
        var b := Some1(a, Numbers()).value;
        LitSplits(b, " ms");
        if Lit(b, " ms").Some? {
          var gap := Some1Splits(Lit(b, " ms").value, Whites());
          if Some1(Lit(b, " ms").value, Whites()).Some? {
            d := Some(Duration(number, gap));
          }
        }
      }
    }
  }

  lemma BodySplits(s: string) returns (b: Body)
    ensures MatchBody(s).Some? ==> b.Valid() && b.Text() == s && MatchBody(s) == Some(b.carried.first)
  {
    b := Body("", None, Carried(None, "", ""));
    if MatchBody(s).Some? {
      LitSplits(s, "LOG:");
      var a := Lit(s, "LOG:").value;
      var gap := Some1Splits(a, Whites());
      var r := Some1(a, Whites()).value;
      var d := DurationSplits(r);
      var c := CarriedSplits(AfterDuration(r));
      b := Body(gap, d, c);
    }
  }

  // ----- the prefix -----------------------------------------------------------------------------

  lemma VxidSplits(s: string) returns (u: string, w: string, rest: string)
    ensures VxidLength(s).Some? ==>
              && s == u + ("/" + (w + rest)) && AllDigits(u) && AllDigits(w)
              && VxidLength(s) == Some(|u| + 1 + |w|)
  {
    u, w, rest := "", "", "";
    if VxidLength(s).Some? {
      var n := Span(s, Digits());
      SpanSplits(s, Digits());
      LitSplits(s[n..], "/");
      var r := Lit(s[n..], "/").value;
      SpanSplits(r, Digits());
      u, w, rest := s[..n], r[..Span(r, Digits())], r[Span(r, Digits())..];
    }
  }

  lemma VxidTakes(s: string)
    ensures VxidLength(s).Some? ==> VxidLength(s[..VxidLength(s).value]) == VxidLength(s)
  {
    var u, w, rest := VxidSplits(s);
    if VxidLength(s).Some? {
      TakeThree(u, "/", w, rest);
      VxidAlone(u, w);
    }
  }

  lemma VxidAlone(u: string, w: string)
    requires AllDigits(u) && AllDigits(w)
    ensures VxidLength(u + ("/" + w)) == Some(|u| + 1 + |w|)
  {
    SpanOf(w, "", Digits());
    assert w + "" == w;
    LitOf("/", w);
    SpanOf(u, "/" + w, Digits());
  }

  lemma VirtualSplits(xid: string, r: string) returns (vxid: Option<string>, body: string)
    ensures MatchVirtual(xid, r).Some? ==>
              && MatchVirtual(xid, r) == Some(Prefix(xid, vxid, body))
              && r == (if vxid.Some? then vxid.value else "") + (" " + body)
              && (vxid.Some? ==> VxidLength(vxid.value) == Some(|vxid.value|))
  {
    vxid, body := None, "";
    LitSplits(r, " ");
    var v := VxidLength(r);
    if v.Some? && Lit(r[v.value..], " ").Some? {
      VxidTakes(r);
      LitSplits(r[v.value..], " ");
      vxid, body := Some(r[..v.value]), Lit(r[v.value..], " ").value;
      assert r == r[..v.value] + r[v.value..];
    } else if Lit(r, " ").Some? {
      body := Lit(r, " ").value;
      assert "" + (" " + body) == r;
    }
  }

  lemma IdsSplit(s: string) returns (xid: string, vxid: Option<string>, body: string)
    ensures MatchIds(s).Some? ==>
              && MatchIds(s) == Some(Prefix(xid, vxid, body)) && AllDigits(xid)
              && s == xid + (" " + ((if vxid.Some? then vxid.value else "") + (" " + body)))
              && (vxid.Some? ==> VxidLength(vxid.value) == Some(|vxid.value|))
  {
    xid, vxid, body := "", None, "";
    if MatchIds(s).Some? {
      var n := Span(s, Digits());
      SpanSplits(s, Digits());
      LitSplits(s[n..], " ");
      xid := s[..n];
      vxid, body := VirtualSplits(xid, Lit(s[n..], " ").value);
    }
  }

  lemma ProcessSplits(s: string) returns (pid: string, ids: string)
    ensures MatchProcess(s).Some? ==>
              MatchProcess(s) == MatchIds(ids) && AllDigits(pid) && s == " [" + (pid + ("] " + ids))
  {
    pid, ids := "", "";
    if MatchProcess(s).Some? {
      LitSplits(s, " [");
      var a := Lit(s, " [").value;
      pid := Some1Splits(a, Digits());
      var b := Some1(a, Digits()).value;
      LitSplits(b, "] ");
      ids := Lit(b, "] ").value;
    }
  }

  lemma StampSplits(s: string) returns (stamp: string, fraction: string, rest: string)
    ensures MatchPrefix(s).Some? ==>
              && Shaped(stamp, "dddd-dd-dd dd:dd:dd.") && AllDigits(fraction)
              && s == stamp + (fraction + (" " + rest))
              && Some1(rest, NonWhites()).Some? && MatchPrefix(s) == MatchProcess(Some1(rest, NonWhites()).value)
  {
    stamp, fraction, rest := "", "", "";
    if MatchPrefix(s).Some? {
      stamp := ShapeSplits(s, "dddd-dd-dd dd:dd:dd.");
      var a := Shape(s, "dddd-dd-dd dd:dd:dd.").value;
      fraction := Some1Splits(a, Digits());
      var b := Some1(a, Digits()).value;
      LitSplits(b, " ");
      rest := Lit(b, " ").value;
    }
  }

  // ----- the line -------------------------------------------------------------------------------

  /** The process id, the ids and the body, as an item prints them. */
  lemma ProcessIsPrinted(s: string) returns (it: Item)
    ensures var p := MatchProcess(s);
            p.Some? && MatchBody(p.value.body).Some? ==>
              && it.Logged? && it.ValidIds() && it.Process() == s && p.value == Prefix(it.xid, it.vxid, it.body.Text())
              && MatchBody(p.value.body) == Some(it.First())
  {
    var pid, ids := ProcessSplits(s);
    var xid, vxid, text := IdsSplit(ids);
    var body := BodySplits(text);
    it := Logged("", "", "", pid, xid, vxid, body, []);
  }

  lemma Stamped(t: Item, stamp: string, fraction: string, zone: string) returns (it: Item)
    requires t.Logged? && t.ValidIds()
    requires Shaped(stamp, "dddd-dd-dd dd:dd:dd.") && AllDigits(fraction) && IsZone(zone)
    ensures Prints(it, stamp + (fraction + (" " + (zone + t.Process()))), First(Identity(t.xid, t.vxid), t.First()))
  {
    it := t.(stamp := stamp, fraction := fraction, zone := zone);
    assert it.Process() == t.Process();
  }

  lemma LineParts(s: string)
    ensures KindOfLine(MatchPrefix, s).First? ==>
              && MatchPrefix(s).Some? && MatchBody(MatchPrefix(s).value.body).Some?
              && var p := MatchPrefix(s).value;
                 KindOfLine(MatchPrefix, s) == First(Identity(p.xid, p.vxid), MatchBody(p.body).value)
  {
  }

  lemma HeadIsPrinted(s: string) returns (it: Item)
    ensures KindOfLine(MatchPrefix, s).First? ==> Prints(it, s, KindOfLine(MatchPrefix, s))
  {
    it := Message("", []);
    LineParts(s);
    if KindOfLine(MatchPrefix, s).First? {
      var stamp, fraction, rest := StampSplits(s);
      var zone := Some1Splits(rest, NonWhites());
      var t := ProcessIsPrinted(Some1(rest, NonWhites()).value);
      it := Stamped(t, stamp, fraction, zone);
    }
  }

  /** A line is a statement's first line exactly when some item prints it, and then with what it prints. */
  lemma HeadIffPrinted(s: string, k: LineKind)
    requires k.First?
    ensures KindOfLine(MatchPrefix, s) == k <==> exists it :: Prints(it, s, k)
  {
    var it := HeadIsPrinted(s);
    if KindOfLine(MatchPrefix, s) == k {
      assert Prints(it, s, k);
    }
    forall it | Prints(it, s, k) ensures KindOfLine(MatchPrefix, s) == k {
      HeadMatches(it);
    }
  }
}
