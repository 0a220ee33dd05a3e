/** What a PostgreSQL log parsed back yields: whole statements, and identities that identify. */
module PgLogLaws {
  import opened Text
  import opened CrossCheck
  import opened Matching
  import opened PgLog

  // ----- identities ---------------------------------------------------------------------------

  predicate AllDigits(s: string) {
    s != "" && forall i | 0 <= i < |s| :: IsDigit(s[i])
  }

  /** digits, slash, digits, the latter not just 0 */
  predicate IsVirtual(s: string) {
    exists n | 0 <= n < |s| :: AllDigits(s[..n]) && s[n] == '/' && AllDigits(s[n + 1..]) && s[n + 1..] != "0"
  }

  /** The identities that may stand for a transaction, and the empty one. */
  predicate Identifies(id: string) {
    || id == ""
    || IsVirtual(id)
    || ("xid " <= id && AllDigits(id[4..]) && id[4..] != "0")
  }

  lemma VxidShape(s: string)
    requires VxidLength(s).Some?
    ensures var v := VxidLength(s).value;
            && v <= |s|
            && exists n | 0 <= n < v :: AllDigits(s[..v][..n]) && s[..v][n] == '/' && AllDigits(s[..v][n + 1..])
  {
    var v := VxidLength(s).value;
    var n := Span(s, Digits());
    assert s[..v][..n] == s[..n];
    assert s[..v][n] == '/' by { assert s[n..][0] == s[n]; }
    assert s[..v][n + 1..] == s[n..][1..][..v - n - 1];
  }

  lemma IdsShape(s: string)
    requires MatchIds(s).Some?
    ensures var p := MatchIds(s).value;
            && AllDigits(p.xid)
            && (p.vxid.Some? ==> exists n | 0 <= n < |p.vxid.value| ::
                  AllDigits(p.vxid.value[..n]) && p.vxid.value[n] == '/' && AllDigits(p.vxid.value[n + 1..]))
  {
    var r := s[Span(s, Digits())..][1..];
    if VxidLength(r).Some? {
      VxidShape(r);
    }
  }

  /** The identity of a line with these ids: its virtual transaction id when that has a nonzero local
      part, else its real one when that is nonzero, else empty. */
  function Chosen(xid: string, vxid: Option<string>): string {
    if vxid.Some? && IsVirtual(vxid.value) then vxid.value
    else if xid == "0" then ""
    else "xid " + xid
  }

  lemma IdentityIdentifies(xid: string, vxid: Option<string>)
    requires AllDigits(xid)
    requires vxid.Some? ==> exists n | 0 <= n < |vxid.value| ::
               AllDigits(vxid.value[..n]) && vxid.value[n] == '/' && AllDigits(vxid.value[n + 1..])
    ensures Identifies(Identity(xid, vxid))
    ensures Identity(xid, vxid) == Chosen(xid, vxid)
  {
    assert ("xid " + xid)[4..] == xid;
    if vxid.Some? {
      var v := vxid.value;
      var n :| 0 <= n < |v| && AllDigits(v[..n]) && v[n] == '/' && AllDigits(v[n + 1..]);
      ZeroTail(v, n);
      if IsVirtual(v) {
        var m :| 0 <= m < |v| && AllDigits(v[..m]) && v[m] == '/' && AllDigits(v[m + 1..]) && v[m + 1..] != "0";
        ZeroTail(v, m);
      }
    }
  }

  lemma ZeroTail(v: string, n: nat)
    requires n < |v| && v[n] == '/' && AllDigits(v[n + 1..])
    ensures EndsWithZero(v) <==> v[n + 1..] == "0"
  {
    var t := v[n + 1..];
    if EndsWithZero(v) {
      assert v[|v| - 2..][0] == v[|v| - 2] && v[|v| - 2..][1] == v[|v| - 1];
      assert forall i | 0 <= i < |t| :: t[i] == v[n + 1 + i];
      assert n + 1 >= |v| - 1;
    }
  }

  lemma PrefixShape(s: string)
    ensures MatchPrefix(s).Some? ==> exists t :: MatchIds(t) == MatchPrefix(s)
  {
    if MatchPrefix(s).Some? {
      var a := Shape(s, "dddd-dd-dd dd:dd:dd.").value;
      var b := Lit(Some1(a, Digits()).value, " ").value;
      var p := Some1(b, NonWhites()).value;
      assert MatchPrefix(s) == MatchProcess(p);
      var c := Lit(p, " [").value;
      var d := Lit(Some1(c, Digits()).value, "] ").value;
      assert MatchIds(d) == MatchPrefix(s);
    }
  }

  lemma PrefixIdentifies(p: Prefix)
    requires exists t :: MatchIds(t) == Some(p)
    ensures Identifies(Identity(p.xid, p.vxid)) && Identity(p.xid, p.vxid) == Chosen(p.xid, p.vxid)
  {
    var t :| MatchIds(t) == Some(p);
    IdsShape(t);
    IdentityIdentifies(p.xid, p.vxid);
  }

  lemma FirstHasPrefix(prefix: PrefixMatcher, s: string)
    ensures KindOfLine(prefix, s).First? ==>
              prefix(s).Some? && KindOfLine(prefix, s).txID == Identity(prefix(s).value.xid, prefix(s).value.vxid)
  {
  }

  /** The line yields a statement with the identity chosen from its ids, never "N/0" and never "xid 0". */
  predicate Identified(line: string, txID: string) {
    && MatchPrefix(line).Some?
    && txID == Chosen(MatchPrefix(line).value.xid, MatchPrefix(line).value.vxid)
    && Identifies(txID)
  }

  lemma LineIdentifies(s: string)
    ensures var k := KindOfLine(MatchPrefix, s); k.First? ==> Identified(s, k.txID)
  {
    FirstHasPrefix(MatchPrefix, s);
    PrefixShape(s);
    if KindOfLine(MatchPrefix, s).First? {
      PrefixIdentifies(MatchPrefix(s).value);
    }
  }

  lemma IdentityIsNeverZero(id: string)
    requires Identifies(id)
    ensures !EndsWithZero(id) && id != "xid 0"
  {
    if IsVirtual(id) {
      var n :| 0 <= n < |id| && AllDigits(id[..n]) && id[n] == '/' && AllDigits(id[n + 1..]) && id[n + 1..] != "0";
      ZeroTail(id, n);
      assert IsDigit(id[..n][0]);
    } else if "xid " <= id {
      assert forall i | 4 <= i < |id| :: id[i] == id[4..][i - 4];
      assert "xid 0"[4..] == "0";
      assert |id| >= 6 ==> IsDigit(id[|id| - 2]);
      assert id[|id| - 2..] == [id[|id| - 2], id[|id| - 1]];
    }
  }

  /** The statement starts at a line of the log, and has its identity from there. */
  predicate StartsIn(kind: string -> LineKind, lines: seq<string>, s: Statement) {
    1 <= s.line <= |lines| &&
    var k := kind(lines[s.line - 1]); k.First? && s.txID == k.txID && k.sql <= s.sql
  }

  lemma {:induction false} StatementsStart(kind: string -> LineKind, lines: seq<string>)
    ensures ReadLines(kind, START, lines).lines == |lines|
    ensures forall s | s in ReadLines(kind, START, lines).stmts :: StartsIn(kind, lines, s)
  {
    if lines != [] {
      var n := |lines| - 1;
      StatementsStart(kind, lines[..n]);
      assert lines == lines[..n] + [lines[n]];
      StartsStep(kind, ReadLines(kind, START, lines[..n]), lines[..n], lines[n]);
    }
  }

  lemma StartsStep(kind: string -> LineKind, st: Scan, front: seq<string>, l: string)
    requires st.lines == |front| && forall s | s in st.stmts :: StartsIn(kind, front, s)
    ensures forall s | s in ReadAs(st, kind(l)).stmts :: StartsIn(kind, front + [l], s)
  {
    var lines := front + [l];
    assert lines[|front|] == l;
    forall s | s in st.stmts ensures StartsIn(kind, lines, s) {
      assert lines[s.line - 1] == front[s.line - 1];
    }
    if kind(l).More? && st.continuing && st.stmts != [] {
      var last := st.stmts[|st.stmts| - 1];
      var more := last.sql + "\n" + kind(l).text;
      assert last in st.stmts;
      assert more[..|last.sql|] == last.sql;
      assert StartsIn(kind, lines, last.(sql := more));
    }
  }

  /** Every statement of every log has the identity chosen from the ids on the line it starts at. */
  lemma ParsedIdentities(lines: seq<string>)
    ensures forall s | s in ReadLines(Under(MatchPrefix), START, lines).stmts ::
              1 <= s.line <= |lines| && Identified(lines[s.line - 1], s.txID)
  {
    var kind := Under(MatchPrefix);
    StatementsStart(kind, lines);
    forall s | s in ReadLines(kind, START, lines).stmts ensures Identified(lines[s.line - 1], s.txID) {
      assert StartsIn(kind, lines, s);
      LineIdentifies(lines[s.line - 1]);
    }
  }
}
