/** The first lines of both logs, spelled out byte by byte. */
module HeadTexts {
  import opened Text
  import opened Matching
  import Banners
  import My = MyLog
  import MyTrip = MyLogRoundTrip
  import MyHeads = MyLogHeads
  import Pg = PgLog
  import PgLaws = PgLogLaws
  import PgTrip = PgLogRoundTrip
  import PgHeads = PgLogHeads

  // ----- what both have -------------------------------------------------------------------------

  predicate Number(s: string) {
    s != "" && forall i | 0 <= i < |s| :: '0' <= s[i] <= '9'
  }

  /** A date, the separator, and a time up to the point behind its seconds. */
  predicate Stamp(s: string, sep: char) {
    && |s| == 20 && s[4] == '-' && s[7] == '-' && s[10] == sep && s[13] == ':' && s[16] == ':' && s[19] == '.'
    && forall i | 0 <= i < 20 && i !in {4, 7, 10, 13, 16, 19} :: '0' <= s[i] <= '9'
  }

  lemma ShapedStamp(s: string, pattern: string, sep: char)
    requires |pattern| == 20 && sep != 'd' && pattern[10] == sep
    requires pattern[4] == pattern[7] == '-' && pattern[13] == pattern[16] == ':' && pattern[19] == '.'
    requires forall i | 0 <= i < 20 && i !in {4, 7, 10, 13, 16, 19} :: pattern[i] == 'd'
    ensures Shaped(s, pattern) <==> Stamp(s, sep)
  {
    if Shaped(s, pattern) {
      assert s[4] == pattern[4] && s[7] == pattern[7] && s[10] == pattern[10];
      assert s[13] == pattern[13] && s[16] == pattern[16] && s[19] == pattern[19];
    }
  }

  // ----- MySQL ----------------------------------------------------------------------------------

  /** `Z`, or a sign and hours and minutes. */
  predicate ZoneText(s: string) {
    s == "Z" || (|s| == 6 && (s[0] == '+' || s[0] == '-') && Number(s[1..3]) && s[3] == ':' && Number(s[4..6]))
  }

  /** A line of the general log, from these parts. */
  predicate MySpells(it: MyTrip.Item, s: string) {
    && it.Logged?
    && s == it.stamp + it.fraction + it.zone + "\t" + it.pad + it.thread + " " + it.command + "\t" + it.first
    && Stamp(it.stamp, 'T') && Number(it.fraction) && ZoneText(it.zone) && (forall c | c in it.pad :: c == ' ')
    && Number(it.thread) && it.command != "" && '\t' !in it.command
  }

  lemma ShapedZone(s: string)
    ensures s == "Z" || (s != "" && s[0] in "+-" && Shaped(s[1..], "dd:dd")) <==> ZoneText(s)
  {
    if |s| == 6 {
      ShapedTime(s[1..]);
      assert s[1..][..2] == s[1..3] && s[1..][3..] == s[4..6] && s[1..][2] == s[3];
    }
  }

  lemma ShapedTime(s: string)
    requires |s| == 5
    ensures Shaped(s, "dd:dd") <==> Number(s[..2]) && s[2] == ':' && Number(s[3..])
  {
    var p := "dd:dd";
    assert p[0] == 'd' && p[1] == 'd' && p[2] == ':' && p[3] == 'd' && p[4] == 'd';
    if Number(s[..2]) && s[2] == ':' && Number(s[3..]) {
      assert s[..2][0] == s[0] && s[..2][1] == s[1] && s[3..][0] == s[3] && s[3..][1] == s[4];
    }
    if Shaped(s, p) {
      assert IsDigit(s[0]) && IsDigit(s[1]) && s[2] == p[2] && IsDigit(s[3]) && IsDigit(s[4]);
    }
  }

  lemma MyPrints(it: MyTrip.Item, s: string)
    ensures it.Logged? && it.Valid() && it.HeadLine() == s <==> MySpells(it, s)
  {
    if it.Logged? {
      ShapedStamp(it.stamp, "dddd-dd-ddTdd:dd:dd.", 'T');
      assert forall i | 0 <= i < |it.pad| :: it.pad[i] in it.pad;
      assert forall i | 0 <= i < |it.command| :: it.command[i] in it.command;
      ShapedZone(it.zone);
      MyJoined(it);
    }
  }

  lemma MyJoined(it: MyTrip.Item)
    requires it.Logged?
    ensures it.HeadLine() ==
            it.stamp + it.fraction + it.zone + "\t" + it.pad + it.thread + " " + it.command + "\t" + it.first
  {
  }

  /** A line opens an entry exactly when it spells these three parts out behind a time stamp. */
  lemma MyHeadIff(s: string, thread: string, command: string, text: string)
    ensures My.KindOfLine(s) == My.Head(thread, command, text) <==>
            exists it :: MySpells(it, s) && it.thread == thread && it.command == command && it.first == text
  {
    var k := My.Head(thread, command, text);
    MyHeads.HeadIffPrinted(s, k);
    forall it ensures MyHeads.Prints(it, s, k) <==>
                      MySpells(it, s) && it.thread == thread && it.command == command && it.first == text {
      MyPrints(it, s);
    }
  }

  // ----- PostgreSQL -----------------------------------------------------------------------------

  /** Two numbers around a slash. */
  predicate Virtual(s: string) {
    exists n | 0 <= n < |s| :: Number(s[..n]) && s[n] == '/' && Number(s[n + 1..])
  }

  lemma VxidIff(v: string)
    ensures Pg.VxidLength(v) == Some(|v|) <==> Virtual(v)
  {
    if Pg.VxidLength(v) == Some(|v|) {
      VxidIsVirtual(v);
    }
    if Virtual(v) {
      VirtualIsVxid(v);
    }
  }

  lemma VxidIsVirtual(v: string)
    requires Pg.VxidLength(v) == Some(|v|)
    ensures Virtual(v)
  {
    PgLaws.VxidShape(v);
    var u := v[..|v|];
    assert u == v;
    var n :| 0 <= n < |u| && PgLaws.AllDigits(u[..n]) && u[n] == '/' && PgLaws.AllDigits(u[n + 1..]);
    assert Number(u[..n]) && Number(u[n + 1..]);
  }

  lemma VirtualIsVxid(v: string)
    requires Virtual(v)
    ensures Pg.VxidLength(v) == Some(|v|)
  {
    var n :| 0 <= n < |v| && Number(v[..n]) && v[n] == '/' && Number(v[n + 1..]);
    PartsAreVxid(v[..n], v[n + 1..]);
    SlashSplits(v, n);
  }

  lemma SlashSplits(v: string, n: nat)
    requires n < |v| && v[n] == '/'
    ensures v[..n] + ("/" + v[n + 1..]) == v
  {
  }

  lemma PartsAreVxid(a: string, b: string)
    requires Number(a) && Number(b)
    ensures Pg.VxidLength(a + ("/" + b)) == Some(|a + ("/" + b)|)
  {
    assert PgLaws.AllDigits(a) && PgLaws.AllDigits(b);
    PgHeads.VxidAlone(a, b);
  }

  function VirtualText(v: Option<string>): string {
    if v.Some? then v.value else ""
  }

  /** The duration field, if the line has one. */
  function DurationText(d: Option<PgTrip.Duration>): string {
    if d.Some? then "duration: " + d.value.number + " ms" + d.value.gap else ""
  }

  predicate DurationIs(d: PgTrip.Duration) {
    d.number != "" && (forall c | c in d.number :: '0' <= c <= '9' || c == '.') && Banners.Gap(d.gap)
  }

  function CarriedText(c: PgTrip.Carried): string {
    (if c.prepared.Some? then "execute " + c.prepared.value + ":" else "statement:") + c.sep + c.first
  }

  /** One white-space character before the text, or none if the text does not start with one. */
  predicate CarriedIs(c: PgTrip.Carried) {
    && (c.prepared.Some? ==> ':' !in c.prepared.value)
    && Banners.AllWhite(c.sep) && |c.sep| <= 1
    && (c.sep == "" && c.first != "" ==> !Banners.AllWhite(c.first[..1]))
  }

  /** A line of the server log, from these parts. */
  predicate PgSpells(it: PgTrip.Item, s: string) {
    && it.Logged?
    && s == it.stamp + it.fraction + " " + it.zone + " [" + it.pid + "] " + it.xid + " " + VirtualText(it.vxid) +
            " LOG:" + it.body.gap + DurationText(it.body.duration) + CarriedText(it.body.carried)
    && Stamp(it.stamp, ' ') && Number(it.fraction) && it.zone != ""
    && (forall i | 0 <= i < |it.zone| :: !Banners.AllWhite([it.zone[i]]))
    && Number(it.pid) && Number(it.xid) && (it.vxid.Some? ==> Virtual(it.vxid.value))
    && Banners.Gap(it.body.gap) && (it.body.duration.Some? ==> DurationIs(it.body.duration.value))
    && CarriedIs(it.body.carried)
  }

  /** A number in front of "/0". */
  predicate Inactive(v: string) {
    exists n | 0 <= n < |v| :: Number(v[..n]) && v[n..] == "/0"
  }

  /** The identity a line with these ids gives its statement: the virtual id unless its second number is
      0, else the real one unless that is 0. */
  predicate Names(id: string, xid: string, vxid: Option<string>) {
    if vxid.Some? && !Inactive(vxid.value) then id == vxid.value
    else if xid == "0" then id == ""
    else id == "xid " + xid
  }

  lemma BodyJoined(b: PgTrip.Body)
    ensures b.Text() == "LOG:" + b.gap + DurationText(b.duration) + CarriedText(b.carried)
  {
    var c := b.carried;
    assert c.Text() == CarriedText(c);
    if b.duration.Some? {
      assert b.Message() == DurationText(b.duration) + CarriedText(c);
    }
  }

  lemma PgJoined(it: PgTrip.Item)
    requires it.Logged?
    ensures it.HeadLine() ==
            it.stamp + it.fraction + " " + it.zone + " [" + it.pid + "] " + it.xid + " " + VirtualText(it.vxid) +
            " LOG:" + it.body.gap + DurationText(it.body.duration) + CarriedText(it.body.carried)
  {
    var gap, d, c := it.body.gap, DurationText(it.body.duration), CarriedText(it.body.carried);
    BodyJoined(it.body);
    Joined(it.stamp, it.fraction, it.zone, it.pid, it.xid, VirtualText(it.vxid), it.body.Text());
    Spaced(it.stamp + it.fraction + " " + it.zone + " [" + it.pid + "] " + it.xid + " " + VirtualText(it.vxid),
           gap, d, c);
  }

  lemma Joined(a: string, b: string, c: string, d: string, e: string, f: string, g: string)
    ensures a + (b + (" " + (c + (" [" + (d + ("] " + (e + (" " + (f + (" " + g)))))))))) ==
            a + b + " " + c + " [" + d + "] " + e + " " + f + " " + g
  {
  }

  lemma Spaced(a: string, gap: string, d: string, c: string)
    ensures a + " " + ("LOG:" + gap + d + c) == a + " LOG:" + gap + d + c
  {
  }

  lemma BodyIs(b: PgTrip.Body)
    ensures b.Valid() <==>
            && Banners.Gap(b.gap) && (b.duration.Some? ==> DurationIs(b.duration.value)) && CarriedIs(b.carried)
  {
    GapIs(b.gap);
    if b.duration.Some? {
      GapIs(b.duration.value.gap);
      var n := b.duration.value.number;
      assert forall i | 0 <= i < |n| :: n[i] in n;
    }
    var c := b.carried;
    if c.prepared.Some? {
      assert forall i | 0 <= i < |c.prepared.value| :: c.prepared.value[i] in c.prepared.value;
    }
  }

  lemma GapIs(s: string)
    ensures PgTrip.IsGap(s) <==> Banners.Gap(s)
  {
  }

  lemma ZoneIs(s: string)
    ensures PgTrip.IsZone(s) <==> s != "" && forall i | 0 <= i < |s| :: !Banners.AllWhite([s[i]])
  {
    forall i | 0 <= i < |s| ensures IsWhite(s[i]) <==> Banners.AllWhite([s[i]]) {
      assert [s[i]][0] == s[i];
    }
  }

  lemma PgPrints(it: PgTrip.Item, s: string)
    ensures it.Logged? && it.Valid() && it.HeadLine() == s <==> PgSpells(it, s)
  {
    if it.Logged? {
      ShapedStamp(it.stamp, "dddd-dd-dd dd:dd:dd.", ' ');
      if it.vxid.Some? {
        VxidIff(it.vxid.value);
      }
      ZoneIs(it.zone);
      BodyIs(it.body);
      PgJoined(it);
    }
  }

  lemma ZeroIsInactive(v: string)
    requires Virtual(v)
    ensures Pg.EndsWithZero(v) <==> Inactive(v)
  {
    var n :| 0 <= n < |v| && Number(v[..n]) && v[n] == '/' && Number(v[n + 1..]);
    if Pg.EndsWithZero(v) {
      PgLaws.ZeroTail(v, n);
      assert |v| == n + 2;
    }
    if Inactive(v) {
      InactiveEnds(v);
    }
  }

  lemma InactiveEnds(v: string)
    requires Inactive(v)
    ensures Pg.EndsWithZero(v)
  {
    var m :| 0 <= m < |v| && v[m..] == "/0";
    assert |v[m..]| == 2 && m == |v| - 2;
  }

  lemma IdentityIs(id: string, xid: string, vxid: Option<string>)
    requires Number(xid) && (vxid.Some? ==> Virtual(vxid.value))
    ensures id == Pg.Identity(xid, vxid) <==> Names(id, xid, vxid)
  {
    if vxid.Some? {
      ZeroIsInactive(vxid.value);
    }
  }

  /** A line starts a statement exactly when it spells it out behind a prefix and a message level, and the
      ids in the prefix name it. */
  lemma PgHeadIff(s: string, id: string, sql: string)
    ensures Pg.KindOfLine(Pg.MatchPrefix, s) == Pg.First(id, sql) <==>
            exists it :: PgSpells(it, s) && it.body.carried.first == sql && Names(id, it.xid, it.vxid)
  {
    var k := Pg.First(id, sql);
    PgHeads.HeadIffPrinted(s, k);
    forall it ensures PgHeads.Prints(it, s, k) <==>
                      PgSpells(it, s) && it.body.carried.first == sql && Names(id, it.xid, it.vxid) {
      PgPrints(it, s);
      if PgSpells(it, s) {
        IdentityIs(id, it.xid, it.vxid);
      }
    }
  }
}
