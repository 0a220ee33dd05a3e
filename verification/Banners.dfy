/** Exactly which lines of a general log are taken for the banner the server writes when it opens the log. */
module Banners {
  import opened Text
  import opened Matching
  import opened MyLog

  predicate AllWhite(s: string) {
    forall i | 0 <= i < |s| :: s[i] == ' ' || s[i] == '\t' || s[i] == '\n' || s[i] == '\r' || s[i] == '\U{0C}'
  }

  predicate Gap(s: string) {
    s != "" && AllWhite(s)
  }

  /** The column header, with any white space between its words and behind them. */
  function Header(a: string, b: string, c: string, d: string): string {
    "Time" + (a + ("Id" + (b + ("Command" + (c + ("Argument" + d))))))
  }

  /** The version line. */
  predicate IsVersion(s: string) {
    Contains(s, ", Version: ") && |s| >= 13 && s[|s| - 13..] == "started with:"
  }

  lemma ColumnOf(word: string, gap: string, rest: string)
    requires Gap(gap) && rest != "" && !IsWhite(rest[0])
    ensures Column(word + (gap + rest), word) == Some(rest)
  {
    LitOf(word, gap + rest);
    Some1Of(gap, rest, Whites());
  }

  lemma ColumnSplits(s: string, word: string) returns (gap: string)
    ensures Column(s, word).Some? ==> Gap(gap) && s == word + (gap + Column(s, word).value)
  {
    gap := "";
    LitSplits(s, word);
    if Lit(s, word).Some? {
      gap := Some1Splits(Lit(s, word).value, Whites());
    }
  }

  lemma HeaderIsHeader(a: string, b: string, c: string, d: string)
    requires Gap(a) && Gap(b) && Gap(c) && AllWhite(d)
    ensures IsHeader(Header(a, b, c, d))
  {
    var s3 := "Argument" + d;
    var s2 := "Command" + (c + s3);
    var s1 := "Id" + (b + s2);
    ColumnOf("Command", c, s3);
    ColumnOf("Id", b, s2);
    ColumnOf("Time", a, s1);
    SpanOf(d, "", Whites());
    assert d + "" == d && s3[8..] == d;
  }

  lemma ArgumentSplits(s: string) returns (d: string)
    ensures "Argument" <= s && Span(s[8..], Whites()) == |s| - 8 ==> AllWhite(d) && s == "Argument" + d
  {
    d := if |s| >= 8 then s[8..] else "";
  }

  lemma HeaderSplits(s: string) returns (a: string, b: string, c: string, d: string)
    ensures IsHeader(s) ==> Gap(a) && Gap(b) && Gap(c) && AllWhite(d) && s == Header(a, b, c, d)
  {
    a := ColumnSplits(s, "Time");
    var s1 := if Column(s, "Time").Some? then Column(s, "Time").value else "";
    b := ColumnSplits(s1, "Id");
    var s2 := if Column(s1, "Id").Some? then Column(s1, "Id").value else "";
    c := ColumnSplits(s2, "Command");
    var s3 := if Column(s2, "Command").Some? then Column(s2, "Command").value else "";
    d := ArgumentSplits(s3);
  }

  ghost predicate SomeHeader(s: string) {
    exists a, b, c, d :: Gap(a) && Gap(b) && Gap(c) && AllWhite(d) && s == Header(a, b, c, d)
  }

  /** A banner line is a column header, a version line or a port line, and nothing else is. */
  lemma BannerIff(s: string)
    ensures IsBanner(s) <==> SomeHeader(s) || IsVersion(s) || "Tcp port: " <= s
  {
    var a, b, c, d := HeaderSplits(s);
    if IsHeader(s) {
      assert SomeHeader(s);
    }
    forall a, b, c, d | Gap(a) && Gap(b) && Gap(c) && AllWhite(d) && s == Header(a, b, c, d) ensures IsHeader(s) {
      HeaderIsHeader(a, b, c, d);
    }
    assert |"started with:"| == 13;
  }

  /** A header, and any other banner line that does not start with a digit, closes the entry before it. */
  lemma BannerCloses(s: string)
    requires SomeHeader(s) || ((IsVersion(s) || "Tcp port: " <= s) && !IsDigit(s[0]))
    ensures KindOfLine(s) == Banner
  {
    BannerIff(s);
    if SomeHeader(s) {
      var a, b, c, d :| Gap(a) && Gap(b) && Gap(c) && AllWhite(d) && s == Header(a, b, c, d);
      assert s[0] == 'T';
    }
    NoStamp(s);
  }

  lemma NoStamp(s: string)
    requires s != "" && !IsDigit(s[0])
    ensures MatchHead(s) == None
  {
    var pattern := "dddd-dd-ddTdd:dd:dd.";
    assert pattern[0] == 'd';
    assert |s| >= |pattern| ==> s[..|pattern|][0] == s[0];
  }
}
