/** Laws of the classification: letter case never matters, and neither do leading blanks and complete
    comments, except that the WITH scan also reads the comments. */
module ClassifyLaws {
  import opened Text
  import opened Classify

  // ----- letter case ---------------------------------------------------------------------------

  /** Equal up to ASCII letter case. */
  predicate SameLetters(a: string, b: string) {
    Upper(a) == Upper(b)
  }

  /** The bytes comment marks are made of. */
  predicate IsMark(c: char) {
    c == '-' || c == '#' || c == '/' || c == '*' || c == '\n'
  }

  lemma SameAt(a: string, b: string, i: nat)
    requires SameLetters(a, b) && i < |a|
    ensures |a| == |b| && UpperChar(a[i]) == UpperChar(b[i])
    ensures IsIdentChar(a[i]) == IsIdentChar(b[i])
    ensures IsBlank(a[i]) == IsBlank(b[i])
    ensures IsMark(a[i]) || IsMark(b[i]) ==> a[i] == b[i]
  {
    assert Upper(a)[i] == Upper(b)[i];
  }

  lemma SameSlice(a: string, b: string, i: nat, j: nat)
    requires SameLetters(a, b) && i <= j <= |a|
    ensures |a| == |b| && SameLetters(a[i..j], b[i..j])
    ensures SameLetters(a[i..], b[i..])
  {
    assert |Upper(a)| == |Upper(b)|;
    forall k | i <= k < |a| ensures UpperChar(a[k]) == UpperChar(b[k]) {
      SameAt(a, b, k);
    }
    assert Upper(a[i..j]) == Upper(b[i..j]);
    assert Upper(a[i..]) == Upper(b[i..]);
  }

  /** The marks the comment search looks for hold no letters, so case cannot hide them. */
  lemma SameHasAt(a: string, b: string, i: int, p: string)
    requires SameLetters(a, b) && forall c | c in p :: IsMark(c)
    ensures HasAt(a, i, p) == HasAt(b, i, p)
  {
    assert |Upper(a)| == |Upper(b)|;
    if 0 <= i && i + |p| <= |a| {
      forall k | 0 <= k < |p| ensures (a[i..i + |p|][k] == p[k]) == (b[i..i + |p|][k] == p[k]) {
        SameAt(a, b, i + k);
        assert p[k] in p;
      }
      assert (a[i..i + |p|] == p) == (forall k | 0 <= k < |p| :: a[i..i + |p|][k] == p[k]);
      assert (b[i..i + |p|] == p) == (forall k | 0 <= k < |p| :: b[i..i + |p|][k] == p[k]);
    }
  }

  lemma SameFind(a: string, b: string, p: string)
    requires SameLetters(a, b) && forall c | c in p :: IsMark(c)
    ensures Find(a, p) == Find(b, p)
  {
    SameHasAt(a, b, Find(a, p), p);
    SameHasAt(a, b, Find(b, p), p);
  }

  lemma SamePrefix(a: string, b: string, p: string)
    requires SameLetters(a, b) && forall c | c in p :: IsMark(c)
    ensures p <= a <==> p <= b
  {
    SameHasAt(a, b, 0, p);
    assert (p <= a) == HasAt(a, 0, p);
    assert (p <= b) == HasAt(b, 0, p);
  }

  lemma SameSkip(a: string, b: string, hash: bool)
    requires SameLetters(a, b)
    ensures Skip(a, hash) == Skip(b, hash)
  {
    assert |Upper(a)| == |Upper(b)|;
    if a != "" {
      SameAt(a, b, 0);
      SamePrefix(a, b, "--");
      SamePrefix(a, b, "#");
      SamePrefix(a, b, "/*");
      SameFind(a, b, "\n");
      SameFind(a, b, "*/");
    }
  }

  lemma {:induction false} SameStrip(a: string, b: string, hash: bool)
    requires SameLetters(a, b)
    ensures SameLetters(Strip(a, hash), Strip(b, hash))
    decreases |a|
  {
    var n := Skip(a, hash);
    SameSkip(a, b, hash);
    if n > 0 {
      SameSlice(a, b, n, |a|);
      SameStrip(a[n..], b[n..], hash);
    }
  }

  lemma SameToken(a: string, b: string)
    requires SameLetters(a, b)
    ensures RunLength(a) == RunLength(b)
    ensures SameLetters(Token(a), Token(b))
  {
    var n := RunLength(a);
    assert |Upper(a)| == |Upper(b)|;
    forall i | 0 <= i < |a| ensures IsIdentChar(a[i]) == IsIdentChar(b[i]) {
      SameAt(a, b, i);
    }
    RunLengthIs(b, n);
    SameSlice(a, b, 0, n);
  }

  lemma SameWords(a: string, b: string, hash: bool)
    requires SameLetters(a, b)
    ensures FirstWord(a, hash) == FirstWord(b, hash)
    ensures SecondWord(a, hash) == SecondWord(b, hash)
  {
    var s, t := Strip(a, hash), Strip(b, hash);
    SameStrip(a, b, hash);
    SameToken(s, t);
    SameSlice(s, t, RunLength(s), |s|);
    SameStrip(s[RunLength(s)..], t[RunLength(t)..], hash);
    SameToken(Strip(s[RunLength(s)..], hash), Strip(t[RunLength(t)..], hash));
  }

  lemma SameRuns(a: string, b: string, words: set<string>)
    requires SameLetters(a, b) && HasWord(a, words)
    ensures HasWord(b, words)
  {
    var i, j :| IsRun(a, i, j) && Upper(a[i..j]) in words;
    forall k | 0 <= k < |a| ensures |a| == |b| && IsIdentChar(a[k]) == IsIdentChar(b[k]) {
      SameAt(a, b, k);
    }
    SameSlice(a, b, i, j);
    assert IsRun(b, i, j);
  }

  lemma SameHasWord(a: string, b: string, words: set<string>)
    requires SameLetters(a, b)
    ensures HasWord(a, words) == HasWord(b, words)
  {
    if HasWord(a, words) {
      SameRuns(a, b, words);
    } else if HasWord(b, words) {
      SameRuns(b, a, words);
    }
  }

  /** Classification ignores letter case: in the leading keyword, in ROLLBACK TO and in the WITH scan. */
  lemma CaseInsensitive(a: string, b: string, kw: Keywords)
    requires SameLetters(a, b)
    ensures KindWith(a, kw) == KindWith(b, kw)
  {
    SameWords(a, b, false);
    SameHasWord(a, b, kw.scannedWords);
  }

  lemma ImplicitCommitCaseInsensitive(a: string, b: string, leaders: set<string>)
    requires SameLetters(a, b)
    ensures ImplicitCommitWith(a, leaders) == ImplicitCommitWith(b, leaders)
  {
    SameWords(a, b, true);
  }

  // ----- the token scan over a concatenation ---------------------------------------------------

  lemma HasWordLeft(p: string, q: string, words: set<string>)
    requires p != "" ==> !IsIdentChar(p[|p| - 1])
    requires HasWord(p, words)
    ensures HasWord(p + q, words)
  {
    var i, j :| IsRun(p, i, j) && Upper(p[i..j]) in words;
    RunBefore(p, q, i, j);
  }

  lemma HasWordRight(p: string, q: string, words: set<string>)
    requires p != "" ==> !IsIdentChar(p[|p| - 1])
    requires HasWord(q, words)
    ensures HasWord(p + q, words)
  {
    var i, j :| IsRun(q, i, j) && Upper(q[i..j]) in words;
    RunBehind(p, q, i, j);
  }

  lemma RunBefore(p: string, q: string, i: nat, j: nat)
    requires p != "" ==> !IsIdentChar(p[|p| - 1])
    requires IsRun(p, i, j)
    ensures IsRun(p + q, i, j) && (p + q)[i..j] == p[i..j]
  {
    var s := p + q;
    assert j != |p| by { assert IsIdentChar(p[j - 1]); }
    forall k | i <= k < j ensures IsIdentChar(s[k]) {
      assert s[k] == p[k];
    }
    assert i > 0 ==> s[i - 1] == p[i - 1];
    assert s[j] == p[j];
  }

  lemma RunBehind(p: string, q: string, i: nat, j: nat)
    requires p != "" ==> !IsIdentChar(p[|p| - 1])
    requires IsRun(q, i, j)
    ensures IsRun(p + q, |p| + i, |p| + j) && (p + q)[|p| + i..|p| + j] == q[i..j]
  {
    var s, n := p + q, |p|;
    forall k | n + i <= k < n + j ensures IsIdentChar(s[k]) {
      assert s[k] == q[k - n];
    }
    assert n + i > 0 ==> s[n + i - 1] == if i > 0 then q[i - 1] else p[n - 1];
    assert n + j < |s| ==> s[n + j] == q[j];
    SliceRight(p, q, n + i, n + j);
  }

  lemma RunLeft(p: string, q: string, i: nat, j: nat)
    requires IsRun(p + q, i, j) && j <= |p|
    ensures IsRun(p, i, j) && (p + q)[i..j] == p[i..j]
  {
    var s := p + q;
    forall k | i <= k < j ensures IsIdentChar(p[k]) {
      assert s[k] == p[k];
    }
    assert i > 0 ==> s[i - 1] == p[i - 1];
    assert j < |p| ==> s[j] == p[j];
  }

  lemma RunRight(p: string, q: string, i: nat, j: nat)
    requires IsRun(p + q, i, j) && |p| <= i
    ensures IsRun(q, i - |p|, j - |p|) && (p + q)[i..j] == q[i - |p|..j - |p|]
  {
    var s, n := p + q, |p|;
    forall k | i - n <= k < j - n ensures IsIdentChar(q[k]) {
      assert s[n + k] == q[k];
    }
    assert i > n ==> s[i - 1] == q[i - 1 - n];
    assert j < |s| ==> s[j] == q[j - n];
    SliceRight(p, q, i, j);
  }

  lemma SliceRight(p: string, q: string, i: nat, j: nat)
    requires |p| <= i <= j <= |p + q|
    ensures (p + q)[i..j] == q[i - |p|..j - |p|]
  {
  }

  /** A run of the concatenation lies in one of the parts. */
  lemma RunEither(p: string, q: string, i: nat, j: nat)
    requires p != "" ==> !IsIdentChar(p[|p| - 1])
    requires IsRun(p + q, i, j)
    ensures j <= |p| || |p| <= i
  {
    assert p != "" ==> (p + q)[|p| - 1] == p[|p| - 1];
  }

  lemma HasWordEither(p: string, q: string, words: set<string>)
    requires p != "" ==> !IsIdentChar(p[|p| - 1])
    requires HasWord(p + q, words)
    ensures HasWord(p, words) || HasWord(q, words)
  {
    var i, j :| IsRun(p + q, i, j) && Upper((p + q)[i..j]) in words;
    RunEither(p, q, i, j);
    if j <= |p| {
      RunLeft(p, q, i, j);
    } else {
      RunRight(p, q, i, j);
    }
  }

  /** Behind a non-identifier byte the scan starts afresh. */
  lemma HasWordSplits(p: string, q: string, words: set<string>)
    requires p != "" ==> !IsIdentChar(p[|p| - 1])
    ensures HasWord(p + q, words) <==> HasWord(p, words) || HasWord(q, words)
  {
    if HasWord(p, words) {
      HasWordLeft(p, q, words);
    }
    if HasWord(q, words) {
      HasWordRight(p, q, words);
    }
    if HasWord(p + q, words) {
      HasWordEither(p, q, words);
    }
  }

  // ----- leading blanks and comments -----------------------------------------------------------

  /** One blank, one line comment with its newline, or one closed block comment. */
  datatype Trivia = Blank(c: char) | Line(hashed: bool, body: string) | Block(body: string)
  {
    predicate Valid(hash: bool) {
      match this
      case Blank(c) => IsBlank(c)
      case Line(hashed, body) => (hashed ==> hash) && '\n' !in body
      case Block(body) => !("/" <= body) && !Contains(body, "*/")
    }

    function Show(): (s: string)
      ensures s != ""
    {
      match this
      case Blank(c) => [c]
      case Line(hashed, body) => (if hashed then "#" else "--") + body + "\n"
      case Block(body) => "/*" + body + "*/"
    }
  }

  function ShowAll(ts: seq<Trivia>): string {
    if ts == [] then "" else ts[0].Show() + ShowAll(ts[1..])
  }

  lemma FindNewline(head: string, q: string)
    requires '\n' !in head
    ensures Find(head + "\n" + q, "\n") == |head|
  {
    var s := head + "\n" + q;
    assert s[|head|..|head| + 1] == "\n";
    forall j | 0 <= j < |head| ensures !HasAt(s, j, "\n") {
      assert s[j] == head[j];
      assert s[j..j + 1][0] == s[j];
    }
    FindIs(s, "\n", |head|);
  }

  lemma CloseAt(body: string, q: string, j: nat)
    requires !("/" <= body) && !Contains(body, "*/")
    requires j < |body| + 2
    ensures !HasAt("/*" + body + "*/" + q, j, "*/")
  {
    var s := "/*" + body + "*/" + q;
    var n := |body| + 2;
    assert s[0] == '/' && s[1] == '*' && s[n] == '*';
    assert forall k | 2 <= k < n :: s[k] == body[k - 2];
    assert s[j..j + 2] == [s[j], s[j + 1]];
    if 2 <= j && j + 1 < n {
      assert body[j - 2..j] == s[j..j + 2];
      assert !HasAt(body, j - 2, "*/");
    }
  }

  lemma FindClose(body: string, q: string)
    requires !("/" <= body) && !Contains(body, "*/")
    ensures Find("/*" + body + "*/" + q, "*/") == |body| + 2
  {
    var s := "/*" + body + "*/" + q;
    var n := |body| + 2;
    assert s[n..n + 2] == "*/";
    forall j | 0 <= j < n ensures !HasAt(s, j, "*/") {
      CloseAt(body, q, j);
    }
    FindIs(s, "*/", n);
  }

  lemma StripSkips(s: string, n: nat, hash: bool)
    requires n <= |s| && Skip(s, hash) == n
    ensures Strip(s, hash) == Strip(s[n..], hash)
  {
    assert n == 0 ==> s[n..] == s;
  }

  lemma SkipLine(head: string, q: string, hash: bool)
    requires '\n' !in head && OpensLine(head, hash)
    ensures Skip(head + "\n" + q, hash) == |head| + 1
  {
    var s := head + "\n" + q;
    FindNewline(head, q);
    assert s[0] == head[0];
    assert OpensLine(s, hash);
  }

  lemma SkipBlock(body: string, q: string, hash: bool)
    requires !("/" <= body) && !Contains(body, "*/")
    ensures Skip("/*" + body + "*/" + q, hash) == |body| + 4
  {
    var s := "/*" + body + "*/" + q;
    FindClose(body, q);
    assert s[0] == '/' && s[1] == '*';
  }

  lemma SkipOne(t: Trivia, q: string, hash: bool)
    requires t.Valid(hash)
    ensures Skip(t.Show() + q, hash) == |t.Show()|
  {
    match t {
      case Blank(c) =>
      case Line(hashed, body) =>
        var mark := if hashed then "#" else "--";
        assert forall c | c in mark :: c != '\n';
        SkipLine(mark + body, q, hash);
      case Block(body) =>
        SkipBlock(body, q, hash);
    }
  }

  lemma StripOne(t: Trivia, q: string, hash: bool)
    requires t.Valid(hash)
    ensures Strip(t.Show() + q, hash) == Strip(q, hash)
  {
    var s := t.Show() + q;
    SkipOne(t, q, hash);
    StripSkips(s, |t.Show()|, hash);
    assert s[|t.Show()|..] == q;
  }

  lemma {:induction false} StripAll(ts: seq<Trivia>, q: string, hash: bool)
    requires forall t | t in ts :: t.Valid(hash)
    ensures Strip(ShowAll(ts) + q, hash) == Strip(q, hash)
  {
    if ts == [] {
      assert ShowAll(ts) + q == q;
    } else {
      StripAll(ts[1..], q, hash);
      StripOne(ts[0], ShowAll(ts[1..]) + q, hash);
      Assoc(ts[0].Show(), ShowAll(ts[1..]), q);
    }
  }

  lemma {:induction false} TriviaEnd(ts: seq<Trivia>, hash: bool)
    requires forall t | t in ts :: t.Valid(hash)
    ensures ShowAll(ts) != "" ==> !IsIdentChar(ShowAll(ts)[|ShowAll(ts)| - 1])
  {
    if ts != [] {
      TriviaEnd(ts[1..], hash);
      assert ShowAll(ts[1..]) == "" ==> ShowAll(ts) == ts[0].Show();
      assert ts[0] in ts;
    }
  }

  lemma TriviaWords(ts: seq<Trivia>, q: string, hash: bool)
    requires forall t | t in ts :: t.Valid(hash)
    ensures FirstWord(ShowAll(ts) + q, hash) == FirstWord(q, hash)
    ensures SecondWord(ShowAll(ts) + q, hash) == SecondWord(q, hash)
  {
    StripAll(ts, q, hash);
  }

  /** The leading word decides nothing by itself: the whole text is scanned. */
  predicate Scans(w: string, kw: Keywords) {
    && w in kw.withWords
    && w !in kw.readWords && w !in kw.writeWords
    && w !in kw.beginWords && w !in kw.commitWords && w !in kw.rollbackWords
  }

  lemma KindFromWordsScan(w: string, to: bool, p: bool, q: bool, kw: Keywords)
    ensures KindFromWords(w, to, p || q, kw) == KindFromWords(w, to, q, kw) <==> !(Scans(w, kw) && !q && p)
    ensures KindFromWords(w, to, p || q, kw) != KindFromWords(w, to, q, kw) ==>
              KindFromWords(w, to, p || q, kw) == Write && KindFromWords(w, to, q, kw) == Read
  {
  }

  lemma TriviaScan(ts: seq<Trivia>, q: string, words: set<string>)
    requires forall t | t in ts :: t.Valid(false)
    ensures HasWord(ShowAll(ts) + q, words) == (HasWord(ShowAll(ts), words) || HasWord(q, words))
  {
    TriviaEnd(ts, false);
    HasWordSplits(ShowAll(ts), q, words);
  }

  /** What leading blanks and comments do to the classification: nothing, unless the leading word asks for
      the scan, the statement holds no scanned keyword and a comment does; then a read becomes a write. */
  lemma TriviaInvisibleIff(ts: seq<Trivia>, q: string, kw: Keywords)
    requires forall t | t in ts :: t.Valid(false)
    ensures KindWith(ShowAll(ts) + q, kw) == KindWith(q, kw) <==>
            !(Scans(FirstWord(q, false), kw) && !HasWord(q, kw.scannedWords) && HasWord(ShowAll(ts), kw.scannedWords))
    ensures KindWith(ShowAll(ts) + q, kw) != KindWith(q, kw) ==>
              KindWith(ShowAll(ts) + q, kw) == Write && KindWith(q, kw) == Read
  {
    TriviaWords(ts, q, false);
    TriviaScan(ts, q, kw.scannedWords);
    KindFromWordsScan(FirstWord(q, false), SecondWord(q, false) == "TO",
                HasWord(ShowAll(ts), kw.scannedWords), HasWord(q, kw.scannedWords), kw);
  }

  /** mycheck's implicit-commit test never looks into leading comments, `#` comments included. */
  lemma TriviaInvisibleToImplicitCommit(ts: seq<Trivia>, q: string, leaders: set<string>)
    requires forall t | t in ts :: t.Valid(true)
    ensures ImplicitCommitWith(ShowAll(ts) + q, leaders) == ImplicitCommitWith(q, leaders)
  {
    TriviaWords(ts, q, true);
  }

  /** The overlap: the closing mark is searched from the opening slash on, so three bytes are already
      a complete comment. */
  lemma OverlapCloses(q: string, hash: bool)
    ensures Skip("/*/" + q, hash) == 3 && Strip("/*/" + q, hash) == Strip(q, hash)
  {
    var s := "/*/" + q;
    assert s[1..3] == "*/";
    assert !HasAt(s, 0, "*/") by { assert s[0..2][0] == '/'; }
    FindIs(s, "*/", 1);
    assert s[3..] == q;
    assert !OpensLine(s, hash) by { assert s[0] == '/'; }
  }

  /** A closing mark inside the body ends the comment there. */
  lemma InnerCloses(body: string, q: string, hash: bool, k: nat)
    requires HasAt(body, k, "*/")
    ensures Skip("/*" + body + "*/" + q, hash) < |body| + 4
  {
    var s := "/*" + body + "*/" + q;
    assert s[k + 2..k + 4] == body[k..k + 2];
    assert HasAt(s, k + 2, "*/");
    assert s[0] == '/' && s[1] == '*';
  }

  /** A block comment is skipped as a whole exactly when its body neither holds a closing mark nor starts
      with the slash that, with the opening star, forms one. */
  lemma BlockSkippedIff(body: string, q: string, hash: bool)
    ensures Skip("/*" + body + "*/" + q, hash) == |body| + 4 <==> !("/" <= body) && !Contains(body, "*/")
  {
    if "/" <= body {
      var rest := body[1..] + "*/" + q;
      assert "/*" + body + "*/" + q == "/*/" + rest;
      OverlapCloses(rest, hash);
    } else if Contains(body, "*/") {
      var k :| 0 <= k <= |body| && HasAt(body, k, "*/");
      InnerCloses(body, q, hash, k);
    } else {
      SkipBlock(body, q, hash);
    }
  }
}
