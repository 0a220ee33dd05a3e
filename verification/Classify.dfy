/** Statement classification: the leading-keyword classifier of the client and the token helpers of
    the MySQL adapter, which differ only in whether `#` opens a comment. */
module Classify {
  import opened Text

  datatype Kind = Other | Read | Write | Begin | Commit | Rollback

  const MAX_KEYWORD_LEN := 8

  /** The keyword table of the classifier: which leading words mean what, and which words make a WITH
      statement a write. The laws about the classification hold for every table. */
  datatype Keywords = Keywords(
    readWords: set<string>, writeWords: set<string>, beginWords: set<string>, commitWords: set<string>,
    rollbackWords: set<string>, withWords: set<string>, scannedWords: set<string>)

  const SCANNED_WORDS: set<string> :=
    {"INSERT", "UPDATE", "DELETE", "MERGE", "TRUNCATE", "REPLACE"}

  const DEFAULT_KEYWORDS := Keywords(
    readWords := {"SELECT", "SHOW", "EXPLAIN", "VALUES", "TABLE", "FETCH", "DECLARE"},
    writeWords := {"INSERT", "UPDATE", "DELETE", "MERGE", "TRUNCATE", "REPLACE", "UPSERT", "COPY", "IMPORT",
               "CREATE", "ALTER", "DROP", "GRANT", "REVOKE", "COMMENT", "REFRESH", "CALL", "DO"},
    beginWords := {"BEGIN", "START"},
    commitWords := {"COMMIT", "END"},
    rollbackWords := {"ROLLBACK", "ABORT"},
    withWords := {"WITH"},
    scannedWords := SCANNED_WORDS)

  const IMPLICIT_COMMIT_WORDS: set<string> :=
    {"CREATE", "ALTER", "DROP", "RENAME", "TRUNCATE", "GRANT", "REVOKE", "INSTALL", "UNINSTALL",
     "ANALYZE", "CHECK", "OPTIMIZE", "REPAIR", "FLUSH", "CACHE", "LOCK", "UNLOCK"}

  // ----- specification ------------------------------------------------------------------------

  function TrimBlank(q: string): (r: string)
    ensures |r| <= |q|
  {
    if q != "" && IsBlank(q[0]) then TrimBlank(q[1..]) else q
  }

  predicate OpensLine(q: string, hash: bool) {
    "--" <= q || (hash && "#" <= q)
  }

  /** How many bytes the blank or comment at the start of `q` takes: 0 when there is none, all of `q`
      when the comment never ends. `hash` says whether `#` opens a comment. */
  function Skip(q: string, hash: bool): (n: nat)
    ensures n <= |q|
  {
    if q == "" then 0
    else if IsBlank(q[0]) then 1
    else if OpensLine(q, hash) then
      var k := Find(q, "\n");
      if k < 0 then |q| else k + 1
    else if "/*" <= q then
      var k := Find(q, "*/");
      if k < 0 then |q| else k + 2
    else 0
  }

  /** What is left of `q` after its leading blanks and comments. */
  function Strip(q: string, hash: bool): (r: string)
    ensures |r| <= |q|
    decreases |q|
  {
    var n := Skip(q, hash);
    if n == 0 then q else Strip(q[n..], hash)
  }

  function FirstWord(q: string, hash: bool): string {
    Upper(Token(Strip(q, hash)))
  }

  function SecondWord(q: string, hash: bool): string {
    var s := Strip(q, hash);
    Upper(Token(Strip(s[RunLength(s)..], hash)))
  }

  /** `q[i..j]` is a maximal identifier run. */
  predicate IsRun(q: string, i: int, j: int) {
    && 0 <= i < j <= |q|
    && (forall k | i <= k < j :: IsIdentChar(q[k]))
    && (i > 0 ==> !IsIdentChar(q[i - 1]))
    && (j < |q| ==> !IsIdentChar(q[j]))
  }

  /** Some maximal identifier run of `q` is, upper-cased, one of `words`. */
  ghost predicate HasWord(q: string, words: set<string>) {
    exists i, j :: IsRun(q, i, j) && Upper(q[i..j]) in words
  }

  /** The classification from what it looks at: the leading word, whether the second word is TO, and
      whether the text holds a scanned word. */
  function KindFromWords(w: string, to: bool, scanned: bool, kw: Keywords): Kind {
    if w in kw.readWords then Read
    else if w in kw.writeWords then Write
    else if w in kw.beginWords then Begin
    else if w in kw.commitWords then Commit
    else if w in kw.rollbackWords then
      if to then Other else Rollback
    else if w in kw.withWords then
      if scanned then Write else Read
    else Other
  }

  /** The classification without any buffer: unbounded tokens, compared as sets of words. */
  ghost function KindWith(q: string, kw: Keywords): Kind {
    KindFromWords(FirstWord(q, false), SecondWord(q, false) == "TO", HasWord(q, kw.scannedWords), kw)
  }

  /** DefaultClassifier's table. */
  ghost function KindOf(q: string): Kind {
    KindWith(q, DEFAULT_KEYWORDS)
  }

  /** mycheck's isImplicitCommit, for any table of leading words. */
  predicate ImplicitCommitWith(q: string, leaders: set<string>) {
    var w := FirstWord(q, true);
    w in leaders && !((w == "CREATE" || w == "DROP") && SecondWord(q, true) == "TEMPORARY")
  }

  predicate IsImplicitCommit(q: string) {
    ImplicitCommitWith(q, IMPLICIT_COMMIT_WORDS)
  }

  // ----- the code ------------------------------------------------------------------------------

  lemma TrimStrip(q: string, hash: bool)
    ensures Strip(TrimBlank(q), hash) == Strip(q, hash)
    ensures TrimBlank(q) != "" ==> !IsBlank(TrimBlank(q)[0])
  {
  }

  method StripLeading(query: string, hash: bool) returns (q: string)
    ensures q == Strip(query, hash)
  {
    q := query;
    while true
      invariant Strip(q, hash) == Strip(query, hash)
      decreases |q|
    {
      TrimStrip(q, hash);
      q := TrimBlank(q);
      if OpensLine(q, hash) {
        var idx := Find(q, "\n");
        if idx < 0 {
          return "";
        }
        q := q[idx + 1..];
        continue;
      }
      if "/*" <= q {
        var idx := Find(q, "*/");
        if idx < 0 {
          return "";
        }
        q := q[idx + 2..];
        continue;
      }
      return q;
    }
  }

  method LeadingToken(query: string, hash: bool) returns (tok: string)
    ensures tok == Token(Strip(query, hash))
  {
    var q := StripLeading(query, hash);
    var end := 0;
    while end < |q| && IsIdentChar(q[end])
      invariant end <= |q|
      invariant forall i | 0 <= i < end :: IsIdentChar(q[i])
    {
      end := end + 1;
    }
    RunLengthIs(q, end);
    tok := q[..end];
  }

  /** Upper-cases `tok` into the caller's buffer; refuses, without writing, a token that does not fit. */
  method AsciiUpperToken(tok: string, buf: array<char>) returns (n: nat, ok: bool)
    modifies buf
    ensures ok <==> |tok| <= buf.Length
    ensures ok ==> n == |tok| && buf[..n] == Upper(tok) && buf[n..] == old(buf[n..])
    ensures !ok ==> n == 0 && buf[..] == old(buf[..])
  {
    if |tok| > buf.Length {
      return 0, false;
    }
    for i := 0 to |tok|
      invariant buf[..i] == Upper(tok)[..i]
      invariant buf[|tok|..] == old(buf[|tok|..])
    {
      var c := tok[i];
      if 'a' <= c <= 'z' {
        c := c - ('a' - 'A');
      }
      buf[i] := c;
      assert buf[..i + 1] == buf[..i] + [c];
      assert Upper(tok)[..i + 1] == Upper(tok)[..i] + [Upper(tok)[i]];
    }
    assert Upper(tok)[..|tok|] == Upper(tok);
    return |tok|, true;
  }

  method SecondToken(query: string, hash: bool) returns (tok: string)
    ensures Upper(tok) == SecondWord(query, hash)
  {
    var q := StripLeading(query, hash);
    var i := 0;
    while i < |q| && IsIdentChar(q[i])
      invariant i <= |q|
      invariant forall k | 0 <= k < i :: IsIdentChar(q[k])
    {
      i := i + 1;
    }
    RunLengthIs(q, i);
    tok := LeadingToken(q[i..], hash);
  }

  method SecondTokenIsTo(query: string) returns (b: bool)
    ensures b <==> SecondWord(query, false) == "TO"
  {
    var tok := SecondToken(query, false);
    b := |tok| == 2 && (tok[0] == 'T' || tok[0] == 't') && (tok[1] == 'O' || tok[1] == 'o');
    assert |tok| == 2 ==> Upper(tok) == [UpperChar(tok[0]), UpperChar(tok[1])];
  }

  /** Runs found so far: nothing that ends before `i` qualifies. */
  ghost predicate NoWordBefore(q: string, words: set<string>, i: nat) {
    forall a, b | IsRun(q, a, b) && b < i :: Upper(q[a..b]) !in words
  }

  method ContainsWriteToken(q: string) returns (found: bool)
    ensures found <==> HasWord(q, SCANNED_WORDS)
  {
    var buf := new char[MAX_KEYWORD_LEN];
    var start := -1;
    for i := 0 to |q| + 1
      invariant -1 <= start < i
      invariant NoWordBefore(q, SCANNED_WORDS, i)
      invariant start < 0 ==> i == 0 || (i <= |q| && !IsIdentChar(q[i - 1])) || i == |q| + 1
      invariant start >= 0 ==> i <= |q| && (start > 0 ==> !IsIdentChar(q[start - 1]))
      invariant start >= 0 ==> forall k | start <= k < i :: IsIdentChar(q[k])
    {
      if i < |q| && IsIdentChar(q[i]) {
        if start < 0 {
          start := i;
        }
        continue;
      }
      if start >= 0 {
        assert IsRun(q, start, i);
        var n, ok := AsciiUpperToken(q[start..i], buf);
        if ok && buf[..n] in SCANNED_WORDS {
          return true;
        }
        start := -1;
      }
    }
    return false;
  }

  /** The 8-byte-buffer classifier computes the unbounded classification. */
  method DefaultClassifier(query: string) returns (kind: Kind)
    ensures kind == KindOf(query)
  {
    var buf := new char[MAX_KEYWORD_LEN];
    var tok := LeadingToken(query, false);
    var n, ok := AsciiUpperToken(tok, buf);
    if !ok {
      return Other;
    }
    var w := buf[..n];
    if w in DEFAULT_KEYWORDS.readWords {
      return Read;
    } else if w in DEFAULT_KEYWORDS.writeWords {
      return Write;
    } else if w in {"BEGIN", "START"} {
      return Begin;
    } else if w in {"COMMIT", "END"} {
      return Commit;
    } else if w in {"ROLLBACK", "ABORT"} {
      var to := SecondTokenIsTo(query);
      return if to then Other else Rollback;
    } else if w == "WITH" {
      var has := ContainsWriteToken(query);
      return if has then Write else Read;
    }
    return Other;
  }
}
