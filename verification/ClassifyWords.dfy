/** The classification word by word: every keyword spelled out, in any letter case, behind any comments. */
module ClassifyWords {
  import opened Text
  import opened Classify
  import opened ClassifyLaws
  import opened TxIds

  // ----- spelling -------------------------------------------------------------------------------

  /** `w` is the upper-case word, each letter in either case. */
  predicate Spells(w: string, word: string) {
    |w| == |word| &&
    forall i | 0 <= i < |w| :: w[i] == word[i] || ('A' <= word[i] <= 'Z' && w[i] as int == word[i] as int + 32)
  }

  predicate Capital(word: string) {
    word != "" && forall i | 0 <= i < |word| :: 'A' <= word[i] <= 'Z'
  }

  /** A word ends here: nothing follows, or something that is no letter, digit or underscore. */
  predicate Breaks(tail: string) {
    tail == "" ||
    !('a' <= tail[0] <= 'z' || 'A' <= tail[0] <= 'Z' || '0' <= tail[0] <= '9' || tail[0] == '_')
  }

  /** The text starts with the whole word. */
  predicate Starts(s: string, word: string) {
    |word| <= |s| && Spells(s[..|word|], word) && Breaks(s[|word|..])
  }

  /** The text starts with no blank and with no comment. */
  predicate Still(s: string, hash: bool) {
    s == "" ||
    (&& s[0] != ' ' && s[0] != '\t' && s[0] != '\r' && s[0] != '\n'
     && !("--" <= s) && !("/*" <= s) && (hash ==> s[0] != '#'))
  }

  /** The text is a comment that never ends. */
  predicate Endless(s: string, hash: bool) {
    || (("--" <= s || (hash && "#" <= s)) && '\n' !in s)
    || ("/*" <= s && !Contains(s, "*/"))
  }

  lemma UpperSpells(w: string, word: string)
    requires Capital(word)
    ensures Upper(w) == word <==> Spells(w, word)
  {
    assert |Upper(w)| == |w|;
    if Spells(w, word) {
      forall i | 0 <= i < |w| ensures Upper(w)[i] == word[i] {
      }
    }
    if Upper(w) == word {
      forall i | 0 <= i < |w| ensures w[i] == word[i] || w[i] as int == word[i] as int + 32 {
        assert UpperChar(w[i]) == word[i];
      }
    }
  }

  lemma CapitalRun(s: string, word: string)
    requires Capital(word) && Spells(s, word)
    ensures forall i | 0 <= i < |s| :: IsIdentChar(s[i])
  {
    forall i | 0 <= i < |s| ensures IsIdentChar(s[i]) {
      assert 'A' <= word[i] <= 'Z';
    }
  }

  lemma TokenSpells(s: string, word: string)
    requires Capital(word)
    ensures Upper(Token(s)) == word <==> Starts(s, word)
  {
    var n := |word|;
    if Starts(s, word) {
      CapitalRun(s[..n], word);
      assert forall i | 0 <= i < n :: s[i] == s[..n][i];
      assert n < |s| ==> s[n..][0] == s[n];
      RunLengthIs(s, n);
      UpperSpells(s[..n], word);
    }
    if Upper(Token(s)) == word {
      assert |Upper(Token(s))| == RunLength(s);
      UpperSpells(Token(s), word);
      assert n < |s| ==> s[n..][0] == s[n];
    }
  }

  lemma StillStrips(s: string, hash: bool)
    requires Still(s, hash)
    ensures Strip(s, hash) == s
  {
    if s != "" {
      assert "#" <= s <==> s[0] == '#';
      assert Skip(s, hash) == 0;
    }
  }

  lemma EndlessStrips(s: string, hash: bool)
    requires Endless(s, hash)
    ensures Strip(s, hash) == ""
  {
    assert s != "";
    if ("--" <= s || (hash && "#" <= s)) && '\n' !in s {
      NoNewline(s);
      assert OpensLine(s, hash) && !IsBlank(s[0]);
      assert Skip(s, hash) == |s|;
    } else {
      NoClose(s);
      assert s[0] == '/' && !OpensLine(s, hash);
      assert Skip(s, hash) == |s|;
    }
    assert s[|s|..] == "";
    assert Strip("", hash) == "";
  }

  lemma NoNewline(s: string)
    requires '\n' !in s
    ensures Find(s, "\n") == -1
  {
    forall k | 0 <= k < |s| ensures !HasAt(s, k, "\n") {
      assert s[k..k + 1] == [s[k]];
    }
  }

  lemma NoClose(s: string)
    requires !Contains(s, "*/")
    ensures Find(s, "*/") == -1
  {
    var k := Find(s, "*/");
    assert k >= 0 ==> HasAt(s, k, "*/");
  }

  // ----- the words of a statement ---------------------------------------------------------------

  predicate AllValid(ts: seq<Trivia>, hash: bool) {
    forall t | t in ts :: t.Valid(hash)
  }

  /** The first word of a statement behind any comments. */
  lemma FirstWordIs(ts: seq<Trivia>, s: string, hash: bool, word: string)
    requires AllValid(ts, hash) && Still(s, hash) && Capital(word)
    ensures FirstWord(ShowAll(ts) + s, hash) == word <==> Starts(s, word)
  {
    StripAll(ts, s, hash);
    StillStrips(s, hash);
    TokenSpells(s, word);
  }

  /** The second word, if the first is `w` and comments stand before and between. */
  lemma SecondWordIs(ts: seq<Trivia>, w: string, us: seq<Trivia>, other: string, hash: bool, word: string)
    requires AllValid(ts, hash) && AllValid(us, hash) && Capital(word)
    requires w != "" && (forall i | 0 <= i < |w| :: IsIdentChar(w[i])) && Breaks(ShowAll(us) + other)
    requires Still(other, hash) || Endless(other, hash)
    ensures SecondWord(ShowAll(ts) + (w + (ShowAll(us) + other)), hash) == word <==>
            Still(other, hash) && Starts(other, word)
  {
    var rest := ShowAll(us) + other;
    var s := w + rest;
    WordIsStill(w, rest, hash);
    StripAll(ts, s, hash);
    StillStrips(s, hash);
    RunIsWord(w, rest);
    StripAll(us, other, hash);
    if Still(other, hash) {
      StillStrips(other, hash);
      TokenSpells(other, word);
    } else {
      EndlessStrips(other, hash);
      assert Upper(Token("")) == "";
    }
  }

  /** Both words of a statement that is spelled out as comments, word, comments, anything. */
  lemma TwoWords(ts: seq<Trivia>, w: string, us: seq<Trivia>, other: string, hash: bool, word: string, second: string)
    requires AllValid(ts, hash) && AllValid(us, hash) && Capital(word) && Capital(second) && Spells(w, word)
    requires Breaks(ShowAll(us) + other) && (Still(other, hash) || Endless(other, hash))
    ensures var q := ShowAll(ts) + (w + (ShowAll(us) + other));
            && FirstWord(q, hash) == word
            && (SecondWord(q, hash) == second <==> Still(other, hash) && Starts(other, second))
  {
    var rest := ShowAll(us) + other;
    CapitalRun(w, word);
    WordIsStill(w, rest, hash);
    WordStarts(w, rest, word);
    FirstWordIs(ts, w + rest, hash, word);
    SecondWordIs(ts, w, us, other, hash, second);
  }

  lemma WordIsStill(w: string, rest: string, hash: bool)
    requires w != "" && IsIdentChar(w[0])
    ensures Still(w + rest, hash)
  {
    assert (w + rest)[0] == w[0];
  }

  lemma RunIsWord(w: string, rest: string)
    requires (forall i | 0 <= i < |w| :: IsIdentChar(w[i])) && Breaks(rest)
    ensures RunLength(w + rest) == |w| && (w + rest)[|w|..] == rest
  {
    assert forall i | 0 <= i < |w| :: (w + rest)[i] == w[i];
    assert rest != "" ==> (w + rest)[|w|] == rest[0];
    RunLengthIs(w + rest, |w|);
  }

  // ----- the keywords ---------------------------------------------------------------------------

  predicate ReadWord(w: string) {
    || w == "SELECT" || w == "SHOW" || w == "EXPLAIN" || w == "VALUES" || w == "TABLE" || w == "FETCH"
    || w == "DECLARE"
  }

  predicate WriteWord(w: string) {
    || w == "INSERT" || w == "UPDATE" || w == "DELETE" || w == "MERGE" || w == "TRUNCATE" || w == "REPLACE"
    || w == "UPSERT" || w == "COPY" || w == "IMPORT" || w == "CREATE" || w == "ALTER" || w == "DROP"
    || w == "GRANT" || w == "REVOKE" || w == "COMMENT" || w == "REFRESH" || w == "CALL" || w == "DO"
  }

  predicate BeginWord(w: string) {
    w == "BEGIN" || w == "START"
  }

  predicate CommitWord(w: string) {
    w == "COMMIT" || w == "END"
  }

  predicate RollbackWord(w: string) {
    w == "ROLLBACK" || w == "ABORT"
  }

  predicate ScannedWord(w: string) {
    w == "INSERT" || w == "UPDATE" || w == "DELETE" || w == "MERGE" || w == "TRUNCATE" || w == "REPLACE"
  }

  predicate Keyword(w: string) {
    ReadWord(w) || WriteWord(w) || BeginWord(w) || CommitWord(w) || RollbackWord(w) || w == "WITH"
  }

  lemma ReadTable(w: string)
    ensures w in DEFAULT_KEYWORDS.readWords <==> ReadWord(w)
  {
  }

  lemma WriteTable(w: string)
    ensures w in DEFAULT_KEYWORDS.writeWords <==> WriteWord(w)
  {
  }

  lemma OtherTables(w: string)
    ensures w in DEFAULT_KEYWORDS.beginWords <==> BeginWord(w)
    ensures w in DEFAULT_KEYWORDS.commitWords <==> CommitWord(w)
    ensures w in DEFAULT_KEYWORDS.rollbackWords <==> RollbackWord(w)
    ensures w in DEFAULT_KEYWORDS.withWords <==> w == "WITH"
  {
  }

  lemma ScanTable(w: string)
    ensures w in SCANNED_WORDS <==> ScannedWord(w)
  {
  }

  /** The kind a word decides, given what the two conditional ones ask for. */
  function KindOfWord(w: string, to: bool, scanned: bool): Kind {
    if ReadWord(w) then Read
    else if WriteWord(w) then Write
    else if BeginWord(w) then Begin
    else if CommitWord(w) then Commit
    else if RollbackWord(w) then if to then Other else Rollback
    else if w == "WITH" then if scanned then Write else Read
    else Other
  }

  lemma ReadKind(w: string, to: bool, scanned: bool)
    requires ReadWord(w)
    ensures KindOfWord(w, to, scanned) == Read && Capital(w)
  {
  }

  lemma WriteIsNotRead(w: string)
    requires WriteWord(w)
    ensures !ReadWord(w) && Capital(w)
  {
  }

  lemma WriteKind(w: string, to: bool, scanned: bool)
    requires WriteWord(w)
    ensures KindOfWord(w, to, scanned) == Write && Capital(w)
  {
    WriteIsNotRead(w);
  }

  lemma ControlKind(w: string, to: bool, scanned: bool)
    ensures BeginWord(w) ==> KindOfWord(w, to, scanned) == Begin && Capital(w)
    ensures CommitWord(w) ==> KindOfWord(w, to, scanned) == Commit && Capital(w)
  {
  }

  lemma RollbackKind(w: string, to: bool, scanned: bool)
    requires RollbackWord(w)
    ensures KindOfWord(w, to, scanned) == (if to then Other else Rollback) && Capital(w)
  {
  }

  lemma WithKind(to: bool, scanned: bool)
    ensures KindOfWord("WITH", to, scanned) == (if scanned then Write else Read) && Capital("WITH")
  {
  }

  lemma NoKind(to: bool, scanned: bool)
    ensures KindOfWord("", to, scanned) == Other
  {
  }

  lemma Capitals(w: string)
    requires Keyword(w)
    ensures Capital(w)
  {
    if ReadWord(w) {
      ReadKind(w, false, false);
    } else if WriteWord(w) {
      WriteIsNotRead(w);
    } else if RollbackWord(w) {
      RollbackKind(w, false, false);
    } else if w == "WITH" {
      WithKind(false, false);
    } else {
      ControlKind(w, false, false);
    }
  }

  lemma ScannedIsWrite(w: string)
    requires ScannedWord(w)
    ensures WriteWord(w)
  {
  }

  lemma TableKind(w: string, to: bool, scanned: bool)
    ensures KindFromWords(w, to, scanned, DEFAULT_KEYWORDS) == KindOfWord(w, to, scanned)
  {
    ReadTable(w);
    WriteTable(w);
    OtherTables(w);
  }

  lemma KindByWord(q: string)
    ensures KindOf(q) == KindOfWord(FirstWord(q, false), SecondWord(q, false) == "TO", HasWord(q, SCANNED_WORDS))
  {
    TableKind(FirstWord(q, false), SecondWord(q, false) == "TO", HasWord(q, SCANNED_WORDS));
  }

  /** The unconditional keywords: behind any comments, in any letter case, as a whole word, each decides its
      kind. */
  lemma KeywordDecides(ts: seq<Trivia>, s: string, word: string)
    requires AllValid(ts, false) && Still(s, false) && Keyword(word) && Starts(s, word)
    ensures ReadWord(word) ==> KindOf(ShowAll(ts) + s) == Read
    ensures WriteWord(word) ==> KindOf(ShowAll(ts) + s) == Write
    ensures BeginWord(word) ==> KindOf(ShowAll(ts) + s) == Begin
    ensures CommitWord(word) ==> KindOf(ShowAll(ts) + s) == Commit
  {
    var q := ShowAll(ts) + s;
    var to, scanned := SecondWord(q, false) == "TO", HasWord(q, SCANNED_WORDS);
    Capitals(word);
    FirstWordIs(ts, s, false, word);
    KindByWord(q);
    ControlKind(word, to, scanned);
    if ReadWord(word) {
      ReadKind(word, to, scanned);
    } else if WriteWord(word) {
      WriteKind(word, to, scanned);
    }
  }

  /** A statement that starts with none of the keywords, or with no word at all, is none of them. */
  lemma NoKeywordIsOther(ts: seq<Trivia>, s: string)
    requires AllValid(ts, false) && Still(s, false) && forall word | Keyword(word) :: !Starts(s, word)
    ensures KindOf(ShowAll(ts) + s) == Other
  {
    var q := ShowAll(ts) + s;
    var word := FirstWord(q, false);
    KindByWord(q);
    if Keyword(word) {
      Capitals(word);
      FirstWordIs(ts, s, false, word);
    }
  }

  /** A comment that never ends swallows the statement. */
  lemma EndlessIsOther(ts: seq<Trivia>, s: string)
    requires AllValid(ts, false) && Endless(s, false)
    ensures KindOf(ShowAll(ts) + s) == Other
  {
    var q := ShowAll(ts) + s;
    EndlessHasNoWord(ts, s);
    KindByWord(q);
    NoKind(SecondWord(q, false) == "TO", HasWord(q, SCANNED_WORDS));
  }

  lemma EndlessHasNoWord(ts: seq<Trivia>, s: string)
    requires AllValid(ts, false) && Endless(s, false)
    ensures FirstWord(ShowAll(ts) + s, false) == ""
  {
    StripAll(ts, s, false);
    EndlessStrips(s, false);
    assert Token("") == "" && Upper("") == "";
  }

  // ----- ROLLBACK TO ----------------------------------------------------------------------------

  /** ROLLBACK and ABORT: behind any blanks and comments, TO as a whole word makes the statement one that ends
      nothing; any other second word, or none, leaves it a rollback. */
  lemma RollbackDecides(ts: seq<Trivia>, w: string, us: seq<Trivia>, other: string, word: string)
    requires AllValid(ts, false) && AllValid(us, false) && RollbackWord(word) && Spells(w, word)
    requires Breaks(ShowAll(us) + other) && (Still(other, false) || Endless(other, false))
    ensures KindOf(ShowAll(ts) + (w + (ShowAll(us) + other))) ==
            if Still(other, false) && Starts(other, "TO") then Other else Rollback
  {
    RollbackKind(word, false, false);
    ConditionalDecides(ts, w, us, other, word);
    RollbackKind(word, Still(other, false) && Starts(other, "TO"),
                 HasWord(ShowAll(ts) + (w + (ShowAll(us) + other)), SCANNED_WORDS));
  }

  lemma ConditionalDecides(ts: seq<Trivia>, w: string, us: seq<Trivia>, other: string, word: string)
    requires AllValid(ts, false) && AllValid(us, false) && Capital(word) && Spells(w, word)
    requires Breaks(ShowAll(us) + other) && (Still(other, false) || Endless(other, false))
    ensures var q := ShowAll(ts) + (w + (ShowAll(us) + other));
            KindOf(q) == KindOfWord(word, Still(other, false) && Starts(other, "TO"), HasWord(q, SCANNED_WORDS))
  {
    TwoWords(ts, w, us, other, false, word, "TO");
    KindByWord(ShowAll(ts) + (w + (ShowAll(us) + other)));
  }

  lemma WordStarts(w: string, rest: string, word: string)
    requires Spells(w, word) && Breaks(rest)
    ensures Starts(w + rest, word)
  {
    assert (w + rest)[..|w|] == w && (w + rest)[|w|..] == rest;
  }

  lemma Bare(w: string, gap: string, other: string)
    ensures "" + (w + (gap + other)) == w + gap + other
  {
  }

  lemma RollbackText()
    ensures KindOf("ROLLBACK") == Rollback
  {
    var w := "ROLLBACK";
    RollbackDecides([], w, [], "", w);
    Bare(w, "", "");
    assert w + "" + "" == w;
  }

  const GAP: seq<Trivia> := [Blank(' ')]

  lemma GapIsBlank()
    ensures ShowAll(GAP) == " " && AllValid(GAP, false)
  {
    assert GAP[1..] == [];
  }

  lemma SavepointStartsWithTo()
    ensures Still("TO sp", false) && Starts("TO sp", "TO") && Breaks(" " + "TO sp")
  {
    var other := "TO sp";
    assert other[0] == 'T' && other[..2] == "TO";
    assert other[2..][0] == ' ';
  }

  lemma RollbackToSpelled()
    ensures "" + ("ROLLBACK" + (" " + "TO sp")) == "ROLLBACK TO sp"
  {
  }

  lemma RollbackToText()
    ensures KindOf("ROLLBACK TO sp") == Other
  {
    GapIsBlank();
    SavepointStartsWithTo();
    RollbackDecides([], "ROLLBACK", GAP, "TO sp", "ROLLBACK");
    RollbackToSpelled();
  }

  /** So a Session keeps its transaction across "ROLLBACK TO sp" and loses it at "ROLLBACK". */
  lemma SavepointKeepsTransaction(held: u64, seqNo: u64)
    ensures TxIds.Observe(KindOf("ROLLBACK TO sp"), held, seqNo) == (held, seqNo)
    ensures TxIds.Observe(KindOf("ROLLBACK"), held, seqNo) == (0, seqNo)
  {
    RollbackText();
    RollbackToText();
  }

  // ----- WITH -----------------------------------------------------------------------------------

  /** Some maximal run of letters, digits and underscores is one of the six scanned words, in any case. */
  ghost predicate HoldsScannedWord(q: string) {
    exists i, j, word :: IsRun(q, i, j) && ScannedWord(word) && Spells(q[i..j], word)
  }

  lemma ScanIs(q: string)
    ensures HasWord(q, SCANNED_WORDS) <==> HoldsScannedWord(q)
  {
    forall i, j | IsRun(q, i, j) && Upper(q[i..j]) in SCANNED_WORDS ensures HoldsScannedWord(q) {
      var word := Upper(q[i..j]);
      ScanTable(word);
      ScannedIsWrite(word);
      WriteIsNotRead(word);
      UpperSpells(q[i..j], word);
    }
    if HoldsScannedWord(q) {
      var i, j, word :| IsRun(q, i, j) && ScannedWord(word) && Spells(q[i..j], word);
      ScanTable(word);
      ScannedIsWrite(word);
      WriteIsNotRead(word);
      UpperSpells(q[i..j], word);
    }
  }

  /** WITH is a write exactly when the whole text, comments included, holds a scanned word. */
  lemma WithDecides(ts: seq<Trivia>, s: string)
    requires AllValid(ts, false) && Still(s, false) && Starts(s, "WITH")
    ensures KindOf(ShowAll(ts) + s) == if HoldsScannedWord(ShowAll(ts) + s) then Write else Read
  {
    WithKind(SecondWord(ShowAll(ts) + s, false) == "TO", HasWord(ShowAll(ts) + s, SCANNED_WORDS));
    FirstWordIs(ts, s, false, "WITH");
    KindByWord(ShowAll(ts) + s);
    ScanIs(ShowAll(ts) + s);
  }

  // ----- implicit commits -----------------------------------------------------------------------

  predicate ImplicitWord(w: string) {
    || w == "CREATE" || w == "ALTER" || w == "DROP" || w == "RENAME" || w == "TRUNCATE" || w == "GRANT"
    || w == "REVOKE" || w == "INSTALL" || w == "UNINSTALL" || w == "ANALYZE" || w == "CHECK" || w == "OPTIMIZE"
    || w == "REPAIR" || w == "FLUSH" || w == "CACHE" || w == "LOCK" || w == "UNLOCK"
  }

  lemma ImplicitTable(w: string)
    ensures w in IMPLICIT_COMMIT_WORDS <==> ImplicitWord(w)
  {
  }

  lemma LeaderCapital(w: string)
    requires ImplicitWord(w)
    ensures Capital(w)
  {
  }

  lemma ImplicitByWord(q: string, w: string)
    requires w == FirstWord(q, true)
    ensures IsImplicitCommit(q) <==>
            ImplicitWord(w) && !((w == "CREATE" || w == "DROP") && SecondWord(q, true) == "TEMPORARY")
  {
    ImplicitTable(w);
  }

  /** The implicit commits by word: CREATE and DROP unless TEMPORARY follows as a whole word, the other
      leaders always. */
  lemma ImplicitCommitDecides(ts: seq<Trivia>, w: string, us: seq<Trivia>, other: string, word: string)
    requires AllValid(ts, true) && AllValid(us, true) && ImplicitWord(word) && Spells(w, word)
    requires Breaks(ShowAll(us) + other) && (Still(other, true) || Endless(other, true))
    ensures IsImplicitCommit(ShowAll(ts) + (w + (ShowAll(us) + other))) <==>
            !((word == "CREATE" || word == "DROP") && Still(other, true) && Starts(other, "TEMPORARY"))
  {
    LeaderCapital(word);
    ImplicitTable(word);
    TemporaryIsCapital();
    var q := ShowAll(ts) + (w + (ShowAll(us) + other));
    TwoWords(ts, w, us, other, true, word, "TEMPORARY");
    ImplicitByWord(q, word);
  }

  lemma TemporaryIsCapital()
    ensures Capital("TEMPORARY")
  {
  }

  /** No other statement commits implicitly. */
  lemma NoLeaderCommitsNothing(ts: seq<Trivia>, s: string)
    requires AllValid(ts, true) && Still(s, true) && forall word | ImplicitWord(word) :: !Starts(s, word)
    ensures !IsImplicitCommit(ShowAll(ts) + s)
  {
    var q := ShowAll(ts) + s;
    var word := FirstWord(q, true);
    ImplicitByWord(q, word);
    if ImplicitWord(word) {
      LeaderCapital(word);
      FirstWordIs(ts, s, true, word);
    }
  }
}
