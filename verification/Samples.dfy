/** Real statement texts and log lines: what the default classifier and mycheck's implicit-commit test make
    of them, and where they show the limits of the general results. */
module Samples {
  import opened Text
  import opened Classify
  import opened ClassifyLaws
  import opened Reconstruct
  import opened Labels
  import opened Simulation
  import opened Agreement
  import Banners
  import MyLog
  import P = MyLogRoundTrip

  const BEGIN_TEXT := "BEGIN"
  const COMMIT_TEXT := "COMMIT"
  const WRITE_TEXT := "INSERT INTO users (name) VALUES ('a')"
  const DDL_TEXT := "ALTER TABLE users ADD COLUMN age INT"

  // ----- classification -----------------------------------------------------------------------

  /** A text that starts with an identifier run of `n` bytes has that run as its first word. */
  lemma FirstWordIs(q: string, n: nat, hash: bool)
    requires 0 < n <= |q| && (forall i | 0 <= i < n :: IsIdentChar(q[i])) && (n < |q| ==> !IsIdentChar(q[n]))
    ensures FirstWord(q, hash) == Upper(q[..n])
  {
    assert IsIdentChar(q[0]);
    assert Skip(q, hash) == 0;
    RunLengthIs(q, n);
  }

  lemma UpperWord(w: string)
    requires forall i | 0 <= i < |w| :: !('a' <= w[i] <= 'z')
    ensures Upper(w) == w
  {
  }

  lemma WordOf(q: string, w: string, hash: bool)
    requires w != "" && w <= q && (forall i | 0 <= i < |w| :: IsIdentChar(w[i]) && !('a' <= w[i] <= 'z'))
    requires |w| < |q| ==> !IsIdentChar(q[|w|])
    ensures FirstWord(q, hash) == w
  {
    assert forall i | 0 <= i < |w| :: q[i] == w[i];
    assert q[..|w|] == w;
    FirstWordIs(q, |w|, hash);
    UpperWord(w);
  }

  lemma Words(to: bool, scanned: bool)
    ensures KindFromWords("BEGIN", to, scanned, DEFAULT_KEYWORDS) == Begin
    ensures KindFromWords("COMMIT", to, scanned, DEFAULT_KEYWORDS) == Commit
    ensures KindFromWords("INSERT", to, scanned, DEFAULT_KEYWORDS) == Write
    ensures KindFromWords("ALTER", to, scanned, DEFAULT_KEYWORDS) == Write
    ensures KindFromWords("WITH", to, scanned, DEFAULT_KEYWORDS) == if scanned then Write else Read
  {
  }

  lemma KindByWord(q: string, w: string)
    requires FirstWord(q, false) == w
    ensures KindOf(q) ==
            KindFromWords(w, SecondWord(q, false) == "TO", HasWord(q, SCANNED_WORDS), DEFAULT_KEYWORDS)
  {
  }

  lemma TextKinds()
    ensures KindOf(BEGIN_TEXT) == Begin && KindOf(COMMIT_TEXT) == Commit
    ensures KindOf(WRITE_TEXT) == Write && KindOf(DDL_TEXT) == Write
  {
    BeginKind();
    CommitKind();
    WriteKind();
    DdlKind();
  }

  lemma BeginKind()
    ensures KindOf(BEGIN_TEXT) == Begin
  {
    WordOf(BEGIN_TEXT, "BEGIN", false);
    KindByWord(BEGIN_TEXT, "BEGIN");
    Words(SecondWord(BEGIN_TEXT, false) == "TO", HasWord(BEGIN_TEXT, SCANNED_WORDS));
  }

  lemma CommitKind()
    ensures KindOf(COMMIT_TEXT) == Commit
  {
    WordOf(COMMIT_TEXT, "COMMIT", false);
    KindByWord(COMMIT_TEXT, "COMMIT");
    Words(SecondWord(COMMIT_TEXT, false) == "TO", HasWord(COMMIT_TEXT, SCANNED_WORDS));
  }

  lemma WriteKind()
    ensures KindOf(WRITE_TEXT) == Write
  {
    WordOf(WRITE_TEXT, "INSERT", false);
    KindByWord(WRITE_TEXT, "INSERT");
    Words(SecondWord(WRITE_TEXT, false) == "TO", HasWord(WRITE_TEXT, SCANNED_WORDS));
  }

  lemma DdlKind()
    ensures KindOf(DDL_TEXT) == Write
  {
    WordOf(DDL_TEXT, "ALTER", false);
    KindByWord(DDL_TEXT, "ALTER");
    Words(SecondWord(DDL_TEXT, false) == "TO", HasWord(DDL_TEXT, SCANNED_WORDS));
  }

  lemma ByLeader(q: string, w: string, leaders: set<string>)
    requires FirstWord(q, true) == w && w != "CREATE" && w != "DROP"
    ensures ImplicitCommitWith(q, leaders) <==> w in leaders
  {
  }

  lemma WriteCommitsNothing()
    ensures !IsImplicitCommit(WRITE_TEXT)
  {
    WordOf(WRITE_TEXT, "INSERT", true);
    ByLeader(WRITE_TEXT, "INSERT", IMPLICIT_COMMIT_WORDS);
    Leaders();
  }

  lemma DdlCommits()
    ensures IsImplicitCommit(DDL_TEXT)
  {
    WordOf(DDL_TEXT, "ALTER", true);
    ByLeader(DDL_TEXT, "ALTER", IMPLICIT_COMMIT_WORDS);
    Leaders();
  }

  lemma Leaders()
    ensures "INSERT" !in IMPLICIT_COMMIT_WORDS && "ALTER" in IMPLICIT_COMMIT_WORDS
  {
  }

  // ----- where the two machines differ --------------------------------------------------------

  /** mycheck with the default classifier. */
  ghost function Default(): Checker {
    MySQL(q => KindOf(q))
  }

  /** The documented false negative, on real statements. */
  lemma DdlSplitsInThree(t: string)
    requires IsDecimal(t)
    ensures var tr := DdlTrace(t, BEGIN_TEXT, WRITE_TEXT, DDL_TEXT, COMMIT_TEXT);
            ClientUnits(Default(), tr) == 1 && ServerUnits(Default(), tr) == 3
  {
    TextKinds();
    WriteCommitsNothing();
    DdlCommits();
    ImplicitCommitSplitsInThree(Default(), t, BEGIN_TEXT, WRITE_TEXT, DDL_TEXT, COMMIT_TEXT);
  }

  /** A BEGIN inside a transaction, on real statements. */
  lemma BeginSplitsInTwo(t: string)
    requires IsDecimal(t)
    ensures var tr := [Exec(t, BEGIN_TEXT), Exec(t, WRITE_TEXT), Exec(t, BEGIN_TEXT), Exec(t, WRITE_TEXT)];
            ClientUnits(Default(), tr) == 1 && ServerUnits(Default(), tr) == 2
  {
    TextKinds();
    WriteCommitsNothing();
    TextualBeginSplits(Default(), t, BEGIN_TEXT, WRITE_TEXT);
  }

  // ----- where a comment changes the kind -----------------------------------------------------

  const WITH_TEXT := "WITH"
  const COMMENT_TEXT := "/*INSERT*/"

  lemma NoScannedWord()
    ensures !HasWord(WITH_TEXT, SCANNED_WORDS)
  {
    forall i, j | IsRun(WITH_TEXT, i, j) ensures Upper(WITH_TEXT[i..j]) !in SCANNED_WORDS {
      assert |Upper(WITH_TEXT[i..j])| <= 4;
    }
  }

  lemma CommentHoldsWord()
    ensures HasWord(COMMENT_TEXT, SCANNED_WORDS)
  {
    assert COMMENT_TEXT[2..8] == "INSERT";
    UpperWord("INSERT");
    assert IsRun(COMMENT_TEXT, 2, 8);
  }

  lemma CommentIsTrivia()
    ensures Block("INSERT").Valid(false) && ShowAll([Block("INSERT")]) == COMMENT_TEXT
  {
    var body := "INSERT";
    assert body[0] == 'I';
    assert forall i | 0 <= i < |body| :: body[i] != '*';
    forall k | 0 <= k <= |body| ensures !HasAt(body, k, "*/") {
      if k + 2 <= |body| {
        assert body[k..k + 2][0] == body[k];
      }
    }
    assert [Block(body)][1..] == [];
  }

  lemma WithIsRead()
    ensures FirstWord(WITH_TEXT, false) == "WITH" && KindOf(WITH_TEXT) == Read
  {
    WordOf(WITH_TEXT, "WITH", false);
    KindByWord(WITH_TEXT, "WITH");
    NoScannedWord();
    Words(SecondWord(WITH_TEXT, false) == "TO", false);
  }

  lemma WithScans()
    ensures Scans("WITH", DEFAULT_KEYWORDS)
  {
  }

  /** A leading comment turns a read into a write. */
  lemma CommentMakesWrite()
    ensures KindOf(WITH_TEXT) == Read && KindOf(COMMENT_TEXT + WITH_TEXT) == Write
  {
    CommentIsTrivia();
    CommentHoldsWord();
    WithIsRead();
    WithScans();
    NoScannedWord();
    TriviaInvisibleIff([Block("INSERT")], WITH_TEXT, DEFAULT_KEYWORDS);
  }

  // ----- where the log parser cannot tell -----------------------------------------------------

  const STAMP_TEXT := "2026-07-18T01:58:59."
  const BANNER_TEXT := "Tcp port: 3306  Unix socket: /tmp/mysql.sock"

  /** A query whose second line is the given one. */
  function Query(second: string): P.Item {
    P.Logged(STAMP_TEXT, "266281", "Z", "   ", "11", "Query", "SELECT", [second])
  }

  lemma QueryIsValid(second: string)
    ensures Query(second).Valid()
  {
    assert STAMP_TEXT[0] == '2';
  }

  lemma BannerLine()
    ensures MyLog.KindOfLine(BANNER_TEXT) == MyLog.Banner
  {
    assert "Tcp port: " <= BANNER_TEXT;
    assert BANNER_TEXT[0] == 'T';
    Banners.NoStamp(BANNER_TEXT);
  }

  /** A statement with a line that reads like the banner, or like another entry, does not come back. */
  lemma LookalikesBreakRoundTrip(second: string)
    requires MyLog.KindOfLine(second) != MyLog.Plain
    ensures MyLog.Parsed(P.Print([Query(second)])).entries != P.Expected([Query(second)])
  {
    QueryIsValid(second);
    assert !Query(second).Clean(MyLog.KindOfLine) by {
      assert second in Query(second).more;
    }
    assert Query(second) in [Query(second)];
    P.RoundTripIff([Query(second)]);
  }

  /** Both kinds of lookalike exist. */
  lemma Lookalikes()
    ensures MyLog.KindOfLine(BANNER_TEXT) == MyLog.Banner
    ensures MyLog.KindOfLine(Query("").HeadLine()) == MyLog.Head("11", "Query", "SELECT")
  {
    BannerLine();
    QueryIsValid("");
    P.HeadMatches(Query(""));
  }
}
