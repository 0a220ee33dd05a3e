/** mycheck's Parse: general-log lines into entries, continuation lines reassembled. */
module MyLog {
  import opened Text
  import opened Matching
  import opened Reconstruct

  // ----- lines --------------------------------------------------------------------------------

  /** The first line of an entry, a line of the log-opening banner, or anything else. */
  datatype LineKind = Head(thread: string, command: string, text: string) | Banner | Plain

  /** `Z` or a numeric offset. */
  function Zone(s: string): Option<string> {
    if "Z" <= s then Some(s[1..])
    else if "+" <= s || "-" <= s then Shape(s[1..], "dd:dd")
    else None
  }

  /** Timestamp, tab, padded thread id, blank, command word, tab, argument. */
  function MatchHead(s: string): Option<LineKind> {
    match Shape(s, "dddd-dd-ddTdd:dd:dd.")
    case None => None
    case Some(s) =>
      match Some1(s, Digits())
      case None => None
      case Some(s) => MatchTail(s)
  }

  /** From the zone on. */
  function MatchTail(s: string): Option<LineKind> {
    match Zone(s)
    case None => None
    case Some(s) =>
      match Lit(s, "\t")
      case None => None
      case Some(s) => MatchCommand(s[Span(s, Spaces())..])
  }

  function MatchCommand(s: string): Option<LineKind> {
    var n := Span(s, Digits());
    if n == 0 then None
    else
      match Lit(s[n..], " ")
      case None => None
      case Some(r) =>
        var m := Span(r, Except('\t'));
        if m == 0 then None
        else
          match Lit(r[m..], "\t")
          case None => None
          case Some(text) => Some(Head(s[..n], r[..m], text))
  }

  /** The column header. */
  predicate IsHeader(s: string) {
    match Column(s, "Time")
    case None => false
    case Some(s) =>
      match Column(s, "Id")
      case None => false
      case Some(s) =>
        match Column(s, "Command")
        case None => false
        case Some(s) => "Argument" <= s && Span(s[8..], Whites()) == |s| - 8
  }

  function Column(s: string, word: string): Option<string> {
    match Lit(s, word)
    case None => None
    case Some(r) => Some1(r, Whites())
  }

  predicate EndsWith(s: string, suffix: string) {
    |suffix| <= |s| && s[|s| - |suffix|..] == suffix
  }

  predicate IsBanner(s: string) {
    || IsHeader(s)
    || (EndsWith(s, "started with:") && Contains(s, ", Version: "))
    || "Tcp port: " <= s
  }

  function KindOfLine(s: string): LineKind {
    match MatchHead(s)
    case Some(h) => h
    case None => if IsBanner(s) then Banner else Plain
  }

  // ----- specification of the loop ------------------------------------------------------------

  /** Entries so far, whether the last one can still grow, and how many lines were read. */
  datatype Scan = Scan(entries: seq<Entry>, continuing: bool, lines: nat)

  const START := Scan([], false, 0)

  function Grown(entries: seq<Entry>, text: string): seq<Entry>
    requires entries != []
  {
    var last := entries[|entries| - 1];
    entries[..|entries| - 1] + [last.(text := last.text + "\n" + text)]
  }

  function ReadAs(st: Scan, k: LineKind, text: string): Scan {
    match k
    case Head(thread, command, arg) =>
      Scan(st.entries + [Entry(thread, command, arg, st.lines + 1)], true, st.lines + 1)
    case Banner => Scan(st.entries, false, st.lines + 1)
    case Plain =>
      Scan(if st.continuing && st.entries != [] then Grown(st.entries, text) else st.entries,
           st.continuing, st.lines + 1)
  }

  /** The loop, for any reading of single lines. */
  function ReadLines(kind: string -> LineKind, st: Scan, lines: seq<string>): Scan {
    if lines == [] then st
    else
      var l := lines[|lines| - 1];
      ReadAs(ReadLines(kind, st, lines[..|lines| - 1]), kind(l), l)
  }

  function Parsed(lines: seq<string>): Scan {
    ReadLines(KindOfLine, START, lines)
  }

  // ----- the code -----------------------------------------------------------------------------

  /** The loop of Parse over the scanned lines. */
  method ParseEntries(lines: seq<string>) returns (entries: seq<Entry>)
    ensures entries == Parsed(lines).entries
  {
    entries := [];
    var continuing := false;
    for line := 0 to |lines|
      invariant Scan(entries, continuing, line) == Parsed(lines[..line])
      invariant continuing ==> entries != []
    {
      var text := lines[line];
      assert lines[..line + 1][..line] == lines[..line];
      assert Parsed(lines[..line + 1]) == ReadAs(Parsed(lines[..line]), KindOfLine(text), text);
      match KindOfLine(text) {
        case Head(thread, command, arg) =>
          entries := entries + [Entry(thread, command, arg, line + 1)];
          continuing := true;
        case Banner =>
          continuing := false;
        case Plain =>
          if continuing {
            entries := Grown(entries, text);
          }
      }
    }
    assert lines[..|lines|] == lines;
  }

  // ----- line numbers -------------------------------------------------------------------------

  /** Entries carry the numbers of their first lines, strictly increasing, within the input. */
  lemma {:induction false} LineNumbersIncrease(kind: string -> LineKind, lines: seq<string>)
    ensures var st := ReadLines(kind, START, lines);
            && st.lines == |lines|
            && (forall i | 0 <= i < |st.entries| :: 1 <= st.entries[i].line <= |lines|)
            && (forall i, j | 0 <= i < j < |st.entries| :: st.entries[i].line < st.entries[j].line)
            && (forall i | 0 <= i < |st.entries| :: kind(lines[st.entries[i].line - 1]).Head?)
  {
    if lines != [] {
      var n := |lines| - 1;
      LineNumbersIncrease(kind, lines[..n]);
      NumbersStep(kind, ReadLines(kind, START, lines[..n]), kind(lines[n]), lines[n], lines[..n], lines);
    }
  }

  lemma NumbersStep(kind: string -> LineKind, st: Scan, k: LineKind, text: string, front: seq<string>,
                    lines: seq<string>)
    requires lines == front + [text] && k == kind(text) && st.lines == |front|
    requires forall i | 0 <= i < |st.entries| :: 1 <= st.entries[i].line <= |front|
    requires forall i, j | 0 <= i < j < |st.entries| :: st.entries[i].line < st.entries[j].line
    requires forall i | 0 <= i < |st.entries| :: kind(front[st.entries[i].line - 1]).Head?
    ensures var st' := ReadAs(st, k, text);
            && st'.lines == |lines|
            && (forall i | 0 <= i < |st'.entries| :: 1 <= st'.entries[i].line <= |lines|)
            && (forall i, j | 0 <= i < j < |st'.entries| :: st'.entries[i].line < st'.entries[j].line)
            && (forall i | 0 <= i < |st'.entries| :: kind(lines[st'.entries[i].line - 1]).Head?)
  {
    assert forall i | 0 <= i < |front| :: lines[i] == front[i];
    assert lines[|front|] == text;
    if k.Plain? && st.continuing && st.entries != [] {
      var g := Grown(st.entries, text);
      assert forall i | 0 <= i < |g| :: g[i].line == st.entries[i].line;
    }
  }
}
