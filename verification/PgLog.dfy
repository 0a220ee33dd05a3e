/** pgcheck's Parse: server-log lines into statements with identities, under any line prefix. */
module PgLog {
  import opened Text
  import opened Classify
  import opened CrossCheck
  import opened Matching

  // ----- lines --------------------------------------------------------------------------------

  /** What a line prefix captures (an `xid` it lacks is empty) and what is left of the line behind it. */
  datatype Prefix = Prefix(xid: string, vxid: Option<string>, body: string)

  /** The configured prefix: a compiled log_line_prefix or a user's own pattern. */
  type PrefixMatcher = string -> Option<Prefix>

  /** digits, slash, digits */
  function VxidLength(s: string): (v: Option<nat>)
    ensures v.Some? ==> v.value <= |s|
  {
    var n := Span(s, Digits());
    if n == 0 then None
    else
      match Lit(s[n..], "/")
      case None => None
      case Some(r) =>
        var m := Span(r, Digits());
        if m == 0 then None else Some(n + 1 + m)
  }

  /** "%x %v " behind the process id: the real id, then a virtual one or nothing, each with a blank. */
  function MatchIds(s: string): Option<Prefix> {
    var n := Span(s, Digits());
    if n == 0 then None
    else
      match Lit(s[n..], " ")
      case None => None
      case Some(r) => MatchVirtual(s[..n], r)
  }

  /** "%v ", a virtual id or nothing */
  function MatchVirtual(xid: string, r: string): Option<Prefix> {
    var v := VxidLength(r);
    if v.Some? && Lit(r[v.value..], " ").Some? then
      Some(Prefix(xid, Some(r[..v.value]), Lit(r[v.value..], " ").value))
    else
      match Lit(r, " ")
      case None => None
      case Some(body) => Some(Prefix(xid, None, body))
  }

  /** "[%p] %q" and what follows */
  function MatchProcess(s: string): Option<Prefix> {
    match Lit(s, " [")
    case None => None
    case Some(s) =>
      match Some1(s, Digits())
      case None => None
      case Some(s) =>
        match Lit(s, "] ")
        case None => None
        case Some(s) => MatchIds(s)
  }

  /** The default prefix, "%m [%p] %q%x %v ". */
  function MatchPrefix(s: string): Option<Prefix> {
    match Shape(s, "dddd-dd-dd dd:dd:dd.")
    case None => None
    case Some(s) =>
      match Some1(s, Digits())
      case None => None
      case Some(s) =>
        match Lit(s, " ")
        case None => None
        case Some(s) =>
          match Some1(s, NonWhites())
          case None => None
          case Some(s) => MatchProcess(s)
  }

  predicate InNumber(c: char) {
    IsDigit(c) || c == '.'
  }

  function Numbers(): char -> bool {
    c => InNumber(c)
  }

  /** The optional duration field; the text itself when there is none. */
  function AfterDuration(s: string): string {
    match Lit(s, "duration: ")
    case None => s
    case Some(r) =>
      match Some1(r, Numbers())
      case None => s
      case Some(r) =>
        match Lit(r, " ms")
        case None => s
        case Some(r) =>
          match Some1(r, Whites())
          case None => s
          case Some(r) => r
  }

  /** One optional white-space character before the statement. */
  function DropOne(s: string): string {
    if s != "" && IsWhite(s[0]) then s[1..] else s
  }

  /** The statement a log message carries. */
  function MatchBody(s: string): Option<string> {
    match Lit(s, "LOG:")
    case None => None
    case Some(r) =>
      match Some1(r, Whites())
      case None => None
      case Some(r) => MatchStatement(AfterDuration(r))
  }

  /** "statement:" or "execute <name>:", then the statement */
  function MatchStatement(r: string): Option<string> {
    match Lit(r, "statement:")
    case Some(t) => Some(DropOne(t))
    case None =>
      match Lit(r, "execute ")
      case None => None
      case Some(r) =>
        match Lit(r[Span(r, Except(':'))..], ":")
        case None => None
        case Some(t) => Some(DropOne(t))
  }

  /** The identity a line gives its statement. */
  function Identity(xid: string, vxid: Option<string>): string {
    if vxid.Some? && vxid.value != "" && !EndsWithZero(vxid.value) then vxid.value
    else if xid != "" && xid != "0" then "xid " + xid
    else ""
  }

  predicate EndsWithZero(s: string) {
    |s| >= 2 && s[|s| - 2..] == "/0"
  }

  /** A continuation line, the first line of a statement, or anything else. */
  datatype LineKind = More(text: string) | First(txID: string, sql: string) | Skip

  function KindOfLine(prefix: PrefixMatcher, s: string): LineKind {
    if "\t" <= s then More(s[1..])
    else
      match prefix(s)
      case None => Skip
      case Some(p) =>
        match MatchBody(p.body)
        case None => Skip
        case Some(sql) => First(Identity(p.xid, p.vxid), sql)
  }

  /** The reading of single lines under a prefix. */
  function Under(prefix: PrefixMatcher): string -> LineKind {
    s => KindOfLine(prefix, s)
  }

  // ----- specification of the loop ------------------------------------------------------------

  datatype Scan = Scan(stmts: seq<Statement>, continuing: bool, lines: nat)

  const START := Scan([], false, 0)

  function Grown(stmts: seq<Statement>, text: string): seq<Statement>
    requires stmts != []
  {
    var last := stmts[|stmts| - 1];
    stmts[..|stmts| - 1] + [last.(sql := last.sql + "\n" + text)]
  }

  function ReadAs(st: Scan, k: LineKind): Scan {
    match k
    case More(text) =>
      Scan(if st.continuing && st.stmts != [] then Grown(st.stmts, text) else st.stmts, st.continuing, st.lines + 1)
    case First(txID, sql) =>
      Scan(st.stmts + [Statement(sql, Other, txID, st.lines + 1)], true, st.lines + 1)
    case Skip => Scan(st.stmts, false, st.lines + 1)
  }

  /** The loop, for any reading of single lines. */
  function ReadLines(kind: string -> LineKind, st: Scan, lines: seq<string>): Scan {
    if lines == [] then st
    else ReadAs(ReadLines(kind, st, lines[..|lines| - 1]), kind(lines[|lines| - 1]))
  }

  /** The statements once complete, each classified by its whole text. */
  function Classified(classify: string -> Kind, stmts: seq<Statement>): (r: seq<Statement>)
    ensures |r| == |stmts|
    ensures forall i | 0 <= i < |r| :: r[i] == stmts[i].(kind := classify(stmts[i].sql))
  {
    seq(|stmts|, i requires 0 <= i < |stmts| => stmts[i].(kind := classify(stmts[i].sql)))
  }

  function Parsed(prefix: PrefixMatcher, classify: string -> Kind, lines: seq<string>): seq<Statement> {
    Classified(classify, ReadLines(Under(prefix), START, lines).stmts)
  }

  // ----- the code -----------------------------------------------------------------------------

  method ReadStatements(prefix: PrefixMatcher, lines: seq<string>) returns (stmts: seq<Statement>)
    ensures stmts == ReadLines(Under(prefix), START, lines).stmts
  {
    stmts := [];
    var continuing := false;
    ghost var kind := Under(prefix);
    for line := 0 to |lines|
      invariant Scan(stmts, continuing, line) == ReadLines(kind, START, lines[..line])
      invariant continuing ==> stmts != []
    {
      var text := lines[line];
      assert lines[..line + 1][..line] == lines[..line];
      assert ReadLines(kind, START, lines[..line + 1]) == ReadAs(ReadLines(kind, START, lines[..line]), kind(text));
      match KindOfLine(prefix, text) {
        case More(more) =>
          if continuing {
            stmts := Grown(stmts, more);
          }
        case First(txID, sql) =>
          stmts := stmts + [Statement(sql, Other, txID, line + 1)];
          continuing := true;
        case Skip =>
          continuing := false;
      }
    }
    assert lines[..|lines|] == lines;
  }

  /** Parse: read all lines, then classify each statement in place. */
  method Parse(prefix: PrefixMatcher, classify: string -> Kind, lines: seq<string>) returns (stmts: seq<Statement>)
    ensures stmts == Parsed(prefix, classify, lines)
  {
    var read := ReadStatements(prefix, lines);
    stmts := read;
    for i := 0 to |read|
      invariant |stmts| == |read|
      invariant forall k | 0 <= k < i :: stmts[k] == read[k].(kind := classify(read[k].sql))
      invariant forall k | i <= k < |read| :: stmts[k] == read[k]
    {
      stmts := stmts[i := stmts[i].(kind := classify(stmts[i].sql))];
    }
    assert stmts == Classified(classify, read);
  }
}
