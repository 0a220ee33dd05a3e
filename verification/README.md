# txnproof in Dafny

go-txnproof watches the statements an application runs and reports logical boundaries (a use case, a
request, a job) whose writes were not atomic. It decides this twice, with two independent state machines:

- on the client, a `Session` per connection hands out transaction ids, a `Boundary` collects the
  statements attributed to it, counts distinct writing transactions plus auto-commit writes, and reports a
  violation at two or more of these units unless an in-code mark or the allowlist covers the count;
- on the server's log, an adapter parses lines into statements with transaction identities (`mycheck`
  reconstructs them from the interleaved threads of a MySQL general log, `pgcheck` reads them from the
  PostgreSQL line prefix), and `crosscheck.Check` groups the writes by identity.

This project models both machines, the protocol around a boundary, the throttling reporter and the text
layer below them, and proves what they promise: over every interleaved run, for every byte string, for
every clock.

## Structure

| files | content |
|---|---|
| `Classify`, `ClassifyLaws`, `ClassifyWords` | statement classification and token helpers as loops, their unbounded specification, its laws, and what it decides word by word |
| `Reconstruct`, `Histories`, `Labels`, `CrossCheck` | mycheck's replay, which statements it yields and how each is named by what its thread did before, the identities it hands out, and `Check` |
| `TxIds`, `Simulation`, `Agreement`, `Stretches` | the client's and the server's attribution run side by side on one trace; the invariant that relates them; counts compared; how long ids are fresh |
| `EndToEnd`, `Shares`, `Pipeline` | verdict against report, for a whole trace and for any share of one; the way from printed log lines to units |
| `Samples` | real statements and log lines, and what they show at the limits of the general results |
| `Ledgers`, `Verdicts`, `Allowlists`, `Boundaries` | a boundary's content and verdict as values; the `Boundary`, `Detector`, `Session`, `Allowlist` objects proved against them |
| `Lifecycle`, `Attribution` | all interleavings of recording, marking and finishing; conservation of statements over nested boundaries |
| `Throttle`, `ThrottleLaws`, `ThrottleNames`, `Utf8`, `WriteKey`, `WriteKeyLaws` | the throttling reporter, its guarantees over whole runs per key and per reported name, the streamed throttle key and what it identifies |
| `MyLog`, `MyLogRoundTrip`, `MyLogHeads`, `Banners`, `PgLog`, `PgLogLaws`, `PgLogRoundTrip`, `PgLogHeads`, `HeadTexts`, `Matching` | both log parsers, which lines they take for what, their identities and round trips |
| `Scenario`, `Markers` | marker-delimited slices of a log |
| `Text`, `Decimals`, `Images`, `Filters` | byte strings, decimal numbers, counting elements and counting through a correspondence, filtering in order |

Objects that the source updates in place are classes (`Boundary`, `Detector`, `Session`, `Allowlist`,
`Reporter`, `ThrottlingReporter`), each with a value-level view that its methods are proved to transform; loops
are methods with invariants, proved against functions; the theorems are lemmas about those functions.

## Main results

- **The two counts differ by the splits, exactly.** On every interleaved trace of any number of connections,
  the server-side check counts the client's units plus one for each *split*: each write that starts another
  server unit inside a client transaction that had already written (`Agreement.ServerCountsEverySplit`). So
  server units map onto client units, a client violation is always non-atomic for the server
  (`EndToEnd.ViolationIsNonAtomic`; `Shares.ScenarioViolation` for a boundary around one scenario of a busy
  log), the counts agree if and only if there is no split, and there is none when
  no textual BEGIN and no implicit commit runs inside an open transaction (`Agreement.UndisturbedHasNoSplit`).
  A driver-level begin inside a transaction needs no exception: it is a new unit on both sides.
  `Pipeline.PrintedLogCounts` carries this down to the lines of the log.
- **Ids are fresh for 2^64 - 1 draws, and on no run for longer.** (`Stretches.SameIdIffSameStretch`,
  `Stretches.IdsFailIff`)
- **A boundary reports once, and what it locked**, in every interleaving
  (`Lifecycle.OutcomeOfEveryInterleaving`); an allowlist entry is used exactly when it has suppressed something
  since it was last added (`Lifecycle.UsedIffSuppressed`).
- **A statement's server identity is its thread's history**: every Query or Execute entry yields one statement, and
  its name counts what that thread began and ran before (`Histories.ExecutedEntries`, `Histories.IdentityByHistory`).
- **The throttle loses nothing and keeps its rate**, for any clock, even one that runs backwards; said per boundary
  name, per pair of names and per normalized text (`ThrottleNames.FirstIsForwarded`, `ThrottleNames.RateByName`,
  `ThrottleNames.EachNameAlone`).
- **The text layer means what it should**: the bounded-buffer classifier is the unbounded one, the streamed key
  is split, join and cut, both parsers undo the printing of a log and take exactly the printed lines for entries,
  scenarios slice independently; where a promise fails, the exact condition and a failing input are given.

## Where code and documentation differ

The model follows the code.

- `crosscheck/crosscheck.go:48` says the server-side verdict matches the client's semantics. It does exactly
  when no split turns an atomic boundary into several server units: `EndToEnd.VerdictsAgreeIff`; it does not on
  the statements of `Samples.DdlSplitsInThree`.
- `session.go:74-75` says a textual BEGIN inside a transaction is a no-op, matching the server; the MySQL
  adapter opens a new transaction (`mycheck/parse.go:127-132`). This is one of the two sources of splits:
  `Agreement.TextualBeginSplits`, `Samples.BeginSplitsInTwo`.
- `crosscheck/scenario.go:10` says quotes in a label are escaped. Escaping keeps the literal well-formed, but a
  label with a quote also opens the scenario of its part before the quote: `Markers.OpensOnlyItsOwnIff`.
- `classify.go:95` speaks of block comments; the closing mark is searched from the opening slash on
  (`classify.go:109`), so a comment is skipped as a whole exactly when its body neither holds a closing mark nor
  starts with a slash: `ClassifyLaws.BlockSkippedIff`.
- `throttle.go:165-166` says nestings are throttled per pair of names. With a NUL in an outer name two pairs can share
  a window: `ThrottleNames.PairsShareIff`, and at an input `ThrottleNames.FirstHeldBack`.
- `classify.go:45` says leading comments are skipped; for a statement starting with WITH their words are still
  scanned: `ClassifyLaws.TriviaInvisibleIff`, and at an input `Samples.CommentMakesWrite`.
- `mycheck/parse.go:29-31` admits that a continuation line can be taken for a banner; so can one that looks like an
  entry, and these are the only two failures: `MyLogRoundTrip.RoundTripIff`, and at an input of either kind
  `Samples.LookalikesBreakRoundTrip`.

## Model

| member | source | states |
|---|---|---|
| `Agreement.ServerCountsEverySplit` | mycheck/parse.go:98-158 | for every trace and classifier, distinct identities among the log's writes = the client's units + the number of splits |
| `Agreement.ServerUnitsMapOntoClientUnits` | mycheck/parse.go:122-155 | two writes with the same logged identity belong to the same client unit |
| `Agreement.ClientViolationIsNonAtomic` | crosscheck/check.go:31-33 | the client never counts more than the check does, so two client units mean a non-atomic report |
| `Agreement.CountsAgreeIffNoSplit` | crosscheck/crosscheck.go:48-53 | the counts are equal exactly without splits, and exactly when client units and logged identities correspond one to one |
| `Agreement.UndisturbedHasNoSplit` | session.go:53-63 | no textual BEGIN and no implicit commit inside an open transaction: no split, whatever driver-level begins do |
| `Agreement.UndisturbedCountsAgree` | driver.go:112-119 | hence equal counts on every such trace |
| `Agreement.ImplicitCommitSplitsInThree` | README.md:502 | BEGIN, write, DDL, write, COMMIT: one unit for the client, three for the server |
| `Agreement.TextualBeginSplits` | mycheck/parse.go:126-132 | BEGIN, write, BEGIN, write: one split, one unit for the client, two for the server |
| `Samples.DdlSplitsInThree` | README.md:502 | the documented false negative on real statements, under the default classifier and the real implicit-commit test |
| `Samples.BeginSplitsInTwo` | session.go:74-75 | a textual BEGIN inside a transaction, on real statements |
| `Agreement.ClientCount` | detector.go:390-396 | what a boundary counts over a trace is the number of distinct client units of its writes |
| `Agreement.ServerSide` | mycheck/parse.go:155 | the identities among the log's writes are the rendered tags of the trace's writes |
| `Simulation.Holds` | session.go:53-83 | the invariant of the joint run: who holds which id, which server transaction belongs to it, whether it has written, and the count of splits |
| `Simulation.AdvanceInv` | mycheck/parse.go:107-154 | every single event keeps that invariant |
| `EndToEnd.ViolationIsNonAtomic` | detector.go:453-465 | a reported violation of a boundary around the trace is non-atomic for the server with at least as many units, under any mark, allowlist and record cap |
| `EndToEnd.VerdictsAgreeIff` | crosscheck/crosscheck.go:46-53 | without allowances, verdict and report disagree exactly when the boundary has one unit and a split |
| `EndToEnd.UndisturbedVerdictsAgree` | crosscheck/check.go:78-85 | they agree on every trace without such a disturbance |
| `EndToEnd.LogIsIdentified` | crosscheck/crosscheck.go:26-30 | a reconstructed log never makes the check fail for a missing identity |
| `Pipeline.PrintedLogCounts` | mycheck/parse.go:59-86 | printing a log of a trace (with banners, unrelated entries, multi-line statements), parsing, replaying and counting it gives client units + splits |
| `Pipeline.SameWriteIds` | mycheck/parse.go:114-121 | entries that execute nothing, and line numbers, do not influence any write's identity |
| `Shares.ShareViolation` | detector.go:453-465 | a violation of a boundary with any share of any run: the server ran the share's writes in at least as many transactions |
| `Shares.ScenarioViolation` | crosscheck/scenario.go:25-49 | a boundary around a scenario: what Scenario cuts out of the log of any run has at least as many write units as its violation |
| `Shares.SliceIds` | crosscheck/scenario.go:30-49 | the identities of a sliced scenario's writes are those of the writes between the markers |
| `Stretches.SameIdIffSameStretch` | session.go:53-83 | at any two moments of a run, the same nonzero id means the same Session in the same stretch |
| `Stretches.StretchIsContiguous` | session.go:55-60 | a Session that holds an id at two moments of one stretch held it all the time between |
| `Stretches.BoundaryCountsStretches` | detector.go:406 | whatever share of a run a boundary receives, its units are the distinct (Session, stretch) pairs with a write plus the auto-commit writes |
| `Stretches.TransactionsAreStretches` | detector.go:123-131 | distinct ids and distinct stretches are equally many at any set of positions |
| `Stretches.WrappedIds` | detector.go:91 | a run that reaches the bound: the n-th begin yields n modulo 2^64 |
| `Stretches.IdsFailIff` | detector.go:91 | on every trace, some draw yields 0 if and only if at least 2^64 ids are drawn |
| `Reconstruct.ReconstructEntries` | mycheck/parse.go:98-158 | the loop returns the specified replay, statement by statement |
| `Reconstruct.ReconstructEntry` | mycheck/parse.go:101-155 | one entry moves only its own thread's state and adds at most one statement |
| `Reconstruct.Identify` | mycheck/parse.go:122-154 | the identity and the next state of an executed statement |
| `Histories.ExecutedEntries` | mycheck/parse.go:107-121 | over any log, the entries behind the statements are, in order, exactly those whose command is Query or Execute; Connect, Prepare, Init DB, Quit and the rest contribute nothing |
| `Histories.StatementsSay` | mycheck/parse.go:155 | each statement has its entry's text and line and the kind of that text |
| `Histories.IdentityByHistory` | mycheck/parse.go:122-154 | in any interleaving, the statement of an entry is named by its own thread's past: inside a transaction (a BEGIN with no COMMIT, ROLLBACK, implicit commit or Quit since) by the number of BEGINs so far, else by the number of statements so far |
| `Histories.NameSays` | mycheck/parse.go:160-161 | the name as it is rendered, and the number read back from it |
| `Reconstruct.NonInterference` | mycheck/parse.go:98-158 | restricting the output to one thread is running that thread's entries alone, for every interleaving |
| `Labels.ShowInjective` | mycheck/parse.go:160-161 | rendered identities are equal only for equal thread, kind and number, for decimal thread ids |
| `Labels.ThreadLabels` | mycheck/parse.go:125-154 | statements sharing a transaction identity are a gap-free run whose first one, and only that, is a BEGIN; an auto-commit identity occurs once |
| `Labels.LabelsNameTheirThread` | crosscheck/crosscheck.go:26-30 | every identity is non-empty and names the statement's own thread |
| `CrossCheck.Check` | crosscheck/check.go:85-108 | units are the order-preserving filters of the writes by identity, counted by distinct identities; fails precisely on the first write without one |
| `CrossCheck.Group` | crosscheck/check.go:86-102 | the grouping loop's map and order are those of the writes read so far |
| `CrossCheck.UnitsPartitionWrites` | crosscheck/check.go:78-80 | every write is in exactly one unit and the unit sizes add up to the number of writes |
| `CrossCheck.UnitsAreFilters` | crosscheck/check.go:85-108 | each unit holds exactly the writes of one identity, in log order; no two units have the same identity and no write's identity is missing |
| `CrossCheck.UnitsFollowFirstAppearance` | crosscheck/check.go:26-28 | units come in the order in which their first writes came |
| `CrossCheck.IdsCount` | crosscheck/check.go:23-25 | the number of units is the number of distinct identities |
| `Ledgers.LedgerOfTimeline` | detector.go:376-396 | an open boundary's records are the longest prefix the cap allows, the rest is counted as truncated, and its units count the whole timeline |
| `Boundaries.Boundary.NoteWriteTx` | detector.go:152-176 | the inline array and the overflow map together are a set: the id is added, the count grows exactly for a new one |
| `Boundaries.Boundary.NoteInline` | detector.go:167-168 | a new id goes inline while there is room, and nothing has overflowed before that |
| `Boundaries.Boundary.NoteOverflow` | detector.go:169-174 | a new id past the capacity goes into the map, disjoint from the inline ones |
| `Boundaries.Boundary.CountsDistinct` | detector.go:123-127 | the count is the number of distinct ids noted |
| `Boundaries.Boundary.Record` | detector.go:371-396 | one statement's effect on everything the boundary holds; none once it is finished |
| `Boundaries.Boundary.AllowHere` | detector.go:275-284 | the last mark wins; none after the finish |
| `Boundaries.AllowNonAtomicHere` | detector.go:270-285 | marks the innermost boundary of the context, or does nothing |
| `Boundaries.Detector.NextTxID` | detector.go:91 | the next id of a wrapping 64-bit counter |
| `Boundaries.Detector.StartBoundary` | detector.go:317-344 | a fresh boundary shadows the outer one, with the attributes of the context and of all options and the last mark among them; every reporter that takes it hears of a nesting, when that is asked for |
| `Boundaries.Detector.Record` | detector.go:354-397 | the innermost boundary takes the statement; only a write without any boundary is reported, with the context's attributes, to every reporter that takes it |
| `Boundaries.Detector.FinishBoundary` | detector.go:399-466 | every reporter receives the verdict on what the boundary held, attributes included, and nothing on a second call; the allowlist changes only if it was asked |
| `Boundaries.Detector.Conclude` | detector.go:419-465 | the half outside the lock reports the verdict on its snapshot to every reporter that takes it |
| `Boundaries.Detector.Judge` | detector.go:419-462 | that verdict: stale allow, silence, or a violation with the mark's declined counts before the allowlist's |
| `Boundaries.Detector.Notify` | detector.go:463-465 | each entry of the reporter list receives the signal if it takes it, in list order, and nothing else |
| `Boundaries.Boundary.Close` | detector.go:400-411 | the half under the lock: finished is set, units and mark are those of that instant |
| `Boundaries.Boundary.Apply` | detector.go:225-238 | one option: a mark replaces the earlier one, attributes are appended |
| `Boundaries.LastOptionWins` | detector.go:225-238 | among the options of a start the last mark wins; attributes leave it alone |
| `Boundaries.AttrsInOrder` | detector.go:340-342 | attributes of several options are appended in the order of the options |
| `Boundaries.CopiesAre` | detector.go:463-465 | a reporter hears a violation once for every time it is listed, another signal only if it takes it |
| `Boundaries.InnermostDerived` | detector.go:182-187 | a context derived any number of times from a boundary's leads to that boundary, whatever the boundary was started in; derived from a bare one, to none |
| `Boundaries.Detector.RecordDerived` | detector.go:354-397 | hence a statement recorded under such a context changes that boundary as if recorded under its own, and nothing is reported |
| `Boundaries.Session.Transition` | session.go:54-61 | how a statement's kind moves the held id |
| `Boundaries.Session.ObserveKind` | session.go:53-63 | the statement is recorded under the id after the transition |
| `Boundaries.Session.Observe` | session.go:46-48 | the same with the Detector's classification, the report of an unbounded write included |
| `Boundaries.Session.BeginTx` | session.go:79 | a fresh id, even inside a transaction |
| `Boundaries.Session.EndTx` | session.go:83 | no id is held any more |
| `Allowlists.CoversWriteUnits` | detector.go:293-303 | true exactly when no counts are given or the count is among them |
| `Allowlists.Allowlist.Add` | allowlist.go:44-50 | a new, unused entry replaces any earlier one of that name |
| `Allowlists.Allowlist.Allow` | allowlist.go:58-70 | suppresses and marks used exactly when the entry covers the count; otherwise returns the declined counts and changes nothing |
| `Verdicts.MechanismsDecideIdentically` | detector.go:291-292 | a mark and an allowlist entry with the same counts suppress the same violations, and a violation is suppressed exactly when one of the two mechanisms alone would suppress it, whatever the other one's counts |
| `Verdicts.VerdictIs` | detector.go:419-462 | for every content, mark and allowlist: below two units a stale allow with the mark's reason or silence, else silence exactly when the mark or the entry has no counts or lists the units, else the violation with all its parts |
| `Verdicts.UnconstrainedSilences` | detector.go:294-296 | a mark or an entry without counts silences every violation |
| `Verdicts.CountsSilenceIff` | detector.go:297-302 | a mark or an entry with counts alone silences a violation exactly when one of them is its units |
| `Lifecycle.OutcomeOfEveryInterleaving` | detector.go:399-466 | in every interleaving at most one signal, none before the first finish; the content stays what it was at that instant and the report is the verdict on it |
| `Lifecycle.AfterFinish` | detector.go:413-417 | after the instant of finishing, everything the winner reads without the lock equals what it locked, until its report |
| `Lifecycle.BeforeFinish` | detector.go:354-397 | before it, the content is the timeline and the last mark of the history |
| `Lifecycle.AskedAtSomeMoment` | detector.go:442-446 | the allowlist state the verdict used is the allowlist's at a moment after the boundary was finished |
| `Lifecycle.UsedIffSuppressed` | allowlist.go:58-70 | an entry is used exactly when it suppressed a violation since it was last added, over every run with other boundaries on the same list |
| `Attribution.BoundariesHoldTheirTimelines` | detector.go:354-397 | in every run of nested boundaries each holds its own timeline and last mark up to its finish: records a prefix, recorded + truncated its length, units those of the whole |
| `Attribution.EveryStatementGoesOnePlace` | detector.go:182-187 | every observed statement, and every write, went to one boundary, was dropped by a finished one, or had none; never on to an outer boundary |
| `Attribution.GoesDerived` | detector.go:182-187 | in every run a statement under an n times derived context goes to the boundary it was derived from while that is open, and nowhere afterwards |
| `Attribution.UnboundedChannel` | detector.go:356-369 | the unbounded channel carries exactly the writes without any boundary |
| `Throttle.ThrottlingReporter.Admit` | throttle.go:108-126 | which reports pass and how the windows change, the cap failing open |
| `Throttle.ThrottlingReporter.Report` | throttle.go:130-134 | a violation passes when its window admits it, and moves only its own windows |
| `Throttle.ThrottlingReporter.ReportUnboundedWrite` | throttle.go:139-147 | the same for unbounded writes, keyed by the normalized text; nothing for a reporter that does not take them |
| `Throttle.ThrottlingReporter.ReportStaleAllow` | throttle.go:152-160 | the same for stale allows |
| `Throttle.ThrottlingReporter.ReportNestedBoundary` | throttle.go:165-173 | the same for nested boundaries, keyed by the pair |
| `Throttle.ThrottlingReporter.Snapshot` | throttle.go:202-212 | the suppression counts of all keys that have any |
| `ThrottleLaws.Conservation` | throttle.go:54-57 | submitted = forwarded + suppressed over any sequence, interval, cap and clock |
| `ThrottleLaws.KeyConservation` | throttle.go:54-57 | the same key by key: what was submitted under a key was forwarded or is counted under it |
| `ThrottleLaws.ForwardsAreSpaced` | throttle.go:119-123 | forwards of a tracked key are at least the interval apart |
| `ThrottleLaws.RateBound` | throttle.go:30-33 | wherever it starts, a window of any length T holds at most T / interval + 1 forwards of a tracked key |
| `ThrottleLaws.SuppressionsFollowAForward` | throttle.go:119-125 | a report is suppressed only less than one interval after an earlier forward of its key |
| `ThrottleLaws.TrackedKeys` | throttle.go:111-117 | the tracked keys are exactly the first ones ever submitted, up to the cap, and none is evicted |
| `ThrottleLaws.SignalsAreIndependent` | throttle.go:35-48 | each supported signal behaves as if it were alone: same windows, and the same reports forwarded in the same order |
| `ThrottleLaws.NoReportIsLost` | throttle.go:54-57 | for the four signals together: what was submitted was forwarded or is in that signal's snapshot |
| `ThrottleLaws.UnsupportedIsIgnored` | throttle.go:50-52 | a signal the wrapped reporter does not take is neither forwarded nor counted |
| `ThrottleNames.FirstIsForwarded` | throttle.go:130-173 | the first report of a boundary's violations, of its stale allows, of a pair or of a text is forwarded, whatever other names came before |
| `ThrottleNames.RateByName` | throttle.go:30-48 | forwards of one name are an interval apart, and any window of length T holds at most T / interval + 1 of them; for a text, when it is among the first 1024 |
| `ThrottleNames.EachNameAlone` | throttle.go:35-48 | for boundary names and pairs: what is forwarded of one name is what would be forwarded if no other name were ever reported |
| `ThrottleNames.UntrackedIsForwarded` | throttle.go:108-117 | a text that is not among the first 1024 is forwarded every time |
| `ThrottleNames.WriteWindows` | throttle.go:12-18 | the texts with a window are exactly the first 1024 |
| `ThrottleNames.NameConservation` | throttle.go:54-57 | name by name, what was submitted was forwarded or is in the snapshot under that name |
| `ThrottleNames.PairsShareIff` | throttle.go:165-173 | two nestings share a window exactly when they are the same pair or one is the other with the NUL between the names moved, which takes a NUL in an outer name |
| `ThrottleNames.FirstHeldBack` | throttle.go:165-173 | two pairs with such names, the second of which is held back on its first report |
| `WriteKey.UnboundedWriteKey` | throttle.go:221-246 | for every byte string: the first 200 bytes of the white-space-split, single-space-joined text |
| `WriteKey.TakeRune` | throttle.go:225-244 | one turn of the loop keeps the buffer a complete part of the key |
| `WriteKey.PutRune` | throttle.go:235-243 | the separator and as much of the rune as fits |
| `WriteKey.StreamIsJoin` | throttle.go:214-215 | the streamed form is split and join |
| `WriteKeyLaws.KeyIsPrefix` | throttle.go:221-246 | the key is the first 200 bytes of the normalized text |
| `WriteKeyLaws.NormalKeepsWords` | throttle.go:214-220 | normalizing keeps the words, and normalizing twice changes nothing more |
| `WriteKeyLaws.SameNormalIffSameWords` | throttle.go:214-220 | two statements have the same normalized text exactly when they have the same words |
| `WriteKeyLaws.GapsDoNotMatter` | throttle.go:225-234 | what Unicode white space, and how much of it, stands between two parts never changes the key |
| `Utf8.DecodeEncode` | throttle.go:226-229 | a well-formed rune (section 4 of RFC 3629) is decoded as itself, whatever follows |
| `Utf8.DecodeOnlyEncodings` | throttle.go:227-229 | everything else is one byte of the replacement rune |
| `Classify.DefaultClassifier` | classify.go:57-93 | the classification through the 8-byte buffer is the one on unbounded words |
| `Classify.StripLeading` | classify.go:97-118 | the loop removes exactly the leading blanks and comments of the specification |
| `Classify.LeadingToken` | classify.go:128-135 | the maximal identifier run that is left at the start |
| `Classify.AsciiUpperToken` | classify.go:142-154 | upper-cases into the buffer, leaves its rest alone, refuses what does not fit |
| `Classify.SecondToken` | mycheck/parse.go:226-238 | the word behind the leading one |
| `Classify.SecondTokenIsTo` | classify.go:158-173 | true exactly when the second word is TO in any letter case |
| `Classify.ContainsWriteToken` | classify.go:183-204 | true exactly when some maximal identifier run is, upper-cased, one of the six keywords |
| `ClassifyWords.KeywordDecides` | classify.go:68-78 | behind any comments, in any letter case, as a whole word, each unconditional keyword decides its kind whatever follows |
| `ClassifyWords.RollbackDecides` | classify.go:79-84 | ROLLBACK and ABORT end the transaction, unless TO follows as a whole word behind any blanks and comments |
| `ClassifyWords.WithDecides` | classify.go:85-89 | WITH is a write exactly when some word of the whole text is one of the six scanned ones |
| `ClassifyWords.NoKeywordIsOther` | classify.go:90-92 | a statement that starts with none of the keywords is of the other kind |
| `ClassifyWords.EndlessIsOther` | classify.go:97-118 | so is one that is swallowed by a comment without an end |
| `ClassifyWords.SavepointKeepsTransaction` | session.go:54-61 | a Session keeps its id across ROLLBACK TO and loses it at ROLLBACK |
| `ClassifyWords.ImplicitCommitDecides` | mycheck/parse.go:163-186 | the implicit commits by word: CREATE and DROP unless TEMPORARY follows, the fifteen others always |
| `ClassifyWords.NoLeaderCommitsNothing` | mycheck/parse.go:177-181 | no other statement commits implicitly |
| `ClassifyLaws.CaseInsensitive` | classify.go:57-93 | classification ignores ASCII letter case of any byte string, for any keyword table |
| `ClassifyLaws.ImplicitCommitCaseInsensitive` | mycheck/parse.go:177-186 | so does the implicit-commit test |
| `ClassifyLaws.HasWordSplits` | classify.go:183-204 | behind a non-identifier byte the scan of a concatenation is the disjunction of the parts |
| `ClassifyLaws.StripAll` | classify.go:95-118 | any sequence of blanks and complete comments disappears |
| `ClassifyLaws.TriviaInvisibleIff` | classify.go:45-54 | it changes the classification exactly when the leading word asks for the scan, the statement holds no scanned keyword and a comment does; then from a read to a write |
| `Samples.CommentMakesWrite` | classify.go:85-89 | a statement that is a read becomes a write behind a comment |
| `ClassifyLaws.TriviaInvisibleToImplicitCommit` | mycheck/parse.go:188-215 | the implicit-commit test never sees it, `#` comments included |
| `ClassifyLaws.BlockSkippedIff` | classify.go:108-114 | a block comment is skipped as a whole exactly when its body holds no closing mark and does not start with a slash |
| `ClassifyLaws.OverlapCloses` | classify.go:108-114 | the three bytes slash, star, slash are a complete comment |
| `MyLog.ParseEntries` | mycheck/parse.go:63-81 | the loop returns the specified reading of the lines |
| `MyLog.LineNumbersIncrease` | mycheck/parse.go:42-48 | entries carry the strictly increasing numbers of the lines that start them |
| `MyLogRoundTrip.RoundTripIff` | mycheck/parse.go:53-55 | printed entries, with banner lines and what stands behind those between them, come back exactly when no line inside an entry looks like an entry or a banner and none behind a banner looks like an entry |
| `MyLogRoundTrip.HeadMatches` | mycheck/parse.go:14-21 | every printed first line is recognized with its thread, command and text |
| `MyLogHeads.HeadIffPrinted` | mycheck/parse.go:14-21 | a line is read as an entry's first line exactly when it is one of those, and with what that one says |
| `HeadTexts.MyHeadIff` | mycheck/parse.go:14-21 | the same spelled out byte by byte: stamp, fraction, zone, padding, thread, command and argument |
| `Banners.BannerIff` | mycheck/parse.go:23-40 | a banner line is exactly a column header with any white space, a version line or a port line |
| `Banners.BannerCloses` | mycheck/parse.go:74-77 | each of those closes the entry before it, unless it starts with a digit and so could be an entry's first line |
| `Text.LinesOfGlue` | mycheck/parse.go:78-80 | a reassembled text has exactly the lines it was reassembled from |
| `Samples.LookalikesBreakRoundTrip` | mycheck/parse.go:27-31 | a real query with such a continuation line does not come back |
| `Samples.Lookalikes` | mycheck/parse.go:27-40 | a continuation line of either kind |
| `PgLog.Parse` | pgcheck/parse.go:28-93 | under any line prefix: reading all lines and then classifying the complete texts in place |
| `PgLog.ReadStatements` | pgcheck/parse.go:32-84 | under any line prefix, the loop returns the specified reading of the lines |
| `PgLogLaws.LineIdentifies` | pgcheck/parse.go:55-81 | a line's identity is exactly: its virtual id when it has one whose local part is not zero, else its real id when that is not zero, else empty |
| `PgLogLaws.ParsedIdentities` | pgcheck/parse.go:23-27 | every statement of every log has that identity, from the ids on the line it starts at |
| `PgLogLaws.StatementsStart` | pgcheck/parse.go:55-83 | under any prefix, each statement starts at the line it is numbered with, has its identity and text from there, and only grows |
| `PgLogLaws.IdentityIsNeverZero` | pgcheck/parse.go:66-80 | an identity never ends in "/0" and is never "xid 0" |
| `PgLogRoundTrip.RoundTrip` | pgcheck/parse.go:20-27 | printed statements come back whole, whatever their further lines hold; other messages contribute nothing |
| `PgLogRoundTrip.HeadMatches` | pgcheck/parse.go:12-18 | every printed first line is recognized with its ids and text, with or without duration, simple or prepared |
| `PgLogHeads.HeadIffPrinted` | pgcheck/parse.go:12-18 | a line is read as a statement's first line exactly when it is one of those, and with what that one says |
| `HeadTexts.PgHeadIff` | pgcheck/parse.go:12-18 | the same spelled out byte by byte, with the identity the ids on the line give |
| `Scenario.Scenario` | crosscheck/scenario.go:30-49 | the statements strictly between the first begin marker and the first end marker behind it, or which marker is missing |
| `Scenario.SliceIsUnique` | crosscheck/scenario.go:25-29 | that description leaves no choice |
| `Scenario.SliceSays` | crosscheck/scenario.go:30-49 | which result it is, with the marker literals spelled out: begin missing, end missing, or the statements between the two |
| `Markers.OpensOnlyItsOwnIff` | crosscheck/scenario.go:8-13 | a begin marker opens its own scenario and no other exactly when its label holds no quote |
| `Markers.OnlyOwnLiteral` | crosscheck/scenario.go:21-23 | in a quote-free label's marker no other marker literal occurs |
| `Markers.BeginNeverEnds` | crosscheck/scenario.go:11-19 | such a begin marker ends no scenario |
| `Markers.MarkerReadsBack` | crosscheck/scenario.go:8-23 | a marker selects one string literal, which an SQL reader reads back as the tag, the kind and the label, whatever quotes that holds |
| `Markers.MarkersSay` | crosscheck/scenario.go:8-19 | both marker statements, spelled out for a label without quotes |
| `Markers.SlicesInner` | crosscheck/scenario.go:30-49 | one scenario in a log comes back exactly if nothing before it opens it and nothing in it closes it |
| `Markers.ScenariosSliceIndependently` | crosscheck/scenario.go:25-29 | in a log of many scenarios with distinct quote-free labels each slices out exactly its own statements |

## Left out

- ThrottleNames.EachNameAlone: not for the texts of unbounded writes, whose windows are capped together; for those the rate and the fail-open law are stated separately.
- Time stamps, the rendering of reports and the context passed along with them; a reporter is what it has received and which of the optional signals it takes.
- Attribute values are texts, and the function that derives attributes from a context is any pure function of it.
- Custom classifiers: the simulation theorems take any function from text to kind and any implicit-commit test, shared by both sides; only the default ones are modelled as code.
- Context values other than the boundary, cancellation and deadlines; `InBoundary` is a start followed by a finish.
- Reporter bodies: a throttling reporter wraps a plain one; throttles around throttles are not composed.
- Mutexes: an object's method is one locked section, and `Lifecycle` interleaves those sections and the unlocked reads between them, for a single reporter. Marks and counts are values, so the copying of a caller's slice is not visible.
- Throttle.ThrottlingReporter.Admit: returns the new windows instead of updating a map passed by reference; the four fields are distinct maps, so nothing is shared.
- Loop bodies split off: `NoteInline`, `NoteOverflow`, `Keep`, `Count`, `CountTx`, `CountAuto`, `SetMark`, `Apply`, `Close`, `Conclude`, `Judge`, `NewBoundary`, `RecordHere`, `Group`, `Collect`, `Append`, `ReconstructEntry`, `Identify`, `TakeRune`, `PassSpace`, `PutWord`, `NextRune`, `PutRune` and `CopyInto` are parts of one function each in the source; `RecordDerived` is a caller of `Record`.
- Integer widths other than the 64-bit transaction counter: counts and line numbers are unbounded, and so is the clock.
- PgLog.Parse: takes the line prefix as any function from a line to captures and rest, so every compiled or user-supplied pattern is covered, but `CompileLogLinePrefix` itself is not modelled; the laws about identities and the round trip are about the default prefix.
- Regular expressions are hand-written matchers; `HeadTexts.MyHeadIff`, `HeadTexts.PgHeadIff` and `Banners.BannerIff` say exactly which lines they accept.
- Line splitting: the input is a sequence of lines; the scanner's 4 MB limit, its errors and its dropping of a final carriage return are not modelled.
- Pipeline.PrintedLogCounts: a driver may send further statements of its own around a transaction (isolation levels, for instance); a trace has to list those as statements.
- A server-side transaction that the client never learns of (a dropped connection without a Quit entry) and statements executed with a detached context: a trace holds the same statements on both sides.
- Labels.ShowInjective: requires decimal thread ids, which is all a log line can carry.
- `rejectAutocommitChange` and `containsToken` of mycheck: the same token scan as the one modelled, used for an error message.
- `UnusedEntries`, `baseline.go`, `reporter.go`: sorting, files, JSON and formatting around a set of names.
- `driver.go`, `nulldb.go`, `e2e`, `e2e-mysql`, `examples`: forwarding to interfaces outside the repository; only the calls of `Session` methods enter the model, as events.
