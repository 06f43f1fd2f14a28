# Verified model of docker-fclones-scheduler

This project models the wrapper that schedules fclones in a container, and proves what its code promises for
every input, every run and every interleaving. It covers four connected parts.

**Stderr passthrough.** fclones' diagnostics pass through a line-splitting writer with a bounded partial-line buffer
(`LineFilter` as a state machine, `LineWriter` as the object, `Lines` for the splitting), a noise filter that reads
the level positionally (`NoiseFilter`), and a control-byte sanitiser over raw bytes (`Sanitize`, read back in
`Unescape`) built on UTF-8 as section 4 of RFC 3629 defines it (`Utf8`). `CapBuf` is the capped capture beside it.

**Arguments.** A quote and escape state machine (`Args`), the startup gates over its tokens and the command lines
built from accepted values (`ArgGates`), how fclones' option parser reads those (`Clap`, `CommandLine`), and the
committed list of reviewed options (`FlagList`).

**Numbers and reports.** The size printer and parser (`ByteSize`), the action summary (`ActionSummary`), the strict
streamed report decode (`Report`) and the doubly capped duplicate log (`DuplicateLog`).

**Protocols.** The scan lock and report files of any number of processes on one `/cache` (`CacheLock`), and the
routing of run outcomes to the health marker and the last-run record, with shutdown and restarts (`Daemon`).

`Search` and `Text` hold the Go library functions the code calls, specified by their meaning. An object whose methods
update fields in place is a class; each of its methods is tied to a pure state function, and the theorems are about
runs of that function.

Assumptions, in each case the least that is needed:

- `textsafe.IsUnsafeNonASCII` is any predicate that is false on ASCII (`Sanitize.RunePolicy`).
- `unicode.ToLower` and `unicode.ToUpper` are any rune maps that act as usual on ASCII.
- clap reads `fclones group` tokens as its defaults say: a long option with "=" or the next token as its value, a
  cluster of short switches that may end in an option and its value, a token that looks like an option never as a
  value, and paths alone behind "--". Options and arities are those of the committed help text.
- `strconv.ParseFloat` reads plain decimals of at most 300 characters exactly and may do anything on other text.
- `%.1f` prints any nearest number of tenths; float64 rounding is replaced by exact arithmetic.
- The underlying sink of the line filter answers each write by an arbitrary script, partial writes included.
- The flock is exclusive and the kernel releases it when its process dies. Temp-file names are unused when created.
- The health latch blocks a healthy write once the drain has begun, and a failed record write leaves the old record.
- A record is due when there is none or it is at least one interval old.

All `.dfy` files are checked together: `dafny verify dfyconfig.toml`.

## Model

| member | source | states |
|---|---|---|
| Utf8.DecodeEncode | internal/linefilter/linefilter.go:125-126 | the decoder returns every Unicode scalar value, with its length, from that value's encoding, whatever follows it |
| Utf8.EncodeDecode | internal/linefilter/linefilter.go:161-169 | a character the decoder accepts is the shortest encoding of the scalar value it returns: no overlong form, surrogate or value beyond U+10FFFF is accepted |
| Sanitize.ContainsUnsafeRune | internal/linefilter/linefilter.go:120-132 | the loop answers exactly whether some rune of the text is refused by the policy |
| Sanitize.EscapeControlBytes | internal/linefilter/linefilter.go:144-173 | the byte-by-byte slow path computes the specified escape on every input |
| Sanitize.SanitizeControlBytes | internal/linefilter/linefilter.go:184-191 | the non-allocating fast path is unobservable: the result is the slow path's on every input and for every policy |
| Sanitize.EscapeKeepsClean | internal/linefilter/linefilter.go:185-189 | text that passes the fast path's guard is left unchanged by the slow path |
| Sanitize.EscapeClean | internal/linefilter/linefilter.go:175-183 | whatever the bytes, the output is well-formed UTF-8 without C0 bytes other than newline and tab, without DEL and without a refused rune |
| Sanitize.OutputBytesSafe | internal/linefilter/linefilter.go:111-116 | in numbers: every output byte is 9, 10 or at least 0x20, and none is 0x7F |
| Sanitize.PlainTextKept | internal/linefilter/linefilter.go:111-116 | a text of tabs, newlines and printable ASCII is its own escape |
| Sanitize.AsciiByteEscaped | internal/linefilter/linefilter.go:105-151 | any other ASCII byte becomes a backslash, "x" and two lower-case hexadecimal digits, and what follows is escaped on its own |
| Sanitize.EscapeFixesExactlyClean | internal/linefilter/linefilter.go:175-183 | a text is changed exactly when it is not clean, and sanitising twice is sanitising once |
| Sanitize.Escape | internal/linefilter/linefilter.go:144-173 | the output is at least as long as the input and at most four times as long |
| Sanitize.EscapeConcat | internal/linefilter/linefilter.go:144-173 | text may be cut behind any ASCII byte, a line end above all: an ill-formed or truncated sequence ahead never swallows what follows |
| Sanitize.CleanConcat | internal/linefilter/linefilter.go:205-211 | clean texts written one after the other form a clean text |
| Unescape.UnescapeAbsorbsEscape | internal/linefilter/linefilter.go:134-173 | the escape loses and adds nothing: read back, the sanitised text is the raw text read back |
| Unescape.RawTextRecovered | internal/linefilter/linefilter.go:134-173 | reading every \xNN of the output back returns the raw text if and only if that held no literal \xNN |
| Unescape.SameOutput | internal/linefilter/linefilter.go:134-173 | two different texts that sanitise to the same output cannot both be free of a literal \xNN, so among texts without one the output determines the raw bytes |
| Unescape.OutputShared | internal/linefilter/linefilter.go:134-173 | every text that is not clean shares its output with another text, as the raw byte 1 does with its spelling: without knowing that no \xNN was literal, the raw bytes cannot be told |
| NoiseFilter.FramedDecision | internal/linefilter/linefilter.go:71-103 | for a line in fclones' framing the decision is exactly whether the body is noise registered at that line's level, whatever text stands ahead and whatever file name the message holds |
| NoiseFilter.DroppedIsFramedNoise | internal/linefilter/linefilter.go:75-103 | every dropped line is in that framing and is noise at its level |
| NoiseFilter.ErrorNeverDropped | internal/linefilter/linefilter.go:61-69 | an error-level diagnostic is never dropped |
| NoiseFilter.WarnDroppedExactly | internal/linefilter/linefilter.go:52-59 | a warning is dropped exactly when its body is the FIEMAP notice in fclones' own framing |
| NoiseFilter.InfoDroppedExactly | internal/linefilter/linefilter.go:42-50 | an info line is dropped exactly when its body holds one of the four progress phrases |
| NoiseFilter.UnframedNeverDropped | internal/linefilter/linefilter.go:75-80 | a line without "fclones:" is never dropped |
| NoiseFilter.LevelTrimmed | internal/linefilter/linefilter.go:86-86 | white space on either side of the level is no part of it |
| Lines.LinesAppend | internal/linefilter/linefilter.go:219-241 | reading on from the held tail gives the lines that reading everything at once gives |
| LineFilter.RunsStayValid | internal/linefilter/linefilter.go:214-255 | over any run of Writes and Flushes and any failing sink: the held line is newline-free and within the limit, each flood is paid for by more than the limit's worth of input, and everything handed to the sink is clean |
| LineFilter.RunsAccountForInput | internal/linefilter/linefilter.go:205-255 | over any run with a never-failing sink, the raw pieces passed to emit and the held line are the input, byte for byte in order, and the sink holds the rendering of those pieces, which is clean even when a flood cuts a rune in half |
| LineFilter.WriteStopsAtFailure | internal/linefilter/linefilter.go:219-242 | with any sink, one Write emits a prefix of its input's pieces: it fails exactly at the first sink write that fails, stops there and holds nothing, and otherwise emits every piece and holds the rest |
| LineFilter.ChunkingUnobservable | internal/linefilter/linefilter.go:213-255 | however a stream without over-long lines is cut into Writes, after Flush the sink holds exactly its sanitised unfiltered lines, nothing is held and Floods is 0 |
| LineFilter.StreamWithoutNoiseEscaped | internal/linefilter/linefilter.go:193-241 | that content is EscapeUnsafe of the stream with its noise lines taken out |
| LineFilter.QuietStreamIsEscaped | internal/linefilter/linefilter.go:193-211 | when no line is noise, that content is EscapeUnsafe of the whole stream |
| LineFilter.FloodFreeExactly | internal/linefilter/linefilter.go:222-233 | no way of cutting a stream into Writes floods if and only if every newline-free run is within MaxLineBytes |
| LineWriter.Writer.Emit | internal/linefilter/linefilter.go:205-211 | the object's emit is the state machine's, noise filter and sanitiser included |
| LineWriter.Writer.Write | internal/linefilter/linefilter.go:214-243 | the loop over the buffer is the state machine's Write in its whole new state, failing sinks included, and always reports the full input length |
| LineWriter.Writer.Flush | internal/linefilter/linefilter.go:248-255 | the object's flush is the state machine's |
| CapBuf.Buffer.Write | internal/capbuf/capbuf.go:18-23 | reports the full length and moves the buffer from the run of writes so far to that run and one more |
| CapBuf.StoredIsPrefix | internal/capbuf/capbuf.go:15-28 | after any run of Writes the buffer holds the first min(total, Max) bytes of everything written, and the total is the length of all of it |
| CapBuf.TruncatedMeansDiscarded | internal/capbuf/capbuf.go:33-34 | Truncated tells whether bytes were discarded if and only if Max is not negative or something was written |
| CapBuf.LoggedCaptureClean | scheduler.go:106-122 | the logged form of a capture is clean and at most four times the cap, even when the cap cuts a rune |
| Args.Parser.Step | internal/args/args.go:28-54 | one rune's effect on all five parser fields |
| Args.ParseInput | internal/args/args.go:58-71 | the rune loop answers what the lexical grammar says, on every input |
| Args.MachineMeetsGrammar | internal/args/args.go:28-71 | the state machine equals an independent recursive word-splitting grammar, errors included |
| Args.RefusedExactly | internal/args/args.go:56-68 | an input is refused exactly when a quote is left open, and then for that quote, or when the backslashes at its end are odd in number |
| Args.TokensHoldLiterals | internal/args/args.go:21-54 | no token is empty, and the tokens in order hold exactly the runes at literal positions, each rune's role (literal, separator, quote mark, escaping backslash) being told by the quote and backslashes ahead of it |
| Args.ParseJoins | internal/args/args.go:58-71 | behind an accepted input and a blank, the rest is parsed on its own: its tokens follow, or it is refused for its own reason |
| Args.ParseQuote | internal/args/args.go:58-71 | escaping every rune and joining with spaces is inverted by parsing, for every list of non-empty tokens |
| Args.Requote | internal/args/args.go:58-71 | every accepted input has a canonical spelling with the same tokens |
| Args.RuneAlone | internal/args/args.go:28-54 | a rune alone is a token if and only if it is no space, tab, single quote, double quote or backslash; each of these five has its own answer |
| Args.WordsSeparated | internal/args/args.go:49-51 | a space and a tab alike separate two words that hold none of the five |
| Args.SingleQuoted | internal/args/args.go:38-48 | everything between single quotes is one token, blanks and double quotes included; left open it is refused for that quote |
| Args.DoubleQuoted | internal/args/args.go:38-48 | the same between double quotes, single quotes included |
| Args.QuotesInsideWord | internal/args/args.go:38-54 | a quoted part inside a word belongs to the word's token |
| ArgGates.RejectDangerousArgs | config.go:358-373 | passes exactly the values that parse and spell no denylisted flag in any letter case; a refusal names the value and a flag it spells |
| ArgGates.RejectWrapperOwnedArgs | config.go:254-275 | passes exactly the values that parse and spell no wrapper-owned flag; a refusal names the first such token |
| ArgGates.RejectPositionalArgs | config.go:321-343 | passes exactly the values in which no token that is "--" or lacks a leading "-" comes first or directly behind another such; a refusal names the first one that does |
| ArgGates.ValidateArgEnvs | config.go:277-319 | accepts exactly the configurations that meet every gate, the denylist alone being relaxed by ALLOW_UNSAFE_ARGS, and every reason given for a refusal is true of the value it names |
| ArgGates.AcceptedExactly | config.go:277-319 | of three parsed values, acceptance told token by token: which gate asks what of which value |
| ArgGates.PlacedExactly | config.go:327-343 | the check's running flag amounts to that condition on the tokens' own texts |
| ArgGates.SeparatorRefused | config.go:325-326 | extra arguments that open with "--", as "-- /media" does, are never accepted |
| ArgGates.OwnedInAnyCase | config.go:262-269 | --format and --cache, alone or with "=value", and -f with anything behind it are refused in every mixture of letter case |
| ArgGates.DangerousInAnyCase | config.go:357-373 | so are --transform, --in-place and --no-copy, alone or with "=value" |
| ArgGates.PlacedCounts | config.go:321-343 | in a flags-only value that passes the placement check the first token starts like a flag, and tokens that do not never outnumber those that do |
| ArgGates.AcceptedConfigBuilds | scheduler.go:356-398 | on a configuration accepted at startup both builders succeed at run time with the promised token lists; no extra argument is one the ownership gate refuses, and each that does not start like a flag directly follows one that does |
| Clap.PathFreeExactly | config.go:321-326 | a readable token list adds no scan path and leaves options open if and only if each bare token directly follows an option that takes a value and has none attached |
| Clap.ShortsListed | internal/fclonesflags/testdata/help/group.txt:16-209 | the short options are exactly those the help text lists, each standing for the long one beside it |
| Clap.MentionsExactly | internal/fclonesflags/testdata/help/group.txt:16-209 | a readable command line sets an option if and only if one of its tokens, ahead of any "--", is read as that option, as a long option or within a cluster of short ones |
| CommandLine.OwnershipGateExactly | config.go:254-275 | false of the code that every such token is caught: a readable token is refused if and only if it is read as --format, -f or --cache and is not a cluster of one or more switches ahead of f |
| CommandLine.DenylistGateExactly | config.go:357-373 | a readable token is refused if and only if it is read as --transform, --in-place or --no-copy |
| CommandLine.ScanTokensAreBuilt | scheduler.go:357-378 | the token list those results speak of is what the builder makes behind "group" |
| CommandLine.WrapperFlagsExactly | scheduler.go:372-378 | false of the code that user arguments never fight the wrapper's flags: on an accepted configuration they are read as --cache and -f json if and only if no token ahead is "--", and compete with another setting if and only if the scan paths hold one or an extra argument clusters switches ahead of f |
| CommandLine.ExtraPathsExactly | config.go:321-326 | false of the code that a bare token is only ever a flag's value: accepted extra arguments add no scan path if and only if FCLONES_SCAN_PATHS holds no "--" and each bare one directly follows an option that takes a value and has none attached |
| CommandLine.PlacementNecessary | config.go:327-345 | the placement check refuses no list of extra arguments that adds no path |
| CommandLine.NoDangerousRead | config.go:238-242 | without ALLOW_UNSAFE_ARGS no accepted configuration has fclones read a denylisted option on the scan command, whatever the spelling and whichever variable |
| CommandLine.ClusterAccepted | config.go:262-270 | "-Lfcsv /other" passes every gate and is read as -L, -f csv and the scan path /other |
| CommandLine.SeparatorAccepted | config.go:325-343 | "-L --" passes every gate, and behind it the wrapper's own flags are read as scan paths |
| ByteSize.HumanBytes | internal/parsing/parsing.go:330-341 | the loop prints a size in the largest unit it reaches, exabytes at most |
| ByteSize.TextByUnit | internal/parsing/parsing.go:324-341 | the divisor and the suffix of every size, unit by unit |
| ByteSize.SizesSpelled | internal/parsing/parsing_test.go:487-508 | sizes that are exact in tenths are spelled alike under every rounding, as "1.0 KB", "12.3 MB" and "2.5 EB" |
| ByteSize.SizeRead | internal/parsing/parsing.go:284-322 | a decimal and any of the thirteen unit spellings, in any letter case, are read as the whole part of the product, and as 0 where that is negative or beyond an int64 |
| ByteSize.ParsePrinted | internal/parsing/parsing.go:294-322 | every int64 size that is printed is read back as the size its text stands for, never failing and never meeting the out-of-range clamp |
| ByteSize.PrintedClose | internal/parsing/parsing.go:329-341 | a printed size is exact below 1000 and within a twentieth of the size otherwise |
| ByteSize.PrintedMonotone | internal/parsing/parsing.go:329-341 | a larger size never prints as a smaller one, within a unit and across units |
| ByteSize.PrintedIdempotent | internal/parsing/parsing.go:329-341 | printing a size read from a printed size changes nothing, the carry to "1000.0 KB" included |
| ActionSummary.ParseActionSummary | internal/parsing/parsing.go:255-278 | the loop over the lines computes the specified scan |
| ActionSummary.ScanDecides | internal/parsing/parsing.go:213-229 | matched if and only if some line holds both words; the first such line alone is read; otherwise all metrics are zero and the last non-blank line is kept |
| ActionSummary.AtoiSigned | internal/parsing/parsing.go:240-242 | a count may carry either sign; text that is no number is no count |
| ActionSummary.NothingNegative | internal/parsing/parsing.go:235-252 | no text at all yields a negative count or a size outside an int64 |
| ActionSummary.SummaryLineRead | internal/parsing/parsing.go:231-252 | a printed summary behind any text is read exactly: count, total and whether it was an upper bound, whatever words follow the total |
| ActionSummary.OutputRead | internal/parsing/parsing.go:254-278 | the same within a whole output, whatever other lines surround it |
| ActionSummary.LastTextExactly | internal/parsing/parsing.go:274-276 | the text kept for an unrecognised stream is its last line that is not blank, trimmed |
| ActionSummary.ResolveActionSummary | scheduler.go:411-430 | matched if and only if a line of either stream holds both words, stderr first; drift is flagged exactly when neither matches and some output exists, and then the last text of stderr is kept, or of stdout when stderr has none |
| Report.ReportDecoder.DecodeGroups | internal/parsing/parsing.go:163-197 | one groups array changes the account as specified, or stops with the first error in order |
| Report.ReportDecoder.Field | internal/parsing/parsing.go:132-161 | one top-level field changes the account as specified, and a failure is recorded as the field error |
| Report.DecodeReport | internal/parsing/parsing.go:89-117 | the walk over the fields and the closing checks compute the specified decode |
| Report.DecodeExactly | internal/parsing/parsing.go:73-88 | the decode succeeds on exactly the documents the strictness contract accepts, and then reports the last header's statistics, whole-document totals, and the first groups up to the cap |
| Report.GroupsReported | internal/parsing/parsing.go:181-190 | of each retained group the first file is the keeper and all others are its duplicates, in order, and its size text reads back as the printed size |
| Report.RefusalExplained | internal/parsing/parsing.go:80-85 | every refusal is true of the document: it is about the first bad field and its first bad group, numbered over all groups arrays, or about the document as a whole when every field is readable |
| DuplicateLog.LogDuplicateGroups | scheduler.go:317-354 | the nested loops log a maximal prefix of the flattened pairs within both caps, with the byte-cap line and the truncation line exactly where they belong |
| DuplicateLog.CutUnique | scheduler.go:325-345 | the two caps determine how many pairs are logged |
| DuplicateLog.TruncationReportedExactly | scheduler.go:317-353 | from document to log: the log holds the first pairs of the whole document, and a truncation line is missing if and only if every pair of the document was logged |
| DuplicateLog.LoggedPairsNamed | scheduler.go:326-343 | each line names its group's number, that group's first file as keeper and the one of the others it stands for, in the document's order |
| DuplicateLog.CapsExactly | scheduler.go:317-353 | at most 500 pairs and 65536 bytes of names, a pair held back only where one of the two is reached, and the byte-cap and truncation lines where and with the numbers they should have |
| CacheLock.RunsSafe | scheduler.go:193-220 | over every interleaving of any number of crashing processes: the process inside the lock is its holder, every live report is present, and a sweep accounts for every report file |
| CacheLock.MutualExclusion | scheduler.go:194-203 | at most one process is between lock and unlock |
| CacheLock.DeletionsSpareLiveReports | scheduler.go:41-77 | whatever report file a step deletes, no other process has a live report, so a sweep never unlinks one |
| CacheLock.CompleteSweepEmpties | scheduler.go:62-77 | a sweep that unlinked everything it matched leaves no report file |
| CacheLock.SweepCanEmpty | scheduler.go:41-77 | whatever was left behind, a startup sweep that finds the lock free can empty the cache and give the lock back |
| CacheLock.JobLeavesCache | scheduler.go:193-220 | an undisturbed job takes the free lock, gives it back and leaves the files as they were, whether it ends early or after its report |
| CacheLock.LockTakenOrFreed | scheduler.go:194-202 | an attempt on a taken lock changes nothing, and the holder's death frees it |
| CacheLock.RunsBoundOrphans | scheduler.go:41-45 | report files left behind never outnumber crashes and failed removals, beyond the one in use |
| CacheLock.UnlockFirstLosesReport | scheduler.go:203-220 | with the two deferred calls in the other order a run exists in which a live report is deleted |
| Daemon.DaemonProcess.RecordOutcome | daemon.go:207-226 | the marker follows a run unless it was interrupted or skipped, and the record only a scheduled one of those |
| Daemon.DaemonProcess.BuiltinBootState | daemon.go:133-146 | due and healthy as functions of the record, the interval and the time |
| Daemon.MarkerFollowsOutcomes | daemon.go:116-131 | in every interleaving of runs, shutdown and restarts the marker is the last completed run's outcome or the boot call, and unhealthy from the drain step that follows a signal in this life |
| Daemon.DrainStaysUnhealthy | daemon.go:116-120 | once a drain step follows a signal in one life, no later step of that life makes the marker healthy |
| Daemon.RunsJudgedByContext | daemon.go:194-198 | a run that ended on its own is on record as interrupted if and only if a signal had reached its process when its context was read |
| Daemon.InterruptedRunUnwritten | daemon.go:200-213 | a run that finishes behind a signal leaves marker and record alone |
| Daemon.WholeRunRouted | daemon.go:186-226 | from trigger to record: which marker and which record an undisturbed run of each kind leaves |
| Daemon.RecordFollowsScheduledRuns | daemon.go:207-226 | over any sequence of runs and restarts the record is the outcome of the last run whose write succeeded, and exactly the completed scheduled runs attempt one |
| Daemon.BootFollowsRecord | daemon.go:133-146 | a restart is healthy exactly when the last recorded scan succeeded less than an interval ago, and then no startup scan is due |
| Daemon.BootByMode | daemon.go:65-79 | external mode boots healthy, built-in mode without a record does not |
| FlagList.BinarySearch | internal/fclonesflags/fclonesflags.go:155-155 | on a sorted list, found if and only if the entry is there, at the position that keeps order |
| FlagList.Diff | internal/fclonesflags/fclonesflags.go:153-165 | the two loops collect exactly the entries each list lacks, in order |
| FlagList.DiffExactly | internal/fclonesflags/fclonesflags.go:151-153 | the two results are the set differences, sorted, and both empty exactly when the lists hold the same entries |
| FlagList.ParseList | internal/fclonesflags/fclonesflags.go:38-49 | the loop collects the entries of the non-blank, non-comment lines, then sorts and compacts them |
| FlagList.EntryExactly | internal/fclonesflags/fclonesflags.go:36-46 | a line holds an entry if and only if its first rune that is no white space is not "#", and the entry has the line's fields |
| FlagList.LessAtDifference | internal/fclonesflags/fclonesflags.go:47-47 | the order is lexicographic: a text before its extensions, and else the first different rune decides |
| FlagList.FormatList | internal/fclonesflags/fclonesflags.go:53-62 | the two loops write the header as comments and one entry a line |
| FlagList.WrittenLines | internal/fclonesflags/fclonesflags.go:51-62 | the written text is the header's lines behind "# " and then one entry a line, and nothing else |
| FlagList.ParseFormatted | internal/fclonesflags/fclonesflags.go:51-62 | reading a written list gives it back, under any header |
| FlagList.ParseStable | internal/fclonesflags/fclonesflags.go:36-49 | any text is read as a strictly sorted list of canonical entries, and writing and reading it again changes nothing |

## Left out

- Emit: error values are a success flag; their texts are not modelled.
- FramedDecision: whether an emitted line would itself be dropped if it were filtered again is not stated; an escape can complete "fclones:", so in general it could.
- ParseInput: text is a rune sequence, so the replacement of ill-formed bytes by U+FFFD while ranging over a string is not modelled; error messages carry the quote but not the input.
- ParseActionSummary: action output is a rune sequence; ill-formed UTF-8 in it is not modelled.
- WrapperFlagsExactly: what fclones does with an option given twice, or with an invalid value, is not modelled, nor that --help ends the reading.
- AcceptedConfigBuilds: the options of link, remove and dedupe, which take no paths, have no reading of their own.
- ParsePrinted: float64 rounding of sizes beyond 2^53 and near ties is not modelled.
- HumanBytes: one division in exact arithmetic in place of two float64 conversions and a division.
- DecodeReport: the JSON reader is outside the model; a document is its list of fields, each readable or not, and Go's int overflow of counts is not modelled.
- CountGroup: part of the loop body of decodeGroups, as a method of its own.
- ParseList: slices.Sort is modelled by its result, an insertion sort.
- RunsSafe: the lock file, other files on /cache and the fclones hash cache are not modelled, only reports.
- MarkerFollowsOutcomes: the trigger queue and the ticker's cadence are not modelled; any run may start at any time.
- Process execution, contexts and timeouts, sockets, log output, environment reading, the health probe and command dispatch, which are plumbing around the modelled outcomes.
- The io.MultiWriter that feeds the line filter and the capture together.
- The parsing of --help texts by regular expression, and the inventory built from it.
- The finite outcome tables (phase and run-once classification, action names, mode names) are not modelled.
- The lock error branch of a job, which is a completed failed run to the daemon and no step of the cache.
