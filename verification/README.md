# Model of agentflare's supervision of unattended agents

This project models, in Dafny 4.11, the parts of agentflare that watch agents
while nobody else does, and proves what they are for. Each module follows one
source file or one mechanism of it:

| module | what it models |
|---|---|
| `ExhaustionHits`, `LineAssembly`, `OutputHistory`, `OutputProgress`, `LineText`, `LineForm`, `StallVerdict` | the stall and exhaustion detector: lines out of two chunked streams, a bounded memory that refines the full history, a greedy count that is optimal, the verdict |
| `ResultScanner`, `WaitLoop`, `WaitVerdict` | the reader that looks for a terminal result, the loop that waits for the child, and what ends it in terms of its readings |
| `ParseDuration`, `DurationText`, `DurationValues`, `ResetTime`, `ResetOrder`, `FailureClass`, `FailureText` | what an agent's failure text says about when to try again, and whether to move the work |
| `ChatSessions` | chat turns on threads, their locks, slots and shared session map |
| `ManagedBlock`, `BlockText`, `BashEnvFile` | marker-delimited blocks, and the user's `~/.bashenv` in which two of them are installed |
| `AtomicWrite`, `Durability` | temporary file, sync, permissions, rename, and the in-place fallback; what a crash may undo |
| `ClaimSweep`, `ClaimVerdicts`, `ClaimLedger` | releasing the claims of owners that are gone, and acquiring claims in two statements |
| `BrowserTicket`, `BrowserRun` | one-use browser decisions |
| `ProfileHealth`, `PenaltyHistory` | error counts and penalties of credential profiles |
| `WorktreePath`, `WorktreeOwners` | which item's worktree a path lies in, and who may write there |
| `Wrappers`, `Substrings` | options, sequences and substrings |

Where the source changes fields in place or loops, the model has a class or a
method proved against a specification function, and the properties are lemmas
about that function. Concurrency is modelled as steps, one for each system
call, statement or lock operation, in any order; the lemmas about `After` or
`Run` are about every run. The clock, the child process, the file system's
errors, the agents' answers, the database's listing and the pull requests are
given from outside and may be anything the lemmas do not exclude.

Times are integers (nanoseconds in the detector and the wait loop, seconds
elsewhere). Durations and penalties are reals. A byte is a character below 256
where the source cuts texts at byte positions.

Some results say that the code does not always do what its comments say:

* `BashEnvFile`: the module promises never to overwrite the whole file, but a
  `~/.bashenv` that cannot be read, or is not valid UTF-8, reads as empty and is
  replaced by the two blocks alone (`UnreadIsOverwritten`; `LineOfNoTextIsLost`
  is one such file). A file that is read may lose text as well: replacing the
  first block takes away a marker of the second that stands in it, and a later
  stretch of the file is then taken for the second block (`CrossedIsLost`,
  `RepeatedIsLost`). `UserTextSurvivesExactly` and `UsersCharacterStays` say
  exactly what is kept. Installing both blocks loses one that is nested in the
  other (`ManagedBlock.NestedIsLost`); `ManagedBlock.BothCurrentExactly` says
  when both are current.
* `ClaimLedger`: between the two statements of an acquire, a stolen row shows
  the former owner's commit, scope and stop, in every run until the new owner's
  second statement (`TheWindowShowsTheFormerOwner`, `StolenRowShowsTheStop`). A
  late second statement of the same owner clears a stop meant for its later
  call (`OwnLateStatementClears`); until the owner acquires again, a stop stays
  exactly when none of its calls is between the two statements
  (`StopHoldsMeanwhileExactly`). For other owners the update is safe, as the
  comment says (`SettledUntilTheTenureEnds`).
* `ResetTime`: the next occurrence of a clock time is to be the first instant
  with that wall-clock time. When clocks go back, the repeated hour is missed
  (`RepeatedHourIsMissed`); when they go forward, a time in the skipped hour is
  dropped (`SkippedHourIsDropped`). `NextClockExactly` says when the promise
  holds, in any zone whose clocks never go back by a day.
* `ResultScanner`: the unfinished line is tried after every read, so a
  beginning of a line that is an event by itself is taken for one
  (`EarlyEventIsFound`); `SplitsDoNotMatterExactly` says when the split matters.
* `FailureClass`: for a failure value not made by the classifier, failover and
  a long wait can come apart; `FailoverUnlessResetIsNear` says exactly when.
* `AtomicWrite`: the write is called durable, but the directory is never synced,
  so the rename itself may be lost; `Durability.DurableExactly` says that it
  takes just such a sync. The temporary name carries the process id and the
  time only, and a failing call removes its file by name. Two calls under one
  name never harm the target; three may leave it torn (`ThreeTear`), or four
  where the name was taken already. `AtomicExactly` says when the write is
  atomic.
* `LineAssembly`: chunking matters for unfinished lines beyond 64 KiB
  (`OverflowShowsTheSplit`); `SplitChunkExactly` says when for one cut at one
  instant, `ReadsAlikeExactly` for whole streams.

`dafny verify dfyconfig.toml` checks the whole project.

## Model

| member | source | states |
|---|---|---|
| ExhaustionHits.HitsAreSpaced | src/agent_launch_progress.rs:193-206 | the counted exhaustion sightings are pairwise at least 15 s apart |
| ExhaustionHits.GreedyStaysAhead | src/agent_launch_progress.rs:193-206 | the k-th counted sighting comes no later than the k-th of any other selection of sightings 15 s apart |
| ExhaustionHits.GreedyIsOptimal | src/agent_launch_progress.rs:193-206 | the count is the largest number of sightings that can be chosen pairwise at least 15 s apart |
| ExhaustionHits.ThreeHitsExactly | src/agent_launch_progress.rs:224-228 | three hits are counted if and only if three sightings pairwise 15 s apart exist |
| LineAssembly.LinesOfConcat | src/agent_launch_progress.rs:158-173 | text may be cut anywhere: the unfinished line is carried over, nothing else is |
| LineAssembly.SplitChunkExactly | src/agent_launch_progress.rs:158-173 | one chunk or two at the same instant leave the same detector state if and only if no unfinished text in between exceeds 64 KiB |
| LineAssembly.LineEnds | src/agent_launch_progress.rs:158-173 | a line ends with a line feed, in front of which one carriage return is dropped; text without a line feed is no line yet |
| LineAssembly.StreamsAreApart | src/agent_launch_progress.rs:158-173 | a chunk leaves the other stream's unfinished line alone, and every line it completes is dated and tagged with it |
| LineAssembly.NoOverflowYet | src/agent_launch_progress.rs:158-173 | 65,536 bytes without a line end are kept as an unfinished line |
| LineAssembly.OverflowShowsTheSplit | src/agent_launch_progress.rs:158-173 | an unterminated text of 65,538 bytes is one line when read at once and another, with a rest, when read in two |
| LineAssembly.ChunkingDoesNotMatter | src/agent_launch_progress.rs:158-173 | however two streams without overlong unfinished lines are chunked and interleaved, each stream yields the lines of its own concatenated text and keeps its own tail |
| LineAssembly.SameTextSameLines | src/agent_launch_progress.rs:158-173 | two readings of the same such streams agree, whatever the chunks |
| LineAssembly.ReadsAlikeExactly | src/agent_launch_progress.rs:158-173 | a text reads the same however it is cut and interleaved, if and only if no unfinished line in it exceeds 64 KiB, other than a text of one line with its very last character |
| OutputHistory.KeptExactly | src/agent_launch_progress.rs:175-180 | the history the memory refines is every line whose normal form is not empty, in that form, in order |
| OutputHistory.RememberedOnce | src/agent_launch_progress.rs:181-192 | the bounded memory never holds a line twice, nor more than 1024 |
| OutputHistory.SmallHistoriesAreExact | src/agent_launch_progress.rs:181-192 | while at most 1024 distinct lines have appeared, what the memory takes in is exactly the first occurrences |
| OutputHistory.NovelAfterEveryFirst | src/agent_launch_progress.rs:181-192 | however long the history, no first occurrence of a line goes unnoticed: the novelty time is never before it |
| OutputHistory.NoveltyTimeIsExact | src/agent_launch_progress.rs:181-192 | while at most 1024 distinct lines have appeared, the novelty time is that of the latest first occurrence |
| OutputHistory.ExhaustedExactly | src/agent_launch_progress.rs:193-228 | over the whole line history, the hit count is the largest spaced selection, and it reaches three exactly when three spaced sightings exist |
| OutputProgress.ViewsSnoc | src/agent_launch_progress.rs:175-207 | one line moves the memory and the exhaustion count, as functions of the full history, exactly as the fields are updated |
| OutputProgress.FirstSightingCounts | src/agent_launch_progress.rs:193-233 | something is counted if and only if something was sighted |
| OutputProgress.BehindLastNewline | src/agent_launch_progress.rs:158-173 | the position behind the last newline of a buffer |
| OutputProgress.OutputProgress.constructor | src/agent_launch_progress.rs:144-155 | an empty detector: no lines, no memory, no sightings |
| OutputProgress.OutputProgress.Feed | src/agent_launch_progress.rs:158-173 | a chunk takes the assembly of lines and partial lines to the one the specification gives, keeping the fields in step with the full history |
| OutputProgress.OutputProgress.Line | src/agent_launch_progress.rs:175-207 | one more line in the history, with every bounded field equal to what that history says |
| OutputProgress.OutputProgress.Remember | src/agent_launch_progress.rs:181-192 | first-in-first-out set of 1024 lines, window of 12, novelty time |
| OutputProgress.OutputProgress.NoteSighting | src/agent_launch_progress.rs:193-206 | a sighting counts if it is the first or 15 s behind the last counted one |
| OutputProgress.OutputProgress.IsRepetitive | src/agent_launch_progress.rs:210-216 | the last 12 normalised lines are there and at most 3 of them distinct, over the full history |
| OutputProgress.OutputProgress.Exhausted | src/agent_launch_progress.rs:224-228 | an exhaustion line is reported if and only if three spaced sightings exist, and it is one that was sighted |
| OutputProgress.OutputProgress.ExhaustionFirstSeen | src/agent_launch_progress.rs:230-233 | whether anything was sighted at all |
| LineText.NormalizeToken | src/agent_launch_progress.rs:82-112 | what one token adds to the normal form |
| LineText.NormalizeLine | src/agent_launch_progress.rs:82-112 | the loop over characters computes the normal form |
| LineText.NumbersDoNotMatter | src/agent_launch_progress.rs:76-112 | replacing a whole number-like word by another leaves the normal form unchanged |
| LineForm.WordFormExactly | src/agent_launch_progress.rs:89-97 | a word becomes `#` if and only if it has a digit and at least a third of its characters are digits; otherwise it is kept in lower case |
| LineForm.MarksSeparateWords | src/agent_launch_progress.rs:98-106 | any character but letters, digits, `_` and `-` ends a word and is kept as it is |
| LineForm.SpacesSeparateRuns | src/agent_launch_progress.rs:84-87 | a space separates tokens and is part of none |
| LineForm.NormalExactly | src/agent_launch_progress.rs:82-112 | the normal form is the forms of the runs with single spaces between them, up to the first run at which 200 bytes are reached, cut to 200 characters |
| LineForm.WordsTellLinesApart | src/agent_launch_progress.rs:76-112 | within the bound, a line without counters has as its normal form its runs in lower case with single spaces between them, so two such lines have the same if and only if those agree |
| LineForm.NumberedCasesStayDistinct | src/agent_launch_progress.rs:76-80 | `test case_1` and `test case_2` stay as they are |
| LineForm.AttemptsLookTheSame | src/agent_launch_progress.rs:76-80 | lines such as `attempt 3 of 10 at 12:01:07` are the same whatever their numbers |
| LineForm.TrimExactly | src/agent_launch_progress.rs:116-121 | the spaces around a text are taken off and no others |
| LineForm.SightingExactly | src/agent_launch_progress.rs:114-130 | a line is a sighting if and only if it is an exhaustion error, not blank, at most 400 bytes when trimmed, and, when it is a JSON event, one that reports an error or a retry, in whatever case |
| StallVerdict.ChangedAtIsLatest | src/agent_launch_progress.rs:318-328 | the last-change time is that of the latest poll that saw a different fingerprint |
| StallVerdict.WorktreeProgress.constructor | src/agent_launch_progress.rs:302-311 | the first fingerprint is taken at the start |
| StallVerdict.WorktreeProgress.Poll | src/agent_launch_progress.rs:318-328 | a fingerprint is added if the interval has passed, else nothing changes |
| StallVerdict.WorktreeProgress.NoteExhaustionSeen | src/agent_launch_progress.rs:331-336 | the first sighting fixes the baseline, later ones leave it |
| StallVerdict.LoopsExactly | src/agent_launch_progress.rs:210-216 | output is repetitive if and only if there are twelve lines and the last twelve are among three |
| StallVerdict.StallMeansNoProgress | src/agent_launch_progress.rs:237-249 | a stall verdict means 12 recent lines, at most 3 distinct, and for the whole window no new line and no polled change |
| StallVerdict.StallExactly | src/agent_launch_progress.rs:237-249 | while at most 1024 distinct lines have appeared, the verdict holds if and only if that is so |
| ResultScanner.Scanner.constructor | src/agent_launch_capture.rs:100-110 | an empty buffer |
| ResultScanner.Scanner.Read | src/agent_launch_capture.rs:107-148 | each read keeps the line start a line start and every line before it rejected, stops where a scan of the bytes from the last line start does, and never changes a recorded event |
| ResultScanner.Scanner.ScanLines | src/agent_launch_capture.rs:121-147 | complete lines are tried in order until one is accepted |
| ResultScanner.AcceptsExactly | src/agent_launch_capture.rs:29-42 | bytes are tried as an event if and only if the last of them that is not white space is a closing brace; then exactly what the parser makes of them is found |
| ResultScanner.WholeLineIsFound | src/agent_launch_capture.rs:107-148 | an event read with its line end is found, whatever white space stands behind it |
| ResultScanner.OneLineAtOnce | src/agent_launch_capture.rs:107-148 | a line read at once is found if and only if it is an event |
| ResultScanner.ReadsAreScanned | src/agent_launch_capture.rs:107-148 | after any reads whatever, all lines in front of the line start are rejected, and the event, if any, is what was accepted there |
| ResultScanner.NothingSkipped | src/agent_launch_capture.rs:107-148 | an event is recorded from a line start at or before the first accepted complete line; none is skipped |
| ResultScanner.MatchesWholeScan | src/agent_launch_capture.rs:107-148 | finding nothing means a scan of all lines finds nothing; what is found is an accepted beginning of a line that no accepted line precedes |
| ResultScanner.SplitsDoNotMatterExactly | src/agent_launch_capture.rs:107-148 | every split of the bytes into reads finds what a scan of whole lines finds, if and only if each accepted beginning of a line, at or before the first accepted line, carries the event that scan finds |
| ResultScanner.EarlyEventIsFound | src/agent_launch_capture.rs:29-42 | for any parser that knows one real event, that event with one brace more is a line without event; read in two in front of that brace, it is taken for the event |
| WaitLoop.WaitForChild | src/agent_launch_capture.rs:189-296 | the loop over what it reads from the world, iteration by iteration |
| WaitLoop.ProbeWorktree | src/agent_launch_capture.rs:235-268 | the part of an iteration that looks at output and worktree |
| WaitLoop.FinishIteration | src/agent_launch_capture.rs:270-291 | the part that looks at cancellation and at a completed result |
| WaitLoop.OneReason | src/agent_launch_capture.rs:189-323 | every run ends with at most one of timed out, cancelled, stalled, exhausted; an idle kill is a timeout |
| WaitLoop.SuccessMeans | src/agent_launch_capture.rs:218-310 | success means none of these, and exit 0 or a result at least 1 s old whose job, if any, polled as not cancelled in that iteration |
| WaitLoop.RealExitWins | src/agent_launch_capture.rs:282-291 | a child seen to fail is never reported as a success |
| WaitLoop.BelowHardCap | src/agent_launch_capture.rs:212-217 | while the loop goes on, no iteration has read the clock at or beyond the hard cap |
| WaitLoop.LoopEnds | src/agent_launch_capture.rs:203-292 | with iterations of at least 20 ms, their number is bounded by the hard cap |
| WaitLoop.StopsWithinOneIteration | src/agent_launch_capture.rs:203-292 | the loop stops in the first iteration beyond the cap, if not before |
| WaitLoop.IdleKillMeansSilence | src/agent_launch_capture.rs:207-231 | an idle kill follows a full timeout without a byte and without a result |
| WaitLoop.StallKillIsJustified | src/agent_launch_capture.rs:232-268 | a stall kill means looping output and a window without new line, polled change or result |
| WaitLoop.BaselineIsFirst | src/agent_launch_capture.rs:252-257 | the baseline is the worktree at the first sighting looked at |
| WaitLoop.ExhaustionKillMeans | src/agent_launch_capture.rs:255-268 | an exhaustion kill means the output so far has three sightings at least 15 s apart, the line reported is one of them, and the worktree is as it was at the first sighting looked at |
| WaitVerdict.GoesOnExactly | src/agent_launch_capture.rs:203-292 | the loop goes on if and only if none of its readings so far gives a reason to stop |
| WaitVerdict.EndsExactly | src/agent_launch_capture.rs:203-292 | how a wait ends, told from the first reading that gives a reason, the reasons in their order |
| WaitVerdict.ExitIsReported | src/agent_launch_capture.rs:204-206 | a child seen to have exited ends the wait with its own status and no flag |
| WaitVerdict.ReasonsExactly | src/agent_launch_capture.rs:207-291 | timed out, idle, exhausted, stalled, cancelled and cleaned up are each set if and only if that reason holds at the last reading and none that comes before it does |
| WaitVerdict.SuccessExactly | src/agent_launch_capture.rs:204-323 | a run is a success if and only if the child exits with 0, or a result is a second old within the cap, uncancelled, and the child has exited with 0 or is still running |
| ParseDuration.SkipWhile | src/auth_runner_classify.rs:440-470 | the inner loops stop exactly where the run of characters ends, at a character boundary |
| ParseDuration.ReadComponent | src/auth_runner_classify.rs:447-478 | one component: its number, blanks and unit word |
| ParseDuration.ParseComponents | src/auth_runner_classify.rs:441-481 | the loop ends, cuts the text at character boundaries only, and sums the components |
| ParseDuration.ParseDuration | src/auth_runner_classify.rs:435-484 | any UTF-8 text is parsed without a panic to what the specification says |
| DurationText.ParseUndoesPrint | src/auth_runner_classify.rs:432-484 | any non-empty list of counts with units, with the separators accepted, parses to the exact sum in seconds, rounded up and at least one |
| DurationText.BareNumberIsSeconds | src/auth_runner_classify.rs:432-434 | a bare number is a number of seconds (section 10.2.3 of RFC 9110) |
| DurationText.PrintedCountIsNumeral | src/auth_runner_classify.rs:447-453 | decimal digits denote their number |
| DurationText.KnownUnitsAreUnits | src/auth_runner_classify.rs:460-470 | every unit name known is read as a unit |
| DurationValues.NamesAreWorth | src/auth_runner_classify.rs:460-470 | the 24 unit names are known and no other, each as so many seconds |
| DurationValues.CountIsWorth | src/auth_runner_classify.rs:447-484 | a count with any of those names is the count times 0.001, 1, 60, 3600, 86400 or 604800, rounded up, at least one and at most what 64 bits hold |
| DurationValues.WholeNumeral | src/auth_runner_classify.rs:447-453 | digits denote their decimal number, whatever points stand behind them; points alone denote none |
| DurationValues.PointedNumeral | src/auth_runner_classify.rs:447-453 | digits behind a point count by their places |
| DurationValues.TwoPointsAreNoNumeral | src/auth_runner_classify.rs:447-453 | with a second point in front of a digit there is no number |
| DurationValues.DurationIsTheSum | src/auth_runner_classify.rs:432-484 | any list of counts parses to the exact sum of numerals times the factors of the table, rounded up |
| DurationValues.BrokenCountEndsIt | src/auth_runner_classify.rs:452-470 | a number that is none, or whose name is unknown, ends the list: what stands in front of it counts, and without that there is no duration |
| DurationValues.NoNumberNoDuration | src/auth_runner_classify.rs:436-446 | text in which no number leads is no duration |
| DurationValues.ListedExample | src/auth_runner_classify.rs:432-434 | `2h, 5m and 3s` is 7503 seconds |
| ResetTime.NextClockExactly | src/auth_runner_classify.rs:586-604 | the first instant behind now with that time of day is found if and only if, in the zone, it is still to come today or tomorrow and the clocks do not first show today's or yesterday's again |
| ResetTime.NextClockIsLeast | src/auth_runner_classify.rs:586-604 | where clocks never change, as in UTC, it is always found, at most a day ahead |
| ResetTime.FoundIfToCome | src/auth_runner_classify.rs:586-604 | something is found exactly when the time of day is to come today or tomorrow, and then within four days |
| ResetTime.RepeatedHourIsMissed | src/auth_runner_classify.rs:586-604 | when the clocks go back, the second occurrence of the hour is passed over for tomorrow's |
| ResetTime.SkippedHourIsDropped | src/auth_runner_classify.rs:586-604 | when the clocks go forward, a time in the skipped hour is not found at all |
| ResetTime.FirstClock | src/auth_runner_classify.rs:545-583 | clock times are tried in order, the first plausible one taken |
| ResetTime.ParseResetAt | src/auth_runner_classify.rs:510-584 | the first plausible candidate: unix stamps, ISO stamps, the retry hint, clock times |
| ResetTime.FirstGoodIsUnique | src/auth_runner_classify.rs:510-584 | there is one such candidate only |
| ResetTime.ResetIsPlausible | src/auth_runner_classify.rs:510-520 | a parsed reset lies behind now and at most 8 days ahead |
| ResetTime.ClockTimeIsDroppedExactly | src/auth_runner_classify.rs:545-604 | a valid clock time in the text is dropped if and only if its zone has it neither today nor tomorrow still to come, which for UTC never is; otherwise there is a reset time |
| ResetOrder.ClockReadsBack | src/auth_runner_classify.rs:545-572 | what a clock shows at each minute of the day is read back as that second of the day, on a 24-hour and on a 12-hour clock |
| ResetOrder.NoClockTime | src/auth_runner_classify.rs:548-566 | a bare number is no clock time, nor is an hour or a minute that no clock shows |
| ResetOrder.OddMeridiem | src/auth_runner_classify.rs:558-563 | `am` and `pm` behind an hour past noon change nothing, and `0 pm` is noon |
| ResetOrder.NextInUtc | src/auth_runner_classify.rs:586-604 | in UTC the next instant with a time of day is found within a day |
| ResetOrder.UnixFirst | src/auth_runner_classify.rs:522-528 | the first unix stamp behind now and at most eight days away is the reset time |
| ResetOrder.IsoSecond | src/auth_runner_classify.rs:529-537 | without one, the first such ISO stamp is |
| ResetOrder.HintThird | src/auth_runner_classify.rs:538-543 | without either, the printed wait counted from now is |
| ResetOrder.ClockLast | src/auth_runner_classify.rs:544-583 | without all these, the first clock time that is |
| ResetOrder.NothingMeant | src/auth_runner_classify.rs:522-584 | otherwise there is none |
| FailureClass.ClassifyFailure | src/auth_runner_classify.rs:306-358 | the classification, with the hint and the reset time parsed from the same text |
| FailureClass.HintBehindExactly | src/auth_runner_classify.rs:424-430 | the hint was printed behind its keyword; without one, every occurrence printed none or overlaps one that did not |
| FailureClass.HintOfFirstKeyword | src/auth_runner_classify.rs:410-430 | the hint is that of the first keyword that has one |
| FailureClass.HintCutsAtBoundaries | src/auth_runner_classify.rs:428 | the text is cut behind a keyword at a character boundary |
| FailureClass.FailoverUnlessResetIsNear | src/auth_runner_classify.rs:125-153 | for any failure whatever, failover is warranted exactly when the wait exceeds 120 s, except for a window that resets within 120 s |
| FailureClass.ClassifiedWindowsAreLong | src/auth_runner_classify.rs:340-357 | a classified usage window is not about to reset, and a parsed reset is waited for exactly |
| FailureClass.FailoverExactlyWhenLong | src/auth_runner_classify.rs:125-153 | for every text and time, failover is warranted exactly when the wait exceeds 120 s, and every wait lies between 1 s and 8 days |
| FailureClass.DemotionIsNeeded | src/auth_runner_classify.rs:340-357 | a window resetting in 30 s shows the exception is real, and that the demotion removes it |
| FailureClass.ShortHintKeepsTheAgent | src/auth_runner_classify.rs:340-347 | a printed wait of at most 120 s keeps the agent, unless its launch was rejected |
| FailureClass.ClassifiedExactly | src/auth_runner_classify.rs:313-357 | when each class comes out, in terms of the pattern lists, the hint and the reset time |
| FailureClass.RateLimitWaits | src/auth_runner_classify.rs:329-357 | what a rate limit says to wait: the printed wait, the near reset that demoted it, or what its class assumes |
| FailureClass.SkipsExactly | src/auth_runner_classify.rs:365-380 | the step retry is skipped exactly for a stalled agent, an expired credential, or whenever failover is warranted |
| FailureText.WindowByWords | src/auth_runner_classify.rs:62-83 | the window is the longest one the text names, by these words |
| FailureText.WaitsInSeconds | src/auth_runner_classify.rs:85-141 | how many seconds each failure is waited for |
| FailureText.StatusExactly | src/auth_runner_classify.rs:382-408 | a number is a status code if and only if no digit touches it and it is called a status within the last 14 bytes or explained right behind |
| FailureText.ClassByWords | src/auth_runner_classify.rs:306-357 | when each class comes out, and with which window and reset time, in the words of the text |
| FailureText.RateLimitByWords | src/auth_runner_classify.rs:329-357 | what a rate limit says to wait, in the words of the text |
| FailureText.HintIsPrinted | src/auth_runner_classify.rs:410-430 | the wait is the duration printed behind the one phrase, of ten, that announces it |
| ChatSessions.WriteKeeps | src/chat_channel.rs:74-102 | a locked read-modify-write puts back what other chats saved |
| ChatSessions.EveryRunIsOk | src/chat_channel.rs:173-244 | the invariant of the protocol holds in every interleaving with panics anywhere |
| ChatSessions.EachTurnStartsFromThePrevious | src/chat_channel.rs:173-228 | each turn resumes exactly the session its chat's previous turn left; a turn that did not panic ran its agent twice if and only if it resumed a session that the agent found dead, and left the session its last run answered with, else none after a dead one, else what it had loaded |
| ChatSessions.OutcomesAreTheAgents | src/chat_channel.rs:196-222 | the outcomes of a turn, in which those results are stated, are those of its agent runs in order |
| ChatSessions.LeavesAsFoundExactly | src/chat_channel.rs:196-228 | a turn that did not panic leaves its chat's session as it found it if and only if its agent neither found that dead nor answered with another |
| ChatSessions.DeadSessionIsDropped | src/chat_channel.rs:200-219 | after a dead session the chat's next turn resumes what the second run answered with, or nothing |
| ChatSessions.DispatchedExactly | src/chat_channel.rs:287-310 | a message is taken on if and only if fewer than 8 turns are in flight |
| ChatSessions.WaitsForItsChatOnly | src/chat_channel.rs:104-126 | a turn can go in if and only if no other turn of its own chat is inside |
| ChatSessions.AnsweredTurn | src/chat_channel.rs:173-244 | a whole turn whose agent answers leaves that session and every lock free |
| ChatSessions.StaleTurn | src/chat_channel.rs:196-219 | a whole turn that finds its session dead removes it and runs its agent again |
| ChatSessions.NoSaveIsLost | src/chat_channel.rs:64-102 | between turns of a chat the vault has what its latest turn left, whatever other chats saved meanwhile |
| ChatSessions.OneTurnAChat | src/chat_channel.rs:104-126 | no two turns of a chat are inside at once, nor two writers of the session map |
| ChatSessions.SlotsCountTurns | src/chat_channel.rs:287-310 | the slot counter counts the turns in flight, never more than 8 |
| ChatSessions.NeverStuck | src/chat_channel.rs:104-126 | no run deadlocks |
| ManagedBlock.UpsertSplices | src/bashenv.rs:141-166 | the full block stands between what was around it |
| ManagedBlock.CurrentUnlessDangling | src/bashenv.rs:141-175 | the block is current afterwards if and only if no start marker dangles, which is then left alone |
| ManagedBlock.OutsideIsUntouched | src/bashenv.rs:138-166 | text outside the marked region is unchanged |
| ManagedBlock.ChangedExactly | src/bashenv.rs:141-166 | the flag is set exactly when the content differs, that is, unless the block was current or dangling |
| ManagedBlock.LastWriteWins | src/bashenv.rs:141-166 | a later text replaces an earlier one as if that had never been; writing twice is writing once |
| ManagedBlock.NoForeignLineAppears | src/bashenv.rs:141-166 | no line foreign to the block appears anywhere |
| ManagedBlock.DanglingStaysSo | src/bashenv.rs:141-175 | a dangling block does not become current by installing the other |
| ManagedBlock.BothCurrentExactly | src/bashenv.rs:234-239 | in terms of the content found: installing both leaves both current if and only if the first does not dangle and the second, as it stands in front of and behind the first one's region, does not dangle and does not swallow the first, unless that is there again behind it |
| ManagedBlock.NestedIsLost | src/bashenv.rs:234-239 | for every such pair of blocks, a file with one nested in the other loses it |
| BlockText.AppendedExactly | src/bashenv.rs:160-165 | a text without the block gets it as lines of their own at the end |
| BlockText.ReplacedExactly | src/bashenv.rs:143-158 | what stood between the markers is replaced, and nothing else; the flag is set if and only if it was something else |
| BlockText.CutOffExactly | src/bashenv.rs:145-150 | with no end marker behind the first start marker nothing is changed |
| BashEnvFile.InstalledBlocksAreSeparate | src/bashenv.rs:30-33 | the real markers meet the conditions above |
| BashEnvFile.InstalledFromNothing | src/bashenv.rs:234-249 | from empty content, the two blocks and nothing else |
| BashEnvFile.UnreadIsOverwritten | src/bashenv.rs:234-249 | a file that cannot be read, for whatever reason, is replaced as a whole by the two blocks |
| BashEnvFile.ReadIsPatchedExactly | src/bashenv.rs:15-17 | a file that is missing or read keeps all text outside the regions of the two blocks, as they are found in it, in place and in order, if and only if none of it is swallowed |
| BashEnvFile.UsersCharacterStays | src/bashenv.rs:234-239 | each character outside both regions is kept if and only if it is not in the stretch that is swallowed: the first region holds a marker of the second block, which goes, and a later stretch is taken for the rest of that block, or for all of it |
| BashEnvFile.SwallowedIsUsers | src/bashenv.rs:234-239 | that stretch is never empty, and lies outside both regions |
| BashEnvFile.UserTextSurvivesExactly | src/bashenv.rs:15-17 | all text outside both regions is kept if and only if the file is read as text and none is swallowed |
| BashEnvFile.UserLineSurvivesExactly | src/bashenv.rs:15-17 | a line of the user's that stands in the file once, outside both regions, is there afterwards if and only if the file is read as text and the line is not swallowed |
| BashEnvFile.CrossedIsLost | src/bashenv.rs:234-239 | for every such pair of blocks, a file in which the first holds the second's end marker, and a later one follows, loses the user's line between |
| BashEnvFile.RepeatedIsLost | src/bashenv.rs:234-239 | for every such pair, a file in which the first holds a second in full, and another follows with a line of the user's, loses that line |
| BashEnvFile.LineOfNoTextIsLost | src/bashenv.rs:236 | a file of one line of the user's loses it if it is no UTF-8, and keeps it if it is |
| BashEnvFile.BashEnv.EnsureInstalled | src/bashenv.rs:234-249 | the file afterwards, whether or not reading and writing succeed; when both blocks are then current; and exactly when what is outside them is kept |
| AtomicWrite.EveryRunIsOk | src/atomic_fs.rs:57-122 | the invariant of any number of interleaved writes holds after every system call |
| AtomicWrite.CrashIsAtomic | src/atomic_fs.rs:57-122 | after a crash at any point, with unsynced data lost arbitrarily, the target has its whole old content or all that one successful writer wrote, temporary names being shared by two calls at most |
| AtomicWrite.AtomicExactly | src/atomic_fs.rs:57-122 | that holds in every run if and only if no temporary name is the target's and none is shared by more than two calls, or more than three where the name is taken at the start |
| AtomicWrite.LastSuccessShows | src/atomic_fs.rs:57-122 | otherwise it has what the last successful writer wrote, under the permissions it was to apply |
| Durability.HistoryIsOk | src/atomic_fs.rs:57-122 | the invariant of interleaved writes holds also when the directory is synced at any points between |
| Durability.DurableExactly | src/atomic_fs.rs:47-50 | a success, as long as it is the last, outlasts every crash if and only if the directory is synced behind its rename, or the target could hold nothing but the same content before; the program never syncs it |
| AtomicWrite.OnlySuccessChanges | src/atomic_fs.rs:113-122 | no step but a successful rename changes what the target has or may have after a crash; so an error leaves it unchanged |
| AtomicWrite.ThreeTear | src/atomic_fs.rs:84-121 | a run of three calls, begun under one name that is not taken, that leaves the target empty |
| AtomicWrite.CrowdTears | src/atomic_fs.rs:84-121 | any more calls than these begun under one name have such a run |
| AtomicWrite.TargetTears | src/atomic_fs.rs:84-121 | so has a call whose temporary name is the target's |
| AtomicWrite.Directory.TryAtomicWrite | src/atomic_fs.rs:57-122 | success, if and only if the name is free and no system call fails: the bytes, synced, under the given or else the old file's permissions; error: the old content; in between: one or the other |
| AtomicWrite.Directory.InPlaceOverwrite | src/atomic_fs.rs:128-154 | success, if and only if there is a file and no system call fails: the bytes and permissions; error: the old content or a beginning of the new; and one of the disks it passes through may hold anything after a crash |
| AtomicWrite.Directory.WriteBytesWithFallback | src/atomic_fs.rs:180-197 | falls back only for a read-only directory and an existing file; any other error leaves the old content |
| ClaimSweep.ExitNeedsProof | src/claim_liveness.rs:60-112 | an owner is judged exited if and only if its job is finished, its session ended with the job not queued, or, nothing else known, its process is gone and silent for 15 minutes; never a job of this process |
| ClaimSweep.SuspectsOfSweep | src/claim_liveness.rs:194-232 | suspects are those judged exited for the first time and those whose release failed |
| ClaimSweep.ReleasesOfSweep | src/claim_liveness.rs:196-231 | exactly the claims the ledger let go are released, each once, in order |
| ClaimSweep.SweepMemory.Sweep | src/claim_liveness.rs:179-236 | the new memory and the releases of one sweep; a failed listing changes nothing |
| ClaimSweep.ReleasedWereSightedTwice | src/claim_liveness.rs:114-120 | over any run of sweeps, a release means the same (item, owner) was judged exited in this sweep and in the previous one that managed to list claims |
| ClaimSweep.AnyOtherVerdictStartsOver | src/claim_liveness.rs:114-116 | any other verdict in between starts the confirmation over |
| ClaimSweep.SecondSightingReleases | src/claim_liveness.rs:196-231 | a second sighting, with only failed listings in between, releases exactly if the ledger does |
| ClaimSweep.ConfirmedExactly | src/claim_liveness.rs:155-177 | the items fetched beforehand are exactly the readable ones the sweep will try to release |
| ClaimSweep.StatusesOfSweep | src/claim_liveness.rs:366-378 | each readable item released is restored by its own fetched status |
| ClaimSweep.RunSweep | src/claim_liveness.rs:336-382 | every release is restored by its item's fetched status or as one of unknown status; with the database unchanged between the two looks, no readable item is restored by an unfetched status |
| ClaimSweep.RestoreIsSafe | src/claim_liveness.rs:250-330 | finished, parked, unassigned, merged or merging items are not re-queued; one parked at the ceiling stays parked |
| ClaimVerdicts.InstanceExactly | src/claim_liveness.rs:36-38 | the instance of an owner is what stands behind the first colon |
| ClaimVerdicts.PidExactly | src/claim_liveness.rs:40-48 | an instance names a process if and only if it is a number of 32 bits, a dash and sixteen hexadecimal digits; and that process |
| ClaimVerdicts.LiveExactly | src/claim_liveness.rs:60-112 | when an owner is judged live |
| ClaimVerdicts.ReleasedAreItems | src/claim_liveness.rs:191-212 | what a sweep releases is a held item, of an owner judged exited, that was remembered |
| ClaimVerdicts.RestoredExactly | src/claim_liveness.rs:258-320 | over the fields of the item: it is queued again, parked or promoted if and only if it is due to |
| ClaimVerdicts.LabelsExactly | src/claim_liveness.rs:287-305 | which labels an item has afterwards |
| ClaimVerdicts.SecondSweepReleases | src/claim_liveness.rs:114-236 | two sweeps over a finished job's claim: the first releases nothing, the second releases the claim and queues the work again |
| ClaimLedger.ListedIsHeld | src/claims.rs:202-245 | a row is listed as live if and only if nobody but its owner could acquire it |
| ClaimLedger.ProvenanceIsTheLast | src/claims.rs:86-121 | in every interleaving the row has commit and scope of the call whose second statement ran last, and the stop last asked for since |
| ClaimLedger.ProvenanceIsTheOwners | src/claims.rs:86-121 | in every interleaving, once the owner's second statement has run, commit and scope are that call's and a visible stop was requested since |
| ClaimLedger.SettledUntilTheTenureEnds | src/claims.rs:112-118 | another owner's late second statement changes nothing; what is settled stays so until the tenure ends |
| ClaimLedger.TheWindowShowsTheFormerOwner | src/claims.rs:86-118 | in every run that leaves a row with the owner who took it over, it shows the former owner's commit, scope and pending stop exactly until a second statement of the new owner runs |
| ClaimLedger.StolenRowShowsTheStop | src/claims.rs:86-118 | a run in which the new owner sees the former one's commit and stop |
| ClaimLedger.StopHoldsExactly | src/claims.rs:112-118 | a pending stop stays, in every run that leaves its owner the row, if and only if none of the owner's calls is still to come or under way |
| ClaimLedger.StopHoldsMeanwhileExactly | src/claims.rs:112-118 | in every run in which the owner does not begin to acquire again, it stays if and only if none of the owner's calls is between its two statements |
| ClaimLedger.OwnLateStatementClears | src/claims.rs:112-118 | a run: acquired, stolen, acquired again and settled, a stop asked for, and cleared by the first call's late statement |
| ClaimLedger.LeaseHolds | src/claims.rs:123-136 | an owner that keeps its heartbeat within the time to live keeps its claim in every interleaving |
| ClaimLedger.Claims.Acquire | src/claims.rs:96-121 | acquired exactly when the row is free, own, done or stale; then owner, commit and scope are the caller's and no stop is pending |
| ClaimLedger.Claims.Heartbeat | src/claims.rs:123-131 | a sign of life counts if and only if the row is the owner's |
| ClaimLedger.Claims.Release | src/claims.rs:135-138 | frees the target if and only if the row is the owner's |
| ClaimLedger.Claims.Done | src/claims.rs:140-149 | a done row is kept, and anybody may take it over |
| ClaimLedger.Claims.RequestStop | src/claims.rs:168-181 | stops a live claim of whatever owner, and says whether there was one |
| BrowserTicket.FingerprintIsThePage | src/browser_decision.rs:46-55 | equal fingerprints are equal pages |
| BrowserTicket.ConsumedIsNoTicket | src/browser_decision.rs:103-107 | the name of a consumed file never passes the ticket-id check |
| BrowserTicket.ClaimTakes | src/browser_decision.rs:107-110 | what a call takes no other call has taken |
| BrowserTicket.EveryRunIsOk | src/browser_decision.rs:57-124 | the invariant of plans and tickets holds in every interleaving of planners and actors: what is on disk was valid, and its target was in the whole snapshot that was observed |
| BrowserTicket.AtMostOnceATicket | src/browser_decision.rs:97-124 | no ticket's action is carried out twice, whatever fails or crashes |
| BrowserTicket.OnlyWhatWasPlanned | src/browser_decision.rs:57-124 | what is carried out is a valid operation planned in that session on an element that the snapshot planned on shows, at an age of at most 300 s, on a page of the same fingerprint |
| BrowserTicket.OnThePagePlanned | src/browser_decision.rs:46-124 | so that page is the one planned on, and shows the element |
| BrowserRun.ValidExactly | src/browser_decision.rs:25-44 | the operations that may be planned, letter by letter |
| BrowserRun.PlannedExactly | src/browser_decision.rs:57-95 | an undisturbed call to plan leaves a ticket if and only if the operation may be planned on the page seen, saying just that |
| BrowserRun.CarriedOutExactly | src/browser_decision.rs:97-124 | an undisturbed call for a ticket on disk carries out what was planned if and only if the ticket is at most 300 s old and the page is the one planned on |
| BrowserRun.FailuresEndTheCall | src/browser_decision.rs:97-124 | no ticket, a file that cannot be removed, a record that is none, or no page: any failure ends the call |
| BrowserRun.NothingAfterTheEnd | src/browser_decision.rs:97-124 | in every run, a call that has ended carries out nothing any more |
| ProfileHealth.Profiles.RecordError | src/auth_db.rs:165-207 | the profile's row after an error; all others as they were |
| ProfileHealth.Profiles.TouchLastUsed | src/auth_db.rs:210-220 | stamps the row, or creates a healthy one; errors stay |
| ProfileHealth.CountIsTheStreak | src/auth_db.rs:165-191 | over any history, the error count is the length of the longest suffix of errors less than an hour apart |
| ProfileHealth.CriticalExactly | src/auth_db.rs:185-191 | the status is critical if and only if that length is at least 5 |
| ProfileHealth.PenaltyIsBounded | src/auth_db.rs:140-184 | the penalty stays below 500 if errors come at least 5 minutes apart |
| ProfileHealth.BurstsAddUp | src/auth_db.rs:140-184 | errors at one instant add up without bound |
| PenaltyHistory.PointsExactly | src/auth_db.rs:121-138 | how many points an error costs, by what its message says |
| PenaltyHistory.PenaltyIsTheSum | src/auth_db.rs:140-184 | over any history, the penalty is the sum of the errors' points, each a fifth less for every whole five minutes that passed since |
| PenaltyHistory.RowTellsTheLatest | src/auth_db.rs:165-220 | over any history, a row has the times of the last event, the last error and the last use |
| WorktreePath.ItemSeqForPath | src/hook_claim_guard.rs:14-31 | the stack and the window search find the outermost worktree of the resolved path |
| WorktreePath.SeparatorsAreOne | src/hook_claim_guard.rs:16 | slash and backslash are one |
| WorktreePath.DetoursDoNotMatter | src/hook_claim_guard.rs:16-23 | empty parts, dots and a name followed by dot-dot never change the item |
| WorktreePath.DeeperKeepsTheItem | src/hook_claim_guard.rs:14-31 | a relative path whose running depth never goes negative keeps the item |
| WorktreePath.SteppingOutExactly | src/hook_claim_guard.rs:11-31 | going up some directories from any path in a worktree leaves the worktree if and only if that goes above the item's directory |
| WorktreePath.OwnersAreEquivalent | src/hook_claim_guard.rs:170-175 | being the same owner is an equivalence, and equality for pinned owners |
| WorktreePath.ClaimsGuardTheWholeWorktree | src/hook_claim_guard.rs:181-194 | others are kept out of an item's worktree by whatever path inside it, exactly when there are live claims and none is theirs |
| WorktreeOwners.PlainPath | src/hook_claim_guard.rs:11-31 | anything below an item's directory, with either separator, is in that item's worktree |
| WorktreeOwners.NoWorktree | src/hook_claim_guard.rs:11-31 | a path without such a directory is in none |
| WorktreeOwners.ProcessExactly | src/hook_claim_guard.rs:149-162 | which owners are processes, and of which agent |
| WorktreeOwners.SameOwnerExactly | src/hook_claim_guard.rs:164-175 | two processes are the same owner if and only if they are of one agent |

## Left out

- Process spawning, pipes, kill-tree, pid records and the fingerprint of a worktree are operating-system effects; they are inputs of `WaitLoop` and `StallVerdict`.
- JSON, regular expressions, lower-casing, SHA-256 and timestamp recognition are parameters: what `claude_result` makes of some bytes, the pattern lists, the candidates found in a text, an injective hash.
- ResultScanner: the reader thread's concurrency with the wait loop is reduced to what each iteration of the loop sees of it; decoding of a multi-byte character split across two reads by the other reader is not modelled.
- Floating-point rounding: reals stand for `f64`.
- ResetTime: a zone is its offset at each instant and the first instant of each local time; leap seconds and the end of the calendar are not modelled.
- FailureClass: reading the clock twice is modelled for the retry decision; `is_rate_limited`, the human-readable labels, snippets and schedule lines only format what is modelled.
- DurationText.ParseUndoesPrint: sums beyond 64 bits saturate, as in `Seconds`.
- OutputProgress: the 32-bit hit counter is unbounded here.
- ChatSessions: the vault is read and written as a whole in one step each, and always succeeds; other users of the vault, the choice of agent, side-channel cards under the chat lock, slash commands and the reply text are not modelled.
- BashEnvFile: wiring `BASH_ENV` into the settings file, and the text of the two blocks.
- AtomicWrite: names are those of one directory, the target's already resolved, so symbolic links and missing parents are left out; permissions are not lost by a crash although they are set after the sync; a rename may be undone by a crash to any earlier binding of the name, unless its directory has been synced since.
- ClaimSweep: `restore_item` is its decision and the labels it parks with; comments, and what re-queueing itself does, are not modelled, nor is pruning of sessions, promotion and notification.
- ClaimLedger: the ledger's upsert, heartbeat, release and done follow `crates/agentflare-db-kit/src/claim.rs`; their SQL is not part of this model. One row is modelled, as every statement is scoped to one.
- BrowserTicket: random tokens are assumed never to repeat within a session's directory; the two backend calls of an observation are one step; a decision written only in part reads as none.
- ProfileHealth: timestamps always parse; the error count does not overflow 32 bits; cooldowns and the choice of a profile are plain table operations.
- WorktreePath: finding the directories of a shell command's git calls, and the guard of the shared main checkout, which needs the state of the repository.
- `src/daemon.rs`, `src/auth.rs`, `src/components.rs`, `src/alias.rs`, `src/cost.rs`, channels, doctor, installers and rendering would add members of the same kinds that are easier than these.
