# A verified model of the bot host's algorithms and protocols

The repository is a host for chat bots. Most of it is wiring, but it holds a number of self-contained algorithms and
protocols, and this project models those and proves what they are for.

- **Conversation blobs.** A content-addressed store: the recovery of a corrupt database, which a crash may cut short at
  any file action (`BlobRecovery`), the adoption and retirement of a legacy file (`LegacyRetirement`), and a mark-and-sweep
  collector that shields recent writes (`BlobGc`, `BlobStore`).
- **Schedules.** A cron parser (`CronParser`), the search for the next run, which skips days and copes with clock changes
  (`Calendar`, `CronSearch`, `CronHorizon`), and the prose that describes a schedule (`ScheduleProse`).
- **Concurrency.** The wave-pipelined workers of a box transfer (`WavePipeline`), the coalescing write lanes of the
  transcript mirror (`WriteLanes`), the windows of the shared desktop (`WindowAllocator`), the pool of worker threads
  (`WorkerPool`) and the timer policies (`Timers`). The segments between two awaits are atomic steps, and every order of
  them is a run. Each state machine is stated as step functions over a value, with an invariant that every step keeps, and
  a class has the code's fields and methods, each proved to take exactly that step.
- **Graphs.** The boot order of host extensions, the cycle that is named when there is none, and the teardowns
  (`HostExtensions`); the threads of a transcript, found upwards and downwards (`TranscriptThreads`).
- **Codecs.** Frontmatter and workflow files (`ScalarText`, `Frontmatter`, `Clamping`, `WorkflowFile`, `LineEndings`) and the
  event stream (`SseReader`).

`dafny verify dfyconfig.toml` checks the whole project.

## Findings

Where the code falls short of what one would expect of it, the code is modelled as it is, and the condition under which it
does meet the expectation is part of the result.

- **Seats** (`src/host/box/shared-desktop-sand-box.ts:24`). A call whose load of the seats fails forgets the remembered load,
  even when another load has been started since. Two loads can then be under way, and the later one can seat an agent at a
  window that is being torn down (`WindowAllocator.WindowInTeardownIsMapped`). Seats are exclusive in every interleaving
  exactly when nothing is loaded or there is no fork to hand out (`ExclusiveWhateverTheInterleaving`), and in every run in
  which no call forgets a load it did not wait for (`SeatsAreExclusive`).
- **Windows** (`src/host/box/shared-desktop-sand-box.ts:32-34`). An agent that is released during its call keeps the window
  it was assigned in hand: that window comes up for it while another agent sits there
  (`WindowAllocator.WindowComesUpForAnother`). It cannot happen exactly when no window is brought up or there is only one
  (`OwnWindowsWhateverTheInterleaving`), nor in a run in which no agent is released or rolled back during another call of
  its own (`WindowsComeUpForTheirAgents`).
- **Threads** (`src/shared/transcript.ts:25-36`, `src/shared/transcript-threads.ts:18-21`). A branched entry without an id
  whose root is known is in neither the main entries nor a thread; nothing is lost exactly if every thread message has an
  id (`TranscriptThreads.NothingIsLostIff`). And a branched entry whose root is missing is counted by `branchReplyCounts`,
  although it is in no thread (`MissingRootsAreCounted`). A count agrees with its thread exactly if the root is in the
  transcript and all that is counted has ids (`CountIsThreadSizeIff`).
- **Separators** (`src/shared/workflow-model.ts:12-17`). A text with U+2028 or U+2029 in it is printed unescaped
  (`ScalarText.EscapeAllTerminators`), and the parser drops its line. So a workflow whose name, description or source has
  one of them does not survive being saved (`WorkflowFile.WorkflowRoundTrip`; of any fields, `Frontmatter.RecoveredIff`).
- **Rules** (`src/shared/workflow-model.ts:12-18`). A root key that begins with `---` is printed as a line that ends the
  block. The parser itself yields such keys, for an indented line; a file saved over them is split there, loses the fields
  behind (`WorkflowFile.IndentedRuleLosesTheFields`) and has another body (`SplitsAtAKey`). Workflows come back, whatever
  their bodies, exactly if there is no such key and no separator (`EveryBodyComesBackIff`).
- **Cut texts** (`src/shared/workflow-model.ts:8`). Texts are trimmed first and cut then. One that is cut behind white space
  is shorter when it is saved and read again (`Clamping.CutBehindASpace`); clamping is final exactly if the text does not
  end in white space (`ClampedTwiceIff`), and only then is what was read in normal form (`WorkflowFile.ReadIsNormalIff`).
- **Sources** (`src/shared/workflow-model.ts:14-18`). The parser takes the source at the root whenever the one under the
  metadata is no text; the printer takes it only if that one is missing or null. So a number or a flag there has the
  source lost (`WorkflowFile.HiddenSourceIsLost`); otherwise a source left as it is stays (`SourceIsKeptIff`).
- **Line endings** (`src/shared/workflow-model.ts:12-13`). With carriage returns, the block is cut off behind one, and the
  last field is not read if it has a value: a name is lost (`LineEndings.CrLfLosesTheName`), and a workflow that is switched
  off is read as switched on (`CrLfSwitchesATriggerOn`). The fields are the same exactly if the last line is a key without
  a value, or is not read anyway (`CrLfIsReadAsLfIff`).
- **Prose** (`src/shared/automation-schedule.ts:7-18`). When both day fields are written out and exactly one of them covers
  its range, the OR rule of `crontab` and the prose disagree (`ScheduleProse.DaysUnfaithful`); otherwise the prose is true
  (`ProseIsFaithful`).
- **Skips** (`src/shared/automation-schedule.ts:10`). Where a local date goes back (as in St. John's, where until 2011 clocks
  went back at one minute past midnight) the search that skips passes over the minute after it, and a schedule for that
  minute runs late or not at all (`CronSearch.BackwardDatesLoseAMatch`). In zones with at most one change in 24 hours the
  search is right exactly if no local date goes back (`SearchIsRightIff`).
- **Horizon** (`src/shared/automation-schedule.ts:2-10`). The search looks 366 days ahead. A schedule for 29 February has no
  next run unless a leap day is that near (`CronHorizon.LeapDayIsFoundIff`, `LeapDayIsMissed`); one for a date that every
  year has always has one (`YearlyRunIsFound`).
- **Recovery** (`src/host/agent-isolation/conversation-blob-db.ts:141-330`). The name of a quarantine is made of a stamp. Were
  a stamp reused while the older quarantine holds other rows, that one would pass for the one still to be made, and a crash
  right after the announcement would lose rows (`BlobRecovery.LoseARow`). None are lost exactly if the name is free or
  stands for the same rows (`NoRowIsLostIffNameIsFree`).
- **Retirement** (`src/host/agent-isolation/legacy-blob-retirement.ts:6`). The verdict looks at the legacy file as it is now.
  A row that the file gained after its adoption was never offered, and the file is retirable all the same
  (`LegacyRetirement.LateRowsAreLost`); retirement is sound exactly if every row was there at an adopting opening
  (`RetirementIsSoundIff`).
- **Mark phase** (`src/host/agent-isolation/conversation-blob-gc.ts:53-55`). A blob referenced under two types is followed
  only as the one it is met as first (`BlobGc.TwoTypesMissAChild`). What only another type leads to is lost
  (`OnlyReferrerDecides`); nothing is if all types of a blob lead to the same ids (`MarkIsExact`). For the same reason a
  missing blob may go uncounted (`TwoTypesHideAMissingBlob`); none does if each blob resolves as all its types or as none
  (`EveryReferenceResolves`).

## Model

In the state machines the step functions, and the lemmas about them, carry the meaning: every method that changes state is
proved to take exactly one of those steps. Of these methods the table has those with a loop or with several outcomes.

| member | source | states |
|---|---|---|
| Calendar.DateOf | src/shared/automation-schedule.ts:8 | the date of every day counted from 1 January 1970 is a valid one of the Gregorian calendar |
| Calendar.DatesIncrease | src/shared/automation-schedule.ts:8 | later days have later dates |
| Calendar.DateDeterminesDay | src/shared/automation-schedule.ts:8 | two days that show the same date are the same day |
| Calendar.DayNumberOfDate | src/shared/automation-schedule.ts:8 | counting day by day is the closed formula of the Gregorian calendar, so every month and every leap year has its length |
| Calendar.DateOfDayNumber | src/shared/automation-schedule.ts:8 | every valid date is shown by its day |
| Calendar.WeekdaysGoRound | src/shared/automation-schedule.ts:8 | the weekdays follow one another, with 1 January 2000 on a Saturday |
| CronSearch.FirstMatch | src/shared/automation-schedule.ts:10 | the reference search minute by minute: the least match of an interval, or none exactly if there is none |
| CronSearch.FirstMatchSkips | src/shared/automation-schedule.ts:10 | leaving out a stretch without matches changes nothing about the least match |
| CronSearch.SkipTarget | src/shared/automation-schedule.ts:10 | the clamped skip goes at least one minute forward |
| CronSearch.SkipsNoMatch | src/shared/automation-schedule.ts:7-10 | a skip that stays on its date passes over no match |
| CronSearch.SearchIsRight | src/shared/automation-schedule.ts:10 | on any clock whose skips stay on their date, the search that skips ends where the minute-by-minute one does |
| CronSearch.NextCronRun | src/shared/automation-schedule.ts:2-10 | the loop computes the skipping search on any clock, in at most the horizon's number of steps; what it returns matches |
| CronSearch.OffsetsWithinADay | src/shared/automation-schedule.ts:9-12 | with at most one change in a day, the offset has one value up to a minute and another after it |
| CronSearch.ZoneSkipTarget | src/shared/automation-schedule.ts:10 | where a skip ends, in terms of the zone's offsets before and at the uncorrected midnight |
| CronSearch.SkipAfterChange | src/shared/automation-schedule.ts:10 | a change of offset inside the skipped stretch does not carry the skip past its day |
| CronSearch.SkipStaysOnDay | src/shared/automation-schedule.ts:10 | no skip leaves the local day it starts on |
| CronSearch.ZoneClockSkipsSafely | src/shared/automation-schedule.ts:8-10 | every zone clock (see Assumptions) whose dates do not go back has skips that stay on their date |
| CronSearch.NextCronRunInZone | src/shared/automation-schedule.ts:10 | on every zone clock the method returns the least matching minute after the given instant, or null exactly if the horizon has none |
| CronSearch.DroppedDayLosesARun | src/shared/automation-schedule.ts:10 | wherever a local date goes back there is a schedule whose run is due at that minute, and the search does not return it |
| CronSearch.SearchIsRightIff | src/shared/automation-schedule.ts:10 | in a zone with at most one change in 24 hours, the search is right for every schedule and every instant exactly if no local date goes back |
| CronSearch.BackwardDatesLoseAMatch | src/shared/automation-schedule.ts:10 | the clock of Newfoundland's rule, with the run that is due and is not found |
| CronHorizon.YearlyRunIsFound | src/shared/automation-schedule.ts:2-10 | with one offset, a schedule that matches at some minute of a date that every year has always has a next run |
| CronHorizon.LeapDayIsFoundIff | src/shared/automation-schedule.ts:2-10 | a schedule for leap days has a next run exactly if a leap day is within 366 days |
| CronHorizon.LeapDayIsMissed | src/shared/automation-schedule.ts:2-10 | from the epoch on no run of such a schedule is reported |
| CronParser.ParsePart | src/shared/automation-schedule.ts:5 | a part that is not refused has its first and last value in order and in range, and a positive step |
| CronParser.PartsAreReadAsMeant | src/shared/automation-schedule.ts:5 | `*`, `a` and `a-b`, with and without `/s`, are read as what they mean, and refused exactly when a numeral is none, or the bounds are out of range or order |
| CronParser.NothingIsEverything | src/shared/automation-schedule.ts:5 | a part whose range is left out is read like one with `*`, with and without a step |
| CronParser.SecondSlashIsRefused | src/shared/automation-schedule.ts:5 | a part with a second slash anywhere is refused |
| CronParser.SecondHyphenIsNotRead | src/shared/automation-schedule.ts:5 | what follows a second hyphen is not looked at |
| CronParser.AddValues | src/shared/automation-schedule.ts:5 | the loop over a part adds exactly the values in step from its first to its last |
| CronParser.ParseCronField | src/shared/automation-schedule.ts:5 | a field holds exactly the values of its comma-separated parts, and is refused exactly if one part is |
| CronParser.StarCovers | src/shared/automation-schedule.ts:5-6 | a starred field covers its whole range |
| CronParser.ParseCron | src/shared/automation-schedule.ts:6 | five fields or none; the result holds what each field says, Sunday as 0 or 7, and which day fields are written out |
| CronParser.CrontabDayRule | src/shared/automation-schedule.ts:7 | the day rule of crontab (INPUT FILES, IEEE Std 1003.1): either day field if both are written out, otherwise both |
| ScheduleProse.Ascending | src/shared/automation-schedule.ts:14-17 | the sorted values of a field: all of them, once, in ascending order |
| ScheduleProse.Stride | src/shared/automation-schedule.ts:15-17 | the common difference of neighbours, if there is one |
| ScheduleProse.StrideMembers | src/shared/automation-schedule.ts:17 | with a common difference the sequence is every step from first to last |
| ScheduleProse.DaysFaithful | src/shared/automation-schedule.ts:7-16 | the day clause says exactly which days match, outside the case where the two rules diverge |
| ScheduleProse.DaysUnfaithful | src/shared/automation-schedule.ts:7-16 | in that case it is wrong about some day |
| ScheduleProse.TimeFaithful | src/shared/automation-schedule.ts:17 | the time clause (times, intervals, windows) says exactly which times of day match |
| ScheduleProse.WeekdaysSaid | src/shared/automation-schedule.ts:16 | weekdays are said as weekdays, weekends, a range or at most three of them, each exactly when they are that, and not at all exactly if they are more with a gap |
| ScheduleProse.DaysSaid | src/shared/automation-schedule.ts:16 | the days are said by whichever day field narrows them, as every day, as at most three days of every month, or as one day of the year, each exactly when they are that |
| ScheduleProse.OneMinuteSaid | src/shared/automation-schedule.ts:17 | with one minute the times are left unsaid exactly if the hours are more than three and not evenly spaced, and are an interval through the day exactly if the hours are evenly spaced from midnight on |
| ScheduleProse.SeveralMinutesSaid | src/shared/automation-schedule.ts:17 | with several minutes they are left unsaid exactly if there is a gap between the hours, or more than three minutes are not evenly spaced through the hour |
| ScheduleProse.SaidIff | src/shared/automation-schedule.ts:18 | there is a description exactly if both clauses can be said, and it is those clauses |
| ScheduleProse.ProseIsFaithful | src/shared/automation-schedule.ts:16-18 | the description is true of every wall clock exactly if not both day fields are written out with one of them covering its range |
| ScheduleProse.SameProseSameRuns | src/shared/automation-schedule.ts:16-18 | two schedules described alike accept the same wall clocks |
| BlobGc.Visit | src/host/agent-isolation/conversation-blob-gc.ts:50-97 | the walk, which terminates on cyclic graphs; what was reached stays reached |
| BlobGc.Collector.VisitBlobReference | src/host/agent-isolation/conversation-blob-gc.ts:50-69 | the recursive visitor of a reference takes the walk's steps |
| BlobGc.Collector.VisitMessage | src/host/agent-isolation/conversation-blob-gc.ts:71-97 | the recursive visitor of a message takes the walk's steps, field by field, leaving the excluded edges out |
| BlobGc.CollectReachableBlobHexIds | src/host/agent-isolation/conversation-blob-gc.ts:43-101 | the visitors together return what the walk from the root reaches and counts |
| BlobGc.ReachableIsLeast | src/host/agent-isolation/conversation-blob-gc.ts:10-14 | reachability along the walked edges is the least closed set |
| BlobGc.MessageRefsIff | src/host/agent-isolation/conversation-blob-gc.ts:71-97 | what a message is followed to is every blob id in its fields, at any depth and in every entry, but the excluded edges and empty ids |
| BlobGc.RefsInOrder | src/host/agent-isolation/conversation-blob-gc.ts:75-96 | references come in the order of the fields |
| BlobGc.EntriesInOrder | src/host/agent-isolation/conversation-blob-gc.ts:86-95 | and of the entries of a field |
| BlobGc.ExcludedEdges | src/host/agent-isolation/conversation-blob-gc.ts:10-14 | nothing is followed at the three edges that are left out |
| BlobGc.TargetMeans | src/host/agent-isolation/conversation-blob-gc.ts:54-68 | a reference is unresolved exactly if a message type names a blob that is missing or does not decode; what it leads to is what that message refers to |
| BlobGc.VisitIsSound | src/host/agent-isolation/conversation-blob-gc.ts:50-97 | only reachable ids are marked |
| BlobGc.VisitIsComplete | src/host/agent-isolation/conversation-blob-gc.ts:50-97 | all that is to do is marked, and so is every child of a newly marked id, as the type the id was met as first |
| BlobGc.VisitCountsUnresolved | src/host/agent-isolation/conversation-blob-gc.ts:56-67 | the count is of the marked ids that are missing or do not decode |
| BlobGc.OneTypeHasSameChildren | src/host/agent-isolation/conversation-blob-gc.ts:53-55 | if no id can be met under two types, no type of an id leads elsewhere than another |
| BlobGc.MarkIsExact | src/host/agent-isolation/conversation-blob-gc.ts:43-101 | if all types under which an id can be met lead to the same ids, the marked ids are exactly the reachable ones and the unresolved ones are counted |
| BlobGc.VisitIsFounded | src/host/agent-isolation/conversation-blob-gc.ts:50-97 | every newly marked id is one of those to do, or a child of one marked newly, as that was met first |
| BlobGc.MarkFollowsFirstTypes | src/host/agent-isolation/conversation-blob-gc.ts:43-101 | on any graph the marked ids are exactly those reached by following each id as the type it was met as first |
| BlobGc.OnlyReferrerDecides | src/host/agent-isolation/conversation-blob-gc.ts:53-55 | a child that one reference alone leads to is marked exactly if its referrer was met first as that type; else it is lost |
| BlobGc.VisitDependsOnReached | src/host/agent-isolation/conversation-blob-gc.ts:43-101 | blobs the walk does not reach have no say in its result |
| BlobGc.EveryReferenceResolves | src/host/agent-isolation/conversation-blob-gc.ts:43-101 | if, besides, all types of an id resolve or none does, nothing unresolved is marked exactly if every reachable reference resolves |
| BlobGc.TwoTypesMissAChild | src/host/agent-isolation/conversation-blob-gc.ts:53-55 | an id among both the prompt messages and the turns of a root, which costs the turn's user message |
| BlobGc.TwoTypesHideAMissingBlob | src/host/agent-isolation/conversation-blob-gc.ts:53-59 | the same root with the turn missing, which is not counted as unresolved |
| BlobStore.RememberedIff | src/host/agent-isolation/conversation-blob-store.ts:14 | an id is shielded exactly while fewer than the limit of other ids have been written since |
| BlobStore.TouchTracks | src/host/agent-isolation/conversation-blob-store.ts:14 | a write moves its id to the end of the tracked order |
| BlobStore.DropOldestTracks | src/host/agent-isolation/conversation-blob-store.ts:14 | dropping the oldest tracked id keeps the order that of the latest writes |
| BlobStore.ConversationBlobStoreDb.SetBlob | src/host/agent-isolation/conversation-blob-store.ts:14 | a write stores the row and tracks it; on a closed store nothing changes |
| BlobStore.ScanRows | src/host/agent-isolation/conversation-blob-store.ts:18 | the scan splits rows and bytes into live and dead, and they add up, in whatever order the rows come |
| BlobStore.ConversationBlobStoreDb.CollectGarbage | src/host/agent-isolation/conversation-blob-store.ts:18 | collects only if the root decodes and every id marked as a message type has a blob that decodes, and reports how many have not otherwise; what is skipped or rolled back changes nothing; else what is left is the sweep, and live and deleted rows and bytes add up to what there was |
| BlobStore.SweepIsExact | src/host/agent-isolation/conversation-blob-store.ts:14-18 | exactly the root, the reachable and the recently written ids stay, byte for byte |
| BlobStore.SecondSweepDeletesNothing | src/host/agent-isolation/conversation-blob-store.ts:18 | collecting again at the same floor deletes nothing |
| BlobRecovery.SafeMeansRowsAndOneMarker | src/host/agent-isolation/conversation-blob-db.ts:141-446 | in a safe state the rows are in the database, a quarantine or a completed replacement, and at most one marker is there |
| BlobRecovery.RotKeepsSafe | src/host/agent-isolation/conversation-blob-db.ts:103-139 | a file turning corrupt while its rows stay readable keeps the state safe |
| BlobRecovery.BlobDirectory.InstallCompletedReplacement | src/host/agent-isolation/conversation-blob-db.ts:217-272 | installs a healthy completed replacement and removes the marker; every disk on the way is safe |
| BlobRecovery.BlobDirectory.Rebuild | src/host/agent-isolation/conversation-blob-db.ts:332-444 | salvages into a replacement and installs it: what the disk is then; every disk on the way is safe |
| BlobRecovery.BlobDirectory.CopySalvageableRows | src/host/agent-isolation/conversation-blob-db.ts:360-404 | row by row, every salvageable row gets into the replacement |
| BlobRecovery.BlobDirectory.FinishRecovery | src/host/agent-isolation/conversation-blob-db.ts:274-444 | on any disk with one marker, a recovery that is not disturbed leaves a disk given by the one it began with; on a safe one it ends healthy with all rows and no marker, or is left safe when a file is unavailable |
| BlobRecovery.BlobDirectory.Recover | src/host/agent-isolation/conversation-blob-db.ts:141-169 | the recovery from its start: intent, quarantine, pending, rebuild |
| BlobRecovery.BlobDirectory.FindPendingRecovery | src/host/agent-isolation/conversation-blob-db.ts:446-482 | finds the one marker if there is one, and nothing but replacements that no recovery needs is gone |
| BlobRecovery.BlobDirectory.RemoveDropped | src/host/agent-isolation/conversation-blob-db.ts:467-472 | the loop removes exactly those replacements, and every disk on the way is safe |
| BlobRecovery.BlobDirectory.Open | src/host/agent-isolation/conversation-blob-db.ts:485-549 | on any disk with or without a marker, what an undisturbed opening leaves; on a safe one, healthy with all rows and no marker, or unavailable and safe; it is never unavailable when nothing is disturbed |
| BlobRecovery.HealthyStaysAsItIs | src/host/agent-isolation/conversation-blob-db.ts:485-549 | a healthy database without marker is opened as it is, and no file but replacements goes |
| BlobRecovery.MissingIsMade | src/host/agent-isolation/conversation-blob-db.ts:485-500 | a missing one is made empty, and no other file changes |
| BlobRecovery.CorruptIsRebuilt | src/host/agent-isolation/conversation-blob-db.ts:141-169 | a corrupt one is rebuilt with its rows; where it could be moved it stands under its quarantine as it was, and no other quarantine changes |
| BlobRecovery.WhatFinishingLeaves | src/host/agent-isolation/conversation-blob-db.ts:274-444 | a recovery that is finished leaves a healthy database or a completed replacement as it is, or else the rows of the quarantine, the database or the replacement, in that order; quarantines stay |
| BlobRecovery.BlobDirectory.Crash | src/host/agent-isolation/conversation-blob-db.ts:141-549 | a crash after any one file action, given by its number, leaves the disk of that moment, which is safe |
| BlobRecovery.BlobDirectory.WriteRow | src/host/agent-isolation/conversation-blob-db.ts:13-18 | a committed write joins the rows that are promised |
| BlobRecovery.BlobDirectory.Run | src/host/agent-isolation/conversation-blob-db.ts:141-549 | after any number of openings, crashes, rot and writes, one undisturbed opening gives a healthy database without marker, whose rows are exactly the first ones with every committed write in order |
| BlobRecovery.LastWriteStands | src/host/agent-isolation/conversation-blob-db.ts:13-18 | each row is as its last committed write left it, or as it was |
| BlobRecovery.IntentIsSafeIff | src/host/agent-isolation/conversation-blob-db.ts:141-169 | announcing a quarantine is safe exactly if its name is free or already holds the same rows |
| BlobRecovery.NoRowIsLostIffNameIsFree | src/host/agent-isolation/conversation-blob-db.ts:141-330 | crashes after the announcement and after the move lose no row to the reopening exactly if that name is free or holds the same rows |
| BlobRecovery.ReusedStampLosesARow | src/host/agent-isolation/conversation-blob-db.ts:141-330 | an older quarantine under the same stamp, a crash and a reopening, after which the row is gone |
| BlobRecovery.LoseARow | src/host/agent-isolation/conversation-blob-db.ts:141-549 | the methods themselves, run on that disk, end without the row |
| LegacyRetirement.AdoptionTakesOver | src/host/agent-isolation/conversation-blob-store.ts:12 | an adoption replaces no row, adds only legacy rows, and leaves what it offers in the database; it completes exactly if the legacy file is there and no statement fails |
| LegacyRetirement.WhatStaysAttached | src/host/agent-isolation/conversation-blob-store.ts:12 | the legacy file stays attached exactly if it was attached and could not be let go; what a rebuild leaves |
| LegacyRetirement.ConversationDb.AdoptLegacyBlobs | src/host/agent-isolation/conversation-blob-store.ts:12 | the statements in their order take that adoption, whichever of them fail |
| LegacyRetirement.ConversationDb.VerifyLegacyBlobRetirement | src/host/agent-isolation/legacy-blob-retirement.ts:4-6 | the checks in their order give the verdict, and which reason for deferring comes first |
| LegacyRetirement.StateFollowsEvents | src/host/agent-isolation/conversation-blob-store.ts:12 | over any run: the version says whether an adoption went through since the last rebuild, and what was offered is what the adopting openings saw |
| LegacyRetirement.RetirableIff | src/host/agent-isolation/legacy-blob-retirement.ts:4-6 | after any run, retirable exactly if an adoption went through since the last rebuild, the root is there, and all can be read |
| LegacyRetirement.RetirementIsSoundIff | src/host/agent-isolation/legacy-blob-retirement.ts:4-6 | then all rows of the legacy file were offered exactly if an adopting opening has seen each of them |
| LegacyRetirement.RetirementIsSound | src/host/agent-isolation/legacy-blob-retirement.ts:4-6 | so they were in every run in which the legacy file gains no row |
| LegacyRetirement.MeasureRows | src/host/agent-isolation/legacy-blob-retirement.ts:6 | the reported rows and bytes are those of the legacy file |
| LegacyRetirement.LateRowsAreLost | src/host/agent-isolation/legacy-blob-retirement.ts:6 | after any run with a retirable file, a row gained then leaves it retirable, and that row was never offered |
| WavePipeline.InitialInv | src/host/box/box-transfer.ts:17 | the invariant holds at the start |
| WavePipeline.StepKeepsInv | src/host/box/box-transfer.ts:17 | every segment keeps it: full waves cover the items in order once, each yields its works, works start first come first served, a parked worker implies a wave under way, and the next wave is begun as soon as the queue is short |
| WavePipeline.NeverStuck | src/host/box/box-transfer.ts:17 | while a worker has not left, some segment can run |
| WavePipeline.StepLowersRank | src/host/box/box-transfer.ts:17 | every segment lowers a rank, so every run ends |
| WavePipeline.Execute | src/host/box/box-transfer.ts:17 | under every scheduler the run ends with all workers gone |
| WavePipeline.NothingIsLost | src/host/box/box-transfer.ts:17 | a run without failure has prepared every item, in waves of the given size, and finished every work of every wave exactly once |
| WavePipeline.StepFailsIff | src/host/box/box-transfer.ts:17 | a segment fails the run exactly if a wave is rejected or a work fails, and the first failure is kept |
| WavePipeline.FailsIff | src/host/box/box-transfer.ts:17 | over any run, it has failed exactly if a wave was rejected or a work failed; each wave that resolved has yielded its works, in order |
| WavePipeline.FailureIsFinal | src/host/box/box-transfer.ts:17 | once failed, a run keeps its failure, hands out no wave and starts no work |
| WavePipeline.NoneStaysParked | src/host/box/box-transfer.ts:17 | a preparation that ends and a work that fails wake every parked worker |
| WavePipeline.Bounds | src/host/box/box-transfer.ts:17 | at most `concurrency` works at once; the queue stays below twice the wave size if no wave yields more than its size |
| WavePipeline.Pipeline.BeginWave | src/host/box/box-transfer.ts:17 | starts the next wave under the code's condition |
| WavePipeline.Pipeline.WorkerSegment | src/host/box/box-transfer.ts:17 | a worker's segment from wake-up to its next await |
| WavePipeline.Pipeline.ProcessSettled | src/host/box/box-transfer.ts:17 | what follows when a work is processed or fails |
| WavePipeline.Pipeline.PreparationEnds | src/host/box/box-transfer.ts:17 | after a preparation the next may begin and the parked workers wake |
| WriteLanes.JobSettlesKeepsInv | src/host/agent-isolation/transcript-mirror-offload.ts:218-239 | a job that comes back keeps the invariant: one job a conversation, a lane in the map exactly while it runs |
| WriteLanes.SubmitKeepsInv | src/host/agent-isolation/transcript-mirror-offload.ts:190-216 | so does a write |
| WriteLanes.CloseKeepsInv | src/host/agent-isolation/transcript-mirror-offload.ts:241-248 | so does closing |
| WriteLanes.EveryWriteSettles | src/host/agent-isolation/transcript-mirror-offload.ts:190-248 | once no job is in flight every write has settled with the result of a job submitted no earlier |
| WriteLanes.JobSettlesOnce | src/host/agent-isolation/transcript-mirror-offload.ts:218-239 | a job settles its own waiters and no settled promise again |
| WriteLanes.SubmitSettlesOnce | src/host/agent-isolation/transcript-mirror-offload.ts:190-216 | a write settles no earlier one; on a closed pool it is rejected at once |
| WriteLanes.WriteStarts | src/host/agent-isolation/transcript-mirror-offload.ts:190-216 | in an open pool with a worker a write to an idle conversation is on its way as its own job |
| WriteLanes.WriteJoins | src/host/agent-isolation/transcript-mirror-offload.ts:198-208 | a write to a busy one joins the queued ones and becomes their job |
| WriteLanes.WriteIsRejected | src/host/agent-isolation/transcript-mirror-offload.ts:190-216 | in a closed pool, or without a worker, it is rejected and leaves no lane |
| WriteLanes.NextJobStarts | src/host/agent-isolation/transcript-mirror-offload.ts:222-238 | in an open pool with a worker the queued job follows the one that comes back, its waiters unsettled |
| WriteLanes.NextJobIsRejected | src/host/agent-isolation/transcript-mirror-offload.ts:222-238 | else it is rejected, and the lane goes |
| WriteLanes.ResultsAreBrought | src/host/agent-isolation/transcript-mirror-offload.ts:218-239 | over any run, every result but a rejection was brought by the return of exactly that job |
| WriteLanes.ClosedIff | src/host/agent-isolation/transcript-mirror-offload.ts:241-248 | the pool is closed exactly from the closing on |
| WriteLanes.ClosedPoolRunsDry | src/host/agent-isolation/transcript-mirror-offload.ts:218-248 | after closing, a job that comes back is followed by no other of its conversation |
| WriteLanes.RunSettles | src/host/agent-isolation/transcript-mirror-offload.ts:190-248 | every run keeps the invariant and what is settled, and each job that comes back settles at least one more promise |
| WriteLanes.PoolRunsDry | src/host/agent-isolation/transcript-mirror-offload.ts:190-248 | without further writes at most as many jobs come back as promises are unsettled; after so many none is on its way, and exactly then every promise is settled |
| WriteLanes.TranscriptMirrorOffloadPool.Write | src/host/agent-isolation/transcript-mirror-offload.ts:190-216 | the method takes the step of a write |
| WriteLanes.TranscriptMirrorOffloadPool.JobEnds | src/host/agent-isolation/transcript-mirror-offload.ts:229-238 | the next queued job starts, or the lane goes |
| WriteLanes.ToInt32 | src/host/agent-isolation/transcript-mirror-offload.ts:168 | the 32-bit wrap-around: within range and congruent |
| WriteLanes.HashPlaces | src/host/agent-isolation/transcript-mirror-offload.ts:165-171 | each character counts with its power of 31 |
| WriteLanes.WorkerIndexFor | src/host/agent-isolation/transcript-mirror-offload.ts:165-171 | wrapping at every character is wrapping once, and the index is a worker's |
| WindowAllocator.ParseAssignments | src/host/box/shared-desktop-sand-box.ts:14 | exactly the entries that are windows, each fork once and to the first that has it, with their nonempty tokens |
| WindowAllocator.TakenInRange | src/host/box/shared-desktop-sand-box.ts:14 | whatever the document, what is taken is in range and no token is empty |
| WindowAllocator.TakenIff | src/host/box/shared-desktop-sand-box.ts:14 | an entry is taken exactly if it is a window and, for a fork, the first with its number |
| WindowAllocator.TokensIff | src/host/box/shared-desktop-sand-box.ts:14 | and its agent has a token exactly if the document has a nonempty text for it |
| WindowAllocator.FreeForkIsLeast | src/host/box/shared-desktop-sand-box.ts:26 | the fork handed out is the least one neither mapped nor in teardown; none exactly if there is none |
| WindowAllocator.AssignsASeat | src/host/box/shared-desktop-sand-box.ts:26-32 | a call keeps the seat of its agent or gets the least free fork, and is new exactly if there was none |
| WindowAllocator.ReadyMeans | src/host/box/shared-desktop-sand-box.ts:28-32 | a primary seat moves to the least free fork, the agent has its token or a new one, and the fork is brought up or given back |
| WindowAllocator.WindowMeans | src/host/box/shared-desktop-sand-box.ts:29-32 | success establishes the agent; failure goes back to the primary window, or forgets a new seat, after the fork is released |
| WindowAllocator.ReleaseForgets | src/host/box/shared-desktop-sand-box.ts:34 | a released agent has no seat and no token and is not established, and its fork is in teardown until the release is through |
| WindowAllocator.AdoptKeepsSeats | src/host/box/shared-desktop-sand-box.ts:24 | adopting persisted seats changes no window and no token that an agent has |
| WindowAllocator.StepKeepsInv | src/host/box/shared-desktop-sand-box.ts:24-34 | every segment keeps windows in range and forks unshared |
| WindowAllocator.ForksNeverShared | src/host/box/shared-desktop-sand-box.ts:24-34 | in every interleaving windows are within 1..maxWindowCount and no fork has two agents |
| WindowAllocator.StepKeepsSound | src/host/box/shared-desktop-sand-box.ts:24-34 | every segment that forgets no load but its own keeps at most one owner of the primary window, teardown unmapped, and one load under way |
| WindowAllocator.SeatsAreExclusive | src/host/box/shared-desktop-sand-box.ts:24-34 | in every such run no two agents share a window and no window in teardown is mapped |
| WindowAllocator.WindowInTeardownIsMapped | src/host/box/shared-desktop-sand-box.ts:24-34 | a run of two overlapping loads that seats an agent at a window in teardown |
| WindowAllocator.ExclusiveWhateverTheInterleaving | src/host/box/shared-desktop-sand-box.ts:24-34 | seats are exclusive in every interleaving exactly if nothing is persisted or there is one window |
| WindowAllocator.StepKeepsSeated | src/host/box/shared-desktop-sand-box.ts:24-34 | a segment that unseats no agent during another call of it leaves every call under way with its seat |
| WindowAllocator.WindowsComeUpForTheirAgents | src/host/box/shared-desktop-sand-box.ts:24-34 | in every run of such segments a window comes up only for the agent that is seated there |
| WindowAllocator.WindowComesUpForAnother | src/host/box/shared-desktop-sand-box.ts:24-34 | a run in which an agent is released during its call and another is seated at the window that comes up for the first |
| WindowAllocator.OwnWindowsWhateverTheInterleaving | src/host/box/shared-desktop-sand-box.ts:24-34 | windows come up for their agents in every interleaving exactly if none is brought up or there is one window |
| WindowAllocator.UndisturbedCall | src/host/box/shared-desktop-sand-box.ts:26-32 | a call by itself ends with a fork and a token, or leaves the seats as they were |
| WindowAllocator.SnapshotRoundTrip | src/host/box/shared-desktop-sand-box.ts:14-25 | parsing a persisted snapshot gives seats and tokens back, and a fresh allocator adopts them all if they were exclusive |
| WindowAllocator.SharedDesktopSandBox.TakeFreeForkIndex | src/host/box/shared-desktop-sand-box.ts:26 | the loop takes that fork |
| WindowAllocator.SharedDesktopSandBox.MigrateLegacyPrimarySeat | src/host/box/shared-desktop-sand-box.ts:28 | a primary seat moves to a free fork |
| WindowAllocator.SharedDesktopSandBox.AdoptPersisted | src/host/box/shared-desktop-sand-box.ts:24 | the loop over persisted seats adopts those whose agent and window are free |
| WindowAllocator.SharedDesktopSandBox.AfterInnerReady | src/host/box/shared-desktop-sand-box.ts:28-32 | the segment that migrates, mints a token, or gives the window back |
| WindowAllocator.SharedDesktopSandBox.AfterEnsureWindow | src/host/box/shared-desktop-sand-box.ts:29-32 | the segment after the window came up or failed |
| WindowAllocator.SharedDesktopSandBox.AfterRollback | src/host/box/shared-desktop-sand-box.ts:29-30 | the segment that ends a rollback or restores the primary seat |
| HostExtensions.Sort | src/shared/host-extensions.ts:69-127 | sorting ids: ascending by code units, the same ids |
| HostExtensions.PeersComeFirst | src/shared/host-extensions.ts:69-81 | in a boot order every peer comes before what depends on it, and not again |
| HostExtensions.BootOrderIsUnique | src/shared/host-extensions.ts:69-81 | the order is determined by the peers alone |
| HostExtensions.OrderMeansAcyclic | src/shared/host-extensions.ts:69-81 | a graph with a boot order has no closed walk |
| HostExtensions.CycleSearch.WalkFrom | src/shared/host-extensions.ts:116-126 | the recursive walk returns a genuine closed walk of peers that have not started, or restores its path; on a stuck graph it always finds one |
| HostExtensions.CycleSearch.DescribeCycle | src/shared/host-extensions.ts:113-133 | terminates and names a closed walk whenever every unstarted extension waits for another, so the fallback is not reached |
| HostExtensions.CollectPeers | src/shared/host-extensions.ts:58-62 | a duplicate id is refused, exactly if there is one |
| HostExtensions.FindFault | src/shared/host-extensions.ts:63-68 | the first dependency on itself or on a missing extension is named, exactly if there is one |
| HostExtensions.Boot | src/shared/host-extensions.ts:69-81 | the loop returns the boot order or a closed walk |
| HostExtensions.ResolveHostExtensionBootOrder | src/shared/host-extensions.ts:57-82 | which error is raised when; for well-formed peers a cycle error exactly if the graph is cyclic, else a permutation of the ids with every peer first |
| HostExtensions.IndependentOfDeclarationOrder | src/shared/host-extensions.ts:57-82 | declaring the extensions in another order changes neither acceptance nor the order |
| HostExtensions.RegisteredInOrder | src/shared/host-extensions.ts:92-104 | teardowns are registered in boot order, and within an extension in its own order |
| HostExtensions.DependentsStopFirst | src/shared/host-extensions.ts:93-97 | run in reverse, dependents' teardowns come before dependencies', each once |
| HostExtensions.Lifecycle.RunNext | src/shared/host-extensions.ts:94-96 | runs one teardown; nothing is lost or run twice, however many stops overlap |
| HostExtensions.Lifecycle.AllRanOnce | src/shared/host-extensions.ts:93-97 | once all stops are through each teardown has run exactly once |
| HostExtensions.Lifecycle.StartHostExtensions | src/shared/host-extensions.ts:84-111 | starts in boot order; on the first failure exactly the teardowns registered so far run, in reverse |
| TranscriptThreads.ResolveBranchRootInTranscript | src/shared/transcript.ts:21-23 | the upward chase of transcript.ts |
| TranscriptThreads.ResolveBranchRoot | src/shared/transcript-threads.ts:11-26 | the upward chase of transcript-threads.ts |
| TranscriptThreads.WhatReplies | src/shared/transcript.ts:21-22 | which kinds of entries reply and branch |
| TranscriptThreads.RootIffDescends | src/shared/transcript-threads.ts:11-26 | the chase finds a root exactly if the entry descends from it; the seen set never cuts it short |
| TranscriptThreads.CollectChildren | src/shared/transcript.ts:33 | the buckets hold exactly the answers to each entry |
| TranscriptThreads.GetThreadTranscriptEntries | src/shared/transcript.ts:31-36 | the breadth-first search returns exactly the entries below the root, in transcript order, also on cyclic replies |
| TranscriptThreads.GetMainTranscriptEntries | src/shared/transcript.ts:25-29 | all entries but the thread messages, in order |
| TranscriptThreads.ThreadDescendants | src/shared/transcript-threads.ts:41-49 | the branched entries whose chase ends at the root, in order |
| TranscriptThreads.BranchReplyCounts | src/shared/transcript-threads.ts:28-39 | each count is the number of descendants, and no zero is kept |
| TranscriptThreads.BranchedById | src/shared/transcript-threads.ts:31-47 | with unique ids, looking up among branched entries only is looking up a branched entry |
| TranscriptThreads.TwoWays | src/shared/transcript.ts:21-36 | below a root lie exactly the branched entries whose chase ends at that root |
| TranscriptThreads.ThreadIsRootAndDescendants | src/shared/transcript.ts:31-36 | the thread is the root and those of its descendants that have an id, in the same order |
| TranscriptThreads.CountIsThreadSizeIff | src/shared/transcript-threads.ts:28-39 | a count is the size of the thread less its root exactly if the root is in the transcript and all that is counted has ids |
| TranscriptThreads.OnePlaceEach | src/shared/transcript.ts:25-36 | an entry with an id is a main entry or in one thread, never both and never in two |
| TranscriptThreads.NothingIsLostIff | src/shared/transcript.ts:25-36 | main entries and threads together hold everything exactly if every thread message has an id |
| TranscriptThreads.MissingRootsAreCounted | src/shared/transcript-threads.ts:18-21 | an entry whose root is missing is counted, yet in no thread |
| ScalarText.UnescapeEscapeAll | src/shared/workflow-model.ts:11-17 | quoted text is read back as it was (RFC 8259, section 7) |
| ScalarText.EscapeAllTerminators | src/shared/workflow-model.ts:17 | quoting escapes line feeds and carriage returns, and leaves exactly the two separators |
| ScalarText.EscapesAre | src/shared/workflow-model.ts:11-17 | the escapes written and read are those of RFC 8259, section 7 |
| ScalarText.FourDigitsAre | src/shared/workflow-model.ts:11 | four digits after `\u` are read as any character but half of a pair |
| ScalarText.SingleQuoted | src/shared/workflow-model.ts:11 | text between apostrophes is read as it is, with two of them for one |
| ScalarText.PlainTextIsRead | src/shared/workflow-model.ts:11 | text that is no number, word or quotation stands for itself, trimmed |
| ScalarText.DecimalIff | src/shared/workflow-model.ts:11 | a number is digits, with a sign before and a fraction behind them or not |
| ScalarText.ReadPrint | src/shared/workflow-model.ts:11-17 | a scalar is read back on a line of its own exactly if it is one of those that survive |
| Frontmatter.ParseFrontmatter | src/shared/workflow-model.ts:12 | the stack of open records, line by line |
| Frontmatter.EmitYaml | src/shared/workflow-model.ts:17 | the recursive printer with its loop |
| Frontmatter.KeyLine | src/shared/workflow-model.ts:12 | how the line pattern takes an indented key apart |
| Frontmatter.FeedEmit | src/shared/workflow-model.ts:12-17 | on any stack, the printed lines of a tree add that tree to the record they belong to |
| Frontmatter.ClosesWhatIsNotShallower | src/shared/workflow-model.ts:12 | a line closes exactly the records that are not indented less than itself |
| Frontmatter.AssignsInPlace | src/shared/workflow-model.ts:12 | a key that is there keeps its place and gets the value; the key of the prototype is no field |
| Frontmatter.CommentsAreIgnored | src/shared/workflow-model.ts:12 | blank lines and comments may stand anywhere |
| Frontmatter.CarriageReturnsAreIgnored | src/shared/workflow-model.ts:12 | a carriage return in front of a line feed goes with it; the last line of a block has no line feed, and `LineEndings` says what becomes of its carriage return |
| Frontmatter.ParsesWhatWasPrinted | src/shared/workflow-model.ts:12-17 | parsing a printed tree gives the tree as its scalars are read back |
| Frontmatter.RecoveredIff | src/shared/workflow-model.ts:12-17 | that is the tree itself exactly if every scalar in it survives |
| Clamping.RunBecomesASpace | src/shared/workflow-model.ts:8-15 | every run of line breaks, or of white space, is replaced by one space, and what is between the runs stays |
| Clamping.LineIsClampedIff | src/shared/workflow-model.ts:8 | clamping leaves exactly the lines alone that are trimmed, without line breaks and not too long |
| Clamping.BlockIsClampedIff | src/shared/workflow-model.ts:8 | and exactly the blocks that are trimmed and not too long |
| Clamping.ClampedTwiceIff | src/shared/workflow-model.ts:8 | clamping again changes nothing exactly if the text does not end in white space |
| Clamping.CutBehindASpace | src/shared/workflow-model.ts:8 | a line cut behind a space, and shorter when it is clamped again |
| Clamping.ScheduleIsNormalIff | src/shared/workflow-model.ts:15 | a schedule is left as it is exactly if it is trimmed, with single spaces between its fields |
| Clamping.NormalizedTwice | src/shared/workflow-model.ts:15 | normalising a schedule again changes nothing |
| WorkflowFile.ParseWorkflowFile | src/shared/workflow-model.ts:13-16 | the parse of a file in terms of its block and body |
| WorkflowFile.SerializeWorkflowFile | src/shared/workflow-model.ts:18 | the edits of the copied record, and the file |
| WorkflowFile.SplitsWhatWasWritten | src/shared/workflow-model.ts:13-18 | the two rules are found again where they were written |
| WorkflowFile.BodyComesBack | src/shared/workflow-model.ts:8-18 | a clamped body is read back |
| WorkflowFile.WrittenFields | src/shared/workflow-model.ts:18 | the fields written, over any existing ones, hold what the workflow says, and a key begins like a rule exactly if an existing one did |
| WorkflowFile.FirstFile | src/shared/workflow-model.ts:17-18 | the lines of a workflow that is written for the first time |
| WorkflowFile.SplitsAtAKey | src/shared/workflow-model.ts:13-18 | a file with a root key that begins like a rule is split there, and what is taken for the body is longer than the body |
| WorkflowFile.WorkflowRoundTrip | src/shared/workflow-model.ts:13-18 | over any fields a workflow in normal form with a body below the maximal length comes back exactly if no root key begins like a rule and no separator is in its texts; one with a body of that length does under this condition |
| WorkflowFile.EveryBodyComesBackIff | src/shared/workflow-model.ts:13-18 | every body comes back, with name, description, trigger and source, exactly under that condition |
| WorkflowFile.ParsedIsGood | src/shared/workflow-model.ts:12 | whatever text is parsed, its fields are such that the printer may be given them |
| WorkflowFile.SavedAgainComesBackIff | src/shared/workflow-model.ts:12-18 | so the exact condition holds of every workflow that is read and saved over its own fields |
| WorkflowFile.IndentedRuleLosesTheFields | src/shared/workflow-model.ts:12-18 | an indented rule is read as a root key, and whatever is saved over it has no field left when it is read |
| WorkflowFile.IsNormalIff | src/shared/workflow-model.ts:8-9 | normal are exactly the texts that are trimmed, of one line where they must be, and no longer than 80, 1536 and 100000, and schedules with one space between their fields |
| WorkflowFile.ReadIsNormalIff | src/shared/workflow-model.ts:8-16 | a workflow that is read is normal exactly if none of its texts was cut behind white space |
| WorkflowFile.PlainTextIsBody | src/shared/workflow-model.ts:13-16 | a file that does not begin with a rule is all body |
| WorkflowFile.SourceIsRead | src/shared/workflow-model.ts:14 | the source is the text under the metadata, or the text at the root of an older file |
| WorkflowFile.SourceIsKeptIff | src/shared/workflow-model.ts:14-18 | a source that is left as it is stays what it is read as, exactly if nothing but text or null stands in front of a source at the root |
| WorkflowFile.HiddenSourceIsLost | src/shared/workflow-model.ts:14-18 | a record whose source is read, and gone once the workflow is saved |
| LineEndings.SplitsCrLf | src/shared/workflow-model.ts:13 | with carriage returns the rules are found where they are without, and the block ends in one |
| LineEndings.ReturnedLine | src/shared/workflow-model.ts:12 | a line that keeps its carriage return is no field if it has a value, and else is read as without it |
| LineEndings.CrLfIsReadAs | src/shared/workflow-model.ts:12-16 | any file, given carriage returns, is read like the one without them, but for the last line of its fields if that has a value |
| LineEndings.CrLfLosesTheLastValue | src/shared/workflow-model.ts:12-18 | a written file, given carriage returns, is read as all its fields without the last value |
| LineEndings.CrLfIsReadAsLfIff | src/shared/workflow-model.ts:12-18 | its fields are those of the file without carriage returns exactly if its last line is a key without a value, or one that is not read anyway |
| LineEndings.CrLfSwitchesATriggerOn | src/shared/workflow-model.ts:14-18 | a workflow that is switched off is then read as one that is on |
| LineEndings.CrLfLosesTheName | src/shared/workflow-model.ts:12-18 | a file whose name is lost in this way |
| SseReader.ReadSseEvents | src/sdk/index.ts:121-141 | however the text is cut, the reader ends as if it had come at once |
| SseReader.FeedAfter | src/sdk/index.ts:129-139 | a chunk after some text is the two together |
| SseReader.LinesMean | src/sdk/index.ts:133-139 | data lines add up, a blank line yields the event or drops what does not parse, and other lines mean nothing |
| SseReader.EventOfManyLines | src/sdk/index.ts:133-139 | an event may be spread over any number of data lines |
| SseReader.PrefixIsRead | src/sdk/index.ts:121-141 | of any part of the server's stream exactly the complete data frames are yielded, in order |
| SseReader.FramingIsUndone | src/sdk/index.ts:121-141 | so for every chunking of retry, ping and data frames |
| SseReader.FramesAre | src/host/gateway-server.ts:78 | the text of each frame |
| SseReader.SseStream.Write | src/host/gateway-server.ts:78 | writes a data frame |
| WorkerPool.RequestsSettleOnce | src/host/agent-isolation/agent-worker-pool.ts:111-161 | each request is pending or settled, and settles once, by its reply or by the death |
| WorkerPool.AgentWorkerConnection.Send | src/host/agent-isolation/agent-worker-pool.ts:138-161 | a request gets a new id, or is refused by a dead worker |
| WorkerPool.AgentWorkerConnection.OnMessage | src/host/agent-isolation/agent-worker-pool.ts:111-121 | a reply settles its request; an unknown one changes nothing |
| WorkerPool.AgentWorkerConnection.Die | src/host/agent-isolation/agent-worker-pool.ts:129-136 | a death rejects every pending request, once |
| WorkerPool.VictimMeaning | src/host/agent-isolation/agent-worker-pool.ts:508-521 | the victim is the least active connection not in use; none exactly if all are |
| WorkerPool.EvictionSparesRetained | src/host/agent-isolation/agent-worker-pool.ts:508-524 | eviction drops nothing below capacity and nothing in use, and one at capacity if any is free |
| WorkerPool.SpawnGrowsOnlyIfAllRetained | src/host/agent-isolation/agent-worker-pool.ts:291-322 | at or above its limit the pool grows only if every held connection is in use |
| WorkerPool.SweepSparesCalls | src/host/agent-isolation/agent-worker-pool.ts:540-549 | the sweep keeps every connection a call is using |
| WorkerPool.CallFindsOrSpawns | src/host/agent-isolation/agent-worker-pool.ts:291-322 | a call uses the connection held for its path, or a new one that is asked to initialise |
| WorkerPool.CallsGoOn | src/host/agent-isolation/agent-worker-pool.ts:324-356 | a call goes on only after its worker has initialised, makes a new request unless the worker is dead, and ends when that is settled |
| WorkerPool.WhoLeaves | src/host/agent-isolation/agent-worker-pool.ts:477-549 | which held connections each step gives up, exactly |
| WorkerPool.ConnectionsChange | src/host/agent-isolation/agent-worker-pool.ts:111-161 | those are asked to close, a dead one fails its requests, and no other connection changes |
| WorkerPool.StepKeepsInv | src/host/agent-isolation/agent-worker-pool.ts:291-549 | every segment keeps retain counts equal to calls under way, one live connection a path, and the timer on exactly while connections are held |
| WorkerPool.RunKeepsInv | src/host/agent-isolation/agent-worker-pool.ts:111-549 | so does every run, and what has settled stays settled |
| WorkerPool.CallsAreAnswered | src/host/agent-isolation/agent-worker-pool.ts:324-356 | the request a call waits for is settled or has a live worker |
| WorkerPool.AgentWorkerPool.EvictForCapacity | src/host/agent-isolation/agent-worker-pool.ts:508-524 | the loop drops that victim |
| WorkerPool.AgentWorkerPool.BeginCall | src/host/agent-isolation/agent-worker-pool.ts:291-322 | a call retains its path and finds or spawns a connection |
| WorkerPool.AgentWorkerPool.SweepIdle | src/host/agent-isolation/agent-worker-pool.ts:540-549 | the loop drops what is idle and not in use |
| WorkerPool.AgentWorkerPool.OnExit | src/host/agent-isolation/agent-worker-pool.ts:129-136 | a dead worker's connection is no longer held |
| Timers.OneLiveTimerPerKey | src/shared/scheduling.ts:226-248 | an expiry key has at most one live timer |
| Timers.StaleHandlesAreHarmless | src/shared/scheduling.ts:232-246 | arming ends the key's earlier timer only; a stale handle ends none |
| Timers.LiveAfter | src/shared/scheduling.ts:226-248 | which timers are live after a step, and a timer expires exactly when it fires |
| Timers.EndedStaysEnded | src/shared/scheduling.ts:226-248 | over any run a timer that has ended does not expire again, or at all if it was superseded or disposed of |
| Timers.ExpiryPolicy.Arm | src/shared/scheduling.ts:232-239 | arming a key |
| Timers.TicksDoNotOverlap | src/shared/scheduling.ts:188-217 | a tick starts only while polling is active and none is under way, and active polling always has its next tick coming |
| Timers.PollingGoesOn | src/shared/scheduling.ts:188-217 | polling goes on until it is disposed of or a tick throws or is rejected; a timer that fires starts a tick, and a tick that settles well schedules the next |
| Timers.PollingStarts | src/shared/scheduling.ts:210-217 | it begins with a tick, or not at all if aborted before |
| Timers.NoTickAfterDispose | src/shared/scheduling.ts:192-201 | over any run no tick starts after disposal |
| Timers.PollingPolicy.constructor | src/shared/scheduling.ts:188-217 | polling starts with a tick, unless aborted before |
| Timers.PollingPolicy.AfterTick | src/shared/scheduling.ts:205-208 | a settled tick schedules the next, a rejected one ends polling |
| Timers.CallsSupersede | src/shared/scheduling.ts:61-65 | a debounced call ends the wait of the one before |
| Timers.OnlyTheLastCallRuns | src/shared/scheduling.ts:61-65 | what runs is the last call, and it has not run before |
| Timers.NothingRunsAfterDispose | src/shared/scheduling.ts:61-65 | after disposal nothing runs |
| Timers.DebouncePolicy.Call | src/shared/scheduling.ts:64 | a debounced call |
| Timers.DelaysGrowToTheLimit | src/shared/scheduling.ts:120-124 | the first delay is the initial one; delays do not shrink and do not exceed the limit |
| Timers.DelaysMultiply | src/shared/scheduling.ts:120-124 | each delay is the one before times the factor, or the limit |
| Timers.RunWithRetry | src/shared/scheduling.ts:125-148 | attempts 1, 2, ... at most as many as allowed, each after the delay of the one before, going on only after a retryable failure; which outcome when |

## Assumptions

- A recovery's renames and the quarantine of the database are each one step of the disk. A stamp names nothing yet, or the
  same rows. A file that rots keeps its readable rows.
- A zone is an offset in whole minutes that changes at most once in any 24 hours; no change takes back more than a day, and
  one that skips a day or more does so at local midnight, as Samoa's did.
- The decoder of the event stream hands over the server's text in pieces; what it holds back comes with a later piece.
- A promise settles once; the reactions to it are separate steps.

## Left out

- BlobRecovery.BlobDirectory.Recover: does not model write-ahead logs and other side files, which have no rows of their own once a file stands as its rows and a version; a source that cannot be moved is always kept, as the code asks for.
- BlobRecovery.BlobDirectory.Rebuild: does not model the three attempts at opening the replacement, or its side files; an attempt that fails for good is the one disturbance.
- BlobRecovery.BlobDirectory.FindPendingRecovery: does not model the loop over stale markers, because a safe disk has at most one marker, which is proved of every disk in every run.
- BlobRecovery.BlobDirectory.Open: the retries of the cleanup and of the health check are one disturbance, which may come or not.
- WorkerPool.AgentWorkerPool.BeginCall: connections stand as values in the pool's state, so two names for one connection object are not captured; the connection's own class is `AgentWorkerConnection`.
- Frontmatter.ParseFrontmatter: open records stand as a stack of values that are put back into their parents when they are closed, so the sharing of the nested objects is not captured; nor is inheritance from an assigned prototype, nor that keys which are array indices come first in a record.
- ScalarText.ReadPrint: a number stands as the decimal text it is printed as, and an escape for half of a surrogate pair is refused, because texts are sequences of whole characters.
- WorkflowFile.WorkflowRoundTrip: lengths are counted in characters, not in UTF-16 code units, and a source comes back trimmed, because the parser trims it.
- Timers.RunWithRetry: delays are real numbers, so rounding is not modelled, and one plan says of each attempt both how it ends and whether the wait after it is aborted.
- SseReader.ReadSseEvents: the bytes of the stream and gzip are not modelled.
- `clearStaleCheckpointRoots`, `forEachBounded`, `computeNextRunAt` with `@every`, and the idle watchdog and deadline policies: simpler than their modelled neighbours.
- `OffloadingTranscriptMirror.write`: a chain of promises; `MirrorWorkerConnection`: the same request protocol as `AgentWorkerConnection`.
- The wording of the prose (names of days, clock format): only its structure is modelled. `Intl` zone lookup: a zone is given by its offsets.
- The bytes of blobs and of protocol messages: what a blob refers to is given by its fields.
- The APIs that extensions hand to each other, and host events.
- Telemetry, prompts, HTTP, sockets, worker threads, and the real clock and file system.
