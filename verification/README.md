# Proofs about fpstune

fpstune reads and writes the settings of a Windows machine from a local web page. This project
models the parts of it whose correctness is spread over several functions, and proves what they
promise, for every input, every run and every interleaving.

| file | models |
|---|---|
| `InstanceLock.dfy` | the single-instance lock and the PID file, for any number of processes |
| `Takeover.dfy` | asking the old instance to stop, and the two bounded waits |
| `EventStream.dfy` | the reader of the server's event stream |
| `BulkRun.dfy`, `BulkRunHistory.dfy`, `RunOutcomes.dfy` | the bulk run: its callbacks, every history of the store, what each row ends as |
| `ActionRun.dfy`, `ActionOutcomes.dfy`, `SizeReading.dfy` | what a cleanup run shows and stores, and how its readings are parsed |
| `SettingValues.dfy`, `SettingsStore.dfy` | comparing and showing values; the settings store and the counts on it |
| `Detection.dfy` | detection replies in any order, re-detects that share a request |
| `DiskBench.dfy`, `Lanes.dfy`, `QueuedPass.dfy` | sector arithmetic, the tail statistics, the deep-queue pass |
| `Download.dfy` | the verified download, cut off at any step |
| `ShellScript.dfy`, `Controls.dfy` | the registry of quality controls against what the stages run |
| `Manifest.dfy`, `ManifestAbsorption.dfy` | pointing a winget manifest at a release |
| `Options.dfy`, `Sequences.dfy`, `Sorting.dfy`, `Text.dfy` | option type, concatenation, sorting, string operations |

Code that updates fields or loops is a class or a method, proved against a specification function;
the properties are lemmas about that function, about its runs, or about the state machine whose
steps the methods take. Text is `seq<char>`, time and latencies are `real`, and what the operating
system, the network or another module answers is a parameter.

## What turned out false

Each of these is a documented or natural claim that the code does not meet. The model follows the
code; one lemma gives an input (or a run), and another says exactly when the claim holds.

- `_shutdown_cleanup` is documented as safe to call twice (`src/fpstune/cli.py:856`). A second call
  removes the PID file without the lock, and can remove a newer instance's
  (`SecondCleanupDeletesNewerFile`; exactly: `SecondCleanupExactly`).
- `is_pending` is documented as "a second request is not another stop" (`src/fpstune/api/shutdown.py:65`).
  The route awaits between the check and the mark, so two requests can schedule two stops
  (`TwoRequestsCanScheduleTwoStops`; exactly, for any requests and any schedule: `SecondStopExactly`).
- `fetch_verified` is documented to raise `DownloadError` on any failure and leave no `.part`
  (`src/fpstune/benchmark/download.py:51-52`). A refused plain address leaves an old partial file
  (`RefusalKeepsOldPart`); a read error that is neither an `OSError` nor a `ValueError`, such as an
  `http.client` exception, escapes as itself and leaves the partial file (`EscapedReadLeavesPart`); a
  failed rename whose clean-up fails leaves it too (`FailedRenameLeavesPart`). Exactly: `FailureExactly`.
- `detectAll` is documented to stop re-running after its first successful completion
  (`frontend/src/store/detection-manager.ts:157`). It never re-runs after any completion, failures
  included (`FailedPassIsFinal`, `PassIsNeverRepeated`); when the completion was a successful one:
  `PassSucceededExactly`.
- Comments of a shell script are documented as dropped (`scripts/controls.py:298`). A `#` line inside a
  continued command is kept (`CommentInsideACommandRuns`; exactly: `CommentDroppedExactly`).
- The disk bench's constructor checks that the block size is positive, not that a block fits the
  file; then the one drawable offset is past the end (`OffsetPastTheFile`; exactly: `OffsetsLegalExactly`).
- Values that display alike are not always equal: a switch and the text that spells its label
  (`SwitchIsNotItsLabel`; exactly: `DisplayedAlikeExactly`).
- A manifest rewrite does not always absorb an earlier one: a first date stays when the installer
  marker stands only on lines the rewrite replaces or in the banner it drops
  (`RewrittenMarkerKeepsFirstDate`; exactly: `RewriteAbsorbsExactly`).

## Model

| member | source | states |
|---|---|---|
| InstanceLock.Instance.AcquireInstanceLock | src/fpstune/cli.py:62-79 | Taking the lock succeeds exactly when nobody holds the port, and a failed attempt changes nothing. |
| InstanceLock.FileStep | src/fpstune/cli.py:82-97 | A write or removal of the PID file, going through or not, is by the lock's holder and leaves every serving instance's file as it was. |
| InstanceLock.Instance.WritePidFile | src/fpstune/cli.py:82-97 | A write that goes through names the process and its port, one that cannot open the file leaves it, and one that fails half-way leaves it torn. |
| InstanceLock.Instance.ShutdownCleanup | src/fpstune/cli.py:855-869 | The PID file goes while the port is still bound and the lock only after it; without the lock, only the file is touched. |
| InstanceLock.LockAlways | src/fpstune/cli.py:62-79 | In every run of any processes, an open lock socket and the bound port name the same process, through exits and kills. |
| InstanceLock.AtMostOneHolder | src/fpstune/cli.py:62-79 | At most one process holds the lock in any reachable state, and a process serves only while holding it. |
| InstanceLock.PidFileBelongsToHolder | src/fpstune/cli.py:325-334 | With one cleanup per process, every write or removal of the PID file is by the lock's holder and never spoils a serving instance's file. |
| InstanceLock.ServingFileSurvives | src/fpstune/cli.py:855-869 | A serving instance keeps its PID file through any steps of any other processes. |
| InstanceLock.StopLeavesNothingBehind | src/fpstune/cli.py:855-869 | From any reachable state, a serving process that stops with its removal going through leaves no file, a free port and no holder, and a process that is waiting then takes the lock. |
| InstanceLock.KilledFreesTheLock | src/fpstune/cli.py:62-79 | A kill in any reachable state frees the lock if that process held it, keeps the file as it was, and changes no other holder. |
| InstanceLock.SecondCleanupExactly | src/fpstune/cli.py:865-869 | In any reachable state, whatever cleanups went before, a second cleanup leaves every serving instance its file exactly when the removal fails and they all had theirs, or goes through and no process that wrote its file is serving. |
| InstanceLock.SecondCleanupDeletesNewerFile | src/fpstune/cli.py:856 | A concrete run in which cleaning up twice deletes the newer instance's file. |
| Takeover.ShutdownHook.StopWhenIdle | src/fpstune/api/shutdown.py:79-114 | The wait ends at the first look that finds the operation over or the deadline passed, within ceil(wait/poll) sleeps; the server is stopped exactly when a hook is registered. |
| Takeover.StopTime | src/fpstune/api/shutdown.py:92-107 | However long the operation runs, the wait ends at most one poll and one look past its deadline. |
| Takeover.OnTheWayGrows | src/fpstune/api/routes/system.py:228-230 | What has passed the check is never called back: stops scheduled and on their way only grow. |
| Takeover.SecondStopExactly | src/fpstune/api/routes/system.py:220-230 | Over any requests in any schedule, hooks registered and forgotten at any time: once no handler is between check and mark, at most one stop was scheduled exactly when none passed the check while another was there. |
| Takeover.TwoRequestsCanScheduleTwoStops | src/fpstune/api/routes/system.py:225-230 | Two requests interleaved at the await schedule two stops. |
| Takeover.WaitForLock | src/fpstune/cli.py:452-478 | Takes the lock at the first attempt that finds it free, or gives up at the first reading past the timeout; ends within ceil(timeout/poll)+1 attempts. Reports lie at least five seconds apart, each is the reading of an attempt, and no failed attempt comes five seconds or more after the last report. |
| Takeover.WaitCatchesRelease | src/fpstune/cli.py:465-478 | A port freed for good early enough before the timeout is always caught. |
| Takeover.ClaimSingleInstance | src/fpstune/cli.py:363-411 | The polite wait is 70 s when some instance answered the stop request with success, and 20 s otherwise; the kill path is reached exactly when the lock was taken and that wait ran out, and it takes the lock only if the holder was ended, within a wait of 10 s. |
| Takeover.PoliteTakeoverWins | src/fpstune/cli.py:396-404 | If the old instance accepted the stop and everything beside the two waits takes under 9.5 s (70 s less 60 s and one 0.5 s poll), the new one gets the lock. |
| Takeover.TakeOverPolitely | src/fpstune/cli.py:363-411 | The same for the whole claim: it takes over after the stop and kills nothing. |
| Takeover.OneOfSeveralNewcomersWins | src/fpstune/cli.py:396-404 | Any number of newcomers share the exclusive port: the first attempt after the old instance let go wins, and nobody's wait ends before it, so none goes on to end the old instance. |
| EventStream.SplitFramesIsTheCut | frontend/src/lib/api.ts:288 | The frames joined by the delimiter are the text, and no frame contains a delimiter. |
| EventStream.SplitContinues | frontend/src/lib/api.ts:285-289 | Splitting the held-back fragment with more text behind it continues the split of the whole, also when a delimiter straddles the cut. |
| EventStream.StreamReader.Feed | frontend/src/lib/api.ts:285-301 | One read delivers exactly the frames it completes, in order, and holds back the rest; what a frame delivers is FrameIsHeard. |
| EventStream.StreamReader.Post | frontend/src/lib/api.ts:267-312 | Whatever frames a server sends and however their bytes are cut into reads, the calls are the frames' payloads in order, each without its "data: " prefix and left out when it does not parse, then `onDone` at the end, `onError` at a failure and nothing at an abort; a refused, missing or bodyless response makes its one call, an abort none. |
| EventStream.FrameIsHeard | frontend/src/lib/api.ts:290-297 | A frame of any lines makes exactly the call of its first line that starts with "data: ", for what follows the prefix, and none when that does not parse or no line does. |
| EventStream.PayloadsAreDelivered | frontend/src/lib/api.ts:281-302 | Bytes that spell any frames, cut into any reads, deliver exactly those frames' payloads and then the ending's call. |
| EventStream.ChunkingInvariance | frontend/src/lib/api.ts:281-302 | For every way of cutting the bytes into reads, the delivered events are the same, in the same order. |
| EventStream.UnterminatedNeverDelivered | frontend/src/lib/api.ts:286-289 | Bytes that complete no frame change nothing that is delivered, whatever ends the stream. |
| EventStream.TerminalCallIsLast | frontend/src/lib/api.ts:303-311 | `onDone` or `onError` is called at most once and nothing follows it. |
| BulkRun.RunCallbacks.Event | frontend/src/hooks/useApply.ts:170-201 | One stream event moves one row, and remembers an id that ever warned. |
| BulkRun.RunCallbacks.Done | frontend/src/hooks/useApply.ts:143-166 | The end of a run: no row changes, the slot is free, one operation less is under way, and the user is told how many places of the run hold a verified or skipped row and how many a failed one, and, when there are any, how many ids warned; the tone is a success exactly when nothing failed or warned, and the fifty newest notifications stay. |
| BulkRun.RunCallbacks.Error | frontend/src/hooks/useApply.ts:203-216 | A dying stream fails every row of the run still queued or running, for its reason, and no other row; then the reason is told and the run ends as above, counting the rows as they now are. |
| BulkRun.Run | frontend/src/hooks/useApply.ts:131-221 | A run opens exactly when none is open and there is something to do; then exactly its ids have a row, all queued without a reason, one operation more is under way and nothing is told. |
| BulkRun.Stop | frontend/src/hooks/useApply.ts:223-238 | Cancels the open run, if any: its queued rows become skipped without a reason, every other row stays, the slot is free, one operation less is under way and the user is told; a store with no run is left alone. |
| BulkRunHistory.BalancedStep | frontend/src/hooks/useApply.ts:131-238 | Every step of writes, runs, stops and callbacks keeps the counter equal to what is open. |
| BulkRunHistory.CounterIsExact | frontend/src/store/index.ts:294-307 | In every reachable state the counter is the open writes plus one for an open run, the busy flag says whether it is positive, and no two runs are open. |
| BulkRunHistory.LateCallbackExactly | frontend/src/lib/api.ts:304-308 | A callback after the stream was closed keeps the balance exactly when it is an event or nothing is under way: the silence of cancelled streams is needed. |
| BulkRunHistory.DismissRemovesExactlyOne | frontend/src/store/index.ts:309-320 | At most fifty notifications are kept, ids never repeat, and dismissing removes exactly one. |
| RunOutcomes.RowEndsAs | frontend/src/hooks/useApply.ts:175-200 | A row's final status and reason are those of its last outcome and the reason still standing. |
| RunOutcomes.VerifiedExactly | frontend/src/hooks/useApply.ts:185-191 | A row ends plainly verified exactly when its last outcome is `verified` and no reason is standing. |
| RunOutcomes.WarningsStickExactly | frontend/src/hooks/useApply.ts:177-191 | Whatever came before and after, a row that was warned ends plainly verified exactly when `verified` is its last outcome and the last reason said, or the warnings if none was said since, is empty. |
| RunOutcomes.WarnedStaysWarned | frontend/src/hooks/useApply.ts:177-191 | Warnings that say something stay on the row, with their text, through any verification, until a later event says a reason anew. |
| RunOutcomes.EmptyWarningIsLost | frontend/src/hooks/useApply.ts:181-191 | What the reducer would make of one empty warning, which the server never sends: the row ends plainly verified. |
| RunOutcomes.RowFollowsItsEvents | frontend/src/hooks/useApply.ts:169-201 | Whatever the other rows and writes do in between, a row is what its own events make of it. |
| RunOutcomes.SummaryCoversExactly | frontend/src/hooks/useApply.ts:148-160 | Done, failed and warned add up to every row exactly when each row's last outcome settled it. |
| RunOutcomes.SummaryFromEvents | frontend/src/hooks/useApply.ts:143-166 | From the stream's own events: the summary of a run that ends counts as done the rows whose last outcome is a skip, or a verification with no reason standing, as failed those whose last outcome is a failure, and the ids ever applied with warnings. |
| RunOutcomes.StreamErrorSettlesEveryRow | frontend/src/hooks/useApply.ts:203-216 | After a stream error at any prefix no row is queued or running; settled rows keep their outcome and the others failed for the stream's reason. |
| RunOutcomes.StopSkipsTheQueue | frontend/src/hooks/useApply.ts:230-233 | Stopping skips the queued rows and touches no other. |
| ActionRun.RunPanel.UpdateRunStep | frontend/src/store/index.ts:243-248 | Only rows with the id change. |
| ActionRun.RunPanel.BeginActionRun | frontend/src/store/actionRun.ts:34-41 | A run opens a row for each id that is an action, in order; without any, the last run stays. |
| ActionRun.RunPanel.ApplyEvent | frontend/src/store/actionRun.ts:44-135 | One event's effect on the rows, the summary, the settings store and the docker re-detects. |
| ActionRun.RowsAreIndependent | frontend/src/store/actionRun.ts:44-57 | However the actions' events interleave, each row is what its own events make of it. |
| ActionRun.ScreenGrows | frontend/src/store/index.ts:252-260 | A redraw takes the last line's place on the screen and anything else goes below it. |
| ActionRun.LogIsTheScreensEnd | frontend/src/store/index.ts:252-265 | A row shows its command and the last 400 lines a screen would, a line standing unless the next one redraws it; capping as lines arrive loses nothing else. |
| ActionRun.EveryRowShowsItsLog | frontend/src/store/actionRun.ts:34-70 | A run opened for distinct ids, whatever stream follows: every row shows its own command and the end of its own screen. |
| ActionOutcomes.EveryRowSaysTheLast | frontend/src/store/actionRun.ts:49-134 | Whatever the other actions do, a row's stage, start, end, percent and error are each what the last of its own events that sets it said, and as they began when none did. |
| ActionOutcomes.RunsBeginQueued | frontend/src/store/actionRun.ts:34-41 | A run begins with one queued, empty row for each action named, in the order named, and none for anything else. |
| ActionRun.StoredReadingsAreReadable | frontend/src/store/actionRun.ts:93-117 | Every reading a run stores parses, and its row is optimized exactly when its upkeep is current. |
| ActionOutcomes.AppliedStores | frontend/src/store/actionRun.ts:93-119 | An applied action stores "ready\|N MB" for the whole number of megabytes nearest to the bytes left, or, without them, its own text when that can be read, optimized only for current upkeep; else nothing. No other row, default or recommendation changes. |
| ActionOutcomes.OthersStoreNothing | frontend/src/store/actionRun.ts:44-48 | Nothing but an applied event of a row changes a reading or asks for a re-detect, and an event of no row changes nothing. |
| ActionRun.AskedForDocker | frontend/src/store/actionRun.ts:84-92 | Every re-detect a run asks for is of docker cleanups, and misses none that applied when the run began. |
| ActionOutcomes.DockerAskedExactly | frontend/src/store/actionRun.ts:84-92 | A re-detect is asked for exactly when a known docker prune was applied, and it is of exactly the known docker prunes that apply here. |
| ActionRun.ResultsAreMeasured | frontend/src/store/actionRun.ts:71-82 | A freed figure is the backend's own number or nothing; a failure always says why. |
| ActionOutcomes.SummaryExactly | frontend/src/store/actionRun.ts:71-82 | An applied or failed event of a row writes its id's summary line, with what it freed in megabytes or why it failed, and no other line changes. |
| ActionRun.NameKeptExactly | frontend/src/store/actionRun.ts:51-58 | A row's name follows its last `started` event. |
| SizeReading.PrintedParsesBack | frontend/src/lib/cleanupSize.ts:4-18 | The printed `ready\|N MB` parses back to N for every natural N. |
| SizeReading.PrintedIsASize | frontend/src/lib/actionReading.ts:46-72 | It is always classified as a size, shown as printed. |
| SizeReading.PrintedIsClose | frontend/src/store/actionRun.ts:95-101 | The size read back is within half a megabyte of the bytes measured, a half rounding up. |
| SizeReading.SizesRead | frontend/src/lib/cleanupSize.ts:11-18 | A whole or decimal number with MB or GB behind it, in any case and spacing and of any kind, reads as that many megabytes, 1024 of them for a gigabyte. |
| SizeReading.GroupIsClose | frontend/src/components/DiskCleanupTab.tsx:264-268 | A group of k printed rows is within k/2 megabytes of what its rows hold, or within half a megabyte of the largest where they reclaim the same bytes. |
| SizeReading.UnreadableAddsNothing | frontend/src/components/DiskCleanupTab.tsx:264-268 | A row whose size cannot be read changes nothing in its group's. |
| SizeReading.SizeExactly | frontend/src/lib/actionReading.ts:46-72 | A value reads as a size exactly when its kind is no upkeep kind and `parseCleanupSize` finds one: a date never shows as disk space. |
| SizeReading.DaysReadBack | frontend/src/lib/actionReading.ts:38-66 | `ok\|N days` and `overdue\|N days` read back as N days of that kind. |
| SizeReading.UpkeepExactly | frontend/src/lib/actionReading.ts:54-66 | Upkeep reads as never done exactly when it is overdue and says so, as N days exactly when digits, white space and "day" or "days" say N, and as nothing otherwise; it is never a size. |
| SettingValues.EqualIsSymmetric | frontend/src/types/setting.ts:435-452 | Equality does not depend on the order of its arguments. |
| SettingValues.EqualIsReflexiveExactly | frontend/src/types/setting.ts:435-452 | A value equals itself exactly when it is neither null nor undefined. |
| SettingValues.EqualExactly | frontend/src/types/setting.ts:405-452 | Two values are equal exactly when they are the same switch, numbers less than a thousandth apart, or, where they are not both numbers, texts that differ in letter case at most; a switch equals only a switch, and nothing equals a missing value. |
| SettingValues.FormatExactly | frontend/src/types/setting.ts:552-576 | What every value is displayed as: the dash, the two labels, a whole number as it is, another to the nearest of four places with halves away from zero, and any other text unchanged. |
| SettingValues.NumbersDisplayedAlikeAreEqual | frontend/src/types/setting.ts:405-452 | Two values that read as numbers and display alike compare equal: four shown places are finer than the tolerance. |
| SettingValues.DisplayedAlikeExactly | frontend/src/types/setting.ts:552-576 | Scalars that display alike are equal exactly when both or neither are switches. |
| SettingValues.SwitchIsNotItsLabel | frontend/src/types/setting.ts:442-445 | A switch that is on and the text "Enabled" display alike and are unequal. |
| SettingValues.FormatIdempotent | frontend/src/types/setting.ts:552-576 | Displaying what is displayed changes nothing. |
| SettingValues.DecimalsAreFaithful | frontend/src/types/setting.ts:405-412 | The assumptions made of number printing and reading are met by the decimals of up to five places. |
| SettingValues.TwoNumbersDisplayAlike | frontend/src/types/setting.ts:569-572 | Among them, two different numbers display alike and compare equal. |
| SettingsStore.SettingsSlice.InitializeFromDefinitions | frontend/src/store/settings.ts:171-203 | The store becomes what its definitions say (InitializedExactly). |
| SettingsStore.InitializedExactly | frontend/src/store/settings.ts:75-203 | One row per id, unread and as its last definition says, no other rows, exactly the rows' categories idle, and one version later. |
| SettingsStore.SettingsSlice.FinalizeDetection | frontend/src/store/settings.ts:248-297 | Results and finished categories land in one write; unknown ids change nothing; absent fields keep, null clears, a value replaces. |
| SettingsStore.SettingsSlice.ApplySettingStates | frontend/src/store/settings.ts:239-297 | Each known row named shows its state: the reading of an action or the value of a tweak, the verdict, the status they imply, and what is absent kept, null cleared, given replaced; every other row stays, finished categories are done and the version rises by one. |
| SettingsStore.ReachedRowsCoherent | frontend/src/store/settings.ts:30-42 | In every reachable store a row is unread or its status is what its verdict and value say, and its scope is one of three. |
| SettingsStore.TweakCounts | frontend/src/lib/tweakStatus.ts:106-118 | The header's counts are the sizes of the selections they stand for, and with the rows still read they cover every writable row. |
| SettingsStore.RowsMeant | frontend/src/lib/tweakStatus.ts:106-118 | The rows a header counts and a button writes, in the row's own fields. |
| SettingsStore.ScopeTargets | frontend/src/lib/bulkStream.ts:87-96 | The button lists are the suboptimal and the resettable rows, in order. |
| SettingsStore.SelectsInOrder | frontend/src/lib/bulkStream.ts:87-96 | A list holds exactly the rows wanted, each once and in the order of the rows. |
| SettingsStore.ResetExactly | frontend/src/types/setting.ts:382-393 | A reset is offered exactly for an applicable, writable row that has a value and a default and is not at it, and resetting withdraws the offer. |
| SettingsStore.BulkTargets | frontend/src/lib/bulkStream.ts:52-69 | Exactly the asked ids, each with a value the wire can carry: the default for a reset, else `true` for an action and the recommended value for a tweak; an unknown id or a missing value is null. |
| SettingsStore.HeaderAndButtonAgree | frontend/src/lib/bulkStream.ts:87-96 | In every reachable store, "apply" writes exactly the rows the header counts as not optimized less those read as nothing. |
| SettingsStore.LevelsNest | frontend/src/lib/bulkStream.ts:98-119 | The three levels nest and the widest is the whole apply list. |
| SettingsStore.LevelTargetsExactly | frontend/src/lib/bulkStream.ts:98-119 | A level takes exactly the suboptimal rows whose own scope is that level or one below it. |
| Detection.ArrivalsSettle | frontend/src/store/detection-manager.ts:198-216 | Any order of arrivals leaves what an order-free description says. |
| Detection.DetectionIsConfluent | frontend/src/store/detection-manager.ts:198-216 | Two orders of the same replies leave the same settings, statuses and version, and no asked category loading. |
| Detection.PassIsConfluent | frontend/src/store/detection-manager.ts:176-233 | Two whole passes, from `detectAll` to its end, that get the same answers in different orders run to the same state of the manager and the store. |
| Detection.DetectionManager.StartAll | frontend/src/store/detection-manager.ts:156-196 | A pass asks for every category but maintenance, once, unless one is running or all are done. |
| Detection.PassBeginsExactly | frontend/src/store/detection-manager.ts:156-196 | A pass begins unless one is running or has ended; where everything is already done it only notes so, and else it shows every category as being read but maintenance, which is done at once, and asks for exactly those. |
| Detection.DetectionManager.AllReplied | frontend/src/store/detection-manager.ts:199-215 | A reply or failure of a pass lands in its own category only. |
| Detection.PassIsNeverRepeated | frontend/src/store/detection-manager.ts:156-163 | In any run, once a whole pass has ended `detectAll` asks for nothing again. |
| Detection.StopForgets | frontend/src/store/detection-manager.ts:273-275 | Stopping forgets which categories are being read and nothing else. |
| Detection.PassSucceededExactly | frontend/src/store/detection-manager.ts:198-218 | With everything answered after a pass, every category is done exactly when each one's last answer, from the pass or a single call, was not a failure. |
| Detection.FailedPassIsFinal | frontend/src/store/detection-manager.ts:209-218 | A pass in which everything failed leaves its category in error for good. |
| Detection.DetectionManager.StartCategory | frontend/src/store/detection-manager.ts:114-129 | A single category is asked exactly when it is neither done nor under way and has something to detect. |
| Detection.DetectionManager.CategoryReplied | frontend/src/store/detection-manager.ts:131-148 | Its reply or failure lands in that category only. |
| Detection.CategoryReplyLands | frontend/src/store/detection-manager.ts:131-216 | In every state, an answer to a pass or a single call shows in the rows it names and finishes its category; a failure puts that category in error and changes no row; either way it is no longer being read. |
| Detection.FailedCallCanBeRetried | frontend/src/store/detection-manager.ts:114-148 | A category whose single call failed is asked again by the next call. |
| Detection.DetectionManager.RedetectSettings | frontend/src/store/detection-manager.ts:241-254 | A request goes out exactly when there are ids and none is in flight under their key. |
| Detection.DetectionManager.RedetectReplied | frontend/src/store/detection-manager.ts:256-271 | The reply's readings land in its rows and in no other, it finishes no category, and the key is free, on failure too, which changes no row. |
| Detection.RedetectLands | frontend/src/store/detection-manager.ts:256-271 | In every state, an answered re-detect shows in each known row it names, with its reading or value, verdict, applicability and status; other rows, categories and requests stay, and the version rises by one; a failed one changes nothing but the freed key. |
| Detection.NothingLeftLoading | frontend/src/store/detection-manager.ts:114-234 | In any interleaving of passes, single calls, re-detects and stops, once all are answered nothing is left loading. |
| Detection.KeyIsCanonical | frontend/src/store/detection-manager.ts:245 | Non-empty lists of comma-free ids share a key exactly when they are permutations. |
| Detection.KeyIsPieces | frontend/src/store/detection-manager.ts:245 | Any two non-empty lists share a key exactly when, sorted, their commas cut them into the same pieces. |
| Detection.CommaBreaksTheKey | frontend/src/store/detection-manager.ts:245 | Were there a comma in an id, different lists could share a key; the program's own ids have none. |
| Detection.JoinsExactly | frontend/src/store/detection-manager.ts:241-254 | In any run and for any ids, a call joins a request in flight exactly when the two are cut into the same pieces. |
| Detection.OneRequestPerPermutation | frontend/src/store/detection-manager.ts:241-254 | At most one unanswered request per key, and a call joins one exactly when their ids are permutations. |
| DiskBench.AlignUpIsLeast | src/fpstune/benchmark/disk_io.py:293-294 | The least multiple of the sector not below the value. |
| DiskBench.BufferIsLegal | src/fpstune/benchmark/disk_io.py:224-228 | The buffer's address is sector aligned, the first such one, and the block fits in the over-allocation. |
| DiskBench.WrittenEnough | src/fpstune/benchmark/disk_io.py:360-371 | The written file holds a whole random block exactly when a write block fits the asked size. |
| DiskBench.OffsetsLegalExactly | src/fpstune/benchmark/disk_io.py:396-405 | Every offset that can be drawn is aligned with a whole block inside the written file, exactly when block_kb <= file_mb * 1024. |
| DiskBench.OffsetsCoverTheFile | src/fpstune/benchmark/disk_io.py:396-405 | The draws name exactly the whole 4096-byte blocks of the file, or the first place in a file without one. |
| DiskBench.OffsetPastTheFile | src/fpstune/benchmark/disk_io.py:360-405 | A 2 MB block for a 1 MB file: nothing is written and the drawn offset is past the end. |
| DiskBench.EveryLaneIsBusy | src/fpstune/benchmark/disk_io.py:385-394 | The deep pass issues the shallow one's count or a hundred for every lane, whichever is more, and every lane gets at least a hundred. |
| DiskBench.TailIsTheTail | src/fpstune/benchmark/disk_io.py:529-546 | Fewer than one in a hundred requests are slower than the p99, at least one in a hundred are no faster, and the median is not above it. |
| DiskBench.TailByRank | src/fpstune/benchmark/disk_io.py:542-546 | The median is half way between the latencies of the two middle ranks, one where their number is odd, and the p99 is that of rank 99n/100, by how many latencies lie below each. |
| DiskBench.RateExactly | src/fpstune/benchmark/disk_io.py:529-546 | The rate times the wall clock of a queued pattern, or times the latencies' own seconds, is the number of requests; no time is no rate. |
| DiskBench.TailForgetsOrder | src/fpstune/benchmark/disk_io.py:542-546 | Median and p99 depend on the multiset of latencies only. |
| Lanes.LanesPartition | src/fpstune/benchmark/disk_io.py:457-459 | The strided lanes hold every offset exactly as often as it was asked. |
| Lanes.PlaceOf | src/fpstune/benchmark/disk_io.py:457-459 | Offset j is in lane j mod depth at place j div depth. |
| Lanes.LaneLength | src/fpstune/benchmark/disk_io.py:457-459 | Dealing at least depth times n requests gives every lane at least n. |
| QueuedPass.NoRequestBeforeEveryLaneOpened | src/fpstune/benchmark/disk_io.py:464-479 | In every interleaving, a lane can issue a request only when every lane has opened its handle. |
| QueuedPass.NormalReturn | src/fpstune/benchmark/disk_io.py:457-501 | A pass that returns served every offset exactly once, in order within its lane, with as many latencies, and restored the switch interval. |
| QueuedPass.LatenciesAreMeasured | src/fpstune/benchmark/disk_io.py:472-501 | What a pass returns is the latencies its requests measured, lane after lane and in each lane's order; together, exactly those of all the requests in the run. |
| QueuedPass.NothingElseServed | src/fpstune/benchmark/disk_io.py:472-479 | Nothing is served twice or out of its lane, in any reachable state. |
| QueuedPass.LaneFailureIsRaised | src/fpstune/benchmark/disk_io.py:480-501 | A pass raises exactly when a lane failed, with the first failure, and restores the interval either way. |
| QueuedPass.FirstFaultIsRaised | src/fpstune/benchmark/disk_io.py:480-501 | From the steps alone: a pass that raises raises the first handle, request or barrier failure of the run, and one that returns had none. |
| QueuedPass.IntervalIsLowered | src/fpstune/benchmark/disk_io.py:486-498 | The switch interval is fifty microseconds exactly while the pass runs, and the process's own before and after, however it ends. |
| QueuedPass.NeverStuck | src/fpstune/benchmark/disk_io.py:457-501 | In every reachable state short of an end, some step can be taken: no interleaving of lanes, barrier and joins hangs. |
| Download.Downloader.Receive | src/fpstune/benchmark/download.py:69-81 | The loop writes, hashes, bounds and reports block by block, until the end or the first fault. |
| Download.Downloader.PutInPlace | src/fpstune/benchmark/download.py:89-106 | Size, hash and rename in that order, each failure discarding the partial file. |
| Download.Downloader.FetchVerified | src/fpstune/benchmark/download.py:40-106 | One attempt and every state the two files pass through. |
| Download.AttemptExactly | src/fpstune/benchmark/download.py:54-106 | The result of every attempt, by where its blocks stop being read, written and within the pinned size; and every report: the i-th is the share of the total that the first i blocks make, in whole percent and at most 100, with none when the total is unknown. |
| Download.DestinationIsWholeOrUntouched | src/fpstune/benchmark/download.py:54-106 | After any attempts, each cut off at any step, the destination is what it was or bytes with the pinned hash and size. |
| Download.FailureExactly | src/fpstune/benchmark/download.py:51-106 | Every failed attempt leaves the destination alone; it raises `DownloadError` and leaves no partial file exactly when the address, the errors and the clean-ups met on the way allow it. |
| Download.RefusalKeepsOldPart | src/fpstune/benchmark/download.py:54-55 | Refusing a plain address leaves an old partial file. |
| Download.EscapedReadLeavesPart | src/fpstune/benchmark/download.py:82-87 | A read error of another kind is no `DownloadError` and leaves the partial file. |
| Download.FailedRenameLeavesPart | src/fpstune/benchmark/download.py:101-106 | A failed rename whose clean-up fails leaves the partial file. |
| Download.PlacedExactly | src/fpstune/benchmark/download.py:54-106 | Whatever happens around it, the file is placed if and only if the attempt starts, the whole stream is written, its bytes are the pinned ones and the rename goes through. |
| Download.ProgressIsMonotone | src/fpstune/benchmark/download.py:80-81 | Progress never goes back and stays within 0 to 100. |
| Download.PlacedIsHundred | src/fpstune/benchmark/download.py:80-81 | A file placed with a pinned size, other than zero, was last reported at 100. |
| ShellScript.ShellCommands | scripts/controls.py:297-316 | The commands of a script, line by line, against their specification. |
| ShellScript.NormaliseIdempotent | scripts/controls.py:293-294 | Normalising twice is normalising once. |
| ShellScript.CommandsAreExecutable | scripts/controls.py:297-316 | For any script, no command starts as a comment or is blank, the unfinished last one included, and each is normalised. |
| ShellScript.LayoutDoesNotMatter | scripts/controls.py:297-316 | Comments and blank lines dropped, continuations joined: a script gives its commands word for word, however each is laid out. |
| ShellScript.CommentInsideACommandRuns | scripts/controls.py:302-313 | A `#` line inside a continued command joins it. |
| ShellScript.CommentDroppedExactly | scripts/controls.py:302-313 | A comment line is dropped, whatever follows it, exactly when no command is waiting to be continued where it stands. |
| Controls.WiredProblems | scripts/controls.py:380-405 | Reports exactly the rules a wired control breaks. |
| Controls.ManualProblems | scripts/controls.py:368-377 | Reports exactly a missing script and a manual control that runs. |
| Controls.ControlProblems | scripts/controls.py:408-439 | Reports exactly what is wrong with one control. |
| Controls.UnregisteredIn | scripts/controls.py:442-458 | Reports exactly the checks of a stage that no control owns. |
| Controls.Check | scripts/controls.py:461-476 | Reports all of these and nothing else, or that a stage file is unreadable. |
| Controls.WiredCleanExactly | scripts/controls.py:380-405 | A wired control is clean exactly when one command of every declared stage contains its own, none of a stage before the first declared one, and at most one of any other. |
| Controls.ControlCleanExactly | scripts/controls.py:408-439 | A control is clean exactly when it is well formed and meets the rules of its kind. |
| Controls.CheckIsGreenExactly | scripts/controls.py:461-476 | The checker is green exactly when every control is right, by the places its command stands at, and every check that runs is owned. |
| Manifest.ManifestFile.Rewrite | scripts/update_winget_manifest.py:141-160 | The six passes; for single-line arguments they equal one rewriting of the lines, and every line is left as RewrittenSays tells. |
| Manifest.RewrittenSays | scripts/update_winget_manifest.py:101-160 | Every line, in literals: a version, URL, checksum, notes or date line says its field for the release, behind the indent it had; every other line stays; a date that is due and has no line goes under the first version line; a real checksum takes the leading comments off a text that opens with the banner. |
| Manifest.OneField | scripts/update_winget_manifest.py:143-157 | No line matches two of the patterns, so no pass undoes another. |
| Manifest.MapDated | scripts/update_winget_manifest.py:115-123 | Setting the date commutes with every other pass. |
| Manifest.ContainsJoin | scripts/update_winget_manifest.py:111 | The marker is in the text exactly when it is in one of its lines. |
| ManifestAbsorption.DatedTwice | scripts/update_winget_manifest.py:114-123 | A second date replaces the first, inserted or not. |
| ManifestAbsorption.RewriteAbsorbsExactly | scripts/update_winget_manifest.py:141-160 | Rewriting for one release and then another equals rewriting for the second alone, if and only if the first drops no banner the second keeps and its date does not outlive the marker. |
| ManifestAbsorption.RewriteIdempotent | scripts/update_winget_manifest.py:141-160 | Rewriting again for the same release changes nothing, for any text. |
| ManifestAbsorption.PublishedReplaces | scripts/update_winget_manifest.py:126-160 | With a real checksum and the marker on a line of its own outside the banner, the second release replaces the first. |
| ManifestAbsorption.RewrittenMarkerKeepsFirstDate | scripts/update_winget_manifest.py:111-123 | A text whose marker is only on a rewritten line keeps the first date. |

## Left out

Outside the model:

- React components, translations, themes, logging and data schemas.
- Sockets, processes, HTTP, JSON, hashing, PowerShell and the file system itself: an exclusive port, a
  parsing function, a hash function and outcomes chosen by the environment stand for them.
- Finding and verifying the process that holds the lock before it is ended; ending it is a "killed" step.
- The operation lock, which is an arbitrary answer over time.
- CounterIsExact: assumes a cancelled stream makes no further callback. An abort that lands while a refused
  response's body is read is reported as an error by the code; LateCallbackExactly says what that does.
- Callbacks of the stream reader that throw, or that fire before the run that opened the stream is stored.
- Clearing the selection during a run, which resets the row statuses.
- Stream framing beyond what the code reads: sections 9.2.5 and 9.2.6 of the WHATWG HTML Living Standard
  allow more line endings and fields. The UTF-8 decoder is any byte-wise decoder.
- The freshness of a reading got by joining a re-detect already in flight.
- A `progress` callback of the download that raises.
- Power loss during a download: writes reach the disk in the order they are made; an unsynced rename is not modelled.
- Floating point: sizes are naturals, times and values are reals, the p99 index is floor(99n/100), and numbers
  print without an exponent.
- White space beyond tab, line feed, vertical tab, form feed, carriage return and space: Python's `strip`, `split`
  and `\s` also take U+001C to U+001F, and both languages take others outside ASCII. Letter case is ASCII's.
- Line ends other than '\n': Python's `splitlines` in the banner removal also knows form feeds and a few others.
- The YAML walks that read two of the three stage files, and `splitlines` itself: their results are parameters.
- The wording and counts of the checker's sentences: a problem is a value naming the control, the stage and the
  rule. The script path a manual control's command names is a parameter.
- Manifest.ManifestFile.Rewrite: a version or checksum with a backslash, because `re.sub` reads it as an escape.
- ManifestAbsorption.RewriteAbsorbsExactly: arguments that span lines or carry the installer marker themselves,
  because the passes would then meet text that an earlier pass put in. The program computes the checksum, checks the
  date's shape, and takes the version as given.
- ManifestAbsorption.RewriteIdempotent: the same arguments, for the same reason.
- ManifestAbsorption.PublishedReplaces: the same arguments, for the same reason.
- The clock behind a run's timestamps, and the order in which a docker re-detect lists its ids.
- `serve`'s port search, elevation and developer mode, which appear only as steps between taking the lock and leaving.
- The CPU, GPU and DPC benches, and the scripts for coverage floors, diff budget and version sync.
