# Kumiko tooling: a verified model

This Dafny project models components of the Kumiko tooling, CLI and dev-server repository and proves
what each of them guarantees: over every input, every interleaving of events and every run.
`dafny verify dfyconfig.toml` checks the whole project.

Code that works step by step is modelled as code: loops are methods with invariants, closures over mutable
variables are classes. Each such method is proved against a specification, and what the source promises is
proved about that specification. Code that suspends at `await` or reacts to events is modelled as a state
machine with one step for each synchronous segment; the class beside it shows that the segments, written as
methods, take exactly those steps. Clock readings, exit codes, file contents, liveness probes and the results
of regular expressions are inputs.

| module | what it guarantees |
|---|---|
| `PackageCycles` | the depth-first search reports a cycle exactly when the package graph has one, no cycle twice, and with plain names an edge of every cycle |
| `PackageRatchet` | the baseline check passes exactly when every cycle uses a tolerated edge and every tolerated edge lies on a cycle |
| `BrowserLifecycle` | under every interleaving of renders, launches and crashes there is one launch at a time, no leaked browser, and no browser closed under a render |
| `RenderAdmission` | the request handler never exceeds its limit, accounts for every admitted request, and keeps exactly the last duration samples |
| `WorkerPool` | with a pool size of at least one every step is started once, in order, and the report gives each step its own outcome in the original order |
| `Utf8` | when decoding output chunk by chunk gives the text of the whole |
| `ChildProcess` | a spawned child's promise resolves once, with a result and a text fixed by the events, and never gets stuck |
| `LogCapping` | no line of a capped log is lost silently, the size is bounded, and the windows before failures are kept |
| `CheckLock` | when the lock is exclusive, when a follower gets free, and that a follower's success is some leader's success |
| `LocaleBundles` | scanning a printed locale bundle gives it back, for exactly the bundles a stated condition admits |
| `LocaleTables` | every table of string entries is scanned to its entries, however it is laid out, quoted, nested and commented |
| `CanonicalJson` | what equal canonical texts say about two values, and when equal values have equal texts |
| `VersionOnly` | a version-only verdict is given only to a diff of generated changes, and to every recognised one; what it makes of dependency sections that are arrays |
| `DependencyClosure` | the resolved feature list is the least set that has the selection and is closed under requirements |
| `CrashSupervisor` | the sliding crash window answers as the whole crash history would, and the wrapper gives up exactly at the sixth crash in ten seconds |
| `ChangelogOrder` | which versions the comparison orders, which it compares exactly, and that the newest-first guard reports exactly the neighbours in the wrong order |
| `ChangelogFold` | folding changesets keeps every existing entry, adds each new one once, and is idempotent |
| `CoverageMerge` | the merged totals count the union of lines and of hits, however a report is split or ordered |
| `VersionPrBody` | each wanted bullet of a version pull request is read once, with its own headings and its whole text |
| `Strings`, `Numbers`, `Collections`, `Wrappers` | string order, sorting, joining; numbers with NaN and infinities; sets and lists; optional values and results |

## Where the code falls short of its promise

Each of these is proved, with the exact condition under which the promise holds. For the cycle search the
condition is sufficient: it rules out every collision of keys, also those of graphs that happen to have none.

- **Check lock.** The signal handlers registered by `registerLockCleanup` release the lock and then call
  `process.exit`, whose "exit" handler releases it again. A process that takes the lock in between loses it,
  and a third can take it: `CheckLock.MutualExclusionFails`. From any state a calm run can reach, the lock
  stays exclusive in the absence of further signals exactly when no process stands between its two releases
  (`CheckLock.ExclusionIffNoPendingRelease`).
- **Followers of the check lock.** While no further check starts, a waiting follower can get free exactly when
  the holder of the lock is not dead (`CheckLock.FreeIffHolderLives`); a leader that is killed outright strands
  its followers (`CheckLock.FollowerIsStranded`, `CheckLock.CrashStrandsFollowers`).
- **Locale bundles.** Printing and scanning is the identity exactly when no key or value has a control
  character beside newline, return and tab, and no key is `__proto__` (`LocaleBundles.RoundTrip`).
- **Canonical JSON, too much accepted.** A number too large for a double is parsed as an infinity and printed
  as `null`. Equal texts therefore mean values equal up to key order and up to such numbers; they mean equal
  values for every partner exactly when the value holds neither `null` nor an overflowed number
  (`CanonicalJson.CanonicalSoundIff`). The classifier accepts a manifest in which an overflowed number became
  `null` (`VersionOnly.OverflowIsAccepted`); when neither manifest has such a number it accepts only manifests
  that agree.
- **Canonical JSON, too little accepted.** A value has the text of every value equal to it up to key order
  exactly when none of its objects has two keys that `localeCompare` takes for equal
  (`CanonicalJson.CanonicalCompleteIff`).
- **Dependency sections that are arrays.** An unchanged manifest is accepted exactly when none of its dependency
  sections is an array (`VersionOnly.UnchangedIsAcceptedIff`). A section that is an object may become an array
  unnoticed, for instance `{}` may become `[]` (`VersionOnly.SectionMayBecomeArray`): whatever is accepted for a
  manifest without array sections and without ties keeps the kind of its sections exactly when no section has
  the keys 0 to m - 1 for some m, which the empty object has (`VersionOnly.AcceptanceIsPlainIff`).
- **Cycle search.** Cycles are deduplicated by a key joined with ` > `, so two cycles can share a key
  (`PackageCycles.KeyCollision`), and there is a graph of two loops on which only one is reported
  (`PackageCycles.CollisionDropsReport`). Names in which ` >` is never followed by a space nor stands at the end
  suffice to rule this out (`PackageCycles.JoinInjective`). The verdict is never lost.
- **Worker pool.** A pool size below one, such as 0.5 or -1, runs no step and reports an empty list; with any
  size from one on, infinity included, all steps run (`WorkerPool.FinishedRunReports`). The environment variable
  can set such a size; only 0 and texts that are no number stand for the default.
- **Crash window.** The window gives the answers of the whole crash history, whatever its limits, exactly when
  the clock never goes back from the first crash on (`CrashSupervisor.RightIffClockHolds`);
  `CrashSupervisor.ClockSetBackForgets` is a run that forgets a crash. The message of the wrapper speaks of 5
  crashes; it is the sixth within the window that makes it give up.
- **Changelog keys.** Entries are told apart by a key joined with NUL characters. Of entries whose version has
  no NUL, exactly those without NUL in their texts share their key with no other content
  (`ChangelogFold.KeysIdentifyIff`).
- **Version order.** Versions with a component that is no number tie with versions that differ from each other;
  comparing orders a version among the numeric ones exactly when each of its components is a number
  (`ChangelogOrder.FitsIffNumeric`). The newest-first guard compares only versions of three numbers.
- **Rounding of versions.** A version of three numbers is compared exactly with all others if and only if none of
  its components shares its double with another whole number, which holds below 2^53
  (`ChangelogOrder.ExactIffIsolated`). Otherwise the guard can miss a newer version standing last
  (`ChangelogOrder.RoundingHides`), as 1.0.9007199254740993 behind 1.0.9007199254740992.
- **Changelog order.** A release older than the newest entry breaks the newest-first order, and nothing else
  does (`ChangelogFold.FoldKeepsOrder`).
- **Output of a child.** Each chunk is decoded by itself, so a character that is split over two chunks comes out
  as replacement characters (`ChildProcess.SplitCharacterIsGarbled`). The text of a result is the text of the
  bytes received exactly when every chunk ends between two characters, for all bytes; for output in UTF-8
  exactly when no chunk begins with a continuation byte (`Utf8.ChunksDecodeIff`, `Utf8.EncodedChunksIff`,
  `ChildProcess.RunsReceive`).
- **Child settlement.** The result carries the timeout mark exactly when the event that settled the run was a
  timeout whose SIGTERM could be sent (`ChildProcess.RunsResolveFaithfully`). A SIGTERM that fails emits
  "error" first, so that run resolves to status -1 without the mark (`ChildProcess.FailedKillHidesTimeout`).

## Model

| member | source | states |
|---|---|---|
| PackageCycles.FindCycles | scripts/check-package-cycles.ts:88-115 | The list is empty exactly when the graph has no directed cycle; every report is a closed walk over real edges visiting each node once; reported keys are distinct and no two reports are rotations of each other; unless a name has ` >` followed by a space or at its end, every cycle of the graph shares an edge with a reported one |
| PackageCycles.EveryCycleCloses | scripts/check-package-cycles.ts:94-111 | Completeness of the search: once every node is finished, each cycle of the graph contains an edge that closed a loop on the stack |
| PackageCycles.RankDrops | scripts/check-package-cycles.ts:106-110 | An edge of a walk that closed no loop leads to a node finished earlier |
| PackageCycles.CycleIsReported | scripts/check-package-cycles.ts:95-104 | A finished search that met some cycle has reported one, and with plain names one that shares an edge with it |
| PackageCycles.StackLoop | scripts/check-package-cycles.ts:95-97 | The stack from the first occurrence of the node on is a cycle of real edges closed by the current edge |
| PackageCycles.RotationsShareCanonical | scripts/check-package-cycles.ts:98-99 | Both ways round a split cycle rotate to the same canonical sequence, so rotations are recognised as one cycle |
| PackageCycles.JoinInjective | scripts/check-package-cycles.ts:99-100 | A key determines the node sequence, unless a name has ` >` followed by a space or at its end |
| PackageCycles.KeyCollision | scripts/check-package-cycles.ts:99-103 | With such names two cycles that are no rotations of each other can share a key |
| PackageCycles.CollisionDropsReport | scripts/check-package-cycles.ts:88-115 | On a graph of two separate loops with such names any result that meets the guarantees of the search has one report, and the other loop shares no edge with it |
| PackageCycles.SameKeySameLoop | scripts/check-package-cycles.ts:98-103 | A cycle skipped for its known key has its closing edge on a reported cycle |
| PackageCycles.ReportsAreNoRotations | scripts/check-package-cycles.ts:100-103 | No two reported cycles are rotations of each other |
| PackageCycles.CycleFinder.Visit | scripts/check-package-cycles.ts:94-111 | The recursive search terminates, restores the stack, and leaves its node finished or its edge recorded as closing a loop, keeping the invariant of the search |
| PackageCycles.CycleFinder.CloseLoop | scripts/check-package-cycles.ts:95-104 | A loop is reported exactly once for each key |
| PackageRatchet.Reaches | scripts/check-package-cycles.ts:125-135 | The growing queue decides reachability, also on cyclic graphs |
| PackageRatchet.EdgeOnCycle | scripts/check-package-cycles.ts:142-144 | An edge lies on a cycle exactly when it is present and its end reaches its start |
| PackageRatchet.StrippedCycles | scripts/check-package-cycles.ts:145-151 | The cycles left after removing tolerated edges are exactly the cycles that use none of them |
| PackageRatchet.Strip | scripts/check-package-cycles.ts:145-151 | Exactly the edges the baseline tolerates are removed |
| PackageRatchet.OffCycleEmpty | scripts/check-package-cycles.ts:142-144 | No edge is stale exactly when every baseline edge lies on a cycle |
| PackageRatchet.CheckAgainstBaseline | scripts/check-package-cycles.ts:138-153 | Nothing unexpected and nothing stale exactly when every cycle of the full graph uses a baseline edge and every baseline edge lies on a cycle; what is unexpected is a cycle that uses none; stale is what is absent or on no cycle |
| PackageRatchet.EdgesOf | scripts/check-package-cycles.ts:67-78 | The edges of one package are its workspace dependencies without itself; a devDependency from or to the test harness is none |
| PackageRatchet.BuildPackageGraph | scripts/check-package-cycles.ts:55-81 | Nodes and edges of the graph, characterised by the manifests; of several manifests of one name the last decides |
| BrowserLifecycle.InvKept | apps/puppeteer-service/src/render.ts:31-43 | Every step of renders, launches, crashes and the idle timer keeps the invariant of the shared browser |
| BrowserLifecycle.CountingKept | apps/puppeteer-service/src/idle-closer.ts:33-46 | The closer counts the running renders, and its timer runs only when there is none and always when an idle browser is left |
| BrowserLifecycle.LaunchesKept | apps/puppeteer-service/src/render.ts:202-246 | A launch in flight is the only one, has exactly one caller, and excludes a cached browser |
| BrowserLifecycle.HandlesKept | apps/puppeteer-service/src/render.ts:202-246 | Every launched handle stays cached, closed or in flight |
| BrowserLifecycle.UsableKept | apps/puppeteer-service/src/render.ts:131-161 | No render holds, or will get, a connected browser that was closed |
| BrowserLifecycle.RunsKeepInv | apps/puppeteer-service/src/render.ts:131-161 | The invariant holds at every point of every interleaving |
| BrowserLifecycle.RunsAreSafe | apps/puppeteer-service/src/render.ts:131-246 | In every interleaving: at most one launch in flight and then nothing cached; no handle leaked; no render on a live browser that was closed; an idle browser has its timer running |
| BrowserLifecycle.LaunchReachesRender | apps/puppeteer-service/src/render.ts:202-246 | A render that launched the browser or joined the launch resumes with the very browser that launch event produced, and fails exactly when the launch failed |
| BrowserLifecycle.LaunchEnds | apps/puppeteer-service/src/render.ts:240-245 | A launch that settles, either way, lets its launcher resume, and that ends the launch |
| BrowserLifecycle.FailsWithItsLaunch | apps/puppeteer-service/src/render.ts:131-161 | A render is unwinding only after a launch it awaited has failed |
| BrowserLifecycle.BeginsWithBrowser | apps/puppeteer-service/src/render.ts:202-240 | A render that begins uses the cached browser if it is connected, else awaits the launch in flight, and starts a launch only when there is none |
| BrowserLifecycle.PhaseChanges | apps/puppeteer-service/src/render.ts:131-161 | Between begin and end the phase of a render changes only when it resumes |
| BrowserLifecycle.ConnectedUntilItDisconnects | apps/puppeteer-service/src/render.ts:202-246 | A browser counts as connected from its launch until its disconnect event |
| BrowserLifecycle.ClosesOnlyWhenIdle | apps/puppeteer-service/src/render.ts:36-41 | A connected browser is closed only by the idle timer and only while no render is running |
| BrowserLifecycle.LaunchHasRender | apps/puppeteer-service/src/render.ts:132-135 | An in-flight launch counts as a running render |
| BrowserLifecycle.IdleGuardsAlwaysPass | apps/puppeteer-service/src/idle-closer.ts:42-45 | When the timer fires no render runs and no launch is in flight, so the browser is released |
| BrowserLifecycle.IdleCloser.Begin | apps/puppeteer-service/src/idle-closer.ts:34-37 | Counts the render and disarms the timer |
| BrowserLifecycle.IdleCloser.End | apps/puppeteer-service/src/idle-closer.ts:38-46 | Uncounts the render and arms the timer with the last one |
| BrowserLifecycle.RenderService.GetBrowser | apps/puppeteer-service/src/render.ts:202-240 | The synchronous part returns the live browser, joins the launch in flight, or drops a dead browser and starts the only launch |
| BrowserLifecycle.RenderService.BeginRender | apps/puppeteer-service/src/render.ts:131-135 | The first segment of a render is the machine's begin step |
| BrowserLifecycle.RenderService.ResumeLauncher | apps/puppeteer-service/src/render.ts:240-245 | The segment after the launch caches the handle or rethrows, and clears the launch in both cases |
| BrowserLifecycle.RenderService.EndRender | apps/puppeteer-service/src/render.ts:158-160 | The finally of a render is the machine's end step, whatever the outcome |
| BrowserLifecycle.RenderService.CloseIdleBrowser | apps/puppeteer-service/src/render.ts:36-41 | Drops and closes the cached browser, and does nothing during a launch |
| BrowserLifecycle.RenderService.FireIdleTimer | apps/puppeteer-service/src/idle-closer.ts:42-45 | The timer callback is the machine's timer step |
| RenderAdmission.InvKept | apps/puppeteer-service/src/server.ts:112-150 | Every step of handlers and browser keeps admission, accounting and the sample buffer |
| RenderAdmission.RunsAreAccounted | apps/puppeteer-service/src/server.ts:112-150 | At every await point the in-flight count is within the limit, admitted requests equal successes plus errors plus in-flight ones, the closer never counts more than is in flight, and the buffer is the end of the list of all durations, at most 1000 of them |
| RenderAdmission.ResumeCounts | apps/puppeteer-service/src/server.ts:125-150 | A handler that resumes counts one success of the kind its own request asked for, with its duration, if its own render succeeded, and else one error |
| RenderAdmission.OthersCountNothing | apps/puppeteer-service/src/server.ts:125-147 | No other step counts a success or an error |
| RenderAdmission.AdmitsBelowLimit | apps/puppeteer-service/src/server.ts:112-116 | A request is let in exactly when fewer than the limit are in flight, and otherwise only counted as rejected |
| RenderAdmission.RejectedAreCounted | apps/puppeteer-service/src/server.ts:112-116 | The count of rejected requests is the number of those that came with the limit reached |
| RenderAdmission.LastOfAppend | apps/puppeteer-service/src/server.ts:128-132 | Trimming after every push keeps the last samples of the whole history |
| RenderAdmission.IdleServiceReleasesItsBrowser | apps/puppeteer-service/src/server.ts:148-150 | With no request in flight no render is left, and a cached browser is one its timer will close |
| RenderAdmission.App.PostRender | apps/puppeteer-service/src/server.ts:112-124 | The handler up to its await refuses exactly at the limit and otherwise is the machine's request step |
| RenderAdmission.App.ResumeHandler | apps/puppeteer-service/src/server.ts:125-150 | The handler after its await counts one success with its sample or one error, and leaves the in-flight count in both cases |
| WorkerPool.InvKept | bin/kumiko-legacy.ts:1432-1463 | Completing any running step keeps the invariant of counter, workers and results |
| WorkerPool.RunsAreOrderly | bin/kumiko-legacy.ts:1430-1465 | For any completion order the steps are started in order, none twice, at most min(pool size, steps) run, no two workers run one step, and a stored result is its own step's |
| WorkerPool.RunsEnd | bin/kumiko-legacy.ts:1457-1465 | The pool terminates: with a size of at least one it is finished exactly after one completion for each step |
| WorkerPool.FinishedRunReports | bin/kumiko-legacy.ts:1465-1499 | A finished pool with a size of at least one, fractions and infinity included, has started every step exactly once, in order; it reports one result for each step, in step order, with the step's own outcome, exactly when the size is at least one or there is nothing to do; otherwise it starts nothing and reports nothing |
| WorkerPool.CollectFull | bin/kumiko-legacy.ts:1470-1474 | Filled slots are reported in the original order |
| WorkerPool.StoppedBounds | bin/kumiko-legacy.ts:1457-1465 | The number of stopped workers decides whether all or none have stopped |
| WorkerPool.Pool.constructor | bin/kumiko-legacy.ts:1429-1465 | The first segments of all workers give the machine's initial state |
| WorkerPool.Pool.FetchNext | bin/kumiko-legacy.ts:1459-1461 | Taking the next index stops the worker or starts the step |
| WorkerPool.Pool.ProcessExits | bin/kumiko-legacy.ts:1446-1461 | The segment between two awaits stores the result in its own slot and fetches the next step |
| WorkerPool.Pool.Report | bin/kumiko-legacy.ts:1470-1499 | The report lists the filled slots in order |
| ChildProcess.InvKept | bin/commands/_spawn.ts:84-142 | Every event keeps what is promised about settlement, timers and streams |
| ChildProcess.SettlingKept | bin/commands/_spawn.ts:95-106 | The promise is resolved once and by one cause, whichever event comes |
| ChildProcess.StreamsKept | bin/commands/_spawn.ts:108-113 | The bytes delivered and the bytes pending are what was written, in chunks of any size, and the text is that of the chunks one after the other |
| ChildProcess.TimersKept | bin/commands/_spawn.ts:115-140 | Kill and drain timers are armed only when they may act |
| ChildProcess.RunsResolveFaithfully | bin/commands/_spawn.ts:23-142 | Over every order of events: the run resolves once and for good, by a failed spawn, a close, a timeout or a drain grace; the timeout mark exactly when that event was a timeout whose SIGTERM could be sent; a timeout settles only while the child is there; status -1 for a failed spawn and for any timeout; otherwise an exit event came before, and the status is its code, or 128 and the number of its signal |
| ChildProcess.RunsReceive | bin/commands/_spawn.ts:108-121 | The bytes behind the text of a result are a prefix of what was written, and after close all of it; the text is theirs exactly when each chunk ends between two characters, and for UTF-8 exactly when no chunk begins with a continuation byte |
| ChildProcess.WrittenIsSent | bin/commands/_spawn.ts:108-113 | What counts as written to a pipe is what the child sent to it, in order |
| ChildProcess.SettlingClears | bin/commands/_spawn.ts:95-114 | Settling clears the timeout and the drain timer, an expired drain grace destroys the streams, and a failed spawn leaves its code |
| ChildProcess.SplitCharacterIsGarbled | bin/commands/_spawn.ts:108-113 | A run to a clean close whose two bytes of U+00E9, in two chunks, come out as two replacement characters |
| Utf8.RoundTrip | bin/commands/_spawn.ts:108-113 | Decoding inverts encoding on every text |
| Utf8.ReadOffItsEncoding | bin/commands/_spawn.ts:108-113 | A character other than the replacement character is read only off its own encoding |
| Utf8.TakenIsMaximal | bin/commands/_spawn.ts:108-113 | The bytes read for one character are as many as can be: with the next byte they begin no encoding |
| Utf8.TwoPieces | bin/commands/_spawn.ts:108-113 | Decoding in two pieces gives the same text exactly when they meet between two characters, and otherwise more characters |
| Utf8.ChunksDecodeIff | bin/commands/_spawn.ts:108-113 | For all bytes, decoding chunk by chunk gives the text of the whole exactly when every chunk ends between two characters |
| Utf8.EncodedChunksIff | bin/commands/_spawn.ts:108-113 | Text sent in UTF-8 is received as it was exactly when no chunk begins with a continuation byte |
| Utf8.CutsOfEncoded | bin/commands/_spawn.ts:108-113 | In encoded text a position lies between two characters exactly when no continuation byte stands there |
| ChildProcess.FailedKillHidesTimeout | bin/commands/_spawn.ts:123-140 | A timeout whose SIGTERM fails resolves the run with status -1 and without the timeout mark |
| ChildProcess.SettlingStep | bin/commands/_spawn.ts:95-101 | A settled run was settled by one of its events |
| ChildProcess.ResolutionIsFinal | bin/commands/_spawn.ts:95-101 | What a settled run resolved to never changes |
| ChildProcess.OpenRunsAreNotStuck | bin/commands/_spawn.ts:34-47 | An open run always has a timer due that settles it, once its child has exited or a timeout was given |
| ChildProcess.KillsAreEscalated | bin/commands/_spawn.ts:123-137 | SIGKILL is sent at most once, only after SIGTERM and only to a child that has not exited |
| ChildProcess.TimeoutTerminates | bin/commands/_spawn.ts:123-137 | A timeout sends SIGTERM to a child that is still there and destroys its streams |
| ChildProcess.KillIsDue | bin/commands/_spawn.ts:127-134 | As long as a child ignores SIGTERM, SIGKILL was sent or its timer is due |
| ChildProcess.ChildRun.SettleWith | bin/commands/_spawn.ts:95-101 | Only the first call resolves, and it clears the timers |
| ChildProcess.ChildRun.OnExit | bin/commands/_spawn.ts:115-118 | The exit listener is the machine's exit step |
| ChildProcess.ChildRun.OnClose | bin/commands/_spawn.ts:121 | The close listener is the machine's close step |
| ChildProcess.ChildRun.OnError | bin/commands/_spawn.ts:114 | The error listener is the machine's failed-spawn step |
| ChildProcess.ChildRun.OnTimeout | bin/commands/_spawn.ts:123-140 | The timeout callback is the machine's timeout step, also when the kill fails |
| ChildProcess.ChildRun.OnKillTimeout | bin/commands/_spawn.ts:130-134 | The kill timer signals only a child that is still there |
| ChildProcess.ChildRun.OnDrainTimeout | bin/commands/_spawn.ts:102-107 | The drain grace destroys the streams and settles with the child's exit |
| LogCapping.CapLines | bin/_lib/ci-output.ts:166-214 | For every limit: nothing is lost silently; a log within the limit is kept whole; of a longer one exactly the lines of the head, of the tail and of the windows of the selected fail lines are kept, at most half the limit twice and 83 for each window; every gap has one marker; every fail line up to the end of the fifth window is kept |
| LogCapping.NothingIsLost | bin/_lib/ci-output.ts:204-213 | Kept plus counted lines equal the input, every marker counts at least one, and each kept item is the input line at its position |
| LogCapping.FailWindowStart | bin/_lib/ci-output.ts:156-164 | The window starts at the nearest preceding result or header boundary, or exactly 80 lines back (or at line 0) when there is none |
| LogCapping.SelectFails | bin/_lib/ci-output.ts:176-183 | The selected fail lines are the first five outside head, tail and each other's windows |
| LogCapping.SelectionIsUnique | bin/_lib/ci-output.ts:176-183 | The description of the selected fail lines determines them |
| LogCapping.WindowStartIsUnique | bin/_lib/ci-output.ts:156-164 | The description of a window start determines it |
| LogCapping.Windows | bin/_lib/ci-output.ts:185-192 | Head, tail and one window for each selected fail line, of bounded total size |
| LogCapping.SortKeeps | bin/_lib/ci-output.ts:192 | Sorting by start keeps the ranges and their total |
| LogCapping.MergeRanges | bin/_lib/ci-output.ts:194-202 | Merged ranges are sorted, disjoint and not adjacent, and cover exactly the same lines |
| LogCapping.MergeGrow | bin/_lib/ci-output.ts:197-198 | Extending the last range keeps the merge faithful |
| LogCapping.MergePush | bin/_lib/ci-output.ts:199-201 | Adding a range beyond the last keeps the merge faithful |
| LogCapping.Assemble | bin/_lib/ci-output.ts:204-213 | Exactly the covered lines are kept and every gap becomes one marker with its length |
| LogCapping.CoveredIsComplete | bin/_lib/ci-output.ts:173-192 | The merged ranges keep head, tail, every selected window and every selectable fail line |
| CheckLock.FollowerSuccessIsALeaders | bin/_lib/check-lock.ts:98-121 | In every interleaving a follower that returns 0 has read a "0" that some leader on that path wrote |
| CheckLock.FollowerReturns | bin/_lib/check-lock.ts:114-120 | A follower returns 0 exactly when the last event that touched the result file wrote a "0", and else 1 |
| CheckLock.FollowerGoesOn | bin/_lib/check-lock.ts:108-120 | A follower that has seen the lock gone reads the result next |
| CheckLock.LeaderReturns | bin/kumiko-legacy.ts:654-660 | A leader that ends by itself returns 0 exactly when it has written a "0"; a signalled one returns its signal's code |
| CheckLock.StartLeadsIff | bin/_lib/check-lock.ts:48-77 | A process that starts leads, and removes an old result, exactly when the lock is free or its holder was killed, and else follows the run in progress |
| CheckLock.InvKept | bin/_lib/check-lock.ts:48-96 | Every step keeps the lock consistent unless a process takes it between another's two releases |
| CheckLock.CalmRunsAreExclusive | bin/_lib/check-lock.ts:48-77 | On calm runs at most one process holds the lock, stale takeovers included, and a follower adopts the run it followed or a later one |
| CheckLock.ExclusionIffNoPendingRelease | bin/_lib/check-lock.ts:79-96 | From a state a calm run can reach, the lock stays exclusive without further signals exactly when no signalled process still has its second release ahead |
| CheckLock.SecondReleaseLosesLock | bin/_lib/check-lock.ts:88-95 | From every such pending state some run loses the exclusion |
| CheckLock.MutualExclusionFails | bin/_lib/check-lock.ts:79-96 | One signal at the right time breaks mutual exclusion |
| CheckLock.CrashStrandsFollowers | bin/_lib/check-lock.ts:108-110 | After a leader is killed no follower sees the lock gone until some process starts |
| CheckLock.FreeIffHolderLives | bin/_lib/check-lock.ts:108-110 | While no check starts, a waiting follower can still see the lock gone exactly when the holder of the lock is not dead |
| CheckLock.FollowerIsStranded | bin/_lib/check-lock.ts:98-121 | A calm run from the start on which a killed leader leaves its follower waiting for good |
| CheckLock.LockPath.AcquireCheckLock | bin/_lib/check-lock.ts:48-66 | The two attempts take the lock exactly when it is free or its holder is dead, and then remove an old result |
| CheckLock.LockPath.StartCheck | bin/kumiko-legacy.ts:609-615 | The command leads or follows |
| CheckLock.LockPath.WriteResult | bin/kumiko-legacy.ts:654-660 | The leader records its verdict in the result file |
| CheckLock.LockPath.OnSignal | bin/_lib/check-lock.ts:88-95 | The first release of a signalled leader |
| CheckLock.LockPath.OnExitAfterSignal | bin/_lib/check-lock.ts:87-95 | The second release of a signalled leader, whoever holds the lock by then |
| CheckLock.LockPath.Poll | bin/_lib/check-lock.ts:108-110 | A follower waits exactly while the lock exists |
| CheckLock.LockPath.ReadResult | bin/_lib/check-lock.ts:114-120 | A follower returns 0 only for a recorded success, and 1 when there is no result |
| LocaleBundles.RoundTrip | scripts/harvest-locale-packages.ts:226-361 | Scanning the printed bundle gives the bundle back exactly when its texts have no control character beside newline, return and tab and no key is `__proto__`, for every order of keys and every text before the brace |
| LocaleBundles.ReadsPrintedString | scripts/harvest-locale-packages.ts:167-187 | Reading a printed string stops right behind it, wherever it stands, and inverts the printing exactly on clean strings |
| LocaleBundles.ScanEscaped | scripts/harvest-locale-packages.ts:347-349 | Scanning an escaped text yields its decoded form and stops behind the closing quote |
| LocaleBundles.DecodedIff | scripts/harvest-locale-packages.ts:172-180 | Escaping then unescaping is the identity exactly on clean strings |
| LocaleBundles.ReadString | scripts/harvest-locale-packages.ts:167-187 | The loop computes the scan specification, on any text and index |
| LocaleBundles.SkipQuote | scripts/harvest-locale-packages.ts:152-165 | Stops at the same index as `readString`, and past the end for an unterminated string |
| LocaleBundles.SkipWsAndComments | scripts/harvest-locale-packages.ts:189-208 | The loop skips what `LocaleTables.SkipsAGap` says, also unterminated comments |
| LocaleBundles.ReadEntry | scripts/harvest-locale-packages.ts:246-264 | A turn that read a key stores the value, opens a nested object, or goes on |
| LocaleBundles.ExtractObjectStrings | scripts/harvest-locale-packages.ts:226-269 | The scan loop terminates on every text and computes what `LocaleTables.TableIsRead` says of tables |
| LocaleBundles.RowsAreJoined | scripts/harvest-locale-packages.ts:351-361 | The joined lines of a bundle are its rows one after the other |
| LocaleBundles.EntryTurn | scripts/harvest-locale-packages.ts:243-264 | Two turns of the scanner over a printed row store its decoded key and value and stop behind the row |
| LocaleBundles.ExtractRows | scripts/harvest-locale-packages.ts:226-269 | Scanning all rows collects all entries |
| LocaleBundles.CollectedExactly | scripts/harvest-locale-packages.ts:253-257 | On bundles that survive the collected map is the bundle |
| LocaleBundles.CollectedSurvives | scripts/harvest-locale-packages.ts:253-257 | What the scanner collects never has a lost character or the key `__proto__` |
| LocaleTables.TableIsRead | scripts/harvest-locale-packages.ts:226-269 | Every table spelled from string literals in either quote, blanks, comments, nested objects, values that are no strings and other characters is scanned to its entries in the order they stand, those of inner objects among them, whatever stands around the table |
| LocaleTables.LastEntryDecides | scripts/harvest-locale-packages.ts:253-257 | Of several entries with one key the last one counts, and only `__proto__` is never stored |
| LocaleTables.SkipsAGap | scripts/harvest-locale-packages.ts:189-208 | What is skipped is blanks, line comments with their newline and block comments, at the end perhaps a comment nothing ends; behind it begins neither a blank nor a comment |
| LocaleTables.GapIsSkipped | scripts/harvest-locale-packages.ts:189-208 | Blanks and comments of any kind are skipped up to the first character that begins neither |
| LocaleTables.LiteralIsScanned | scripts/harvest-locale-packages.ts:167-187 | Every literal in one of the three quotes is read up to its closing quote, its escapes decoded |
| LocaleTables.ScannedUnits | scripts/harvest-locale-packages.ts:167-187 | What is read is a literal |
| LocaleTables.RowsAreElements | scripts/harvest-locale-packages.ts:351-361 | A printed bundle is such a table |
| LocaleTables.RelaidBundle | scripts/harvest-locale-packages.ts:226-361 | A table with the entries of a printed bundle, however laid out, quoted and commented, is scanned to the same result |
| CanonicalJson.CanonicalCompleteIff | scripts/ci-version-only-pr.ts:50-56 | A value has the same canonical text as every value equal to it up to key order exactly when no object in it has two keys that tie in the collation |
| CanonicalJson.CanonicalSound | scripts/ci-version-only-pr.ts:50-56 | Equal canonical texts mean values equal up to key order at every depth, for every collation, once overflowed numbers are read as the `null` they are printed as; without overflowed numbers they mean values equal up to key order |
| CanonicalJson.CanonicalSoundIff | scripts/ci-version-only-pr.ts:50-56 | Every value with the canonical text of a value is equal to it up to key order exactly when that value holds neither `null` nor an overflowed number, at any depth |
| CanonicalJson.CanonicalMeans | scripts/ci-version-only-pr.ts:50-56 | Two canonical texts are equal exactly when the normal forms are, overflowed numbers read as `null` |
| CanonicalJson.CanonicalComplete | scripts/ci-version-only-pr.ts:50-56 | Without ties, values equal up to key order and up to overflowed numbers have the same canonical text |
| CanonicalJson.TextInjective | scripts/ci-version-only-pr.ts:51 | Two values have the same JSON text exactly when they are the same once overflowed numbers are read as `null` |
| CanonicalJson.TextPrefix | scripts/ci-version-only-pr.ts:51 | Texts followed by a delimiter can be told apart: equal continuations mean the same value, up to overflowed numbers, and the same rest |
| CanonicalJson.NormalFormSound | scripts/ci-version-only-pr.ts:51-55 | Equal normal forms mean values equal up to key order |
| CanonicalJson.NormalFormComplete | scripts/ci-version-only-pr.ts:51-55 | Without ties, values equal up to key order have equal normal forms |
| CanonicalJson.ArrangeSorts | scripts/ci-version-only-pr.ts:53 | Sorting by the collation gives a strictly sorted object when no keys tie |
| CanonicalJson.SortedIsUnique | scripts/ci-version-only-pr.ts:53 | Strictly sorted entries are determined by their set |
| CanonicalJson.TiesStay | scripts/ci-version-only-pr.ts:53 | Entries that tie keep the order they came in |
| CanonicalJson.TiesShow | scripts/ci-version-only-pr.ts:50-56 | A value with a tie anywhere has a reordering with another normal form |
| CanonicalJson.NullsHide | scripts/ci-version-only-pr.ts:51 | A value that holds `null` or an overflowed number anywhere shares its text with a value that is not equal to it |
| CanonicalJson.TiesAreCollation | scripts/ci-version-only-pr.ts:53 | Only keys that are no array indices can tie, and such a tie is one of the collation |
| CanonicalJson.PrintedNumbersAreNumbers | scripts/ci-version-only-pr.ts:51 | Every text of the form a finite number is printed in is taken for a number |
| VersionOnly.IsVersionOnlyPackageJson | scripts/ci-version-only-pr.ts:70-92 | Accepted only if both manifests are objects that agree, up to key order and up to what is printed as `null`, on everything but the version and bumped packages' new pins; without overflowed numbers only if they agree outright; and whenever they agree so, unless keys of the old manifest other than the version tie |
| VersionOnly.AcceptedMeans | scripts/ci-version-only-pr.ts:74-91 | Equal texts of the aligned manifests mean that they agree up to what is printed as `null`, and without ties the converse |
| VersionOnly.OverflowIsAccepted | scripts/ci-version-only-pr.ts:74-91 | A change from an overflowed number to `null` is accepted although the manifests do not agree |
| VersionOnly.AlignSection | scripts/ci-version-only-pr.ts:81-88 | Aligning puts back exactly the old values of bumped packages whose new value is an internal pin |
| VersionOnly.AlignRest | scripts/ci-version-only-pr.ts:76-90 | Exactly the dependency sections that are objects on both sides are aligned |
| VersionOnly.AgreeIff | scripts/ci-version-only-pr.ts:74-91 | The aligned rest equals the old rest up to key order exactly when the manifests agree |
| VersionOnly.TextAgreeIff | scripts/ci-version-only-pr.ts:74-91 | The same for agreement up to what is printed as `null` |
| VersionOnly.FiniteAgreeIff | scripts/ci-version-only-pr.ts:74-91 | Without overflowed numbers beside the version the two kinds of agreement are one |
| VersionOnly.DepsAgreeIff | scripts/ci-version-only-pr.ts:81-88 | Aligned dependencies equal the old ones exactly when they differ in bumped pins only |
| VersionOnly.UnchangedIsAcceptedIff | scripts/ci-version-only-pr.ts:74-91 | An unchanged manifest is accepted exactly when no dependency section of it is an array |
| VersionOnly.UnchangedAgreesIff | scripts/ci-version-only-pr.ts:79-89 | A manifest agrees with itself exactly when no dependency section of it is an array |
| VersionOnly.ArraySectionNeverAgrees | scripts/ci-version-only-pr.ts:79-89 | An old manifest with an array for a dependency section agrees with no manifest |
| VersionOnly.AcceptanceIsPlainIff | scripts/ci-version-only-pr.ts:74-91 | Without ties, whatever is accepted for a manifest agrees with it section kind by section kind exactly when no object section has the keys 0 to m - 1, or a section is an array so that nothing is accepted |
| VersionOnly.AgreementIsPlainIff | scripts/ci-version-only-pr.ts:79-91 | The same for agreement, ties or not |
| VersionOnly.IndexedMayBecomeArray | scripts/ci-version-only-pr.ts:79-91 | Every object section with the keys 0 to m - 1 has an array it may become in a manifest that agrees |
| VersionOnly.SectionMayBecomeArray | scripts/ci-version-only-pr.ts:79-91 | For every array, the section that is the object it spreads to may become the array and is accepted; `{}` may become `[]` |
| VersionOnly.BumpedMeans | scripts/ci-version-only-pr.ts:58-68 | A name is bumped exactly when some modified package.json of the diff carries it after the change and its version is there on one side only, or differs, or is an object or array |
| VersionOnly.BumpedPackageNames | scripts/ci-version-only-pr.ts:58-68 | The loop collects exactly the names of manifests that the diff gives another version |
| VersionOnly.IsAllowedChange | scripts/ci-version-only-pr.ts:94-107 | Only changes a release generates are allowed, manifests compared up to what is printed as `null`, and all of them unless manifest keys other than the version tie |
| VersionOnly.IsVersionOnlyChange | scripts/ci-version-only-pr.ts:109-116 | Fail-closed: a version-only verdict means a non-empty diff in which every change is a deleted changeset, a written changelog, a modified guide, a lock file changed in version lines only, or a manifest whose dependencies neither come nor go and change only to internal pins of packages this very diff releases; every recognised diff gets the verdict; the reasons name at most ten offending files |
| VersionOnly.AgreeMeansReleased | scripts/ci-version-only-pr.ts:76-91 | In a manifest that is accepted, a dependency whose value changed has an internal pin, and some manifest of that name in the diff has another version |
| VersionOnly.LockBumpMeans | scripts/ci-version-only-pr.ts:102-105 | The lock file passes exactly when it has changed lines and each of them, without its first character, is a version line |
| DependencyClosure.ResolutionIsLeastClosedSet | packages/create-kumiko-app/src/dep-resolver.ts:19-45 | The search returns, without repetition, the least set that has the selection and is closed under requirements, and fails exactly when that set has a name missing from the manifest; cycles are no obstacle |
| DependencyClosure.SearchIsFaithful | packages/create-kumiko-app/src/dep-resolver.ts:25-37 | From any visited list the search adds only required, known names and their requirements, or fails on a required unknown one |
| DependencyClosure.VisitInTurn | packages/create-kumiko-app/src/dep-resolver.ts:36-39 | Visiting names one after the other is one search |
| DependencyClosure.Resolver.Visit | packages/create-kumiko-app/src/dep-resolver.ts:25-37 | The recursive visitor with its two sets terminates and performs the search, keeping the auto-added names in step |
| DependencyClosure.ResolveDeps | packages/create-kumiko-app/src/dep-resolver.ts:19-45 | The result lists the least closed set once each in search order, and as auto-added exactly its names outside the selection in the same order; it throws exactly when a required name is unknown |
| DependencyClosure.NeededComesAfter | packages/create-kumiko-app/src/dep-resolver.ts:25-37 | A name that was not selected comes after one that needs it |
| DependencyClosure.LookupIsLast | packages/create-kumiko-app/src/dep-resolver.ts:20 | Of several features of one name the last one counts |
| DependencyClosure.NotSelectedMeans | packages/create-kumiko-app/src/dep-resolver.ts:35 | The auto-added names are the visited ones outside the selection, in their order |
| CrashSupervisor.WindowRefinesHistory | packages/dev-server/src/crash-tracker.ts:23-42 | While the clock has not gone back since the first crash, each answer of the in-place window is the one the whole history of crashes gives: allowed exactly when at most `maxCrashes` lie in the window |
| CrashSupervisor.RightIffClockHolds | packages/dev-server/src/crash-tracker.ts:23-42 | For a sequence of calls the window gives the right answers under all limits exactly when the clock never goes back from the first crash on |
| CrashSupervisor.SetBackShows | packages/dev-server/src/crash-tracker.ts:23-42 | The first reading that goes back after a crash is answered wrongly under some limits: a later crash is counted, or the first crash is forgotten |
| CrashSupervisor.CountQueriesChangeNothing | packages/dev-server/src/crash-tracker.ts:38-41 | While the clock does not go back from the first crash on, earlier count queries change no later answer |
| CrashSupervisor.PruningIsExact | packages/dev-server/src/crash-tracker.ts:23-30 | Of an ascending history pruning keeps exactly the crashes since the cutoff, the cutoff included |
| CrashSupervisor.ClockSetBackForgets | packages/dev-server/src/crash-tracker.ts:23-42 | A run on which a crash that lies in the window is forgotten because the clock was set back |
| CrashSupervisor.CrashTracker.PruneBefore | packages/dev-server/src/crash-tracker.ts:23-30 | The loop drops old heads and stops at the first that is not |
| CrashSupervisor.CrashTracker.NoteCrash | packages/dev-server/src/crash-tracker.ts:33-37 | Records the crash in any case and answers for the window with it |
| CrashSupervisor.CrashTracker.CrashCountInWindow | packages/dev-server/src/crash-tracker.ts:38-41 | Answers for the window at the given time |
| CrashSupervisor.GivesUpExactly | packages/dev-server/bin/kumiko-dev.ts:68-85 | In every run a crash is answered by a respawn exactly when at most 5 crashes of the whole run lie in its ten seconds; otherwise the wrapper ends with the server's exit code |
| CrashSupervisor.RespawnsAreLimited | packages/dev-server/bin/kumiko-dev.ts:53-91 | In no ten seconds of any run are more than 5 crashes answered by a respawn, and the wrapper has given up exactly after the crash that was one too many |
| CrashSupervisor.CallsDriveTracker | packages/dev-server/bin/kumiko-dev.ts:70-89 | The tracker of a run is in the state its crashes, and nothing else, lead to |
| CrashSupervisor.RestartsChangeNoVerdict | packages/dev-server/bin/kumiko-dev.ts:59-63 | An exit with code 75 put into a run anywhere the server is running changes no later step and no later verdict: afterwards the wrapper has only spawned once more |
| CrashSupervisor.EndsWithZero | packages/dev-server/bin/kumiko-dev.ts:53-67 | An exit by signal or with code 0 ends the wrapper with 0, for good |
| CrashSupervisor.SpawnsAreCounted | packages/dev-server/bin/kumiko-dev.ts:59-91 | The server is spawned once at the start, once for each restart and once after each backoff |
| CrashSupervisor.DevWrapper.OnExit | packages/dev-server/bin/kumiko-dev.ts:53-91 | The exit listener is the machine's exit step in all its branches |
| CrashSupervisor.DevWrapper.OnBackoff | packages/dev-server/bin/kumiko-dev.ts:90 | The backoff timer spawns the server again |
| ChangelogOrder.CompareVersions | packages/framework/src/engine/feature-changelog.ts:78-88 | For any two texts: the sign of the result tells which version is greater in the first component where one is greater, missing components counting as 0 and NaN being neither greater nor less |
| ChangelogOrder.MissingIsZero | packages/framework/src/engine/feature-changelog.ts:78-88 | A version and the version with ".0" behind it tie |
| ChangelogOrder.NotAheadIsTransitive | packages/framework/src/engine/feature-changelog.ts:78-88 | Among versions without NaN components, not being ahead is transitive |
| ChangelogOrder.FitsIffNumeric | packages/framework/src/engine/feature-changelog.ts:78-88 | A version fits into the order of the versions without NaN components exactly when it has none itself: otherwise it ties with two versions of which one is ahead |
| ChangelogOrder.ExactIffIsolated | packages/framework/src/engine/feature-changelog.ts:78-88 | A version of three numbers is compared exactly with every other if and only if no component of it is read to the same number as another value |
| ChangelogOrder.SmallComparesExactly | packages/framework/src/engine/feature-changelog.ts:78-88 | With components below 2^53 it is compared exactly |
| ChangelogOrder.RoundingHides | scripts/guard-changes-json.ts:360-372 | Where a larger component is read to the same number, the guard misses its version standing last |
| ChangelogOrder.AdjacentSuffices | scripts/guard-changes-json.ts:360-372 | Comparing neighbours decides whether the whole list is newest first |
| ChangelogOrder.OrderViolations | scripts/guard-changes-json.ts:360-372 | The guard reports exactly the neighbours that compare in the wrong order, and nothing exactly when the whole list compares as newest first; with components below 2^53 that is the exact order |
| ChangelogOrder.JoinedNewestFirst | scripts/guard-changes-json.ts:360-372 | Where two newest-first lists meet, one comparison decides |
| ChangelogFold.Repository.Fold | bin/commands/changes.ts:286-354 | The fold fails exactly when the status, some changeset, change or target changelog is bad, and then, as in a dry run, writes nothing; otherwise every changelog becomes its fold and the updates are reported in order |
| ChangelogFold.FoldConserves | bin/commands/changes.ts:334-345 | Existing entries survive unchanged and in order as a suffix; what is put in front are additions of this path, each key once and none already present, and no addition is missing; other changelogs are untouched |
| ChangelogFold.AddedEntriesAreChanges | bin/commands/changes.ts:303-345 | Each entry put in front is a change of a selected file: its kind, title and texts field by field, the version of the first release of its package with that changeset |
| ChangelogFold.AdditionsAreChanges | bin/commands/changes.ts:303-332 | The additions are those of the changes in the files, one each, in their order |
| ChangelogFold.FilesAreSelected | bin/commands/changes.ts:299-302 | The files read are those of the listing that a changeset of the status names |
| ChangelogFold.NewEntriesArePicked | bin/commands/changes.ts:328-337 | The entries to add are, in order, the first additions of each key that is not present |
| ChangelogFold.PathsInOrder | bin/commands/changes.ts:333-339 | The changelogs are updated in the order of their first additions |
| ChangelogFold.FoldIsIdempotent | bin/commands/changes.ts:334-345 | A second fold of the same changesets changes no file |
| ChangelogFold.FoldKeepsOrder | bin/commands/changes.ts:336-338 | With one version for the additions, the folded changelog compares as newest first exactly when nothing was added, nothing was there, or that version does not compare as older than the newest before |
| ChangelogFold.OneVersionPerChangelog | bin/commands/changes.ts:312-320 | With one release for each package all additions to a changelog carry that release's version |
| ChangelogFold.AdditionsFail | bin/commands/changes.ts:305-332 | Collecting fails exactly when some selected file cannot be parsed or has a change of an unknown feature or without a release |
| ChangelogFold.FindReleaseFinds | bin/commands/changes.ts:312-315 | A release is found exactly when one of the package contains the changeset |
| ChangelogFold.ListingOrderIsIrrelevant | bin/commands/changes.ts:299-302 | The order in which the directory lists its files has no influence |
| ChangelogFold.NewEntriesAreNew | bin/commands/changes.ts:328-337 | The entries to add are additions of the path, each key once, none present before, and none missing |
| ChangelogFold.FilteredAreNew | bin/commands/changes.ts:329-337 | Dropping duplicates while collecting and present keys afterwards comes to the same as one pass |
| ChangelogFold.KeysIdentify | bin/commands/changes.ts:213-215 | An entry without NUL characters shares its key exactly with the entries of the same content |
| ChangelogFold.KeysIdentifyIff | bin/commands/changes.ts:213-215 | Of the entries whose version has no NUL, exactly those without NUL in any text share their key with no other content, also among entries of the same version |
| ChangelogFold.NulHides | bin/commands/changes.ts:213-215 | An entry with a NUL in a text has an entry of the same version and key with another content |
| ChangelogFold.NulKeysCollide | bin/commands/changes.ts:213-215 | With NUL characters two different contents can share a key |
| ChangelogFold.AddPending | bin/commands/changes.ts:328-330 | Adding an entry keeps the pending map in first-named order, each key once |
| ChangelogFold.Repository.CollectPending | bin/commands/changes.ts:303-332 | The loops over files and changes collect all additions in order or stop at the first failure |
| ChangelogFold.Repository.ComputeUpdates | bin/commands/changes.ts:333-339 | All changelogs are read before anything is written, and one that cannot be read stops the fold |
| ChangelogFold.Repository.WriteUpdates | bin/commands/changes.ts:340-345 | Writing the updates yields the folded changelogs and touches no other |
| CoverageMerge.MergeLineCoverage | scripts/coverage-merge.ts:24-37 | The totals count the union of (file, line) pairs and the union of hit pairs, in whatever order files and lines are visited |
| CoverageMerge.MergeFile | scripts/coverage-merge.ts:28-33 | The merged map of a file has exactly the union of its lines, positive exactly where some source hits |
| CoverageMerge.MergeCounts | scripts/coverage-merge.ts:29-32 | Merging a source takes the larger count line by line |
| CoverageMerge.ParseLcovLines | scripts/coverage-merge.ts:6-22 | A report has the files some counted record names, and for each line the largest count reported |
| CoverageMerge.HitIsAtMostLines | scripts/coverage-merge.ts:24-37 | Hit lines never exceed lines |
| CoverageMerge.OrderAndRepetitionAreIrrelevant | scripts/coverage-merge.ts:24-37 | Permuting or repeating sources changes nothing |
| CoverageMerge.ReplacedPart | scripts/coverage-merge.ts:24-37 | Sources may be replaced by others with the same lines and hits |
| CoverageMerge.ShardingIsIrrelevant | scripts/coverage-merge.ts:6-37 | Splitting a report into shards, whichever records go where, changes no total |
| CoverageMerge.TotalIsDetermined | scripts/coverage-merge.ts:24-37 | The totals depend on lines and hits only |
| VersionPrBody.ParseVersionPrBody | scripts/backfill-changelogs.ts:165-213 | One bullet, in order, for each bullet line that is not noise and has a section heading and after it a bump heading; it carries the nearest section's package and version, the nearest bump, and its own text with the indented lines before the next heading or bullet |
| VersionPrBody.BulletsAreUnique | scripts/backfill-changelogs.ts:165-213 | That description determines the result |
| VersionPrBody.Flush | scripts/backfill-changelogs.ts:173-176 | A finished bullet is pushed exactly when its whole text is not noise |
| VersionPrBody.Closed | scripts/backfill-changelogs.ts:173-176 | A bullet is complete at the next heading or bullet |
| VersionPrBody.NoHeadingRead | scripts/backfill-changelogs.ts:192-207 | Lines that are no headings leave the headings in force |
| Strings.SortForgetsOrder | bin/commands/changes.ts:300-302 | The default sort of strings forgets the order its items came in |
| Strings.LeqIsLexicographic | bin/commands/changes.ts:300-302 | The order of the default sort: a text comes before the texts it begins, and else the first difference decides |

## Left out

- Processes, sockets, Docker, git, databases and browsers themselves: they appear as events, exit codes, probe results and file contents.
- `shutdownBrowser` and the signal handlers of the rendering service: they end the process and may overlap a launch, so the browser runs are those before shutdown.
- Constructing the response after a successful render: a throw there would count both a success and an error.
- `/metrics`, authorisation and payload checks of the rendering service: independent tests before admission.
- A spawn that throws inside the worker pool, and the log files the pool writes: the pool would reject instead of reporting.
- The window between `mkdir` and the pid file of the check lock, errors other than an existing lock, foreign users' processes and reuse of process ids: acquiring is one step with accurate probes.
- `parseCliScope` and `checkLockPaths`: one lock path is modelled.
- `runStreaming`: it settles like `run` without collecting text.
- Environment and working-directory options of `run`; a timeout of 0 counts as none.
- The wording of omission markers and the rest of the failure report in bin/_lib/ci-output.ts: markers carry their count.
- Lone surrogates: strings are sequences of Unicode scalar values, and strings are ordered by scalar value rather than by UTF-16 unit.
- Regular expressions for fail lines, result lines, file headers, headings, bullets, pins, paths and lock lines: predicates or classified lines.
- Parsing of JSON text, of changesets and of lcov records: inputs are parsed trees, changes and records.
- Number formatting in JSON: numbers are identified by their printed form, so -0 and 0 are one number, as in the text; an overflowed number has its sign and prints as `null`.
- `localeCompare`: any comparison that is a total preorder; its actual table is not part of this model.
- `runtimeBaselineEdges`, `readManifests`, `loadPackageGraph`: a filter, and file access.
- `extractLocaleFirst`, `extractKeyFirstLocale`, `stripKeyFirst` and the file walk of the locale harvest: regular expressions over whole files.
- `isTextOnlyChangesEdit` and the other checks of `guard-changes-json.ts`: independent tests on each entry.
- `changes add`, `readStatus` and `resolveFeatureTarget`: the status and the mapping from features to changelogs are inputs, and the mapping is the same for both folds; a write that fails half-way is not modelled.
- Members of changelog entries beyond those of the entry type: they survive a fold as part of the entry.
- The table of `Number`: the conversion of a version's components is a parameter, exact on digits up to 2^53 and monotone on all digits.
- The keyed merge, attribution by touched files and `compareSemverDesc` of backfill-changelogs.ts: the model has the parser of the pull request body only.
- CrashSupervisor.WindowRefinesHistory: requires a window of at least 0 ms; the limits are constants of the wrapper, never negative.
- The Ink and React interface, scaffolding templates, generated documents, demo recording, codemods, dev-server routing and boot configuration.
