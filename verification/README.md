# A verified model of the cdev daemon's stateful core

The daemon discovers repositories, multiplexes agent sessions to clients, broadcasts events, remembers
permission decisions, issues device tokens, and converts agent logs for display. This project models the
components that carry invariants over unbounded runs and proves those invariants with Dafny 4.11.
`dafny verify dfyconfig.toml` checks everything.

How the pieces are laid out:

- **Repository scan** — `ScanModel` is the termination-detection protocol of `parallelScan` and
  `processDirectory` as interleaved atomic steps: one step per access to a shared variable, any schedule of
  the seeding loop, the workers and the coordinator. `ScanSafety` proves the counting invariant and that the
  decision to close is sound although queue length and `inFlight` are read separately; `ScanCoverage` proves
  completeness, containment and the counters; `ScanProgress` proves bounded work and termination under every
  fair schedule; `ScanExact` states the outcome for the daemon's own classification of entries and comparison of
  paths, with counters that certify it; `ScanRun` is the protocol as an object whose methods update the shared
  fields in place.
- **Sessions** — `Aliases` says what following aliases means on every map and when recording a real ID is a
  union step; `WatchModel` keeps streams and clients inverse to each other; `SessionManager` is the manager
  object refined to both.
- **Event hub** — `HubModel` is the bounded broadcast queue with bounded subscriber queues and eviction;
  `HubObjects` holds the subscriber, filter and hub objects.
- **Permissions** — `Pattern` (generation and matching), `Memory` (bounded decision cache), `Pending`
  (hand-off of a request to one responder).
- **Streams and text** — `Jsonl` (buffered line reader), `Utf8` (diff truncation).
- **Security** — `Tokens` and `TokenManagement` (signing secret, revocations, clock), `Registry` (devices and
  workspace bindings).
- **Names and messages** — `Worktree` (worktree names and paths), `Codex`, `CodexMessages` and
  `CodexProperties` (conversation items to session messages).
- `Text` and `Paths` are the parts of Go's `strings` and `path/filepath` (on a slash-separated system) that
  the rest needs; `Selections` says what a part of a sequence is.
- **Laws** — for each component a module whose name ends in `Laws` (and `ScanExact`, and the laws inside
  `Jsonl`, `Utf8`, `Pending` and `Memory`) says what its specification functions mean without using them: by
  who watches what, by the operations of a run, by words, components, letters or bytes, and with the
  source's constants written out.

Each imperative part is a class or a method with loops whose `ensures` gives its exact result as a
specification function of the old state; the properties are then lemmas about those functions over all runs.
Loops over Go maps pick any remaining key, so nothing depends on iteration order.

What the environment supplies is a parameter: directory contents, whether a session file was found and a
streamer could be started, whether a file could be saved, the clock, lower-casing of one character,
`filepath.Match` (`glob`), parsing of RFC 3339 timestamps (`parse`), and the summary of a tool call
(`summarise`). Signatures are ideal (one verifies exactly when the manager itself signed that payload with
the secret in use), and nonces and secrets are fresh.

Where a promised property fails in a corner, the model keeps the code, shows a concrete failing input, and
proves exactly when the property holds:

| property | exact condition | failing input |
|---|---|---|
| recording a real ID is a union step | `Aliases.RealIsFree` | `Aliases.UnionNeedsFreeReal` |
| unwatch undoes watch | the client did not watch the session, and has none of that ID in an earlier workspace (`WatchModel.UnwatchUndoesWatch`) | every other client, by the same lemma |
| a full cache loses an oldest decision, in any map order | not `Memory.EmptyIsOldest`: the empty pattern is not stored as the oldest (`Memory.EvictionIsRight`) | `Memory.EmptyPatternDefeatsRecency` |
| a store keeps the cache within its bound, in any map order | not all of: full, `Memory.EmptyIsOldest`, and the pattern is new (`Memory.StoreKeepsBound`) | `Memory.EmptyPatternDefeatsBound` |
| a generated pattern matches its request | not `Pattern.StarDirectory` | `Pattern.StarDirectoryFails` |
| a check answers iff a stored pattern matches | not all of: a star-directory request, its pattern stored, nothing stored matching (`Memory.CheckAgreesWithScan`) | `Memory.FastPathExample` |
| reading a stream gives its newline split | not `Jsonl.TailLost` | `Jsonl.TailLostExample` |
| a refused token stays refused | cleanup age at least (longest lifetime + 1 s) − 1 ns | `Tokens.ShorterAgeRevives` |
| the repository is found from a worktree path | the cleaned repository path is not `/` or `.` | those two paths (`Worktree.RepoRoundTrip`) |

The empty pattern reaches the cache only through a direct call of `StoreDecision`: both callers in the daemon
(`internal/permission/memory.go:316` and `internal/rpc/handler/methods/permission.go:361`) test for it first.

Two places where code and comments disagree, and the code is followed: `DiscoveryConfig` calls a `MaxDepth`
of 0 unlimited, and `processDirectory` treats it so, but `NewRepoDiscovery` replaces it by 4 (so termination
is proved for a positive depth); and the duplicate-thinking window of two seconds also accepts a timestamp
more than 292 years older than the last, because Go's saturated smallest duration is its own negation
(`Codex.NearMeans`).

## Model

| member | source | states |
|---|---|---|
| ScanSafety.InFlightCounts | internal/workspace/discovery.go:229-288 | in every interleaving `inFlight` is exactly queued jobs + jobs held by workers + children and seeds counted but not yet sent |
| ScanSafety.NothingInFlight | internal/workspace/discovery.go:260-288 | an `inFlight` of zero means an empty queue, only idle workers and no seed in transit, so the coordinator's second read alone is decisive |
| ScanSafety.NoSendOnClosedQueue | internal/workspace/discovery.go:397-416 | no worker or seed send ever meets a closed queue, on any schedule |
| ScanSafety.DecisionIsFinal | internal/workspace/discovery.go:260-288 | once the coordinator decides to close, every continuation keeps the queue empty, the workers idle, and results and counters unchanged |
| ScanCoverage.ScanComplete | internal/workspace/discovery.go:305-418 | a finished scan has scanned every directory on a trail of entries within the depth limit, unless it or an ancestor met a full queue |
| ScanCoverage.ScanContained | internal/workspace/discovery.go:305-395 | at every moment only directories reachable by such a trail, and within the depth limit, were entered |
| ScanCoverage.RepositoriesOnce | internal/workspace/discovery.go:357-379 | each scanned repository is reported exactly once per normalised path and nothing else is reported |
| ScanCoverage.CountersConserved | internal/workspace/discovery.go:323-416 | scanned + skipped = seeds + child directories of everything scanned |
| ScanCoverage.RunInvariant | internal/workspace/discovery.go:216-296 | the joint invariant behind these holds after every schedule |
| ScanExact.SmallCountsMeanNoDrop | internal/workspace/discovery.go:216-296 | a finished scan whose two counters add up to at most 10000, the queue capacity, has dropped nothing |
| ScanExact.NoLinkIsFollowed | internal/workspace/discovery.go:340-395 | at every moment, the way to each directory entered passes only real directories: no symbolic link, no hidden and no ignored name, within the depth limit |
| ScanExact.ScanIsExact | internal/workspace/discovery.go:216-418 | a finished scan with such counters has entered exactly the directories to which such a way leads from a search path within the depth limit |
| ScanExact.StandardScans | internal/workspace/discovery.go:340-395 | for lower-casing that maps only '/' to '/' and only '.' to '.', the daemon's own classification, path joining and path comparison give a configuration these results speak about: two paths count as one iff both or neither is rooted and their components agree one by one after lower-casing |
| ScanExact.RepositoryMeans | internal/workspace/discovery.go:340-379 | a repository is a directory with an entry `.git` that is a real directory |
| ScanExact.OneResultPerPlace | internal/workspace/discovery.go:357-379 | a finished scan reports no place twice, reports the place of every directory entered that holds a real directory `.git`, and each report is the path of such a directory; places are told by components, letter case aside |
| ScanExact.RepositoryIsFound | internal/workspace/discovery.go:216-418 | with small counters, every repository to which a way leads within the depth limit is reported at exactly one position of the results |
| ScanExact.ChildComponents | internal/workspace/discovery.go:349-351 | the job for an entry has the components of its parent and then the name, the same root and a cleaned path |
| ScanExact.CountersMean | internal/workspace/discovery.go:323-416 | the first counter is the number of directories entered, the second the search paths and real subdirectories other than `.git` of everything entered, less the first |
| PathLaws.SameText | internal/workspace/discovery.go:683-688 | cleaning and lower-casing gives two paths one text exactly when they name one place, letter case aside |
| PathLaws.FirstComponent | internal/workspace/discovery.go:349-351 | the components of a path that is a single name, rooted or not |
| PathLaws.NextComponent | internal/workspace/discovery.go:349-351 | what one more name does to the components: nothing for an empty one and for a dot, one back for two dots (none at the root, one more ".." where nothing ordinary is left), and that name otherwise |
| PathLaws.CleanIsLaidOut | internal/workspace/discovery.go:683-688 | a cleaned path is its components between single slashes, after one slash if rooted; with no components it is a slash or a dot |
| ScanProgress.StepProgress | internal/workspace/discovery.go:229-288 | every step of every actor changes nothing, is an undecided poll, or strictly lowers a measure |
| ScanProgress.WorkIsBounded | internal/workspace/discovery.go:229-288 | the effective steps of any schedule are bounded in advance by the seeds and the tree |
| ScanProgress.BlockedCoordinatorMoves | internal/workspace/discovery.go:260-288 | when nobody else can move, the coordinator's next polls advance it, so there is no deadlock |
| ScanProgress.FairProgress | internal/workspace/discovery.go:229-288 | every stretch of a schedule in which everyone gets turns brings the end strictly nearer |
| ScanProgress.ScanTerminates | internal/workspace/discovery.go:216-296 | from any reachable point, every schedule that continues with more than a known number of stretches in which everyone gets turns (in any order) finishes the scan, for a positive depth limit |
| ScanRun.ParallelScan.constructor | internal/workspace/discovery.go:216-232 | the initial state |
| ScanRun.ParallelScan.Seed | internal/workspace/discovery.go:252-258 | one seeding step; the object stays where its schedule leads and never panics |
| ScanRun.ParallelScan.Work | internal/workspace/discovery.go:233-250 | one worker step, likewise |
| ScanRun.ParallelScan.Step | internal/workspace/discovery.go:305-418 | the in-place update equals the worker's step function on all shared variables |
| ScanRun.ParallelScan.Look | internal/workspace/discovery.go:340-398 | what a worker does with one entry: repository, skip, or queue |
| ScanRun.ParallelScan.Send | internal/workspace/discovery.go:400-416 | the non-blocking send: queued, or dropped on a full queue |
| ScanRun.ParallelScan.Coordinate | internal/workspace/discovery.go:260-296 | when it reports the end, nothing is queued or in flight, the counters add up and each repository is in the results once |
| Aliases.ResolveSessionID | internal/session/manager.go:1577-1599 | the loop with its visited set terminates on every map, cycles included, and computes `Resolve` |
| Aliases.ResolveIsFirstRecurrent | internal/session/manager.go:1577-1599 | resolution returns the first ID on the way that following aliases would come back to: the terminal ID, or the first cycle node reached |
| Aliases.ResolveIdempotent | internal/session/manager.go:1577-1599 | resolving twice is resolving once, on every map |
| Aliases.UpdateIsUnion | internal/session/manager.go:1601-1708 | on every acyclic map, empty IDs included, a mutating branch keeps the map acyclic and moves exactly the IDs of temp's canonical ID to realID, if and only if `RealIsFree` |
| Aliases.UnionNeedsFreeReal | internal/session/manager.go:1601-1708 | a concrete map on which an update with a non-free real ID closes a cycle |
| SessionManager.UpdateSeenByClients | internal/session/manager.go:1601-1708 | on an acyclic map and with a free real ID: after an update that finds a session, temp and realID lead to the same session object, the one temp led to (unless realID had its own), and unrelated IDs lead where they did |
| SessionLaws.PathsAfterMove | internal/session/manager.go:1601-1708 | after a re-key the real, the temporary and the canonical ID have the trimmed project path the canonical ID had, or else the temporary one; without one both old IDs have none; all other IDs keep theirs |
| SessionLaws.PathsOtherwise | internal/session/manager.go:1601-1708 | the project paths after the other three branches, told by their conditions |
| SessionLaws.SessionsAfter | internal/session/manager.go:1601-1708 | after a re-key the real ID has the session and both old IDs none, every other session stays; different IDs keep different sessions |
| SessionLaws.ActivityAfter | internal/session/manager.go:1601-1708 | which workspace entries and which reverse entries change, and to what |
| SessionLaws.ActiveSessionStays | internal/session/manager.go:1601-1708 | on an acyclic map and with a free real ID, a workspace keeps the active session it had, under whatever ID |
| SessionLaws.AliasesAfter | internal/session/manager.go:1601-1708 | which aliases point to the real ID afterwards, on every map, cyclic ones included |
| SessionManager.Manager.GetSession | internal/session/manager.go:1498-1508 | returns the session its resolved ID names, or none |
| SessionManager.Manager.UpdateSessionID | internal/session/manager.go:1601-1708 | the exact new alias, session, path and activity maps of all four branches, and the one object renamed |
| SessionManager.Manager.ReKey | internal/session/manager.go:1648-1700 | the branch that moves the session object under its real ID |
| SessionManager.Manager.RedirectAll | internal/session/manager.go:1694-1700 | the path-compressing loop, in any order |
| WatchModel.RunConsistent | internal/session/manager.go:2875-3057 | over every run: client c watches key k iff k is in c's set; every stored stream has a watcher; every started streamer is stored once or was ended exactly once |
| WatchModel.ShutdownEndsAll | internal/session/manager.go:152-165 | after Stop every streamer ever started has been ended exactly once |
| WatchModel.UnwatchUndoesWatch | internal/session/manager.go:2875-3057 | watch then unwatch gives back every stream and what every client watches, if and only if the client did not watch the session and has none of that ID in an earlier workspace |
| WatchLaws.WatchMeans | internal/session/manager.go:2875-2961 | a watch adds that one pair of client and session, if the session is streamed or a streamer starts; a streamer is started only for a session without one; kept sessions keep their streamer |
| WatchLaws.UnwatchMeans | internal/session/manager.go:2966-3057 | an unwatch removes the one pair of the client and the first session it may mean, or nothing; a streamer is ended, once, exactly when its session is no longer streamed |
| WatchLaws.DisconnectMeans | internal/session/manager.go:338-393 | after a disconnect the client watches nothing, everybody else watches what they did, kept sessions keep their streamer, and exactly the streamers of sessions nobody watches any more are ended |
| WatchLaws.StopLiveMeans | internal/session/manager.go:1410-1444 | after a stop nobody watches that session, everything else is watched as before, and its streamer alone is ended |
| WatchLaws.ShutdownMeans | internal/session/manager.go:152-165 | after a shutdown nobody watches anything |
| WatchLaws.StreamedIsWatched | internal/session/manager.go:2875-3057 | a session is streamed exactly while somebody watches it |
| WatchLaws.CandidatesMean | internal/session/manager.go:2985-3005 | an unwatch may mean the sessions the client watches, of the given ID unless that is empty |
| WatchLaws.KeyLessMeans | internal/session/manager.go:2985-3005 | the order it looks in: the workspace first, then the session, each decided where the texts first differ |
| WatchModel.LeastExists | internal/session/manager.go:2985-3005 | any non-empty set of keys has a lexicographic minimum |
| WatchModel.LeastUnique | internal/session/manager.go:2985-3005 | and only one, so the unwatch target is independent of map order |
| SessionManager.Manager.WatchWorkspaceSession | internal/session/manager.go:2875-2961 | the exact new streams, clients and active session, with all failure exits |
| SessionManager.Manager.PickTarget | internal/session/manager.go:2985-3005 | the loop over the client's set finds the least matching key |
| SessionManager.Manager.UnwatchWorkspaceSession | internal/session/manager.go:2966-3057 | drops the least matching key, ends the streamer with its last watcher, and reports whether the session is still watched |
| SessionManager.Manager.OnClientDisconnect | internal/session/manager.go:338-393 | the loop, in any order, leaves exactly the state that `WatchLaws.DisconnectMeans` describes: the client watches nothing, and exactly the streams it alone watched are ended |
| SessionManager.LeaveOne | internal/session/manager.go:350-392 | leaving one more session costs it a watcher, or ends it when that was the last |
| SessionManager.Manager.StopWatchingLiveSession | internal/session/manager.go:1410-1444 | the stream is ended and leaves every client's set |
| SessionManager.Manager.Stop | internal/session/manager.go:152-165 | every stored streamer is closed once and both maps are emptied |
| HubModel.AcceptedInOrder | internal/hub/hub.go:102-171 | over every run, whoever registers, accepted publishes = dispatched events followed by at most 256 pending ones, in order |
| HubLaws.AcceptedAreEvents | internal/hub/hub.go:160-171 | over every run, from the operations alone: the accepted events are those of exactly the publishes that found fewer than 256 pending, each once, in order |
| HubLaws.NothingLost | internal/hub/hub.go:160-171 | when no publish finds 256 pending, everything published is accepted |
| HubLaws.CountsMean | internal/hub/hub.go:102-171 | how many events are pending and dispatched after a run, counted from the operations alone |
| HubLaws.TakenAt | internal/hub/hub.go:128-171 | an accepted event is the one taken by the dispatch before which as many events were taken as were taken or pending when it was published |
| HubLaws.IsTaken | internal/hub/hub.go:128-171 | and once that many events have been taken there was such a dispatch |
| HubLaws.FiltersMean | internal/hub/hub.go:113-157 | a registered subscriber joined when its registration says, and at each dispatch since had the filter set last |
| HubLaws.PublishedIsReceived | internal/hub/hub.go:102-171 | an event published with fewer than 256 pending, after a subscriber registered, has been received by it once dispatched, if it is still registered and its filter at that dispatch was for the event |
| HubLaws.DispatchMeans | internal/hub/hub.go:128-154 | one dispatch takes the first pending event; those it concerns who are closed or full are closed and gone, those with room have it in their queue, all others stay as they were |
| HubLaws.JoinMeans | internal/hub/hub.go:113-117 | a new subscriber starts with an empty queue and the filter it was registered with, and touches nobody else |
| HubLaws.LeaveMeans | internal/hub/hub.go:66-126 | whoever unregisters, and everybody when the hub stops, is gone, closed, with what it received; nobody else changes |
| HubLaws.ConsumeMeans | internal/hub/subscriber.go:31-60 | consuming takes one event off the queue and keeps what was received |
| HubLaws.CloseMeans | internal/hub/subscriber.go:46-54 | a subscriber that closes itself stays registered with what it received until a dispatch finds it so |
| HubModel.NoSilentGaps | internal/hub/hub.go:102-157 | a registered subscriber has received its filter applied to all events dispatched since it registered |
| HubModel.NoGapsBeforeLeaving | internal/hub/hub.go:102-157 | an evicted or removed subscriber has received the same for an unbroken run of events, and is closed |
| HubModel.RunGapless | internal/hub/hub.go:66-188 | the invariant behind these, kept by publish, register, unregister, dispatch, stop, consuming, closing and filter changes |
| HubModel.SelectWithOneFilter | internal/hub/filter.go:45-50 | with a constant filter, exactly the forwarded events are selected, each as often as it occurred |
| HubModel.DeliversWhatConcerns | internal/hub/filter.go:45-177 | over every run with distinct IDs, a registered subscriber has received an event iff it was dispatched since registration while the filter was for it: no workspace, or subscribed and, for permissions, in focus |
| HubObjects.ChannelSubscriber.Send | internal/hub/subscriber.go:31-43 | succeeds iff open and not full, appends exactly the event, and otherwise changes nothing |
| HubObjects.FilteredSubscriber.ShouldForward | internal/hub/filter.go:153-177 | decides the filter predicate |
| HubObjects.FilteredSubscriber.Send | internal/hub/filter.go:45-50 | a filtered-out event counts as sent; otherwise the inner send decides |
| HubObjects.FilteredSubscriber.SetSessionFocus | internal/hub/filter.go:105-111 | the focus is set and nothing else of the subscriber changes |
| HubObjects.FilteredSubscriber.ClearSessionFocusIfWorkspace | internal/hub/filter.go:125-138 | clears the focus exactly when it is on the given non-empty workspace |
| HubObjects.EventHub.Publish | internal/hub/hub.go:160-171 | in place, the publish step of the machine, which `HubLaws.AcceptedAreEvents` ties to the events published |
| HubObjects.EventHub.Register | internal/hub/hub.go:113-117 | a new subscriber object is stored under its ID and takes part from the next event on |
| HubObjects.SendAll | internal/hub/hub.go:128-141 | the loop over the subscriber objects, in any order: each is sent the event once, and exactly the failed sends are collected |
| HubObjects.CloseAll | internal/hub/hub.go:143-154 | the loop that closes the given subscribers and touches no other |
| HubObjects.EventHub.Dispatch | internal/hub/hub.go:128-154 | sends to every subscriber object in any order, and closes and removes exactly those whose send failed, in the same step |
| HubObjects.EventHub.Unregister | internal/hub/hub.go:119-126 | closes the subscriber object and removes it |
| HubObjects.EventHub.Stop | internal/hub/hub.go:66-99 | every subscriber object is closed and removed; stopping a stopped hub does nothing |
| Pattern.GeneratorAgrees | internal/permission/pattern.go:18-180 | a generated pattern matches its own request iff the request is not in the star-directory case, which no absolute path is; what else it matches is `PatternLaws.GeneratedBashMeans` and `GeneratedFileMeans` |
| PatternLaws.GeneratedBashMeans | internal/permission/pattern.go:35-154 | the pattern remembered for a command answers exactly the commands whose words begin with its first word, or its first two when the first is git, npm, yarn, pnpm or go and there is a second; for a request without words, every Bash request |
| PatternLaws.GeneratedFileMeans | internal/permission/pattern.go:82-180 | the pattern remembered for a file answers exactly the paths with its extension or, when it has none, those in or below its directory, component by component (the star-directory case apart); for no path, or a file without extension in the current directory, every request of the tool |
| PatternLaws.GeneratedOtherMeans | internal/permission/pattern.go:18-32 | the pattern remembered for any other tool answers every request of that tool |
| PatternLaws.MatchedIsWrapped | internal/permission/pattern.go:104-124 | a pattern matches only in the form tool(content), and then as its content does |
| PatternLaws.ExactBashMeans | internal/permission/pattern.go:127-154 | a Bash pattern that does not end in ":*" answers that one command |
| PathLaws.ExtMeans | internal/permission/pattern.go:82-101 | the extension starts at the last dot, when no slash follows it |
| PathLaws.DirMeans | internal/permission/pattern.go:82-101 | the directory is what stands before the last slash, cleaned, or a dot |
| Pattern.StarDirectoryFails | internal/permission/pattern.go:82-180 | a concrete relative path whose pattern does not match it |
| Pattern.BashPrefixMeaning | internal/permission/pattern.go:127-154 | `Bash(p:*)` matches exactly the non-empty commands laid out as words that start with the words of p |
| Pattern.MatchBashPattern | internal/permission/pattern.go:127-154 | the field-comparison loop decides whether the pattern's fields are a prefix of the command's |
| Text.FieldsSpell | internal/permission/pattern.go:137-140 | a string is laid out as its fields: spaces, a word, at least one space, a word, and so on |
| Text.SpelledAreFields | internal/permission/pattern.go:137-140 | and the words of any such layout are the fields |
| TextLaws.SpacesMean | internal/permission/pattern.go:137-140 | which characters separate words, by their numbers |
| TextLaws.TrimMeans | internal/app/adapters.go:1076-1078 | trimming takes away the spaces at both ends, all of them and nothing else |
| Pattern.DirectoryPatternMeaning | internal/permission/pattern.go:157-180 | a directory pattern, rooted or relative, matches exactly the paths rooted alike that lie in or below it, component by component |
| Pattern.PatternsSeparateTools | internal/permission/pattern.go:104-124 | no pattern generated for one tool matches another when tool names contain no "(" |
| Memory.RecentDecisionsSurvive | internal/permission/memory.go:161-216 | in any run with a strictly increasing clock that never stores into a full cache while `EmptyIsOldest` (so in every run without empty patterns), a pattern stored among the last MaxPatterns calls is still there with that decision and time, in any map order |
| Memory.StoreMeans | internal/permission/memory.go:161-216 | one store: the new decision is there with this time and one use; a cache with room loses nothing, a full one exactly an oldest decision unless the empty pattern is the oldest |
| Memory.CacheIsBounded | internal/permission/memory.go:161-216 | in the same runs a session never holds more than max(1, MaxPatterns) decisions |
| Memory.StoreKeepsBound | internal/permission/memory.go:161-216 | in every map order a store leaves a cache within its bound, if and only if not: it is full, the empty pattern is its oldest, and the pattern is new |
| Memory.EvictionIsRight | internal/permission/memory.go:182-200 | a full cache loses an oldest decision in every map order, if and only if the empty pattern is not its oldest |
| Memory.LoopEndsEmpty | internal/permission/memory.go:182-200 | the eviction loop finds nothing exactly when it meets the empty pattern last and that is the oldest |
| Memory.EvictedIsOld | internal/permission/memory.go:182-200 | what a full cache evicts (the empty pattern not being its oldest) was last stored at least MaxPatterns calls ago |
| Memory.EmptyPatternDefeatsBound | internal/permission/memory.go:182-200 | with an empty pattern stored, a cache for one decision holds two |
| Memory.EmptyPatternDefeatsRecency | internal/permission/memory.go:182-200 | with an empty pattern stored, a cache for three evicts the decision stored last |
| Memory.CheckAgreesWithScan | internal/permission/memory.go:104-157 | a check answers iff some stored pattern matches, except exactly when the request is star-directory, its own pattern is stored and nothing stored matches; the request's own pattern, when stored, decides |
| Memory.FastPathExample | internal/permission/memory.go:104-157 | a star-directory request is answered although no stored pattern matches |
| Memory.CheckOnlyCounts | internal/permission/memory.go:104-157 | a check changes no decision or timestamp; a hit increments exactly one usage count |
| Memory.MemoryManager.CheckMemory | internal/permission/memory.go:104-157 | an exact key always wins, otherwise any matching stored pattern; only the session's access time and one usage count change |
| Memory.MemoryManager.StoreDecision | internal/permission/memory.go:161-216 | the exact new cache for any order the eviction loop meets the patterns in |
| Memory.MemoryManager.FindOldest | internal/permission/memory.go:182-200 | the eviction loop computes the oldest entry of that order |
| Memory.MemoryManager.ScanFor | internal/permission/memory.go:135-157 | the wildcard scan, in any order, finds a matching stored pattern iff there is one |
| Memory.MemoryManager.Cleanup | internal/permission/memory.go:58-72 | removes exactly the sessions idle longer than the TTL |
| Memory.MemoryManager.ClearSession | internal/permission/memory.go:219-229 | removes that session only |
| Pending.TakenAtMostOnce | internal/permission/memory.go:253-352 | in every interleaving each request is taken, answered and received at most once |
| Pending.ResponderNeverMeetsFullChannel | internal/permission/memory.go:300-338 | a responder that found its request never meets a full channel |
| Pending.RunHandsOff | internal/permission/memory.go:253-352 | the life cycle of every request holds after every interleaving, and what was sent was received or is in the channel |
| Pending.PendingMeans | internal/permission/memory.go:253-352 | over every run a request is pending iff the last operation on its ID added it, and it is the one added then |
| Pending.NextResponderFinds | internal/permission/memory.go:300-352 | the next responder finds exactly such a request and holds it |
| Pending.NobodyElseFinds | internal/permission/memory.go:276-352 | after it was taken, given up or removed, the next responder finds nothing |
| Pending.AnswerReachesWaiter | internal/permission/memory.go:300-338 | what a responder sends is in the channel and then received |
| Pending.PendingRequests.AddPendingRequest | internal/permission/memory.go:253-264 | a fresh request with an empty channel |
| Pending.PendingRequests.RemovePendingRequest | internal/permission/memory.go:276-295 | drains the channel and forgets the request |
| Pending.PendingRequests.GetAndRemovePendingRequest | internal/permission/memory.go:343-352 | hands the request to this caller alone, to answer it or to give it up |
| Pending.PendingRequests.Respond | internal/rpc/handler/methods/permission.go:343-372 | the RPC responder: found iff the request was there; the decision is stored and the answer reaches the channel |
| Pending.PendingRequests.RespondToRequest | internal/permission/memory.go:300-338 | reports success exactly when the request was there; the decision is stored and the answer sent |
| Jsonl.Reader.Next | internal/adapters/jsonl/reader.go:39-95 | the chunked loop, for every buffer size and limit: the end iff no newline is left and the bytes fill the buffer a whole number of times; otherwise the bytes up to the first newline, reported by their number and, unless they exceed the limit, without the newline (10) and the one carriage return (13) before it |
| Jsonl.ReaderIsNewlineSplit | internal/adapters/jsonl/reader.go:39-101 | reading to the end gives one line for each segment of the newline split iff the unterminated tail is not a positive multiple of the buffer size; otherwise exactly that tail is dropped |
| Jsonl.LinesReported | internal/adapters/jsonl/reader.go:39-101 | for a stream cut into its lines, the k-th report is of the k-th line: its number of bytes, too long iff there is a limit and they exceed it, and otherwise raw = data + CR + newline with exactly the ones it ends in |
| Jsonl.TailLostExample | internal/adapters/jsonl/reader.go:61-65 | a buffer's worth of letters without a newline is one line, and none is read |
| Jsonl.LineCutUnique | internal/adapters/jsonl/reader.go:39-101 | the newline split is the only way to cut a stream into lines |
| Jsonl.SegmentsCut | internal/adapters/jsonl/reader.go:39-101 | and it is one |
| Jsonl.BytesReadAddUp | internal/adapters/jsonl/reader.go:39-95 | the reported bytes sum to the stream length, short of a lost tail |
| Utf8.TruncateDiff | internal/adapters/git/diff_truncate.go:7-31 | a prefix within KB times 1024 bytes; truncated iff it differs from the input; when cut, the longest valid prefix within the limit, at most three bytes short of it for valid input |
| Utf8.LongestValid | internal/adapters/git/diff_truncate.go:22-31 | the byte-dropping loop finds the longest valid UTF-8 prefix |
| Utf8.CutNearby | internal/adapters/git/diff_truncate.go:22-31 | any four consecutive positions of a valid text contain a place to cut (section 4 of RFC 3629) |
| Utf8.LongestValidUnique | internal/adapters/git/diff_truncate.go:22-31 | the longest valid prefix is unique |
| Utf8.ValidIsEncoded | internal/adapters/git/diff_truncate.go:22-31 | what counts as valid is the encoding of some scalar values (section 3 of RFC 3629) |
| Utf8.EncodedIsValid | internal/adapters/git/diff_truncate.go:22-31 | and every such encoding is valid |
| Tokens.RefusalIsFinal | internal/security/token.go:478-556 | no issued token once refused is accepted later in any run, through cleanups, rotations, refreshes and exchanges, given the cleanup age |
| Tokens.ShorterAgeRevives | internal/security/token.go:546-556 | with any shorter age a revoked token of the longest lifetime is accepted again |
| Tokens.ForgottenIsExpired | internal/security/token.go:546-556 | a revocation old enough to be forgotten belongs to an expired token |
| Tokens.OnePairPerToken | internal/security/token.go:277-337 | in every sequential run each signed payload buys at most one pair, whatever prefix it comes under |
| Tokens.PrefixBindsKind | internal/security/token.go:402-475 | in every run an issued payload parses exactly when signed with the secret in use and under the prefix of its kind; under another it is malformed |
| Tokens.NewPairAccepted | internal/security/token.go:239-273 | both tokens of a new pair validate at once |
| TokenLaws.VerdictMeans | internal/security/token.go:402-498 | in every run the verdict on any token, told by what was issued, the secret in use, its prefix, the revocation list and the clock, in this order |
| TokenLaws.IssuingMeans | internal/security/token.go:340-399 | what one more token says: kind, server, device, its lifetime in whole seconds, and a nonce no other has and that is not revoked |
| TokenLaws.PairLives | internal/security/token.go:239-273 | the access token of a pair is accepted for 15 minutes and the refresh token for 7 days, to the end of that second, and no longer |
| TokenLaws.RevokingMeans | internal/security/token.go:501-512 | revoking a genuine token, expired or not, ends what carries its nonce and changes no other verdict; any other text changes nothing |
| TokenLaws.RevokingNonceMeans | internal/security/token.go:515-522 | revoking a nonce ends what carries it and changes no other verdict; an empty one changes nothing |
| TokenLaws.RevokingAllMeans | internal/security/token.go:526-543 | after a saved revoke-all no token issued before is accepted; when saving fails nothing changes |
| TokenLaws.NothingSurvivesRevokeAll | internal/security/token.go:526-543 | nor is it at any later moment of any run with cautious cleanups |
| TokenLaws.RefreshingMeans | internal/security/token.go:277-305 | an accepted refresh token with a device buys an accepted pair for it, is refused afterwards and changes no other verdict; anything else changes nothing |
| TokenLaws.ExchangingMeans | internal/security/token.go:309-337 | the same for an accepted pairing token and the device named |
| TokenLaws.CleaningUpMeans | internal/security/token.go:546-556 | a cleanup keeps exactly the revocations not older than the age |
| TokenManagement.TokenManager.ParseTokenPayload | internal/security/token.go:402-475 | which of the signature, server and format errors is reported, in the source's order |
| TokenManagement.TokenManager.ValidateToken | internal/security/token.go:478-498 | the verdict: malformed, bad signature, revoked, expired or valid |
| TokenManagement.TokenManager.GenerateToken | internal/security/token.go:340-399 | a token with a fresh nonce, signed with the current secret, expiring in whole seconds |
| TokenManagement.TokenManager.GenerateTokenPairWithDeviceID | internal/security/token.go:239-273 | refuses an empty device ID only; otherwise returns two accepted tokens for the device |
| TokenManagement.TokenManager.RefreshTokenPair | internal/security/token.go:277-305 | a pair iff the token is accepted, a refresh token and has a device; the old token is revoked |
| TokenManagement.TokenManager.ExchangePairingToken | internal/security/token.go:309-337 | a pair iff the token is an accepted pairing token; it is revoked |
| TokenManagement.TokenManager.RevokeToken | internal/security/token.go:501-512 | revokes an authentic token even when expired, and nothing else |
| TokenManagement.TokenManager.RevokeTokenByNonce | internal/security/token.go:515-522 | revokes that nonce; an empty one is ignored |
| TokenManagement.TokenManager.RevokeAllTokens | internal/security/token.go:526-543 | replaces the secret and empties the list, or changes nothing when saving fails |
| TokenManagement.TokenManager.CleanupExpiredRevocations | internal/security/token.go:546-556 | forgets exactly the revocations older than the age |
| Registry.RunConsistent | internal/security/auth_registry.go:80-183 | in every registry built by its operations bound devices are registered and no binding set is missing or empty |
| Registry.PruneIsExact | internal/security/auth_registry.go:156-183 | pruning removes exactly the devices without a session, without an expiry or with one not after now, reports exactly the workspaces all of whose devices it removed, and keeps all other bindings and their times |
| Registry.GoneTogether | internal/security/auth_registry.go:156-183 | losing devices one after another, in any order, leaves and reports what losing them at once does, no workspace twice |
| Registry.PruneOnce | internal/security/auth_registry.go:156-183 | a second prune at the same moment changes and reports nothing |
| Registry.ReportsAreExact | internal/security/auth_registry.go:101-183 | over every run a workspace is stored iff the last word on it was a binding, drops out only by unbinding or a report, and is reported only while stored |
| RegistryLaws.BindMeans | internal/security/auth_registry.go:101-122 | a binding adds that device to that workspace, from now on, and keeps all others and their times; for an unknown device or an empty ID nothing changes |
| RegistryLaws.RegisterMeans | internal/security/auth_registry.go:80-98 | registering stores the session of that device and touches nothing else |
| RegistryLaws.UnbindMeans | internal/security/auth_registry.go:125-135 | unbinding takes every device off that workspace and nothing else |
| RegistryLaws.RemoveMeans | internal/security/auth_registry.go:138-153 | without the device everybody else is bound as before; a workspace goes and is reported iff no other device was bound to it |
| RegistryLaws.PruneMeans | internal/security/auth_registry.go:156-183 | the same for all devices without a session, without an expiry or with one not after now |
| Registry.AuthRegistry.RegisterDevice | internal/security/auth_registry.go:80-98 | the new session, with the empty-ID and save errors |
| Registry.AuthRegistry.BindWorkspace | internal/security/auth_registry.go:101-122 | the new binding, with all error cases |
| Registry.AuthRegistry.UnbindWorkspace | internal/security/auth_registry.go:125-135 | forgets the workspace |
| Registry.AuthRegistry.RemoveDevice | internal/security/auth_registry.go:138-153 | loses the device and lists each orphaned workspace once |
| Registry.AuthRegistry.PruneExpired | internal/security/auth_registry.go:156-183 | lists each expired device and each orphaned workspace once; nothing changes when none expired |
| Registry.AuthRegistry.PruneDeviceBindings | internal/security/auth_registry.go:206-222 | the loop over the workspaces, in any order, missing binding sets included |
| Worktree.SanitizeName | internal/agent/worktree.go:132-149 | the collapsing loop terminates (each pass shortens) and gives the title's words joined by single dashes |
| Worktree.ReplacingShortens | internal/agent/worktree.go:145-147 | replacing a double dash strictly shortens the name |
| Worktree.ReplacingKeepsWords | internal/agent/worktree.go:145-147 | and keeps its words |
| Worktree.NameIsTidy | internal/agent/worktree.go:132-149 | only [a-z0-9-], no double dash, no dash at an edge |
| WorktreeLaws.NameMeans | internal/agent/worktree.go:132-149 | the name has the letters and digits of the lower-cased title in order, side by side within a word, and one dash where spaces, underscores or dashes stood between two of them |
| Worktree.NamesAreFixed | internal/agent/worktree.go:132-149 | a name is left alone iff it is tidy, so naming is idempotent |
| Worktree.RepoRoundTrip | internal/agent/worktree.go:31-102 | the repository is found again from a task's worktree path iff its cleaned path is neither "/" nor "." |
| WorktreeLaws.PathMeans | internal/agent/worktree.go:31-40 | the path has the components of the repository, `.claude`, `worktrees`, and the first eight characters of the ID with a dash and the name; it is cleaned |
| WorktreeLaws.TasksKeepApart | internal/agent/worktree.go:31-40 | tasks whose IDs differ in the first eight characters never share a path |
| Worktree.LaunchIsExact | internal/agent/session_adapter.go:105-128 | a project path is launched as worktree `name`, in the cleaned workspace root, iff it is that direct child of the worktrees directory, and otherwise not at all |
| Worktree.LaunchRoundTrip | internal/agent/session_adapter.go:105-128 | a session in a task's worktree is launched in the workspace under the worktree's name |
| Paths.ComponentsOfClean | internal/agent/worktree.go:91-92 | cleaning a path is idempotent and keeps its components |
| Codex.DedupCodexThinking | internal/app/adapters.go:1067-1099 | the loop computes the deduplicated list |
| Codex.DedupIdempotent | internal/app/adapters.go:1067-1099 | deduplicating twice is deduplicating once |
| Codex.DroppedHasOriginal | internal/app/adapters.go:1067-1099 | a dropped non-blank thinking has a kept original with the same text before it |
| Codex.NoEchoLeft | internal/app/adapters.go:1067-1099 | no kept thinking is blank or echoes the one kept before it |
| Codex.NearMeans | internal/app/adapters.go:1080-1086 | what counts as within two seconds, saturation and wrap-around included |
| CodexLaws.DedupMeans | internal/app/adapters.go:1067-1099 | exactly which items go: blank thinking, and thinking with the trimmed text of the last one kept, within two seconds of the last time kept; all others stay, in order |
| Codex.ShouldFlushCodexExploredBeforeItem | internal/app/adapters.go:1128-1138 | flush before anything but an assistant item of tool calls and results |
| Codex.CollectCodexToolSummaries | internal/app/adapters.go:1140-1151 | the non-blank summaries of the tool calls, in order |
| Codex.ExploredTextDetermines | internal/app/adapters.go:1153-1168 | the text of an explored message determines its entries when none breaks a line |
| CodexLaws.ExploredTextMeans | internal/app/adapters.go:1153-1168 | the text is the heading **Explored** and one line for each entry, with its branch, the last one closing the tree |
| CodexLaws.ShownBlocksMean | internal/app/adapters.go:744-763 | the blocks shown are, in order, exactly the texts, thinking and results with ink and the tool calls with a name |
| CodexLaws.MessagesMean | internal/app/adapters.go:744-763 | the item messages are, in order, one for each item of the user or the assistant with something to show, with its role, time, line and shown blocks |
| CodexLaws.AllSummariesMean | internal/app/adapters.go:1140-1151 | the summaries are those of every tool call whose summary has ink, item by item and block by block, each once |
| CodexLaws.RunsMean | internal/app/adapters.go:785-800 | the items are cut before exactly those not of the assistant or with a block that is neither tool call nor result |
| CodexMessages.BuildMessages | internal/app/adapters.go:733-801 | the loop with its flushes builds the list described by stretches of items |
| CodexMessages.AppendMessage | internal/app/adapters.go:744-763 | a message of the shown blocks, or none when nothing is shown |
| CodexMessages.FlushExplored | internal/app/adapters.go:765-783 | the explored message, dated like its last contributor or else the fallback |
| CodexMessages.TurnExtends | internal/app/adapters.go:785-800 | one turn of the loop keeps the description by stretches |
| CodexMessages.RunsShape | internal/app/adapters.go:785-800 | the stretches partition the items, none is empty, and each but the first starts with a flushing item |
| CodexProperties.RegroupingConserves | internal/app/adapters.go:733-801 | the explored messages' entries together are exactly the non-blank tool summaries of all items, in order, each once; erasing those messages leaves the item messages in order |
| CodexLaws.ExploredListAll | internal/app/adapters.go:733-801 | the explored messages, numbered from 1, list all summaries of all items, in order, each in exactly one |
| CodexLaws.OnlyMeans | internal/app/adapters.go:733-801 | telling the explored messages from the others selects them, in order, by their suffix |
| CodexProperties.DedupKeepsSummaries | internal/app/adapters.go:1067-1099 | deduplication loses no tool call |
| CodexProperties.ExploredFollowsItsItems | internal/app/adapters.go:785-801 | each explored message stands after every item it summarises and before every later one |
| CodexLaws.StretchIsTold | internal/app/adapters.go:765-801 | a stretch with summaries has its explored message: their list, the line and time of the item that gave the last one (without a time, that of the item after the stretch), between the messages of the items up to there and all later ones |
| CodexProperties.GetSessionMessages | internal/app/adapters.go:719-839 | the page asked for and the total, with the defaults for limit, offset and order |
| CodexLaws.PageMeans | internal/app/adapters.go:803-838 | a page starts at the offset (0 if negative) and has as many messages as the limit (50 if not positive), or as there are |
| CodexLaws.SessionMeans | internal/app/adapters.go:803-838 | the messages are the regrouped ones numbered from 1, or the same backwards for "desc" |
| CodexProperties.PagesTile | internal/app/adapters.go:803-838 | consecutive pages put together are a prefix of the list, and finally the list |
| CodexProperties.DescendingPages | internal/app/adapters.go:803-838 | a page newest first is the matching stretch from the end of the same numbered list, backwards |

## Left out

- Cancelled scans: the check of `closed` and the send are separate steps there, and nothing stronger is claimed.
- The streaming scan, the final sort of results, the scan cache, and the commit data read from a repository.
- ScanProgress.ScanTerminates: assumes a positive depth limit, which the constructor of the engine guarantees.
- HubObjects.EventHub.Dispatch: one dispatch is one step, although the source sends to subscribers one by one; sends to different subscribers touch different queues. Subscribers are filtered channel subscribers; the logging one is not part of this model.
- HubObjects.EventHub.Stop: the channel that ends the run loop is not part of this model.
- HubModel.NoSilentGaps: covers one Start-to-Stop generation with distinct subscriber IDs, not a hub restarted with an overlapping run loop.
- SessionManager.Manager.Stop: only the streamer part; sessions, processes, file watchers and git watchers are not part of this model.
- SessionManager.Manager.OnClientDisconnect: the git watcher counts, decremented first, are not part of this model.
- SessionManager.Manager.StopWatchingLiveSession: the event that announces the stop is not part of this model.
- SessionManager.UpdateSeenByClients: states nothing for a real ID that is not free; there the update is not a union step at all.
- The git watcher reference counts, starting and creating sessions, and ClearWorkspace.
- Closing a streamer and unwatching its session are counted alike, as ending it.
- Memory.CacheIsBounded: assumes a strictly increasing clock and no store into a full cache whose oldest decision is under the empty pattern, where it is false.
- Memory.RecentDecisionsSurvive: makes the same assumptions, false otherwise, and speaks of runs without ClearSession and without TTL expiry.
- Pattern.DirectoryPatternMeaning: states which components `filepath.Rel` yields up to the test for a leading "..", so a directory whose own name begins with two dots counts as outside, as in the source.
- `filepath.Match` is a parameter; no generated pattern reaches it.
- Jsonl.Reader.Next: the source of bytes ends by an empty read at end of file and reports no other error; such an error the source passes on.
- Tokens.OnePairPerToken: sequential runs only; two concurrent refreshes of one token are not modelled.
- JSON, base64, HMAC and random generation; text that is no token at all; each operation reads the clock once.
- TokenManagement.TokenManager.RevokeTokenByNonce: nonces are numbers, so a nonce that was never issued is simply kept from being drawn later.
- Registry.AuthRegistry.BindWorkspace: requires the binding set of the workspace to be present, because the source stops with a run-time error on a missing one.
- Loading the registry from disk, and the getters for devices and nonces.
- Worktree.RepoRoundTrip: task IDs whose first eight characters contain a slash, which could climb out of the worktrees directory, and IDs shorter than eight, on which the source stops with a run-time error.
- Worktree.LaunchRoundTrip: the same task IDs.
- CodexProperties.GetSessionMessages: looking the session up and reading its file, and their errors, are not part of this model.
- Strings are sequences of characters, so lengths of names are counted in characters, not bytes.
- Branch names built from titles, and the git commands run in a worktree.
- Reading conversation items from a Codex log, summarising commands, and the JSON form of a message.
- Session elements and their cursors, whose IDs can repeat.
- Configuration, workspace management, HTTP and WebSocket servers, terminal handling and the desktop interface.
