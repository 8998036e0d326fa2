# Verified models of the uAssign server core

uAssign gives each student a container and connects a browser terminal to it. This project models
the parts of its server in which something can go wrong that no single function shows: websocket
handlers that take an instance over from each other, terminal output that arrives in arbitrary
pieces, post-build actions that run in parallel and cancel each other, cleaners and sessions that
share a table of instances, a background runner that is being stopped, and encryption in place. It
proves properties of the models for all inputs and all runs.

`dafny verify dfyconfig.toml` checks everything.

## How it is organised

| files | subject |
|---|---|
| `expire_maps`, `expire_manager`, `idle_clock`, `manager_clock` | the expiry manager: its maps as a value, its methods as objects updated in place, its clock, and the manager on that clock |
| `takeover`, `takeover_runs`, `takeover_progress` | the manager and its callers as an unbounded step machine, its runs, and their progress |
| `lifecycle`, `lifecycle_sessions`, `lifecycle_trace`, `lifecycle_rows` | sessions, the sweep, the cleaners and row insertion as one step machine on top of the takeover protocol |
| `docker`, `app` | creation and cleanup of instances against an abstract Docker with failures |
| `utf8`, `scan_runes`, `rune_copy` | UTF-8 after RFC 3629, the greedy split function, and the copy loop over a model of `bufio.Scanner` |
| `actions`, `action_runs`, `action_causes`, `action_steps` | the interpreter of post-build actions as a small-step semantics, its runs, the causes of its errors, and what can happen next |
| `sched_runner` | the scheduled runner |
| `cfb`, `simplecrypto` | CFB mode after section 6.3 of NIST SP 800-38A, and the encrypt-then-MAC package |
| `options` | a type for values that may be absent |

Three shapes occur. Code that updates objects or buffers is a class or a method with loops
(`ExpireManager.Manager`, `App.App`, `RuneCopy.Scanner`, `SimpleCrypto.Decrypt`), proved against
functions on values. Where goroutines interleave, a body is cut into its atomic steps, and all
callers together form a machine with a state, events, `Enabled` and `Next`; a run is any sequence of
enabled events, so no scheduling is assumed. What the Go libraries and services provide is modelled as
far as the code depends on it: Docker answers or fails, with or without having carried the request
out; the block cipher and the MAC are arbitrary functions; clocks, randomness and faults are
parameters.

## What is shown, in short

*Takeover.* The calls of `Acquire` for one name form a chain; each waits on its predecessor's
channel alone. At most one holds the name, and the order is first come, first served: the protocol
refines a FIFO lock. That much is for runs without `ExpireAndRemove`; exclusion survives a removal
exactly when the removed name had no entry. Progress holds in all runs, removals included: whoever is
blocked has someone ahead of it that can move and has been told to leave; the returns and releases
that a group of calls has before it are counted by a measure that nothing else changes; and so the
shutdown, which removes every name and then waits for all handlers, ends if the handlers do.

*Sessions.* In runs without `ExpireAndRemove`, while a session is connected and its first database
write succeeded, its row has no expiry, its own start is the last thing a session did to the
container, and no other session of the instance can get past `Acquire`. A removal keeps this exactly
when it removes nothing. The sweep, taken as one step, leaves the session alone. The sweep is not one
step: it can deactivate the row, and together with the cleaner cost the session its container,
exactly when it had read the row before. In every run, removals included, what a session does to the
world, in which order and with which values, and what a row's expiry is, are functions of the events.

*Rows.* However finds and column updates interleave, no row is cleaned and active, flags only move one
way, and without the forced marking a cleaned row has no container.

*Creation and cleanup.* Cleaning may be interrupted anywhere and repeated; an answered attempt reaches
the same state. Creation succeeds exactly if all of its steps do; a failed one leaves neither image nor container,
with the exact exceptions stated.

*Terminal output.* However the bytes arrive, the tokens add up to the decoding of the whole; each is
well-formed; at most three bytes are held back; well-formed text passes unchanged. What the copy
writes and reports is stated exactly for every reader, broken and stalling ones included.

*Actions.* A leaf can start exactly when everything ordered ahead of it has succeeded, and the items
of a parallel list run side by side; a return leaves nothing in flight; success means exactly that
each leaf ran once and succeeded; an error is a leaf's own, never the echo of
a cancellation, be it by name or by the moment it arose; and every run ends.

*Runner.* Runs never overlap, every request and every tick is answered by a start that follows it, and a stop ends
with at most three more starts.

*Encryption.* `CheckAndDecrypt` undoes `EncryptAndHMAC`, in place or not, and refuses every ciphertext
whose MAC is another; what is written is section 6.3's formula, byte by byte.

## Where the code and its documentation differ

The models follow the code.

- `RuneCopy` is documented to be like `io.Copy`, but `Scan` hands out no token after a read error that
  came without data and with nothing held back, so the loop ends before it asks for the error. The
  error is reported if and only if data came with it or an open sequence was held back, and then the
  last token is not written. A reader that stalls (more than a hundred empty reads in a row) is given
  up in the same way: with nothing held back the copy reports success although data may be left
  (`RuneCopy.RuneCopy`).
- `Run` of the scheduled runner promises that the function will run; that holds for calls before
  `Stop` closes the channel, and a later call panics. `Stop` of a runner that was never started waits
  until someone starts it (`SchedRunner.StopNeedsStart`).
- The prechecks of the cleanup tasks give up only if both flags are down, and a row whose update
  failed is counted as expired (`App.App.CheckExpiredInstances`).
- An image that a stopped container of somebody else was made from counts as removed; one that a
  running container was made from makes cleaning fail for good (`App.Stuck`).

## Model

| member | source | states |
|---|---|---|
| ExpireMaps.RegisterKeepsConsistent | pkg/expire/manager.go:69-77 | `Acquire` of a free name keeps `entries` and `tokens` inverse and `blockers` disjoint from `tokens` |
| ExpireMaps.SupersedeKeepsConsistent | pkg/expire/manager.go:69-77 | so does a takeover, and its blocker goes under a key that had none |
| ExpireMaps.ReleaseKeepsConsistent | pkg/expire/manager.go:96-110 | `Release` closes at most one channel, an open one, and evicts the entry of that very token and no other: releasing a superseded token leaves its successor registered |
| ExpireMaps.RemoveKeepsConsistent | pkg/expire/manager.go:114-123 | `ExpireAndRemove` keeps the maps consistent, installs no blocker, and drops exactly the named entry |
| ExpireMaps.RemoveAllKeepsConsistent | pkg/expire/manager.go:127-136 | in every order of the map iteration, removing all names empties `entries` and `tokens` and leaves `blockers` alone |
| ExpireManager.Token.Update | pkg/expire/token.go:24-26 | the token holds the current time in whole seconds |
| ExpireManager.Manager.constructor | pkg/expire/manager.go:31-40 | a new manager is empty and consistent |
| ExpireManager.Manager.Acquire | pkg/expire/manager.go:58-86 | under the lock, the maps become those of a registration or a takeover; a new open channel is handed over exactly if the name was held |
| ExpireManager.Manager.Release | pkg/expire/manager.go:96-110 | any token, in any state, may be released: no channel is closed twice, none is reopened, and the maps become those of the release |
| ExpireManager.Manager.ExpireAndRemove | pkg/expire/manager.go:114-123 | the maps become those of the removal |
| ExpireManager.Manager.ExpireAndRemoveAll | pkg/expire/manager.go:127-136 | the loop launches and removes every entry, once each, and ends with both maps empty |
| ExpireManager.Manager.Expire | pkg/expire/manager.go:153-162 | one tick launches the callbacks of exactly the idle entries, once each, and removes nothing |
| ExpireManager.Manager.Run | pkg/expire/manager.go:138-151 | undisturbed, the loop handles the ticks before the stop and none after; whatever is launched was idle at one of them, and whatever was idle at one of them is launched |
| ManagerClock.Perform | pkg/expire/manager.go:58-162 | each operation of the manager is exactly the events it should be on the clock of the idle model (a takeover drops the predecessor and registers the new token, and so on), stamps included; a token that the operation spares stays registered, meets no event, and is launched by nothing but a tick that fires it |
| ManagerClock.Live | pkg/expire/manager.go:138-162 | so do ticks with any acquisitions, releases, removals and updates between them, in any order |
| ManagerClock.LaunchedInTime | pkg/expire/manager.go:138-162 | the idle bound of the manager: whatever is done to others between on-time ticks, the callback of an idle registered token is launched by the first tick at or after `expireLimit`, less than `expireLimit + checkEvery` after its last update |
| ManagerClock.NotLaunchedEarly | pkg/expire/manager.go:138-162 | and it is not launched as long as no tick comes more than `expireLimit` minus one second after that update |
| IdleClock.RunConcat | pkg/expire/manager.go:138-151 | a run of the clock continues where the one before it ended |
| IdleClock.Unix | pkg/expire/token.go:14-26 | whole seconds, rounded towards the past |
| IdleClock.TickBounds | pkg/expire/token.go:28-30 | a tick fires every token idle for `expireLimit`, none idle for a second less, and in between just those whose truncated stamps coincide |
| IdleClock.IdleTokenFires | pkg/expire/manager.go:153-162 | in every run, a registered token left idle fires at a tick `expireLimit` or more after its last update |
| IdleClock.IdleBound | pkg/expire/manager.go:138-151 | with on-time ticks it fires less than `expireLimit + checkEvery` after its last update |
| IdleClock.NeverEarly | pkg/expire/manager.go:138-162 | it fires only by a tick that comes more than `expireLimit` minus one second after its last update |
| Takeover.MapsOkStep | pkg/expire/manager.go:58-136 | every step of every operation keeps the maps consistent, overwrites no blocker, closes no closed channel, and evicts no other token's entry |
| Takeover.RegisteredIsTail | pkg/expire/manager.go:73-77 | a token is registered exactly if it is the youngest unreleased one of its name |
| Takeover.ReturnAtHead | pkg/expire/manager.go:81-85 | an `Acquire` can return if and only if its token is the oldest unreleased one and has not returned yet |
| Takeover.ReleaseAtHead | app/instance.go:111-122 | only the oldest unreleased token can be held |
| Takeover.AcquireSame | pkg/expire/manager.go:69-83 | the newcomer joins its chain at the end, blocked on its predecessor's channel alone, and the predecessor is told to leave |
| Takeover.ReleaseSame | pkg/expire/manager.go:104-107 | a release unblocks the successor and nobody else |
| Takeover.InvStep | pkg/expire/manager.go:58-110 | the hand-off chain of every name survives every step except `ExpireAndRemove` |
| TakeoverRuns.MapsOkRun | pkg/expire/manager.go:58-136 | map consistency in every run of all operations, `ExpireAndRemove` included |
| TakeoverRuns.MutualExclusion | pkg/expire/manager.go:58-110 | in every run, for any number of callers, at most one token per name is between the return of `Acquire` and its `Release` |
| TakeoverRuns.FifoOrder | pkg/expire/manager.go:69-83 | calls of a name return in the order of their entry, tokens come back in that order, and nobody returns before its predecessor released; read off the events alone |
| TakeoverRuns.TraceIsLog | pkg/expire/manager.go:58-110 | the machine's history of a name is what its events say |
| TakeoverRuns.CallbackIsKept | pkg/expire/manager.go:58-69 | in every run of all operations a token's entry has the name and the callback that its caller gave to `Acquire`, so telling the entry tells that caller |
| TakeoverRuns.TickTells | pkg/expire/manager.go:153-162 | an entry that a tick launched stays told |
| TakeoverRuns.EnabledIffAdmitted | pkg/expire/manager.go:81-85 | a call can return, and a token can be released, exactly when a FIFO lock would allow it |
| TakeoverRuns.RefinesLock | pkg/expire/manager.go:58-110 | every step moves the FIFO lock of its own name as the lock's own operation does, and no other lock |
| TakeoverRuns.ServedIff | pkg/expire/manager.go:81-110 | where nothing was or is removed, a waiting `Acquire` has returned if and only if its name has seen exactly as many returns and releases as its rank; newcomers do not matter |
| TakeoverRuns.NextInTurn | pkg/expire/manager.go:81-110 | there the rank of a waiting call is positive and the holder or the next in turn can move |
| TakeoverRuns.Serve | pkg/expire/manager.go:81-110 | so a schedule of exactly that many steps serves it |
| TakeoverProgress.LiveRun | pkg/expire/manager.go:58-136 | in every run of all operations: registered tokens are unreleased, superseded ones are unreleased and told to leave, every blocked call waits for an older call of its name through that call's channel, and who is neither registered nor released was told to leave |
| TakeoverProgress.NoLostWakeup | pkg/expire/manager.go:58-136 | in every run of all operations, whoever is blocked has ahead of it an older call of the same name that is not blocked, not released, told to leave, and can take its next step |
| TakeoverProgress.WaitingCanMove | pkg/expire/manager.go:58-136 | in every run of all operations, as long as a call waits, it can return or an older call of its name can return or be released: no deadlock |
| TakeoverProgress.WorkRun | pkg/expire/manager.go:58-136 | each return or release of one of a group of calls takes one off its measure (two for each that waits, one for each that holds); no tick, removal or newcomer changes it |
| TakeoverProgress.WaitingIsServed | pkg/expire/manager.go:81-110 | after and during any run of all operations, a waiting call has returned once the older calls of its name and itself have moved as often as the measure says, and until then one of them can move |
| TakeoverProgress.Drain | pkg/expire/manager.go:81-110 | from every state that a run of all operations reaches, exactly that many steps release such a group |
| TakeoverProgress.EmptyIsTold | pkg/expire/manager.go:127-136 | once no name is registered, every unreleased token has been told to leave |
| TakeoverProgress.ShutdownDrains | app/app.go:294-299 | after any run, removals included, the calls entered so far have exactly their measure of returns and releases before them, one is possible until none is left, and then all are released; with all names removed they have all been told to leave |
| TakeoverRuns.RemoveAdmitsSecond | pkg/expire/manager.go:114-123 | `ExpireAndRemove` of a held name: a schedule after which two tokens hold it |
| TakeoverRuns.RemoveKeepsExclusionIff | pkg/expire/manager.go:114-123 | exclusion survives a removal, over all continuations without a further one, if and only if the name has no entry |
| LifecycleSessions.PairedStep | app/instance.go:111-122 | in every run, removals included, each session goes through the takeover protocol with one token, and holds it from the return of `Acquire` to the deferred `Release` |
| LifecycleSessions.BaseStep | app/instance.go:111-122 | every step but a removal keeps the hand-off chain besides |
| LifecycleSessions.OneActive | app/instance.go:111-163 | in runs without `ExpireAndRemove`, two sessions of one instance are never between those two points together |
| LifecycleSessions.GuardedStep | app/instance.go:124-163 | no step of any session, sweep or cleaner undoes what a connected session relies on; only a removal can |
| LifecycleSessions.SessionSafety | app/instance.go:111-163 | in every run without `ExpireAndRemove`, while a session proxies: if its first write went through, its row has `ExpiresAt` nil and no sweep taken now selects it; the last effect of any session on the row or container is its own start; and no other session of the instance can get past `Acquire` |
| LifecycleSessions.RemoveAdmitsSecond | pkg/expire/manager.go:114-123 | the removal of a registered name: a run after which two sessions of the instance are connected |
| LifecycleSessions.RemoveKeepsSafetyIff | pkg/expire/manager.go:114-123 | sessions stay exclusive after a removal, over all that may follow without a further one, if and only if the name was not registered |
| LifecycleTrace.HangupIsKept | app/instance.go:124-150 | in every run, removals included, a session past its hangup holds the expiry time that its own hangup computed, and before that, from the return of `Acquire` on, none |
| LifecycleTrace.ExpiryIsLastWrite | app/instance.go:124-156 | in every run the rows are those inserted, and the `ExpiresAt` of a row is what the last insertion, opening or end of a session that reached the database wrote, read off the events alone |
| LifecycleTrace.SetExpirySets | app/instance.go:150-156 | when the write at the end of a session gets through, the row has the time of that session's hangup |
| LifecycleTrace.SessionsFollowScript | app/instance.go:124-163 | in every run each session issues its four effects once each, in order: disable the expiry, start, set the expiry to the time that its hangup computed, stop; all of it read off the events |
| LifecycleTrace.SessionGoesOn | app/instance.go:124-163 | between the return of `Acquire` and its `Release` a session can always take its next step, and no other |
| LifecycleTrace.RunsTheProtocol | app/instance.go:111-122 | what the expiry manager sees of any run is a run of the takeover protocol, and it is in that run's state |
| LifecycleRows.FlagsStep | app/cleanup.go:76-79 | one step of anyone, with whatever stale copy, keeps "cleaned implies inactive" and moves flags one way only |
| LifecycleRows.LifecycleFlags | app/cleanup.go:238-252 | over every run, removals included, and between any two moments of it: no row is cleaned and active, none is dropped, `Active` never returns to true, `Cleaned` never to false |
| LifecycleRows.CleanedIsRemoved | app/cleanup.go:31-86 | without the forced marking, in every run, removals included, a row marked cleaned has no container |
| LifecycleRows.PendingIff | app/cleanup.go:94-115 | in every run, sweeps can deactivate an active row without expiry if and only if one of them read it before and has not written it yet |
| LifecycleRows.SweepRaceIff | app/cleanup.go:94-115 | in runs without `ExpireAndRemove`, so for the row of a connected session whose expiry is disabled |
| LifecycleRows.SweepCostsContainerIff | app/cleanup.go:94-152 | and exactly then sweeps and the cleaner of inactive instances can remove the container under that session |
| LifecycleRows.SweepRaceReachable | app/cleanup.go:94-115 | that situation does occur, container included: the run |
| LifecycleRows.ForceMarkIff | app/cleanup.go:238-252 | the forced marking can leave a cleaned row beside its container if and only if the container exists when it comes to the row |
| LifecycleRows.CleaningReturns | app/cleanup.go:18-87 | a worker's cleaning of one row, whatever the calls answer: the row is marked exactly if neither removal failed and the update got through, an answered removal leaves no container, other rows, columns and containers stay, and the worker goes on |
| LifecycleRows.ForcedRound | app/cleanup.go:238-256 | in the forced marking the row is marked besides if the last update gets through, whatever became of the cleaning |
| LifecycleRows.JobCompletes | app/cleanup.go:139-205 | at any moment an idle worker can take up any of the three cleaning jobs, and when it is answered every row that its query selects ends up marked, with its container gone |
| App.KillAndRemove | app/cleanup.go:31-56 | killing and removing touches no other container, and when answered leaves no container |
| App.RemoveOwnImage | app/cleanup.go:62-74 | an answered image removal reaches the clean state and is an error exactly if another running container was made from the image |
| App.CleanWorldAgain | app/cleanup.go:31-74 | what is partly clean has the same clean state |
| App.App.CleanInstance | app/cleanup.go:18-87 | answered, it reaches the clean state and fails only on a stuck image; whatever fails, repeating it leads to the same state, the row is marked only after the container is gone, with these two columns only, and nothing else is touched |
| App.App.CleanAfterFailures | app/cleanup.go:18-87 | after any number of failed or interrupted attempts, one answered attempt gives the state of an uninterrupted run |
| App.App.Find | app/cleanup.go:170-176 | a query gives a fresh, current copy of exactly the selected rows, each once |
| App.App.CleanAll | app/cleanup.go:180-193 | one instance's failure does not stop the batch, and the count is the number cleaned |
| App.App.CleanupInstancesByQuery | app/cleanup.go:167-205 | of the instances the query selects, every one whose requests are answered and whose image is its own is cleaned; every other row is as it was or marked with its container gone; nothing else changes |
| App.App.CheckExpiredInstances | app/cleanup.go:89-137 | unless both prechecks or the query fail, exactly the rows with `Active` and `ExpiresAt < now` lose `Active`, where the update got through, and no other column changes; it counts all that it found |
| App.App.CleanInactiveInstances | app/cleanup.go:139-152 | it sees to exactly the rows that are neither active nor cleaned, as App.App.CleanupInstancesByQuery does |
| App.App.CleanupLeftoverInstances | app/cleanup.go:154-165 | it sees to exactly the active rows |
| App.App.SpecClean | app/spec.go:292-300 | it sees to exactly the rows of the spec that are not cleaned, active ones included |
| App.App.MarkAllInstancesCleanedAndInactive | app/cleanup.go:207-270 | of the rows that are active or not cleaned, each is marked if its own last update got through, and else is as it was or marked with its container gone; where Docker and the database answered no container is left; nothing else changes |
| App.App.Update | app/cleanup.go:79-84 | a column-selective update writes those columns, or, unanswered, perhaps nothing |
| App.App.SpecCreateContainerSetup | app/spec_create.go:153-198 | it succeeds exactly if every request is answered and each post-build action of the script has run once and returned nil; then the container is stopped |
| App.App.SpecCreateContainer | app/spec_create.go:74-151 | it succeeds exactly if the image exists, every request is answered and each post-build action has run once and returned nil; on success there is one stopped container more; on failure, if killing and removing are answered, none, unless it was created although the request failed |
| App.App.SpecCreate | app/spec_create.go:20-72 | it succeeds exactly if the script gives an image or a Dockerfile, tagging or building works, every request is answered and each post-build action has run once and returned nil; then there is exactly the image, under the tag or as built, and one stopped container; on failure after the image exists, with the undoing requests answered, the container is left if and only if its creation took effect unanswered, and the image if and only if that is so or an older container holds it |
| Utf8.RunesAreEncodings | pkg/docker/proxy/rune_copy.go:9-10 | the syntax of section 4 of RFC 3629 describes exactly the encodings of section 3 |
| Utf8.ValueIsScalar | pkg/docker/proxy/rune_copy.go:9-10 | a well-formed sequence is the encoding of its own value |
| Utf8.EncodeIsRune | pkg/docker/proxy/rune_copy.go:9-10 | decoding undoes encoding for every scalar value |
| Utf8.DecodeFixes | pkg/docker/proxy/rune_copy.go:9-10 | the reference decoding returns its input unchanged if and only if that is well-formed |
| Utf8.DecodeIsWellFormed | pkg/docker/proxy/rune_copy.go:9-10 | it always gives well-formed text |
| ScanRunes.FullRuneIff | pkg/docker/proxy/rune_copy.go:37-48 | the library's test for "wait for more" is exact: it waits just for proper beginnings of well-formed sequences |
| ScanRunes.ScanRunesSteps | pkg/docker/proxy/rune_copy.go:37-37 | a call of `bufio.ScanRunes` is one step of the reference decoding, or waits |
| ScanRunes.SplitRepeatedly | pkg/docker/proxy/rune_copy.go:31-52 | the loop computes repeated scanning until nothing is taken, for any scan function |
| ScanRunes.ScanRunesGreedy | pkg/docker/proxy/rune_copy.go:31-52 | the split function is repeated `bufio.ScanRunes` |
| ScanRunes.GreedyAtEnd | pkg/docker/proxy/rune_copy.go:36-51 | at the end of the input it takes everything and gives its decoding |
| ScanRunes.GreedyStreams | pkg/docker/proxy/rune_copy.go:36-51 | before, it leaves at most three bytes, an open sequence, and its token is the beginning of the decoding of every continuation |
| ScanRunes.TokensAreWellFormed | pkg/docker/proxy/rune_copy.go:36-51 | each token is well-formed, and it is empty exactly if nothing is taken |
| ScanRunes.HeldBackPiecewise | pkg/docker/proxy/rune_copy.go:36-51 | what is held back depends on the bytes, not on how they arrived |
| RuneCopy.ChunkingIndependence | pkg/docker/proxy/rune_copy.go:30-52 | for every stream and every way to cut it, the tokens together are the decoding of the whole, and each is well-formed |
| RuneCopy.StallsIff | pkg/docker/proxy/rune_copy.go:13-16 | the scanner gives a reader up early if and only if more than a hundred pieces in a row are empty |
| RuneCopy.ComingIsPrefix | pkg/docker/proxy/rune_copy.go:13-16 | it sees the beginning of the data, and all of it otherwise |
| RuneCopy.Scanner.Refill | pkg/docker/proxy/rune_copy.go:13-16 | it reads until something arrives, the stream stops, or a hundred and one reads gave nothing, the last exactly if so many are empty; what is held back always fits the buffer |
| RuneCopy.Scanner.Scan | pkg/docker/proxy/rune_copy.go:16-16 | each token makes progress, no byte is lost or duplicated, without a token nothing is left over, and there is a last token after a stop if and only if data came with it or a sequence was open |
| RuneCopy.CopyTokens | pkg/docker/proxy/rune_copy.go:16-27 | the copy loop ends; what it writes is a beginning of the text, all of it if it reports no error, and all but exactly the last token if it reports a read error; `written` is the length of the output |
| RuneCopy.RuneCopy | pkg/docker/proxy/rune_copy.go:11-28 | for any reader and writer: nil is reported if and only if the text of all that the scanner gets to see is written and nothing was left to decode when an error or a stall came; a failing writer has been filled; with a read error the output is incomplete and is what was settled before the last read, after a stall or an error without data exactly all but the open sequence |
| RuneCopy.UnnoticedError | pkg/docker/proxy/rune_copy.go:16-27 | a reader whose error is lost: one letter, then an error without data |
| Actions.StepGood | app/specbuild/actions.go:71-79 | every step leaves what comes after the current item of an ordered list untouched, and the error a parallel list keeps is one handed in |
| Actions.ReturnedIsStuck | app/specbuild/actions.go:59-79 | what has returned takes no further step |
| ActionRuns.TraceIsState | app/specbuild/actions.go:59-79 | the state of each leaf is what its own events say |
| ActionRuns.OrderIsKept | app/specbuild/actions.go:71-79 | in every run, before anything happens at an item, everything an ordered list puts before it has started, finished, and returned nil, once each; so nothing after the first failing item starts |
| ActionRuns.EarlierIsComplete | app/specbuild/actions.go:231-233 | the same, at any later moment |
| ActionRuns.ReturnIsFinal | app/specbuild/actions.go:211-229 | on any return, error included, no leaf call is in flight and nothing happens any more; nil is returned if and only if every leaf ran exactly once and returned nil |
| ActionRuns.ErrorProvenance | app/specbuild/actions.go:218-228 | unless the caller's context was cancelled, the error of any nested tree is one that a leaf returned other than for cancellation, or that of an unknown action |
| ActionCauses.ErrorCause | app/specbuild/actions.go:59-79 | whatever its value, the error of any nested tree was returned at a moment when no parallel list above its leaf had failed, so that the leaf's context was cancelled if and only if the caller had done it |
| ActionCauses.RunSourced | app/specbuild/actions.go:218-228 | the same for the error kept by every parallel list within the tree, with respect to the lists from there on down |
| ActionRuns.ErrorHasOrigin | app/specbuild/actions.go:59-79 | in any case it is the error of one leaf or unknown action of the tree |
| ActionRuns.RunsEnd | app/specbuild/actions.go:211-229 | a run has exactly as many events as the tree has lost weight, and it can go on exactly as long as the tree has not returned |
| ActionSteps.StartIff | app/specbuild/actions.go:71-79 | a leaf can start if and only if it has not and the ordered lists above it have completed all that is ahead of it; in a parallel list nobody waits for a sibling |
| ActionSteps.RejectIff | app/specbuild/actions.go:63-67 | an action of an unknown name is rejected exactly when a leaf in its place could start |
| ActionSteps.FinishIff | app/specbuild/actions.go:218-228 | a running leaf can return anything, but the error of cancellation if and only if the caller or a failed parallel list above it has cancelled its context |
| ActionSteps.HandInIff | app/specbuild/actions.go:220-228 | a goroutine of a parallel list hands its result in exactly once, as soon as it has one |
| ActionSteps.SideBySide | app/specbuild/actions.go:220-226 | two leaves of one parallel list are in flight together: the run |
| SchedRunner.NoOverlap | pkg/sched/sched.go:60-78 | starts and ends of `fn` alternate: runs never overlap |
| SchedRunner.ManualStartsAreAccepted | pkg/sched/sched.go:47-52 | every accepted request is answered by exactly one start, or still owed; manual starts never exceed accepted requests |
| SchedRunner.RunIsServed | pkg/sched/sched.go:47-77 | every call of `Run` before the close, slot full or not, is followed by a manual start of `fn` before the goroutine ends |
| SchedRunner.TickStartsAreAccepted | pkg/sched/sched.go:66-75 | every tick that the channel took is answered by exactly one start on a tick, or still pending |
| SchedRunner.TickIsServed | pkg/sched/sched.go:66-75 | after each tick `fn` is started on a tick, or a tick is still pending or just received |
| SchedRunner.TriggersReach | pkg/sched/sched.go:34-77 | whenever the goroutine waits and `Stop` was not called, a tick gets `fn` started, and so does a call of `Run` |
| SchedRunner.CallsArePossible | pkg/sched/sched.go:34-63 | `Start` and the statements of `Stop` wait for nothing but the end of the goroutine |
| SchedRunner.WorkerGoesOn | pkg/sched/sched.go:60-78 | a started goroutine can go on as long as a tick, a request or the close is there |
| SchedRunner.StartsAfterClose | pkg/sched/sched.go:54-77 | after the close, starts and pending items balance exactly |
| SchedRunner.AtMostThreeStarts | pkg/sched/sched.go:54-77 | at most one tick, one manual request and one received item still start `fn` |
| SchedRunner.ShutdownProgress | pkg/sched/sched.go:54-77 | after the close each step of the goroutine lowers a measure that no other step raises |
| SchedRunner.ShutdownCanGoOn | pkg/sched/sched.go:54-77 | a started goroutine that has not ended can always go on, and then `Stop` can return |
| SchedRunner.ShutdownEnds | pkg/sched/sched.go:54-77 | so every run after the close is short |
| SchedRunner.StoppedForGood | pkg/sched/sched.go:54-63 | once `Stop` has returned, `fn` is not running and never runs again |
| SchedRunner.StopNeedsStart | pkg/sched/sched.go:54-63 | the goroutine exists exactly from `Start` on, and `Stop` returns only if the runner was started |
| Cfb.DecryptUndoesEncrypt | pkg/simplecrypto/simplecrypto.go:46-75 | for every block function, IV and length, a short last segment included |
| Cfb.EncryptUndoesDecrypt | pkg/simplecrypto/simplecrypto.go:46-75 | and the other way round |
| Cfb.CfbIsBijective | pkg/simplecrypto/simplecrypto.go:46-75 | a text decrypts to a payload if and only if it is what that payload encrypts to |
| Cfb.EncryptedByte | pkg/simplecrypto/simplecrypto.go:46-47 | each byte of the ciphertext is the byte of the text under the block function of the sixteen bytes before its segment |
| Cfb.Stream.XORKeyStream | pkg/simplecrypto/simplecrypto.go:46-75 | segment by segment, with one buffer or two, the destination gets CFB of the source |
| SimpleCrypto.SealedByte | pkg/simplecrypto/simplecrypto.go:33-50 | the IV, then each payload byte xor the byte that AES under the key makes of the block of ciphertext before |
| SimpleCrypto.OpenedIff | pkg/simplecrypto/simplecrypto.go:30-60 | a ciphertext opens to a payload if and only if it is that payload sealed under the IV in front |
| SimpleCrypto.Encrypt | pkg/simplecrypto/simplecrypto.go:33-50 | a fresh buffer with the IV and the encrypted payload, byte by byte as SimpleCrypto.SealedByte says, or the error of the key size or the random source, in that order |
| SimpleCrypto.Decrypt | pkg/simplecrypto/simplecrypto.go:61-78 | decrypts in place behind the IV; on an error, of the key size first, the buffer is unchanged |
| SimpleCrypto.EncryptAndHMAC | pkg/simplecrypto/simplecrypto.go:103-110 | the MAC covers the whole ciphertext, IV included |
| SimpleCrypto.CheckAndDecrypt | pkg/simplecrypto/simplecrypto.go:114-120 | it fails with the error of the MAC if and only if the MAC is not that of the ciphertext under the key, then with that of the key size, then with that of the length, and the buffer is unchanged; else it decrypts in place |
| SimpleCrypto.RoundTrip | pkg/simplecrypto/simplecrypto_test.go:19-42 | for every accepted key, IV and payload the round trip gives the payload back, in place, with a ciphertext sixteen bytes longer |

## Left out

- `handleInstance`, the cleanup tasks of the lifecycle machine, `PerformActions` and the runner's goroutine are modelled as steps of a machine, not as methods with the loops of the source: their bodies interleave with others. `Acquire` splits at its receive for the same reason.
- Takeover.InvStep: not for `ExpireAndRemove` and `ExpireAndRemoveAll`, which admit a second holder; TakeoverRuns.RemoveKeepsExclusionIff says when. The same holds for TakeoverRuns.ServedIff, whose exact count needs an unbroken chain; TakeoverProgress.WaitingIsServed covers all runs.
- TakeoverProgress.WaitingIsServed: that holders do release is the callers' doing; the measure counts their moves. A session that never hangs up keeps its name.
- ExpireManager.Manager.Run: only its own ticks; what others do between them is in ManagerClock.Live and the two bounds after it.
- LifecycleSessions.SessionSafety: not after a removal, see LifecycleSessions.RemoveKeepsSafetyIff; and the row only if the session's first database write succeeded: the source logs the error and goes on. Container effects are recorded as issued; whether Docker carried them out is not part of this claim.
- LifecycleRows.CleanedIsRemoved: not with the forced marking after failed removals, which marks rows regardless; LifecycleRows.ForceMarkIff says when.
- LifecycleRows.SweepCostsContainerIff: the leftover cleaner and the clean request select active rows on purpose and are not among the workers of this statement.
- App.App.CleanInstance: a volume or a child image that is removed along is not modelled.
- App.App.SpecClean: which rows belong to the spec is a parameter, and the request that starts the cleaning is left out; a time limit that cuts a cleanup job short is a request that is not answered.
- App.App.SpecCreate: which identifiers Docker picks is a parameter; a container name that is taken already counts as a failed creation.
- SimpleCrypto.CheckAndDecrypt: the comparison of MACs is equality; that it takes constant time is not modelled.
- `createInstance` after `specCreate` and `specLegacyCreate`: a failed insertion leaves a container without a row. Only the row it inserts is modelled.
- `tokenProxyConn` (app/instance.go:166-181): each read or write of a message updates the token first; in the model these are the updates of IdleClock.
- The output loop of the terminal proxy (pkg/docker/proxy/proxy.go:193-204) uses the same scanner and split function as `RuneCopy`; only its destination differs.
- The leaf actions, `gobuildHack`, `image.Build`, `autoPullMark`, `pruneDocker` and the precheck tasks: effects outside of the state modelled here. The guards of the cleanup tasks are arbitrary booleans.
- The error result of `bufio.ScanRunes` and of the split function, which is always nil, and running out of memory.
- Go's memory model: a critical section is one step, a channel operation is one step.
- A call of `Run` after `Stop` has closed the channel, which panics.
- HTTP routing, middleware, TLS, logging, configuration, templates, generated code, embedded assets, and the JavaScript and Python ports of the encryption.
