# Verified models of the key stores and response readers of the Keycloak SDKs

Dafny models of the parts of the repository whose behaviour spans many calls, many callers or many chunks, with proofs of
what they promise. `dafny verify dfyconfig.toml` checks everything.

| file | what it models |
|---|---|
| `Common.dfy` | options, bytes, the clock scale (nanoseconds), jitter, key sets and which key a lookup gives |
| `Spacing.dfy` | how many events a span can meet when they are kept apart |
| `Backoff.dfy` | the failure backoff's arithmetic in Go, Rust, .NET and Node |
| `GoKeyStore.dfy`, `GoKeyStoreRuns.dfy`, `GoKeyStoreResults.dfy`, `GoKeyStoreAnswers.dfy` | the Go JWKS store: its critical sections as a class, its interleavings as runs, what holds of every run, what every caller is told |
| `RustKeyStore.dfy`, `RustKeyStoreResults.dfy`, `RustKeyStoreAnswers.dfy` | the Rust store, whose fetch task owns the gate |
| `NodeKeyStore.dfy`, `NodeKeyStoreResults.dfy`, `NodeKeyStoreAnswers.dfy`, `NodeOutages.dfy` | the Node key source: a window and a failure backoff around `jose`, and what they do while every fetch fails |
| `DotNetBackoff.dfy`, `DotNetOutages.dfy` | the .NET failure backoff, its two nested uses, the exception filter that tells them apart, and what is sent while every fetch fails |
| `KeySetLifetime.dfy` | when .NET's key sets were fetched, and their age |
| `ConfigurationManagers.dfy`, `ConfigurationManagersResults.dfy`, `ConfigurationManagersAnswers.dfy` | the .NET forced-refetch and cold-start managers |
| `CappedBody.dfy` | Go's capped token response under `io.ReadAll`, and the admin lane's error bound over it |
| `StreamReaders.dfy` | Node's and Rust's capped readers and their growing buffers |
| `Bearer.dfy` | the four recognisers of the bearer grammar |
| `PathSegment.dfy` | percent-encoding of a path segment and the id read back from a URL |
| `ErrorCause.dfy` | scrubbing of exception chains in .NET |
| `AdminCreation.dfy` | the Go client's lazily created admin facade |

How the concurrent parts are modelled. A run is a sequence of atomic steps: one critical section, or what happens between two
awaits. A step carries everything that is not the program's choice (the clock reading, the jitter, whether a fetch succeeded
and with which set), so a theorem about all runs covers every schedule, provider and clock. Clock readings do not go back.
In the Go store every reading is taken under the mutex, so that is one order for all of them; in the Rust store it is required
only of what runs under the gate. Installing a fetched set and recording its outcome are two steps in Go, as in the source;
stamping, writing and recording are three in Rust. In Node a step is one uninterrupted turn of the event loop, and everyone
who waited for a request takes a turn before a new call or another response does. The classes hold the fields the sources
update in place; each of their methods is proved against the function on values that the runs are built from.

What the proofs found that the sources' own comments do not say:

- .NET: a configuration can be served at 300 s of age or more when calls overlap. One that writes its configuration back late
  leaves the manager remembering one that its current slot never served, and the next call's restart is skipped
  (`OverlappingCallsCanMissARestart`, with the exact condition in `AWholeCallIsYoungExactlyWhen`). The comment on
  `KeySetLifetime` says it is never served again; that holds of calls that do not overlap (`ReturnedIsYoung`).
- .NET: a quoting exception anywhere in a chain is said to have the chain replaced; the search stops after 16 links
  (`ReplacedExactlyWhen`, `DepthIsTheLimit`).
- .NET and Go: the failure counters are machine integers that wrap, and the exact counts at which the window is still right
  are given (`DotNetWindowIsRightExactlyWhen`, `GoWindowIsRightExactlyWhen`).
- Node: an outage is not always bounded as in the other SDKs. Unless somebody has yet to take a turn after a success, the
  bound on requests, and likewise on cold loads alone, holds of every outage exactly when no usable set is held and nobody is
  importing a key (`OutageIsBoundedExactlyWhen`). It fails in two ways. A forced refetch that fails while a set is still usable
  is not counted, and a cold load can follow it after 10 ms (`AWarmOutageStartsCloser`). And a lookup that found its key
  before the set expired, and finishes importing it after a load has failed, wipes out that failure: the next load can go out
  at the same moment (`AnImporterUndoesTheBackoff`). Each such import does so at most once (`EachImporterUndoesOnce`), and
  between two of them the waits are kept (`OutageBound`).
- .NET: the filter that keeps refusals out of the outer counter is right exactly while what the retriever throws is wrapped at
  most once and no fetch throws a transport exception within its sight (`FilterIsRightExactlyWhen`); wrapped twice, every
  refusal would be counted (`RefusalsLeaveNoTraceExactlyWhen`).
- .NET: the outer backoff also counts a call that throws before any fetch of its own, such as one cancelled while it waits
  (`CountersAreRealFailures`).
- Rust: a miss that passes the window and is then refused by the backoff spends the window on no request
  (`AWindowIsWastedExactlyWhen`, `AWindowCanBeWasted`). With a window of 5 s or more, one failure wastes at most one
  (`AFailureWastesOneWindow`). The Go store never does (`WindowIsSpentOnRequests`).

## Model

| member | source | states |
|---|---|---|
| Spacing.SpanBound | go/jwt.go:246-257 | events kept a gap apart number at most length / gap + 1 in any span: the rate the windows promise |
| KeySets.KeyForIsTheFirstFiled | go/jwt.go:361-371 | a lookup gives exactly the key of the first entry filed under the kid, and none exactly when there is no such entry |
| Backoff.GoDelayIs | go/jwt.go:143-156 | for every int64 counter but the least, the wrapping shift and its guard give 0.2 s doubled per failure, capped at 5 s |
| Backoff.RustDelayIs | rust/src/jwks.rs:106-112 | the saturating counter and clamped shift give the same window for every number of failures |
| Backoff.DotNetDelayIs | dotnet/src/Xzawed.Keycloak.Sdk/FailureBackoff.cs:93-98 | the same for every positive counter value |
| Backoff.NodeDelayIs | node/src/jwt.ts:238-241 | the same, the power overflowing to infinity included |
| Backoff.FormsAgree | dotnet/src/Xzawed.Keycloak.Sdk/FailureBackoff.cs:3-6 | the four SDKs open one window per failure count, and it never shrinks as failures add up |
| Backoff.GoWindowIsRightExactlyWhen | go/jwt.go:93-95 | with the counter wrapping at 2^63, the window is the promised one exactly for the counts given |
| Backoff.DotNetWindowIsRightExactlyWhen | dotnet/src/Xzawed.Keycloak.Sdk/FailureBackoff.cs:74-82 | with the int counter wrapping, the window is the promised one exactly for the counts given |
| Backoff.GoWindowBounds | go/jwt.go:132-161 | the jittered window is at least half the delay, below it, and never over 5 s, whatever the counter |
| Backoff.RustWindowBounds | rust/src/jwks.rs:101-122 | the same bounds with rounding to the nearest nanosecond |
| Backoff.TheFactorIsUsed | go/jwt.go:132-161 | what is drawn is the window times the factor, truncated in Go and rounded to the nearest in Rust |
| Backoff.TheWindowsAre | go/jwt.go:42-56 | the windows in numbers: 0.2, 0.4, 0.8, 1.6, 3.2 and then 5 seconds |
| Backoff.LeastWaitOutage | go/jwt.go:42-56 | the least waits of k failures in a row add up to 3.1 s and 2.5 s for each past the fifth |
| GoKeyStore.JwksState.constructor | go/jwt.go:163-177 | an empty store: nothing cached, no window, no failure, nothing in flight |
| GoKeyStore.JwksState.LookUp | go/jwt.go:361-371 | the key of the first entry filed under the kid in a usable set, none if there is no such entry, and the store is only read |
| GoKeyStore.JwksState.BackoffRemaining | go/jwt.go:120-130 | what is left of the window the last failure opened |
| GoKeyStore.JwksState.StartFetchLocked | go/jwt.go:325-339 | refused without a trace inside the backoff, else a new flight and nothing else changes |
| GoKeyStore.JwksState.FetchFor | go/jwt.go:298-323 | the decision under one lock and the whole new store it leaves |
| GoKeyStore.JwksState.Install | go/jwt.go:412-414 | a fetched set replaces the old one and its age starts |
| GoKeyStore.JwksState.BackoffDelay | go/jwt.go:143-156 | the statements compute the jittered int64 delay |
| GoKeyStore.JwksState.RecordFetch | go/jwt.go:343-359 | one failure more with its window drawn now, or a clean slate; the flight is over either way |
| GoKeyStoreRuns.ReachableInv | go/jwt.go:85-108 | in every reachable state the flight is set exactly while one fetch is unrecorded, the window matches the failure count, and before any forced refetch a failure or an empty-handed fetch means there is no usable set |
| GoKeyStoreResults.FlightsAreAccountedFor | go/jwt.go:335-358 | requests = recorded fetches + the one in flight; a flight closes at most once |
| GoKeyStoreResults.OneAtATime | go/jwt.go:308-312 | a request goes out only when every earlier one has been recorded, also between install and record |
| GoKeyStoreResults.FlightsFinishOnTheirOwn | go/jwt.go:99-108 | from every reachable state a flight's own steps record it, free the store and tell its waiters, with no caller |
| GoKeyStoreResults.WindowIsSpentOnRequests | go/jwt.go:287-291 | the stamp is always the start of the latest forced refetch, and these are a window apart, in every run |
| GoKeyStoreResults.OnlyFetchesCount | go/jwt.go:341-354 | the failure counter is the number of fetches that failed in a row, nothing else |
| GoKeyStoreResults.DecidedExactlyWhen | go/jwt.go:281-297 | told from the run's history: when a miss is served from the cache, joins, is rate-limited, is backed off or starts, each an if and only if; all but a start leave the store as it was |
| GoKeyStoreResults.FirstUnknownKidIsServed | go/jwt.go:255-257 | until a forced refetch has gone out, a kid missing from a usable set starts or joins a fetch |
| GoKeyStoreResults.NoLockOut | go/jwt.go:311-333 | with nothing in flight and 5 s since the last failure, a cold miss starts a fetch, and so does a warm one once the window has passed |
| GoKeyStoreResults.OutageBound | go/jwt.go:42-56 | when every fetch fails from a healthy state on, the N-th request comes at least 3.1 s + 2.5 s (N - 6) after the first, whatever callers, kids, cancellations and jitter |
| GoKeyStoreResults.OutageBoundIsReached | go/jwt.go:132-139 | for every N there is a run that meets the bound exactly |
| GoKeyStoreResults.ColdLoadsAreApart | go/jwt.go:33-37 | with every fetch succeeding, cold loads are at least 300 s apart |
| GoKeyStoreResults.HealthyBudget | go/jwt.go:251-257 | with every fetch succeeding, any span T meets at most T/300 s + 1 cold loads and T/window + 1 forced refetches, however many unknown kids arrive |
| GoKeyStoreResults.StoreHoldsTheLastInstall | go/jwt.go:389-415 | the cached set and its age are always those of the latest fetch that brought one |
| GoKeyStoreResults.KeysAreYoungAndLatest | go/jwt.go:246-250 | a lookup finds a key if and only if the latest set brought has it and is younger than 300 s at that reading |
| GoKeyStoreResults.AnswersAreGiven | go/jwt.go:258-279 | a step ends a caller with a key if and only if it is a lookup of its own that found it |
| GoKeyStoreResults.FoundKeysWereYoungAndLatest | go/jwt.go:246-279 | every key any caller holds in any reachable state came from a lookup of its own, in the set installed last before it, younger than 300 s then |
| GoKeyStoreAnswers.FirstLookIsTold | go/jwt.go:258-261 | the first lookup answers with the key filed first under the kid in the set installed last, while that is young, and else lets its caller go on |
| GoKeyStoreAnswers.DecisionsAreTold | go/jwt.go:281-323 | what each decision tells its caller: look again, wait for the request that is out or goes out, or which refusal it was, each an if and only if on the run's history |
| GoKeyStoreAnswers.WaitersAreTold | go/jwt.go:270-274 | a waiter looks again if and only if its flight brought a set, and is told of a failure if and only if it did not |
| GoKeyStoreAnswers.LastLookIsTold | go/jwt.go:275-279 | the last lookup ends its caller, with the key or as an unknown kid, each an if and only if on the run's history |
| GoKeyStoreAnswers.OwnFetchIsEnough | go/jwt.go:266-279 | a waiter whose flight brought the set installed last, with its kid in it, has the key by its next two steps |
| GoKeyStoreAnswers.GivingUpIsTold | go/jwt.go:262-265 | a caller that gives up is told so and nothing else changes |
| GoKeyStoreAnswers.NobodyIsStuck | go/jwt.go:258-279 | in every reachable state each caller and each flight has its next step |
| GoKeyStoreResults.GivingUpIsInvisible | go/jwt.go:99-118 | let any waiters give up and drop their later steps: the rest of the schedule still runs, with the same requests, store, flights and answers to the others |
| RustKeyStore.Gate.constructor | rust/src/jwks.rs:66-74 | a gate with no stamp and no failure |
| RustKeyStore.Gate.Pass | rust/src/jwks.rs:245-282 | the turn under the gate: its verdict and the stamp it leaves, which comes before the backoff check |
| RustKeyStore.Gate.RecordFailure | rust/src/jwks.rs:86-93 | a saturating count and a window drawn once |
| RustKeyStore.Gate.RecordSuccess | rust/src/jwks.rs:95-99 | the count, the failure and the window are cleared |
| RustKeyStore.RunKeepsInv | rust/src/jwks.rs:284-298 | in every run the gate belongs to exactly the one fetch that has not finished, and the window matches the count |
| RustKeyStoreResults.OneAtATime | rust/src/jwks.rs:241-245 | requests = recorded fetches + the one holding the gate, and the gate is free if and only if every task has finished |
| RustKeyStoreResults.WindowIsTheLatestStamp | rust/src/jwks.rs:257-271 | stamps are a window apart, and each belongs to one forced refetch or to no request |
| RustKeyStoreResults.AWindowIsWastedExactlyWhen | rust/src/jwks.rs:269-282 | a turn stamps the window and sends nothing if and only if it misses on a usable set, past the window, inside the backoff |
| RustKeyStoreResults.AFailureWastesOneWindow | rust/src/jwks.rs:257-282 | with a window of 5 s or more, a run wastes no more windows than it has failed fetches |
| RustKeyStoreResults.FirstUnknownKidIsServed | rust/src/jwks.rs:245-282 | until the window has been stamped, the turn of a kid missing from a usable set starts a fetch |
| RustKeyStoreResults.AWindowCanBeWasted | rust/src/jwks.rs:269-282 | a concrete run in which a caller is rate-limited by a window no request went out in |
| RustKeyStoreResults.OutageBound | rust/src/jwks.rs:273-282 | the same bound as Go's, for every number of failures |
| RustKeyStoreResults.HealthyBudget | rust/src/jwks.rs:231-233 | with no failure, cold loads and stamps keep to their rates in any span, and no stamp is wasted |
| RustKeyStoreResults.NoLockOut | rust/src/jwks.rs:245-282 | 5 s after the last failure a miss starts a fetch if and only if the set is not usable or the window has passed |
| RustKeyStoreResults.KeysAreYoungAndLatest | rust/src/jwks.rs:206-229 | a lookup finds a key if and only if the set written last has it and is younger than 300 s since its fetch stamped it |
| RustKeyStoreResults.OwnFetchAnswers | rust/src/jwks.rs:299-303 | the caller that spawned a fetch gets a key if and only if the set that fetch brought has it |
| RustKeyStoreAnswers.FirstLookIsTold | rust/src/jwks.rs:233-240 | a cache hit answers with the key filed first under the kid in the set written last, while that is young, and a miss goes on |
| RustKeyStoreAnswers.TurnsAreTold | rust/src/jwks.rs:245-282 | what a turn with the gate comes to: the key, a refusal by the window, a refusal by the backoff or a fetch, each an if and only if on the run's history |
| RustKeyStoreAnswers.GateIsTheHistory | rust/src/jwks.rs:86-99 | the counter is the fetches that failed in a row, and the window the one the latest of them drew |
| RustKeyStoreAnswers.FetchersAreTold | rust/src/jwks.rs:299-303 | the caller of a fetch hears of its failure, gets the key or learns that the set lacks the kid, each if and only if |
| RustKeyStoreAnswers.FoundKeysWereGiven | rust/src/jwks.rs:233-303 | every key any caller holds in any reachable state came from a young set written last or from its own fetch |
| RustKeyStoreAnswers.NobodyIsStuck | rust/src/jwks.rs:233-303 | in every reachable state each caller and each fetch has its next step |
| RustKeyStoreResults.DroppingIsInvisible | rust/src/jwks.rs:284-298 | drop any callers that have spawned a fetch: the rest runs on to the same gate, cache and requests |
| NodeKeyStore.RefetchWindow.constructor | node/src/jwt.ts:147-155 | no attempt yet |
| NodeKeyStore.RefetchWindow.Attempt | node/src/jwt.ts:163-170 | refused if and only if a usable set is held and the window is open, stamped if and only if it goes out |
| NodeKeyStore.FailureBackoff.constructor | node/src/jwt.ts:195-200 | nothing counted, no window |
| NodeKeyStore.FailureBackoff.Remaining | node/src/jwt.ts:202 | what is left of the window, zero once it is over |
| NodeKeyStore.FailureBackoff.Succeeded | node/src/jwt.ts:212-216 | a key resets the counter and the window; what was counted last is remembered |
| NodeKeyStore.FailureBackoff.Caught | node/src/jwt.ts:217-244 | reset on a usable set, one more failure for a fetch not counted yet, else nothing |
| NodeKeyStore.RunKeepsInv | node/src/jwt.ts:174-244 | in every run at most one request is out and someone waits for it, waiters of a success find its set, and a running backoff means no usable set and nothing out |
| NodeKeyStoreResults.CachedKidsAreAlwaysServed | node/src/jwt.ts:180-187 | whatever floods, failing refetches and callers a run holds, a lookup has its key at once, with no request, if and only if the set brought last is younger than 300 s and has the kid; the backoff refuses only without such a set |
| NodeKeyStoreResults.AFailureIsCountedOnce | node/src/jwt.ts:228-242 | however many waited for it, a fetch is counted at most once and only if it failed; window refusals and unknown kids never are |
| NodeKeyStoreResults.AFailureIsNotMissed | node/src/jwt.ts:228-242 | once everyone who waited has taken a turn, each fetch that failed with no usable set held has been counted |
| NodeKeyStoreResults.ForcedRefetchesAreApart | node/src/jwt.ts:119-146 | in every run a forced refetch goes out a window after whatever request came before it, failed ones and cold loads included |
| NodeKeyStoreResults.RequestBudget | node/src/jwt.ts:119-146 | any span T meets at most T/window + 1 forced refetches, outage or not, and with no failure at most T/300 s + 1 cold loads |
| NodeKeyStoreResults.MissDecidedExactlyWhen | node/src/jwt.ts:163-170 | a lookup that finds a usable set without its kid joins, sends or is refused, each an if and only if on the run's history, and never counts as a failure |
| NodeKeyStoreResults.NoLockOut | node/src/jwt.ts:204-212 | 5 s after the last counted failure a lookup without a usable set joins a request or makes one |
| NodeKeyStoreResults.OwnFetchAnswers | node/src/jwt.ts:204-216 | a waiter gets a key if and only if the set its own fetch brought has it |
| NodeKeyStoreAnswers.TallyIsTheHistory | node/src/jwt.ts:212-242 | the counter is the failures counted since a key or a usable set last forgot them, and the window the latest of them drew |
| NodeKeyStoreAnswers.EntriesAreTold | node/src/jwt.ts:163-212 | what a lookup comes to: refused by the backoff, a key to import, the request that is out, a refusal by the window or a request of its own, on the run's history |
| NodeKeyStoreAnswers.TurnsAreTold | node/src/jwt.ts:163-243 | what a waiter's turn comes to, from how its request ended |
| NodeKeyStoreAnswers.ImportersAreTold | node/src/jwt.ts:212-216 | an imported key is what its caller gets |
| NodeKeyStoreAnswers.FoundKeysWereGiven | node/src/jwt.ts:204-216 | every key any caller imports or holds was found in the young set brought last or in the one its own fetch brought |
| NodeKeyStoreAnswers.NobodyIsStuck | node/src/jwt.ts:204-244 | whoever is owed a turn can take it, and once all are taken lookups come in and requests end |
| NodeOutages.OutageIsBoundedExactlyWhen | node/src/jwt.ts:93-107 | from every state in which no turn is owed for a success, a request out or not: every outage that begins there is bounded, in all its requests and likewise in its cold loads, if and only if no usable set is held and nobody is importing a key |
| NodeOutages.ColdOutageBound | node/src/jwt.ts:93-107 | from any state with no usable set, nobody importing and nobody waiting for a fetch that brought a set: Go's bound on all requests, for every number of them and of waiters |
| NodeOutages.OutageBound | node/src/jwt.ts:93-107 | from any state at all, while every fetch fails: the cold loads since an import last wiped out a failure are as far apart as Go's requests, and each forced refetch keeps its window from whatever went before |
| NodeOutages.EachImporterUndoesOnce | node/src/jwt.ts:212-216 | with no set to be had, an outage's failures are wiped out at most as often as there were imports under way at its start |
| NodeOutages.TheBackoffHoldsExactlyWhen | node/src/jwt.ts:204-216 | between turns, no schedule sends a request inside a running backoff if and only if no lookup is still importing a key |
| NodeOutages.AnImporterUndoesTheBackoff | node/src/jwt.ts:212-216 | a run in which two loads of one outage go out at the same moment |
| NodeOutages.AWarmOutageStartsCloser | node/src/jwt.ts:221-227 | a run in which a load follows a failed forced refetch after 10 ms |
| DotNetBackoff.FailureBackoff.constructor | dotnet/src/Xzawed.Keycloak.Sdk/FailureBackoff.cs:37-46 | no failure on record |
| DotNetBackoff.FailureBackoff.ThrowIfBackingOff | dotnet/src/Xzawed.Keycloak.Sdk/FailureBackoff.cs:48-62 | refuses if and only if some of the window is left |
| DotNetBackoff.FailureBackoff.RecordFailure | dotnet/src/Xzawed.Keycloak.Sdk/FailureBackoff.cs:74-82 | the wrapped count and the window it opens, in whole ticks |
| DotNetBackoff.FailureBackoff.RecordSuccess | dotnet/src/Xzawed.Keycloak.Sdk/FailureBackoff.cs:64-72 | the count and the failure are cleared, the old window stays unused |
| DotNetBackoff.TickBounds | dotnet/src/Xzawed.Keycloak.Sdk/FailureBackoff.cs:93-98 | the jittered window in ticks is between half the promised one and all of it |
| DotNetBackoff.TheFactorIsUsed | dotnet/src/Xzawed.Keycloak.Sdk/FailureBackoff.cs:74-98 | what is drawn is the window times the factor, to the nearest tick |
| DotNetBackoff.BackoffConfigurationRetriever.Finish | dotnet/src/Xzawed.Keycloak.Sdk/BackoffConfigurationRetriever.cs:61-77 | a fetch that threw or was rejected is counted and thrown on, one that was accepted is stamped and clears the count |
| DotNetBackoff.BackoffConfigurationManager.Finish | dotnet/src/Xzawed.Keycloak.Sdk/BackoffConfigurationManager.cs:49-60 | what arrives clears the count, is let through by the filter, or is counted |
| DotNetBackoff.FilterIsRightExactlyWhen | dotnet/src/Xzawed.Keycloak.Sdk/BackoffConfigurationManager.cs:64-69 | the filter tells a refusal from a failed fetch if and only if at most one exception is wrapped around them and the fetch throws no transport exception as deep as it then sees |
| DotNetBackoff.CountersAreRealFailures | dotnet/src/Xzawed.Keycloak.Sdk/BackoffConfigurationRetriever.cs:56-78 | in every interleaving the retriever's counter is the number of fetches that went out and failed in a row; under the filter's condition the manager's counts failed cold loads plus calls that threw without a fetch |
| DotNetBackoff.NothingGoesOutInTheWindow | dotnet/src/Xzawed.Keycloak.Sdk/BackoffConfigurationRetriever.cs:12-23 | after n failures in a row nothing goes out on either path for half the promised window, and nothing is held back after all of it |
| DotNetBackoff.AsksAreTold | dotnet/src/Xzawed.Keycloak.Sdk/BackoffConfigurationRetriever.cs:53-59 | the retriever lets a fetch out if and only if the latest one to end did not fail, or the very window that failure drew is over |
| DotNetBackoff.AttemptsMatch | dotnet/src/Xzawed.Keycloak.Sdk/BackoffConfigurationManager.cs:45-60 | what reaches the manager, wrapped, is what the attempt's own steps threw or gave, and only a cold load reaches it |
| DotNetBackoff.ColdLoadsAreHeldBack | dotnet/src/Xzawed.Keycloak.Sdk/BackoffConfigurationManager.cs:45-47 | after n failed cold loads in a row a cold load is refused at once for half the promised window and not after all of it; a refetch never is |
| DotNetOutages.OutageBound | dotnet/src/Xzawed.Keycloak.Sdk/BackoffConfigurationRetriever.cs:12-23 | from any state whose window matches its counter, cold or serving keys, with failures on record or fetches out: while every fetch fails and at most m are out at a time, on either path and in every interleaving, k m fetches after the first comes one no sooner than the least waits of k failures in a row |
| DotNetOutages.AnyOutageIsBounded | dotnet/src/Xzawed.Keycloak.Sdk/BackoffConfigurationRetriever.cs:56-78 | that holds after any history of a process, with fetches of all outcomes in it |
| DotNetOutages.FetchesAreGapped | dotnet/src/Xzawed.Keycloak.Sdk/BackoffConfigurationRetriever.cs:56-78 | from any such state each fetch waits, after the m-th before it, for the window of the failures there must have been by then |
| DotNetBackoff.RefusalsLeaveNoTrace | dotnet/src/Xzawed.Keycloak.Sdk/BackoffConfigurationManager.cs:45-70 | with what the retriever throws wrapped at most once: take every refused attempt out of a run and both backoffs end exactly as they did |
| DotNetBackoff.RefusalsLeaveNoTraceExactlyWhen | dotnet/src/Xzawed.Keycloak.Sdk/BackoffConfigurationManager.cs:64-69 | that holds of all runs if and only if it is wrapped at most once |
| KeySetLifetime.Lifetime.Fetched | dotnet/src/Xzawed.Keycloak.Sdk/KeySetLifetime.cs:35-37 | a configuration's age starts when its fetch completes, the others keep theirs |
| KeySetLifetime.Lifetime.IsExpired | dotnet/src/Xzawed.Keycloak.Sdk/KeySetLifetime.cs:39-42 | expired if and only if stamped 300 s ago or more; what was never stamped is stamped now and not expired |
| ConfigurationManagers.ColdStart.constructor | dotnet/src/Xzawed.Keycloak.Sdk/ColdStartConfigurationManager.cs:22-27 | one cold slot |
| ConfigurationManagers.ColdStart.StartOverIfExpired | dotnet/src/Xzawed.Keycloak.Sdk/ColdStartConfigurationManager.cs:37-48 | a new cold slot exactly if the configuration has expired and the current slot served it |
| ConfigurationManagers.ForcedRefetch.constructor | dotnet/src/Xzawed.Keycloak.Sdk/ForcedRefetchConfigurationManager.cs:55-65 | nothing served, decided or running |
| ConfigurationManagers.ForcedRefetch.RequestRefresh | dotnet/src/Xzawed.Keycloak.Sdk/ForcedRefetchConfigurationManager.cs:85-111 | what a request decides and stamps, and whether its caller waits |
| ConfigurationManagers.ForcedRefetch.Finish | dotnet/src/Xzawed.Keycloak.Sdk/ForcedRefetchConfigurationManager.cs:113-130 | what is fetched is published over what it was decided against, a failure publishes nothing, and the slot is freed |
| ConfigurationManagers.WellFormedStep | dotnet/src/Xzawed.Keycloak.Sdk/ForcedRefetchConfigurationManager.cs:46-48 | every step of every interleaving keeps a published refetch newer than what it stands for, and a slot's served configuration the one it holds |
| ConfigurationManagersResults.ReturnedIsYoung | dotnet/src/Xzawed.Keycloak.Sdk/ForcedRefetchConfigurationManager.cs:67-83 | while calls do not overlap, refetches ending at any point, nothing returned is 300 s old at its expiry check, and a refetched configuration is returned only in place of the one the current manager holds |
| ConfigurationManagersResults.AWholeCallIsYoungExactlyWhen | dotnet/src/Xzawed.Keycloak.Sdk/ColdStartConfigurationManager.cs:41-48 | from any state at all, an uninterrupted call returns something young if and only if the restart's guard is not missed |
| ConfigurationManagersAnswers.AWholeCallReturns | dotnet/src/Xzawed.Keycloak.Sdk/ForcedRefetchConfigurationManager.cs:67-83 | from any state a whole call returns the refetch published last if and only if that was decided against the manager's own answer, and else that answer; and which answer that is |
| ConfigurationManagersAnswers.PublishedIsTheHistory | dotnet/src/Xzawed.Keycloak.Sdk/ForcedRefetchConfigurationManager.cs:102-119 | what is published is what was fetched last before the latest publication, over what its refetch was decided against |
| ConfigurationManagersAnswers.ARefetchIsServed | dotnet/src/Xzawed.Keycloak.Sdk/ForcedRefetchConfigurationManager.cs:78-83 | after any history in which the latest refetch was decided against what the manager holds, the next whole call returns what it fetched while that is young |
| ConfigurationManagersAnswers.RequestsDecideExactlyWhen | dotnet/src/Xzawed.Keycloak.Sdk/ForcedRefetchConfigurationManager.cs:85-106 | a request decides a refetch if and only if something was served, none runs and the latest decision is an interval old |
| ConfigurationManagersAnswers.NobodyIsStuck | dotnet/src/Xzawed.Keycloak.Sdk/ForcedRefetchConfigurationManager.cs:67-130 | each call and the refetch have their next step |
| ConfigurationManagersResults.OverlappingCallsCanMissARestart | dotnet/src/Xzawed.Keycloak.Sdk/ForcedRefetchConfigurationManager.cs:74-78 | a run of overlapping calls in which a configuration 300 s old is returned |
| ConfigurationManagersResults.RefetchesAreApart | dotnet/src/Xzawed.Keycloak.Sdk/ForcedRefetchConfigurationManager.cs:19-23 | in every run refetches are decided an interval apart, failed ones included, one at a time and none before something was served |
| CappedBody.Capped.Read | go/tokencap.go:106-123 | the next bytes of the body and no more than the cap of them; the read that reaches the cap already knows what lies past it, and every later one repeats that |
| CappedBody.Capped.LookPast | go/tokencap.go:125-136 | refuses if and only if the body is longer than the cap |
| CappedBody.ReadAllCapped | go/tokencap.go:93-98 | under every chunking and buffer size, read whole through a limit of the cap or more it is the body or the refusal; through a smaller limit it is what an uncapped body would give |
| CappedBody.ReadAllRaw | go/adminbody.go:61-64 | the same read over an uncapped body |
| CappedBody.BoundError | go/adminbody.go:55-74 | for every body and bound: whole within the bound, cut and stripped of its type past it, a failing reader on an error; over a token cap no larger than the bound it refuses and never cuts |
| CappedBody.ReadTokenResponse | go/tokencap.go:15-30 | both consumers give the body if and only if it is complete and at most 1 MiB, set the flag if and only if it is longer, deliver at most the cap and pull at most one byte more |
| StreamReaders.ReadCapped | node/src/token-response-cap.ts:68-105 | under every chunking the whole body or the refusal; never asks past byte cap + 1, never holds a larger buffer, and regrowth copies fewer than two buffers in all |
| StreamReaders.ReadCappedChunks | node/src/token-response-cap.ts:107-130 | the same answer from the default reader, keeping at most cap bytes |
| StreamReaders.ReadCappedVec | rust/src/jwks.rs:47-64 | the same answer in Rust, with a capacity that never passes the cap |
| Bearer.CarriedIsTrimmed | go/tokenprovider.go:131-141 | a token is sent as t if and only if t is what the trim leaves and is in the grammar |
| Bearer.GoSendable | go/tokenprovider.go:127-146 | the regular expression on the trimmed text answers as the grammar does, on every string |
| Bearer.RustSendableIsCorrect | rust/src/token_provider.rs:16-30 | stripping padding from the back answers the same |
| Bearer.DotNetSendable | dotnet/src/Xzawed.Keycloak.Sdk/ITokenProvider.cs:29-45 | scanning from the front answers the same; no token, no answer |
| Bearer.NodeSendable | node/src/token-provider.ts:22-35 | two indices and the regular expression answer the same |
| Bearer.CorrectIsUnique | node/src/token-provider.ts:12-21 | there is one right answer per string, so the four agree |
| Bearer.SendableIsAFixedPoint | go/admin.go:160-172 | what one check lets through every later check sends unchanged |
| Bearer.CharactersAre | go/tokenprovider.go:127-141 | the characters of the grammar and those trimmed, by code point |
| PathSegment.P | rust/src/admin.rs:80-94 | the loop writes the encoding of the whole segment |
| PathSegment.RoundTrip | rust/src/admin.rs:78-94 | decoding gives back every byte string |
| PathSegment.EncodingIsInjective | rust/src/admin.rs:78-94 | two segments never share an encoding |
| PathSegment.EncodedIsOneSegment | rust/src/admin.rs:78-82 | the output is printable ASCII without a slash, a question mark or a number sign |
| PathSegment.BytesAreKeptExactlyWhen | rust/src/admin.rs:78-94 | a byte is written as itself if and only if it is one of the listed printable ones, else as its two upper-case digits |
| PathSegment.CreatedIdRoundTrip | rust/src/admin.rs:100-107 | the last segment of any URL ending in an encoded id is that encoding and decodes to the id |
| ErrorCause.QuotedMessages | dotnet/src/Xzawed.Keycloak.Sdk/ErrorCause.cs:58-68 | the loop collects the messages of the quoting links up to the first clean one and the depth bound |
| ErrorCause.ReplacedExactlyWhen | dotnet/src/Xzawed.Keycloak.Sdk/ErrorCause.cs:28-35 | a chain is replaced if and only if one of its first 16 links quotes and no link before it is clean |
| ErrorCause.DepthIsTheLimit | dotnet/src/Xzawed.Keycloak.Sdk/ErrorCause.cs:15-19 | under 16 wrappers a quoting message survives, under 15 it does not |
| ErrorCause.ScrubIsIdempotent | dotnet/src/Xzawed.Keycloak.Sdk/ErrorCause.cs:20-22 | scrubbing twice changes nothing more |
| ErrorCause.ScrubHidesQuotesExactlyWhen | dotnet/src/Xzawed.Keycloak.Sdk/ErrorCause.cs:70-104 | chains of any length that differ only in what their quoting links say scrub alike if and only if every other message is treated alike |
| ErrorCause.ScrubHidesQuotes | dotnet/src/Xzawed.Keycloak.Sdk/ErrorCause.cs:5-19 | they scrub alike whenever no other message contains a quoted one |
| ErrorCause.WithholdAllHidesMessages | dotnet/src/Xzawed.Keycloak.Sdk/ErrorCause.cs:37-39 | with every message withheld, chains that differ in any messages become one |
| ErrorCause.CopiesLinkByLink | dotnet/src/Xzawed.Keycloak.Sdk/ErrorCause.cs:86-104 | what each copied link carries, that a clean link and all below it are kept, and where the chain is cut |
| ErrorCause.QuotingFamiliesAre | dotnet/src/Xzawed.Keycloak.Sdk/ErrorCause.cs:50-56 | which exceptions quote and which are clean |
| ErrorCause.RepeatsExactlyWhen | dotnet/src/Xzawed.Keycloak.Sdk/ErrorCause.cs:79-83 | a message repeats a quote if and only if it is a nonempty quoted one with something before and after |
| AdminCreation.InvStep | go/client.go:63-85 | every step keeps: one live flight, a slot that is filled once and never changed, and no client made behind a filled slot |
| AdminCreation.OneClientForAll | go/client.go:51-93 | in every interleaving at most one client is created and every caller that gets one gets that one |
| AdminCreation.CallsAreTold | go/client.go:54-60 | a caller has the client at once if and only if one has been stored |
| AdminCreation.WaitersAreTold | go/client.go:86-93 | a waiter has the client if and only if its flight stored or found it, and fails if and only if the creation did |
| AdminCreation.JoinersWait | go/client.go:69-70 | a miss waits for the live flight or for the one it starts |
| AdminCreation.NobodyIsStuck | go/client.go:54-93 | a waiter hears of its flight exactly once that is over, and can give up until then |
| AdminCreation.AFailureIsNotCached | go/client.go:51-53 | a failed creation leaves the slot empty and the next caller starts afresh |

## Left out

- HTTP, TLS, sockets, gzip, redirects and JSON: a fetch is a success with a nonempty set or a failure, a body is bytes with arbitrary chunking.
- Token signatures and claims, which the libraries check once the key is found.
- `validate`, `Validate` and the validators that share one store under another audience: they add no state.
- The wait for a shared flight in Go is one step that sees whether the flight has closed; the random choice of `select` between two ready cases is covered by `WaitEnds` and by `GiveUp`, which needs a flight that has not closed.
- GoKeyStoreResults.OutageBound: for up to 2^63 requests, because the counter is an int64; past it `GoWindowIsRightExactlyWhen` says which windows hold.
- GoKeyStoreResults.FlightsFinishOnTheirOwn: that the scheduler runs these steps, and that the HTTP client's timeout ends every fetch, are assumptions and not part of this model.
- Floating point in the jitter: the product is exact over the reals and then rounded as each language does.
- RustKeyStore.Gate.Pass: one turn with the gate is one step with four clock readings; a caller dropped while it waits for the gate or the cache lock takes no turn.
- Shutdown of the Rust runtime, which drops a running fetch task.
- IdentityModel is modelled as managers that are cold until a load succeeds and then keep serving that configuration; its 12-hour background refresh, its handler and `AsyncLocal` flow are not modelled.
- ConfigurationManagersResults.ReturnedIsYoung: the expiry check, which reads three fields and swaps the slot, is one step. Refetches write only one of those fields, once, so for calls that do not overlap nothing is lost; for overlapping calls only the concrete miss is claimed.
- In the runs of the .NET managers every configuration is stamped by its fetch, as in production; one that is not appears only in `KeySetLifetime`.
- DotNetBackoff.NothingGoesOutInTheWindow: while the counter has not passed 2^31 - 1; `DotNetWindowIsRightExactlyWhen` says what happens then.
- DotNetOutages.OutageBound: while the counter cannot pass 2^31, because it is an int; how many may be out at a time is a parameter, IdentityModel's own locks being no part of the model.
- DotNetBackoff.CountersAreRealFailures: how often IdentityModel wraps an exception (once, by the source's comment), what a fetch throws and what is thrown before one are parameters of the model; a call that threw a transport exception without a fetch is taken for a refusal and not counted.
- `jose` is modelled by what the SDK's comments say of it: concurrent loads share one request and its failure, a set ages from the end of its fetch, a stale set is loaded again first and an unknown kid is looked up once more after a reload. A kid that several keys match is not modelled.
- NodeOutages.OutageBound: a call whose own turn falls between the end of a fetch and the turns of those who waited for it is not modelled; the order of promise callbacks inside one turn of the event loop is the runtime's.
- Clock readings are taken not to go back. Node's `Date.now()` and the `DateTimeOffset.UtcNow` behind .NET's failure backoff and refetch interval are wall clocks, so for the Node results, the .NET outage bound and the spacing of .NET's refetches this is an assumption; what a clock set back does is not modelled.
- NodeOutages.OutageIsBoundedExactlyWhen: an import may take any length of time, also of a key that was imported before. For a cold load right after a set expires to be undone, some import must outlast that load; how long imports take is the runtime's. States in which someone has yet to take a turn after a success are left to `OutageBound`.
- NodeKeyStore.FailureBackoff.Caught: the end of the window is exact, where the source rounds to a double.
- StreamReaders.ReadCappedVec: an allocation is taken to be of exactly the capacity asked for.
- The token provider caches of the four SDKs: a cache in front of one flight or one lock, simpler than the stores modelled here; that a cached token is sent unchanged is `SendableIsAFixedPoint`.
- Bearer.GoSendable: a regular expression is modelled by its language, not by an engine.
- AdminCreation is modelled on values: the fields are a slot and a flight, and what matters is how steps of different callers interleave. `Close`, and what `singleflight` does when its function panics, are not part of it.
- ErrorCause: data an exception carries besides its message, type, position, status and stack text is not copied by the source and not modelled; stack text is opaque.
- Admin calls, authorization URLs, configuration checks and message wording: single-branch facts.
- The Java, Kotlin, Python, Ruby and PHP libraries.
