# Sprintable verification

A Dafny model of the parts of Sprintable whose behaviour spans many steps, with proofs of what they are
for: how an agent receives events exactly once, how CI splits and judges its slow tests, how the image
clean-up keeps what is in use, what a tool call at the MCP server sees of its own key, how scheduler jobs
are reconciled, and how migrations of sibling pull requests fit together.

Verify everything with `dafny verify dfyconfig.toml`.

## Modules

- **Agent event delivery** (`sse_bridge.py`). `LruTtl` is the recency-ordered store with timestamps both
  caches are made of, with theorems over histories of operations. `SeenIds` is the duplicate cache,
  `SseParser` the line parser, `AckCursor` the contiguous-ack cursor, `SseBridge` the bridge that joins
  them, `IdlessEvents` what becomes of frames without an id. `ReplayWindow`, `SseWire` and `SseDelivery` run
  the bridge against a server that drops connections, replays events and sends frames without an id in
  between, as long as replayed events are remembered; `SseServer` derives that from three promises of the
  server (starts never go back, replays fit in the cache, replays come within the TTL), and `SseLimits`
  shows that none of the three can be dropped. The promises follow
  `backend/app/routers/agent_gateway.py:659` (a connection resumes after the larger of the ack cursor and
  `Last-Event-ID`) and `backend/app/routers/agent_gateway.py:1217` (the ack cursor never goes back), so
  starts never go back either; its numbered frames are those of `backend/app/routers/agent_gateway.py:999`,
  the others its heartbeats, closing notices and direct pushes (lines 1021 to 1126).
- **CI shards** (`shard_nondestructive_tests.py`, `shard_destructive_tests.py`). `Lpt` is greedy
  longest-first assignment with its bound, `Shards` carries it to lists of files, `ShardNondestructive` and
  `ShardDestructive` are the two scripts, and `LptTight` shows that the bound is attained. `SlowTestJudge`
  (logs and the runner factor) and `SlowTestVerdict` (check, rerun, confirm, and the audit of all shards)
  are the slow-file guard, `FactorLaws` and `VerdictLaws` what they come to in terms of logs, lists and
  weights alone, `DriftStreaks` the counters kept from run to run.
- **Image clean-up** (`check_ar_cleanup_keeps_in_use.py`): `CleanupPolicy`, and in `DeletionLaws` what its
  rules delete in terms of the versions alone.
- **MCP server** (`server.py`, `api_client.py`, `http_auth.py`): `ScopeCache`, `RequestContext`,
  `PathGuard`, and in `PathRefusals` which paths are refused, by how a segment is written.
- **Reconcilers**: `CloudScheduler` (`apply_cloud_scheduler.py`) and `RevisionHeads`
  (`ci_alembic_sibling_pr_collision_check.py`).
- `Text` and `Sorting` hold splitting, decimal numerals, stable sorting and permutations.

Objects whose methods change fields are classes (`SeenIds.SeenIdsCache`, `SseParser.Parser`,
`AckCursor.AckTracker`, `SseBridge.Bridge`, `ScopeCache.Cache`, `RequestContext.Client`); every method is
proved equal to a step of a state function, and the theorems are about runs of those steps. Loops over
lists and dictionaries are methods with loops; a dictionary is walked in an order the method does not
choose, so each result is proved independent of it. Seconds and weights are reals, counts and sequence
numbers are integers.

## Where the code does less than is said about it

- `server.py` and the client promise that a request's context comes from its own key alone. Saving a
  default project writes the one shared client object (`backend/sprintable_mcp/tools/projects.py:51-57`),
  and that field is read before the key's own context, so afterwards a call of any other key that names
  no project reads that default. `RequestContext.ProjectIsOwnIff` says exactly when a call reads its own
  project; `RequestContext.DefaultReachesOtherKeys` is a run in which one does not.
- The sibling check does not compare a pull request's new revisions with one another, neither their parents
  nor their ids. `RevisionHeads.OwnClashIsAccepted` and `RevisionHeads.RepeatedIdIsAccepted` are accepted pull
  requests that split the history and that join two heads; `RevisionHeads.HeadsPreservedIff` is the exact
  condition, for every pull request that passes.
- Reconciling converges only for retry tables with exactly the five keys, counts as numbers and durations
  as text: `CloudScheduler.Reconcile` states it as an equivalence, and
  `CloudScheduler.TextCountNeverConverges` is a definition with which every run fails.
- An event without an id takes the id in force on its connection. It is then dropped exactly when that id was
  added to the cache at most the TTL before: `SseBridge.IdlessEventIsSwallowed`, and from the lines of a
  connection, for any number of such frames, `IdlessEvents.IdlessBurst`. The id inside its data is looked at
  exactly while no id is in force: `IdlessEvents.FallbackReachableIff`.
- A tool decision does not always rest on a scope the backend returned: a failed manifest read is cached for
  the TTL as "allow everything". `ScopeCache.DecisionUsesLastRead` says exactly when that value is used.
- Exit code 1 of the clean-up check, for an image in use being deleted, cannot occur; `CleanupPolicy.Decide`.

## Model

| member | source | states |
|---|---|---|
| LruTtl.NeverAboveMax | backend/sprintable_mcp/sse_bridge.py:55-64 | After any history of look-ups, sweeps and insertions the store holds at most its maximum. |
| LruTtl.HitIsLastPut | backend/sprintable_mcp/server.py:231-240 | In every history a hit returns the value of the last insertion of that very key, made at most the TTL before. |
| LruTtl.MissIsJustified | backend/sprintable_mcp/server.py:231-246 | In every history with a forward clock a miss means: never inserted, expired, or at least max distinct other keys used since the key was last used. |
| SeenIds.SeenIdsCache.Contains | backend/sprintable_mcp/sse_bridge.py:44-53 | A hit exactly for a live id; the id then becomes the most recent, an expired one is removed, all else stays. |
| SeenIds.SeenIdsCache.Add | backend/sprintable_mcp/sse_bridge.py:55-64 | A known id only becomes the most recent; a new one goes in after the expired ids went out, and the least recent beyond the maximum are dropped. |
| SeenIds.SeenIdsCache.EvictExpired | backend/sprintable_mcp/sse_bridge.py:66-72 | Removes exactly the expired ids and keeps the order of the others. |
| SeenIds.RepeatedDelivery | backend/sprintable_mcp/sse_bridge.py:281-303 | In every run with a forward clock, two deliveries of one id are more than the TTL apart, or at least max distinct other ids were seen since that id was last seen. |
| SeenIds.SkippedWasDelivered | backend/sprintable_mcp/sse_bridge.py:281-303 | A skipped event has an earlier delivery of the same id at most the TTL before: nothing is dropped that was not handed over. |
| SseParser.Parser.FeedLine | backend/sprintable_mcp/sse_bridge.py:110-147 | One line takes the parser to the next state and completes an event exactly as the line automaton says. |
| SseParser.RoundTripIffClean | backend/sprintable_mcp/sse_bridge.py:110-147 | A framed event comes back as itself exactly when no field and no data line ends in a line break; the sticky id before it does not matter. |
| SseParser.RoundTrip | backend/sprintable_mcp/sse_bridge.py:110-147 | Any list of such events, framed and concatenated, is returned unchanged: multi-line data, empty data, leading spaces. |
| SseParser.NoiseChangesNothing | backend/sprintable_mcp/sse_bridge.py:114-145 | A comment or an unknown field inserted anywhere in any line sequence changes no event. |
| SseParser.LineForms | backend/sprintable_mcp/sse_bridge.py:110-145 | Without a blank after the colon the value starts there, of several only the first is dropped, a name alone has an empty value, and a line starting with a colon is a comment. |
| SseParser.FeedIdless | backend/sprintable_mcp/sse_bridge.py:118-129 | A frame without an id line arrives with the id of the frame before it. |
| AckCursor.AckTracker.OnDelivered | backend/sprintable_mcp/sse_bridge.py:260-279 | A receipt takes the cursor, the pending set and the sent acks to the end of the unbroken run after the base. |
| AckCursor.ReceiveIs | backend/sprintable_mcp/sse_bridge.py:260-279 | In terms of the run that starts after the cursor, or at the smallest number pending when there is none: the cursor becomes its end, it is sent if it moved, and exactly the numbers passed are no longer pending. |
| AckCursor.FlushIs | backend/sprintable_mcp/sse_bridge.py:334-346 | The shutdown sends the end of that run when there is one. |
| AckCursor.AckTracker.ShutdownFlush | backend/sprintable_mcp/sse_bridge.py:334-346 | The shutdown sends one more ack exactly when an unbroken run starts right after the cursor. |
| AckCursor.AcksStrictlyIncrease | backend/sprintable_mcp/sse_bridge.py:260-279 | For receipts in any order with repetitions the acks strictly increase and the last one is the cursor. |
| AckCursor.AckCoversReceipts | backend/sprintable_mcp/sse_bridge.py:260-279 | An ack is sent only when every number from the first received up to it was received, so a lost or late ack is harmless. |
| AckCursor.CursorIsDetermined | backend/sprintable_mcp/sse_bridge.py:260-279 | The cursor depends on the first receipt and the set received only, not on order or repetition. |
| AckCursor.FlushFindsNothing | backend/sprintable_mcp/sse_bridge.py:334-346 | In every reachable state the shutdown flush has nothing left to ack. |
| Text.ParseSigned | backend/sprintable_mcp/sse_bridge.py:309-309 | A written number is read with its sign, whatever blanks surround it. |
| Text.NoNumber | backend/sprintable_mcp/sse_bridge.py:308-311 | A text with anything but digits, underscores, signs and blanks is no number. |
| SseBridge.Bridge.HandleEvent | backend/sprintable_mcp/sse_bridge.py:281-319 | One event is skipped as a duplicate, or handed over, remembered and acked, through the real cache and cursor objects. |
| SseBridge.HandleAcks | backend/sprintable_mcp/sse_bridge.py:305-319 | Acks are touched only with V2, for events handed over other than heartbeats: a numeric id other than zero is received; an id that is no number leaves it to a number other than zero in the data; otherwise nothing is. |
| SseBridge.AcksChangeNothingElse | backend/sprintable_mcp/sse_bridge.py:305-319 | Any events leave the same deliveries, cache and reconnect id with V2 and without. |
| SseBridge.Bridge.ConnectOnce | backend/sprintable_mcp/sse_bridge.py:202-215 | The lines of one connection have the effect of handling, in order, every event they complete that is not a heartbeat. |
| SseBridge.IdlessEventIsSwallowed | backend/sprintable_mcp/sse_bridge.py:281-303 | Of two events in a row under one id, the first handed over or itself skipped, the second is swallowed exactly when the cache holds anything and the id was added at most the TTL before. |
| SseBridge.DataIdIsSwallowed | backend/sprintable_mcp/sse_bridge.py:290-303 | Of two events in a row with no id in force and the same id in their data, the second is swallowed exactly when that id was added at most the TTL before. |
| SseBridge.NoIdIsHandedOver | backend/sprintable_mcp/sse_bridge.py:290-303 | An event with no id in force and none in its data is always handed over and leaves the cache alone. |
| IdlessEvents.FramesKeepTheId | backend/sprintable_mcp/sse_bridge.py:118-145 | Any number of frames without an id, in a row, are all read under the id in force before them. |
| IdlessEvents.FallbackReachableIff | backend/sprintable_mcp/sse_bridge.py:284-300 | For the event a line of a connection completes: the id inside its data is looked at exactly when there was no id line yet or the last one was empty; otherwise the last id decides. |
| IdlessEvents.IdlessBurst | backend/sprintable_mcp/sse_bridge.py:110-303 | From the lines of a connection to the agent: after an event with an id, delivered or skipped, exactly those of the following frames without an id are handed over that come more than the TTL after the last addition of that id. |
| IdlessEvents.NoneSurvivesIff | backend/sprintable_mcp/sse_bridge.py:281-303 | None of them is handed over exactly when the cache holds anything and all come within the TTL. |
| ReplayWindow.RememberedIsKnown | backend/sprintable_mcp/sse_bridge.py:44-53 | An id that was added at most the TTL before, and since whose last use fewer than max other ids were used, is recognised. |
| ReplayWindow.GuardedIsRemembered | backend/sprintable_mcp/sse_bridge.py:44-64 | An event of the protected window that comes back within the TTL is such an id, when the window and the other ids fit in the cache. |
| ReplayWindow.UseKeepsGuarded | backend/sprintable_mcp/sse_bridge.py:44-64 | Using an event of the window, hit or miss, keeps every event of the window protected. |
| ReplayWindow.NewKeepsGuarded | backend/sprintable_mcp/sse_bridge.py:55-64 | A new event moves the protected window up by one. |
| ReplayWindow.NewKeepsHealthy | backend/sprintable_mcp/sse_bridge.py:44-64 | A new event is never taken for a duplicate, and afterwards exactly the received events have been added. |
| SseWire.HandedIsARun | backend/sprintable_mcp/sse_bridge.py:202-215 | However a connection is cut, what reaches the handler is an unbroken run of log events from its start with the frames without an id in between, each under the id of the event before it. |
| SseDelivery.Serve | backend/sprintable_mcp/sse_bridge.py:171-334 | One bridge object served by all connections of a run ends in the state the theorems below speak of; without V2 with no ack sent and nothing pending. |
| SseDelivery.NoAcksWithoutV2 | backend/sprintable_mcp/sse_bridge.py:305-319 | Without V2 a run of any connections ends with no ack sent and nothing pending, and otherwise in the state it has with V2. |
| SseDelivery.ConnectionKeeps | backend/sprintable_mcp/sse_bridge.py:321-333 | One connection, from any allowed resume point to any break, keeps deliveries, cursor, reconnect id and cache in step. |
| SseDelivery.ExactlyOnceInOrder | backend/sprintable_mcp/sse_bridge.py:171-334 | Over every run of connections with drops, replays and frames without an id, replayed events being remembered: the numbered deliveries are a contiguous stretch of the log, each event once and in order, and the others are such frames; one ack per event was sent, nothing above the cursor is pending, the reconnect id is that of a received event, and no received event is missing. |
| SseDelivery.ReconnectsAtTheLast | backend/sprintable_mcp/sse_bridge.py:281-290 | The reconnect id is the last event received, when a frame without an id that follows an earlier event finds that event remembered. |
| SseDelivery.OnlyTheLog | backend/sprintable_mcp/sse_bridge.py:171-334 | When only heartbeats come without an id, what the agent was handed is that stretch of the log itself. |
| SseServer.WindowIsEnough | backend/sprintable_mcp/sse_bridge.py:171-334 | A server whose starts never go back, whose replays fit in the cache beside the other ids its frames name, and come within the TTL, has its replayed events remembered: the stretch of the log is delivered once and in order. |
| SseLimits.LateReplayDeliversTwice | backend/sprintable_mcp/sse_bridge.py:44-53 | For every cache, TTL and log: a replay after the TTL, all else as promised, is delivered twice. |
| SseLimits.LongReplayDeliversTwice | backend/sprintable_mcp/sse_bridge.py:55-64 | For every cache, TTL and log: a replay of one event more than the cache holds, all else as promised, has an event delivered twice. |
| SseLimits.RewindDeliversTwice | backend/sprintable_mcp/sse_bridge.py:44-64 | For every cache of two or more, TTL and log: a connection that starts before the last one did, all else as promised, has an event delivered twice. |
| ScopeCache.Cache.Get | backend/sprintable_mcp/server.py:231-240 | Returns the live scope of the key or a miss; a hit makes the key the most recent, an expired entry goes. |
| ScopeCache.Cache.Put | backend/sprintable_mcp/server.py:242-246 | Stores the scope as the most recent entry and drops the least recent ones beyond the maximum. |
| ScopeCache.DecisionUsesLastRead | backend/sprintable_mcp/server.py:252-265 | In every interleaving, a list or call decision for a key uses exactly what the last completed manifest read for that key came to, at most the TTL before; it uses the allow-everything value exactly when that read failed. |
| ScopeCache.DecisionsUseOwnFreshScope | backend/sprintable_mcp/server.py:252-265 | Every decision of every run used a scope the backend returned to a request with that key, or the fail-open value of a failed read for that key, at most the TTL before. |
| ScopeCache.LiveScopeIsServed | backend/sprintable_mcp/server.py:231-246 | A key stored within the TTL with fewer than max distinct other keys used since is a hit on the scope stored last. |
| Lpt.GreedyWithinFourThirds | backend/scripts/shard_nondestructive_tests.py:50-55 | For descending weights and every other assignment to as many shards, each greedy load is at most 4/3 - 1/(3m) of that assignment's largest load. |
| Lpt.GreedySpread | backend/scripts/shard_nondestructive_tests.py:50-55 | Two greedy loads differ by at most the heaviest weight, in whatever order the weights come. |
| LptTight.FourThirdsIsTight | backend/scripts/shard_nondestructive_tests.py:50-55 | For every number of shards m there are descending weights and an assignment within 3m a shard on which greedy reaches 4m-1, exactly 4/3 - 1/(3m) of it: the bound cannot be improved. |
| Lpt.RoomForTheLightest | backend/scripts/shard_nondestructive_tests.py:50-55 | The pigeonhole behind the bound: when no rival shard holds three of the heavy weights, some shard has room for the next one. |
| ShardNondestructive.Partition | backend/scripts/shard_nondestructive_tests.py:46-56 | The loop over running loads yields the specified plan, or refuses a shard count below one. |
| ShardNondestructive.OrderedByTestsThenName | backend/scripts/shard_nondestructive_tests.py:52-52 | Files are placed with most tests first, files with as many tests in the order of their names. |
| ShardNondestructive.PlanIgnoresEnumeration | backend/scripts/shard_nondestructive_tests.py:52-52 | Every enumeration order of the same counts yields identical shards. |
| ShardNondestructive.PlanIsLossless | backend/scripts/shard_nondestructive_tests.py:46-56 | The concatenated shards are a permutation of the collected files. |
| ShardNondestructive.PlanWithinFourThirds | backend/scripts/shard_nondestructive_tests.py:46-56 | Against any split of the same files into as many shards, no shard of the plan exceeds 4/3 - 1/(3m) of that split's bound on test counts. |
| ShardNondestructive.PlanSpread | backend/scripts/shard_nondestructive_tests.py:46-56 | Two shards of the plan differ by at most the tests of the largest file. |
| ShardNondestructive.VerifyPartition | backend/scripts/shard_nondestructive_tests.py:71-85 | No problem is reported exactly when the shards are a permutation of the collected files; the duplicate and the union problem are reported exactly when they hold, with the right missing and extra files. |
| ShardNondestructive.SplitIff | backend/scripts/shard_nondestructive_tests.py:75-82 | No duplicate and the same set of files already make a permutation, which forces the test totals to agree. |
| ShardNondestructive.PlanAndVerify | backend/scripts/shard_nondestructive_tests.py:103-110 | Planning and then checking reports no problem, for any counts and any shard count of at least one. |
| ShardNondestructive.AcceptedPlanRunsEachFileOnce | backend/scripts/shard_nondestructive_tests.py:121-133 | In an accepted plan, wherever it came from, each collected file is in exactly one shard, once. |
| ShardDestructive.Partition | backend/scripts/shard_destructive_tests.py:612-626 | The loop yields the greedy split of the files ordered by weight, with the totals of its shards, or refuses a shard count below one. |
| ShardDestructive.RegisteredWeight | backend/scripts/shard_destructive_tests.py:619-620 | A registered file weighs the seconds of its entry. |
| ShardDestructive.UnregisteredWeight | backend/scripts/shard_destructive_tests.py:269-272 | Any other file weighs the mean of the entries, and one second when there are none. |
| ShardDestructive.OrderedPlaces | backend/scripts/shard_destructive_tests.py:620-620 | Each file is placed after the heavier ones and the equally heavy ones given before it. |
| ShardDestructive.PartitionIsLossless | backend/scripts/shard_destructive_tests.py:612-626 | Every file, repeated ones included, is in exactly one shard as often as it was given. |
| ShardDestructive.PartitionWithinFourThirds | backend/scripts/shard_destructive_tests.py:612-626 | The 4/3 - 1/(3m) bound for measured seconds, files without a weight counted at the average. |
| ShardDestructive.PartitionSpread | backend/scripts/shard_destructive_tests.py:612-626 | Two shards differ by at most the heaviest file, files without a weight counted at the average. |
| SlowTestJudge.ReadElapsedStrict | backend/scripts/shard_destructive_tests.py:643-672 | No problem is reported exactly when the log exists, all records are finite and non-negative, there is one, and every expected file has one. |
| SlowTestJudge.RecordedIsLastGood | backend/scripts/shard_destructive_tests.py:653-667 | A file is recorded exactly when it has a usable line, with the reading of its last usable line. |
| SlowTestJudge.RunnerSpeedFactor | backend/scripts/shard_destructive_tests.py:404-426 | The factor computed from the controls, whatever order the dictionary has. |
| SlowTestJudge.FactorIsUnique | backend/scripts/shard_destructive_tests.py:404-426 | The control ratios determine the factor: every ranking of them gives the same one. |
| SlowTestJudge.FactorFollowsTheMajority | backend/scripts/shard_destructive_tests.py:399-426 | The factor is in [1, 1.5]; more than half of the ratios at or below r keep it at or below max(1, r); more than half above r lift it above r, below the cap. |
| SlowTestJudge.FactorIgnoresTheJudged | backend/scripts/shard_destructive_tests.py:420-423 | Excluded, provisional and unregistered files cannot move the factor. |
| FactorLaws.FactorFollowsTheControls | backend/scripts/shard_destructive_tests.py:404-426 | In terms of measurements and weights: the factor lies between 1 and 1.5, is 1 with fewer than three controls, at most max(1, r) when more than half of them took at most r times their weight, and above r, up to 1.5, when fewer than half did. |
| FactorLaws.FactorOfOdd | backend/scripts/shard_destructive_tests.py:404-426 | With an odd number of controls it is the quotient of the one in the middle, kept between 1 and 1.5. |
| FactorLaws.FactorOfEven | backend/scripts/shard_destructive_tests.py:404-426 | With an even number of at least four it is the mean of the two middle quotients, kept between 1 and 1.5. |
| FactorLaws.SlowerRunnerSameVerdict | backend/scripts/shard_destructive_tests.py:404-547 | A run in which every file takes k times as long has k times the factor while both lie within the bounds, and then exactly the same files are over their lines. |
| SlowTestVerdict.LineBounds | backend/scripts/shard_destructive_tests.py:385-401 | Beyond max(3.75 w, 90 s) a file is over its line at every possible factor; up to max(2.5 w, 60 s) it never is. |
| SlowTestVerdict.SlowFilesAbsolute | backend/scripts/shard_destructive_tests.py:512-547 | The red list is the sorted set of registered, non-provisional candidates over their line, the warning list those only absorbed by the factor or outside the diff. |
| SlowTestVerdict.ConfirmedSlowFiles | backend/scripts/shard_destructive_tests.py:558-574 | Confirmed are exactly the suspects without a rerun record or again over the first run's line, cleared are the others; an unregistered suspect is an error. |
| SlowTestVerdict.CheckElapsed | backend/scripts/shard_destructive_tests.py:1138-1242 | Exit code, suspects and noted files of the first judgement in terms of the set over its line, for every case. |
| SlowTestVerdict.ConfirmElapsed | backend/scripts/shard_destructive_tests.py:1084-1135 | Exit code and noted files of the confirmation; untrusted logs, no suspects and unregistered suspects are red. |
| SlowTestVerdict.GuardShard | backend/scripts/shard_destructive_tests.py:1084-1242 | Check, rerun and confirm end green exactly under the stated condition, and then the noted files are exactly those the audit needs. |
| SlowTestVerdict.GreenMeansWithinLine | backend/scripts/shard_destructive_tests.py:1084-1242 | A green shard has a finite, non-negative record for every expected file, and every directly changed, registered, non-provisional one was within its line in the first run or in the rerun at the first factor; an import-only one was, or is noted. |
| SlowTestVerdict.SlowIsNeverLost | backend/scripts/shard_destructive_tests.py:1084-1242 | A candidate beyond max(3.75 w, 90 s) in every run makes its shard red or is noted, whatever the controls did. |
| VerdictLaws.SlowIsRedUnlessImported | backend/scripts/shard_destructive_tests.py:1106-1131 | An expected, judged file beyond max(3.75 w, 90 s) in every run makes its shard red when a list is missing or it is in the list of directly changed tests. |
| VerdictLaws.NotedIsImported | backend/scripts/shard_destructive_tests.py:1113-1117 | A file a green shard hands to the audit is changed, registered, not provisional, outside the list of directly changed tests, and over max(2.5 w, 60 s) in the first run. |
| VerdictLaws.SlowImportedIsNoted | backend/scripts/shard_destructive_tests.py:1112-1117 | A file outside that list that is slow in every run leaves a green shard only by being handed to the audit. |
| VerdictLaws.ImportedAloneIsGreen | backend/scripts/shard_destructive_tests.py:1207-1231 | With both lists given, files outside that list never make a shard red by being slow, however many there are, after a trusted first run and rerun. |
| VerdictLaws.RerunClears | backend/scripts/shard_destructive_tests.py:558-574 | Up to five slow files that come back within their own absolute lines in a trusted rerun leave the shard green with nothing handed on. |
| VerdictLaws.ManySlowAreRed | backend/scripts/shard_destructive_tests.py:1211-1242 | With more than five slow files, one of them directly changed, the shard is red whatever a rerun would say. |
| VerdictLaws.GreenIsTrusted | backend/scripts/shard_destructive_tests.py:1155-1166 | A green shard has a trusted first run and a list of files; without a passing and trusted rerun no directly changed test is beyond max(3.75 w, 90 s). |
| VerdictLaws.LineIs | backend/scripts/shard_destructive_tests.py:385-391 | A measurement is within the line exactly when it is at most 2.5 times the weight, or a minute, times the factor. |
| VerdictLaws.TrustworthyIff | backend/scripts/shard_destructive_tests.py:643-672 | A log can be judged exactly when it has entries, each is a finite number not below zero, and every expected file has one. |
| VerdictLaws.AuditIsRedFromTwoOn | backend/scripts/shard_destructive_tests.py:589-595 | The audit turns red exactly when two different shards report files. |
| SlowTestVerdict.QuickRunIsGreen | backend/scripts/shard_destructive_tests.py:1138-1242 | A trusted run with every candidate within max(2.5 w, 60 s) is green without a rerun and notes nothing. |
| SlowTestVerdict.ImportExpandedCrossShardRed | backend/scripts/shard_destructive_tests.py:589-595 | The sorted shards with noted files when there are at least two, else none. |
| SlowTestVerdict.SlowInTwoShardsIsRed | backend/scripts/shard_destructive_tests.py:576-595 | Files persistently slow in two different shards make a shard red or the audit red. |
| DriftStreaks.AuditDurations | backend/scripts/shard_destructive_tests.py:848-877 | From state file to state file: the stored counters after one audit, and the sorted warnings of both families; a retry changes nothing and warns about nothing. |
| DriftStreaks.UnderregisteredIff | backend/scripts/shard_destructive_tests.py:690-710 | A file counts as registered too low exactly when it has a positive weight and was measured at twice that or more. |
| DriftStreaks.MarginCollapsedIff | backend/scripts/shard_destructive_tests.py:964-973 | The margin of a file is gone exactly when it is registered, not provisional, and twice its measurement exceeds both 2.5 times its weight and a minute. |
| DriftStreaks.WarnAndReset | backend/scripts/shard_destructive_tests.py:856-876 | Warns about exactly the counters at three or more, in name order, and sets exactly those to zero. |
| DriftStreaks.Save | backend/scripts/shard_destructive_tests.py:1006-1037 | Loading what was saved gives the state back, with and without margin counters. |
| DriftStreaks.StoredStreaks | backend/scripts/shard_destructive_tests.py:948-978 | After any history without immediate retries a stored counter is the number of over-runs in a row modulo three, and absent exactly when that number is zero. |
| DriftStreaks.RetriesAreIdempotent | backend/scripts/shard_destructive_tests.py:848-852 | Any history leaves the state of the history without its immediate retries. |
| DriftStreaks.RetryLeavesNoTrace | backend/scripts/shard_destructive_tests.py:848-852 | A retry inserted right after its run changes the state after no continuation. |
| DriftStreaks.WarnsOnEveryThird | backend/scripts/shard_destructive_tests.py:848-877 | After any history an audit warns about a file exactly when its over-runs in a row, retries left out, are a positive multiple of three; both counter families. |
| CleanupPolicy.ResolveInUse | infra/check_ar_cleanup_keeps_in_use.py:422-454 | Found are exactly the keys of the versions some reference denotes; missing exactly the references that ask for a version and denote none. |
| CleanupPolicy.BuildPolicy | infra/check_ar_cleanup_keeps_in_use.py:466-472 | The base rules in their order without any keep-in-use rule, preceded, when something is in use, by one Keep rule over exactly the truncated digests. |
| CleanupPolicy.Simulate | infra/check_ar_cleanup_keeps_in_use.py:529-537 | The union over repositories of what some Delete rule takes there and no Keep rule does. |
| CleanupPolicy.SimulateRepo | infra/check_ar_cleanup_keeps_in_use.py:540-557 | One repository: taken by a Delete rule and by no Keep rule, counts of recent versions taken per package. |
| DeletionLaws.OlderThanDeletes | infra/check_ar_cleanup_keeps_in_use.py:522-523 | A single rule "older than d" deletes exactly the versions created more than d before now. |
| DeletionLaws.NewerThanDeletes | infra/check_ar_cleanup_keeps_in_use.py:524-525 | A single rule "newer than d" deletes exactly the versions created less than d before now. |
| DeletionLaws.TagStatesDelete | infra/check_ar_cleanup_keeps_in_use.py:508-512 | The any-tag rule deletes everything; the tagged and the untagged rule split that by whether a version has tags. |
| DeletionLaws.PrefixesDelete | infra/check_ar_cleanup_keeps_in_use.py:513-521 | Prefix rules delete exactly the versions of which some tag, the digest, or the package begins with one of the prefixes. |
| DeletionLaws.PartsConjoin | infra/check_ar_cleanup_keeps_in_use.py:507-526 | A condition of several parts deletes a version exactly when each part would on its own. |
| DeletionLaws.KeepUndoesDelete | infra/check_ar_cleanup_keeps_in_use.py:540-559 | A Keep rule takes out exactly what the same condition would delete. |
| DeletionLaws.TimeOnlyDeletesMore | infra/check_ar_cleanup_keeps_in_use.py:522-525 | A delete-only policy without newer-than and most-recent rules only deletes more as time passes. |
| DeletionLaws.PackagesAreJudgedApart | infra/check_ar_cleanup_keeps_in_use.py:529-537 | Lists that share no package of a repository are deleted from independently, for every policy. |
| DeletionLaws.MostRecentKeepsTheNewest | infra/check_ar_cleanup_keeps_in_use.py:547-553 | Next to a rule that deletes all, a most-recent rule keeps a version of a package exactly when fewer than its count come before it: newer ones, and equally old ones listed earlier; a negative count leaves that many out. |
| DeletionLaws.PromisedMeans | infra/check_ar_cleanup_keeps_in_use.py:724-774 | What the check asks for before it ends with zero, in terms of its inputs. |
| DeletionLaws.RepeatedIff | infra/check_ar_cleanup_keeps_in_use.py:645-658 | An image counts as listed twice when two entries of one named repository agree in package and digest. |
| DeletionLaws.PrefixIsCutAt64 | infra/check_ar_cleanup_keeps_in_use.py:457-463 | A prefix is the digest, or its first 64 characters. |
| DeletionLaws.OthersStayInOrder | infra/check_ar_cleanup_keeps_in_use.py:469-469 | Base rules called keep-in-use are dropped, all others stay in their order. |
| DeletionLaws.ReferenceStandsFor | infra/check_ar_cleanup_keeps_in_use.py:422-453 | What a bare digest, a digest with a package, and a tag stand for. |
| CleanupPolicy.MostRecentTakesTheNewest | infra/check_ar_cleanup_keeps_in_use.py:546-553 | A most-recent rule takes its count of a package, or all of it, and never leaves out a strictly newer version than one it takes. |
| CleanupPolicy.GeneratedDeletes | infra/check_ar_cleanup_keeps_in_use.py:466-557 | On every version list and at every time the generated policy deletes exactly the base deletions whose digest does not start like one in use. |
| CleanupPolicy.InUseIsKept | infra/check_ar_cleanup_keeps_in_use.py:422-557 | A version denoted by a resolved reference is deleted in no repository, on no later list and at no time. |
| CleanupPolicy.ExactIff | infra/check_ar_cleanup_keeps_in_use.py:457-483 | The deletions are the base deletions minus the keys in use exactly when no base deletion outside them shares a truncated digest. |
| CleanupPolicy.OrderDoesNotMatter | infra/check_ar_cleanup_keeps_in_use.py:540-557 | Policies with the same rules in any order or repetition delete the same. |
| CleanupPolicy.MoreInUseDeletesLess | infra/check_ar_cleanup_keeps_in_use.py:466-557 | Enlarging the set in use can only shrink what the generated policy deletes. |
| CleanupPolicy.PrefixAmbiguities | infra/check_ar_cleanup_keeps_in_use.py:475-483 | Nothing is reported exactly when no version outside the set in use starts like one inside it. |
| CleanupPolicy.DuplicateImages | infra/check_ar_cleanup_keeps_in_use.py:645-657 | Nothing is reported exactly when no named repository lists an image twice. |
| CleanupPolicy.Decide | infra/check_ar_cleanup_keeps_in_use.py:715-783 | Exit 0 exactly when lists and base are usable, every reference resolves, nothing else was reported and no prefix is ambiguous; the emitted policy then deletes exactly the base deletions minus the images in use. Exit 2 exactly for unusable lists or base, exit 1 never, and no policy unless zero. |
| RequestContext.Client.OpenRequest | backend/sprintable_mcp/http_auth.py:101-114 | Sets key and project variables of this request only; a cached key needs no backend call; no key, no change. |
| RequestContext.Client.ContextAnswered | backend/sprintable_mcp/api_client.py:287-300 | Caches the answer under the request's key and touches no field of the client; a failure is not fatal. |
| RequestContext.Client.CallTool | backend/sprintable_mcp/server.py:343-352 | The project variable becomes the call's own argument, absent included. |
| RequestContext.Client.DefaultSaved | backend/sprintable_mcp/tools/projects.py:51-57 | A confirmed default goes into the shared project field and into the caller's cached context, if it has one. |
| RequestContext.Client.ToolReturned | backend/sprintable_mcp/server.py:353-355 | The project variable is what it was before the call. |
| RequestContext.Client.CloseRequest | backend/sprintable_mcp/http_auth.py:119-121 | Both variables are what they were before the request. |
| RequestContext.Client.MemberId | backend/sprintable_mcp/api_client.py:311-314 | In every reachable state: the member the backend named in an answer to this request's own key, or empty when its context was not resolved. |
| RequestContext.Client.OrgId | backend/sprintable_mcp/api_client.py:316-318 | In every reachable state: the organisation the backend named in an answer to this request's own key, or empty when its context was not resolved. |
| RequestContext.Client.ProjectId | backend/sprintable_mcp/api_client.py:320-328 | In every reachable state: the project the call names; without one, what the backend said to this request's own key exactly when the shared field is empty or agrees, that field being the default saved last by any key. |
| RequestContext.EveryRunIsSound | backend/sprintable_mcp/api_client.py:273-328 | In every interleaving: member and organisation fields stay empty, every cached context was said by the backend to its own key, every request in flight carries its own key, no other context carries any. |
| RequestContext.ReadsOwnIdentity | backend/sprintable_mcp/api_client.py:311-318 | The member and organisation a request reads were said by the backend to its own key in one answer, or are empty when no answer was cached. |
| RequestContext.AnswerIsKept | backend/sprintable_mcp/api_client.py:288-302 | The answer to a request stays cached for its key through any interleaving without a further answer or saved default for that key. |
| RequestContext.CachedIsRead | backend/sprintable_mcp/api_client.py:304-328 | Every request of a cached key reads that member and organisation, and that project when no default was saved and none is named. |
| RequestContext.AsksOnce | backend/sprintable_mcp/api_client.py:286-290 | A request asks the backend exactly when its key is not cached, with its own key and header set. |
| RequestContext.UnansweredReadsNothing | backend/sprintable_mcp/api_client.py:304-328 | Without a cached context a request reads no member and no organisation. |
| RequestContext.SavedDefaultIsRead | backend/sprintable_mcp/tools/projects.py:51-57 | A saved default is what the call itself reads afterwards, and member and organisation stay. |
| RequestContext.ProjectIsOwnIff | backend/sprintable_mcp/api_client.py:320-328 | A call that names a project reads it; any other reads its own key's project exactly when the client's field is empty or agrees, and that field is the default saved last by any key. |
| RequestContext.ProjectIsOwnUntilADefaultIsSaved | backend/sprintable_mcp/api_client.py:273-328 | While no default was saved all fields stay empty and every call without a project reads its own key's project. |
| RequestContext.DefaultReachesOtherKeys | backend/sprintable_mcp/tools/projects.py:51-57 | A run of two requests in which the second key's call reads the project the first one saved. |
| RequestContext.OverridesAreRestored | backend/sprintable_mcp/http_auth.py:106-121 | After any history a context without a request in flight has no override set, and one with a request sends its key. |
| RequestContext.ToolBracket | backend/sprintable_mcp/server.py:343-355 | During a call, whatever other requests do, the project variable is the call's argument; after it, the one before. |
| PathGuard.Guard | backend/sprintable_mcp/api_client.py:348-364 | Accepts exactly the paths whose route starts with a slash, has no empty segment, and, decoded as a whole, has no new segment, no backslash, and is left alone by dot-segment removal. |
| PathRefusals.AcceptedIff | backend/sprintable_mcp/api_client.py:358-364 | A path is accepted exactly when its route starts with a slash and no segment is empty or a way to write ".", ".." or a text with a slash or backslash, in any mix of plain characters and escapes. |
| PathRefusals.ForbiddenIsRefused | backend/sprintable_mcp/api_client.py:361-364 | Any path with such a segment is refused, whatever comes before and after it. |
| PathRefusals.RefusesForbidden | backend/sprintable_mcp/api_client.py:348-364 | The guard itself answers no to every such path. |
| PathRefusals.SpellsOnlyTheDecoded | backend/sprintable_mcp/api_client.py:362-362 | Decoding is the inverse of writing: a text is written in one sense only, over all two-digit escapes of either case; a percent sign that starts no escape stays. |
| PathRefusals.QueryIsNotJudged | backend/sprintable_mcp/api_client.py:357-357 | A query changes nothing, and without one the whole path is judged. |
| PathRefusals.AnswersWithQuery | backend/sprintable_mcp/api_client.py:348-364 | The guard answers the same with and without a query. |
| PathGuard.RemovalResolves | backend/sprintable_mcp/api_client.py:352-356 | What the algorithm of section 5.2.4 of RFC 3986 makes of any path: the segments walked with a stack. |
| PathGuard.RemovalIff | backend/sprintable_mcp/api_client.py:352-356 | The algorithm of section 5.2.4 of RFC 3986 leaves a path alone when it has no dot segment and makes it strictly shorter when it has one. |
| PathGuard.AcceptedPathsAreStable | backend/sprintable_mcp/api_client.py:348-364 | On accepted paths dot-segment removal is the identity on the route and on the decoded route, whose segments are the decoded segments of the route. |
| CloudScheduler.DesiredJobs | infra/apply_cloud_scheduler.py:90-126 | The definitions an environment wants, each with the bearer as its Authorization whatever the manifest says; distinct manifest names give distinct job names; the three errors exactly when they hold. |
| CloudScheduler.DesiredSays | infra/apply_cloud_scheduler.py:106-125 | Each field is what the environment overrides, else what the job says, else the default; header by header and retry value by retry value; the bearer before all. |
| CloudScheduler.DesiredUri | infra/apply_cloud_scheduler.py:121-121 | The address is the base without its trailing slashes, the prefix and the route. |
| CloudScheduler.DiffJob | infra/apply_cloud_scheduler.py:159-176 | No difference is reported exactly when the live job says everything the definition says and has no further header; otherwise exactly the names of the fields that differ. |
| CloudScheduler.AnyChangeShows | infra/apply_cloud_scheduler.py:133-176 | A conforming job no longer conforms when any field the definition speaks of changes, and still does when anything else changes. |
| CloudScheduler.UnlistedRetry | infra/apply_cloud_scheduler.py:144-150 | A retry count the service does not list reads as zero, a duration it does not list as none. |
| CloudScheduler.MakePlan | infra/apply_cloud_scheduler.py:188-208 | Create, update and unchanged partition the definitions into absent, differing and conforming ones; each update removes exactly the live job's further headers. |
| CloudScheduler.CommandSettles | infra/apply_cloud_scheduler.py:211-225 | One command, create or update, makes the job conform exactly when its retry table has the five keys with counts as numbers and durations as text. |
| CloudScheduler.Reconcile | infra/apply_cloud_scheduler.py:345-375 | From any live state: ends well exactly when every non-conforming definition has such a retry table, and then the re-plan is empty and as many commands were sent as definitions did not conform; jobs outside the definitions and conforming jobs keep every field, no job is removed, also on failure, when exactly the commands counted have taken effect; a dry run changes nothing. |
| CloudScheduler.ApplyTwice | infra/apply_cloud_scheduler.py:345-375 | After a run that ended well a second one sends no command and changes nothing. |
| CloudScheduler.TextCountNeverConverges | infra/apply_cloud_scheduler.py:133-176 | A definition whose retry count is text makes every run fail, from any live state and when repeated. |
| RevisionHeads.CheckSiblings | backend/scripts/ci_alembic_sibling_pr_collision_check.py:266-329 | Zero exactly when no file is misnamed and the new revisions share no id and no parent with base and siblings. |
| RevisionHeads.PassesIff | backend/scripts/ci_alembic_sibling_pr_collision_check.py:135-311 | File by file: the digits a name starts with are its revision id, and no other revision has that id or a parent the file names. |
| RevisionHeads.HeadBalance | backend/scripts/ci_alembic_sibling_pr_collision_check.py:294-311 | For every pull request that passes: heads after, plus distinct existing parents of new revisions, plus new ids the base builds on, equal heads before plus distinct new ids. |
| RevisionHeads.HeadsPreservedIff | backend/scripts/ci_alembic_sibling_pr_collision_check.py:294-311 | A pull request that passes leaves the number of heads unchanged exactly when it adds as many distinct ids as it builds on distinct existing parents, new ids the base builds on counted among them; nothing else is asked of it. |
| RevisionHeads.HeadsWithOwnIds | backend/scripts/ci_alembic_sibling_pr_collision_check.py:294-311 | With a complete base, one present parent and an id of its own for every new revision, heads never fall, and stay exactly when new revisions do not share a parent. |
| RevisionHeads.OwnClashIsAccepted | backend/scripts/ci_alembic_sibling_pr_collision_check.py:266-329 | Two new revisions on one parent: the check ends with zero and one head becomes two. |
| RevisionHeads.RepeatedIdIsAccepted | backend/scripts/ci_alembic_sibling_pr_collision_check.py:266-329 | The same new id twice, on two heads: the check ends with zero and two heads become one. |
| RevisionHeads.CleanTogether | backend/scripts/ci_alembic_sibling_pr_collision_check.py:294-311 | Any set of pull requests clean against the base and one another, merged together, leaves the number of heads unchanged. |

## Left out

- Reconnect timing: backoff, jitter and sleeping; a connection is a start, a list of items and a break.
- The handler and `on_event` raising an exception: an id is marked as seen before the handler runs.
- The parser does not reset the event type on a blank line without data; full conformance to section 9.2.6
  of the WHATWG HTML standard is not claimed.
- Sequence number 0, which the bridge never acks and uses for "not anchored", is excluded from receipts.
- JSON decoding of event data is a parameter; `int()` and stripping are those of ASCII text.
- SseDelivery.ExactlyOnceInOrder: asks that the data of a frame without an id, sent before any event of its connection, names no sequence number and no numbered event; any other id it names is counted against the cache window by `SseServer.WindowIsEnough`, all such ids of a run together. That replayed events are remembered is derived there from what the server promises.
- SseParser.RoundTrip: speaks of frames as the gateway writes them, one line per element; splitting a byte stream into lines is foreign code.
- `httpx`, ASGI, asyncio scheduling and the MCP SDK are environment steps; a request and its tool calls run in one asynchronous context.
- Floating point: seconds, weights and ratios are reals, so rounding at a threshold is not modelled.
- The run-relative judge, no longer on the verdict path; the finding of import-dependent tests by regular expression; reading and writing of the list files (names have no surrounding blanks).
- The audit's other outputs (over- and under-registered listing, missing artifacts), which only print or compare sets.
- DriftStreaks.WarnsOnEveryThird: starts from an empty state; counters of three or more in a hand-made state file would fire once earlier.
- Scanning of dumps, command-line handling and file writing in the clean-up check; references and versions are already extracted, durations already parsed.
- The ambiguous and the accessible-project fields of `/auth/me`, the tool-name override, and the stdio mode with its single key.
- A `#` in a request path is an ordinary character, as it is to the guard.
- The keyword tables of `toolset.py`: which tools a scope allows is a lookup; what is proved is which scope is used.
- CloudScheduler.MakePlan: asks for distinct job names, as the service requires; the report of unmanaged jobs is left out because such jobs are proved untouched.
- `gcloud`, `git` and `gh` calls: create and update are map updates, revision lists are inputs; header values with commas are outside the model.
- Cycles among new revisions: head counts do not see them, and the check does not look for them.
