# Hedera JSON-RPC relay: a verified model

This project models the parts of the Hedera JSON-RPC relay in which state, ordering or exact text
matters, and proves what those parts keep over all inputs and all runs.

- **WebSocket subscription engine** (`Tables`, `Services`, `Controllers`, `Machine`, `Agreement`, `Counters`,
  `LimitTight`, `Connections`, `Cursor`, `Coverage`, `OverlappingPolls`, `Notification`, `Delivery`,
  `EndToEnd`, `Evictions`, `Ordering`, `Unsubscribing`). `Tables` holds the tables as values and says what each
  operation makes of them. `Services` and `Controllers` are the classes and handlers, each method proved against those
  functions. `Machine` runs the same functions as a state machine whose steps are the stretches between awaits: open, limit check, registration, counter increment, unsubscribe, close, tick, answer, failure,
  new block, cache eviction. A run is any interleaving of enabled steps.
- **HBAR spending-plan reconciliation** (`SpendingPlans`, `Reconciliation`): the loops over three repositories, and
  what they reach from any state.
- **OpenRPC updater** (`JsonText`, `JsonFormat`, `JsonRoundTrip`, `JsonEol`, `JsonLayout`,
  `JsonIndent`, `GroupPaths`, `RefTrees`, `RefReplacement`): the JSON formatter against a reader written from RFC 8259
  and against its layout rules, the path grouping loop, and `$ref` search, rewriting and replacement.
- **Cache decorator** (`CacheDecorator`), **mirror-node pagination and retries** (`MirrorNode`).
- **Smaller cores**: `FileChunks`, `LogsBloom`, `ErrorMessage`, `ForwardedHeader`.

`Prelude` holds `Option` and `Result`. `dafny verify dfyconfig.toml` checks everything.

## What is assumed of the outside

- The chain only grows, and answers to `eth_blockNumber` do not go backwards (`Machine.Enabled`, `Tick`).
  `eth_getLogs` returns all matching logs of its window; its upper end "latest" is any head between sending and answering.
- SHA-256 and `JSON.stringify` of a (subscription, data) pair are injective, so the dedup cache is a set of such
  pairs; LRU and TTL expiry are an explicit step that drops any entries.
- Subscription ids are fresh, a poll object is identified by a serial number, sends do not throw.
- Block numbers are numbers instead of hexadecimal text, and a tag is its parsed form instead of its JSON text.

## What turned out different from what one would hope

- *Cursor.* A logs answer writes the shared `latestBlock` into the cursor, not the end of its own window.
  `Coverage.HoleBelowCursorIff` says exactly when one answer leaves a hole, `Coverage.SkippedForGoodIff` exactly when a
  hole stays for good, and `OverlappingPolls.OverlapSkipsBlocks` is a run that skips two blocks for good. Polls that
  finish before the next tick never leave a hole (`Coverage.NonOverlappingIsTimely`, `Coverage.NoGapsWithoutOverlap`).
- *Delivery.* Evicting an entry is harmless exactly when its log lies behind all windows of its tag
  (`Evictions.EvictionHarmlessIff`), with or without overlap; without overlap that is below `lastPolled`.
- *Limit.* k overlapping subscribe requests overshoot the limit by up to k - 1, and that bound is attained
  (`LimitTight.LimitIsAttained`).
- *Close.* A close is final exactly when, at that moment, no acceptable subscribe request of the connection is between
  limit check and registration (`Connections.CloseIsFinalIff`); otherwise a closed connection can be subscribed again and
  sent to (`EndToEnd.ClosedConnectionIsSent`).
- *Grouping.* The counter object inherits names such as `constructor`, so paths right under them are never grouped
  (`GroupPaths.AlwaysGroupedIff`, `GroupPaths.ThreeUngrouped`).
- *Formatter.* Keys are written without escaping, so exactly the values without such keys (and without undefined,
  NaN or infinite parts) are read back (`JsonRoundTrip.FormatRoundTrip`).
- *Cache keys.* Arguments with underscores can collide (`CacheDecorator.UnderscoreCollision`); the exact condition for
  transparency is `CacheDecorator.TransparentIff`.
- *Plans.* A plan configured as BASIC is counted as added again by every run (`Reconciliation.SecondRunReportsZeroIff`),
  and the tier of a plan that already exists is never updated from the configuration (`Reconciliation.PlansReconciled`).
- *Fee.* The estimate is an upper bound exactly for chunk sizes up to 5136 and monotone exactly up to 8682
  (`FileChunks.EstimateIsUpperBoundIff`, `FileChunks.EstimateMonotoneIff`).
- *Retries.* The comments above the retry methods promise the last fetched result once the retries are used up;
  the code throws, and the model follows the code.

## Model

| member | source | states |
|---|---|---|
| Services.PollerService.Add | packages/ws-server/src/service/pollerService.ts:142-159 | A tag is appended once, its gauge goes up, the timer runs afterwards; a known tag only makes sure of the timer. |
| Services.PollerService.Remove | packages/ws-server/src/service/pollerService.ts:165-183 | All polls of the tag go, the gauge of its kind falls by their number, the timer stops when none is left. |
| Services.PollerService.Tick | packages/ws-server/src/service/pollerService.ts:116-124 | The block number is stored and one request a poll goes out, from its cursor or, without one, from that block. |
| Services.PollerService.Settled | packages/ws-server/src/service/pollerService.ts:64-90 | The poll that was answered, and no other, gets the block number read last as its cursor. |
| Services.SubscriptionService.Subscribe | packages/ws-server/src/service/subscriptionService.ts:75-109 | With deduplication on and the connection already on the tag nothing changes and the id is one it has there; otherwise a new entry with the fresh id stands last under the tag and the tag is polled. |
| Services.SubscriptionService.Unsubscribe | packages/ws-server/src/service/subscriptionService.ts:111-146 | In whatever order tags are visited, exactly the matching entries go, emptied tags are no longer polled, and the count is the number removed. |
| Unsubscribing.UnsubscribeOne | packages/ws-server/src/service/subscriptionService.ts:121-141 | With an id, exactly the entries of that connection with that id go; every other entry, the connection's own included, stays under its tag in its order. |
| Unsubscribing.UnsubscribeAll | packages/ws-server/src/service/subscriptionService.ts:121-141 | Without an id, or with an empty one, exactly the connection's entries go and all others stay in order. |
| Unsubscribing.CountsOne | packages/ws-server/src/service/subscriptionService.ts:111-146 | The count for one id is the number of entries with that connection and id over all tags, and not zero iff there is one. |
| Unsubscribing.CountsAll | packages/ws-server/src/service/subscriptionService.ts:111-146 | The count for a whole connection is the number of its entries over all tags. |
| Unsubscribing.PollsLeft | packages/ws-server/src/service/pollerService.ts:165-168 | Removing tags takes away exactly their polls and leaves the others as they are and in order. |
| Services.SubscriptionService.NotifySubscribers | packages/ws-server/src/service/subscriptionService.ts:148-179 | Each subscriber of the tag is sent the data unless the cache holds the pair, in list order. |
| Services.SubscriptionService.Received | packages/ws-server/src/service/pollerService.ts:92-106 | A poll result is handed over item by item. |
| Controllers.ConnectionLimiter.IncrementCounters | packages/ws-server/src/metrics/connectionLimiter.ts:75-91 | The address's count goes up from nothing or from what it was; the socket's subscription counter starts at 0. |
| Controllers.ConnectionLimiter.DecrementCounters | packages/ws-server/src/metrics/connectionLimiter.ts:93-102 | A counted socket's address goes down by one and disappears at zero; an uncounted socket changes nothing. |
| Controllers.ConnectionLimiter.ApplyLimits | packages/ws-server/src/metrics/connectionLimiter.ts:104-164 | A socket is told to close exactly when the total or its address's count exceeds its limit. |
| Controllers.HandleEthSubscribe | packages/ws-server/src/controllers/subscribeController.ts:128-169 | When each refusal is given and that it leaves everything as it was; otherwise the subscription exists and the counter rises by one, staying within the limit when nothing interleaves. |
| Controllers.HandleEthUnsubscribe | packages/ws-server/src/controllers/unsubscribeController.ts:19-35 | The counter falls by exactly the entries removed, and the answer is true iff an entry of the connection with that id existed, or any of its entries if no id is given. |
| Controllers.HandleConnectionClose | packages/ws-server/src/utils/utils.ts:28-53 | No entry of the connection is left under any tag, and its address is counted down. |
| Agreement.TablesAlwaysAgree | packages/ws-server/src/service/subscriptionService.ts:75-146 | In every reachable state the tags with subscribers are the polled tags, each polled once, no list is empty, the timer runs iff something is polled, the gauges count the polls of each kind. |
| Counters.LiveAfterUnsubscribe | packages/ws-server/src/service/subscriptionService.ts:111-146 | What unsubscribe counts is exactly what the connection loses; other connections lose nothing. |
| Counters.CounterConservation | packages/ws-server/src/controllers/subscribeController.ts:102-166 | For every open connection in every reachable state: counter plus requests registered but not yet counted equals live subscriptions plus deduplicated re-subscribes, which are 0 with the option off; with it on, a connection is on a tag at most once. |
| Counters.LimitUnderInterleaving | packages/ws-server/src/controllers/jsonRpcController.ts:126-150 | With at most k requests between check and increment, counter and live subscriptions never exceed the limit - 1 + k in any interleaving. |
| LimitTight.LimitIsAttained | packages/ws-server/src/metrics/connectionLimiter.ts:166-176 | For every limit and every k >= 1 there is a run that attains that bound. |
| Connections.PerIpAccounting | packages/ws-server/src/metrics/connectionLimiter.ts:75-160 | In every reachable state an address's count is the number of its open connections, absent iff there are none, and admitted connections never exceed the per-IP limit. |
| Connections.AdmittedIff | packages/ws-server/src/metrics/connectionLimiter.ts:104-164 | In every reachable state a new connection is admitted iff the total is not exceeded and, with it, the open connections from its address are within the limit. |
| Connections.CloseIsFinalIff | packages/ws-server/src/utils/utils.ts:35-39 | As long as no new request of the connection comes in, it stays out of the tables in every continuation of its close iff, at the close, none of its subscribe requests for a supported event is between check and registration; and then nothing more is sent to it. |
| EndToEnd.ClosedConnectionIsSent | packages/ws-server/src/controllers/subscribeController.ts:102-110 | A concrete legal run in which a close overtakes a logs-subscribe: the closed connection is subscribed again and sent a log. |
| Coverage.NoGaps | packages/ws-server/src/service/pollerService.ts:64-79 | In a timely run, polls failing or not, every block between the start of any and the end of any successful window of a poll lies in a successful window. |
| Coverage.NonOverlappingIsTimely | packages/ws-server/src/service/pollerService.ts:116-124 | Runs in which each poll finishes before the next tick are timely. |
| Coverage.NoGapsWithoutOverlap | packages/ws-server/src/service/pollerService.ts:64-124 | The same for every run in which the polls of a tick are answered or fail before the next tick. |
| Coverage.CursorNeverGoesBack | packages/ws-server/src/service/pollerService.ts:68-90 | In every run, overlapping or not, no poll's cursor moves backwards. |
| Coverage.HoleBelowCursorIff | packages/ws-server/src/service/pollerService.ts:68-79 | An answer leaves no hole below the new cursor iff the block read last is at most one past its window, or earlier windows of the poll both join that window and reach the new cursor. |
| Coverage.SkippedForGoodIff | packages/ws-server/src/service/pollerService.ts:64-79 | A block missing below a poll's cursor is in no window of that poll in any continuation iff no request of the poll in flight reaches back to it. |
| OverlappingPolls.OverlapSkipsBlocks | packages/ws-server/src/service/pollerService.ts:68-79 | A concrete legal run with overlapping polls after which two blocks are skipped for good: however it goes on, no window of the poll holds them. |
| Notification.WindowItems | packages/ws-server/src/service/pollerService.ts:67-77 | A window's answer holds each wanted log once and nothing else. |
| Notification.DeliverTimes | packages/ws-server/src/service/subscriptionService.ts:148-179 | How often a pair is sent rises by one iff the subscriber is on the tag, the item is in the answer and the cache does not hold the pair. |
| Ordering.AnswerOrder | packages/ws-server/src/service/pollerService.ts:92-99 | What a logs answer appends to the sends goes out in chain order, and each log to the tag's subscribers in the order of their list. |
| Ordering.AnswerHeads | packages/ws-server/src/service/pollerService.ts:80-106 | A newHeads answer sends its one block once to each subscriber that has not had it, and nothing else. |
| Ordering.DeliveredInOrder | packages/ws-server/src/service/pollerService.ts:64-106 | Over every run without overlap and with safe evictions each subscriber gets its logs strictly in chain order. |
| Delivery.ExactlyOnceDelivery | packages/ws-server/src/service/subscriptionService.ts:148-179 | In every run with safe evictions each log has been sent to a subscription once if a successful window handed to it holds the log, and never otherwise. |
| EndToEnd.NothingMissedNothingTwice | packages/ws-server/src/service/pollerService.ts:64-106 | In a timely run with safe evictions every matching log between two windows handed to a live subscription was sent to it exactly once. |
| Evictions.EvictionHarmlessIff | packages/ws-server/src/service/subscriptionService.ts:148-179 | From every state a run with safe evictions keeps: no continuation with safe evictions ever sends a log twice iff the eviction drops, of what was sent to live subscriptions, only logs behind the windows of their tags. |
| Evictions.EvictionRepeats | packages/ws-server/src/service/subscriptionService.ts:148-179 | For every such log that is not behind, one answer, or a tick and its answer, sends it a second time. |
| Evictions.BehindIsBelowCursor | packages/ws-server/src/service/pollerService.ts:68-79 | With one request a tag in flight, asking from the cursor, behind means below the tag's `lastPolled`, in both directions. |
| Evictions.BelowCursorEvictionsAreSafe | packages/ws-server/src/service/pollerService.ts:116-124 | Runs without overlap keep that, so evicting only below `lastPolled` is safe in them. |
| Evictions.ExactlyOnceWithoutOverlap | packages/ws-server/src/service/subscriptionService.ts:148-179 | Exactly-once delivery in every run in which polls finish before the next tick and evictions drop only what is below `lastPolled`. |
| Evictions.NothingMissedWithoutOverlap | packages/ws-server/src/service/pollerService.ts:64-106 | Under the same two hypotheses every matching log between two windows handed to a live subscription was sent to it exactly once. |
| EndToEnd.UnsafeEvictionDuplicates | packages/ws-server/src/service/subscriptionService.ts:148-179 | An instance from the initial state: evicting an entry of the cursor's own block sends a log twice. |
| SpendingPlans.ConfigService.Populate | packages/relay/src/lib/config/hbarSpendingPlanConfigService.ts:85-102 | An empty configuration changes nothing, the first entry without any address is reported and changes nothing, otherwise the repositories become the reconciled ones and the number of changes is returned. |
| SpendingPlans.ConfigService.DeleteObsoletePlans | packages/relay/src/lib/config/hbarSpendingPlanConfigService.ts:174-188 | Exactly the existing plans that are not configured go, with all links to them; their number is returned. |
| SpendingPlans.ConfigService.AddNewPlans | packages/relay/src/lib/config/hbarSpendingPlanConfigService.ts:198-209 | Exactly the configured plans that do not exist are created; their number is returned. |
| SpendingPlans.ConfigService.UpdatePlanAssociations | packages/relay/src/lib/config/hbarSpendingPlanConfigService.ts:217-230 | After all plans' turns the links are those of associating the plans one after the other. |
| SpendingPlans.ConfigService.DeleteObsoleteAssociations | packages/relay/src/lib/config/hbarSpendingPlanConfigService.ts:304-341 | Addresses listed for the plan but linked to another lose that link, all others keep theirs. |
| SpendingPlans.ConfigService.UpdateAssociations | packages/relay/src/lib/config/hbarSpendingPlanConfigService.ts:238-297 | Afterwards the plan's addresses are exactly its listed ones and no other link has changed. |
| SpendingPlans.AddressRepository.DeleteAllByPlanId | packages/relay/src/lib/db/repositories/hbarLimiter/evmAddressHbarSpendingPlanRepository.ts:66-76 | Exactly the links to the plan go. |
| Reconciliation.ReconciliationTheorem | packages/relay/src/lib/config/hbarSpendingPlanConfigService.ts:85-102 | From any state: the pre-configured ids become the configured ids, every address ends where it should, and the number returned is the size of the symmetric difference. |
| Reconciliation.AddressReconciled | packages/relay/src/lib/config/hbarSpendingPlanConfigService.ts:217-341 | A listed address maps to the last plan listing it; any other keeps its link unless that led to a configured or a deleted plan. |
| Reconciliation.PlansReconciled | packages/relay/src/lib/config/hbarSpendingPlanConfigService.ts:174-209 | The plan repository id by id: deleted, created active with the configured tier, or untouched. |
| Reconciliation.SecondRunChangesNothing | packages/relay/src/lib/config/hbarSpendingPlanConfigService.ts:85-102 | A second run leaves all three repositories as they are, for every tier. |
| Reconciliation.SecondRunReportsZeroIff | packages/relay/src/lib/config/hbarSpendingPlanConfigService.ts:85-102 | It reports 0 iff every plan configured as BASIC already existed as a pre-configured plan. |
| JsonRoundTrip.FormatRoundTrip | scripts/openrpc-json-updater/utils/file.utils.js:46-187 | At every nesting level the formatted text is read back as the value iff the value is clean, across the compact, expanded and empty layouts. |
| JsonRoundTrip.DirtyKey | scripts/openrpc-json-updater/utils/file.utils.js:184-187 | A key written raw and read back as itself needed no escaping. |
| JsonFormat.StringRoundTrip | scripts/openrpc-json-updater/utils/file.utils.js:78-92 | Every string, written with its escapes, is read back whatever follows it. |
| JsonLayout.OneLineIff | scripts/openrpc-json-updater/utils/file.utils.js:99-145 | An array's text has no line break iff it is empty or has at most 8 items that are all numbers, booleans or strings under 40 UTF-16 code units. |
| JsonLayout.ValueBreaks | scripts/openrpc-json-updater/utils/file.utils.js:99-187 | A text has exactly one line break for each item or member of a container that is not on one line, and one more for the container. |
| JsonIndent.FormatIsTidy | scripts/openrpc-json-updater/utils/file.utils.js:99-187 | Each line is indented by two spaces for every bracket then open, one less before a closing one; a comma is followed by one space or a line break, a colon by one space, and there is no other white space outside strings. |
| JsonLayout.ScalarTexts | scripts/openrpc-json-updater/utils/file.utils.js:78-92 | Null and undefined are written null, numbers as their text, strings that need no escape as they are. |
| JsonLayout.EscapedLength | scripts/openrpc-json-updater/utils/file.utils.js:87-89 | Strings are escaped as little as possible: one character more for each short escape, five for each other control character. |
| JsonEol.RewriteValue | scripts/openrpc-json-updater/utils/file.utils.js:205-207 | Rewriting the line endings of a formatted text is formatting with the other line ending: strings carry no raw newline. |
| JsonEol.WrittenReadsBack | scripts/openrpc-json-updater/utils/file.utils.js:198-210 | What is written over an original file reads back as the value, whichever line ending the original had. |
| JsonLayout.EndingsFollowOriginal | scripts/openrpc-json-updater/utils/file.utils.js:205-207 | If the original has "\r\n" anywhere every line break written is one and no other carriage return appears; otherwise the formatted text is written as it is. |
| GroupPaths.CountPrefixes | scripts/openrpc-json-updater/utils/openrpc.utils.js:45-56 | Each prefix's counter is the number of times some path has it as a proper dotted prefix; a name every object inherits gets a text instead. |
| GroupPaths.AnalyzePrefixes | scripts/openrpc-json-updater/utils/openrpc.utils.js:45-68 | Exactly the prefixes with a number that is large enough, each once, most counted first and deepest first among equals. |
| GroupPaths.TakeOut | scripts/openrpc-json-updater/utils/openrpc.utils.js:84-89 | Splicing out the first occurrence of each match, duplicates included, leaves the other paths in order. |
| GroupPaths.GroupHierarchically | scripts/openrpc-json-updater/utils/openrpc.utils.js:74-98 | Groups in order with their true sizes, all large enough and none under an inherited name; leftovers are the paths under no group's prefix, in order; no countable prefix keeps a group's worth. |
| GroupPaths.Summarize | scripts/openrpc-json-updater/utils/openrpc.utils.js:37-102 | The two short cases, and for longer lists the groups and leftovers, with no prefix keeping a group's worth of strict extensions unless it is counted under an inherited name. |
| GroupPaths.GroupingConserves | scripts/openrpc-json-updater/utils/openrpc.utils.js:74-98 | Counted with repetition, every path is in exactly one group or left over, and the printed sizes plus the leftovers add up to the input. |
| GroupPaths.GroupsExact | scripts/openrpc-json-updater/utils/openrpc.utils.js:70-93 | Each group's number is how many paths equal its prefix or continue it behind a dot and belong to no group before it. |
| GroupPaths.LeftAt | scripts/openrpc-json-updater/utils/openrpc.utils.js:75-95 | The leftovers are exactly the paths that belong to no group, in their order. |
| GroupPaths.CountedExact | scripts/openrpc-json-updater/utils/openrpc.utils.js:45-56 | A prefix's count is the number of paths that extend it once their leading dots are gone. |
| GroupPaths.DepthIsDots | scripts/openrpc-json-updater/utils/openrpc.utils.js:41-43 | A prefix is one part deeper than it has dots. |
| GroupPaths.NothingLeftToGroup | scripts/openrpc-json-updater/utils/openrpc.utils.js:45-98 | Fewer than minGroupSize leftovers strictly extend any prefix not counted under an inherited name, paths with leading dots included. |
| GroupPaths.AlwaysGroupedIff | scripts/openrpc-json-updater/utils/openrpc.utils.js:45-98 | For a given prefix that holds of every list, size and grouping iff the prefix it is counted under is not an inherited name. |
| GroupPaths.InheritedNeverGrouped | scripts/openrpc-json-updater/utils/openrpc.utils.js:46-59 | Any number of paths right under an inherited name stay ungrouped. |
| GroupPaths.ConstructorUngrouped | scripts/openrpc-json-updater/utils/openrpc.utils.js:46-59 | Of three paths under `constructor` no grouping is ever made. |
| GroupPaths.ThreeUngrouped | scripts/openrpc-json-updater/utils/openrpc.utils.js:46-59 | The input: three paths under `constructor`, or any other such name, all stay left over. |
| CacheDecorator.GenerateCacheKey | packages/relay/src/lib/decorators/cache.decorator.ts:160-174 | The loop builds method name and rendered arguments joined by underscores, without the request details. |
| CacheDecorator.KeyGrows | packages/relay/src/lib/decorators/cache.decorator.ts:160-174 | One more argument adds an underscore and its text, the request details nothing. |
| CacheDecorator.Decorated.Call | packages/relay/src/lib/decorators/cache.decorator.ts:46-68 | What a call returns or throws and what it stores in the shared cache, for hits, falsy results, exceptions, skipped and throwing rules. |
| CacheDecorator.TransparentIff | packages/relay/src/lib/decorators/cache.decorator.ts:46-68 | Every call of every run of any methods over one shared store with arbitrary expiry ends as without a cache iff no stored call shares its key with a call, of whatever method, that should end differently. |
| CacheDecorator.KeyInjective | packages/relay/src/lib/decorators/cache.decorator.ts:160-174 | Equal keys mean the same method and the same arguments, for underscore-free names and arguments, each method with its own signature and trailing arguments possibly left out. |
| CacheDecorator.CacheTransparency | packages/relay/src/lib/decorators/cache.decorator.ts:46-68 | In every run of such calls of any number of methods over one store, every call returns what its method returns. |
| CacheDecorator.NamedIff | packages/relay/src/lib/decorators/cache.decorator.ts:121-142 | The named rules let a result be cached iff none of them matches and none reads a field of a missing argument, in whatever order they stand. |
| CacheDecorator.StoredIff | packages/relay/src/lib/decorators/cache.decorator.ts:46-142 | A result is stored iff the method returned something truthy and no rule concerns the arguments: no positional one has an argument missing, undefined or a string on its list, no field rule a field holding a string on its list or nothing to read from. |
| CacheDecorator.ThrowsIff | packages/relay/src/lib/decorators/cache.decorator.ts:57-142 | A truthy result turns into an exception iff no positional rule applies and a field rule reads from a missing argument before any field rule matches. |
| CacheDecorator.SplitBarExact | packages/relay/src/lib/decorators/cache.decorator.ts:86-87 | The texts of a rule are exactly those between its bars. |
| CacheDecorator.LatestIsForbidden | packages/relay/src/lib/decorators/cache.decorator.ts:84-97 | The list latest, pending, finalized, safe forbids storing a call for the latest block. |
| CacheDecorator.UnconcernedIsCached | packages/relay/src/lib/decorators/cache.decorator.ts:46-68 | A truthy result of arguments no rule concerns is stored, and the next call is answered with it. |
| CacheDecorator.SkippedAlwaysExecutes | packages/relay/src/lib/decorators/cache.decorator.ts:84-142 | A call whose raw arguments a rule concerns, positional or by field, executes after every run, because nothing is ever stored under its key. |
| CacheDecorator.UnderscoreCollision | packages/relay/src/lib/decorators/cache.decorator.ts:160-174 | Two argument lists with one key, and a run in which the second call gets the first one's result. |
| MirrorNode.PaginationRefines | packages/relay/src/lib/clients/mirrorNodeClient.ts:543-571 | Chains shorter than the limit come back whole and in order after one request a page; longer and cyclic ones throw after exactly pageMax requests; a failing page ends the call there. |
| MirrorNode.ChainFetched | packages/relay/src/lib/clients/mirrorNodeClient.ts:543-571 | A chain of n pages comes back as their concatenation in order after n requests iff n is below the limit, and otherwise throws after exactly pageMax requests. |
| MirrorNode.EndlessFetched | packages/relay/src/lib/clients/mirrorNodeClient.ts:543-571 | Pages that always link on, as in a cycle, throw after exactly pageMax requests. |
| MirrorNode.FindImmature | packages/relay/src/lib/clients/mirrorNodeClient.ts:1057-1075 | The scan of one snapshot finds an immature record iff there is one. |
| MirrorNode.WithRetry | packages/relay/src/lib/clients/mirrorNodeClient.ts:1031-1104 | At most R fetches; the answer is the first snapshot that is null, mature or an exception, and without one the call throws after R fetches. |
| MirrorNode.GetLogsWithRetry | packages/relay/src/lib/clients/mirrorNodeClient.ts:1031-1104 | Logs that are returned are the whole chain of pages of a single fetch, in order and mature. |
| MirrorNode.Client.GetContractResult | packages/relay/src/lib/clients/mirrorNodeClient.ts:790-820 | Only mature successful results are ever cached; a cached one is returned without a request; an exception passes through and stores nothing. |
| MirrorNode.Client.GetContractResultWithRetry | packages/relay/src/lib/clients/mirrorNodeClient.ts:840-893 | A cached result never retries; otherwise the first response that is null, mature or an exception, within R requests, or the immature-records error after exactly R. |
| RefTrees.Find | scripts/openrpc-json-updater/utils/merge.utils.js:150-256 | The findings of the tree, in order and as dotted paths, are appended to the list handed in. |
| RefTrees.RefsExact | scripts/openrpc-json-updater/utils/merge.utils.js:142-256 | The search finds exactly the positions of objects holding `$ref`, with what they hold. |
| RefTrees.RefsOnce | scripts/openrpc-json-updater/utils/merge.utils.js:142-256 | No position is found twice. |
| RefTrees.RefsInOrder | scripts/openrpc-json-updater/utils/merge.utils.js:142-256 | The findings come in document order, parents before what is below them. |
| RefTrees.HasRefIff | scripts/openrpc-json-updater/utils/merge.utils.js:205-207 | An object has a `$ref` when its first member of that name holds something. |
| RefTrees.DecIsDecimal | scripts/openrpc-json-updater/utils/merge.utils.js:179-184 | Array positions are written as decimal indices without leading zeros. |
| RefTrees.LookupFinds | scripts/openrpc-json-updater/operations/merge.js:118-120 | On trees with non-empty dot-free keys, looking a reported path up returns the object found there. |
| RefTrees.SplitJoined | scripts/openrpc-json-updater/utils/merge.utils.js:253-256 | Splitting a reported path at its dots gives the position back. |
| RefTrees.StripTwice | scripts/openrpc-json-updater/utils/merge.utils.js:70-87 | Reducing objects with `$ref` to their `$ref` is idempotent. |
| RefTrees.HandleTwice | scripts/openrpc-json-updater/utils/merge.utils.js:273-415 | Rewriting against a fixed original is idempotent in both modes. |
| RefTrees.OriginalWins | scripts/openrpc-json-updater/utils/merge.utils.js:284-362 | Every shared same-kind position where the original has a `$ref` and no ancestor has one in either tree gets the original's subtree; where only the modified tree has one, a component stays and anything else keeps only its `$ref`. |
| RefTrees.HandledShape | scripts/openrpc-json-updater/utils/merge.utils.js:284-415 | At every position without a `$ref` above it in either tree: a scalar stays the modified one, an array keeps its length, an object its keys in order; `$ref` objects end as the mode says; and in a component what faces no object of the original stays. |
| RefTrees.HandledAt | scripts/openrpc-json-updater/utils/merge.utils.js:284-415 | At every shared position the rewritten tree holds the rewriting of the two subtrees there. |
| RefTrees.StrippedAt | scripts/openrpc-json-updater/utils/merge.utils.js:70-87 | Stripping commutes with descending, down to the outermost objects with a `$ref`. |
| RefTrees.StrippedShape | scripts/openrpc-json-updater/utils/merge.utils.js:70-87 | Stripping leaves scalars, lengths and keys alone down to the outermost `$ref` objects, which keep only their `$ref`. |
| RefReplacement.ReplaceObjectAtPath | scripts/openrpc-json-updater/operations/merge.js:96-109 | Exactly where both trees have an object or array at the path, the modified tree gets the original's. |
| RefReplacement.ProcessRefFields | scripts/openrpc-json-updater/operations/merge.js:81-87 | The loop replaces at every reported path of the original in turn. |
| RefReplacement.RefFieldsProcessed | scripts/openrpc-json-updater/operations/merge.js:81-109 | Afterwards every `$ref` position of the original at which the modified method had an object or array holds the original's subtree, nested ones included. |
| RefReplacement.AllReplaced | scripts/openrpc-json-updater/operations/merge.js:81-109 | The same for any list of positions, in any order and however they nest. |
| RefReplacement.OthersUntouched | scripts/openrpc-json-updater/operations/merge.js:81-109 | Whatever is neither above nor below any of the positions stays as the modified method had it. |
| RefReplacement.ScalarsStay | scripts/openrpc-json-updater/operations/merge.js:96-109 | A scalar or missing target stays as it is unless a position above it is replaced. |
| RefReplacement.ShapesStay | scripts/openrpc-json-updater/operations/merge.js:96-109 | Whatever is not at or below a replaced position keeps its keys in order, or its length. |
| FileChunks.FileLosslessIff | packages/relay/src/lib/clients/sdkClient.ts:460-503 | Create chunk plus appended chunks is the whole hex call data iff the data is longer than a chunk as bytes or fits one as hex. |
| FileChunks.ChunksFit | packages/relay/src/lib/clients/sdkClient.ts:495-503 | No appended chunk is empty or larger than the chunk size. |
| FileChunks.SubmittedDataIsLossless | packages/relay/src/lib/clients/sdkClient.ts:164-180 | All call data that is sent to a file is stored whole. |
| FileChunks.SubmissionIsLossless | packages/relay/src/lib/clients/sdkClient.ts:164-180 | The file is used iff jumbo transactions are off and the data is longer than a chunk; either way all of it is sent, in pieces of at most a chunk. |
| FileChunks.EstimateIsUpperBoundIff | packages/relay/src/utils.ts:70-97 | The estimate in cents covers the summed per-chunk cost of every file iff the chunk size is at most 5136. |
| FileChunks.EstimateMonotoneIff | packages/relay/src/utils.ts:70-97 | The estimate never falls with the data size iff the chunk size is at most 8682. |
| FileChunks.EstimateSteps | packages/relay/src/utils.ts:70-97 | Each further chunk adds the append fee, each further byte in between the rate. |
| LogsBloom.AddItem | packages/relay/src/logsBloomUtils.ts:15-37 | The in-place loop sets the item's three locations and no other bit. |
| LogsBloom.BuildLogsBloom | packages/relay/src/logsBloomUtils.ts:15-37 | A bit, counted from the lowest of the last byte, is on iff address and topics are not empty and one of the first three byte pairs of the hash of some item is its number modulo 2048. |
| LogsBloom.LocationsExact | packages/relay/src/logsBloomUtils.ts:15-37 | A bit is set iff one of the three 11-bit locations of some item names it (M3:2048, Ethereum Yellow Paper, section 4), so there are no false negatives. |
| LogsBloom.OrderDoesNotMatter | packages/relay/src/logsBloomUtils.ts:15-37 | The same items in any order and multiplicity give the same bytes. |
| LogsBloom.ConcatenationIsOr | packages/relay/src/logsBloomUtils.ts:15-37 | The bloom of two topic lists together is the bytewise or of their blooms. |
| ErrorMessage.HexToASCII | packages/relay/src/formatters.ts:20-27 | The loop reads two characters at a time as `parseInt` does, blanks, signs and an odd last digit included, NUL for what is no number. |
| ErrorMessage.OtherMessagesUnchanged | packages/relay/src/formatters.ts:43-47 | A message without "0x" anywhere is returned as it is. |
| ErrorMessage.BlankForm | packages/relay/src/formatters.ts:24-49 | Blanks in front of hexadecimal digits do not matter. |
| ErrorMessage.SignForms | packages/relay/src/formatters.ts:24-49 | A minus sign in front of hexadecimal digits negates, a plus sign does not. |
| ErrorMessage.PrefixForm | packages/relay/src/formatters.ts:24-49 | "0x" in front of hexadecimal digits does not matter. |
| ErrorMessage.DigitsMean | packages/relay/src/formatters.ts:24-49 | The sixteen digits mean their values in either case. |
| ErrorMessage.NegativePair | packages/relay/src/formatters.ts:24 | A signed digit gives the character that wraps around to it in 16 bits. |
| ErrorMessage.NotANumberIsNul | packages/relay/src/formatters.ts:24 | What starts with no digit, blank or sign is read as NUL. |
| ErrorMessage.DecodeInvertsEncode | packages/relay/src/formatters.ts:43-53 | Decoding the ABI encoding of `Error(string)` gives back every byte string as characters. |
| ForwardedHeader.ParseForwardedHeader | packages/server/src/server.ts:67-136 | Every header ends in nothing or in 1 to 45 allowed characters, as the specification function says. |
| ForwardedHeader.ParsedIff | packages/server/src/server.ts:67-136 | An address is returned iff the header has at most 1000 characters, the address 1 to 45 allowed ones, and the first entry's first "for=" in any case has it as its value: quoted with or without brackets, in brackets, or bare up to a semicolon, comma, space or tab. |
| ForwardedHeader.HeaderRoundTrip | packages/relay/src/lib/clients/mirrorNodeClient.ts:334-364 | Every address the client can send is read back unchanged (RFC 7239, sections 4, 5.2 and 6). |
| ForwardedHeader.HeaderText | packages/relay/src/lib/clients/mirrorNodeClient.ts:334-364 | An address with a colon is put in brackets, any other is not. |

## Left out

- Connected-client totals: the number comes from the server's sockets, so the total limit is a parameter of `ApplyLimits` and of the `Open` step.
- Inactivity timers, ping interval, metrics other than the two poll gauges, logging, rate limits, filter validators: no property of their own here; a validator's verdict is a parameter.
- Errors thrown by `eth_blockNumber` or by a socket's send: a tick without a block number is no step, sends do not fail.
- Counters.CounterConservation: says nothing about a connection after its close, whose counter nobody reads.
- Coverage.NoGaps: needs the run to be timely, because the statement is false for overlapping polls (`OverlappingPolls.OverlapSkipsBlocks`).
- MirrorNode.Client.GetContractResult: does not model the one-hour expiry of cached results, which only removes entries.
- MirrorNode.GetLogsWithRetry: a page limit below 1, which no configuration of the source has, is not covered.
- CacheDecorator.Decorated.Call: changes of the wrapped method over time are not modelled. Methods are told apart by name, as in the source, and no two decorated methods there share one.
- CacheDecorator.KeyInjective: leaves out arguments written like an absent one ("undefined", "null"), whose keys do collide with those of absent arguments.
- SpendingPlans.ConfigService.Populate: loading and parsing the configuration, address normalization, amounts spent, creation times and TTLs are not modelled; plan creation is an insertion under the configured id.
- Reconciliation.ReconciliationTheorem: configurations with repeated plan ids are not covered.
- JsonRoundTrip.FormatRoundTrip: strings are sequences of Unicode scalar values, so lone surrogates are out; `__proto__` keys and `toJSON` are not modelled, numbers are their decimal text.
- JsonEol.WrittenReadsBack: the plain `JSON.stringify` path of writeJson, taken when the original content is missing or empty, is not modelled.
- GroupPaths.Summarize: the entries are not joined into one string; prefixes that count and sort equally may come in any order.
- RefTrees.Find: the list handed in is returned longer instead of being pushed to in place.
- RefTrees.OriginalWins: the copies of `cloneObject` go through JSON text, which drops undefined members; the model returns the subtree itself, which is the same for trees read from JSON.
- RefReplacement.ProcessRefFields: the modified tree is returned instead of being changed in place, subtrees shared with the original after a replacement at the root are not modelled, and neither are `__proto__` keys; a replacement at the root is that of one object by another.
- removeSkippedKeys, mergeMethods, the nested-value setter and everything built on the `deep-diff` library are not modelled.
- FileChunks.SubmittedDataIsLossless: the SDK's limit on the number of chunks and the query of the finished file are not modelled.
- FileChunks.EstimateIsUpperBoundIff: the conversion from cents to tinybars and its rounding are not modelled; prices are exact ten-thousandths of a cent.
- LogsBloom.BuildLogsBloom: the hash is any function to 32 bytes, and the bytes are not rendered as hexadecimal text.
- ErrorMessage.DecodeInvertsEncode: a message longer than its 32-byte length word can say has no encoding.
- ForwardedHeader.ParseForwardedHeader: lower-casing covers ASCII letters only, and headers are Latin-1 text.
- Axios, Redis, the Hedera SDK, Koa, the precheck, the debug tracers, block, receipt and transaction factories, and JSON-RPC dispatch: foreign calls, delegation or single-branch facts that would only add easy members.
