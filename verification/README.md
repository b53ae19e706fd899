# Postee, modelled and proved in Dafny

Postee takes JSON messages, filters and de-duplicates them, renders them, batches them per
route and hands them to outputs. This project models the stateful middle of that path and
the rendering and encoding code whose correctness is not plain from reading it, and proves
what that code promises: over whole runs of the database, under every interleaving of the
goroutines, across configuration reloads, and on every input of the text functions.

| modules | what they model |
|---|---|
| `ByteOrder`, `Timestamps` | `bytes.Compare`, a bucket cursor, and the RFC 3339 stamps with a trimmed nanosecond fraction that the expiry bucket is sorted by |
| `Bucket`, `MessageStore`, `StoreHistory` | the two linked buckets of the de-duplication store, the conditional store and the two sweepers; then whole runs of them |
| `Aggregator` | the persistent queue of scans of each route; then whole runs of calls on all routes |
| `Pipeline`, `PipelineSafety`, `PipelineDelivery`, `PipelineProvenance`, `PipelineSchedulers`, `PipelineDedup`, `PipelineOutputs` | every `MsgHandling` call and every scheduler as a goroutine of its own, in a step machine whose runs are the interleavings; what they keep, deliver, stop and turn away, where messages and outcomes come from, and through which output messages leave |
| `Dispatch` | which handlings a message starts, one for each output of each route |
| `Router` | any number of goroutines that call `ReloadConfig`, against the goroutines, tickers and channels that `Start` and `Terminate` handle, and the message queue |
| `Text`, `AggregatedContent`, `SlackTable`, `SlackText`, `SplunkEvent`, `UniqueKey`, `KeyCollisions`, `JiraTable`, `Decimal`, `OutputStats`, `Timeouts`, `Vulnerabilities`, `PackageTree` | the rendering, encoding and parsing code |

Code that updates state in place is a class or a method with loops, proved equal to a
function of its input or old state; the properties are lemmas about those functions.
`go` statements, channels and the interleavings of critical sections are the two step
machines. A step of `Pipeline` is one database call (all of them hold one mutex), one read
or write of `route.Scheduling`, one send, or one outcome of code that is left open, and a run
may take any step of any goroutine next. A quit in `Router` is a rendezvous: it is possible
only while a goroutine listens for it.

The steps of `Pipeline` and where they come from:

| step | source |
|---|---|
| `Arrive`, `Filter` | `msgservice/msghandling.go:19-44` |
| `Dedup` | `msgservice/msghandling.go:61-75` |
| `Evaluate` | `msgservice/msghandling.go:83-91`, `112-115` |
| `Enqueue` | `msgservice/msghandling.go:93-104`, `142-153` |
| `Build`, `Send` | `msgservice/msghandling.go:95-102`, `113`, `118-132` |
| `Check`, `Start`, `Launch` | `msgservice/msghandling.go:106-111`, `msgservice/scheduler.go:25-28`, `47`, `routes/routes.go:22-27` |
| `Tick`, `Deliver`, `Exit` | `msgservice/scheduler.go:30-46` |
| `Stop`, `Clean` | `routes/routes.go:29-33`, `dbservice/checker.go:11-65` |

The steps of `Router`: `Reload` enters `Terminate` (`router/router.go:70-71`, from
`webserver/reload.go:9-11`, one goroutine for each request), `CloseRoute` is `107-109`, `Quit`
`112`, `CheckTicker` and `StopTicker` `114-117`, `Reset` `82-86`, `Load` `88-92` with
`186-243`, `Accept` `121-123` and `Listen` `346-355`.

## What the proofs found

Properties that one would expect and that the code does not have. The lemmas give the
failing runs or inputs and, where there is a condition a caller could look at, the exact one.

- The byte order of expiry stamps is not time order inside one second, because trailing
  zeros of the fraction are cut: `12:00:00.5Z` sorts before `12:00:00Z`. Two stamps are misplaced
  exactly when they fall in one second and one trimmed fraction is a proper prefix of the
  other, so a sweep is wrong by less than a second (section 5.1 of RFC 3339 promises string
  order only for equal numbers of fraction digits).
- A size wipe drops the messages but not their expiry entries. A message stored again is then
  swept at the time of its earlier life, even if it was stored without expiry, although
  Postee's own `README.md:201` says such a message is never deleted. A message is safe from
  this exactly when, as it is stored, no entry of an earlier second names its key; without
  expiry, when no entry names its key at all.
- Two messages that expire in the same nanosecond share one stamp; the first of the two then
  stays until a wipe. At any moment, a stored message stays in every continuation without a wipe
  exactly when no entry names its key.
- Postee's `README.md:122` gives `max-db-size` in megabytes and says that old messages are
  deleted. The code compares bytes and drops the whole bucket; the model follows the code.
- Two handlers of one route can both find no scheduler and both start one. The first of the
  two can never be stopped. A scheduler can be stopped exactly when it is not superseded: its
  channel is closed or still the current one of its route. If no step comes between a
  check that finds none and the start that follows it, no route ever has a second one.
- A message is handled once for each output of each route, but all these handlings look up one
  key. Where messages are de-duplicated, the first handling turns the others away: of several
  outputs only one gets the message, although Postee's `README.md:146` allows several.
- A route has one queue for all its outputs, and a batch goes to the output of the handler that
  completed it or that started the scheduler. A batch takes along messages that were handled for
  another output exactly when such a message waits in the queue; on a route handled for a single
  output none ever does.
- After a reload of a configuration that cannot be read nothing listens for the quit, so every
  later reload blocks for ever.
- Reload requests are not serialised. A reload that begins while another is under way closes a
  scheduler's channel twice, which panics, exactly when it still finds a route whose scheduler
  the other has closed or will close.
- Keys identify messages only for a single unique property. For any list of properties, nested
  or not, in which none is listed twice, or in which none lies on the path to a different one,
  two messages with equal keys must have equal values exactly when all listed properties are
  the same one. With two or more properties of which none lies on the path to another, every
  message that has any of them shares its key with a message of other values. Among messages
  that have all properties, those with a key of their own are the ones whose only hyphens are in
  front of the first value, at the end of the last, or a whole value in between.
- The unique-property paths look into the first element of a list of objects, but the JSON
  decoder never makes a list of that Go type: for decoded messages that branch is dead and
  lists have no value.
- A message with one nameless owner loses it in a batch, and leading empty urls of a batch vanish.
- Postee's `README.md:199` allows seconds, minutes and hours, up to 24 hours. The code also takes
  days, has no maximum, rejects the upper-case units it recognises, and wraps around without an
  error, to a wrong timeout exactly when the product does not fit 64 bits.
- The package search depends on the iteration order of maps: some order finds the key exactly
  when a map below the root holds it, every order does exactly when no entry on the way can end
  the search early, and where both differ the outcome is left to the order.
- A Splunk event can be one byte longer than its limit, exactly when the record is as long as
  the comparison allows.

## Model

| member | source | states |
|---|---|---|
| ByteOrder.First | dbservice/checker.go:32 | the cursor's first key is the least one in byte order; there is none exactly for an empty bucket |
| ByteOrder.Next | dbservice/checker.go:32 | the cursor's next key is the least one above the current key |
| ByteOrder.CursorAdvances | dbservice/checker.go:79 | between a key and the next one the cursor yields no third key is skipped |
| Timestamps.FieldsOrderSeconds | dbservice/dbparam.go:20 | comparing civil fields is comparing whole seconds of the Gregorian calendar, for all years up to 9999 |
| Timestamps.MonthLengths | dbservice/dbparam.go:20 | the months of the Gregorian calendar and the length of its years |
| Timestamps.DaysCount | dbservice/dbparam.go:20 | the day number of a time in closed form, leap years included, which puts 1970 where Unix time does |
| Timestamps.FormatReads | dbservice/actions.go:40 | a stamp reads back to the fields of its time: date, T, clock, a fraction without trailing zeros unless it is zero, and Z |
| Timestamps.FormatOrder | dbservice/actions.go:40 | the stamp's byte order is field order, then the byte order of the fraction text |
| Timestamps.FractionOrder | dbservice/dbparam.go:20 | byte order of two trimmed fractions: a proper prefix sorts after what extends it, everything else numerically |
| Timestamps.StampOrder | dbservice/checker.go:79 | when exactly one stamp is at most another, for all pairs of times |
| Timestamps.StampOrderWithinSecond | dbservice/checker.go:79 | inside one second byte order is time order if and only if neither trimmed fraction is a proper prefix of the other |
| Timestamps.StampOrderAcrossSeconds | dbservice/checker.go:78-79 | stamps of an earlier second are at most, and stamps of a later second never at most, the sweep's stamp |
| Timestamps.StampErrorUnderOneSecond | dbservice/checker.go:78-79 | two stamps are misplaced only if the instants are less than a second apart |
| Timestamps.StampOrderCanFail | dbservice/dbparam.go:20 | two concrete times that the stamps put in the wrong order |
| Timestamps.StampInjective | dbservice/actions.go:40 | two expiry times share a stamp only if they are the same instant |
| Bucket.Bucket.CreateIfNotExists | dbservice/init.go:5-10 | the bucket exists and keeps its entries |
| Bucket.Bucket.Insert | dbservice/insert.go:5-14 | an entry is written or overwritten; an empty key is refused and changes nothing |
| Bucket.Bucket.Delete | dbservice/delete.go:5-18 | the loop removes exactly the listed keys; an absent bucket is no error |
| MessageStore.ScanUpTo | dbservice/checker.go:76-82 | the early-stopping cursor loop meets every stamp up to the limit exactly once, in byte order, and no other, with the key each names |
| MessageStore.MessageDb.MayBeStoreMessage | dbservice/actions.go:9-48 | refused if and only if the key is stored, an error if and only if it is new and empty; otherwise the message is stored under the key and, with an expiry, the key under its stamp; all else is unchanged |
| MessageStore.MessageDb.GetExpired | dbservice/checker.go:67-93 | removes exactly the due stamps and returns the keys they named |
| MessageStore.MessageDb.CheckExpiredData | dbservice/checker.go:45-65 | an entry stays if and only if its stamp is past the sweep's, and a message if and only if no other entry names its key; nothing else changes |
| MessageStore.MessageDb.CheckSizeLimit | dbservice/checker.go:11-43 | the messages afterwards are none if a limit is set and the sum of all value lengths exceeds it, and all of them otherwise; the expiry bucket is untouched |
| MessageStore.TotalBytesSplit | dbservice/checker.go:30-34 | the sum over the bucket starts at zero and does not depend on the order of the entries |
| StoreHistory.AcceptedOnceBetweenRemovals | dbservice/actions.go:26-45 | in every run a key is accepted at most once between two of its removals |
| StoreHistory.StoredExactly | dbservice/actions.go:26-45 | in every run a key is stored, and so refused, exactly from an acceptance of it to its next removal |
| StoreHistory.HoldsWhatWasAccepted | dbservice/actions.go:34-38 | in every run what is stored under a key is the message of its latest acceptance |
| StoreHistory.SizeCheckExactly | dbservice/checker.go:35-37 | a size check removes a key if and only if its limit is set and below the stored bytes, and then it removes all; otherwise it changes nothing |
| StoreHistory.RoomyLimitsRemoveNothing | dbservice/checker.go:11-43 | in a run of stores and size checks whose limits are zero or not below what is stored, every accepted message stays as it was accepted |
| StoreHistory.WipeForgetsEveryKey | dbservice/checker.go:35-37 | a wipe removes exactly the keys accepted and not removed since, leaves every expiry entry pending, and makes every key that is not empty acceptable |
| StoreHistory.EmptyKeyNeverStored | dbservice/actions.go:34-38 | no run ever stores a message under the empty key |
| StoreHistory.EntriesTrackStoredKeys | dbservice/actions.go:31-45 | a key that no wipe caught with an entry pending has at most one entry, and only while it is stored |
| StoreHistory.EntriesWithoutWipes | dbservice/actions.go:31-45 | without wipes every expiry entry names a stored key and no two name the same one, even when stamps collide |
| StoreHistory.EntryHasWriter | dbservice/actions.go:39-43 | every entry was written by an acceptance of the key it names, under that acceptance's stamp |
| StoreHistory.OnlyItsOwnEntry | dbservice/actions.go:39-43 | if no entry named a key when it was stored, any later entry for it is its own, until it is stored again |
| StoreHistory.EarlySweepNeedsWipe | dbservice/checker.go:25-38 | where an early removal comes from: an entry pending when the key was stored, of an earlier acceptance that a wipe struck |
| StoreHistory.SafeToStoreExactly | dbservice/checker.go:79-88 | a message stays until the second of its expiry in every continuation without a wipe if and only if, when it is stored, no entry of an earlier second names its key |
| StoreHistory.NoExpiryKeptExactly | dbservice/actions.go:39 | a message stored without expiry survives every continuation without a wipe if and only if no entry names its key at that moment |
| StoreHistory.EarlySweepCanHappen | dbservice/checker.go:35-37 | the failing runs, for every key, all messages, every positive limit below the first message's size and all later sweeps |
| StoreHistory.LifetimeExact | dbservice/checker.go:56-64 | stored with no entry pending, and without wipes since, a message is gone exactly when a due sweep came before another message was stored with the same expiry time |
| StoreHistory.KeptBeforeItsSecond | dbservice/checker.go:78-82 | sweeps in seconds before its expiry never take a message |
| StoreHistory.OutlivesItsSecondOnlyIfOverwritten | dbservice/actions.go:39-43 | a message outlives a sweep in a later second only if another key overwrote its stamp |
| StoreHistory.StaysExactly | dbservice/checker.go:56-64 | at any moment of any run a stored message stays in every continuation without a wipe if and only if no entry names its key |
| StoreHistory.SharedStampOutlives | dbservice/actions.go:39-43 | the run in which a second message with the same expiry time takes the first one's entry, for any two keys, after which the first stays in every continuation without a wipe |
| StoreHistory.NoExpiryIsKept | dbservice/actions.go:39 | a message stored without expiry stays, and its key is refused, until a wipe |
| StoreHistory.TimeoutKeptWithinOneSecond | msgservice/msghandling.go:133-140 | an expiry computed from the timeout, negative ones included, is kept up to one second, whatever the fractions |
| Aggregator.AggregatorDb.AggregateScans | dbservice/dbaggregator.go:9-62 | a scan with properties goes in front of the output's queue; the whole is kept if the quantity is ignored or too small, and released otherwise; other queues are unchanged; it fails exactly without a name |
| Aggregator.AggregateConserves | dbservice/dbaggregator.go:27-61 | one call loses, doubles and reorders nothing |
| Aggregator.ArrivalsAreBatchesThenPending | dbservice/dbaggregator.go:27-61 | for every run of calls on all routes: the released batches and the pending queue, each reversed, are the arrivals in order |
| Aggregator.RoutesAreIndependent | dbservice/dbaggregator.go:31-51 | a route's queue and batches are what they would be without all calls on other routes |
| Aggregator.CountModeBatchesAreFull | dbservice/dbaggregator.go:45-61 | with a fixed threshold of at least one every batch has exactly that many scans and fewer are pending |
| Aggregator.DrainEmptiesTheQueue | msgservice/scheduler.go:37 | a drain leaves nothing pending and releases all that was |
| PipelineSafety.EnqueuedExactlyOnce | msgservice/msghandling.go:93-111 | under every interleaving an enqueued message is pending once or in one released batch once, never both, and nothing else is |
| PipelineSafety.BatchesKeepArrivalOrder | msgservice/scheduler.go:35-44 | under every interleaving the batches shipped from a route and its queue give the arrival order |
| PipelineSafety.ParcelsSentAtMostOnce | msgservice/msghandling.go:95-102 | every batch or single message is with exactly one goroutine, or was sent exactly once, or was given up exactly once |
| PipelineSafety.TickDrainsTheRoute | msgservice/scheduler.go:35-44 | right after a tick's drain the route's queue is empty and all it held is one parcel in that scheduler's hands |
| PipelineSafety.HistoryStep | dbservice/dbaggregator.go:13-14 | every step keeps both databases equal to the outcome of the calls made so far, whatever the interleaving |
| PipelineSafety.CustodyStep | msgservice/msghandling.go:95-115 | every step keeps each parcel with one goroutine, sent, or given up |
| PipelineDelivery.MessageAtOnePlace | msgservice/msghandling.go:83-115 | under every interleaving the message of a handler is at one place at most, over the queues and parcels of all routes, direct messages included |
| PipelineDelivery.MessageSentAtMostOnce | msgservice/msghandling.go:95-115 | every message is sent at most once, alone or in a batch, and once sent it is neither pending nor given up |
| PipelineProvenance.MessagesAreRendered | msgservice/msghandling.go:83-115 | in every run each message in a queue or a parcel has exactly the content that the one evaluation of its handler gave |
| PipelineProvenance.RenderedHasOnePlace | msgservice/msghandling.go:93-115 | in every run a rendered message whose handler is past the aggregator is in exactly one queue or parcel, unless it was to be queued without a route name or properties |
| PipelineProvenance.DirectSendsWhatWasRendered | msgservice/msghandling.go:112-115 | a handler that does not aggregate sends exactly the one message its evaluation rendered, alone and to its own output |
| PipelineProvenance.PhasesAreExplained | msgservice/msghandling.go:30-115 | in every run each handler's place in its work is accounted for by its own steps and by the raw settings of its route |
| PipelineProvenance.SendsAreCounted | msgservice/msghandling.go:95-115 | the parcels sent are as many as the sends, and those given up as many as the batches whose content could not be built |
| PipelineSchedulers.NoScanStranded | msgservice/msghandling.go:103-111 | a scan pending in timed mode has its handler on the way to the scheduler check, a scheduler running or being launched on its route's current channel, or that channel is closed |
| PipelineSchedulers.RacingHandlersLeaveOneBehind | routes/routes.go:22-27 | wherever two handlers of a route both look before either starts, two schedulers result, the first superseded and the second not |
| PipelineSchedulers.RaceFromTheStart | msgservice/msghandling.go:103-111 | such a run from the start of the program, for any two messages on any route in timed mode, after which no continuation ends the first scheduler |
| PipelineSchedulers.SupersededStepExactly | routes/routes.go:25-27 | a step leaves a scheduler behind exactly if it starts one on a route whose current channel is open and still served by it |
| PipelineSchedulers.SupersededNeverExits | routes/routes.go:29-33 | a scheduler whose channel was replaced before it was closed never exits, in any continuation |
| PipelineSchedulers.CanExitExactly | msgservice/scheduler.go:30-34 | in every reachable state a scheduler can exit in some continuation if and only if it is not superseded |
| PipelineSchedulers.SerialHandlersLeaveNoneBehind | msgservice/msghandling.go:106-111 | if no step comes between a check that finds no scheduler and the start, no route ever has two channels and every scheduler can be stopped |
| PipelineDedup.SameKeyPassesTwiceOnlyAfterRemoval | msgservice/msghandling.go:61-75 | under every interleaving two messages with one key both pass de-duplication only if the key was removed in between |
| PipelineDedup.TurnedAwayExactly | msgservice/msghandling.go:65-73 | in every reachable state a handler is turned away if and only if its key was accepted before and not removed since |
| PipelineDedup.OneHandlingPassesForAll | msgservice/msghandling.go:61-75 | once a handling with some key is let through, every later one with that key is turned away for good unless the key is removed between the two look-ups |
| PipelineDedup.OneOutputGetsTheMessage | router/router.go:266-281 | a run from the start of the program with all handlings due for one message: the first gets past, every other one, for its own output, is turned away |
| PipelineOutputs.OneOutputKeepsItsMessages | msgservice/scheduler.go:35-43 | in every reachable state, on a route handled for one output only, every batch and message goes to that output |
| PipelineOutputs.ForeignShippedExactly | msgservice/msghandling.go:93-102 | in every reachable state a step ships messages to an output they were not handled for if and only if such a message was waiting in the route's queue |
| PipelineOutputs.TwoOutputsOneBatch | msgservice/msghandling.go:93-102 | a run from the start of the program in which messages handled for two outputs of a route both leave through the second |
| Dispatch.HandleRoute | router/router.go:257-282 | for every output, starts as many handlings as the route lists it, if the output is enabled and the template there, and no other |
| Dispatch.Handle | router/router.go:284-288 | starts exactly the handlings due on all routes, the same for every iteration order of the routes |
| Router.GoroutinesMatchLastStart | router/router.go:79-94 | in every run, overlapping reloads included, one reload at most is past its quit; else one listener and one maintenance goroutine run if the last load parsed and none otherwise; no maintenance goroutine runs without a ticker |
| Router.NoChannelClosedTwice | router/router.go:107-110 | in every run in which reloads do not overlap, schedulers of old and new routes included, no scheduler channel is closed twice |
| Router.ReloadClosesTwiceExactly | webserver/reload.go:9-11 | one more reload can make a channel be closed twice if and only if it finds a route whose scheduler another reload has closed or is yet to close |
| Router.OverlappingReloadsCloseTwice | webserver/reload.go:9-11 | two overlapping reloads close a channel twice, from the start of the program, for all routes and any scheduler on one of them |
| Router.MessagesSurviveReloads | router/router.go:121-123 | every message taken is still queued, in a queue of at most 1000, or was handed over once with single quotes for backticks and all else verbatim, in order, across all reloads |
| Router.AcceptedInOrder | router/router.go:121-123 | the messages taken are those sent, in order, in every run |
| Router.TerminateCanComplete | router/router.go:96-119 | a terminate that finds a listener, or is past its quit, can be brought to its end among any number of other reloads |
| Router.FailedStartIsFinal | router/router.go:88-91 | after a failed start no run of any number of reloads gives the router a listener or gets one past its quit |
| Router.BrokenReloadKillsRouter | router/router.go:70-77 | such a run from the start of the program, for any routes: one reload of a broken configuration, after which no run gets a listener again |
| Router.TerminateCompletesExactly | router/router.go:112-116 | in every reachable state a reload can get through if and only if the last configuration parsed or another reload is past its quit and yet to load one |
| Text.SplitUndoesJoin | formatting/eval.go:61-63 | a list survives joining and splitting if and only if it is not empty and no part contains the separator |
| AggregatedContent.BuildAggregatedContent | formatting/eval.go:38-65 | the title, the headings and texts of all scans in order as description, the joined urls, and owners if and only if a scan has some |
| AggregatedContent.ContributionExact | msgservice/msghandling.go:46-59 | one message's owners are read back unchanged if and only if none contains ';' and they are not one nameless owner |
| AggregatedContent.JoinedOwnersSplit | outputs/plugin.go:40-47 | splitting the owners text of a batch gives what its messages contribute, in order |
| AggregatedContent.AggregatedOwnersExact | formatting/eval.go:49-63 | an output reads the flattened owners of all scans in batch order if and only if every message's list is faithful |
| AggregatedContent.GetHandledRecipients | outputs/plugin.go:23-38 | recipient by recipient, the owners of the content for the placeholder and anyone else as they are; without the placeholder the recipients unchanged |
| AggregatedContent.AggregatedRecipients | outputs/plugin.go:23-47 | recipients of an aggregated message are the configured ones, with the owners of all its messages, in order, for each placeholder |
| AggregatedContent.BuildShortMessage | outputs/message.go:10-18 | the notice, then one link for each line of the url text, in order, to the server's address with that line |
| AggregatedContent.LinksExact | formatting/eval.go:45-48 | the lines of the url text are the urls of the scans, in order, if and only if there are scans, no url has a newline, and the first is not empty unless alone |
| SlackTable.RowCells | formatting/slackmrkdwnprovider.go:94-118 | the two buffers of a row: first cell (or the first two, in "#" tables), and the rest joined by " / " |
| SlackTable.FieldsShowRows | formatting/slackmrkdwnprovider.go:94-126 | the two fields of a row in terms of its cells: those of the first row between asterisks, all others verbatim, with the first two together where the table is numbered |
| SlackTable.TransposedTable | formatting/slackmrkdwnprovider.go:56-72 | two rows under five headers become their transposition, header over value |
| SlackTable.BlockTable | formatting/slackmrkdwnprovider.go:73-128 | blocks of at most ten fields, in bounds throughout, are the field sequence cut at every tenth |
| SlackTable.Table | formatting/slackmrkdwnprovider.go:47-137 | on any table on which no index is out of range: header over value for five columns and two rows; else every row in two fields as said above, in blocks of ten of which only the last may be shorter, which are the groups the rego template makes of the same fields |
| SlackTable.GroupsAreChunks | rego-templates/vuls-slack.rego:20-46 | cutting by index arithmetic is cutting piece by piece |
| SlackTable.ChunksExact | rego-templates/vuls-slack.rego:22-27 | a cut loses and moves nothing, every piece but the last is full and the last is not empty |
| SlackTable.FieldGroupsOfCaptioned | rego-templates/vuls-slack.rego:31-45 | captions aside, the template's sections are its groups of fields in order |
| SlackTable.SectionsAlternate | rego-templates/vuls-slack.rego:31-45 | the template's sections are caption and fields in turn |
| SlackText.ClearIsEscape | outputs/slack.go:37-42 | the three whole-text replacements are one substitution character by character |
| SlackText.ClearedCharacter | outputs/slack.go:37-42 | from front to back, three characters become their entities and all others stay |
| SlackText.ClearCanBeUndone | outputs/slack.go:37-42 | a decoder recovers every text |
| SlackText.ClearInjective | outputs/slack.go:37-42 | different texts stay different |
| SlackText.AmpersandLastWouldCollide | outputs/slack.go:38-40 | the order of the replacements matters |
| SlackText.SendBlocks | outputs/slack.go:76-102 | one short post from 49 blocks on, else all blocks in one post, none for no blocks; success means every post was accepted |
| SplunkEvent.SplunkOutput.Send | outputs/splunk.go:38-95 | the framed text of the first that fits of scan, scan without resources, without malware as well, and without sensitive data as well; an error exactly when none fits; at most limit plus one bytes |
| SplunkEvent.DropSection | outputs/splunk.go:74-84 | each round goes to the first candidate that differs, with one section less, and ends exactly when all three are empty |
| SplunkEvent.LimitExceededByOne | outputs/splunk.go:60-73 | which records the comparison keeps, which it should keep, and the one length in between |
| SplunkEvent.OverlongEvent | outputs/splunk.go:71 | for every rendering that some character lengthens by one byte, every scan that fits can be lengthened to one sent whole in an event one byte over the limit |
| UniqueKey.SingleValueShowsWhatIsReached | msgservice/uniquemsgkey.go:24-52 | the recursion renders what the path reaches, or gives nothing |
| UniqueKey.PathSteps | msgservice/uniquemsgkey.go:31-48 | a path leads through the fields of objects and the first object of a list of objects, and through nothing else |
| UniqueKey.GetMessageUniqueId | msgservice/uniquemsgkey.go:12-22 | the key is the non-empty values of the properties joined by '-' |
| KeyCollisions.KeyGrows | msgservice/uniquemsgkey.go:14-21 | value by value, an empty one adds nothing to the key and any other itself, behind a hyphen unless it is the first |
| UniqueKey.KeyDependsOnReachedValues | msgservice/uniquemsgkey.go:12-22 | messages that agree on what the paths reach have the same key |
| UniqueKey.KeyIdentifiesPlainValues | msgservice/uniquemsgkey.go:12-22 | with non-empty values free of '-' keys are equal if and only if all values are |
| UniqueKey.ListsHideTheirElements | msgservice/uniquemsgkey.go:40-47 | in a decoded message no path reaches anything behind a value that is not an object |
| KeyCollisions.KeyIdentifiesExactly | msgservice/uniquemsgkey.go:12-22 | equal keys mean equal values, for all values, if and only if there is one property at most |
| KeyCollisions.SharesKeyExactly | msgservice/uniquemsgkey.go:17-21 | with two properties or more the values that share their key with others are exactly those that are not all missing |
| KeyCollisions.PresentValuesShareKeyExactly | msgservice/uniquemsgkey.go:21 | among values that are all present, those that share their key with others are exactly those with a hyphen elsewhere than in front of the first, at the end of the last, or as a whole value in between |
| KeyCollisions.EveryTupleIsReached | msgservice/uniquemsgkey.go:24-47 | every choice of values is that of some decoded message, nested properties included, if no property lies on the path to another |
| KeyCollisions.OtherValuesCanCollide | msgservice/uniquemsgkey.go:17-21 | every message with a key shares it with a decoded message of other values, for two or more properties, nested or not, of which none lies on the path to another |
| KeyCollisions.KeyIdentifiesMessagesExactly | msgservice/uniquemsgkey.go:12-47 | decoded messages with equal keys have equal values if and only if all listed properties are the same one, for every list that names none twice or in which none lies on the path to a different one |
| JiraTable.Table | formatting/jiraprovider.go:31-45 | the cells of the first row between double bars, those of all others between single bars, a line each, and a closing newline; nothing for no rows |
| JiraTable.TableInjective | formatting/jiraprovider.go:31-45 | different tables give different text if rows are not empty and cells have no bar or newline |
| JiraTable.EmptyRowCollides | formatting/jiraprovider.go:36-42 | a row without cells reads like a row with one empty cell, after any rows |
| Decimal.PrintNatExact | dbservice/plgnstats.go:27 | the text of a number is canonical and denotes it |
| Decimal.AtoiUndoesItoa | ui/backend/dbservice/getplgnstats.go:27 | parsing undoes printing on every 64-bit integer |
| OutputStats.StatsDb.RegisterPlgnInvctn | dbservice/plgnstats.go:9-42 | the counter of an output grows by one, with wrap-around and ignored parse errors; it fails exactly without a name |
| OutputStats.StatsDb.GetPlgnStats | ui/backend/dbservice/getplgnstats.go:10-42 | the cursor loop returns all numbers, or fails if any text is none |
| OutputStats.TextsCountSends | dbservice/plgnstats.go:23-39 | after any run of sends the text of an output is the canonical decimal of the number of its sends |
| OutputStats.StatsCountSends | ui/backend/dbservice/getplgnstats.go:26-33 | the reader returns exactly those numbers and never fails |
| Timeouts.ParseTimeouts | routes/aggrtimeout.go:9-39 | the result is the same for every iteration order of the unit map |
| Timeouts.RouteTimeouts.ConfigureTimeouts | routes/aggrtimeout.go:41-59 | both fields get the parsed numbers, errors or not |
| Timeouts.NumberWithUnit | routes/aggrtimeout.go:27-34 | a number and a lower-case unit, spaces anywhere, mean number times unit as long as the product fits |
| Timeouts.NumberWithUnitExactly | routes/aggrtimeout.go:29-30 | for every number that fits and every unit there is no error, and the timeout is number times unit if and only if the product fits |
| Timeouts.UnitsInSeconds | routes/aggrtimeout.go:13-18 | a minute is 60 seconds, an hour 3600 and a day 86400, for every number that fits with its unit |
| Timeouts.SpacesDoNotMatter | routes/aggrtimeout.go:20 | a space inserted anywhere does not matter, and a text without spaces is left as it is |
| Timeouts.MalformedIsZero | routes/aggrtimeout.go:41-59 | a text that is no number, with or without its unit, configures zero |
| Timeouts.PlainNumber | routes/aggrtimeout.go:35-37 | a number alone means itself |
| Timeouts.AcceptedExactly | routes/aggrtimeout.go:20-38 | accepted are exactly the empty text, numerals that fit, and those with a lower-case unit |
| Timeouts.LargeTimeoutWraps | routes/aggrtimeout.go:30 | every product that needs one bit more gives a negative timeout without an error |
| Vulnerabilities.GroupBySeverity | layout/vulnerabilities.go:13-41 | the map groups all resource and vulnerability pairs by lower-cased severity, in order, without empty groups |
| Vulnerabilities.RenderVulnerabilities | layout/vulnerabilities.go:12-54 | the tables of five severities in the fixed order under their headings, each the fixed header and the rows of all pairs of that severity, empty ones skipped |
| Vulnerabilities.RowsGrow | layout/vulnerabilities.go:26-40 | pair by pair, a vulnerability of the severity adds a row of its four columns, with "none" for what is empty, and any other none |
| Vulnerabilities.PairsAreFlat | layout/vulnerabilities.go:14-26 | the pairs are those of each resource with its vulnerabilities, in order |
| Vulnerabilities.RowsCountVulnerabilities | layout/vulnerabilities.go:42-53 | the five tables have one row for each vulnerability of one of the five severities |
| PackageTree.FoundHoldsKey | regoservice/eval.go:78-95 | in every iteration order a result is a descendant map that holds the key |
| PackageTree.FirstInDepthFirstOrder | regoservice/eval.go:78-95 | of several maps that hold the key the first in depth-first order is returned, where an entry that is no map ends its own map's list |
| PackageTree.FoundInEveryOrderExactly | regoservice/eval.go:78-95 | the search succeeds in every iteration order if and only if no entry can end it early |
| PackageTree.FoundInSomeOrderExactly | regoservice/eval.go:78-95 | the search succeeds in some iteration order if and only if a map below the root holds the key |
| PackageTree.OrderMattersExactly | regoservice/eval.go:79-92 | two iteration orders give different outcomes if and only if the key is held below and some order can miss it |
| PackageTree.MissesExactlyWhatIsNotThere | regoservice/eval.go:79-92 | if maps without the key have only maps below them, nothing is found exactly when no descendant holds the key |

## Left out

- BoltDB itself: a bucket is a map with byte-sorted keys and atomic updates, and the only database error is the empty key. Open and write failures, limits on key and value sizes, and a process that dies between the message and its expiry entry are not modelled.
- JSON, YAML and Rego: the outcomes of the filter, of `Eval` and of `BuildAggregatedContent` are left open in `Pipeline`, and scans survive the queue's serialisation unchanged. Rego evaluators (`regoservice/eval.go` apart from the package search) are left out.
- Times: years beyond 9999, in which stamps change width, and the overflow of `time.Duration` in `calculateExpired`, whose result is an input of the store. The clock is an input of each sweep and may go backwards.
- Data races: a read or a write of `route.Scheduling` is one step. `Pipeline` has one configuration, in which a route keeps its object; what replaced routes do across a reload is in `Router`.
- Update in place of the route and router objects: `Pipeline` and `Router` are step machines on values, because their goroutines interleave.
- Router: outputs and their `Terminate`, the set-up of templates and outputs, and the old ticker that is never stopped. Clearing the fields is one step of a `Start`, loading and starting the goroutines is another; only one reload at a time gets there. The `Terminate` of the main goroutine at shutdown is a reload that stops before its `Start`.
- KeyCollisions.KeyIdentifiesMessagesExactly: does not cover lists that name a property twice and also one on the path to a different one, because the outcome then depends on how `%v` renders objects.
- Slack: the JSON text of the blocks. Tables on which an index is out of range, where the code panics, are excluded by `InRange`.
- Splunk: the record's JSON text is an arbitrary function of the scan; HTTP and its response are left out, and so are posts to Slack beyond being accepted or not.
- `strings.ToLower` on text outside ASCII, `data.ClearField`, `%v` of values, and the tags of the layouts are parameters or apply to ASCII only.
- All senders, the web server, the UI apart from the reader of the counters, and the output builders.
