# HangupsBot: a verified model of its stateful engines

The bot relays messages between Hangouts conversations and other platforms.
This project models the parts of it whose correctness depends on shared mutable
state, on interleavings, or on recursion, and proves what they promise.

| files | what they model |
|---|---|
| `SendingQueue`, `SendingLoop`, `SendingRuns`, `SendingReleases`, `SendingOutcomes`, `SendingBlocks`, `SendingDrain` | the sending queues: a list, a lock, counters and blocks shared by all queues of a platform, processor tasks that create their successors. The code between two awaits is one atomic step; a run is any order of such steps, chosen by an adversary |
| `ConfigTree`, `ConfigReplace`, `ConfigPaths`, `ConfigStore` | the config: nested dicts and lists on the heap. A ghost shape says which object is where, so that both the JSON content and the identity of the objects that other code refers to are stated |
| `Routing` | which conversations a message reaches: room sync and forwarding ask each other for further targets |
| `Relay` | one round of deliveries, whose handlers run concurrently and share one set of previous targets |
| `Tagging` | the tag index: four dictionaries kept in step with the tags in memory, and the cascading lookups |
| `ConvQuery`, `ConvSearch` | the query language for conversations: its parser, and the evaluator that swaps and aliases two dictionaries |
| `SlackRates`, `SlackPause`, `SlackSplit` | reserved slots of rate-limited api methods, the pause of a channel over the runs of its queue, the splitting of long messages |
| `Commands` | which commands a user may run |
| `TimeoutCache` | entries with deadlines, cleanup, and the way to memory and back |
| `Markdown` | escaping of texts and links |
| `Wrappers` | optional values |

`dafny verify dfyconfig.toml` (Dafny 4.11) checks the whole project.

## What turned out not to hold

Each of these is stated together with the exact condition under which the code
does what it is meant to.

- `release_block()` for all groups, which is called on every connect
  (`hangupsbot/core.py:600`), forgets the counters and blocks of live queues. A
  processor then fails when it counts down and creates no successor. Some
  continuation strands an item of a queue exactly if the release found two
  unanswered items in it (`SendingReleases.ReleaseAllStrandsIff`), and some
  continuation drops a ticket without an answer exactly if its queue has no block
  of its own and a processor was going to look at the block of the group for it
  (`SendingReleases.ReleaseAllDropsIff`). Runs whose
  releases find neither keep every wake-up and every ticket.
- A release sets or forgets counters without looking at the work that is left.
  The counters stay exact exactly if nothing is outstanding in what is released:
  `SendingDrain.CountersStayExactIff`. Otherwise a stop may leave with nothing
  answered: `SendingDrain.ReleaseFoolsStop`.
- The retry window of a blocked item has 51 checks, not 50, because 0.1 is added
  to a double until it reaches 5.
- Room sync and forwarding only skip their immediate caller, so their mutual
  recursion need not end. It ends exactly if a rank on pairs of a provider and a
  conversation drops along every hop that it can reach
  (`Routing.RecursionEndsIff`), and it hits every recursion limit exactly if there
  is none (`Routing.EveryLimitIsHitIff`); a forward into a room of its own source
  is such a case (`Routing.ForwardsBackAreUnbounded`). A call at the limit raises
  an exception that `_get_handler_results` drops, with the targets behind it.
- The documentation of `get_by_path` names only KeyError and ValueError. A path
  through something that is no dict raises a TypeError, past the defaults; the
  model follows the code.
- `purge` of a user or conversation raises in the middle if a matching key names
  a conversation or user that no longer exists. It completes exactly if all of
  them do: `Tagging.Tags.Purge`.
- The loop that splits a Slack message does not end if a line break is followed
  by a line that is too long to be taken with it: `SlackSplit.EndsIff`.
- A Retry-After header with a negative number lets slots come too early, and
  only such a header does: `SlackRates.NegativeDemandsBreakSpacing`.
- An `add` fails because of an expired entry that no cleanup has removed yet,
  and exactly then a cleanup is visible: `TimeoutCache.StaleAddsShowCleanups`.
- In a query an unclosed bracket gives two terms, and a term comes back from the
  parser exactly if it neither holds nor hides a closing bracket:
  `ConvQuery.PrintThenParse`.
- Admins may be offered commands that are not loaded, exactly in the default
  setting with such plugin commands: `Commands.AdminsPartition`.

## Model

| member | source | states |
|---|---|---|
| SendingQueue.Shared.ReleaseBlock | hangupsbot/sync/sending_queue.py:165-178 | one group loses its block and its count, or all groups are forgotten |
| SendingQueue.Queue.constructor | hangupsbot/sync/sending_queue.py:52-63 | an empty queue; an active block and a running count of the group are kept |
| SendingQueue.Queue.Schedule | hangupsbot/sync/sending_queue.py:85-100 | the item goes to the end with a new ticket and the present block, one more task and one more pending; a KeyError without a counter changes nothing |
| SendingQueue.Queue.ProcessStart | hangupsbot/sync/sending_queue.py:180-201 | the stretch up to the first await is the step Started of the state machine, on the queue and on the shared dictionaries |
| SendingQueue.Queue.ProcessWake | hangupsbot/sync/sending_queue.py:193-209 | the stretch after a sleep is the step Woken: released, still blocked, or given up after the retry window |
| SendingQueue.Queue.ProcessSent | hangupsbot/sync/sending_queue.py:206-228 | the stretch after a send is the step Sent: the Status is set, to true exactly if the send returned nothing or something true; the count goes down, the lock is free, a successor starts |
| SendingRuns.AtMostOneInHand | hangupsbot/sync/sending_queue.py:76-83 | in every run at most one item of a queue is in hand, namely when the lock is taken, whatever is blocked or released |
| SendingRuns.WakeUpsAreKept | hangupsbot/sync/sending_queue.py:85-100 | in every run whose releases of all blocks find at most one unanswered item per queue, a queue with items has a processor at work or one about to start |
| SendingReleases.ReleaseAllStrandsIff | hangupsbot/sync/sending_queue.py:173-175 | for every state of the machine: some continuation after the release leaves items of a queue that nobody will take, if and only if the queue has two unanswered items (or is stranded already) |
| SendingReleases.ReleaseAllDropsIff | hangupsbot/sync/sending_queue.py:196-199 | for every state of the machine: some continuation after the release drops a ticket unanswered, if and only if its queue has no block of its own and a processor is going to look at the block for it |
| SendingReleases.ReleaseAllLosesWakeUp | hangupsbot/sync/sending_queue.py:225-228 | a run reaches a release after which an item is stranded |
| SendingRuns.TicketsAreAccounted | hangupsbot/sync/sending_queue.py:180-228 | conservation: in every run a handed out Status is queued, in hand or answered at most once, and in exactly one place if no release of all blocks found a ticket that it can drop |
| SendingRuns.TicketsAreSafe | hangupsbot/sync/sending_queue.py:191-203 | after such runs no ticket is about to be dropped, whichever groups have no block |
| SendingLoop.EventLoop.Perform | hangupsbot/sync/sending_queue.py:52-228 | every event, performed on the queue objects and their shared class attributes, is the step of the state machine that the runs consist of |
| SendingRuns.AnswersAreFinal | hangupsbot/sync/sending_queue.py:24-38 | a Status is set at most once and keeps its value |
| SendingRuns.OrderIsKept | hangupsbot/sync/sending_queue.py:96-98 | first in, first out: the items taken followed by the items queued are the items scheduled, and the one in hand is the last one taken |
| SendingOutcomes.EveryAnswerHasACause | hangupsbot/sync/sending_queue.py:191-222 | in every run a set Status belongs to exactly one send, after no block or a release in time, and is true exactly if that send returned nothing or something true; or it is a failure without a send, after a block on scheduling and at all 51 checks |
| SendingOutcomes.LifeFits | hangupsbot/sync/sending_queue.py:191-222 | the invariant behind it, for queued, waiting, sending and answered items |
| SendingBlocks.BlockedExactlyInForce | hangupsbot/sync/sending_queue.py:65-74 | in every run a queue is blocked exactly if its instance ever was, or a block of its group or of all queues was set and not released since |
| SendingBlocks.BlocksAreInForce | hangupsbot/sync/sending_queue.py:165-178 | the shared dictionary holds a block exactly if it was set and nothing has released it since |
| SendingDrain.CountersStayExactIff | hangupsbot/sync/sending_queue.py:93-94 | every event keeps the counter of each group equal to its queued items and items in hand, and groups without a counter idle; a release of a group or of all does so if and only if nothing is outstanding in what it releases |
| SendingDrain.CountersAreExact | hangupsbot/sync/sending_queue.py:225-226 | after every run with only such releases the counters are exact and never negative |
| SendingDrain.SettledIsLossless | hangupsbot/sync/sending_queue.py:165-178 | such runs drop no ticket and lose no wake-up |
| SendingDrain.IdleQueueHasAnswered | hangupsbot/sync/sending_queue.py:102-120 | when single_stop sees an empty list and a free lock, every item the queue was ever given has its answer |
| SendingDrain.StoppedGroupHasAnswered | hangupsbot/sync/sending_queue.py:122-144 | when local_stop leaves through its counter test, every item ever given to any queue of the group has its answer |
| SendingDrain.ReleaseFoolsStop | hangupsbot/sync/sending_queue.py:176-178 | a concrete run in which a release with an item queued lets that test pass with nothing answered |
| SendingDrain.RunsDrain | hangupsbot/sync/sending_queue.py:180-228 | without new items every run has at most as many processor steps as there is work, in any order and under any blocks |
| SendingDrain.QuiescentMeansAnswered | hangupsbot/sync/sending_queue.py:180-228 | when no processor can move any more, all queues are empty and exactly the handed out Status objects are set, in runs whose releases strand and drop nothing |
| ConfigReplace.ReplaceKeys | hangupsbot/config.py:174-183 | deleted keys go, new ones come, the common ones still hold the old values |
| ConfigReplace.ReplaceList | hangupsbot/config.py:198-201 | the old list object holds the new items |
| ConfigReplace.DeepReplace | hangupsbot/config.py:162-204 | on two disjoint trees the heap afterwards has the shape Replaced; only objects of the old tree are written |
| ConfigTree.WalkByKeys | hangupsbot/config.py:330-332 | what a lookup is, key by key from the root: a dict leads on, lacks the key, or is no dict, and what failed stays failed |
| ConfigTree.ReplacedContent | hangupsbot/config.py:165-170 | the content of that shape is the new content, for any two structures |
| ConfigTree.ReplacedIdentity | hangupsbot/config.py:165-170 | each path with a dict on both sides, or a list on both, holds the old object, every other place what the new structure has |
| ConfigTree.ReplacedIsTree | hangupsbot/config.py:162-204 | the result is a tree again, built of objects of the two |
| ConfigStore.Config.UpdateDeep | hangupsbot/config.py:145-207 | reloading keeps the root dict and the defaults and takes over the loaded content |
| ConfigStore.GetIn | hangupsbot/config.py:316-332 | the loop of item accesses returns what the path leads to, or raises KeyError or TypeError by its first failing key |
| ConfigStore.Config.GetByPath | hangupsbot/config.py:259-283 | only a missing key falls back to the defaults |
| ConfigStore.Config.Exists | hangupsbot/config.py:366-382 | true exactly if the path resolves in the config |
| ConfigStore.Config.EnsurePath | hangupsbot/config.py:384-417 | it raises exactly if the path leads through something that is no dict, and then has changed nothing; otherwise only prefixes of the path were created, and no old object is written but the last dict that existed |
| ConfigStore.Config.SetByPath | hangupsbot/config.py:285-299 | how it ends is decided by the config beforehand: created, it fails exactly below something that is no dict, else it needs a dict above the last key; on success the value is found at the path, prefixes stay the same objects, every unrelated path resolves or fails as before; on an error nothing has changed |
| ConfigStore.Config.PopByPath | hangupsbot/config.py:301-313 | returns what was there, and exactly that entry is gone; a KeyError exactly if a key is missing, and on any error nothing has changed |
| ConfigPaths.PutWalk | hangupsbot/config.py:297-299 | storing then looking up: the value at its path, its parts below, the same objects above, and everything unrelated as before |
| ConfigPaths.CutWalk | hangupsbot/config.py:313-313 | after a pop nothing is found at or below the path, and everything unrelated is as before |
| ConfigPaths.GrowMore | hangupsbot/config.py:409-413 | one more fresh dict keeps the claim that only prefixes of the path were created |
| ConfigPaths.GrewAssigned | hangupsbot/config.py:296-299 | creating a path and then storing at it is an assignment at that path in the original config |
| ConfigStore.Config.Validate | hangupsbot/config.py:451-472 | every path of the source resolves: to the old value if it may stand there (a dict for a dict, a list for a list, a scalar of the same kind, a bool for an int), and else to the value of the source; a path with the right types on the whole way resolves, or fails, as before; no object of the source is written, though the config may share them afterwards |
| ConfigStore.Config.ValidateTwice | hangupsbot/config.py:451-472 | a second validation with the same source, parts of which the first one stored in the config, writes to no object |
| ConfigStore.Config.ValidateDict | hangupsbot/config.py:462-472 | the dict at a path becomes the validated one, and every other path is untouched |
| ConfigPaths.ValidatedIsTyped | hangupsbot/config.py:452-455 | every path of the source resolves in the validated shape, with the type of the source |
| ConfigPaths.ValidatedHolds | hangupsbot/config.py:464-472 | on the validated shape: each path of the source holds the old value where it may stand, and else the source's |
| ConfigPaths.ValidatedKeeps | hangupsbot/config.py:464-472 | a value of the right type on the whole way is the same value afterwards |
| ConfigPaths.ValidatedOutside | hangupsbot/config.py:464-472 | paths that the source does not have resolve, or fail, as before |
| ConfigPaths.ValidatedStays | hangupsbot/config.py:464-472 | with the right types on the whole way any path resolves, or fails, as before |
| ConfigPaths.ValidatedTwice | hangupsbot/config.py:451-472 | validating the validated shape changes no path |
| Routing.RoomTargets | hangupsbot/plugins/syncrooms.py:11-45 | exactly the conversations on alternating routes that start with a room hop, without the source |
| Routing.ForwardTargets | hangupsbot/plugins/forwarding.py:27-51 | exactly the conversations on alternating routes that start with a forward, without the source |
| Routing.HandlerResults | hangupsbot/sync/handler.py:1040-1087 | what the providers owe together, where a provider at the recursion limit is left out |
| Routing.GetSyncedConversations | hangupsbot/sync/handler.py:432-467 | without a recursion limit, where a rank shows that the recursion ends: exactly the conversations on alternating routes of any length, each once, with the source first if it was asked for; with a limit the routes within it, and the limit is hit exactly if some route has that many hops |
| Routing.ReachesByHop | hangupsbot/plugins/syncrooms.py:34-45 | reaching unfolds into one hop and a route that starts with the other provider |
| Routing.RoutesAlternate | hangupsbot/plugins/forwarding.py:27-51 | routes in terms of the setup: a shared room of a loaded and enabled sync, or the forwards of the conversation (those for all if it has none), in turns |
| Routing.SyncedInWords | hangupsbot/sync/handler.py:432-467 | what is reached without a limit: the conversations at the end of such an alternating route of at least one step, other than the source |
| Routing.RankBoundsRoutes | hangupsbot/plugins/forwarding.py:43-49 | with a rank on pairs that drops along reachable hops, a route has no more hops than the rank of its start |
| Routing.RecursionEndsIff | hangupsbot/plugins/syncrooms.py:34-45 | all routes for a caller are bounded if and only if such a rank exists |
| Routing.EveryLimitIsHitIff | hangupsbot/sync/handler.py:1062-1071 | every recursion limit is hit if and only if they are not bounded |
| Routing.LimitsAboveTheRank | hangupsbot/sync/handler.py:432-467 | a limit above the rank is not hit, and the result is the one without a limit |
| Routing.ConversationRankFalls | hangupsbot/plugins/forwarding.py:43-49 | a rank of conversations that is equal inside rooms and drops along forwards is enough |
| Routing.ForwardsBackAreUnbounded | hangupsbot/plugins/syncrooms.py:21-23 | in every setup, a forward into a room that holds its own source gives routes of every length |
| Relay.QueuedAtMostOnce | hangupsbot/plugins/slackrtm/core.py:921-925 | for every interleaving of the handlers, even if some fail, no destination is queued twice, and none that was a previous target or is muted |
| Relay.QueuedExactlyOnce | hangupsbot/sync/handler.py:155-202 | a round that ended without a failed handler queued exactly the destinations that are neither, and has them all among the previous targets |
| Relay.RoundsEnd | hangupsbot/sync/handler.py:155-202 | every event brings a round closer to its end, and only a round that is over has none |
| Relay.StagesForTags | hangupsbot/sync/handler.py:155-178 | the stages of a message visit the Hangouts tag of each target and all channels synced with it, and nothing else |
| Relay.EveryTargetOnce | hangupsbot/sync/handler.py:155-202 | each target conversation and each of its channels gets the message exactly once, unless it is a previous target or muted |
| Relay.PreviousTargets.SendToHo | hangupsbot/sync/handler.py:916-951 | a message is queued exactly if its tag is new, not muted and has text; the tag is taken either way, what is queued goes to that conversation and is marked not to be relayed |
| Relay.HandleSending | hangupsbot/sync/handler.py:758-790 | a marked message starts no round and all go out directly; otherwise those with an image go out directly, as often as they were given, and no others; each message gets a round whose previous targets leave out exactly its own conversation, or none if it has an image |
| Relay.WithImageSends | hangupsbot/sync/handler.py:774-784 | the messages to be sent directly, counted: each with an image as often as before, each without one never |
| Relay.BroadcastsAreServedOnce | hangupsbot/sync/handler.py:774-790 | what direct messages and rounds deliver together: each unmuted broadcast goes out directly or is queued by its own round, never both and never neither, and no other round queues it |
| Tagging.DroppedHas | hangupsbot/tagging.py:75-77 | removing from a list without duplicates takes away that value and no other |
| Tagging.Split | hangupsbot/tagging.py:114-114 | an id splits at its first bar if it has one, and the two parts make up the id |
| Tagging.KeysAreUnique | hangupsbot/tagging.py:53-55 | a key made of conversation and user is read in one way only, and is no plain id |
| Tagging.AddedToKeeps | hangupsbot/tagging.py:57-69 | adding a pair keeps both directions inverse, without duplicates and empty buckets, and relates that pair besides the others |
| Tagging.RemovedFromKeeps | hangupsbot/tagging.py:71-87 | removing a pair keeps the same, and relates every pair but that one |
| Tagging.Tags.AddToIndex | hangupsbot/tagging.py:57-69 | both dictionaries of the kind get the pair |
| Tagging.Tags.RemoveFromIndex | hangupsbot/tagging.py:71-87 | both dictionaries of the kind lose it, and empty lists go |
| Tagging.Tags.RefreshIndices | hangupsbot/tagging.py:33-55 | from whatever state, the index is clean, its directions are inverse, and it relates exactly what the memory does |
| Tagging.Tags.constructor | hangupsbot/tagging.py:23-24 | the index starts in agreement with the memory |
| Tagging.WithTagsTagged | hangupsbot/tagging.py:163-175 | storing the tags of an id changes the memory's relation for that id only |
| Tagging.WriteKeeps | hangupsbot/tagging.py:143-175 | memory and index stay in agreement when both get, or both lose, the same pair |
| Tagging.Tags.Update | hangupsbot/tagging.py:89-184 | it raises exactly for bad tags and for ids that name no conversation, user or pair of the two, wildcards included, and then changes nothing; otherwise exactly the one pair is added or removed, in memory and index alike, and the result says whether it was missing or there |
| Tagging.NamesRefer | hangupsbot/tagging.py:101-129 | which ids each type knows: conversations and their types, users, pairs of both, with the wildcards |
| Tagging.Collect | hangupsbot/tagging.py:199-222 | the pairs to purge, each once |
| Tagging.MatchesInWords | hangupsbot/tagging.py:204-212 | which keys a purge matches: for a user its own key and its key in any conversation, for its overrides only the latter |
| Tagging.Tags.Purge | hangupsbot/tagging.py:194-248 | for one named conversation or user: it completes exactly if every matching key still names something, has then removed the matching pairs and no other and returns their number: the tags of that conversation, or of that user in every conversation and, if asked for, outside of them; aborted it has removed matching pairs only; index and memory agree in any case |
| Tagging.Tags.CompletesInWords | hangupsbot/tagging.py:238-248 | every matching key names something exactly if the conversations of the user's tagged overrides, and the user, are known or wildcards |
| Tagging.Cascade | hangupsbot/tagging.py:268-273 | the loop with its break gives the tags of the first listed key if it does not ask to merge, and else those of all listed keys |
| Tagging.CascadeReadsMemory | hangupsbot/tagging.py:319-323 | because no bucket is empty, that is a statement about the tags in memory |
| Tagging.FirstSettles | hangupsbot/tagging.py:319-323 | a first key that has tags and none that asks to merge decides alone |
| Tagging.Tags.ConvActive | hangupsbot/tagging.py:250-275 | the active tags of a conversation, from the tags in memory: its own decide, then those of its type, then the wildcard's; its own alone if they do not ask to merge; none for unknown conversations |
| Tagging.Tags.UserActive | hangupsbot/tagging.py:277-325 | the active tags of a user, from the tags in memory: in a known conversation those of the user there decide, then of all users there, then the same for the type of the conversation, then those of the user, then the wildcard's; the first alone if they do not ask to merge; none for unknown users |
| ConvQuery.FirstClose | hangupsbot/permamem.py:473-473 | the leftmost match of the expression for an unescaped closing bracket |
| ConvQuery.ParseRequest | hangupsbot/permamem.py:469-493 | the consuming loop ends and returns the terms of the recursive reading, with the error for a wrong connective |
| ConvQuery.ClosesAtTheEnd | hangupsbot/permamem.py:473-474 | the bracket of a printed term is the first match if and only if the term neither holds nor hides a closing bracket |
| ConvQuery.SealedInWords | hangupsbot/permamem.py:473-473 | a term neither holds nor hides a closing bracket exactly if each closing bracket in it follows an odd number of backslashes and it does not end with one |
| ConvQuery.EvenRunsAreDropped | hangupsbot/permamem.py:473-474 | an even number of backslashes before the closing bracket belongs to the match and is lost |
| ConvQuery.PrintThenParse | hangupsbot/permamem.py:469-495 | printing terms and parsing the text gives the same operators and terms, if and only if all of them are like that |
| ConvQuery.PlainIsSealed | hangupsbot/permamem.py:473-473 | terms without closing brackets and backslashes are |
| ConvQuery.TwoTermsAreRead | hangupsbot/permamem.py:476-489 | two terms joined by and or or, in any case and with any spaces, are read with that operator |
| ConvQuery.UnclosedIsReadTwice | hangupsbot/permamem.py:471-495 | without a closing bracket the text is read as two terms, without its bracket and with it |
| ConvQuery.WrongConnectives | hangupsbot/permamem.py:490-492 | anything else after a closing bracket is an error |
| ConvQuery.InterpretAll | hangupsbot/permamem.py:497-505 | every term gets the filter of its name, none for an unknown name, and the id filter without a colon |
| ConvQuery.NamesAreRead | hangupsbot/permamem.py:499-502 | a name before the first colon is read back, whatever the query holds |
| ConvQuery.FiltersByName | hangupsbot/permamem.py:497-505 | each of the eight names selects its filter, whatever the query |
| ConvQuery.BareTermsAreIds | hangupsbot/permamem.py:503-504 | a term without a colon asks for an id |
| ConvQuery.UnknownNames | hangupsbot/permamem.py:499-502 | any other name selects no filter |
| ConvQuery.QueriesAreRead | hangupsbot/permamem.py:469-505 | a query written out of valid terms is read as exactly these terms |
| ConvSearch.Get | hangupsbot/permamem.py:582-605 | the loop returns exactly the conversations that satisfy the conjunction of the or-groups, in a fresh dict; it raises exactly if a filter raises on a conversation that the earlier groups left in; the catalog is unchanged |
| ConvSearch.SatisfiesInWords | hangupsbot/permamem.py:586-604 | the or-groups written out: from the start and from every valid and-term on, some valid term before the next one is blank or accepts the conversation |
| ConvSearch.GroupIsDecided | hangupsbot/permamem.py:594-596 | when an and-term swaps the dictionaries, what was matched is what satisfies the group |
| ConvSearch.SourceIsReached | hangupsbot/permamem.py:602-604 | the first dictionary holds exactly the conversations that satisfy all closed groups |
| ConvSearch.Search | hangupsbot/permamem.py:438-605 | the whole of get: the conversations that satisfy what the text is read as, or one of its two errors |
| SlackRates.SlackClient.Start | hangupsbot/plugins/slackrtm/core.py:400-413 | the sleep is the delay asked for, or ends exactly one limit after the last slot if that is later; its end is recorded as the slot; other methods sleep as long as asked |
| SlackRates.SlackClient.Refuse | hangupsbot/plugins/slackrtm/core.py:432-445 | the repeated call gets the earliest slot that is the demanded time and the limit after the last slot and after the refusal; without a header 30 seconds are demanded |
| SlackRates.SlotsAreSpaced | hangupsbot/plugins/slackrtm/core.py:404-409 | for every interleaving of calls and refusals, n slots later is at least n limits later, whatever the clock shows |
| SlackRates.SlotsAreNotPast | hangupsbot/plugins/slackrtm/core.py:406-409 | no slot lies before the time of its reservation plus the delay asked for |
| SlackRates.RefusalsAreHonoured | hangupsbot/plugins/slackrtm/core.py:439-445 | after a refusal every later slot of the method, of whatever call, is the demanded time and the limit away |
| SlackRates.NegativeDemandsBreakSpacing | hangupsbot/plugins/slackrtm/core.py:434-443 | the repeated call keeps its distance and is not past, for all limits and times, if and only if the demanded time is not negative |
| SlackPause.MessagesPause | hangupsbot/plugins/slackrtm/sending_queue.py:20-30 | in every run of the queues, between two sends of a channel the first one ends, and the second starts at least a second after that |
| SlackPause.FieldIsLate | hangupsbot/plugins/slackrtm/sending_queue.py:29-30 | the field of the queue is at least a second after every end of a send so far |
| SlackRates.ChannelQueue.Send | hangupsbot/plugins/slackrtm/sending_queue.py:20-30 | it starts no earlier than allowed and sets the time for the next one |
| SlackSplit.EndsIff | hangupsbot/plugins/slackrtm/core.py:480-483 | the loop ends for a text if and only if no line break is followed by a line too long to be taken with it |
| SlackSplit.ShortLinesEnd | hangupsbot/plugins/slackrtm/core.py:480-483 | lines of at most 39997 characters after the first are enough |
| SlackSplit.Channel.SendMessage | hangupsbot/plugins/slackrtm/core.py:480-486 | the parts go to the end of the queue in order, none is longer than the limit, together they are the text, each ends before the last line break it could reach or is of full length, and only the last carries the attachments |
| Commands.MergeTags | hangupsbot/commands/__init__.py:106-114 | the tag sets of config and plugins, without config entries for commands that are not loaded |
| Commands.TryGrants | hangupsbot/commands/__init__.py:150-160 | whatever the order of the tag sets and despite the break: denied exactly if one is revoked, and else granted exactly if one is held |
| Commands.TagsInWords | hangupsbot/commands/__init__.py:150-160 | a command is granted, or revoked, exactly if the user has all tags, or all tags with the deny prefix, of one of its tag sets from config or plugins |
| Commands.GetAvailableCommands | hangupsbot/commands/__init__.py:93-167 | whatever the order of commands and tags: for an admin both parts in each of the four settings; for others exactly the granted commands that are not revoked, and as user commands exactly the loaded ones that the setting opens and no revocation takes, none of them tagged under escalation; the two parts are disjoint |
| Commands.AdminsPartition | hangupsbot/commands/__init__.py:116-137 | an admin's two parts make up the loaded commands if and only if the default setting does not bring in admin commands that are not loaded |
| Commands.OnlyRevocationsTake | hangupsbot/commands/__init__.py:150-163 | a further tag never takes a command away unless it completes a revocation |
| Commands.RevocationsLast | hangupsbot/commands/__init__.py:156-163 | a revoked command stays out whatever tags are added |
| TimeoutCache.Cache.Get | hangupsbot/utils/cache.py:89-119 | a hit exactly if the deadline has not passed; a hit moves the deadline to the timeout from now, if accesses do so, or pops; a late access drops the entry; no other entry changes |
| TimeoutCache.Cache.Add | hangupsbot/utils/cache.py:121-144 | the entry is stored exactly if the id is free, with the deadline given or the timeout from now |
| TimeoutCache.Cache.Cleanup | hangupsbot/utils/cache.py:150-160 | exactly the expired entries go |
| TimeoutCache.Cache.Load | hangupsbot/utils/cache.py:162-168 | entries of memory join, those that are there already win |
| TimeoutCache.Cache.Dump | hangupsbot/utils/cache.py:174-200 | memory is replaced unless only new items count and there are none |
| TimeoutCache.HitsAreInTime | hangupsbot/utils/cache.py:104-119 | after any run of gets, pops, adds and cleanups on any ids, a get hits if and only if the entry was stored at some point and neither this access nor one since then came after the deadline, as accesses move it, or popped it |
| TimeoutCache.MovedInWords | hangupsbot/utils/cache.py:33-43 | an entry outlives a run exactly if no access popped it and each came by the deadline or, where accesses move it, within the timeout after the access before; its deadline is then counted from the last access |
| TimeoutCache.CleanupsAreInvisible | hangupsbot/utils/cache.py:150-160 | over every run of gets and adds with a clock, leaving out all cleanups changes no answer, as long as no add meets an expired entry |
| TimeoutCache.StaleAddsShowCleanups | hangupsbot/utils/cache.py:133-134 | a cleanup before an add changes its answer if and only if the add meets an expired entry of its id |
| TimeoutCache.FlushThenLoad | hangupsbot/utils/cache.py:162-200 | a flush and a load into an empty cache give the same entries if and only if no deadline is taken for a missing one |
| TimeoutCache.SessionsKeepDates | hangupsbot/utils/cache.py:136-143 | with a clock after its epoch and no negative timeouts no cache that can come about holds such a deadline |
| TimeoutCache.RestartsKeepEntries | hangupsbot/utils/cache.py:162-210 | so a restart gives back every cache that can come about |
| Markdown.EscapeThenUnescape | hangupsbot/sync/parser.py:173-194 | unescaping an escaped text gives the text |
| Markdown.UnescapeIsIdentityIff | hangupsbot/sync/parser.py:173-182 | unescaping leaves exactly the texts alone in which no backslash precedes a special character |
| Markdown.SpecialCharacters | hangupsbot/sync/parser.py:131-134 | exactly the seven special characters get a backslash, or their percent-encoding in a link |
| Markdown.ReplacingKeepsLinks | hangupsbot/sync/parser.py:197-225 | percent-decoding a link (section 2.1 of RFC 3986) gives the same before and after its markdown was replaced |
| Markdown.NothingSpecialIsLeft | hangupsbot/sync/parser.py:197-225 | a replaced link holds no special character |

## Left out

- Cancellation of processor tasks, and the eviction of queues from their cache: both leave a Status unset by design.
- The waiting loops of single_stop, local_stop and global_stop with their timeouts: only the tests through which they leave are modelled. global_stop is local_stop for each group.
- SendingQueue.Shared.ReleaseBlock: the Status objects are a map from tickets to values, so waiting on a Status is not part of the model.
- ConfigReplace.DeepReplace: the two structures are trees without shared objects, as parsed JSON is.
- ConfigStore.Config.Validate: modelled from the root of the config on. That entries of the source are stored by reference is captured; what a later change of the source through such an entry does to the config is not. set_defaults, get_option and get_suboption are left out.
- Reading and writing of files, backups, delayed saves and logging.
- Routing.GetSyncedConversations: only the flat result with unique ids. The interpreter's recursion limit is a parameter, counted in nested calls, and every other exception of a provider is left out.
- Relay.EveryTargetOnce: the handlers of a round are values, at the granularity of their awaits; a platform handler stands for any loop with the guard of the Slack handler. A failed delivery to Hangouts ends the round, other failures end their handler. Notified users, images and titles are left out.
- Relay.PreviousTargets.SendToHo: the await of the image between guard and queueing is the event Deliver of the rounds.
- Tagging.Tags.Purge: purging everything with the id ALL, and purging by tag. Both do something other than their documentation says (with ALL a key of a user in one conversation is passed on as a user, which raises, and so is such a key when purging by tag).
- Tagging.Tags.Update: which characters a tag may have is a parameter.
- ConvSearch.Get: what the filters compute is a parameter, for every term and conversation, which may also raise; so the result holds for any draw of the random filter.
- SlackRates.SlackClient.Start: times are real numbers, without the rounding of floats, and a sleep that lasts longer than asked delays the request beyond its slot. Errors other than refusals end a call and are left out.
- SlackSplit.Channel.SendMessage: requires that the text does not hang, because the loop does not end otherwise.
- Commands.GetAvailableCommands: the sets are values. In the source two of them may be one object, which is emptied or reduced through one name; it is not read through the other afterwards.
- TimeoutCache.Cache.Load: the clock is read once for all entries; it only matters for deadlines of 0. Timers and the reload listener are left out.
- Markdown.EscapeThenUnescape: the tokenizer of the third-party parser behind from_str.
- Network and library code, nicknames, invitations, lottery, reminders and the other small plugins.
