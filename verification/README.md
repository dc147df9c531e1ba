# A verified model of the client's state

This project models, in Dafny 4.11, the parts of a terminal chat client in which state outlives a
single call, and proves what they are there for.

**History.** The client keeps a bounded window of messages per channel. Gateway events change it in
order while history pages, requested earlier, arrive later. `Ring` is the circular buffer over its
cells, `Messages` what its operations mean for a bounded sequence. `History` gives the effect of
every store operation on one channel as a function; `MessageStore.Store` is the store that works by
assignment, proved against it. `HistoryProtocol` puts a server, its event queue, the client and any
number of requests together as a state machine; `HistorySafety`, `HistoryNewer`, `HistoryRollback`,
`HistoryTested` and `HistoryGate` prove what holds over all its runs, and `HistoryLoads.App` is the
code of the loads, proved to take the protocol's steps. `Tombstones`, `OlderPage` and `InitialPage`
are the three mechanisms the safety proof rests on; `HistoryOrder` says which messages a page leaves
in the window and in which order, without their terms.

**Directory.** `Directory`, `DirectoryStore` and `DirectoryRuns` are the guilds and channels with
their order, attention counts and generations; `DirectoryLoad` the loader that compares them;
`DirectoryLaws` says channel by channel what a removal leaves and what a page adds.

**Streams and text.** `KittyFramer` frames terminal output however reads cut it; `KittyRoundTrip`
writes such output down and reads it back. `GifPreflight` walks an encoded GIF (GIF89a specification,
sections 15, 17 to 23 and 27), `GifAcceptance` says what it accepts, `GifRoundTrip` encodes GIFs and
has them accepted. `Markup` specifies the message markup, `MarkupParser` is the scanner, `MarkupFinds`
finds each construct where it was written, `MarkupRoundTrip` proves the parser the inverse of a
printer, `MarkupNesting` says where that ends.

**Caches, layouts, plugins.** `ImageCache` is the decoded-image LRU. `GuildGroups` and `GuildOrder`
are the guild layout and its rows, `ChannelRows` the channel sidebar, `Sorting` the sort they share;
`GuildPlaces` and `ChannelPlaces` say what each row is and in which order the rows stand.
`PluginRegistry`, `PluginTimers` and `PluginRuntime` are the plugin registries with their owners, the
timers, and the single worker with its queue. `Search` and `Collections` hold what several need.

Functions state what happens on values; classes and methods with loops follow the code that works by
assignment and are proved equal to those functions; lemmas prove what the functions guarantee.

Verify with `dafny verify dfyconfig.toml`.

## Where the code departs from its intent

Each of these keeps the code as it is. Where a promise fails, an input shows it and an
if-and-only-if says when it holds.

- `removeByID` always shifts `size - 1` cells. With logical index k it overwrites live cells unless
  `k + size <= cap + 1`: `Messages.RemoveIsExactIff`. One such removal shows no ghost yet, but it
  repeats a message, and so does a create that confirms an echo of a message a page already brought:
  `HistorySafety.DeleteKeepsIdsIff`, `HistorySafety.CreateStandsOnceIff`. A delete leaves a ghost
  exactly when its message stands twice and nothing still to come accounts for it:
  `HistorySafety.DeleteShowsNoGhostIff`, with a whole run in `GhostRun.UnguardedRunShowsGhost`. The
  protocol uses the real removal throughout; over runs that condition, with the one on sends below, is
  exact: `HistorySafety.NeverShowsGhostsIff`.
- An update reaches only the first of two such entries, and the merge takes the last one for the live
  message, so a page loaded before an update can undo it: `GhostRun.CarelessRunUndoesEdit`. Exactly when
  a completion does so: `HistoryRollback.CompletionRollbackIff`, `HistoryRollback.PageRollbackIff`; while
  copies agree none does: `HistoryNewer.PagesNeverUndoNewerContent`, `HistoryNewer.StaysSoundIff`.
- `replaceByNonce` does not ask whether the entry it replaces is an echo, and nonces are chosen by
  whoever sends: a create takes the place of another confirmed message with the same nonce.
  `GhostRun.SharedNonceLosesMessage` is a run, `HistorySafety.CreateKeepsOthersIff` says exactly when.
- A REST send confirmation appends without asking for tombstones: `HistorySafety.ConfirmSendIsSafeIff`,
  and what it could ask for: `HistorySafety.CheckedRunsShowNoGhosts`.
- `SetMessages` with an empty page and surviving echoes reuses an old revision: `History.StepRevision`
  says exactly when, `History.EmptyPageReusesRevision` gives a run.
- A completion rejected on its generation alone leaves the load pending, for good unless the channel
  is deleted: `HistoryGate.CompletionReleasesIff`, `HistoryGate.StuckUntilChannelDelete`.
- Counts taken before a channel is hydrated, or carried to another guild, never reach the guild's
  count: `Directory.UpsertAgreesIff`, `DirectoryRuns.AlwaysAgreesIff`, `DirectoryRuns.EarlyPingIsLost`.
- The comment at `internal/app/app_directory.go:90-97` expects a directory load to be retried after a
  deletion. Every deletion handler also invalidates the gate, so such a load is dropped and nothing
  replaces it; only creations lead to retries: `DirectoryLoad.OutcomeIff`,
  `DirectoryLoad.DeletionStrandsTheLoad`.
- `nextGroupID` wraps around below the least 64-bit id: `GuildGroups.NextIDIsFresh`,
  `GuildGroups.WrappedIDCollides`.
- A wrapper around plain text, inside one of its own kind, does not come back from the markup parser,
  and inside one of another kind it does: `MarkupNesting.NestedComesBackIff`. With more wrappers
  around one another it may come back by accident: `MarkupNesting.DeeperNestingMayComeBack`.
- A heading that is nothing but text in two styles at once loses both, because its only inner span is
  of the kind of plain text: `MarkupNesting.StackedHeadingLosesStyles`. Every other heading keeps its
  styles: `MarkupRoundTrip.ParsingInvertsPrinting`.
- A command or key looked up while its plugin is still loading can call a closed state, and only
  then, which is why `internal/plugin/manager.go:46-48` asks that loading finish first:
  `PluginRuntime.HandlerMayCallClosedIff`, `PluginRuntime.CommandDuringStartupCallsClosedState`.

## Model

| member | source | states |
|---|---|---|
| `Messages.RemoveIsExactIff` | internal/store/ring.go:103-121 | What the removal's shift of `size - 1` cells leaves is the sequence without the k-th message if and only if `k + size <= cap + 1` |
| `Messages.RemoveKeepsIdsDistinctIff` | internal/store/ring.go:103-121 | Under the same condition, and only then, distinct nonzero ids stay distinct: otherwise a live message is overwritten and another repeated |
| `RingBuffer.RemovedCells` | internal/store/ring.go:103-121 | The cells after the shift, read from `start`, are exactly the sequence `Messages.AfterRemove`, overrun included |
| `RingBuffer.Ring.Push` | internal/store/ring.go:19-30 | The window after a push is the last `cap` messages of the old window followed by the new one |
| `RingBuffer.Ring.Copy` | internal/store/ring.go:37-46 | The copy is the logical sequence, oldest first |
| `RingBuffer.Ring.ReplaceByNonce` | internal/store/ring.go:49-56 | Only the first message with the nonce is replaced, with its revision; nothing changes when there is none |
| `RingBuffer.Ring.MarkFailed` | internal/store/ring.go:58-67 | Only the first message with the nonce becomes failed and not pending, at the new revision |
| `RingBuffer.Ring.UpdateById` | internal/store/ring.go:93-101 | Only the first message with the id is patched and restamped |
| `RingBuffer.Ring.RemoveById` | internal/store/ring.go:103-121 | The window after a removal is `AfterRemove` of the old one at the first match; unchanged when there is no match |
| `OlderPage.BoundedWithRoom` | internal/store/store.go:852-914 | With fewer protected messages than the limit, what is kept is an order-preserving selection of min(length, limit) messages with every protected one and the oldest combined one, so paging always advances |
| `OlderPage.BoundedWithoutRoom` | internal/store/store.go:852-876 | Otherwise exactly the newest `limit` protected messages are kept |
| `OlderPage.BoundedKeepsAllThatFits` | internal/store/store.go:852-914 | Everything is kept when everything fits |
| `OlderPage.BoundedKeepsNewest` | internal/store/store.go:884-914 | With room for two more than the protected messages the newest combined message is kept |
| `OlderPage.BoundedIff` | internal/store/store.go:852-914 | Place by place, an entry stays if and only if it is protected, or fewer of the others after it than the recent budget, or fewer of them before it than what is then left of the limit; when the protected ones alone fill the window, if and only if it is one of the newest of them |
| `OlderPage.CombinedIds` | internal/store/store.go:830-850 | The page adds no id already shown and none tombstoned, every other page id is there, and ids stay distinct |
| `OlderPage.FreshIsComplete` | internal/store/store.go:838-849 | Every page message that is neither known, tombstoned nor a duplicate of an earlier one is taken |
| `OlderPage.FreshPage` | internal/store/store.go:830-850 | The loop takes the page's messages that are neither tombstoned, known nor repeated, in order |
| `OlderPage.KeepWithRoom` | internal/store/store.go:884-914 | The three marking loops and the selecting loop compute the bounded selection |
| `OlderPage.KeepProtected` | internal/store/store.go:858-876 | The selecting loop without room computes the newest protected messages |
| `HistoryOrder.OlderPageComesFirst` | internal/store/store.go:826-915 | After an older page the window is, in two stretches, restamped page messages at increasing places of the page, each of them neither deleted nor shown nor repeated, and then restamped shown messages at increasing places of the window: an older page never lands below what is shown |
| `HistoryOrder.OlderPageAdvances` | internal/store/store.go:852-915 | Unless entries that may not be displaced fill the window, it then starts with the page's first message that is neither deleted nor shown, if there is one: paging moves on |
| `HistoryOrder.OlderPageAscends` | internal/store/store.go:826-915 | Ids that increase along the page and along the window still increase when every page message not shown is older than every shown one |
| `HistoryOrder.OlderPageIs` | internal/store/store.go:826-915 | The whole result: of the taken page messages in page order followed by the window, exactly those stay that are pending, failed or newer than the request, the newest others up to half of the limit and one place short of it, and the oldest others while places last; when the first kind fill the window, only the newest of those |
| `History.SetMessagesWindow` | internal/store/store.go:762-781 | A page installs the last history-limit entries of itself followed by the echoes it does not confirm |
| `History.StepRevision` | internal/store/store.go:397-400 | Every operation on a channel keeps its window bounded, and either leaves the messages alone, removes the window or gives it a revision above every earlier one, if and only if it is not an empty page over a window that shows an unconfirmed echo and something else or under another revision |
| `History.SetEmptyPageRevision` | internal/store/store.go:764-779 | An empty page never draws a revision: with surviving echoes the window gets an old one |
| `History.EmptyPageSameWindowIff` | internal/store/store.go:762-781 | Over a shown echo an empty page leaves the window as it is if and only if it shows nothing but unconfirmed echoes and has the revision of the newest of them |
| `History.EqualRevisionsEqualMessages` | internal/store/store.go:979-985 | In a run without such a step, equal message revisions at two moments mean equal messages, which the transcript cache at `internal/ui/chatview_transcript.go:137` relies on |
| `History.ReuseMisleads` | internal/store/store.go:764-779 | Whenever the step left out brings back the very revision the window had, the messages differ |
| `History.EmptyPageReusesRevision` | internal/store/store.go:764-779 | A run of two operations after two echoes that ends with the old revision and other messages: the law above fails without its condition |
| `Tombstones.TombstonesComplete` | internal/store/mutation.go:20-50 | In every reachable state each delete of the channel's lifetime, unless a create, a confirmed echo or a page brought the message back after it, is still tombstoned at its revision or at most the pruned watermark; the cache never exceeds the limit and every tombstone is newer than the watermark |
| `Tombstones.RemoveRemembers` | internal/store/mutation.go:20-50 | One more delete, with the eviction it may cause, forgets no earlier one |
| `Tombstones.TombstonesExact` | internal/store/mutation.go:20-64 | Over every run the tombstones are exactly the recorded deletes newer than the watermark, at their revisions; and the answer to a request is discarded if and only if a delete of this lifetime made after the request is covered by the watermark |
| `Tombstones.LiftsExactly` | internal/store/store.go:715-781 | An append, a confirmation or a page lifts exactly the tombstones of the ids it brings, and no other operation but a delete or a channel removal touches tombstones or watermark |
| `MessageStore.Store.AppendMessage` | internal/store/store.go:715-728 | Only this channel changes, to the specified history; the tombstone of the id is lifted |
| `MessageStore.Store.ReplaceMessage` | internal/store/store.go:936-952 | The echo with the nonce, in this channel, becomes the confirmed message at a fresh revision, if there is one |
| `MessageStore.Store.HandleMessageCreate` | internal/app/app_gateway_state.go:462-510 | A create confirms its echo, is ignored when the id is shown, and is appended otherwise |
| `MessageStore.Store.UpdateMessage` | internal/store/mutation.go:10-18 | A shown message is patched at a fresh revision; others change nothing |
| `MessageStore.Store.MarkMessageFailed` | internal/store/store.go:954-961 | The echo with the nonce is marked failed at a fresh revision |
| `MessageStore.Store.FindOldest` | internal/store/mutation.go:31-39 | The scan finds a tombstone with the least revision |
| `MessageStore.Store.RemoveMessage` | internal/store/mutation.go:20-50 | The delete is tombstoned, the oldest tombstones go and raise the watermark, and the window loses the message as the ring removes it |
| `MessageStore.Store.UnconfirmedEchoes` | internal/store/store.go:786-812 | The loops collect exactly the pending or failed messages whose nonce the page does not carry |
| `MessageStore.Store.SetMessages` | internal/store/store.go:762-781 | The page and the surviving echoes, pushed one by one, become the window specified |
| `MessageStore.Store.PrependMessagesSince` | internal/store/store.go:826-915 | The loops install the bounded selection of fresh page and current window, each message at a fresh revision, and nothing else changes; what that selection is and in which order: `HistoryOrder.OlderPageIs`, `HistoryOrder.OlderPageComesFirst` |
| `MessageStore.Store.RemoveChannelMessages` | internal/store/channels.go:28-46 | A channel delete drops window, tombstones and watermark and starts a new lifetime |
| `InitialPage.MergeIds` | internal/app/app_history.go:110-148 | The merged list has distinct ids, none tombstoned, and every entry stands for a page message or is a live message that may be kept |
| `InitialPage.MergeTakesNewer` | internal/app/app_history.go:110-148 | For an id on the page the live copy is taken exactly when its revision is newer than the request's |
| `InitialPage.MergeKeepsNewer` | internal/app/app_history.go:110-148 | No newer live message that is neither pending, failed nor tombstoned is lost |
| `InitialPage.MergeInitialHistory` | internal/app/app_history.go:110-148 | The two loops over page and window compute the merge; what it holds and in which order: `HistoryOrder.MergeInOrder` |
| `HistoryOrder.MergeInOrder` | internal/app/app_history.go:110-148 | The merge is, in two stretches, what the page's messages that are neither deleted nor repeated stand for, each the page message or the window's last copy of it when that is newer than the request, in page order; and then exactly the newer confirmed live messages that are not on the page, in window order |
| `HistoryOrder.InitialPageComesFirst` | internal/app/app_history.go:86-91 | With the merge installed, the window shows the page's part, then the newer live messages, then the client's own echoes, each in order; what the limit cuts is cut from the front, so no live message goes while a page message stays, and no echo while either does |
| `HistoryOrder.InitialPageAscends` | internal/app/app_history.go:86-91 | Ids that increase along the page and then along the newer live messages increase along the window |
| `LoadGate.GateIsExclusive` | internal/app/resource_gate.go:33-119 | Over every run of begins, completions, marks and invalidations of a key: at most one outstanding request has the current version, a load is pending exactly while there is one, and an older completion leaves the gate alone |
| `LoadGate.NextKeepsInv` | internal/app/resource_gate.go:33-119 | Each step keeps that invariant |
| `LoadGate.KeyedGate.BeginVersion` | internal/app/resource_gate.go:33-43 | Granted exactly when neither loaded nor pending; other keys stay as they were |
| `LoadGate.KeyedGate.BeginOlderVersion` | internal/app/resource_gate.go:50-60 | Granted exactly when neither pending nor exhausted; other keys stay as they were |
| `LoadGate.KeyedGate.FinishVersion` | internal/app/resource_gate.go:66-76 | Only a completion of the current version changes the key |
| `LoadGate.KeyedGate.FinishOlderVersion` | internal/app/resource_gate.go:82-92 | Only a completion of the current version changes the key |
| `LoadGate.KeyedGate.MarkKeyLoaded` | internal/app/resource_gate.go:94-99 | Loading from the gateway outdates every request of the key |
| `LoadGate.KeyedGate.InvalidateKey` | internal/app/resource_gate.go:109-115 | The key starts over at a new version |
| `HistorySafety.NextKeepsInv` | internal/app/app_history.go:56-148 | Every guarded move of server, gateway, client or request keeps the invariant behind the next row: what is shown is alive or its delete is queued, and every page message still to come and every message sent is covered by a tombstone, the watermark, a newer generation or a queued delete |
| `HistorySafety.NeverShowsGhostsIff` | internal/app/app_history.go:56-220 | Of all runs of in-order creates, whatever nonces they carry, updates and deletes, overrunning removals included, channel deletes and recreations, local echoes sent, accepted, confirmed or failed in any order, and initial or older loads whose pages are captured at any moment after the request: one shows at every moment only messages that are alive on the server or whose delete is still queued, if and only if each delete meets its message standing once or with another event queued that removes it, and each confirmed send is of a message not deleted for the client yet |
| `HistorySafety.GuardedRunsShowNoGhosts` | internal/app/app_history.go:56-220 | Such runs are enabled throughout and end with every message shown alive on the server or its delete still queued |
| `HistorySafety.DrainedRunsShowLiveMessages` | internal/app/gateway_handlers.go:12-18 | Once the queue of such a run is drained only messages alive on the server are shown |
| `HistorySafety.DeleteShowsNoGhostIff` | internal/store/ring.go:103-121 | Delivering a delete keeps that promise if and only if the message stands once in the window, or another queued event will still remove it |
| `HistorySafety.ConfirmDeleteShowsNoGhostIff` | internal/store/mutation.go:20-50 | The same of the client's own delete, confirmed by REST |
| `HistorySafety.DeleteKeepsIdsIff` | internal/store/ring.go:103-121 | One way to stand twice: in a window with distinct ids and no echoes, a delivered delete keeps ids distinct if and only if the shift of the ring's removal fits |
| `HistorySafety.CreateStandsOnceIff` | internal/store/store.go:936-952 | The other way: a create leaves its message standing once if and only if it confirms no echo, or no other entry, brought by a page, is that message already |
| `HistorySafety.CreateKeepsOthersIff` | internal/store/ring.go:49-56 | A create leaves every other shown message shown if and only if the entry it replaces, the first with its nonce, or the one it pushes out of a full window, is an echo, the message itself, or not the only copy of its message |
| `HistorySafety.ConfirmSendIsSafeIff` | internal/app/app_actions.go:206-236 | A REST send confirmation, which does not consult tombstones, shows no ghost if and only if the message is alive or its delete is still queued |
| `HistorySafety.CheckedSendIsSafe` | internal/app/app_actions.go:206-236 | With a snapshot as requests carry, an unchanged generation, a watermark not above its revision and no tombstone of the message make the confirmation safe: the check the code does not make |
| `HistorySafety.CheckedRunsShowNoGhosts` | internal/app/app_actions.go:206-236 | With that check in place of the condition on sends, every run whose deletes meet the condition shows no ghost |
| `GhostRun.UnguardedRunShowsGhost` | internal/store/ring.go:108-117 | A run with a full window of three whose newest message is deleted first ends, queue drained, showing a deleted message and not the live one |
| `GhostRun.CarelessRunUndoesEdit` | internal/app/app_history.go:110-148 | From the same beginning, an edit that reaches one of two copies is undone by a page loaded before it, with no event left to correct it |
| `GhostRun.SharedNonceLosesMessage` | internal/store/ring.go:49-56 | Two creates with the same nonce, delivered in order: the first message is alive, nothing is queued, the window has room, and it is not shown |
| `HistoryNewer.CompleteRollsNothingBack` | internal/app/app_history.go:56-148 | While repeated entries of a message agree and only echoes are flagged, a completion never shows an older content of a message than was shown before it, and keeps both |
| `HistoryNewer.PagesNeverUndoNewerContent` | internal/app/app_history.go:56-220 | The same at any completion after any run, ghosts and overrunning removals included, in which the next row's condition holds at every move: a stale page never undoes newer gateway state |
| `HistoryNewer.StaysSoundIff` | internal/store/mutation.go:10-18 | A move keeps repeated entries in agreement and only echoes flagged if and only if an update, create or confirmation writes what every other entry of the message already has, and a failed send finds an echo: conditions on the window before the move |
| `HistoryRollback.CompletionRollbackIff` | internal/app/app_history.go:56-220 | From any state, and so after any run, a completion leaves every message that stays shown at its version or a newer one if and only if it is not taken, or it passes the test of the rows below for its kind of page |
| `HistoryRollback.PageRollbackIff` | internal/app/app_history.go:110-148 | For any page over a window in which only echoes are flagged: installing the merge rolls nothing back if and only if every shown version of a message is at most the version of the entry merged for it, unless the limit cuts that entry off; known before the page is installed |
| `HistoryRollback.InitialRollbackIff` | internal/app/app_history.go:110-148 | The same over any window: a flagged copy that is shown again also counts |
| `HistoryRollback.MergeHolds` | internal/app/app_history.go:110-148 | Of each untombstoned message the merge has one entry: for a page message its first page copy, or the live copy when newer than the request; for another the first shown copy that is newer; and none of any other message |
| `HistoryRollback.OlderRollbackIff` | internal/store/store.go:826-915 | For any older page: nothing is rolled back if and only if of the copies of each shown message one at least as new is among the places that stay, or none is |
| `HistoryRollback.FittingOlderPageRollsNothingBack` | internal/store/store.go:826-915 | So an older page that fits beside the window never rolls anything back |
| `HistoryTested.TestedRunsKeepPromises` | internal/app/app_history.go:56-220 | Every run whose moves pass tests on the client's own store, that removals do not overrun, that no create replaces an entry beside another copy, that a failed send finds an echo and that a confirmed one passes the check above, shows no deleted message at any moment, shows every message once, and whatever page completes next rolls nothing back |
| `HistoryTested.NextKeepsOrderly` | internal/app/app_history.go:56-220 | A tested move meets both guards and keeps distinct ids with the invariants of the runs above |
| `HistoryGate.LoadsAreExclusive` | internal/app/app_history.go:34-106 | Over every run at most one history request is current per channel, and a completion that is not accepted changes neither gate nor store |
| `HistoryGate.CompletionReleasesIff` | internal/app/app_history.go:75-79 | Completing or failing the current request leaves the gate pending if and only if the channel's generation moved |
| `HistoryGate.CompletionDecidesNextLoad` | internal/app/app_history.go:75-96 | Once an accepted completion is in, a load is granted if and only if none had succeeded and this was an older page or a discarded one; a load of older messages if and only if history was not exhausted, the window starts with a confirmed message, and the page was discarded or came back full, under a positive limit |
| `HistoryGate.StuckUntilChannelDelete` | internal/app/app_history.go:75-79 | A gate left pending by that grants no load and stays so over every run in which no delete of the channel is delivered |
| `HistoryGate.ChannelDeleteFrees` | internal/app/resource_gate.go:109-115 | That delivered delete then frees the gate, whatever its state |
| `HistoryGate.ChannelDeleteAllowsLoad` | internal/app/resource_gate.go:106-115 | After it the channel is loaded again when asked for, whatever was loaded before |
| `HistoryGate.LoadAcrossHydrationSticks` | internal/app/app_history.go:75-79 | A run that ends so: the channel is hydrated while its load is under way |
| `HistoryLoads.App.LoadHistory` | internal/app/app_history.go:34-50 | What the client does is the protocol's step, on the gate and with the snapshot the request carries |
| `HistoryLoads.App.LoadOlderHistory` | internal/app/app_history.go:153-175 | What the client does is the protocol's step; a window that is empty or starts with an echo exhausts the gate |
| `HistoryLoads.App.CompleteHistory` | internal/app/app_history.go:56-106 | What an initial completion does to store and gate is the protocol's step |
| `HistoryLoads.App.CompleteOlderHistory` | internal/app/app_history.go:181-220 | What an older completion does to store and gate is the protocol's step |
| `HistoryLoads.App.FailHistory` | internal/app/app_history.go:56-72 | What a failed load does is the protocol's step |
| `HistoryLoads.App.HandleEvent` | internal/app/app_gateway_state.go:462-660 | What each gateway handler does to store and gate is the protocol's step |
| `Search.IndexOfIsFirst` | internal/media/video_common.go:45-66 | The index found is an occurrence with none before it, and -1 means there is none |
| `KittyFramer.ParseComposes` | internal/media/video_common.go:31-88 | Parsing a prefix, then its pending tail with the rest, is parsing the whole |
| `KittyFramer.ParseConserves` | internal/media/video_common.go:31-98 | Tokens, open transmission and pending bytes concatenate to the input |
| `KittyFramer.ImagesAreEscapes` | internal/media/video_common.go:31-88 | Every transmission is a sequence starting and ending as a Kitty escape |
| `KittyFramer.TextHidesNoEscape` | internal/media/video_common.go:31-88 | No complete escape start is ever passed on as text |
| `KittyFramer.Framer.Push` | internal/media/video_common.go:31-88 | The chunks output and the state left are the byte-by-byte parse of pending and new bytes, each transmission in one chunk; where a transmission ends: `KittyRoundTrip.ContinuesIff`, `KittyRoundTrip.ParsingInvertsPrinting` |
| `KittyFramer.Framer.Flush` | internal/media/video_common.go:92-98 | What was held back comes out, and nothing is left |
| `KittyFramer.StreamingEqualsBatch` | internal/media/video_common.go:31-88 | However a stream is cut into reads, the result is the parse of the whole stream at once |
| `KittyFramer.CutsDoNotMatter` | internal/media/video_common.go:31-98 | Two ways of cutting the same stream give the same tokens, transmission and pending bytes, which together are the stream |
| `KittyFramer.Forward` | internal/media/video_linux.go:165-184 | One framer driven over all reads and flushed at the end writes exactly the bytes read, in the chunks that parsing the whole stream gives |
| `KittyRoundTrip.ParsingInvertsPrinting` | internal/media/video_common.go:31-88 | Text and transmissions written down as bytes, each packet `ESC _ G`, control string, optional payload, `ESC \`, with `m=1` and not `t=s` in every control string but the last of its transmission and in no last one: parsing gives exactly one image per transmission, with all its packets and what stands between them, and the text between images byte by byte; at most two bytes of trailing text wait |
| `KittyRoundTrip.AnyCutsOfPrinted` | internal/media/video_common.go:31-88 | The same however the bytes are cut into reads |
| `KittyRoundTrip.ContinuesIff` | internal/media/video_common.go:71-78 | A packet is held for more exactly when its control string has `m=1` and lacks `t=s`; what the payload holds does not matter |
| `GifPreflight.CheckedMul` | internal/media/decode.go:373-378 | Succeeds exactly when no factor is negative and the product fits in 64 bits, and then is the product |
| `GifPreflight.ValidateDimensions` | internal/media/decode.go:357-369 | Accepts exactly positive dimensions within the side limit and the pixel limit that are set |
| `GifPreflight.SkipSubBlocks` | internal/media/decode.go:296-311 | The loop finds the end of the sub-block chain, or that it is truncated |
| `GifPreflight.ChargeFrame` | internal/media/decode.go:257-267 | Whether frame pixels and n + 1 surfaces fit is decided correctly without any 64-bit sum or product wrapping |
| `GifPreflight.AdmitFrame` | internal/media/decode.go:244-267 | A frame is admitted exactly when its descriptor is complete, it lies in the canvas and memory allows it; the running totals stay exact |
| `GifPreflight.Preflight` | internal/media/decode.go:210-294 | The walk over any stream returns what the specification of the blocks says, in 64-bit arithmetic that never overflows; on written streams that is exactly the GIF written: `GifRoundTrip.WrittenGifIsHandedOn` |
| `GifAcceptance.AcceptedIff` | internal/media/decode.go:210-294 | Accepted are exactly the streams that open well, hold a frame, and close with a trailer or reach the frame limit, with the frames to keep inside the canvas and within memory; and those frames are the layout's first ones |
| `GifAcceptance.PreflightIsIdempotent` | internal/media/decode.go:206-294 | Accepted output is accepted again with the same limits, unchanged and with the same frames |
| `GifAcceptance.AcceptedOutputIsBounded` | internal/media/decode.go:227-286 | Of accepted output every frame lies in the canvas, there are at most the limit's frames and exactly that many when cut, and pixels plus four bytes per canvas pixel for n + 1 surfaces are within a positive memory limit |
| `GifAcceptance.WalkMatches` | internal/media/decode.go:230-294 | The walk finds what the stream's layout, read without limits, says it should |
| `GifRoundTrip.WrittenGifIsAcceptedIff` | internal/media/decode.go:210-294 | Of a GIF written down as bytes from canvas, color tables of 2^(n+1) entries, extensions, pictures and data blocks, with numbers low byte first: it is accepted if and only if its canvas is within the limits and its first pictures, up to the frame limit, are at least one, nonempty, inside the canvas and within 64-bit and configured memory; and then with exactly those frames |
| `GifRoundTrip.WrittenGifIsHandedOn` | internal/media/decode.go:230-294 | Such a GIF is handed on as it is, or, when it holds as many pictures as the frame limit or more, as the same GIF written down to the end of the last picture within the limit, followed by a trailer |
| `GifRoundTrip.DataRead` | internal/media/decode.go:296-311 | A written chain of data blocks is skipped exactly, whatever follows it |
| `Markup.ParseFormatsBack` | internal/markup/parser.go:564-570 | A formatted 64-bit identity parses to itself |
| `MarkupParser.Parser.Run` | internal/markup/parser.go:22-32 | The scanning loop yields the spans specified, and ends on every input: each inner parser gets a strictly shorter text |
| `MarkupParser.Parser.MatchAt` | internal/markup/parser.go:36-88 | What is consumed and emitted at a position is what the specification finds there |
| `MarkupParser.Parser.ScanHeader` | internal/markup/parser.go:154-178 | A heading yields one span for plain text, and a marker with levelled inner spans otherwise; on printed headings, level and text come back: `MarkupRoundTrip.ParsingInvertsPrinting` |
| `MarkupParser.Parser.ScanQuote` | internal/markup/parser.go:182-195 | A quote yields a gutter and the marked inner spans of each line |
| `MarkupParser.Parser.EmitQuotedLines` | internal/markup/parser.go:197-211 | Each line gets its gutter and its own parse, in order; on printed quotes, every letter and span comes back quoted: `MarkupRoundTrip.ParsingInvertsPrinting` |
| `MarkupParser.Parser.ScanDelimited` | internal/markup/parser.go:291-307 | Delimited text is parsed with the added format, unless it is empty or not closed |
| `MarkupParser.Parser.ScanLink` | internal/markup/parser.go:310-332 | A link, or a marked emoji or sticker, where label and address are closed; text and address as `MarkupFinds.LinkFound` and `MarkupRoundTrip.ParsingInvertsPrinting` spell them |
| `MarkupParser.Parser.ScanEntity` | internal/markup/parser.go:336-370 | An entity where its body is one, and nothing otherwise; which one, as `MarkupFinds.IdBody`, `MarkupFinds.TimeBody` and `MarkupFinds.EmojiBody` spell it |
| `MarkupParser.Parser.ScanDiscordURL` | internal/markup/parser.go:465-515 | A channel, message or invite link where the address is one, and nothing otherwise; which one, as `MarkupFinds.ChannelAddress`, `MarkupFinds.MessageAddress` and `MarkupFinds.InviteAddress` spell it |
| `MarkupParser.ParseMessage` | internal/markup/markup.go:243-247 | A message's spans are those of the specification |
| `MarkupRoundTrip.ParsingInvertsPrinting` | internal/markup/parser.go:22-515 | Any sequence of plain text, wrappers and italics, each inside no other with its own mark, custom emoji as the picker writes them, user, role and channel mentions, timestamps, inline and fenced code, titled links, channel, message, invite and other addresses, headings, small text and quotes of one line or of the rest parses back to exactly its letters, with their formatting, heading level and quoting, and to one span for every other piece, spelled out of the piece's own fields, in order. Plain text holds no opening character, spells no address and starts no whole-line construct; an address is followed by a character none holds; whole lines are lines; a heading that is only text in several styles at once is left out |
| `MarkupFinds.LinkFound` | internal/markup/parser.go:310-332 | A title without `]` and an address without `)` are found whole as a link, whatever follows |
| `MarkupFinds.IdBody` | internal/markup/parser.go:344-386 | Both spellings of a user mention, a role mention and a channel mention of a 64-bit id give the span with the member's, role's or channel's name, the role's color, and the action on the id |
| `MarkupFinds.TimeBody` | internal/markup/parser.go:389-406 | A timestamp takes the style behind its second colon, and the short date and time when there is none or it is empty |
| `MarkupFinds.ChannelAddress` | internal/markup/parser.go:470-485 | A channel address names its second id's channel and leads to guild and channel in that order |
| `MarkupFinds.MessageAddress` | internal/markup/parser.go:486-501 | A message address names its channel and its message and leads to all three ids in order |
| `MarkupFinds.InviteAddress` | internal/markup/parser.go:505-550 | An invite in either spelling leads to its code |
| `MarkupFinds.HeaderFound` | internal/markup/parser.go:154-168 | One to six hashes and a space start a heading of that level, which takes the rest of its line |
| `MarkupFinds.SmallFound` | internal/markup/parser.go:131-140 | Small text is the rest of its line without the marker |
| `MarkupFinds.QuoteFound` | internal/markup/parser.go:190-193 | A quote takes the rest of its line |
| `MarkupFinds.RestQuoteFound` | internal/markup/parser.go:184-189 | A long quote takes every line to the end, without trailing line breaks |
| `MarkupFinds.FencedFound` | internal/markup/parser.go:268-279 | Fenced code runs to the first three backquotes and is taken without the line breaks around it |
| `MarkupFinds.EmojiBody` | internal/picker/picker.go:98-104 | The body of a picker-made emoji, its name free of `:`, is an emoji entity with the same name, identity and animation |
| `MarkupFinds.WrapperFound` | internal/markup/parser.go:291-307 | A wrapper whose text neither starts nor ends with its mark nor doubles it is found whole whatever follows it |
| `MarkupFinds.SlantFound` | internal/markup/parser.go:58-73 | One mark of bold or underline around a text without that mark is italic; three around a text that neither starts nor ends with it nor doubles it are italic together with that style |
| `MarkupFinds.PlainIsLiteral` | internal/markup/parser.go:36-88 | A character that neither opens anything nor starts an address, nor a heading, quote or small text at the start of a line, starts nothing |
| `MarkupNesting.NestedComesBackIff` | internal/markup/parser.go:291-307 | A bold, underlined, struck or hidden text among any printable nodes inside one of these wrappers comes back if and only if the two wrappers are of different kinds |
| `MarkupNesting.DeeperNestingMayComeBack` | internal/markup/parser.go:291-307 | That is no law of all trees: three bold wrappers around one another can print as three in a row and read back with the same formatting |
| `MarkupNesting.StackedHeadingLosesStyles` | internal/markup/parser.go:168-173 | A heading that is nothing but text in two styles at once comes out as a plain heading: its one inner span is of the kind of plain text, and its format is dropped |
| `ImageCache.StepIsLongestFit` | internal/media/cache.go:95-186 | After every operation the list is the longest most-recently-used-first prefix, of what the operation would leave unbounded, that fits entry and byte limits |
| `ImageCache.EvictIsLongestFit` | internal/media/cache.go:171-179 | Evicting from the back stops at the longest prefix that fits |
| `ImageCache.PutAndGet` | internal/media/cache.go:131-169 | An admitted image is in front, never evicted by its own insertion; a hit evicts nothing and moves to the front, a miss changes nothing; an inadmissible image also removes what it should have replaced |
| `ImageCache.RunIsRecencyPrefix` | internal/media/cache.go:95-186 | Over every run, reconfigurations included, the cache is a prefix of the recency list: what was evicted was used less recently than all that is kept |
| `ImageCache.Cache.GetLRU` | internal/media/cache.go:131-140 | The list moves as specified and the image is the one listed; map and list stay indexed |
| `ImageCache.Cache.PutLRU` | internal/media/cache.go:142-169 | The list changes as specified, the map indexes exactly the list and the counter is its sum |
| `ImageCache.Cache.ConfigureLRU` | internal/media/cache.go:95-109 | New limits, defaults for those not positive, hold at once |
| `ImageCache.Cache.EvictLRU` | internal/media/cache.go:171-179 | The loop leaves the longest fitting prefix |
| `ImageCache.Cache.Unlink` | internal/media/cache.go:181-186 | List, map and counter lose one entry together |
| `GuildGroups.CleanIsLayout` | internal/ui/guild_groups.go:11-39 | For distinct guilds cleaning any saved groups gives a partition of all guilds but direct messages, with no empty group |
| `GuildGroups.CleanIsIdempotent` | internal/ui/guild_groups.go:11-39 | Groups are such a partition exactly when cleaning leaves them alone; cleaning twice is cleaning once |
| `GuildGroups.CleanKeepsPlaces` | internal/ui/guild_groups.go:11-39 | Each known guild stays in the first group naming it, in saved order with the group's id, name and color; the others follow on their own |
| `GuildGroups.MovePlaces` | internal/ui/guild_groups.go:41-82 | A drop leaves every other guild in its place and group, and puts the guild at the end of the folder, beside the guild, first, or last, as the row dropped on says |
| `GuildGroups.MoveKeepsLayout` | internal/ui/guild_groups.go:41-82 | A drop keeps the partition exactly when it does nothing or the guild is known |
| `GuildGroups.MakeGroupPlaces` | internal/ui/guild_groups.go:84-100 | A new group holds the guild right after those it was grouped with; every other guild keeps its place and group |
| `GuildGroups.MakeGroupKeepsLayout` | internal/ui/guild_groups.go:84-100 | Making a group keeps the partition exactly when it does nothing or the guild is known; its id is fresh while the least 64-bit id is unused |
| `GuildGroups.NextIDIsFresh` | internal/ui/guild_groups.go:178-186 | The next id is unused if and only if no id is the least 64-bit one, or no id up to its last use is one below all ids after it |
| `GuildGroups.NextIDIs` | internal/ui/guild_groups.go:178-186 | The next id is -1, or one below the least id since the last wrap-around |
| `GuildGroups.WrappedIDCollides` | internal/ui/guild_groups.go:178-186 | Ids 4, the least and 5 make the next id 4 again |
| `GuildGroups.CleanGroups` | internal/ui/guild_groups.go:11-39 | The loops with their seen set compute the cleaned layout |
| `GuildGroups.PullGuild` | internal/ui/guild_groups.go:111-119 | The backward loop removes the guild everywhere and the groups left empty |
| `GuildGroups.PullPlaces` | internal/ui/guild_groups.go:111-129 | Pulling a guild out leaves every other guild where it was and no empty group |
| `GuildGroups.MoveGuild` | internal/ui/guild_groups.go:41-82 | Computes the layout after a drop |
| `GuildGroups.NewGroup` | internal/ui/guild_groups.go:84-100 | Computes the layout with the new group |
| `GuildGroups.NextGroupID` | internal/ui/guild_groups.go:178-186 | The loop computes the next id with 64-bit wrap-around |
| `GuildOrder.ShownExactlyOnce` | internal/store/ordering.go:37-95 | For any folders, pins and guilds a guild has exactly one row, or none if it is unknown, or unpinned and first listed by a collapsed folder |
| `GuildOrder.LayoutShownOnce` | internal/store/ordering.go:37-95 | On a partition: exactly one row unless the guild is unpinned inside a collapsed folder |
| `GuildOrder.PinsComeFirst` | internal/store/ordering.go:43-53 | Pinned guilds come first in the order of the pins and no later row is pinned |
| `GuildPlaces.RowsDescend` | internal/store/ordering.go:37-106 | The rows descend: pins in their order, then folder after folder, its header, there for every folder that is not one unnamed guild, above its guilds in their order unless it is collapsed, then the guilds of no folder in list order; each row has the name, color, indent, pin, folder id and collapse mark its place says, and a guild stands at the first place that lists it |
| `GuildOrder.OrderGuilds` | internal/store/ordering.go:37-95 | The passes with their sets compute the specified rows |
| `Sorting.SortedIs` | internal/store/store.go:1201-1230 | Insertion sorting under a strict weak order gives an ordered permutation |
| `Sorting.InsertionSort` | internal/store/channels.go:244-250 | The swapping loop, in place on the array, computes that sorting |
| `ChannelRows.ChannelOrders` | internal/store/channels.go:254-260 | Channels sorted by position and threads by activity are ordered permutations: both orders are strict and weak |
| `ChannelRows.ShownOnceIffVisible` | internal/store/ordering.go:163-282 | For any favorites, attention and collapsed categories every channel and thread has exactly one row if it is promoted, or stands outside every collapsed category, or is an active thread of a standing unpromoted text or announcement channel; and none otherwise |
| `ChannelPlaces.RowsDescend` | internal/store/ordering.go:163-290 | The rows descend: favorites, pinged direct messages, other pinged channels, and channels of no category, each in list order, then category after category with its header above its channels in list order; threads directly under their channel, the most recently active first, the newest id first among equals; and each row has the name, kind, depth, favorite, thread and collapse marks its place says |
| `ChannelPlaces.HeaderIff` | internal/store/ordering.go:246-280 | A category has a header if and only if it is collapsed or has a channel to show |
| `ChannelPlaces.ThreadsByActivity` | internal/store/channels.go:244-260 | Sorted threads stand by last activity, the latest first, then by id, the newest first |
| `ChannelPlaces.ChannelsByPosition` | internal/store/store.go:1201-1230 | Sorted channels stand by position, then by id |
| `ChannelRows.EmitShows` | internal/store/ordering.go:234-241 | A channel's own rows show it once, each of its unpromoted active threads once, and nothing else |
| `ChannelRows.ThreadsAre` | internal/store/ordering.go:181-194 | A channel's threads are exactly its active ones, each once |
| `ChannelRows.GroupChannels` | internal/store/ordering.go:163-282 | The loops that index the channels, bucket and sort the active threads and collect the promoted ids give the rows in the specified order, and every channel and thread has one row in them exactly when it is visible |
| `DirectoryRuns.RunKeepsOrder` | internal/store/channels.go:28-124 | In every reachable store each guild's channel order is a duplicate-free list of exactly its channels, through guild moves, cascades, guild deletes and thread syncs |
| `DirectoryRuns.StepKeepsOrder` | internal/store/store.go:643-672 | Each operation keeps that |
| `Directory.AnyOrderWillDo` | internal/store/channels.go:28-33 | The cascade over a channel's threads leaves the same store whatever order the map yields them in |
| `Directory.RemoveCommutes` | internal/store/channels.go:96-114 | Removing two channels in either order is the same, counts and clamping included |
| `Directory.UpsertAgreesIff` | internal/store/store.go:643-672 | An upsert keeps every guild's count the sum over its channels if and only if the channel stays in its guild or has no count |
| `Directory.IncrementAgrees` | internal/store/store.go:458-463 | Counting keeps the sums, whether or not the channel is hydrated |
| `Directory.ClearAgrees` | internal/store/store.go:465-477 | Clearing keeps the sums |
| `Directory.RemoveOneAgrees` | internal/store/channels.go:96-114 | Removing a channel keeps the sums |
| `DirectoryRuns.GuardedRunsAgree` | internal/store/store.go:456-477 | In every run whose upserts bring no counted channel into a guild, each guild's count is the sum over its channels |
| `DirectoryRuns.AlwaysAgreesIff` | internal/store/store.go:456-477 | Each guild's count is the sum over its channels at every moment of a run, between the threads of one sync included, if and only if no upsert of it brings a counted channel into a guild |
| `DirectoryRuns.EarlyPingIsLost` | internal/store/store.go:458-463 | A mention before its channel is hydrated is never part of the guild's count |
| `DirectoryRuns.SnapshotCurrentIff` | internal/app/app_directory.go:167-193 | A directory snapshot compares equal to a later store exactly when no guild and no channel was created or deleted in between |
| `DirectoryRuns.StepAges` | internal/store/channels.go:28-114 | Generations never go back and move exactly when a lifetime starts or ends |
| `DirectoryStore.ChannelStore.IncrementPing` | internal/store/store.go:458-463 | The counts become those specified; when every guild's count was the sum over its listed channels it still is |
| `DirectoryStore.ChannelStore.ClearPing` | internal/store/store.go:465-477 | Changes the counts as specified |
| `DirectoryStore.ChannelStore.UpsertChannel` | internal/store/store.go:643-672 | Changes order, generation and channel as specified |
| `DirectoryStore.ChannelStore.RemoveChannelOrder` | internal/store/channels.go:116-124 | The loop drops the first occurrence |
| `DirectoryStore.ChannelStore.RemoveChannel` | internal/store/channels.go:28-46 | The cascade in the map's order leaves the specified store |
| `DirectoryLaws.CascadeIs` | internal/store/channels.go:28-46 | Removing a channel takes it and exactly the threads whose parent it is: every other channel stays as it is, in its place of its guild's order, with its count and its lifetime; each that goes ends its lifetime, and so does the channel itself when it was not known |
| `DirectoryStore.ChannelStore.RemoveGuild` | internal/store/channels.go:50-80 | The guild and its channels go as specified and its lifetime ends |
| `DirectoryLaws.RemoveGuildIs` | internal/store/channels.go:50-62 | Removing a guild takes it, exactly its channels, its order and every count of theirs, leaves other guilds alone, and ends each of those lifetimes once |
| `DirectoryStore.ChannelStore.SyncActiveThreads` | internal/store/channels.go:163-196 | Removes exactly the active threads in scope that are not listed, returns them in order, and takes the listed ones |
| `DirectoryLaws.SyncIs` | internal/store/channels.go:163-196 | After a list of active threads, threads of the guild held as active, in scope and not listed are gone, no other channel is but threads under those, the listed ones are threads as last listed, active when they come without details, and every other channel is as it was |
| `DirectoryLoad.OutcomeIff` | internal/app/app_directory.go:84-193 | A directory page is ingested exactly when no lifetime changed since the request, retried exactly when one did without a deletion and retries are left, and dropped exactly when something was deleted |
| `DirectoryLoad.DeletionStrandsTheLoad` | internal/app/app_gateway_state.go:383-396 | A deletion while the only request is out leaves the directory neither loaded nor pending once it completes: the retry never happens |
| `DirectoryLoad.LoadsAreExclusiveAndBounded` | internal/app/resource_gate.go:117-155 | Over every run one request at most is current, which is what pending means, and no request is retried more than three times |
| `DirectoryLoad.SingleGate.BeginVersion` | internal/app/resource_gate.go:128-134 | Granted exactly when neither loaded nor pending |
| `DirectoryLoad.SingleGate.FinishVersion` | internal/app/resource_gate.go:140-149 | Only a completion of the current version changes the gate |
| `DirectoryLoad.GuildLoader.LoadGuilds` | internal/app/app_directory.go:67-78 | Issues a request with the store's generations exactly when the gate grants it |
| `DirectoryLoad.GuildLoader.CompleteLoad` | internal/app/app_directory.go:84-165 | What a completion does to store and gate, and the retry it issues, are the specified outcome |
| `DirectoryLaws.IngestIs` | internal/app/app_directory.go:103-113 | After a page is ingested exactly the guilds known before and those it brings are known, the guild of direct messages only with some, each new guild and channel in a new lifetime; its channels are direct messages with the details of their last listing, new ones behind the old in the order they first come; everything else is as it was |
| `PluginRegistry.RollbackIsReplay` | internal/plugin/registry.go:52-83 | However several owners' registrations and earlier rollbacks interleave, rolling an owner back leaves what the same run without its registrations leaves; commands, keys, themes and events alike |
| `PluginRegistry.StackIsSurvivors` | internal/plugin/events.go:55-90 | A stack is exactly the registrations whose owner was not rolled back later, in the order made: event callbacks run in that order and a lookup finds the last |
| `PluginRegistry.Registry.Register` | internal/plugin/keys.go:25-29 | The registry stays what replaying every registration and rollback so far leaves |
| `PluginRegistry.Registry.Lookup` | internal/plugin/registry.go:40-48 | The latest registration of the name whose owner was not rolled back after it, or none |
| `PluginRegistry.Registry.RollbackOwner` | internal/plugin/themes.go:46-65 | The stacks become what replaying the history without the owner's registrations leaves, in whatever order the map is visited |
| `PluginTimers.TimerRegistry.RollbackOwner` | internal/plugin/timers.go:44-56 | Exactly the owner's running timers are stopped, each stop channel closed once and never again |
| `PluginTimers.TimerRegistry.Close` | internal/plugin/timers.go:58-65 | Every timer ever made is stopped, no channel closed twice |
| `PluginTimers.TimerRegistry.Every` | internal/plugin/timers.go:22-42 | The new timer is listed and running |
| `PluginRuntime.ClosedStatesAreNotCalled` | internal/plugin/manager.go:193-292 | After every run of submissions, ticks, viewport presses, loads, commits, rollbacks, stop and close: a timer, viewport, event or load job that is taken calls no closed state, and a command or key calls one only if it was looked up while that state was loading; no stop channel is closed twice and the queue keeps its bound |
| `PluginRuntime.HandlerMayCallClosedIff` | internal/plugin/manager.go:271-292 | After a command or key is accepted some run calls its state once closed if and only if the state was loading when it was looked up |
| `PluginRuntime.FailedStartupLeavesNoTrace` | internal/plugin/manager.go:216-226 | Whatever a plugin registers while loading and others submit meanwhile, its failure leaves the event, command, key and theme registries, live states and running timers as they were before it began |
| `PluginRuntime.CallsAreExactly` | internal/plugin/manager.go:257-292 | Lua is called only when the worker takes a job, and then exactly: a timer or viewport calls its state while that is live, an event every state registered for it in order of registration, a handler the state it was looked up for |
| `PluginRuntime.RegisteredIsFound` | internal/plugin/registry.go:25-48 | A registration is what its name is looked up as next and is called last for its event, and changes no other name and no other registry |
| `PluginRuntime.CloseStopsEveryTimer` | internal/plugin/manager.go:429-444 | After closing no state is live and every timer ever made was stopped once |
| `PluginRuntime.CommandDuringStartupCallsClosedState` | internal/plugin/manager.go:271-292 | A run in which a command looked up during startup calls a state closed by the rollback, which the documented calling order rules out |
| `PluginRuntime.NextKeepsInv` | internal/plugin/runtime.go:44-129 | Every step of worker and callers keeps the ownership invariant behind these rows |

## Left out

- Counters of 64 bits (revisions, generations, gate versions, attention counts) are unbounded here; they only ever grow by one.
- The image cache's byte counter is unbounded; in 64 bits it cannot wrap while the limit is at most 2^62.
- A message's content is one opaque value, counted by version in the protocol; embeds, components, attachments, reactions and pins are not modelled.
- Author identities, last-message bookkeeping, unread counters, roles, emoji catalogs and the metadata revision of the store are not modelled.
- HistorySafety.GuardedRunsShowNoGhosts: is about entries with an id; an echo has none, and one may stay shown beside its message when a page copy lacks the nonce. It covers one channel, other channels only drawing revisions.
- HistorySafety.CheckedSendIsSafe: the snapshot of a send is not taken by the code; it is added to the model to say what a check could use.
- A create delivered a second time, which the handler at `internal/app/app_gateway_state.go:484-487` expects, is not a move of the protocol: each create is delivered once, by the gateway, besides what a send's confirmation does.
- Edits confirmed by REST are not moves of the protocol; edits arrive as gateway updates.
- ImageCache.RunIsRecencyPrefix: says what is kept is more recent than what was evicted, not that it is the most that would fit, because entries evicted for a large image stay away when it is replaced by a small one.
- ChannelRows.ShownOnceIffVisible: is about how often a channel is shown; what its row is and where it stands is `ChannelPlaces.RowsDescend`.
- HistoryGate.CompletionDecidesNextLoad: exhaustion is what the code infers from a short page; that a short page means no older message exists is the server's promise and not modelled.
- MarkupRoundTrip.ParsingInvertsPrinting: whole-line constructs are printed outside wrappers only, and an italic text, which takes one mark of bold or underline or three, stands in no wrapper with that mark.
- Updates to messages that are not shown are dropped by the code, so no convergence of contents is claimed for them.
- The REST, gateway and terminal calls, clocks and goroutine scheduling appear only as moves, parameters or results given from outside.
- Display names, timestamps, URL classes and URL query parsing are function parameters of the markup model; text is a sequence of characters rather than of bytes, which its ASCII markup cannot tell apart.
- Locks are not modelled: each locked section is one atomic step.
- Go's slices that share a backing array (in `pullID`, `handlersWithoutOwner` and similar compactions) are sequences here, so that sharing is not captured.
- KittyFramer.Forward: passes chunks on as they are; copying shared-memory frames, and dropping those that are too large, is not modelled.
- The GIF walk does not model cancellation of its context; pixel decoding and frame composition after it are left to the decoder.
- The disk cache, its pruning and atomic file installation are filesystem behaviour and not modelled.
- ChannelRows.GroupChannels: takes the attention and collapse maps as the sets of their true entries.
- MessageStore.Store keeps each channel's window as the value that `RingBuffer.Ring` is proved to hold, not as a ring object, so aliasing between rings is not captured.
- Channel rows are claimed for nonzero ids, as Discord's are; stability of the insertion sort is not claimed.
- Emptying guild folders and the first-seen guild order on a guild delete are not modelled; the guilds of the directory are a set.
- The theme chosen at startup, which a failed load also leaves alone, is not part of the plugin model.
- Lua, themes' contents, configuration, capability grants and file roots of plugins are opaque; a plugin's script is any sequence of registrations.
- Drawing, focus and the transcript cache itself are not modelled, only the revision law it relies on.
