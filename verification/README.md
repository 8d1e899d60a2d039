# Charon: a verified model of its protocols and arithmetic

Charon answers Ethereum JSON-RPC calls from a UTXO node. This project models the parts of it that
carry state, translate between two meanings, or compute amounts, and proves what they promise.

| file | models |
|---|---|
| NotifierGate.dfy | the websocket notifier: response gate, event queue and writer loop, against the request handler and all producers |
| Unsubscription.dfy | client unsubscribes, the call spawned by the unsubscribe callback, the writer loop's exit |
| Registry.dfy | the agent's four subscription registries under racing adds and double-checked removals |
| Lifecycle.dfy | the two together: what a confirmed unsubscribe leaves in the registries |
| NewHeads.dfy, LeakedHeads.dfy | the newHeads loop: how many run, what they send, whom they serve; and what a leaked registration does to it |
| Notifications.dfy | the hash set that keeps a log from being sent twice |
| Topics.dfy, Logs.dfy | an Ethereum log filter from its JSON form to the node's request, and the client-side pass over the node's over-wide answer |
| BlockPositions.dfy, LogRequests.dfy | the documented answer of eth_getLogs with positions in the block, and the whole call from its parameters |
| LogSubscription.dfy | what a logs subscription sends of the receipts it gets |
| BlockFilter.dfy | block filters as cursors, polled serially and concurrently; the filter table |
| ClientCache.dfy, Client.dfy | the response cache with its flush timers, and one request with its bounded retries |
| Utxos.dfy | listing unspent outputs by type, maturity and amount |
| Transfers.dfy | sender, receiver, refund and fee accounting in 64-bit arithmetic |
| Scripts.dfy, SenderSearch.dfy, Chains.dfy | contract scripts, the scan for a transaction's contract, and the walk along spends to its sender |
| Windows.dfy | the two ring buffers: success rate and call throttle |
| Amounts.dfy | wei, REVO and satoshi conversions, and selecting inputs to sign |
| Traces.dfy, Common.dfy | what has happened in a run and not been undone since; shared vocabulary |

Concurrent parts are transition systems. A step is one lock-protected block (or one channel
operation) of the code; `Behaviour(states, steps)` says that `states` is a run; each result holds in
every state of every run. Beside a machine stands a class whose methods are those blocks, proved
against the functions the machine's steps are made of; a poll of a block filter that runs alone is
proved to be a poll of the serial model, and so are the machine's steps of such a poll (`AloneIsSerial`).
Loops of the code are methods with loops, proved against functions whose properties are lemmas.

The node is abstract: a function, a map or a list of replies. Where a result needs more of it (an
honest answer to searchlogs, a height that does not fall), the result says so in its `requires`.

Several promises that the code or its comments suggest turn out to be conditional. For each there is
a result with the exact condition:

- a batch with two eth_subscribe calls can leave the writer waiting for good, because the second
  replaces the channel that the writer waits on: it is stranded exactly when that has happened during
  its wait (`StrandedIffReplaced`, `StrandedForever`), which never happens while batches have at most
  one subscription (`SingleSubscriptionsNeverStrand`);
- an unsubscribe that runs between `Notifier.Subscribe` and `addSubscription` leaves the subscription
  registered forever, though it has been confirmed (`LeakedIffOvertaken`, `LeakIsForever`,
  `ConfirmedMeansRemoved`), and one for newHeads keeps the loop alive (`ALeakKeepsTheLoopAlive`);
- newHeads subscribers are left without a run exactly by three kinds of step, of which the common one
  is joining while the loop is leaving, and stay so until exactly three others (`UnservedIffLost`);
- overlapping polls of a block filter never skip a height, and repeat one exactly when a poll stores
  after a higher cursor than its own has been stored (`AnsweredOnceIffNobodyOvertaken`);
- the node's topic filter is exact only without alternatives (`WireIsExactIff`), and the filter pass
  lets logs with too few topics through (`PipelineIsWantedIff`, `AShortLogPasses`);
- a log's `logIndex` is documented as its position in the block; what is reported is its position in
  the receipt, or 0 without a filter, which is the same only for receipts, or logs, with no log before
  them in the block (`PipelineIsDocumentedIff`, `UnfilteredIsDocumentedIff`);
- a logs subscription with addresses or topics passes on only the first matching log of a receipt, and
  of two logs of a transaction that look alike only one is ever sent (`ToldOfEveryMatchIff`, `ToldOfAReceiptIff`,
  `EqualLogsAreToldOnce`);
- an error is recovered from at most once only by handlers that return the error they got
  (`RecoversOnceIffHandlerEchoes`);
- the value of a transfer without change is reported short of the fee, or, when the fee is larger, as
  the positive difference (`ReportedIsPaidIff`, `AFeeIsTakenOff`, `FeeAboveAmountReportsTheDifference`);
- nested P2SH types never occur and immature outputs cannot be asked for alone (`SelectiveIff`), and
  one unknown type name asks for all types (`AllTypesIff`);
- the change of a transaction to sign mixes satoshis and REVO (`ChangeMixesUnits`).

Wei are cut to multiples of 10^-9 REVO; the comment in the conversion speaks of satoshis, the code
does not. The model follows the code.

## Model

| member | source | states |
|---|---|---|
| NotifierGate.NotificationsFollowResponses | pkg/notifier/notifier.go:128-219 | in every interleaving of handler, producers and writer no notification precedes the response carrying its id, and what is written is in order a prefix of what was enqueued |
| NotifierGate.WrittenAsEnqueued | pkg/notifier/notifier.go:185-209 | in every reachable state the k-th notification on the wire has the id and payload of the k-th note enqueued, and while the writer lives the notes not yet written are those in hand and in the queue |
| NotifierGate.AnsweredOnce | pkg/server/handler.go:336-362 | in every reachable state an issued id is outstanding or in one response, never in two |
| NotifierGate.HandlerOpensTheGate | pkg/notifier/notifier.go:128-141 | after a response is written the handler's next steps close the pending channel, leave none to wait on, and it reads again |
| NotifierGate.InvariantHolds | pkg/server/handler.go:336-362 | the inductive invariant behind it: while a response is outstanding the current channel is open, and no event of an outstanding id is past the gate |
| NotifierGate.StrandedForever | pkg/notifier/notifier.go:189-199 | a writer waiting on a replaced, unclosed channel never writes again |
| NotifierGate.StrandedByReplacement | pkg/notifier/notifier.go:143-148 | a step strands the writer exactly if it is ResponseRequired replacing the open channel the writer waits on |
| NotifierGate.StrandedIffReplaced | pkg/notifier/notifier.go:143-199 | in every run the writer is stranded exactly if its channel was so replaced and the connection has not ended since |
| NotifierGate.SingleSubscriptionsNeverStrand | pkg/transformer/eth_subscribe.go:47-50 | if every batch calls ResponseRequired at most once, failing subscriptions counted, and only notifications are enqueued, the writer is never stranded: none is held back for good, in hand or in the queue |
| NotifierGate.ReleasedIffNotReplaced | pkg/notifier/notifier.go:128-199 | in every run ResponseSent releases a waiting writer exactly if its channel has not been so replaced |
| NotifierGate.TwoSubscriptionsInABatchCanStrand | pkg/transformer/eth_subscribe.go:47-50 | a run in which the second eth_subscribe of a batch strands the writer |
| NotifierGate.Notifier.ResponseRequired | pkg/notifier/notifier.go:143-148 | the pending channel is the next new one, and nothing else changes: the machine's step |
| NotifierGate.Notifier.ResponseSent | pkg/notifier/notifier.go:128-141 | the pending channel, if any, is closed and none is pending: the machine's step |
| NotifierGate.Notifier.Send | pkg/notifier/notifier.go:150-152 | appends to the bounded queue or blocks, exactly when it is full |
| Unsubscription.CallbackAndConfirmationAtMostOnce | pkg/notifier/notifier.go:26-56 | over every run a subscription's callback runs at most once and at most one Unsubscribe of it answers true, which it does only after the callback |
| Unsubscription.QuiescentMeansEndedOrLive | pkg/notifier/notifier.go:112-126 | once no spawned call is outstanding every subscription is either untouched or ended with exactly one callback, one spawned call and one confirmation |
| Unsubscription.ExitEndsAll | pkg/notifier/notifier.go:167-180 | after the writer loop's exit, once the calls it spawned have run and nobody subscribes, no subscription is live |
| Unsubscription.SpawnedCallsDecrease | pkg/notifier/notifier.go:34-39 | the recursion through the spawned call ends: unfired guards and spawned calls form a measure that each spawned call lowers and only a new subscription raises |
| Unsubscription.SpawnedCallsBounded | pkg/notifier/notifier.go:34-39 | over a whole run no more calls are spawned than subscriptions were made |
| Unsubscription.Subscriptions.Once | pkg/notifier/notifier.go:52-56 | the once-guard: callback and spawned call on the first use, nothing after |
| Unsubscription.Subscriptions.Unsubscribe | pkg/notifier/notifier.go:112-126 | answers whether the id was live, and then fires its guard and removes it |
| Unsubscription.Subscriptions.UnsubscribeAll | pkg/notifier/notifier.go:167-180 | the loop's exit fires every live subscription's guard, in whatever order, and removes none |
| Registry.CountIsSize | pkg/notifier/agent.go:210-240 | subscriptionCount is the size of the map in every reachable state, even when ids collide |
| Registry.ObtainedAndCancelledOnce | pkg/notifier/agent.go:223-240 | of any number of racing removers exactly one obtains an id that leaves the registries, and only it cancels, once |
| Registry.CountsAreConserved | pkg/notifier/agent.go:191-201 | the four counts together are the ids added less the ids obtained |
| Registry.UnsubscribedIsGone | pkg/notifier/agent.go:203-208 | when unsubscribe returns, an id that was registered when it began is in none of the four registries |
| Registry.UnsubscribedStaysGone | pkg/notifier/agent.go:203-208 | and it is in none of them in any later state |
| Registry.LeakedIffOvertaken | pkg/notifier/agent.go:242-282 | with a single unsubscribe the id stays registered exactly if it was added to a registry the call had already gone past |
| Registry.LeakIsForever | pkg/notifier/notifier.go:52-56 | under the once-guard (one unsubscribe per id) such a registration is there in every later state |
| Registry.ALeakExists | pkg/notifier/agent.go:242-271 | a run in which the registration is overlooked |
| Registry.SubscriptionRegistry.AddSubscription | pkg/notifier/agent.go:210-221 | adds the id and counts it unless it was there |
| Registry.SubscriptionRegistry.RemoveSubscription | pkg/notifier/agent.go:223-240 | whatever others do between its two looks: removes and uncounts the id, and cancels it once, exactly if both looks find it; without the first look nothing is touched |
| Registry.SubscriptionRegistry.Take | pkg/notifier/agent.go:227-234 | the write-locked second look: obtains the id exactly if it is still there |
| Lifecycle.ConfirmedMeansRemoved | pkg/notifier/notifier.go:112-126 | once an unsubscribe of an id has answered true, in every interleaving and ever after: no second one does; the id is in a registry exactly if it was added there behind the removal; and it was obtained and its context cancelled once if it was registered and is gone, else never |
| Lifecycle.RegisteredThenConfirmedIsGone | pkg/notifier/agent.go:203-271 | an id that was registered when its guard was first used is, once confirmed, in none of the four registries and cancelled exactly once |
| Lifecycle.OvertookIff | pkg/notifier/agent.go:210-240 | the removal of an id has been overtaken exactly if some step added the id to a registry that the removal had gone past |
| Lifecycle.InvariantHolds | pkg/notifier/notifier.go:50-56 | one removal per spent guard, confirmed ids are those no longer live, and their removals have returned |
| NewHeads.AtMostOneActiveRun | pkg/notifier/agent.go:290-311 | at most one run is active in any reachable state, and the running flag says whether one is |
| NewHeads.HeadsIncreaseWithinARun | pkg/notifier/agent.go:345-384 | whatever the node's height does, one run sends strictly increasing heights, all above the first height it saw |
| NewHeads.HeadsIncreaseAcrossRuns | pkg/notifier/agent.go:313-384 | if the node's height never falls the heights sent by all runs together increase strictly |
| NewHeads.LastBlockIsLastSent | pkg/notifier/agent.go:313-384 | in every reachable state lastBlock is the height of the last head that run sent, or the first height it saw, or 0 |
| NewHeads.DeliverIsExact | pkg/notifier/agent.go:353-384 | a polled height above lastBlock with its block transformed appends exactly that head and is remembered; anything else sends nothing |
| NewHeads.ANewHeadIsSent | pkg/notifier/agent.go:345-384 | a run that has seen a height sends the node's by polling and delivering, whenever it is higher |
| NewHeads.LostIff | pkg/notifier/agent.go:273-341 | a step leaves served subscribers behind exactly if it is the last look at a flag set by a leaving run, a lost race for that flag, or a stop of the loop, with nobody else left to serve them |
| NewHeads.UnservedUntil | pkg/notifier/agent.go:273-279 | unserved subscribers are served again exactly by a newcomer, a run started for a subscription of another kind, or when the last of them leaves |
| NewHeads.UnservedIffLost | pkg/notifier/agent.go:273-341 | in every run, subscribers are unserved exactly if a step of the first kind has happened and none of the second since |
| NewHeads.UnservedStretch | pkg/notifier/agent.go:273-279 | without such a step they stay unserved over any stretch of a run |
| NewHeads.ASubscriberCanBeMissed | pkg/notifier/agent.go:336-341 | a run in which a subscriber joins a leaving loop and is left unserved |
| NewHeads.HeadsLoop.Acquire | pkg/notifier/agent.go:296-313 | the locked test-and-set: starts exactly if nothing runs, with lastBlock zero, as the machine's step does |
| NewHeads.HeadsLoop.Handle | pkg/notifier/agent.go:353-388 | one round sends exactly if lastBlock was set, the polled height is above it and its block was transformed; lastBlock becomes that height then and in the first round only |
| LeakedHeads.InvariantHolds | pkg/notifier/agent.go:203-240 | in every run of registries and loop together the loop's subscriber count is the size of the newHeads registry |
| LeakedHeads.EndsIffNoneRegistered | pkg/notifier/agent.go:336-341 | a run can end by its count exactly if nothing is registered for newHeads |
| LeakedHeads.ALeakKeepsTheLoopAlive | pkg/notifier/agent.go:336-341 | once a newHeads registration has been overlooked by its finished removal, no run ends by its own count again and every started one goes on to the running flag |
| LeakedHeads.AHeadLeaks | pkg/notifier/agent.go:242-262 | a run in which a newHeads registration is overlooked |
| Notifications.LogSender.Notify | pkg/notifier/subscription.go:133-152 | batch after batch the queue holds the notifications whose hash no earlier one had |
| Notifications.SentOncePerHash | pkg/notifier/subscription.go:97-111 | only notifications are sent, no two with one hash, and a hash is sent if and only if a notification has it |
| Notifications.NothingHeldBackIff | pkg/notifier/subscription.go:136-152 | everything is sent exactly if no two notifications have one hash |
| Common.DenotesOne | pkg/utils/hex.go:15-20 | "0x" and c stands for c, whatever c is, any other string for itself, and removing the prefix gives what a string stands for |
| Topics.TranslateTopics | pkg/eth/util.go:23-56 | fails exactly on a list with a non-string; otherwise position by position what the given strings stand for, one alternative for each, positions of unexpected types dropped |
| Topics.PositionsKeptIff | pkg/eth/util.go:28-53 | positions are kept exactly if no position holds a value of an unexpected type |
| Topics.TranslationPreservesMeaning | pkg/eth/util.go:9-22 | a translated filter matches a log exactly when the documented filter does, in which "0x" and c stands for c |
| Topics.NewSearchLogsTopics | pkg/revo/rpc_types.go:1092-1110 | keeps every position and every alternative |
| Topics.MarshalTopics | pkg/revo/rpc_types.go:1120-1156 | topics are left out exactly if every position marshals to null; otherwise each position is its lone alternative or null |
| Topics.WireIsWeaker | pkg/revo/rpc_types.go:1112-1118 | every strict match of the full filter matches what the node is asked for |
| Topics.WireIsExactIff | pkg/revo/rpc_types.go:1112-1118 | the node's filter equals the full one on long enough logs exactly if no position has several alternatives |
| Logs.DoFiltersMatch | pkg/conversion/util.go:121-161 | accepts exactly the logs that satisfy the filter on the positions they have |
| Logs.AcceptedIffWanted | pkg/conversion/util.go:121-161 | the documented filter accepts a log exactly if the pass does and the log has as many topics as the filter has positions |
| Logs.PopulateLookup | pkg/conversion/util.go:163-171 | membership of the lower-cased address is acceptance by a non-empty address list |
| Logs.SearchLogsAndFilterExtraTopics | pkg/conversion/util.go:47-88 | without a filter the receipts pass unchanged, with one they are the kept receipts |
| Logs.KeptLogsExactly | pkg/conversion/util.go:70-80 | of one receipt exactly the accepted logs are kept, each stamped with its own position, ascending |
| Logs.KeptReceiptsExactly | pkg/conversion/util.go:69-85 | exactly the receipts with an accepted log survive, in order, none empty |
| Logs.EthGetLogs | pkg/transformer/eth_getLogs.go:44-103 | from addresses and topics to the flat list of logs: fails exactly for a malformed topic or a failed search, else the node is asked with the wire filter and the list shows every log of the receipts that are left, field by field, each in its place |
| Logs.ExtractETHLogs | pkg/conversion/util.go:14-33 | one Ethereum log per log, in order: both hashes, address, data and topics are the receipt's and the log's own with exactly one 0x prefix, and both positions and the block number are theirs |
| Logs.ShownOnce | pkg/conversion/util.go:21-30 | these fields decide the Ethereum log |
| Logs.FlattenShows | pkg/transformer/eth_getLogs.go:50-54 | the flat list holds log i of receipt k after all logs of the receipts before it, and nothing else |
| Logs.StripPrefixes | pkg/transformer/eth_getLogs.go:87-89 | the in-place loop puts in each place what the address there stands for |
| Logs.PipelineIsComplete | pkg/revo/method.go:291-294 | every log in range that satisfies the documented filter and the addresses is delivered, in its receipt and at its position |
| Logs.PipelineIsSound | pkg/conversion/util.go:47-88 | every delivered receipt is one of the chain's in range, not empty, and its logs are that receipt's logs at those positions, accepted by addresses and filter |
| Logs.PipelineIsWantedIff | pkg/transformer/eth_getLogs.go:44-58 | the flat answer is the wanted logs (by receipt, then by position in it, every log that satisfies the strict filter, with its position in the receipt) exactly if no answered receipt has a log that passes with fewer topics than the filter has positions |
| Logs.AShortLogPasses | pkg/conversion/util.go:121-126 | a chain and a filter on which a log without topics is answered and not wanted |
| Logs.NodeExtrasDoNotShow | pkg/revo/method.go:291-294 | on logs long enough the result equals filtering the whole range, whatever the node adds |
| Logs.UnfilteredPositionsIff | pkg/conversion/util.go:56-58 | without a filter the reported index is the position in the receipt exactly if no receipt that the node answers has a second log |
| BlockPositions.ReportedPositionIff | pkg/eth/rpc_types.go:397 | the position in the receipt is the documented position in the block exactly if no earlier receipt of the block has a log; 0 is, exactly for the first log of the block |
| BlockPositions.PipelineIsDocumentedIff | pkg/conversion/util.go:69-85 | with a filter the flat answer is the documented one, with positions in the block, exactly if no log passes with too few topics and no wanted log has a log in an earlier receipt of its block |
| BlockPositions.UnfilteredIsDocumentedIff | pkg/conversion/util.go:56-58 | without a filter it is the documented one exactly if no block of the range has two logs |
| BlockPositions.TheSecondTransactionIsDisplaced | pkg/conversion/util.go:69-72 | two transactions of one block with a wanted log each: the answer is not the documented one |
| LogRequests.ToAddresses | pkg/transformer/eth_getLogs.go:73-90 | an absent, single or listed address becomes what its strings stand for, in order; anything else is rejected |
| LogRequests.SearchIff | pkg/transformer/util.go:307-367 | what is searched for: heights that the ends of the range stand for ("latest" and the empty string the node's, "earliest" 0, an integer itself, a hex quantity its value), bare addresses and the wire filter; nothing if an end is left out, "pending" or unreadable |
| LogRequests.GetLogs | pkg/transformer/eth_getLogs.go:23-104 | the whole call: rejected exactly if there is nothing to search for; else the search is made and the answer shows the logs of the pipeline in their places |
| LogRequests.AnswerIsDocumentedIff | pkg/transformer/eth_getLogs.go:23-104 | for every accepted request on a range of heights and an honest node, the answer is the documented one exactly if no log passes with too few topics and none is out of its place in the block |
| LogSubscription.FilterRevoLogs | pkg/conversion/util.go:90-119 | every log without a filter, else the first matching log only; what is kept has an address that stands for one asked for and topics that are accepted |
| LogSubscription.AllReportedIff | pkg/conversion/util.go:90-119 | the function lets all matching logs through exactly if there is neither address nor topic, or at most one match |
| LogSubscription.ReportedIsMatching | pkg/conversion/util.go:90-119 | it lets only matches through, and something whenever there is a match |
| LogSubscription.NotifyOfReceipts | pkg/notifier/subscription.go:133-152 | answer after answer the queue holds what the receipts so far give rise to, less the repeated hashes |
| LogSubscription.ToldOfEveryMatchIff | pkg/notifier/subscription.go:133-152 | over all receipts seen, the client is sent every matching log exactly if nothing is lost in the filter and no two of them have the same hash |
| LogSubscription.ToldOfAReceiptIff | pkg/notifier/subscription.go:133-152 | of one receipt, with a hash that tells notifications apart: exactly if nothing is lost in the filter and no two matching logs have the same address, topics and data |
| LogSubscription.EqualLogsAreToldOnce | pkg/revo/rpc_types.go:54-59 | a receipt with two equal logs and no filter: one of them is sent |
| BlockFilter.Filter.RequestBlockFilter | pkg/transformer/eth_getFilterChanges.go:45-77 | succeeds exactly if height and all hashes are known and the height is not below the cursor; then answers the hashes above the cursor in order and moves it; otherwise the cursor stays; at a height that has not fallen it is one poll of the serial model |
| BlockFilter.NewBlockFilter | pkg/transformer/eth_newBlockFilter.go:26-37 | without a height nothing is made; with one, a filter under a new largest id whose cursor is that height |
| BlockFilter.SerialPollsDeliverOnceInOrder | pkg/transformer/eth_getFilterChanges.go:45-77 | serial polls with arbitrary failures deliver the heights from installation to cursor once each, in order |
| BlockFilter.OverlappingPollsLeaveNoGap | pkg/transformer/eth_getFilterChanges.go:48-76 | overlapping polls leave no gap below any value the cursor ever had, answer only heights between installation and node, and never underflow |
| BlockFilter.RepeatsIffOvertaken | pkg/transformer/eth_getFilterChanges.go:48-76 | a poll about to store repeats a height exactly if it has something to answer and a cursor above its own was stored meanwhile |
| BlockFilter.AnsweredOnceIffNobodyOvertaken | pkg/transformer/eth_getFilterChanges.go:48-76 | in every run no height is answered twice exactly if no storing poll was overtaken in that way |
| BlockFilter.AloneIsSerial | pkg/transformer/eth_getFilterChanges.go:45-77 | the machine's steps of a poll that nobody interrupts are one poll of the serial model |
| BlockFilter.OverlapCanRepeat | pkg/transformer/eth_getFilterChanges.go:75-76 | a run in which overlapping polls move the cursor back and repeat a height |
| BlockFilter.FilterSimulator.New | pkg/eth/filter.go:36-46 | gives out an id above all earlier ones and installs the filter under it |
| BlockFilter.FilterSimulator.Uninstall | pkg/eth/filter.go:48-50 | removes that filter only; its id does not come back |
| ClientCache.Cache.StoreResponse | pkg/revo/client_cache.go:73-90 | the first response for a key is stored and gets the one flush timer; a later one changes nothing |
| ClientCache.Cache.GetResponse | pkg/revo/client_cache.go:93-106 | the stored bytes for that method and those parameters, or nothing |
| ClientCache.Cache.Flush | pkg/revo/client_cache.go:109-128 | a firing timer finds its entry and deletes that entry only |
| ClientCache.OneTimerPerEntry | pkg/revo/client_cache.go:73-128 | in every reachable state a present key has exactly one outstanding timer, an absent key none |
| ClientCache.TimersDeleteTheirOwnEntry | pkg/revo/client_cache.go:109-128 | a timer deletes the entry it was started for, never a younger one |
| ClientCache.EntriesAreImmutable | pkg/revo/client_cache.go:85-88 | an entry keeps its value for as long as it lives |
| ClientCache.StoredIsServed | pkg/revo/client_cache.go:73-106 | a cacheable answer is stored unless one is there, and can be served from then on; any other changes nothing |
| ClientCache.CachedAnswersComeFromTheNode | pkg/revo/client.go:154-171 | every cached answer is one the node gave for that method and those parameters |
| Client.NodeClient.RequestWithContext | pkg/revo/client.go:149-234 | a cached response is final; otherwise every try but the last met an error of a busy node or one recovered from, and the last met an answer, an error that is neither, or the end of the five tries or of the context; only a decoded answer to a cacheable method enters the cache |
| Client.AskedOnce | pkg/revo/client.go:176-216 | the replies decide result and number of tries |
| Client.BusyIsAskedAgain | pkg/revo/client.go:195 | after k busy replies an answer that decodes is the result, after k + 1 tries, for every k below five |
| Client.OtherErrorsEnd | pkg/revo/client.go:195-216 | an error that is neither busy nor handled ends the call at that try |
| Client.RecoversIff | pkg/revo/client.go:186-194 | an error is recovered from exactly if its handler's answer is not the error of an earlier recovery and a try is left |
| Client.RecoversOnceIffHandlerEchoes | pkg/revo/client.go:186-194 | whatever the replies and whatever the handler's state, an error is recovered from at most once exactly if no answer the handler may give is another error than the one it got |
| Utxos.Examine | pkg/transformer/revo_getUTXOs.go:84-117 | an output is listed exactly if its type and, for an immature stake, immaturity are wanted; the entry's fields in plain terms, the amount in REVO |
| Utxos.ListUtxos | pkg/transformer/revo_getUTXOs.go:61-132 | all eligible outputs for a zero minimum, else those up to the first point where the mature ones suffice; a panic at a premature output before that; a failure otherwise |
| Utxos.AnswersUnique | pkg/transformer/revo_getUTXOs.go:61-132 | these ends exclude each other: every query has one answer |
| Utxos.ListingIsShortest | pkg/transformer/revo_getUTXOs.go:117-132 | a listing for a minimum is worth at least that in REVO, by its mature entries, and every shorter beginning of it is worth less |
| Utxos.ConfirmationsAreNatural | pkg/transformer/revo_getUTXOs.go:100-116 | no listed output is above the node's height, and a panic means that a wanted one is |
| Utxos.ReachableIffTotalSuffices | pkg/transformer/revo_getUTXOs.go:117-132 | with non-negative amounts a positive minimum is reached exactly if the mature eligible total is at least that |
| Utxos.OnlySixTypesOccur | pkg/eth/rpc_types.go:1049-1105 | the type computed from an output script is one of six; the nested types never are |
| Utxos.TypeIff | pkg/eth/rpc_types.go:917-936 | a script is of one of the five recognisable types exactly if it has the length, beginning and end of that type, up to letter case |
| Utxos.SelectiveIff | pkg/transformer/revo_getUTXOs.go:91-110 | a type list can select some output exactly if it names one of those six |
| Utxos.ParseRequest | pkg/eth/rpc_types.go:981-1040 | which parameter lists are rejected; the address is the first parameter and the minimum the second if it is a number |
| Utxos.RequestedTypes | pkg/eth/rpc_types.go:1003-1031 | the types asked for are all of them if some parameter says so, else those named after the amount or in its place |
| Utxos.TypeNamedIff | pkg/eth/rpc_types.go:952-954 | a name is read as the type that prints so, up to letter case |
| Utxos.AllTypesIff | pkg/transformer/revo_getUTXOs.go:67-110 | a request lists every output there can be exactly if it has one parameter, or at most three with no type recognised, or names all, or names all six types that occur and immature |
| Transfers.TallyOutputs | pkg/transformer/eth_getTransactionByHash.go:343-362 | each 64-bit total is the wrapped exact sum of its outputs; the receiver is the first address named |
| Transfers.TransferOf | pkg/transformer/eth_getTransactionByHash.go:327-382 | the receiver is the first to be paid other than the first input's address, and the value that of the whole transaction |
| Transfers.WhoIsPaid | pkg/transformer/eth_getTransactionByHash.go:343-362 | an output goes to its address or, without one, to the first of its addresses; what is refund, sent and paid follows from that |
| Transfers.RefundAndSentAreAll | pkg/transformer/eth_getTransactionByHash.go:345-362 | for all outputs what came back and what was sent is exactly what was paid out |
| Transfers.TotalsBalance | pkg/transformer/eth_getTransactionByHash.go:345-362 | the 64-bit totals balance even when they overflow |
| Transfers.PaidIsPartOfSent | pkg/transformer/eth_getTransactionByHash.go:352-360 | with non-negative amounts the receiver's part is at most what was sent |
| Transfers.ReceiverIsFirst | pkg/transformer/eth_getTransactionByHash.go:352-355 | the receiver is the first non-empty first address that is not the sender's |
| Transfers.WeiExactIff | pkg/transformer/eth_getTransactionByHash.go:381-382 | the low 64 bits of the magnitude are the exact wei value exactly for 0 to 1844674407 satoshis |
| Transfers.ReportedIsPaidIff | pkg/transformer/eth_getTransactionByHash.go:363-382 | the reported value is what the receiver was paid exactly if that is at most 1844674407 satoshis and something came back, nothing was sent, no fee was paid, or the fee is above the amount and double it (modulo 2^54) |
| Transfers.AFeeIsTakenOff | pkg/transformer/eth_getTransactionByHash.go:370-376 | a transaction that pays 10 satoshis and reports 5 |
| Transfers.ChangeShowsThePayment | pkg/transformer/eth_getTransactionByHash.go:363-382 | a transaction with change that pays 10 satoshis and reports them |
| Transfers.FeeAboveAmountReportsTheDifference | pkg/transformer/eth_getTransactionByHash.go:375-382 | nothing back and a fee above the amount: the excess of the fee is reported, as a positive value |
| Scripts.ConvertToBigEndian | pkg/revo/btcasm.go:167-177 | rejects odd lengths, else the bytes reversed without leading zeros |
| Scripts.GasLimitIsConverted | pkg/revo/btcasm.go:166-177 | on whole bytes of hex the result denotes the input's little-endian number, has no leading zero, and is empty exactly for zero |
| Scripts.SameValueSameDigits | pkg/revo/btcasm.go:166-177 | so the result is determined by the number, up to letter case |
| Scripts.ReadWrite | pkg/revo/btcasm.go:23-151 | reading a written call or creation recovers every field, each named, and fails exactly if the gas limit is not whole bytes |
| Scripts.WriteIsInjective | pkg/revo/btcasm.go:23-151 | the four shapes, and contracts within a shape, cannot be confused |
| Scripts.FoundIffWritten | pkg/revo/btcasm.go:23-151 | a script is read as a contract's exactly if, but for the fourth token of one with a sender, it is the script of a contract whose gas limit is whole bytes, and then that contract's fields are read |
| Scripts.ExtractContractInfo | pkg/revo/rpc_types.go:519-600 | the first contract (or failing) output decides alone; the duplicate error is unreachable |
| Scripts.FirstDecides | pkg/revo/rpc_types.go:519-600 | in plain terms: no contract if all outputs are plain; else the first that is not is an error if it is a spend or cannot be disassembled, and the contract its script is |
| Chains.EndsIffNoRepeat | pkg/transformer/util.go:181-237 | a chain through finitely many values ends exactly if it never returns to one, and then within that many steps |
| SenderSearch.SearchSenderAddress | pkg/transformer/util.go:181-237 | the recursion answers what the first output that is not a spend decides, at the end of the chain of first OP_SPEND inputs |
| SenderSearch.HopIs | pkg/transformer/util.go:182-237 | the output spent by the first OP_SPEND input: a spend is followed into its transaction, a call gives the contract called, a creation its sender, anything else none |
| SenderSearch.HopEnds | pkg/transformer/util.go:192-202 | without such an input or its transaction nothing is found; an output that is not there stops the call |
| SenderSearch.SearchFollows | pkg/transformer/util.go:209-213 | the answer is that of the transaction a spend goes on with, else that of the hop itself |
| SenderSearch.TerminatesIffNoRevisit | pkg/transformer/util.go:209-213 | the search ends exactly if it comes to no transaction twice, within as many hops as the node has transactions |
| SenderSearch.AcyclicTerminates | pkg/transformer/util.go:180-213 | on every acyclic history it ends, for every transaction |
| Windows.Analytics.Bump | pkg/analytics/analytics.go:49-80 | after any events the counts are those of the last min(N, events) outcomes, the next slot is the oldest, and neither panic is reached |
| Windows.Analytics.GetSuccessRate | pkg/analytics/analytics.go:27-39 | 1 until the window is full, then the number of successes among the last N outcomes over N |
| Windows.RingStep | pkg/analytics/analytics.go:78-79 | overwriting a slot and moving on keeps the ring equal to the last entries of the history |
| Windows.RollingLimit.Push | pkg/notifier/subscription.go:261-263 | the ring holds the last pushes |
| Windows.RollingLimit.Oldest | pkg/notifier/subscription.go:257-259 | the limit-th last push, or nothing when there were fewer |
| Amounts.WeiRoundTrip | pkg/transformer/util.go:80-116 | wei to REVO and back rounds down to a multiple of 10^9 |
| Amounts.RoundingIsMonotoneAndIdempotent | pkg/transformer/util.go:80-91 | the rounding keeps order and repeats without effect |
| Amounts.RevoRoundTripIff | pkg/transformer/util.go:111-129 | REVO to wei and back is the identity exactly on multiples of 10^-9 |
| Amounts.FormattedIffWhole | pkg/transformer/util.go:118-129 | formatting succeeds exactly if the wei value is whole, and gives it |
| Amounts.GasPriceIsAtLeastMinimum | pkg/transformer/util.go:32-45 | the gas price is at least the minimum of 4*10^11 wei, which it is without a price or with a lower one, and the caller's otherwise |
| Amounts.GetRequiredUtxos | pkg/transformer/eth_signTransaction.go:49-76 | the shortest non-empty prefix of the outputs, one by one, worth the needed amount; fails exactly if there is none |
| Amounts.SelectableIffTotalSuffices | pkg/transformer/eth_signTransaction.go:64-76 | with non-negative amounts it succeeds exactly if there is an output and all together suffice |
| Amounts.NeededIsLeast | pkg/transformer/eth_signTransaction.go:85-87 | the needed amount is the least that covers the value and the gas however much of the limit is used |
| Amounts.ChangeNeverFailsAfterSelection | pkg/transformer/eth_signTransaction.go:78-83 | after a successful selection the change is computed, and change and needed amount make up the balance |
| Amounts.ChangeMixesUnits | pkg/transformer/eth_signTransaction.go:78-83 | payment and change equal the inputs' worth only if that is nothing; the change is the satoshis left only if nothing was needed |

## Left out

- HTTP, websocket and JSON encoding, logging, configuration, the command line and the block-hash database: input and output, not state.
- base58, SHA-256, MD5, script disassembly, signing and the address conversions: libraries whose code is not part of this model; a disassembled script is a list of tokens, a hash is a function.
- Letter case beyond ASCII: strings are hex, so only A to Z are lowered.
- Real time: timers, back-off delays and intervals are steps that may happen; nothing is proved about how soon. `getBackoff` and `computeBackoff` are delays only.
- Sending on the notifier's queue after the writer loop has closed it, which panics in the code: in the model nothing is enqueued any more.
- The flush of `subscriptionsFlushed`: nobody waits on that channel; a flush signal is an event that writes nothing, and no code enqueues one.
- The order in which `SendAll`'s goroutines reach a client's queue: the model records what is handed out, not when it arrives.
- `eth_getFilterChanges` for log filters: it never moves its cursor; its search is the log pipeline.
- Subscribing, waiting for logs and the choice of the next block in a logs subscription; its hash set, its filter and its throttle are modelled.
- Proxies that only forward one value, such as chain id, gas price, compilers and uncle counts: they have no behaviour to prove anything about.
- The block that a development node makes after `eth_newBlockFilter`: it is the node's height that grows.
- LogRequests.GetLogs: a request is what JSON decoding makes of it; reading a hex quantity is the library's, and a parameter. The `blockhash` of a request is not looked at by the code either.
- LogRequests.AnswerIsDocumentedIff: says nothing about negative ends of the range, which the node interprets.
- LogSubscription.NotifyOfReceipts: which receipts an answer holds, and that a failed call is repeated, are left to the node and to time.
- Lifecycle.ConfirmedMeansRemoved: the notifier's mutex is left out, so more interleavings are covered than can happen; contexts that end with their connection are not counted as cancelled.
- Transfers.ReportedIsPaidIff: total input and output are non-negative and below 2^63 satoshis.
- Unsubscription.SpawnedCallsDecrease: says that spawned calls run out, not that each is scheduled.
- Client.NodeClient.RequestWithContext: the error handler's own node calls are not modelled, only what it returns.
- BlockFilter.Filter.RequestBlockFilter: heights are at most 2^44, so that a height below the cursor makes the unsigned difference longer than any slice.
- Transfers.TransferOf: conversion of the two addresses to hex is left out; an empty receiver stands for the zero address.
- Amounts.RevoRoundTripIff: amounts are exact; the decimal library's division rounds after 16 places, which amounts of up to 34 places do not notice.
- Windows.Analytics.Bump: the window has at least one slot; with none the code divides by zero at the first event, and likewise for the throttle's ring.
- Windows.Analytics.GetSuccessRate: the share is an exact rational, not a 32-bit float.
- SenderSearch.SearchSenderAddress: takes the length of the chain as a ghost argument; on a history where there is none the code does not return.
- NewHeads.HeadsIncreaseWithinARun: the node's heights are natural numbers.
