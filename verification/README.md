# Verification of the crypto market service

The service lets users follow exchange prices over server-sent events. A connecting user is registered,
its connection record goes through a shared buffer into a cache server and a key queue, a worker logs in at
the exchange for it, a periodic fetcher stores prices, a periodic sender puts them into the connection
records, and event generators broadcast the records to the users' bounded queues. Nearly all of it is
asyncio code, so what matters is what holds at every `await`, in every interleaving.

Where the source is an object the part is modelled twice: as a state with one function per atomic step
(`Step`, `Connect`, `Handle`, ...), about whose runs the theorems speak, and as a class whose methods update
the same fields in place and are proved to perform exactly those steps. An atomic step is the code between two
suspension points; a run is any sequence of steps that are possible one after the other.

| file | models |
|---|---|
| `SseBus.dfy`, `SseManager.dfy` | the fan-out bus: subscribe, unsubscribe, broadcast under one lock, suspended puts, consumers |
| `IngestBuffer.dfy`, `CacheRecords.dfy`, `KeyFate.dfy`, `KeyRepeats.dfy`, `KeyRuns.dfy`, `DeribitManage.dfy` | overlapping `enqueue` calls over one deque, the cache and the key queue; what the cache writes leave; when a key can be lost and when published twice; runs that do so; the object |
| `Records.dfy`, `Routing.dfy` | connection records and the patterns that find them; records written, rewritten, deleted, read and broadcast by several parties at once |
| `PriceSender.dfy` | one pass of the price sender, and of an event generator over the records |
| `AccountSession.dfy`, `SessionOutcome.dfy`, `TaskAccount.dfy` | the login/query session against an arbitrary server; how it ends, said by the replies; the loop |
| `BoundedDictionary.dfy`, `PersonRegistry.dfy` | the size-capped dictionary and the registration of users on top of it |
| `SubscriptionTable.dfy`, `SecondSubscriber.dfy` | the subscription table, its three handlers and its copy in the cache server; what a second subscription does to the price sender |
| `DatabaseConnection.dfy`, `PriceFetch.dfy`, `TickerSupport.dfy` | the two session scopes of a database connection; the fetch loop over the subscribed tickers; which tickers it supports |
| `DateGrouping.dfy`, `CreateTables.dfy` | the two row-grouping loops, the retry recursion of the table creation |
| `ClientPool.dfy`, `WorkerQueue.dfy` | the one-shot client pool and the capped queue of ready-made workers |
| `Prelude.dfy`, `Settings.dfy` | shared vocabulary; the constants used |

Some properties one would expect do not hold of the code. For these the code is modelled as it is and a lemma
says exactly when they do hold:

- a subscriber that stops reading, as every closed connection does because nothing unsubscribes it, lets at most
  one broadcast more than its queue's size start on its key; then the lock is held and the whole bus stands still
  until that very queue is read (`UnreadQueueHaltsItsKey`, `UnreadQueueStopsTheBus`).  Every queue size has such a
  run (`StandstillIsReached`), and a broadcast can end without anybody reading exactly when every queue of its key
  has room (`EndsUnreadIffRoom`);
- a submission is kept only while the deque has room (`SubmitKeepsBooks`), and it can be lost later exactly when a
  flush was suspended in the middle as it came (`SubmissionNeverLost`, reached by `LosingStateReached`);
- a key may be published twice: `NeverTwice` says for every state when it cannot, whatever is submitted further; for
  a key that is buffered once, with no flush suspended, exactly when the queue could take a full deque, or one flush at
  most can begin before the deque is cleared (`BufferedKeyNeverTwice`, reached by `RepeatReached`); with nothing
  further submitted, exactly when the queue can take the buffer, or at most one call is in flight (`PublishedOnce`);
- a message can reach every connection its owner's pattern matches (`ReachesExactly`): those of users whose id starts
  with the owner's id and a colon (`PlainOwnerReaches`), and everybody's for an owner called `*`
  (`StarOwnerReachesEverybody`);
- one listed id without a connection ends the price sender's whole pass (`EverybodyIsServed`), and a ticker
  without a row is quoted with the previous ticker's (`QuotesOwnTicker`);
- a session sends `{}` exactly after a grant with a token that counts as false, or with a refresh token only
  (`EmptyFrameIffBadGrant`), and may take the reply to that `{}` for a grant (`AuthTraceSafety`,
  `EmptyFrameGranted`); the shared profile record only ever holds the first person (`OnlyFirstProfile`);
- a statement whose commit fails ran all the same although the run is aborted (`CommitsAllButTheLast`);
- the person registry has one place fewer than configured while every connect brings a secret
  (`RegistryIsASmallerCache`); its last place is in use exactly as `FullIff` says;
- a second subscriber's `create_order` lists a request id (`CreateSubscribes`), at which the price sender's passes end
  once the table is saved (`SecondSubscriberCutsOff`), `cancel_all_orders` never succeeds
  (`CancelAllFails`), and both leave the cached table stale (`SyncIsLostBySilentEdits`);
- a successful retry of the table creation is reported as a failure (`HandlerRestart`).

`FinishEmptiesKey` is about a hypothetical input: a put that raises anything but QueueFull, which asyncio queues do
not do, would leave its key with an empty set when it happens to every queue of the key.

## Model

| member | source | states |
|---|---|---|
| SseBus.DeliveryConservation | cryptomarket/project/sse_manager.py:28-118 | In every interleaving of subscribe, unsubscribe, single puts of a (possibly suspended) broadcast and consumer gets: consumed, then buffered, then the message in flight, then a message lost to a failed put, is in order exactly what was broadcast to the queue's key while it was registered; queues never exceed their capacity. |
| SseBus.RegistryMatchesHistory | cryptomarket/project/sse_manager.py:33-58 | A queue is in the registry under a key exactly when the history of calls makes that key its home; so it sits under at most one key. |
| SseBus.SubscribersAgree | cryptomarket/project/sse_manager.py:79-99 | While no broadcast is in flight, the later of two subscribers of a key has received a suffix of what the earlier one received. |
| SseBus.OwedIsSuffix | cryptomarket/project/sse_manager.py:79-99 | The same about what the two are owed, at any moment. |
| SseBus.OtherKeysDoNotMatter | cryptomarket/project/sse_manager.py:79-99 | Broadcasts to other keys, and everything else that may interleave, leave what a subscriber is owed alone. |
| SseBus.LockFreezesRegistry | cryptomarket/project/sse_manager.py:79-99 | From the start of a broadcast to its end the registry it iterates over does not change, whatever the consumers do. |
| SseBus.LockHolder | cryptomarket/project/sse_manager.py:79-99 | Over every run: whatever holds the lock is the last started broadcast; it walks the queues of that key when the registry knows it, and otherwise deletes the record of that very key. |
| SseBus.UnknownKeyLeavesBus | cryptomarket/project/sse_manager.py:80-91 | A broadcast to a key without subscribers gives nobody anything and leaves registry and queues as they were. |
| SseBus.NoEmptyKeys | cryptomarket/project/sse_manager.py:33-58 | Without failing puts every key maps to a non-empty set, in every reachable state. |
| SseBus.FinishEmptiesKey | cryptomarket/project/sse_manager.py:113-118 | If puts could fail otherwise than by a full queue: the clean-up loop leaves an empty set under the key exactly when every put of the broadcast failed. |
| SseBus.UnsubscribeUndoesSubscribe | cryptomarket/project/sse_manager.py:28-58 | Unsubscribing the queue just created restores the registry exactly when the key was not left with an empty set before. |
| SseBus.UnreadQueueHaltsItsKey | cryptomarket/project/sse_manager.py:79-99 | In every run in which a queue is never read, at most one broadcast more than its capacity is ever started on its key while it is registered; with that one it is full and the broadcast is in flight. |
| SseBus.UnreadQueueStopsTheBus | cryptomarket/project/sse_manager.py:79-99 | Once a broadcast waits on a full queue, no run without a read of that queue contains a subscribe, unsubscribe, start or end of a broadcast; registry, flight and queue stay as they are. |
| SseBus.EndsUnreadIffRoom | cryptomarket/project/sse_manager.py:79-99 | Before a broadcast starts: some run without a read (and without a failing put) frees the lock again exactly when every queue of its key holds fewer messages than its size. |
| SseBus.StandstillIsReached | cryptomarket/project/sse_manager.py:28-99 | For every queue size, a run from the start without a read in which one broadcast more than that is started and waits on the full queue. |
| SseBus.BroadcastCanEnd | cryptomarket/project/sse_manager.py:95-118 | A broadcast in flight can always be brought to its end by reading the full queues ahead of it and no others. |
| SseManager.ServerSSEManager.Conserves | cryptomarket/project/sse_manager.py:20-118 | Of every manager object, after any calls: a queue's taken, buffered, in-flight and lost messages are in order what it was owed, within its size. |
| SseManager.ServerSSEManager.Subscribe | cryptomarket/project/sse_manager.py:28-46 | Creates a new empty queue under the key and changes nothing else: one Subscribe step. |
| SseManager.ServerSSEManager.Unsubscribe | cryptomarket/project/sse_manager.py:48-53 | Takes the queue out of the key's set, and the key out when the set is empty; unknown keys change nothing. |
| SseManager.ServerSSEManager.Take | cryptomarket/project/functions.py:336-341 | A consumer takes the oldest message of its queue, lock or no lock. |
| SseManager.ServerSSEManager.PutAll | cryptomarket/project/sse_manager.py:95-99 | The loop adds only puts and consumer steps to the history; it is done exactly when no queue remains, and otherwise stays suspended on a full queue with the lock. |
| SseManager.ServerSSEManager.Release | cryptomarket/project/sse_manager.py:113-118 | Removing the dead queues and leaving the lock is one Finish step. |
| SseManager.ServerSSEManager.Broadcast | cryptomarket/project/sse_manager.py:59-118 | Nothing at all for an empty message; otherwise the history grows by the start of this broadcast, by puts and gets only, and by the release of the lock exactly when the call is done; a call that is not done waits on a full queue. For a key nobody subscribes to, and only for it, the record of that very key is deleted and nothing else changes. |
| IngestBuffer.ExactlyOnce | cryptomarket/deribit_client/deribit_clients.py:71-139 | For any overlapping calls, any of whose writes may fail, while deque and queue have room: submitted = consumed ++ queued ++ buffered as sequences, and no flush suspends. |
| IngestBuffer.NoKeyTwice | cryptomarket/deribit_client/deribit_clients.py:111-124 | Under the same conditions distinct submissions are never published twice, and a published key is not buffered any more. |
| IngestBuffer.SubmitKeepsBooks | cryptomarket/deribit_client/deribit_clients.py:32-76 | Appending keeps every record exactly when the deque is not full. |
| IngestBuffer.OverlapKeepsBooks | cryptomarket/deribit_client/deribit_clients.py:112-124 | While no other flush is suspended: a submission that arrives during a flush survives it exactly when the queue has room for the whole buffer at the start of the flush. |
| IngestBuffer.OverlapLoses | cryptomarket/deribit_client/deribit_clients.py:122-124 | Without that room the suspended flush publishes what it had collected and then clears the newer record too. |
| IngestBuffer.FlushesPublishOnce | cryptomarket/deribit_client/deribit_clients.py:112-124 | While no other flush is suspended, in the schedule in which two flushes both begin before consumers let the first one end: every buffered key is published once exactly when the queue has room for the whole buffer at the start, and twice otherwise. |
| KeyFate.NeverLost | cryptomarket/deribit_client/deribit_clients.py:71-139 | In any state: no continuation whose submissions find room loses a key exactly when it is taken, queued or held by a suspended flush, or it is buffered and no flush is suspended. |
| KeyFate.SubmissionNeverLost | cryptomarket/deribit_client/deribit_clients.py:71-139 | A submitted record is safe over every such continuation exactly when no flush was suspended as it came (or its key was out already). |
| KeyRuns.LosingStateReached | cryptomarket/deribit_client/deribit_clients.py:112-124 | For every size above one, a run from the start, of differing keys, that loses a record submitted into a deque with room. |
| KeyRepeats.NeverTwice | cryptomarket/deribit_client/deribit_clients.py:71-139 | In any state and for any key, over every continuation whose submissions find room and are under other keys: the key is never published twice exactly when it is out once at most and the deque does not hold it, or no flush can begin any more, or it is buffered once and not out, and one flush at most can begin or none will ever have to wait. |
| KeyRepeats.BufferedKeyNeverTwice | cryptomarket/deribit_client/deribit_clients.py:71-139 | The same for a key buffered once and not published, with no flush suspended: exactly when queue contents plus the deque's size fit into the queue, or calls in flight plus free places of the deque are at most one. |
| KeyRepeats.WayToDouble | cryptomarket/deribit_client/deribit_clients.py:71-139 | In every other state some such continuation publishes the key twice, and its submissions need not repeat any key. |
| KeyRepeats.PublishedOnce | cryptomarket/deribit_client/deribit_clients.py:88-124 | With no flush suspended and nothing further submitted, every continuation publishes each buffered key at most once and in order exactly when the queue can take the whole buffer or at most one call is in flight. |
| KeyRuns.RepeatReached | cryptomarket/deribit_client/deribit_clients.py:71-139 | For every size above one, a run from the start, of differing keys, to a state in which everything fits and one call is in flight, and from which a key can be published twice. |
| IngestBuffer.ReadyWhenQuiet | cryptomarket/deribit_client/deribit_clients.py:88-124 | With no call and no write under way, every published key has a cache record, unless a write of that key failed; room in the buffers is not needed. |
| IngestBuffer.AlwaysCovered | cryptomarket/deribit_client/deribit_clients.py:88-124 | At every moment every published, queued or buffered key is cached, or has a write under way or failed. |
| IngestBuffer.CacheHoldsSubmitted | cryptomarket/deribit_client/deribit_clients.py:95-104 | For distinct keys a cached record is the one submitted under its key, in every interleaving. |
| CacheRecords.CacheIsWhatLanded | cryptomarket/deribit_client/deribit_clients.py:95-104 | Over every run the cache holds under each key the record of the last write that ended well there, and the failed keys are those of the failed writes in order. |
| CacheRecords.CachedIffLanded | cryptomarket/deribit_client/deribit_clients.py:95-104 | Over every run: a key is cached exactly when some write of it ended well, and counts as failed exactly when some write of it failed. |
| CacheRecords.ReadyWithoutFailures | cryptomarket/deribit_client/deribit_clients.py:88-124 | In a run without a failing write every published key has its record once nothing is under way. |
| CacheRecords.CallWritesAll | cryptomarket/deribit_client/deribit_clients.py:73-103 | A call writes everything the deque holds by then, its own record last; a full deque has dropped its oldest. |
| CacheRecords.NextCallMakesUp | cryptomarket/deribit_client/deribit_clients.py:88-139 | After a failing write a later call can store and publish everything the failed call left, in order, with its own record. |
| DeribitManage.DeribitManage.BeginEnqueue | cryptomarket/deribit_client/deribit_clients.py:73-103 | enqueue up to the gather: append (a full deque drops its oldest) and start one write per buffered record. |
| DeribitManage.DeribitManage.WriteFails | cryptomarket/deribit_client/deribit_clients.py:104-139 | A failing write ends its call, leaves the deque alone and its other writes under way. |
| DeribitManage.DeribitManage.PublishKeys | cryptomarket/deribit_client/deribit_clients.py:112-124 | The publishing loop puts all keys and clears the deque, or fills the queue and stays suspended with the rest. |
| DeribitManage.DeribitManage.WriteLands | cryptomarket/deribit_client/deribit_clients.py:95-104 | A finished write stores its own record under its own key. |
| DeribitManage.DeribitManage.Covers | cryptomarket/deribit_client/deribit_clients.py:88-124 | Of every object, after any calls: each published or buffered key is cached, or a write of it is under way or failed. |
| DeribitManage.DeribitManage.NextIsSafe | cryptomarket/deribit_client/deribit_clients.py:71-139 | Of every object: a new record submitted now is never lost exactly when no call is suspended in its publishing loop. |
| DeribitManage.DeribitManage.BufferedIsOnce | cryptomarket/deribit_client/deribit_clients.py:71-139 | Of every object with no flush suspended: a key buffered once and not published is never published twice exactly when the queue is empty, or calls in flight plus free places of the deque are at most one. |
| WorkerQueue.SizeIsCapped | cryptomarket/deribit_client/deribit_clients.py:183-213 | In every interleaving with the consumers the queue holds at most min(limitations, 40) workers. |
| WorkerQueue.FullBranchReachable | cryptomarket/deribit_client/deribit_clients.py:207-210 | The branch for a full queue can be reached exactly when the limit exceeds 40. |
| WorkerQueue.WorkerPool.OfferRound | cryptomarket/deribit_client/deribit_clients.py:196-213 | A round of the producer, with sessions taking workers at its suspensions, performs legal steps only, offers exactly `limit` times unless it stays suspended on the full queue, and never exceeds min(limit, 40); with nobody taking it fills the queue to that size. |
| Routing.RoutedByPattern | cryptomarket/tasks/celery/task_send_every_60_seconds.py:169-229 | Whatever the interleaving of writes, rewrites, deletions, reads and broadcasts, a message prepared for a person only enters queues that subscribed under a key that person's pattern matches. |
| Records.PatternMatchesUser | cryptomarket/tasks/celery/task_send_every_60_seconds.py:179-199 | For ids without pattern characters a person's pattern matches a user's connection key exactly when the two are the same or the user id starts with the person id and a colon. |
| Records.StarMeans | cryptomarket/project/functions.py:553-568 | A star in a pattern stands for any number of characters. |
| Records.ClassMeans | cryptomarket/project/functions.py:553-568 | A bracket class stands for one of its characters (`NegatedClassMeans`, `RangeMeans`, `QuestionMeans`, `EscapeMeans` and `PlainMeans` say the rest). |
| Routing.OnlyTheOwner | cryptomarket/api/v2/api_sse_monitoring.py:56-77 | With ids free of colons and pattern characters every message reaches its owner's connections only. |
| Routing.ReachesExactly | cryptomarket/tasks/celery/task_send_every_60_seconds.py:169-229 | Over all runs of the whole pipeline and for every id and key: some run brings a person's message to a queue subscribed under the key exactly when the person's pattern matches the key. |
| Routing.PlainOwnerReaches | cryptomarket/tasks/celery/task_send_every_60_seconds.py:169-229 | For an owner id without pattern characters: exactly when owner and user are the same or the user id starts with the owner id and a colon. |
| Routing.StarOwnerReachesEverybody | cryptomarket/api/v2/api_sse_monitoring.py:55-64 | Ids are not restricted: a message prepared for `*` can reach every user's queue. |
| Routing.SenderRewrites | cryptomarket/tasks/celery/task_send_every_60_seconds.py:196-229 | An undisturbed sender replaces the message of the record it found, which keeps naming its own key, and nothing else. |
| Routing.GeneratorDelivers | cryptomarket/project/functions.py:307-320 | An event generator that reads a record with a message appends exactly that message to the first queue of the record's key when there is room. |
| Routing.UnknownKeyIsDeleted | cryptomarket/project/sse_manager.py:79-91 | A broadcast of a record nobody subscribes to deletes exactly that record; other records, queues, registry and parties stay as they are. |
| Routing.RecordChanges | cryptomarket/deribit_client/deribit_clients.py:95-103 | Each event leaves all records but the one it is for alone; a cache write of enqueue leaves a record of its own key without a message, a deletion none. |
| PriceSender.ServesAPrefix | cryptomarket/tasks/celery/task_send_every_60_seconds.py:43-237 | The pass serves a prefix of the address list in order and stops exactly at the first address it cannot serve. |
| PriceSender.AddressAt | cryptomarket/tasks/celery/task_send_every_60_seconds.py:43-46 | The j-th id of the i-th table entry stands behind all ids of the earlier entries and the j before it; `AddressCount` and `PositionOf` say that there is nothing else. |
| PriceSender.ServedIff | cryptomarket/tasks/celery/task_send_every_60_seconds.py:53-237 | The n-th address is served exactly when the database can be read, the first ticker has a row, and everybody up to it has a connection with a record. |
| PriceSender.ServedInTableOrder | cryptomarket/tasks/celery/task_send_every_60_seconds.py:43-237 | The same in table order: whom a pass serves, by entry and position in its list. |
| PriceSender.EverybodyIsServed | cryptomarket/tasks/celery/task_send_every_60_seconds.py:58-243 | Everybody is served exactly when the database is a known asynchronous one, every listed id is reachable and the first ticker has a row. |
| PriceSender.QuotesOwnTicker | cryptomarket/tasks/celery/task_send_every_60_seconds.py:52-189 | A message quotes the subscribed ticker exactly when the database has a row for that ticker. |
| PriceSender.RecordsAfterwards | cryptomarket/tasks/celery/task_send_every_60_seconds.py:214-229 | Each record ends with the last message delivered to it and is otherwise as it was; other records are untouched and none appears or disappears. |
| PriceSender.RecordsStayHome | cryptomarket/tasks/celery/task_send_every_60_seconds.py:179-229 | After a pass each record still names the key it is stored at, and its message was prepared for somebody whose pattern matches that key. |
| PriceSender.CacheServer.SendTo | cryptomarket/tasks/celery/task_send_every_60_seconds.py:196-237 | Rewriting one person's record, or ending the pass when it cannot be found. |
| PriceSender.CacheServer.SendPrices | cryptomarket/tasks/celery/task_send_every_60_seconds.py:25-247 | The loop makes exactly the specified deliveries, the records are the result of them, and it serves the n-th address exactly when it and all before it can be served. |
| PriceSender.CacheServer.RecordToBroadcast | cryptomarket/project/functions.py:307-320 | The generator broadcasts the record read last, and nothing when a record is gone or there is none. |
| AccountSession.AuthTraceSafety | cryptomarket/tasks/queues/task_account_user.py:96-229 | Over a person's whole life of sessions and for every server, each private request directly follows a grant on the same connection and carries its token; the frame that grant answered was `{}` exactly when a refresh token without an access token came just before, and otherwise an auth request. |
| AccountSession.PrivateAnswersAuth | cryptomarket/tasks/queues/task_account_user.py:117-137 | When no grant lacks its access token, every private request directly follows the answer to an auth request. |
| AccountSession.EmptyFrameGranted | cryptomarket/project/functions.py:425-453 | Two replies after which a private request is sent with a token that answered `{}`. |
| AccountSession.TokensAreUsedOnce | cryptomarket/tasks/queues/task_account_user.py:117-137 | No token is used for two requests when the server grants none twice. |
| AccountSession.ExitForgetsTokens | cryptomarket/tasks/queues/task_account_user.py:222-229 | Both tokens are empty again on every exit of a session. |
| AccountSession.AnswerIsLastReply | cryptomarket/tasks/queues/task_account_user.py:142-159 | An answered session reports the last reply it read, and that reply did not answer an auth request. |
| SessionOutcome.AnsweredIff | cryptomarket/tasks/queues/task_account_user.py:98-220 | Over every script: a session is answered exactly when a reply that is reached, taken with an access token at hand, lists accounts whose first has its three fields; that account is the answer. |
| SessionOutcome.FailedIff | cryptomarket/tasks/queues/task_account_user.py:98-229 | It fails exactly without a secret, at a frame that cannot be sent, or at a reply that neither lets it go on nor shows an account. |
| SessionOutcome.WaitingIff | cryptomarket/tasks/queues/task_account_user.py:98-145 | It waits exactly while every reply lets it go on: errors always, empty replies with a token, grants without one. |
| AccountSession.EmptyFrameIffBadGrant | cryptomarket/project/functions.py:425-453 | A session sends the empty frame exactly when the server answered an auth request with an access token that counts as false, or with a refresh token and no access token. |
| AccountSession.OnlyFirstProfile | cryptomarket/tasks/queues/task_account_user.py:182-213 | The shared profile record never gains a second person; storing takes effect exactly for the first one. |
| AccountSession.LatestRowIsKept | cryptomarket/tasks/queues/task_account_user.py:182-213 | That person's stored profile is the one of its latest session. |
| TaskAccount.Person.UpdatePersonManual | cryptomarket/project/functions.py:407-459 | Which frame the next round sends; without a stored secret the person is made inactive. |
| TaskAccount.Person.Round | cryptomarket/tasks/queues/task_account_user.py:98-229 | One pass of the loop: frame, reply, token fields afterwards, and whether the session goes on. |
| TaskAccount.Person.Session | cryptomarket/tasks/queues/task_account_user.py:96-229 | The loop produces exactly the specified trace, outcome and token fields; an inactive person sends nothing. |
| TaskAccount.ProfileCache.Store | cryptomarket/tasks/queues/task_account_user.py:165-220 | The profile is stored exactly when the key is well-formed and the record is absent or already holds the person; the session answers True for every well-formed key, because the IndexError of an absent person is swallowed by the connection's context. |
| BoundedDictionary.WriteSpec | cryptomarket/deribit_client/deribit_person.py:43-58 | One write keeps the cap, holds the written value, keeps every other live value, and loses at most the oldest key. |
| BoundedDictionary.RemovedOrder | cryptomarket/deribit_client/deribit_currency.py:164-165 | Removing an entry takes out its first occurrence and leaves the order of the others. |
| BoundedDictionary.WritesSpec | cryptomarket/deribit_client/deribit_currency.py:33-47 | Over any writes the cap holds, the last written key is there and every live key has its latest value. |
| BoundedDictionary.DistinctWritesAreAWindow | cryptomarket/deribit_client/deribit_person.py:43-58 | For distinct keys the dictionary holds exactly the last maxsize writes, in order. |
| BoundedDictionary.FifoDictionary.SetItem | cryptomarket/deribit_client/deribit_person.py:43-58 | Refuses missing keys and values, fails on a cap of zero, and otherwise performs exactly one write, in either dictionary class. |
| PersonRegistry.RegistrationInvariant | cryptomarket/project/functions.py:378-404 | Over any run of connects and reconnects the size stays within the cap, every key is its person's id, and the last to connect is present and active. |
| PersonRegistry.ReconnectSpec | cryptomarket/project/functions.py:401-404 | A reconnect keeps the person's credentials and only makes it active. |
| PersonRegistry.FirstConnectSpec | cryptomarket/project/functions.py:392-399 | A first connect registers exactly what was sent, also when it raises for want of a secret. |
| PersonRegistry.RegistryIsASmallerCache | cryptomarket/project/functions.py:378-404 | Over every run of connects, the users in the registry and their order; when every connect brings a secret that is a first-in first-out cache with one place fewer than the cap. |
| PersonRegistry.FullIff | cryptomarket/project/functions.py:378-404 | Over every run a registry of more than one place is full exactly when some new user without a secret took the last place and since then only the oldest user came back, or others took the last place in turn. |
| PersonRegistry.PersonManager.CreatePersonManual | cryptomarket/project/functions.py:378-404 | The objects in the registry go through exactly the specified connect, and a known user keeps the same object. |
| SubscriptionTable.TickersInStep | cryptomarket/deribit_client/deribit_currency.py:75-245 | Over every run of handlers the tickers stay within the supported ones, the cap of 5000 is never reached, and with a working cache server the record names exactly the table's tickers. |
| SubscriptionTable.NeverFull | cryptomarket/project/settings/core.py:145-193 | A table of supported tickers is always smaller than its cap. |
| SubscriptionTable.CreateSubscribes | cryptomarket/deribit_client/deribit_currency.py:75-120 | A create answered with 201 lists exactly one id more, under its ticker; it subscribed the user exactly when the ticker was new and the id is its own stripped form, or when the request id is the user's id. |
| SubscriptionTable.StatusIs | cryptomarket/deribit_client/deribit_currency.py:75-234 | The status of every answer: 401 for unknown, 400 for inactive users, 404 for tickers that may not be chosen, and those of the three handlers. |
| SubscriptionTable.CreateAppends | cryptomarket/deribit_client/deribit_currency.py:95-112 | The id comes last in its list and a new ticker last in the table; all other lists and the order stay. |
| SubscriptionTable.StripSpec | cryptomarket/deribit_client/deribit_currency.py:95-101 | What is stripped from an id is the space at both ends, and all of it. |
| SubscriptionTable.CancelDropsTicker | cryptomarket/deribit_client/deribit_currency.py:148-177 | When a cancel succeeds, and that it drops the ticker for everyone and nothing else. |
| SubscriptionTable.CancelKeepsOthers | cryptomarket/deribit_client/deribit_currency.py:160-165 | A cancel leaves every other list and the order of the other tickers. |
| SubscriptionTable.CancelAllFails | cryptomarket/deribit_client/deribit_currency.py:179-213 | cancel_all never answers 200; for a listed user it answers 500 after taking one occurrence out of every list, with the record untouched. |
| SubscriptionTable.SyncIsLostBySilentEdits | cryptomarket/deribit_client/deribit_currency.py:95-112 | A handler leaves the record in step with the table exactly when it is neither a create for a watched ticker nor a cancel_all by a listed user. |
| SubscriptionTable.RecordIsLastSaved | cryptomarket/deribit_client/deribit_currency.py:75-245 | Over every run of handlers the cache record is the table as of the last handler whose write was taken. |
| SubscriptionTable.CryptoCurrency.HandleCreate | cryptomarket/deribit_client/deribit_currency.py:75-120 | The handler's dictionary, record and status are exactly the specified ones. |
| SubscriptionTable.CryptoCurrency.HandleCancel | cryptomarket/deribit_client/deribit_currency.py:148-177 | The same for cancel_order. |
| SubscriptionTable.CryptoCurrency.HandleCancelAll | cryptomarket/deribit_client/deribit_currency.py:179-213 | The same for cancel_all_orders, editing list by list. |
| SubscriptionTable.CryptoCurrency.Serve | cryptomarket/deribit_client/deribit_currency.py:215-234 | The checks come first and decide the status of a refused request. |
| SecondSubscriber.RequestIdIsSaved | cryptomarket/deribit_client/deribit_currency.py:95-112 | After any further handlers that leave it listed, the request id of a second subscriber is in the cache record with the next handler that saves the table. |
| SecondSubscriber.SecondSubscriberCutsOff | cryptomarket/tasks/celery/task_send_every_60_seconds.py:36-237 | Every pass of the sender that reads such a record ends at that id unless somebody is connected under it: nobody listed after it is served. |
| DatabaseConnection.Connection.SessionScope | cryptomarket/database/connection.py:160-199 | Refuses an asynchronous engine before anything happens; otherwise the statement runs, or not, and is committed, or not, as the session fares, with a ValueError when the commit fails after the statement ran. |
| DatabaseConnection.Connection.AsyncSessionScope | cryptomarket/database/connection.py:201-251 | The same for the asynchronous engine. |
| DatabaseConnection.Connection.Insert | cryptomarket/tasks/celery/task_add_every_60_seconds.py:129-159 | However both sessions would fare, the statement runs at most once, and exactly once with its commit when no error comes out; it ran in spite of an error exactly when its commit failed. |
| PriceFetch.AsksForSubscriptions | cryptomarket/tasks/celery/task_add_every_60_seconds.py:42-68 | The tickers asked for are exactly the supported ones with a non-empty list, each once. |
| TickerSupport.SupportedIff | cryptomarket/tasks/celery/task_add_every_60_seconds.py:62-77 | A ticker is supported exactly when the part before its first underscore is btc, eth or dot in any case, and then that currency's perpetual is its instrument. |
| TickerSupport.RequestsArePerpetuals | cryptomarket/tasks/celery/task_add_every_60_seconds.py:62-78 | The i-th request of a run names the perpetual of the i-th ticker's base currency. |
| TickerSupport.ChoosableSupported | cryptomarket/project/settings/core.py:145-193 | Of the tickers a user may choose, exactly those that start with btc_, eth_ or dot_ are supported. |
| PriceFetch.AskedBackwards | cryptomarket/tasks/celery/task_add_every_60_seconds.py:62 | Tickers are asked for from the end of the table to its beginning. |
| PriceFetch.WatchedInOrder | cryptomarket/tasks/celery/task_add_every_60_seconds.py:42 | The tickers kept are in the order of the table. |
| PriceFetch.RequestsInOrder | cryptomarket/tasks/celery/task_add_every_60_seconds.py:74-78 | The requests are for the tickers' own instruments in order, up to the first that does not go through. |
| PriceFetch.RowsAnswerTheirRequests | cryptomarket/tasks/celery/task_add_every_60_seconds.py:59-164 | In every run every executed statement directly follows the request for its own ticker's instrument and holds what that reply said; between two statements there is a request. |
| PriceFetch.ExecutedIffAnswered | cryptomarket/tasks/celery/task_add_every_60_seconds.py:82-164 | A row was executed exactly when it is made of one of the replies up to the end of the run and the statement of that request ran. |
| PriceFetch.FinishedRunStoresEveryQuote | cryptomarket/tasks/celery/task_add_every_60_seconds.py:59-164 | A run that is not aborted executes exactly the rows of all its quotes, on synchronous and asynchronous databases alike. |
| PriceFetch.ExecutedOnce | cryptomarket/tasks/celery/task_add_every_60_seconds.py:59-164 | However far a run got, no ticker has two executed statements. |
| PriceFetch.CommitsAllButTheLast | cryptomarket/tasks/celery/task_add_every_60_seconds.py:129-165 | Everything executed is committed, except the last statement exactly when the run was aborted by its failing commit. |
| PriceFetch.Fetcher.Fetch | cryptomarket/tasks/celery/task_add_every_60_seconds.py:29-178 | The loop ends and performs exactly the specified trace, with its rows executed and committed; it finishes exactly when every request goes through, and in either case no ticker gets two statements. |
| PriceFetch.Fetcher.FetchOne | cryptomarket/tasks/celery/task_add_every_60_seconds.py:74-165 | One pass of the loop: the overwritten request, its reply and the effects of its insert. |
| PriceFetch.GoesThroughIff | cryptomarket/tasks/celery/task_add_every_60_seconds.py:78-165 | What ends a run: a request that cannot be sent, a reply without a usable result, an insert that raises; an empty reply or the misspelt key lets it go on. |
| DateGrouping.BuildFiltered | cryptomarket/api/v1/api_get_index_price.py:150-164 | One entry per second, made of the last row of that second without created_at and underscore fields. |
| DateGrouping.BuildThenDelete | cryptomarket/api/v1/api_get_index_price.py:175-190 | The same by deleting afterwards; it raises exactly when a row has no created_at. |
| DateGrouping.GroupingIsUnique | cryptomarket/api/v1/api_get_index_price.py:150-190 | Both loops therefore give the same map, with exactly one entry for each second that occurs. |
| DateGrouping.LastOfSpec | cryptomarket/api/v1/api_get_index_price.py:151-190 | The row that makes a second's entry is the last of that second. |
| DateGrouping.ClientSees | cryptomarket/api/v1/api_get_index_price.py:158-190 | An entry holds every attribute with its value but created_at and those that start with an underscore. |
| CreateTables.SqliteDatabase.HandlerRestart | cryptomarket/database/handler_create_db.py:36-106 | The recursion ends, calls create_table twice per failed probe and once more, and answers True exactly when the first allowed probe succeeds. |
| CreateTables.FailedProbesSpec | cryptomarket/database/handler_create_db.py:54-69 | The failed probes are those before the first success, at most all the attempts. |
| ClientPool.OneShotClients | cryptomarket/deribit_client/deribit_websocket.py:225-247 | Over any run get_clients succeeds, no client is handed out twice, the deque stays within its limit, and made = handed out + pooled + dropped. |
| ClientPool.DeribitWebsocketPool.GenerateWorkers | cryptomarket/deribit_client/deribit_websocket.py:178-233 | Forty fresh clients are added in order; the deque keeps the newest 5000. |
| ClientPool.DeribitWebsocketPool.GetClients | cryptomarket/deribit_client/deribit_websocket.py:236-247 | Hands out the newest pooled client, which was never handed out before, refilling an empty pool first. |

## Left out

- Transport: the cache server is a map, the database a list of executed rows or a row sequence, the exchange an arbitrary sequence of replies; record expiry is only modelled as a deletion (`Routing.Drop`).
- Threads: `create_person_manual` runs in a thread pool; connects are modelled one at a time. Task cancellation inside a broadcast or an enqueue is not modelled.
- SseManager.ServerSSEManager.Broadcast: does not model a put that raises anything but QueueFull, because asyncio queues raise nothing else there; the bus itself has the step (`PutFails`), and its theorems cover it.
- Records.PatternMatchesUser: does not model that the cache server compares bytes; patterns and keys are compared by character.
- Routing and PriceSender: model the sender twice, once interleaved with everything else on values and once as the loop over the whole address list; the loop assumes no other writer during a pass.
- AccountSession.EmptyFrameIffBadGrant: does not model decryption errors; the stored secret is an opaque string that decrypts, or is absent.
- SubscriptionTable.CancelAllFails: does not model response bodies, only statuses; `Strip` and `Lower` cover the ASCII characters.
- PriceFetch.Fetcher.Fetch: does not model the columns of a row beyond the ticker, the instrument and one opaque value, nor the opening of the web socket before the loop.
- DatabaseConnection.Connection.AsyncSessionScope: does not model that a commit is also tried after a failed statement, because there is nothing to commit then.
- PriceSender.EverybodyIsServed: does not model a query or a cache access that raises in the middle of a pass; either ends the pass like an unreachable person.
- A deletion of an unknown key's record that times out: the lock is released all the same, and the record stays.
- WorkerQueue.WorkerPool.OfferRound: does not model the sleeps and the sleep counter of the producer, which do not change the queue.
- `__error_passed_cached`: unreachable, as the tested list holds one non-empty list of results.
- `Signal`, `DeribitLimited.acquire`, the PostgreSQL branch of the retry recursion, date parsing, SSE text, logging, settings loading, ORM models, migrations and deployment files.
- The synchronous branch of the price query calls a method `fitchall` that results do not have, so it always raises; its row-grouping loop is modelled as written all the same.
