# A verified model of the mongodb-promise-queue lease protocol

This project models the core of a MongoDB-backed message queue written in
TypeScript. It covers two classes.

`Queue` keeps one collection of message records. Its operations are:

- `add` inserts a batch of payloads.
- `get` claims waiting records, one atomic find-and-update at a time, in
  priority order. Each claimed record gets a fresh lease token (`ack`) and a
  new `visible` time.
- `ping`, `ack` and `nack` present a token. `ping` extends the lease, `ack`
  marks the record done with a result, and `nack` drops the token and makes
  the record visible again after a delay.
- `total`, `size`, `inFlight` and `done` count records; `clean` deletes the
  done ones.
- A poll timer (`start`, `stop`, `subscribe` and the tick) hands claimed
  messages to a wrapped handler. It keeps the count of busy consumers, and
  the wrapper writes `startedAt`, the ack or the error back to the record.

`Channel` fans one payload out to every queue collection whose name matches
`<topic>_.+`. Every record of one publish gets the same `visible`.

Modules:

- `Store` (store.dfy): records, the query filters and the batch insert that
  `add` and `publish` share.
- `Claim` (claim.dfy): the sorted claim and a run of claims as `get` makes
  them.
- `Lease` (lease.dfy): the token-guarded updates.
- `Stats` (stats.dfy): the counters and `clean`.
- `Queue` (queue.dfy): the options, the handler wrapper and the `Queue`
  class, whose methods update its `records`, `status`, `busyConsumers` and
  `intervalHandles` fields.
- `Channel` (channel.dfy): the name filter, the `Database` class holding the
  collections, and the `Channel` class.

Modelling conventions:

- Time is an integer number of milliseconds and is always a parameter
  (`now`). Option durations are in milliseconds too. `nowPlusSecs(d)` is
  `now + d`.
- New ids come from a counter.
- Lease tokens are parameters. The queue keeps the ghost set `issued` of
  every token handed out so far, and `Unissued` requires new tokens to be
  pairwise distinct and outside it. This stands for `uuid()`, which never
  repeats. The unique sparse index on `ack` (src/lib/Queue.ts:416) is the
  invariant `TokensUnique`. Because a retired token is never reissued, no
  record but a running handler's own holds that handler's token.
- The source's `a || b` on an optional number is `Or`: an absent or zero
  value falls back.
- lodash `merge` is `Merge`: a defined value replaces the default.
- Fields the store never received are `None`, and the sort places `None`
  below every number, as MongoDB does with null. Records with equal
  `priority` and `createdAt` are claimed in id order.

The code as written differs from the repository's own description in these
places; the model follows the code:

- A record inserted or nacked with a delay is counted by none of `size`,
  `inFlight` and `done`. So the three counters add up to `total` only when
  no record is delayed (`Stats.StatsExhaustive`).
- There is no handler timeout, and no dead-letter queue: that block is
  commented out (src/lib/Queue.ts:256-268). `maxRetries` is accepted as an
  option and never read.
- A handler that throws gets its error recorded and its record is not
  nacked. The record stays leased until its `visible` passes and is then
  claimed again.
- Only the `completed` and `failed` events are emitted.

## Model

| member | source | states |
|---|---|---|
| Store.BatchShape | src/lib/Queue.ts:70-82 | a batch holds exactly one record per payload element, under the ids handed back, in payload order; all records share `visible`, `createdAt` and `priority`, and none has tries, a token or a `deletedAt` |
| Store.BatchInsert | src/lib/Queue.ts:82 | inserting a batch under new ids keeps every existing record, adds no record holding a token, keeps the unique index on `ack` satisfied and moves the id counter past the batch |
| Claim.PrecedesOrder | src/lib/Queue.ts:226-229 | the claim order (priority descending, then `createdAt` ascending, null below numbers, then id) is a strict total order |
| Claim.FirstExists | src/lib/Queue.ts:237-240 | when any record is waiting, the sorted find-one has a record to return |
| Claim.FirstUnique | src/lib/Queue.ts:226-240 | the sorted find-one is deterministic: at most one record is first |
| Claim.First | src/lib/Queue.ts:237-247 | the claim finds nothing exactly when no record is waiting, and otherwise returns the first waiting record |
| Claim.ClaimOne | src/lib/Queue.ts:221-247 | one `findOneAndUpdate`: lease the first waiting record with the token; `ClaimOneKeeps` and `ClaimOneLeased` state its effect |
| Claim.ClaimAll | src/lib/Queue.ts:218-252 | one claim per token in turn, each on the store the previous one left; the `ClaimAll*` lemmas state its effect |
| Claim.ClaimOneKeeps | src/lib/Queue.ts:230-240 | one claim changes only the record it returns, which was waiting, and only by `$inc tries`, the new token and the new `visible` |
| Claim.ClaimAllFrame | src/lib/Queue.ts:218-254 | a `get` keeps the set of records and every sort key, and returns at most `count` records |
| Claim.ClaimAllUntouched | src/lib/Queue.ts:230-240 | records a `get` does not return are unchanged |
| Claim.ClaimAllNewTokens | src/lib/Queue.ts:233 | the only tokens a `get` writes are its fresh ones |
| Claim.ClaimAllReturnsWaiting | src/lib/Queue.ts:221-224 | every returned record was waiting (not deleted, `visible` <= the time read at the start) and comes back with a new token and the new `visible` |
| Claim.ClaimAllTokensUnique | src/lib/Queue.ts:233 | claiming with fresh tokens keeps the unique index on `ack` satisfied |
| Claim.ClaimAllHolders | src/lib/Queue.ts:230-240 | with fresh tokens, no record but a returned one holds the token it was returned with |
| Claim.ClaimOneTokensUnique | src/lib/Queue.ts:230-240 | one claim with a token no record holds keeps the unique index on `ack` satisfied |
| Claim.ClaimOneLeased | src/lib/Queue.ts:221-247 | with a future `visible`, one claim returns nothing only when nothing waits, returns the first waiting record otherwise, and removes exactly it from the waiting set |
| Claim.ClaimAllDrains | src/lib/Queue.ts:218-254 | with a future `visible`, the records a `get` returns leave the waiting set and nothing else does |
| Claim.ClaimAllDistinct | src/lib/Queue.ts:218-254 | with a future `visible`, one `get` never returns the same record twice |
| Claim.ClaimAllCount | src/lib/Queue.ts:218-254 | with a future `visible`, a `get` returns min(count, number waiting) records, and fewer than asked only when nothing is left waiting |
| Claim.ClaimAllLeases | src/lib/Queue.ts:230-240 | the k-th returned record is the old record with `tries` + 1, the k-th token and the new `visible`, every other field as before, and the store keeps it so |
| Claim.ClaimAllLast | src/lib/Queue.ts:221-247 | the last claim of a `get` returns, if anything, a record waiting before the call that no earlier claim returned, leased with the last token, and only after every earlier claim returned one |
| Claim.ClaimAllTaken | src/lib/Queue.ts:221-247 | each claim leases the first record waiting after the earlier claims and appends it to the result |
| Claim.ClaimAllMissed | src/lib/Queue.ts:244-254 | a claim that finds nothing waiting changes nothing and adds nothing to the result |
| Claim.ClaimAllOrder | src/lib/Queue.ts:226-229 | with a future `visible`, a `get` returns records in claim order, and every record still waiting ranks below each returned one |
| Lease.Apply | src/lib/Queue.ts:283-344 | the update a ping (283-287), ack (309-314) or nack (337-344) applies to the holder; `LeaseEffectKeeps`, `AckEndsLease`, `NackReleases` and `PingExtendsLease` state what each one does |
| Lease.LeaseEffect | src/lib/Queue.ts:277-294 | a lease operation fails with "Unidentified ack" exactly when no record has the token, a future `visible` and no `deletedAt`; it never adds or removes records |
| Lease.HolderUnique | src/lib/Queue.ts:416 | under the unique index, at most one record holds a token |
| Lease.LeaseEffectChanges | src/lib/Queue.ts:289-291 | a successful lease operation changes exactly the token's holder, by that operation's update |
| Lease.LeaseEffectOn | src/lib/Queue.ts:289-291 | under the unique index, a successful operation with the token a record carries updates that record |
| Lease.ExpiredLeaseRejected | src/lib/Queue.ts:303-321 | once a lease's `visible` has passed, every ping, ack or nack with its token fails, although the record still carries the token |
| Lease.AckEndsLease | src/lib/Queue.ts:301-324 | after an ack the record is done with the given result, and in the store it leaves no ping, ack or nack with the token succeeds at any time; `Queue.Queue.Get` never hands the token out again |
| Lease.NackEndsLease | src/lib/Queue.ts:327-354 | after a nack the record holds no token, and in the store it leaves no operation with the old token succeeds at any time; `Queue.Queue.Get` never hands the token out again |
| Lease.NackReleases | src/lib/Queue.ts:337-344 | a nacked record is waiting again from its new `visible` on |
| Lease.PingExtendsLease | src/lib/Queue.ts:273-297 | after a ping the same record holds the token at every time before the new `visible` |
| Lease.LeaseEffectKeepsIndex | src/lib/Queue.ts:416 | no ping, ack or nack breaks the unique index on `ack` |
| Lease.LeaseEffectKeeps | src/lib/Queue.ts:283-346 | no lease operation touches payload, tries, priority, `createdAt` or errors; ack and ping keep the token; only ack sets `deletedAt` and `result`; ack keeps `visible` |
| Stats.Total | src/lib/Queue.ts:369-372 | `total` counts every record; `StatsPartition` and `StatsExhaustive` relate it to the other counters |
| Stats.Size | src/lib/Queue.ts:376-384 | `size` counts records not deleted whose `visible` has passed; see `StatsPartition` |
| Stats.InFlight | src/lib/Queue.ts:388-397 | `inFlight` counts records with a token, a future `visible` and no `deletedAt`; see `StatsPartition` |
| Stats.Done | src/lib/Queue.ts:401-408 | `done` counts records with `deletedAt`; see `StatsPartition` and `CleanedSpec` |
| Stats.Cleaned | src/lib/Queue.ts:358-365 | `clean` removes the records with `deletedAt`; `CleanedSpec` states its effect on the counters |
| Stats.StatsPartition | src/lib/Queue.ts:376-408 | `size`, `inFlight` and `done` count pairwise disjoint sets, so their sum is at most `total`; a record outside all three is exactly a delayed one |
| Stats.StatsExhaustive | src/lib/Queue.ts:369-408 | the three counters add up to `total` exactly when no record is delayed |
| Stats.CleanedSpec | src/lib/Queue.ts:358-365 | `clean` deletes exactly the done records: `done` becomes 0, `total` drops by the old `done`, `size` and `inFlight` are unchanged, and every other record is intact |
| Stats.AddStats | src/lib/Queue.ts:369-408 | adding records under new ids, none leased or done, raises `total` by their number, and `size` too when they are waiting |
| Stats.EnqueueStats | src/lib/Queue.ts:61-92 | an `add` of n payloads raises `total` by n, raises `size` by n exactly when the batch is already visible, and leaves `inFlight` and `done` unchanged |
| Queue.QueueOptionsMerge | src/lib/Queue.ts:17-21 | merging no options changes nothing on either side; a visibility, delay or concurrency the caller gives wins over the default; the queue's options always define visibility, concurrency and poll interval; a queue built without options gets the defaults |
| Queue.AddStamp | src/lib/Queue.ts:62-67 | `add` stamps `createdAt` now; `visible` is now + `opts.delay` when that is non-zero, else now + `options.delay` when that is non-zero, else now; `priority` is `opts.priority` when non-zero, else 1 |
| Queue.HandlerTouchesOnlyItsRecord | src/lib/Queue.ts:153-175 | when no other record holds the handler's token (which `Valid` keeps true for every running handler), the wrapper changes only its own record, even when that record has since lost the token (a stale handler), and writes `startedAt` only when the message was on its first try |
| Queue.WithQueueDefaults | src/lib/Queue.ts:51 | the queue's options, the defaults overridden by the given ones; `QueueOptionsMerge` states its laws |
| Queue.MarkStarted | src/lib/Queue.ts:178-180 | `markAsStarted` as a store update; `Queue.Queue.MarkAsStarted` and `HandlerTouchesOnlyItsRecord` state its effect |
| Queue.PushError | src/lib/Queue.ts:192-205 | `handleError` as a store update; `HandlerFailureKeepsLease` states its effect |
| Queue.HandlerEffect | src/lib/Queue.ts:153-205 | one run of the wrapper: mark started, then ack with the result or record the error; `HandlerTouchesOnlyItsRecord`, `HandlerSuccessAcks` and `HandlerFailureKeepsLease` state its effect |
| Queue.HandlerSuccessAcks | src/lib/Queue.ts:183-188 | a handler that returns while its lease is live leaves the record done, with the handler's result, and its token dead |
| Queue.HandlerFailureKeepsLease | src/lib/Queue.ts:193-205 | a handler that throws appends exactly one error item dated now to its record's errors and leaves the lease as it was |
| Queue.Queue.constructor | src/lib/Queue.ts:48-54 | a new queue has the merged options, an empty store and no timers |
| Queue.Queue.Add | src/lib/Queue.ts:61-92 | an empty array fails and inserts nothing; otherwise the batch is inserted under new ids, which are returned in payload order |
| Queue.Queue.Get | src/lib/Queue.ts:212-254 | given tokens never handed out before, the loop of claims leaves the store and the returned list as the run of claims `ClaimAll` describes, records the tokens as handed out, leaves every earlier token held only where it was, and keeps the queue valid |
| Queue.ClaimEach | src/lib/Queue.ts:218-251 | the loop of claims, one per token in turn, leaves the store and returns the records that the run of claims `ClaimAll` describes |
| Queue.Queue.Present | src/lib/Queue.ts:277-294 | the shared guarded update: the store becomes `LeaseEffect`'s result, or stays as it was with an "Unidentified ack" error |
| Queue.Queue.Ping | src/lib/Queue.ts:273-297 | `ping` extends the holder's lease by `opts.visibility`, else `options.visibility` and returns its id, or fails and changes nothing |
| Queue.Queue.Ack | src/lib/Queue.ts:301-324 | `ack` sets `deletedAt` now and the result on the holder and returns it, or fails and changes nothing |
| Queue.Queue.Nack | src/lib/Queue.ts:327-354 | `nack` removes the holder's token and sets `visible` to now + (`opts.delay`, else `options.delay`), or fails and changes nothing |
| Queue.Queue.Clean | src/lib/Queue.ts:358-365 | `clean` leaves exactly the records that are not done and returns how many it deleted |
| Queue.Queue.Start | src/lib/Queue.ts:116-121 | `start` registers one more timer and marks the queue started, and sets no handler |
| Queue.Queue.Subscribe | src/lib/Queue.ts:94-102 | `subscribe` marks the queue started, sets the handler and registers a timer |
| Queue.Queue.Stop | src/lib/Queue.ts:123-129 | `stop` marks the queue stopped and clears every timer; stopping a stopped queue changes nothing |
| Queue.Queue.Tick | src/lib/Queue.ts:131-151 | a tick does nothing unless the queue is started, skips when no consumer is idle, and otherwise claims up to the idle count with new tokens, adding the number claimed to `busyConsumers`; the claimed messages run only when `subscribe` set a handler, and otherwise their consumers stay busy for good; `busyConsumers` stays within 0..concurrency |
| Queue.Queue.Dispatch | src/lib/Queue.ts:145-147 | each claimed message takes a consumer; with a handler set it is running, and without one its consumer is never released |
| Queue.Queue.RunHandler | src/lib/Queue.ts:153-177 | one handler run changes the store as the wrapper does, touches no record but its own, even when its lease has run out, and releases its consumer exactly once |
| Queue.Queue.MarkAsStarted | src/lib/Queue.ts:179-181 | `startedAt` is set on the message's record only on a first try, and nothing else changes |
| Queue.Queue.HandleError | src/lib/Queue.ts:193-205 | one `{date, error}` item is appended to the record's errors, found by id, and nothing else changes |
| Queue.Queue.Release | src/lib/Queue.ts:173-175 | the `finally` releases exactly one busy consumer |
| Channel.WithChannelDefaults | src/lib/Channel.ts:15-17 | the channel's options are the given ones, with `delay` 0 when none is given |
| Channel.Targets | src/lib/Channel.ts:84-85 | a name is a target exactly when it is listed and matches `<topic>_.+`; there are no more targets than names |
| Channel.TargetsInOrder | src/lib/Channel.ts:85 | filtering keeps listing order: the targets among the first k names are a prefix of all the targets |
| Channel.Matches | src/lib/Channel.ts:84-85 | the unanchored `<topic>_.+` test, a line terminator not matching `.`; pinned down by `MatchesExamples` and used by `Targets` |
| Channel.TargetsDistinct | src/lib/Channel.ts:85 | distinct listed names give distinct targets |
| Channel.MatchesExamples | src/lib/Channel.ts:84 | `myTopic_myQueue` matches `myTopic`; the match is unanchored; the bare topic, `topic_` and `topic_` plus a line break do not match |
| Channel.PublishStamp | src/lib/Channel.ts:88-89 | one `visible` per publish: now + `opts.delay` when that is non-zero, else now + `options.delay` when that is non-zero, else now (so the default delay 0 gives now); no `createdAt` and no `priority` |
| Channel.PublishedRanksLast | src/lib/Channel.ts:100-103 | a published record, having no priority, is claimed after every record that has one |
| Channel.EntryIdAt | src/lib/Channel.ts:104-120 | the j-th id of one target's entry (its id for a single payload, its ids for an array) was free before the insert and now names the record made from the j-th payload element |
| Channel.PublishedId | src/lib/Channel.ts:91-121 | the j-th id in the k-th target's entry was absent from that collection before the publish and names the record built from the j-th payload element afterwards |
| Channel.PublishedIds | src/lib/Channel.ts:91-121 | the result lists one entry per target, in target order, and every id in every entry names a record the publish inserted into that target |
| Channel.Fanout | src/lib/Channel.ts:91-121 | the loop over targets, each target's collection grown with its position; `FanoutSpec` and `FanoutOthers` state what it does |
| Channel.AddBatch | src/lib/Channel.ts:91-121 | the insert for the k-th target: the batch under the k-th block of ids; `PublishedBatches` states what `Fanout` makes of it |
| Channel.FanoutSpec | src/lib/Channel.ts:91-121 | with distinct targets, the loop's insert reaches each target exactly once, with that target's position |
| Channel.PublishedBatches | src/lib/Channel.ts:91-121 | with distinct targets, the k-th target gains exactly the batch under the k-th block of ids, and every other collection is untouched |
| Channel.FanoutOthers | src/lib/Channel.ts:91-121 | a collection that is not a target is untouched |
| Channel.Database.InsertMany | src/lib/Channel.ts:104 | `insertMany` appends the batch under new ids to one collection |
| Channel.Database.InsertEach | src/lib/Channel.ts:91-121 | the loop over targets leaves the collections as `Fanout` describes and returns one entry per target |
| Channel.Channel.constructor | src/lib/Channel.ts:37-50 | a channel keeps its topic and its merged options |
| Channel.Channel.Publish | src/lib/Channel.ts:76-122 | an empty array fails exactly when there is a target, and then nothing changes; otherwise every target receives the batch, the result lists one entry per target, and each id in an entry names the record that publish inserted for the matching payload element |

## Left out

- MongoDB plumbing is not modelled, because it is I/O against a store the model abstracts. This covers `connect`, `initialize`/`createCollection`, `listCollections` (the `Database` class holds the names it would list), `createIndexes` and the TTL index from `expireAfterSeconds`.
- `subscribeWithChangeStream` is not modelled: it only logs changes.
- The application's handler is not modelled: `RunHandler` takes its outcome as a parameter.
- Event emission (`completed`, `failed`) is not modelled.
- Concurrency is not modelled. Overlapping ticks reading a stale `busyConsumers`, the parallel `bluebird.map` dispatch, and `publish`'s parallel inserts are all taken as atomic steps in order. The model's ids for a publish are therefore handed out target by target.
- Queue.Queue.Get: the source reads the clock again for each claim's `visible`. The model uses the single `now` read at the start of the call for both the filter and `visible`.
- Queue.Queue.Nack: with no delay anywhere the source computes `nowPlusSecs(undefined)`, an invalid date that the driver stores at the epoch. The model takes an absent delay as 0, so the record is waiting again at once, as it is in the source.
- Queue.Queue.constructor: requires a non-empty queue name, where the source throws an assertion error.
- Queue.Queue.Tick: `busyConsumers` stays within 0..concurrency only because ticks are atomic here.
- Queue.Queue.Tick: on a queue started without `subscribe`, the source's call of the missing handler rejects the tick's promise, which nothing handles; the model keeps only the consumers this leaves busy.
- Channel.Targets: assumes the topic contains no regular-expression metacharacters, because the source builds the pattern from the topic unescaped.
- Ids are numbers, not ObjectIds, and not the strings `add` converts them to.
- Lease operations called with an undefined token are not modelled: a token is always a value.
- Tie order between records with equal `priority` and `createdAt` is left to the store by the source; the model breaks ties by id.
- The dead-letter queue, `maxRetries` and a handler timeout are not modelled, because the code does not implement them.
- `Channel.subscribe` is not modelled: it calls the three-argument `Queue` constructor with four arguments.
- Float arithmetic on seconds is not modelled: durations are integer milliseconds.
