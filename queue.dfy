/** The `Queue` object (src/lib/Queue.ts): its options, its store of records,
    and the polling state that `start`, `stop`, the poll tick and the handler
    wrapper update. Time and lease tokens are parameters; the store is the map
    `records` with a counter for new ids. */
module Queue {
  import opened Store
  import opened Claim
  import opened Lease
  import opened Stats

  // ---------------------------------------------------------------------
  // Options

  /** `ISubscriptionOptions`, durations in milliseconds. */
  datatype SubscriptionOptions = SubscriptionOptions(
    visibility: Option<int>,
    delay: Option<int>,
    maxRetries: Option<int>,
    concurrency: Option<int>,
    pollInterval: Option<int>)

  const NoOptions := SubscriptionOptions(None, None, None, None, None)

  /** `DEFAULT_OPTS`: 30 s visibility, one consumer, a 50 ms poll; no delay and
      no retry limit. */
  const Defaults := SubscriptionOptions(Some(30000), None, None, Some(1), Some(50))

  /** lodash `merge` of two option objects: a value that `over` defines replaces the
      one in `base`, an undefined one leaves it. */
  function Merge(base: SubscriptionOptions, over: SubscriptionOptions): SubscriptionOptions {
    SubscriptionOptions(
      if over.visibility.Some? then over.visibility else base.visibility,
      if over.delay.Some? then over.delay else base.delay,
      if over.maxRetries.Some? then over.maxRetries else base.maxRetries,
      if over.concurrency.Some? then over.concurrency else base.concurrency,
      if over.pollInterval.Some? then over.pollInterval else base.pollInterval)
  }

  /** The queue's options: `merge({}, DEFAULT_OPTS, opts)`. */
  function WithQueueDefaults(opts: SubscriptionOptions): SubscriptionOptions {
    Merge(Defaults, opts)
  }

  /** Merging nothing changes nothing, and a value given always wins; so the
      queue's options always carry a visibility, a concurrency and a poll
      interval, and a queue built without options gets `DEFAULT_OPTS`. */
  lemma QueueOptionsMerge(a: SubscriptionOptions)
    ensures Merge(a, NoOptions) == a && Merge(NoOptions, a) == a
    ensures a.visibility.Some? ==> WithQueueDefaults(a).visibility == a.visibility
    ensures a.delay.Some? ==> WithQueueDefaults(a).delay == a.delay
    ensures a.concurrency.Some? ==> WithQueueDefaults(a).concurrency == a.concurrency
    ensures WithQueueDefaults(a).visibility.Some? && WithQueueDefaults(a).concurrency.Some?
      && WithQueueDefaults(a).pollInterval.Some?
    ensures WithQueueDefaults(NoOptions) == Defaults
  {
  }

  /** `IAddMessageOptions` as `add` reads it. */
  datatype AddOptions = AddOptions(delay: Option<int>, priority: Option<int>)

  /** What `add` stamps on its batch: `visible` now + (`opts.delay ||
      options.delay`), or now when that is falsy; `createdAt` now; `priority`
      `opts.priority || 1`. */
  function AddStamp(now: int, opts: AddOptions, options: SubscriptionOptions): (s: Stamp)
    ensures s.createdAt == Some(now)
    ensures opts.delay.Some? && opts.delay.value != 0 ==> s.visible == now + opts.delay.value
    ensures (opts.delay.None? || opts.delay.value == 0) && options.delay.Some? && options.delay.value != 0 ==>
      s.visible == now + options.delay.value
    ensures (opts.delay.None? || opts.delay.value == 0) && (options.delay.None? || options.delay.value == 0) ==>
      s.visible == now
    ensures opts.priority.Some? && opts.priority.value != 0 ==> s.priority == opts.priority
    ensures opts.priority.None? || opts.priority.value == 0 ==> s.priority == Some(1)
  {
    Stamp(now + Span(Or(opts.delay, options.delay)), Some(now), Or(opts.priority, Some(1)))
  }

  /** The `visible` a claim or a ping sets: now + (`opts.visibility || options.visibility`). */
  function LeaseUntil(now: int, opts: SubscriptionOptions, options: SubscriptionOptions): int {
    now + Span(Or(opts.visibility, options.visibility))
  }

  /** `times(count)`: the number of claims one `get(count)` makes. */
  function Rounds(count: int): nat {
    if count > 0 then count else 0
  }

  // ---------------------------------------------------------------------
  // The handler wrapper, as an update of the store

  /** How the application's handler finished. */
  datatype Outcome = Returned(result: Option<Doc>) | Threw(error: Doc)

  /** `markAsStarted`: `startedAt` is set only for a first try. */
  function MarkStarted(records: map<Id, Record>, m: Message, at: int): map<Id, Record> {
    if m.rec.tries <= 1 && m.id in records then records[m.id := records[m.id].(startedAt := Some(at))]
    else records
  }

  /** `handleError`: one `{date, error}` item appended to the record's `errors`. */
  function PushError(records: map<Id, Record>, id: Id, item: ErrorItem): map<Id, Record> {
    if id in records then records[id := records[id].(errors := records[id].errors + [item])]
    else records
  }

  /** What one run of the wrapped handler does to the store: mark it started,
      then ack it with the handler's result, or record the error. An ack that
      fails after a successful run rejects the returned promise outside the
      `try`, so nothing is recorded for it. */
  ghost function HandlerEffect(records: map<Id, Record>, m: Message, outcome: Outcome, startedAt: int, now: int): map<Id, Record>
    requires m.rec.ack.Some?
  {
    var marked := MarkStarted(records, m, startedAt);
    match outcome
    case Returned(result) =>
      var acked := LeaseEffect(marked, m.rec.ack.value, now, AckUpdate(now, result));
      if acked.Ok? then acked.value else marked
    case Threw(error) => PushError(marked, m.id, ErrorItem(now, error))
  }

  /** `startedAt` is written only on the handled record, and only when the
      message was on its first try; the wrapper touches no other record, as
      long as no other record holds its token (`TokensAccounted` keeps this
      for every running handler). This holds for a stale handler too, whose
      record lost its token to a nack or to a new claim after the lease ran
      out: tokens are never reissued, so its ack then matches nothing. */
  lemma HandlerTouchesOnlyItsRecord(records: map<Id, Record>, m: Message, outcome: Outcome, startedAt: int, now: int)
    requires m.rec.ack.Some?
    requires forall j :: j in records && j != m.id ==> records[j].ack != m.rec.ack
    ensures var rs := HandlerEffect(records, m, outcome, startedAt, now);
      && rs.Keys == records.Keys
      && (forall id :: id in records && id != m.id ==> rs[id] == records[id])
      && (m.id in records && rs[m.id].startedAt != records[m.id].startedAt ==>
            m.rec.tries <= 1 && rs[m.id].startedAt == Some(startedAt))
  {
    var marked := MarkStarted(records, m, startedAt);
    if outcome.Returned? {
      var tok := m.rec.ack.value;
      var u := AckUpdate(now, outcome.result);
      if LeaseEffect(marked, tok, now, u).Ok? {
        LeaseEffectChanges(marked, tok, now, u);
        var id :| id in marked && HoldsLease(marked[id], tok, now)
          && LeaseEffect(marked, tok, now, u).value == marked[id := Apply(marked[id], u)];
        assert marked[id].ack == records[id].ack;
        assert id == m.id;
      }
    }
  }

  /** A handler that returns while its lease is live ends the lease: the
      record is done, holds the handler's result, and its token is dead. */
  lemma HandlerSuccessAcks(records: map<Id, Record>, m: Message, result: Option<Doc>, startedAt: int, now: int, later: int)
    requires m.rec.ack.Some? && TokensUnique(records)
    requires m.id in records && HoldsLease(records[m.id], m.rec.ack.value, now)
    ensures var rs := HandlerEffect(records, m, Returned(result), startedAt, now);
      && IsDone(rs[m.id]) && rs[m.id].result == result && rs[m.id].deletedAt == Some(now)
      && Holders(rs, m.rec.ack.value, later) == {}
  {
    var marked := MarkStarted(records, m, startedAt);
    var tok := m.rec.ack.value;
    assert TokensUnique(marked) && m.id in Holders(marked, tok, now);
    AckEndsLease(marked, tok, now, now, result, later);
    HolderUnique(marked, tok, now);
  }

  /** A handler that throws appends exactly one error item, dated `now`, to
      the end of its record's `errors` and leaves the lease alone, so the
      record is claimed again once the lease runs out. */
  lemma HandlerFailureKeepsLease(records: map<Id, Record>, m: Message, error: Doc, startedAt: int, now: int, later: int)
    requires m.rec.ack.Some? && m.id in records
    ensures var rs := HandlerEffect(records, m, Threw(error), startedAt, now);
      && rs[m.id].errors == records[m.id].errors + [ErrorItem(now, error)]
      && rs[m.id].ack == records[m.id].ack && rs[m.id].visible == records[m.id].visible
      && rs[m.id].deletedAt == records[m.id].deletedAt && rs[m.id].tries == records[m.id].tries
      && (IsWaiting(records[m.id], later) ==> IsWaiting(rs[m.id], later))
      && (forall t :: HoldsLease(records[m.id], t, later) ==> HoldsLease(rs[m.id], t, later))
  {
  }

  datatype Status = Unset | Started | Stopped

  type Handle = nat   // what `setInterval` returns

  /** The claims of one `get`, one per token in turn (`{concurrency: 1}`),
      each the find-one-and-update of the best-ranked waiting record; the
      store they leave and the records they returned. */
  method ClaimEach(records: map<Id, Record>, now: int, visible: int, tokens: seq<Token>) returns (rs: map<Id, Record>, msgs: seq<Message>)
    ensures Claim(rs, msgs) == ClaimAll(records, now, visible, tokens)
  {
    rs, msgs := records, [];
    var i := 0;
    while i < |tokens|
      invariant 0 <= i <= |tokens|
      invariant rs == ClaimAll(records, now, visible, tokens[..i]).records
      invariant msgs == ClaimAll(records, now, visible, tokens[..i]).claimed
    {
      if EligibleIds(rs, now) != {} {
        FirstExists(rs, now);
        var id :| id in rs && IsFirst(rs, now, id);
        ClaimAllTaken(records, now, visible, tokens, i, id);
        var rec := Leased(rs[id], tokens[i], visible);
        rs := rs[id := rec];
        msgs := msgs + [Message(id, rec)];
      } else {
        ClaimAllMissed(records, now, visible, tokens, i);
      }
      i := i + 1;
    }
    assert tokens[..i] == tokens;
  }

  /** Tokens for new leases as `uuid()` makes them: pairwise distinct and
      never handed out before. */
  ghost predicate Unissued(issued: set<Token>, tokens: seq<Token>) {
    && (forall i, j :: 0 <= i < j < |tokens| ==> tokens[i] != tokens[j])
    && (forall k :: 0 <= k < |tokens| ==> tokens[k] !in issued)
  }

  /** Every token a record holds has been handed out, and so has every
      running message's; no record but a running message's own holds its
      token, so a handler whose lease ran out acks nothing. */
  ghost predicate TokensAccounted(records: map<Id, Record>, issued: set<Token>, running: multiset<Message>) {
    && (forall id :: id in records && records[id].ack.Some? ==> records[id].ack.value in issued)
    && (forall m :: m in running ==> m.rec.ack.Some? && m.rec.ack.value in issued)
    && (forall m, id :: m in running && id in records && id != m.id ==> records[id].ack != m.rec.ack)
  }

  /** A store update that writes no token (it keeps or drops each record's,
      and new records have none) keeps the tokens accounted for. */
  lemma AccountedAfterUpdate(records: map<Id, Record>, rs: map<Id, Record>, issued: set<Token>, running: multiset<Message>)
    requires TokensAccounted(records, issued, running)
    requires forall id :: id in rs ==> rs[id].ack.None? || (id in records && rs[id].ack == records[id].ack)
    ensures TokensAccounted(rs, issued, running)
  {
  }

  /** Handing out messages whose tokens were issued and are held by their own
      record alone keeps the tokens accounted for. */
  lemma AccountedAfterDispatch(records: map<Id, Record>, issued: set<Token>, running: multiset<Message>, dispatched: seq<Message>)
    requires TokensAccounted(records, issued, running)
    requires forall m :: m in dispatched ==> m.rec.ack.Some? && m.rec.ack.value in issued
    requires forall m, id :: m in dispatched && id in records && records[id].ack == m.rec.ack ==> id == m.id
    ensures TokensAccounted(records, issued, running + multiset(dispatched))
  {
  }

  /** A ping, ack or nack updates the one record holding the token, and keeps
      both the unique index and the tokens accounted for. */
  lemma LeaseStepKeeps(records: map<Id, Record>, issued: set<Token>, running: multiset<Message>,
                       token: Token, now: int, u: LeaseUpdate, id: Id)
    requires TokensUnique(records) && TokensAccounted(records, issued, running)
    requires id in Holders(records, token, now)
    ensures LeaseEffect(records, token, now, u) == Ok(records[id := Apply(records[id], u)])
    ensures TokensUnique(records[id := Apply(records[id], u)])
    ensures TokensAccounted(records[id := Apply(records[id], u)], issued, running)
  {
    LeaseEffectOn(records, token, now, u, id);
    LeaseEffectKeepsIndex(records, token, now, u);
    AccountedAfterUpdate(records, records[id := Apply(records[id], u)], issued, running);
  }

  class Queue {
    const name: string
    const options: SubscriptionOptions
    var records: map<Id, Record>
    var nextId: Id
    var status: Status
    var busyConsumers: int
    var intervalHandles: seq<Handle>
    /** Whether `subscribe` has set `handler`. */
    var subscribed: bool
    /** The messages dispatched to a handler whose run has not finished. */
    ghost var running: multiset<Message>
    /** Consumers taken by a tick that found no handler to call: the call
        throws before the wrapper's `finally`, so nothing releases them. */
    ghost var stuck: nat
    /** Every token `uuid()` has handed out so far. */
    ghost var issued: set<Token>

    ghost predicate Valid()
      reads this
    {
      && (forall id :: id in records ==> id < nextId)
      && TokensUnique(records)
      && options.visibility.Some? && options.concurrency.Some?
      && busyConsumers == |running| + stuck
      && busyConsumers <= Max(options.concurrency.value, 0)
      && (running != multiset{} ==> subscribed)
      && TokensAccounted(records, issued, running)
      && (intervalHandles != [] ==> status == Started)
    }

    /** Consumers a tick may still hand a message to. */
    function Idle(): int
      reads this
      requires options.concurrency.Some?
    {
      options.concurrency.value - busyConsumers
    }

    constructor(queueName: string, opts: SubscriptionOptions)
      requires queueName != ""
      ensures name == queueName && options == WithQueueDefaults(opts)
      ensures records == map[] && nextId == 0
      ensures status == Unset && busyConsumers == 0 && intervalHandles == [] && !subscribed
      ensures running == multiset{} && stuck == 0 && issued == {}
      ensures Valid()
    {
      name := queueName;
      options := WithQueueDefaults(opts);
      records := map[];
      nextId := 0;
      status := Unset;
      busyConsumers := 0;
      intervalHandles := [];
      subscribed := false;
      running := multiset{};
      stuck := 0;
      issued := {};
    }

    /** `add`: one record per payload value, under new ids returned in payload
        order; an empty array is refused and nothing is inserted. */
    method Add(payload: Payload, opts: AddOptions, now: int) returns (res: Result<seq<Id>>)
      requires Valid()
      modifies this
      ensures Valid()
      ensures res.Err? <==> Docs(payload) == []
      ensures res.Err? ==> res.error == EmptyPayload && records == old(records) && nextId == old(nextId)
      ensures res.Ok? ==>
        && res.value == IdRange(old(nextId), |Docs(payload)|)
        && records == old(records) + Batch(old(nextId), Docs(payload), AddStamp(now, opts, options))
        && nextId == old(nextId) + |Docs(payload)|
      ensures status == old(status) && busyConsumers == old(busyConsumers)
      ensures intervalHandles == old(intervalHandles) && running == old(running)
      ensures subscribed == old(subscribed) && stuck == old(stuck) && issued == old(issued)
    {
      var docs := Docs(payload);
      if |docs| == 0 {
        return Err(EmptyPayload);
      }
      var batch := Batch(nextId, docs, AddStamp(now, opts, options));
      BatchInsert(records, nextId, docs, AddStamp(now, opts, options));
      AccountedAfterUpdate(records, records + batch, issued, running);
      records := records + batch;
      res := Ok(IdRange(nextId, |docs|));
      nextId := nextId + |docs|;
    }

    /** `get(count, opts)`: `count` claims in turn, each with its own new
        token, all against the time read at the start of the call. A token
        handed out before the call is afterwards held only where it was. */
    method Get(count: int, opts: SubscriptionOptions, now: int, tokens: seq<Token>) returns (msgs: seq<Message>)
      requires Valid()
      requires |tokens| == Rounds(count) && Unissued(issued, tokens)
      modifies this
      ensures Valid()
      ensures Claim(records, msgs) == ClaimAll(old(records), now, LeaseUntil(now, opts, options), tokens)
      ensures forall id :: id in records && id in old(records) && records[id].ack.Some? && records[id].ack.value in old(issued) ==>
        records[id].ack == old(records)[id].ack
      ensures issued == old(issued) + (set t | t in tokens)
      ensures nextId == old(nextId) && status == old(status) && busyConsumers == old(busyConsumers)
      ensures intervalHandles == old(intervalHandles) && running == old(running)
      ensures subscribed == old(subscribed) && stuck == old(stuck)
    {
      var visible := LeaseUntil(now, opts, options);
      assert FreshTokens(records, tokens);
      var rs;
      rs, msgs := ClaimEach(records, now, visible, tokens);
      ClaimAllFrame(records, now, visible, tokens);
      ClaimAllTokensUnique(records, now, visible, tokens);
      ClaimAllNewTokens(records, now, visible, tokens);
      records := rs;
      issued := issued + (set t | t in tokens);
    }

    /** The shared step of `ping`, `ack` and `nack`: find the record holding
        `token` at `now` and apply `u` to it, or fail with "Unidentified ack". */
    method Present(token: Token, now: int, u: LeaseUpdate) returns (res: Result<Message>)
      requires Valid()
      modifies this
      ensures Valid()
      ensures LeaseEffect(old(records), token, now, u).Err? ==>
        res == Err(UnidentifiedAck(OpOf(u), token)) && records == old(records)
      ensures LeaseEffect(old(records), token, now, u).Ok? ==>
        && records == LeaseEffect(old(records), token, now, u).value
        && res.Ok? && res.value.id in Holders(old(records), token, now)
        && res.value.id in records && res.value.rec == records[res.value.id]
      ensures nextId == old(nextId) && status == old(status) && busyConsumers == old(busyConsumers)
      ensures intervalHandles == old(intervalHandles) && running == old(running)
      ensures subscribed == old(subscribed) && stuck == old(stuck) && issued == old(issued)
    {
      var holders := Holders(records, token, now);
      if holders == {} {
        return Err(UnidentifiedAck(OpOf(u), token));
      }
      var id :| id in holders;
      LeaseStepKeeps(records, issued, running, token, now, u, id);
      var rec := Apply(records[id], u);
      records := records[id := rec];
      res := Ok(Message(id, rec));
    }

    /** `ping(token, opts)`: extend the lease; the record's id. */
    method Ping(token: Token, opts: SubscriptionOptions, now: int) returns (res: Result<Id>)
      requires Valid()
      modifies this
      ensures Valid()
      ensures var e := LeaseEffect(old(records), token, now, PingUpdate(LeaseUntil(now, opts, options)));
        && (e.Err? ==> res == Err(UnidentifiedAck(PingOp, token)) && records == old(records))
        && (e.Ok? ==> records == e.value && res.Ok? && res.value in Holders(old(records), token, now))
      ensures nextId == old(nextId) && status == old(status) && busyConsumers == old(busyConsumers)
      ensures intervalHandles == old(intervalHandles) && running == old(running)
      ensures subscribed == old(subscribed) && stuck == old(stuck) && issued == old(issued)
    {
      var r := Present(token, now, PingUpdate(LeaseUntil(now, opts, options)));
      if r.Err? {
        return Err(r.error);
      }
      res := Ok(r.value.id);
    }

    /** `ack(token, result)`: mark the record done with the handler's result. */
    method Ack(token: Token, result: Option<Doc>, now: int) returns (res: Result<Message>)
      requires Valid()
      modifies this
      ensures Valid()
      ensures var e := LeaseEffect(old(records), token, now, AckUpdate(now, result));
        && (e.Err? ==> res == Err(UnidentifiedAck(AckOp, token)) && records == old(records))
        && (e.Ok? ==>
              records == e.value && res.Ok? && res.value.id in Holders(old(records), token, now)
              && res.value.rec == records[res.value.id])
      ensures nextId == old(nextId) && status == old(status) && busyConsumers == old(busyConsumers)
      ensures intervalHandles == old(intervalHandles) && running == old(running)
      ensures subscribed == old(subscribed) && stuck == old(stuck) && issued == old(issued)
    {
      res := Present(token, now, AckUpdate(now, result));
    }

    /** `nack(token, opts)`: drop the token and make the record visible again
        after `opts.delay || options.delay`. */
    method Nack(token: Token, opts: SubscriptionOptions, now: int) returns (res: Result<Message>)
      requires Valid()
      modifies this
      ensures Valid()
      ensures var e := LeaseEffect(old(records), token, now, NackAt(now, opts.delay, options.delay));
        && (e.Err? ==> res == Err(UnidentifiedAck(NackOp, token)) && records == old(records))
        && (e.Ok? ==>
              records == e.value && res.Ok? && res.value.id in Holders(old(records), token, now)
              && res.value.rec == records[res.value.id])
      ensures nextId == old(nextId) && status == old(status) && busyConsumers == old(busyConsumers)
      ensures intervalHandles == old(intervalHandles) && running == old(running)
      ensures subscribed == old(subscribed) && stuck == old(stuck) && issued == old(issued)
    {
      res := Present(token, now, NackAt(now, opts.delay, options.delay));
    }

    /** `clean`: delete every done record; the number deleted. */
    method Clean() returns (deleted: nat)
      requires Valid()
      modifies this
      ensures Valid()
      ensures records == Cleaned(old(records)) && deleted == Done(old(records))
      ensures nextId == old(nextId) && status == old(status) && busyConsumers == old(busyConsumers)
      ensures intervalHandles == old(intervalHandles) && running == old(running)
      ensures subscribed == old(subscribed) && stuck == old(stuck) && issued == old(issued)
    {
      deleted := Done(records);
      AccountedAfterUpdate(records, Cleaned(records), issued, running);
      records := Cleaned(records);
    }

    /** `start`: register a poll timer, then mark the queue started. */
    method Start(h: Handle)
      requires Valid()
      modifies this
      ensures Valid()
      ensures status == Started && intervalHandles == old(intervalHandles) + [h]
      ensures records == old(records) && nextId == old(nextId)
      ensures busyConsumers == old(busyConsumers) && running == old(running)
      ensures subscribed == old(subscribed) && stuck == old(stuck) && issued == old(issued)
    {
      intervalHandles := intervalHandles + [h];
      status := Started;
    }

    /** `subscribe`: mark the queue started, set the handler and register a
        poll timer (what the handler does is the `outcome` a `RunHandler` is
        given). */
    method Subscribe(h: Handle)
      requires Valid()
      modifies this
      ensures Valid()
      ensures status == Started && subscribed && intervalHandles == old(intervalHandles) + [h]
      ensures records == old(records) && nextId == old(nextId)
      ensures busyConsumers == old(busyConsumers) && running == old(running)
      ensures stuck == old(stuck) && issued == old(issued)
    {
      status := Started;
      subscribed := true;
      intervalHandles := intervalHandles + [h];
    }

    /** `stop`: mark the queue stopped and clear every timer; stopping a
        stopped queue changes nothing. */
    method Stop()
      requires Valid()
      modifies this
      ensures Valid()
      ensures status == Stopped && intervalHandles == []
      ensures old(status) == Stopped && old(intervalHandles) == [] ==> unchanged(this)
      ensures records == old(records) && nextId == old(nextId)
      ensures busyConsumers == old(busyConsumers) && running == old(running)
      ensures subscribed == old(subscribed) && stuck == old(stuck) && issued == old(issued)
    {
      status := Stopped;
      intervalHandles := [];
    }

    /** One poll tick: nothing unless started; nothing when no consumer is
        idle; otherwise `get(idle)` with the queue's options, and every message
        it returns takes a consumer. With a handler set, each message goes to
        it; a queue started without `subscribe` has none, the call throws
        before the wrapper's `finally`, and those consumers stay busy. */
    method Tick(now: int, tokens: seq<Token>) returns (dispatched: seq<Message>)
      requires Valid()
      requires |tokens| == Rounds(Idle()) && Unissued(issued, tokens)
      modifies this
      ensures Valid()
      ensures old(status) != Started || old(Idle()) == 0 ==>
        && dispatched == [] && records == old(records) && busyConsumers == old(busyConsumers)
        && running == old(running) && stuck == old(stuck) && issued == old(issued)
      ensures old(status) == Started && old(Idle()) != 0 ==>
        && Claim(records, dispatched) == ClaimAll(old(records), now, LeaseUntil(now, NoOptions, options), tokens)
        && busyConsumers == old(busyConsumers) + |dispatched|
        && issued == old(issued) + (set t | t in tokens)
        && (subscribed ==> running == old(running) + multiset(dispatched) && stuck == old(stuck))
        && (!subscribed ==> running == old(running) && stuck == old(stuck) + |dispatched|)
      ensures nextId == old(nextId) && status == old(status) && intervalHandles == old(intervalHandles)
      ensures subscribed == old(subscribed)
    {
      if status != Started {
        return [];
      }
      var idle := Idle();
      if idle == 0 {
        return [];
      }
      assert FreshTokens(records, tokens);
      ghost var c := ClaimAll(records, now, LeaseUntil(now, NoOptions, options), tokens);
      ClaimAllFrame(records, now, LeaseUntil(now, NoOptions, options), tokens);
      ClaimAllReturnsWaiting(records, now, LeaseUntil(now, NoOptions, options), tokens);
      ClaimAllHolders(records, now, LeaseUntil(now, NoOptions, options), tokens);
      dispatched := Get(idle, NoOptions, now, tokens);
      assert dispatched == c.claimed && records == c.records && |dispatched| <= |tokens|;
      Dispatch(dispatched);
    }

    /** The end of a tick: the claimed messages take a consumer each, and each
        goes to the handler if `subscribe` set one; otherwise calling it
        throws before the wrapper's `finally`, and the consumers stay busy. */
    method Dispatch(msgs: seq<Message>)
      requires Valid() && options.concurrency.Some? && |msgs| <= Rounds(Idle())
      requires forall m :: m in msgs ==> m.rec.ack.Some? && m.rec.ack.value in issued
      requires forall m, id :: m in msgs && id in records && records[id].ack == m.rec.ack ==> id == m.id
      modifies this
      ensures Valid()
      ensures busyConsumers == old(busyConsumers) + |msgs|
      ensures subscribed ==> running == old(running) + multiset(msgs) && stuck == old(stuck)
      ensures !subscribed ==> running == old(running) && stuck == old(stuck) + |msgs|
      ensures records == old(records) && nextId == old(nextId) && status == old(status)
      ensures intervalHandles == old(intervalHandles) && subscribed == old(subscribed) && issued == old(issued)
    {
      busyConsumers := busyConsumers + |msgs|;
      if subscribed {
        AccountedAfterDispatch(records, issued, running, msgs);
        assert |running + multiset(msgs)| == |running| + |msgs|;
        running := running + multiset(msgs);
      } else {
        stuck := stuck + |msgs|;
      }
    }

    /** `markAsStarted`, as the wrapper calls it: `startedAt` on a first try. */
    method MarkAsStarted(m: Message, at: int)
      requires Valid()
      modifies this
      ensures Valid()
      ensures records == MarkStarted(old(records), m, at)
      ensures nextId == old(nextId) && status == old(status) && intervalHandles == old(intervalHandles)
      ensures busyConsumers == old(busyConsumers) && running == old(running)
      ensures subscribed == old(subscribed) && stuck == old(stuck) && issued == old(issued)
    {
      if m.rec.tries <= 1 && m.id in records {
        var rs := records[m.id := records[m.id].(startedAt := Some(at))];
        assert forall id :: id in rs ==> rs[id].ack == records[id].ack;
        AccountedAfterUpdate(records, rs, issued, running);
        records := rs;
      }
    }

    /** `handleError`: push one `{date, error}` item onto the record's errors. */
    method HandleError(m: Message, error: Doc, now: int)
      requires Valid()
      modifies this
      ensures Valid()
      ensures records == PushError(old(records), m.id, ErrorItem(now, error))
      ensures nextId == old(nextId) && status == old(status) && intervalHandles == old(intervalHandles)
      ensures busyConsumers == old(busyConsumers) && running == old(running)
      ensures subscribed == old(subscribed) && stuck == old(stuck) && issued == old(issued)
    {
      if m.id in records {
        var rs := records[m.id := records[m.id].(errors := records[m.id].errors + [ErrorItem(now, error)])];
        assert forall id :: id in rs ==> rs[id].ack == records[id].ack;
        AccountedAfterUpdate(records, rs, issued, running);
        records := rs;
      }
    }

    /** One run of the wrapped handler on a dispatched message, finishing at
        `now`: the store changes as `HandlerEffect` says and the consumer is
        released in `finally`. */
    method RunHandler(m: Message, outcome: Outcome, startedAt: int, now: int)
      requires Valid() && m in running
      modifies this
      ensures Valid()
      ensures records == HandlerEffect(old(records), m, outcome, startedAt, now)
      ensures records.Keys == old(records).Keys
      ensures forall id :: id in old(records) && id != m.id ==> records[id] == old(records)[id]
      ensures busyConsumers == old(busyConsumers) - 1 && running == old(running) - multiset{m}
      ensures nextId == old(nextId) && status == old(status) && intervalHandles == old(intervalHandles)
    {
      HandlerTouchesOnlyItsRecord(records, m, outcome, startedAt, now);
      MarkAsStarted(m, startedAt);
      match outcome {
        case Returned(result) =>
          var _ := Ack(m.rec.ack.value, result, now);
        case Threw(error) =>
          HandleError(m, error, now);
      }
      Release(m);
    }

    /** The wrapper's `finally`: one consumer fewer is busy. */
    method Release(m: Message)
      requires Valid() && m in running
      modifies this
      ensures Valid()
      ensures busyConsumers == old(busyConsumers) - 1 && running == old(running) - multiset{m}
      ensures records == old(records) && nextId == old(nextId) && status == old(status)
      ensures intervalHandles == old(intervalHandles)
    {
      busyConsumers := busyConsumers - 1;
      running := running - multiset{m};
    }
  }

  function Max(a: int, b: int): int {
    if a >= b then a else b
  }
}
