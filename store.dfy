/** The document store under a queue: one collection of message records keyed
    by id, the filters the queue's queries use, and the batch insert that
    `Queue.add` and `Channel.publish` share. Time is an integer number of
    milliseconds; every duration below is in milliseconds too. */
module Store {

  datatype Option<T> = None | Some(value: T)

  type Id = nat        // a record's `_id`, handed out by a counter
  type Token = nat     // a lease token (`ack`), supplied fresh by the caller
  type Doc = string    // an application value (payload, handler result, serialized error), kept opaque

  /** One entry of a record's `errors` list, pushed when a handler throws. */
  datatype ErrorItem = ErrorItem(date: int, error: Doc)

  /** A message record. A field the store has never been given is `None`;
      a missing `tries` behaves as 0 for both `$inc` and the `!msg.tries` test. */
  datatype Record = Record(
    payload: Doc,
    visible: int,
    createdAt: Option<int>,
    priority: Option<int>,
    tries: nat,
    ack: Option<Token>,
    deletedAt: Option<int>,
    result: Option<Doc>,
    errors: seq<ErrorItem>,
    startedAt: Option<int>)

  /** A record as a query returns it: with its id. */
  datatype Message = Message(id: Id, rec: Record)

  /** A payload argument: a single value, or an array that is inserted element by element. */
  datatype Payload = One(doc: Doc) | Many(docs: seq<Doc>)

  datatype LeaseOp = PingOp | AckOp | NackOp

  /** The errors the core throws. */
  datatype Error =
    | EmptyPayload                               // an empty array payload
    | UnidentifiedAck(op: LeaseOp, token: Token) // no live lease holds the token

  datatype Result<T> = Ok(value: T) | Err(error: Error)

  /** The documents a payload inserts, in order. */
  function Docs(p: Payload): seq<Doc> {
    match p
    case One(d) => [d]
    case Many(ds) => ds
  }

  /** JavaScript's `given || fallback` on an optional number: an absent or
      zero value falls through to the fallback. */
  function Or(given: Option<int>, fallback: Option<int>): Option<int> {
    if given.Some? && given.value != 0 then given else fallback
  }

  /** A duration as `nowPlusSecs` and the `delay ? … : now()` tests use it; absent is 0. */
  function Span(d: Option<int>): int {
    if d.Some? then d.value else 0
  }

  // ---------------------------------------------------------------------
  // The filters of the queue's queries

  /** `{deletedAt: null, visible: {$lte: now}}`: claimable by `get`, counted by `size`. */
  predicate IsWaiting(r: Record, now: int) {
    r.deletedAt.None? && r.visible <= now
  }

  /** `{ack: {$exists: true}, visible: {$gt: now}, deletedAt: null}`: counted by `inFlight`. */
  predicate IsInFlight(r: Record, now: int) {
    r.ack.Some? && r.visible > now && r.deletedAt.None?
  }

  /** `{deletedAt: {$exists: true}}`: counted by `done`, removed by `clean`. */
  predicate IsDone(r: Record) {
    r.deletedAt.Some?
  }

  /** The unique sparse index on `ack`: no two records carry the same token. */
  ghost predicate TokensUnique(records: map<Id, Record>) {
    forall i, j :: i in records && j in records && i != j && records[i].ack.Some? ==> records[i].ack != records[j].ack
  }

  /** Tokens a caller supplies for new leases: pairwise distinct and held by no record. */
  ghost predicate FreshTokens(records: map<Id, Record>, tokens: seq<Token>) {
    && (forall i, j :: 0 <= i < j < |tokens| ==> tokens[i] != tokens[j])
    && (forall id, k :: id in records && 0 <= k < |tokens| ==> records[id].ack != Some(tokens[k]))
  }

  // ---------------------------------------------------------------------
  // Batch insert

  /** The fields one insert stamps on every record of its batch. */
  datatype Stamp = Stamp(visible: int, createdAt: Option<int>, priority: Option<int>)

  /** A newly inserted record: the stamp and the payload, nothing else. */
  function Fresh(doc: Doc, stamp: Stamp): Record {
    Record(doc, stamp.visible, stamp.createdAt, stamp.priority, 0, None, None, None, [], None)
  }

  /** The ids `insertMany` hands out to a batch of `n` documents, in order. */
  function IdRange(start: Id, n: nat): seq<Id> {
    seq(n, k => start + k)
  }

  /** The same ids as a set: exactly the `n` ids from `start` on. */
  function IdSet(start: Id, n: nat): (s: set<Id>)
    ensures forall id :: id in s <==> start <= id < start + n
    ensures |s| == n
  {
    if n == 0 then {} else IdSet(start, n - 1) + {start + n - 1}
  }

  /** The records `insertMany` adds for `docs`, under ids `start`, `start + 1`, … */
  function Batch(start: Id, docs: seq<Doc>, stamp: Stamp): map<Id, Record> {
    map id | id in IdSet(start, |docs|) :: Fresh(docs[id - start], stamp)
  }

  /** Every record of a batch carries one shared stamp, holds its own payload
      in payload order, and has never been claimed; the batch holds exactly
      one record per document, under the ids handed back. */
  lemma BatchShape(start: Id, docs: seq<Doc>, stamp: Stamp)
    ensures Batch(start, docs, stamp).Keys == IdSet(start, |docs|)
    ensures |Batch(start, docs, stamp)| == |docs|
    ensures forall k :: 0 <= k < |docs| ==>
      var r := Batch(start, docs, stamp)[IdRange(start, |docs|)[k]];
      && r.payload == docs[k]
      && r.visible == stamp.visible && r.createdAt == stamp.createdAt && r.priority == stamp.priority
      && r.tries == 0 && r.ack.None? && r.deletedAt.None? && r.errors == []
  {
    var b := Batch(start, docs, stamp);
    assert b.Keys == IdSet(start, |docs|);
    forall k | 0 <= k < |docs|
      ensures b[IdRange(start, |docs|)[k]] == Fresh(docs[k], stamp)
    {
      var id := IdRange(start, |docs|)[k];
      assert id == start + k && id in IdSet(start, |docs|);
    }
  }

  /** Inserting a batch under ids above every existing one keeps the unique
      index on `ack` satisfied, keeps every existing record, adds none that
      holds a token, and moves the id counter past the batch. */
  lemma BatchInsert(records: map<Id, Record>, start: Id, docs: seq<Doc>, stamp: Stamp)
    requires forall id :: id in records ==> id < start
    requires TokensUnique(records)
    ensures var rs := records + Batch(start, docs, stamp);
      && TokensUnique(rs)
      && (forall id :: id in rs ==> id < start + |docs|)
      && (forall id :: id in records ==> id in rs && rs[id] == records[id])
      && (forall id :: id in rs && id !in records ==> rs[id].ack.None?)
  {
    var b := Batch(start, docs, stamp);
    var rs := records + b;
    assert forall id :: id in b ==> b[id].ack.None? && start <= id < start + |docs|;
    assert forall id :: id in rs && id !in b ==> rs[id] == records[id];
  }
}
