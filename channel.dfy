/** `Channel` (src/lib/Channel.ts): a topic that fans a payload out to every
    queue collection whose name starts a `<topic>_<something>` match. The
    database is a class holding the collections by name, in the order the
    database lists them, and one id counter shared by all of them. */
module Channel {
  import opened Store
  import Claim

  /** `IQueueOptions`, durations in milliseconds. */
  datatype ChannelOptions = ChannelOptions(deadQueueName: Option<string>, visibility: Option<int>, delay: Option<int>)

  /** `DEFAULT_OPTS`: no delay. */
  const ChannelDefaults := ChannelOptions(None, None, Some(0))

  /** The channel's options: `merge({}, DEFAULT_OPTS, opts)`; a value given
      replaces the default, an undefined one keeps it. */
  function WithChannelDefaults(opts: ChannelOptions): (o: ChannelOptions)
    ensures o.delay.Some?
    ensures opts.delay.Some? ==> o.delay == opts.delay
    ensures opts.delay.None? ==> o.delay == Some(0)
    ensures o.visibility == opts.visibility && o.deadQueueName == opts.deadQueueName
  {
    ChannelOptions(opts.deadQueueName, opts.visibility, if opts.delay.Some? then opts.delay else ChannelDefaults.delay)
  }

  predicate Distinct<T(==)>(s: seq<T>) {
    forall i, j :: 0 <= i < j < |s| ==> s[i] != s[j]
  }

  /** The characters JavaScript's `.` does not match. */
  predicate IsLineTerminator(c: char) {
    c == '\n' || c == '\r' || c == '\U{2028}' || c == '\U{2029}'
  }

  /** `topic + "_"` starts at position `i` of `name` and is followed by a
      character `.` matches. */
  predicate MatchesAt(topic: string, name: string, i: nat) {
    && i + |topic| + 1 < |name|
    && name[i..i + |topic|] == topic
    && name[i + |topic|] == '_'
    && !IsLineTerminator(name[i + |topic| + 1])
  }

  /** `new RegExp(topic + "_.+").test(name)`, for a topic free of regular
      expression metacharacters: the pattern is unanchored. */
  predicate Matches(topic: string, name: string) {
    exists i: nat :: i < |name| && MatchesAt(topic, name, i)
  }

  /** The queues a `publish` writes to: the matching names, in listing order. */
  function Targets(topic: string, names: seq<string>): (ts: seq<string>)
    ensures forall n :: n in ts <==> n in names && Matches(topic, n)
    ensures |ts| <= |names|
    decreases |names|
  {
    if names == [] then []
    else
      var rest := Targets(topic, names[..|names| - 1]);
      var last := names[|names| - 1];
      assert names == names[..|names| - 1] + [last];
      if Matches(topic, last) then rest + [last] else rest
  }

  /** The targets keep listing order: the targets among the first `k` listed
      names come first, in the same order. */
  lemma {:induction false} TargetsInOrder(topic: string, names: seq<string>, k: nat)
    requires k <= |names|
    ensures Targets(topic, names[..k]) <= Targets(topic, names)
    decreases |names|
  {
    if k < |names| {
      var init := names[..|names| - 1];
      assert init[..k] == names[..k];
      TargetsInOrder(topic, init, k);
    } else {
      assert names[..k] == names;
    }
  }

  /** Distinct listed names give distinct targets. */
  lemma {:induction false} TargetsDistinct(topic: string, names: seq<string>)
    requires Distinct(names)
    ensures Distinct(Targets(topic, names))
    decreases |names|
  {
    if names != [] {
      var init := names[..|names| - 1];
      TargetsDistinct(topic, init);
      assert Distinct(Targets(topic, init));
      var last := names[|names| - 1];
      assert last !in init by {
        forall i | 0 <= i < |init| ensures init[i] != last {
          assert init[i] == names[i];
        }
      }
      var rest := Targets(topic, init);
      assert last !in rest;
      if Matches(topic, last) {
        var ts := rest + [last];
        assert Targets(topic, names) == ts;
        forall i, j | 0 <= i < j < |ts| ensures ts[i] != ts[j] {
          if j == |rest| {
            assert ts[i] == rest[i] && ts[j] == last;
          } else {
            assert ts[i] == rest[i] && ts[j] == rest[j];
          }
        }
      }
    }
  }

  /** The pattern on names from the channel's own tests and on its edge cases:
      a queue of the topic matches; the bare topic, the topic and an
      underscore alone, and an underscore followed only by a line break do
      not; the pattern is found anywhere in the name. */
  lemma MatchesExamples()
    ensures Matches("myTopic", "myTopic_myQueue")
    ensures Matches("t", "xt_1")
    ensures !Matches("myTopic", "myTopic")
    ensures !Matches("myTopic", "myTopic_")
    ensures !Matches("t", "t_\n")
  {
    assert MatchesAt("myTopic", "myTopic_myQueue", 0);
    assert MatchesAt("t", "xt_1", 1);
    forall i: nat | i < |"t_\n"| ensures !MatchesAt("t", "t_\n", i) {
      if i == 0 {
        assert IsLineTerminator("t_\n"[2]);
      }
    }
  }

  /** What `publish` stamps on every record it inserts: only `visible`, from
      `opts.delay || options.delay` (now when that is falsy); no `createdAt`,
      no `priority`. */
  function PublishStamp(now: int, opts: ChannelOptions, options: ChannelOptions): (s: Stamp)
    ensures s.createdAt.None? && s.priority.None?
    ensures opts.delay.Some? && opts.delay.value != 0 ==> s.visible == now + opts.delay.value
    ensures (opts.delay.None? || opts.delay.value == 0) && options.delay.Some? && options.delay.value != 0 ==>
      s.visible == now + options.delay.value
    ensures (opts.delay.None? || opts.delay.value == 0) && (options.delay.None? || options.delay.value == 0) ==>
      s.visible == now
  {
    Stamp(now + Span(Or(opts.delay, options.delay)), None, None)
  }

  /** A published record has no `priority`, which the store sorts below every
      number: when a `Queue` claims from a collection that also holds records
      from its own `add`, each of those is claimed before any published one. */
  lemma PublishedRanksLast(id: Id, r: Record, start: Id, docs: seq<Doc>, now: int, opts: ChannelOptions, options: ChannelOptions)
    requires r.priority.Some?
    ensures var b := Batch(start, docs, PublishStamp(now, opts, options));
      forall p :: p in b ==> Claim.Precedes(Claim.Key(id, r), Claim.Key(p, b[p]))
  {
    var b := Batch(start, docs, PublishStamp(now, opts, options));
    forall p | p in b
      ensures b[p].priority.None?
    {
      assert b[p] == Fresh(docs[p - start], PublishStamp(now, opts, options));
    }
  }

  /** Where the batch for the `k`-th target starts, when every batch holds
      `n` records and the first starts at `base`. */
  function Offset(base: Id, k: nat, n: nat): (o: Id)
    ensures base <= o
  {
    base + k * n
  }

  lemma OffsetNext(base: Id, k: nat, n: nat)
    ensures Offset(base, k + 1, n) == Offset(base, k, n) + n
  {
  }

  /** One entry of `publish`'s result: the id of a single payload, or the ids
      of an array payload in payload order. */
  datatype Inserted = OneId(id: Id) | ManyIds(ids: seq<Id>)

  /** The result entry for a target whose batch starts at id `start`. */
  function Entry(payload: Payload, start: Id): Inserted {
    match payload
    case One(_) => OneId(start)
    case Many(ds) => ManyIds(IdRange(start, |ds|))
  }

  /** What the `k`-th target's insert does to its collection: the batch under
      ids from `Offset(base, k, |docs|)` on is added. */
  function AddBatch(base: Id, docs: seq<Doc>, stamp: Stamp): (map<Id, Record>, nat) -> map<Id, Record> {
    (c: map<Id, Record>, k: nat) => c + Batch(Offset(base, k, |docs|), docs, stamp)
  }

  /** The collections after applying `grow` to each of `targets` in turn,
      the `k`-th target with `k`. */
  function Fanout<K, V>(cols: map<K, V>, targets: seq<K>, grow: (V, nat) -> V): (r: map<K, V>)
    requires forall t :: t in targets ==> t in cols
    ensures r.Keys == cols.Keys
    decreases |targets|
  {
    if targets == [] then cols
    else
      var k := |targets| - 1;
      var prev := Fanout(cols, targets[..k], grow);
      prev[targets[k] := grow(prev[targets[k]], k)]
  }

  /** A collection that is not a target is left as it was. */
  lemma {:induction false} FanoutOthers<K, V>(cols: map<K, V>, targets: seq<K>, grow: (V, nat) -> V, name: K)
    requires forall t :: t in targets ==> t in cols
    requires name in cols && name !in targets
    ensures Fanout(cols, targets, grow)[name] == cols[name]
    decreases |targets|
  {
    if targets != [] {
      var k := |targets| - 1;
      assert forall t :: t in targets[..k] ==> t in targets;
      FanoutOthers(cols, targets[..k], grow, name);
      assert name != targets[k];
    }
  }

  /** With distinct targets, each target is grown exactly once, with its own
      position. */
  lemma {:induction false} FanoutSpec<K, V>(cols: map<K, V>, targets: seq<K>, grow: (V, nat) -> V)
    requires forall t :: t in targets ==> t in cols
    requires Distinct(targets)
    ensures var r := Fanout(cols, targets, grow);
      forall k :: 0 <= k < |targets| ==> r[targets[k]] == grow(cols[targets[k]], k)
    decreases |targets|
  {
    if targets != [] {
      var k := |targets| - 1;
      var init := targets[..k];
      assert forall t :: t in init ==> t in targets;
      assert Distinct(init);
      FanoutSpec(cols, init, grow);
      var r := Fanout(cols, targets, grow);
      var prev := Fanout(cols, init, grow);
      forall j | 0 <= j < k
        ensures r[targets[j]] == prev[targets[j]]
      {
        assert targets[j] != targets[k];
      }
      assert targets[k] !in init by {
        forall i | 0 <= i < k ensures init[i] != targets[k] {
          assert init[i] == targets[i];
        }
      }
      FanoutOthers(cols, init, grow, targets[k]);
    }
  }

  /** Inserting the same documents into distinct targets: the `k`-th target
      gains exactly the batch under the `k`-th block of `|docs|` ids, and every
      other collection is left as it was. */
  lemma PublishedBatches(cols: map<string, map<Id, Record>>, targets: seq<string>, base: Id, docs: seq<Doc>, stamp: Stamp)
    requires forall t :: t in targets ==> t in cols
    requires Distinct(targets)
    ensures var r := Fanout(cols, targets, AddBatch(base, docs, stamp));
      && (forall k :: 0 <= k < |targets| ==>
            r[targets[k]] == cols[targets[k]] + Batch(Offset(base, k, |docs|), docs, stamp))
      && (forall n :: n in cols && n !in targets ==> r[n] == cols[n])
  {
    var grow := AddBatch(base, docs, stamp);
    FanoutSpec(cols, targets, grow);
    forall n | n in cols && n !in targets
      ensures Fanout(cols, targets, grow)[n] == cols[n]
    {
      FanoutOthers(cols, targets, grow, n);
    }
  }

  /** The result of a `publish` to the first `k` targets. */
  function Entries(payload: Payload, base: Id, k: nat): seq<Inserted> {
    seq(k, j requires 0 <= j => Entry(payload, Offset(base, j, |Docs(payload)|)))
  }

  lemma EntriesNext(payload: Payload, base: Id, k: nat)
    ensures Entries(payload, base, k + 1) == Entries(payload, base, k) + [Entry(payload, Offset(base, k, |Docs(payload)|))]
  {
  }

  /** The ids an entry lists: one for a single payload, one per document for
      an array payload. */
  function EntryIds(e: Inserted): seq<Id> {
    match e
    case OneId(id) => [id]
    case ManyIds(ids) => ids
  }

  /** The `j`-th id of an entry names the `j`-th document of its batch, under
      an id the collection did not hold. */
  lemma EntryIdAt(col: map<Id, Record>, grown: map<Id, Record>, payload: Payload, start: Id, stamp: Stamp, j: nat)
    requires grown == col + Batch(start, Docs(payload), stamp)
    requires forall id :: id in col ==> id < start
    requires j < |Docs(payload)|
    ensures |EntryIds(Entry(payload, start))| == |Docs(payload)|
    ensures var id := EntryIds(Entry(payload, start))[j];
      id !in col && id in grown && grown[id] == Fresh(Docs(payload)[j], stamp)
  {
    EntryIdsRange(payload, start);
    BatchAt(start, Docs(payload), stamp, j);
  }

  /** An entry lists its batch's ids in order. */
  lemma EntryIdsRange(payload: Payload, start: Id)
    ensures EntryIds(Entry(payload, start)) == IdRange(start, |Docs(payload)|)
  {
    if payload.One? {
      assert IdRange(start, 1) == [start];
    }
  }

  /** The `j`-th id of a batch holds the `j`-th document. */
  lemma BatchAt(start: Id, docs: seq<Doc>, stamp: Stamp, j: nat)
    requires j < |docs|
    ensures start + j in Batch(start, docs, stamp)
    ensures Batch(start, docs, stamp)[start + j] == Fresh(docs[j], stamp)
  {
    assert start + j in IdSet(start, |docs|);
  }

  /** What `publish` returns names what it inserted: with distinct targets
      and every id in use below `base`, the `j`-th id of the `k`-th entry was
      absent from the `k`-th target before, and afterwards holds the `j`-th
      document under the publish's stamp. */
  lemma PublishedId(cols: map<string, map<Id, Record>>, targets: seq<string>, base: Id, payload: Payload, stamp: Stamp, k: nat, j: nat)
    requires forall t :: t in targets ==> t in cols
    requires Distinct(targets)
    requires forall n, id :: n in cols && id in cols[n] ==> id < base
    requires k < |targets| && j < |Docs(payload)|
    ensures var es := Entries(payload, base, |targets|);
      var r := Fanout(cols, targets, AddBatch(base, Docs(payload), stamp));
      && |es| == |targets| && |EntryIds(es[k])| == |Docs(payload)|
      && EntryIds(es[k])[j] !in cols[targets[k]]
      && EntryIds(es[k])[j] in r[targets[k]]
      && r[targets[k]][EntryIds(es[k])[j]] == Fresh(Docs(payload)[j], stamp)
  {
    var docs := Docs(payload);
    var r := Fanout(cols, targets, AddBatch(base, docs, stamp));
    PublishedBatches(cols, targets, base, docs, stamp);
    var start := Offset(base, k, |docs|);
    assert Entries(payload, base, |targets|)[k] == Entry(payload, start);
    assert forall id :: id in cols[targets[k]] ==> id < start;
    EntryIdAt(cols[targets[k]], r[targets[k]], payload, start, stamp, j);
  }

  /** The `j`-th id of the `k`-th entry was absent from the `k`-th target
      `before`, and `after` it holds the `j`-th document under `stamp`. */
  predicate NamesInsertedAt(es: seq<Inserted>, targets: seq<string>, before: map<string, map<Id, Record>>,
                            after: map<string, map<Id, Record>>, docs: seq<Doc>, stamp: Stamp, k: nat, j: nat)
  {
    && k < |es| && k < |targets| && j < |docs|
    && targets[k] in before && targets[k] in after
    && j < |EntryIds(es[k])|
    && EntryIds(es[k])[j] !in before[targets[k]]
    && EntryIds(es[k])[j] in after[targets[k]]
    && after[targets[k]][EntryIds(es[k])[j]] == Fresh(docs[j], stamp)
  }

  /** Each entry names what was inserted into its target, one id per
      document, in document order. */
  predicate NamesInserted(es: seq<Inserted>, targets: seq<string>, before: map<string, map<Id, Record>>,
                          after: map<string, map<Id, Record>>, docs: seq<Doc>, stamp: Stamp)
  {
    && |es| == |targets|
    && forall k: nat, j: nat :: k < |targets| && j < |docs| ==> NamesInsertedAt(es, targets, before, after, docs, stamp, k, j)
  }

  /** The same for every entry at once. */
  lemma PublishedIds(cols: map<string, map<Id, Record>>, targets: seq<string>, base: Id, payload: Payload, stamp: Stamp)
    requires forall t :: t in targets ==> t in cols
    requires Distinct(targets)
    requires forall n, id :: n in cols && id in cols[n] ==> id < base
    ensures NamesInserted(Entries(payload, base, |targets|), targets, cols,
      Fanout(cols, targets, AddBatch(base, Docs(payload), stamp)), Docs(payload), stamp)
  {
    var docs := Docs(payload);
    var es := Entries(payload, base, |targets|);
    var r := Fanout(cols, targets, AddBatch(base, docs, stamp));
    assert |es| == |targets|;
    forall k: nat, j: nat | k < |targets| && j < |docs|
      ensures NamesInsertedAt(es, targets, cols, r, docs, stamp, k, j)
    {
      PublishedId(cols, targets, base, payload, stamp, k, j);
    }
  }

  /** The database: its collections by name, the order `listCollections`
      lists them in, and the counter new ids come from. */
  class Database {
    var names: seq<string>
    var collections: map<string, map<Id, Record>>
    var nextId: Id

    ghost predicate Valid()
      reads this
    {
      && Distinct(names)
      && (forall n :: n in collections <==> n in names)
      && (forall n, id :: n in collections && id in collections[n] ==> id < nextId)
    }

    constructor(listed: seq<string>)
      requires Distinct(listed)
      ensures Valid() && names == listed && nextId == 0
      ensures forall n :: n in listed ==> collections[n] == map[]
    {
      names := listed;
      collections := map n | n in listed :: map[];
      nextId := 0;
    }

    /** `insertMany` into one collection: the batch under fresh ids. */
    method InsertMany(name: string, docs: seq<Doc>, stamp: Stamp)
      requires Valid() && name in collections
      modifies this
      ensures Valid()
      ensures collections == old(collections)[name := old(collections)[name] + Batch(old(nextId), docs, stamp)]
      ensures nextId == old(nextId) + |docs| && names == old(names)
    {
      var b := Batch(nextId, docs, stamp);
      BatchInsert(map[], nextId, docs, stamp);
      assert forall id :: id in b ==> id < nextId + |docs|;
      collections := collections[name := collections[name] + b];
      nextId := nextId + |docs|;
    }

    /** The same batch into each of `targets` in turn; the entry for each. */
    method InsertEach(targets: seq<string>, payload: Payload, stamp: Stamp) returns (entries: seq<Inserted>)
      requires Valid() && forall t :: t in targets ==> t in collections
      modifies this
      ensures Valid() && names == old(names)
      ensures entries == Entries(payload, old(nextId), |targets|)
      ensures collections == Fanout(old(collections), targets, AddBatch(old(nextId), Docs(payload), stamp))
      ensures nextId == Offset(old(nextId), |targets|, |Docs(payload)|)
    {
      var docs := Docs(payload);
      entries := [];
      var k := 0;
      while k < |targets|
        invariant 0 <= k <= |targets|
        invariant Valid() && names == old(names)
        invariant nextId == Offset(old(nextId), k, |docs|)
        invariant entries == Entries(payload, old(nextId), k)
        invariant collections == Fanout(old(collections), targets[..k], AddBatch(old(nextId), docs, stamp))
      {
        assert targets[..k + 1][..k] == targets[..k];
        var start := nextId;
        InsertMany(targets[k], docs, stamp);
        OffsetNext(old(nextId), k, |docs|);
        EntriesNext(payload, old(nextId), k);
        entries := entries + [Entry(payload, start)];
        k := k + 1;
      }
      assert targets[..k] == targets;
    }
  }

  class Channel {
    const topic: string
    const options: ChannelOptions

    constructor(topicName: string, opts: ChannelOptions)
      ensures topic == topicName && options == WithChannelDefaults(opts)
    {
      topic := topicName;
      options := WithChannelDefaults(opts);
    }

    /** `publish(payload, opts)`: the same batch, with one shared `visible`,
        into every target in listing order; one result entry per target. An
        empty array payload is refused, but only when there is a target. */
    method Publish(db: Database, payload: Payload, opts: ChannelOptions, now: int) returns (res: Result<seq<Inserted>>)
      requires db.Valid()
      modifies db
      ensures db.Valid() && db.names == old(db.names)
      ensures var targets := Targets(topic, old(db.names));
        res.Err? <==> payload == Many([]) && targets != []
      ensures res.Err? ==> res.error == EmptyPayload && unchanged(db)
      ensures res.Ok? ==>
        var targets := Targets(topic, old(db.names));
        && res.value == Entries(payload, old(db.nextId), |targets|)
        && db.collections == Fanout(old(db.collections), targets, AddBatch(old(db.nextId), Docs(payload), PublishStamp(now, opts, options)))
        && db.nextId == Offset(old(db.nextId), |targets|, |Docs(payload)|)
      ensures res.Ok? ==>
        NamesInserted(res.value, Targets(topic, old(db.names)), old(db.collections), db.collections,
          Docs(payload), PublishStamp(now, opts, options))
    {
      var targets := Targets(topic, db.names);
      if payload == Many([]) && targets != [] {
        return Err(EmptyPayload);
      }
      var stamp := PublishStamp(now, opts, options);
      TargetsDistinct(topic, db.names);
      PublishedIds(db.collections, targets, db.nextId, payload, stamp);
      var entries := db.InsertEach(targets, payload, stamp);
      res := Ok(entries);
    }
  }
}
