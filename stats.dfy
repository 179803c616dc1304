/** The queue's counters and its cleanup (src/lib/Queue.ts:358-408): `total`
    counts every record, `size` the waiting ones, `inFlight` the leased ones,
    `done` the acknowledged ones, and `clean` deletes the acknowledged ones. */
module Stats {
  import opened Store
  import opened Claim

  function InFlightIds(records: map<Id, Record>, now: int): set<Id> {
    set id | id in records && IsInFlight(records[id], now)
  }

  function DoneIds(records: map<Id, Record>): set<Id> {
    set id | id in records && IsDone(records[id])
  }

  /** `total`: `countDocuments()` with no filter. */
  function Total(records: map<Id, Record>): nat {
    |records|
  }

  /** `size`: the records a `get` at `now` could claim. */
  function Size(records: map<Id, Record>, now: int): nat {
    |EligibleIds(records, now)|
  }

  function InFlight(records: map<Id, Record>, now: int): nat {
    |InFlightIds(records, now)|
  }

  function Done(records: map<Id, Record>): nat {
    |DoneIds(records)|
  }

  /** The store after `clean`: every record with a `deletedAt` is removed. */
  function Cleaned(records: map<Id, Record>): map<Id, Record> {
    map id | id in records && !IsDone(records[id]) :: records[id]
  }

  /** A record that is neither done, nor waiting, nor leased: its `visible` is
      in the future and it holds no token (inserted with a delay, or nacked
      with one). */
  predicate IsDelayed(r: Record, now: int) {
    r.deletedAt.None? && r.visible > now && r.ack.None?
  }

  // ---------------------------------------------------------------------
  // Properties

  lemma SubsetCard<T>(a: set<T>, b: set<T>)
    requires a <= b
    ensures |a| <= |b|
  {
    assert b == a + (b - a);
  }

  /** The three counted groups are disjoint, so `size + inFlight + done` never
      exceeds `total`; a record outside all three is exactly a delayed one. */
  lemma StatsPartition(records: map<Id, Record>, now: int)
    ensures EligibleIds(records, now) !! InFlightIds(records, now)
    ensures EligibleIds(records, now) !! DoneIds(records)
    ensures InFlightIds(records, now) !! DoneIds(records)
    ensures Size(records, now) + InFlight(records, now) + Done(records) <= Total(records)
    ensures forall id :: id in records ==>
      (IsDelayed(records[id], now) <==>
         id !in EligibleIds(records, now) + InFlightIds(records, now) + DoneIds(records))
  {
    var w, f, d := EligibleIds(records, now), InFlightIds(records, now), DoneIds(records);
    assert |w + f| == |w| + |f|;
    assert |w + f + d| == |w + f| + |d|;
    SubsetCard(w + f + d, records.Keys);
  }

  /** The three counts add up to `total` exactly when nothing is delayed. */
  lemma StatsExhaustive(records: map<Id, Record>, now: int)
    ensures Size(records, now) + InFlight(records, now) + Done(records) == Total(records)
      <==> forall id :: id in records ==> !IsDelayed(records[id], now)
  {
    StatsPartition(records, now);
    var w, f, d := EligibleIds(records, now), InFlightIds(records, now), DoneIds(records);
    assert |w + f + d| == |w| + |f| + |d|;
    if forall id :: id in records ==> !IsDelayed(records[id], now) {
      assert w + f + d == records.Keys;
    } else {
      var id :| id in records && IsDelayed(records[id], now);
      assert w + f + d < records.Keys;
      SubsetCard(w + f + d + {id}, records.Keys);
    }
  }

  /** `clean` empties `done`, lowers `total` by what `done` was, leaves `size`
      and `inFlight` alone, and keeps every other record as it was. */
  lemma CleanedSpec(records: map<Id, Record>, now: int)
    ensures Done(Cleaned(records)) == 0
    ensures Total(Cleaned(records)) == Total(records) - Done(records)
    ensures Size(Cleaned(records), now) == Size(records, now)
    ensures InFlight(Cleaned(records), now) == InFlight(records, now)
    ensures forall id :: id in records ==>
      (id in Cleaned(records) <==> !IsDone(records[id]))
      && (id in Cleaned(records) ==> Cleaned(records)[id] == records[id])
  {
    var c := Cleaned(records);
    assert DoneIds(c) == {};
    assert c.Keys == records.Keys - DoneIds(records);
    assert |c.Keys| == |records.Keys| - |DoneIds(records)| by {
      assert records.Keys == c.Keys + DoneIds(records);
    }
    assert EligibleIds(c, now) == EligibleIds(records, now);
    assert InFlightIds(c, now) == InFlightIds(records, now);
  }

  /** A record of a fresh batch is waiting exactly when the batch is visible,
      and is never leased or done. */
  lemma BatchRecordState(start: Id, docs: seq<Doc>, stamp: Stamp, now: int, id: Id)
    requires id in Batch(start, docs, stamp)
    ensures IsWaiting(Batch(start, docs, stamp)[id], now) <==> stamp.visible <= now
    ensures !IsInFlight(Batch(start, docs, stamp)[id], now)
    ensures !IsDone(Batch(start, docs, stamp)[id])
  {
    assert Batch(start, docs, stamp)[id] == Fresh(docs[id - start], stamp);
  }

  /** Adding records under new ids, none of them leased or done, and either
      all waiting or none: the sets the counters count. */
  lemma AddSets(records: map<Id, Record>, b: map<Id, Record>, now: int, waiting: bool)
    requires records.Keys !! b.Keys
    requires forall id :: id in b ==> (IsWaiting(b[id], now) <==> waiting) && !IsInFlight(b[id], now) && !IsDone(b[id])
    ensures EligibleIds(records + b, now) == EligibleIds(records, now) + (if waiting then b.Keys else {})
    ensures InFlightIds(records + b, now) == InFlightIds(records, now)
    ensures DoneIds(records + b) == DoneIds(records)
  {
  }

  /** The same, counted. */
  lemma AddStats(records: map<Id, Record>, b: map<Id, Record>, now: int, waiting: bool)
    requires records.Keys !! b.Keys
    requires forall id :: id in b ==> (IsWaiting(b[id], now) <==> waiting) && !IsInFlight(b[id], now) && !IsDone(b[id])
    ensures Total(records + b) == Total(records) + |b|
    ensures Size(records + b, now) == Size(records, now) + (if waiting then |b| else 0)
    ensures InFlight(records + b, now) == InFlight(records, now)
    ensures Done(records + b) == Done(records)
  {
    AddSets(records, b, now, waiting);
    assert (records + b).Keys == records.Keys + b.Keys;
    assert EligibleIds(records, now) !! b.Keys;
  }

  /** Adding a batch of `n` documents with fresh ids raises `total` by `n`,
      raises `size` by `n` exactly when the batch is already visible, and
      leaves `inFlight` and `done` alone. */
  lemma EnqueueStats(records: map<Id, Record>, start: Id, docs: seq<Doc>, stamp: Stamp, now: int)
    requires forall id :: id in records ==> id < start
    ensures var rs := records + Batch(start, docs, stamp);
      && Total(rs) == Total(records) + |docs|
      && Size(rs, now) == Size(records, now) + (if stamp.visible <= now then |docs| else 0)
      && InFlight(rs, now) == InFlight(records, now)
      && Done(rs) == Done(records)
  {
    var b := Batch(start, docs, stamp);
    BatchShape(start, docs, stamp);
    forall id | id in b
      ensures (IsWaiting(b[id], now) <==> stamp.visible <= now) && !IsInFlight(b[id], now) && !IsDone(b[id])
    {
      BatchRecordState(start, docs, stamp, now, id);
    }
    AddStats(records, b, now, stamp.visible <= now);
  }
}
