/** The lease a `get` hands out and the three operations that present its token:
    `ping` extends it, `ack` ends it by marking the record done, `nack` ends it
    by putting the record back (src/lib/Queue.ts:273-354). Each is one
    find-one-and-update on the filter `{ack: token, visible: {$gt: now},
    deletedAt: null}`, and each fails with "Unidentified ack" when nothing
    matches. */
module Lease {
  import opened Store

  /** `r` matches the lease filter for `token` at `now`. */
  predicate HoldsLease(r: Record, token: Token, now: int) {
    r.ack == Some(token) && r.visible > now && r.deletedAt.None?
  }

  /** The records the lease filter for `token` matches at `now`. */
  function Holders(records: map<Id, Record>, token: Token, now: int): set<Id> {
    set id | id in records && HoldsLease(records[id], token, now)
  }

  /** The `$set`/`$unset` each lease operation applies to the record it finds. */
  datatype LeaseUpdate =
    | PingUpdate(visible: int)                    // `visible: now + visibility`
    | AckUpdate(at: int, result: Option<Doc>)     // `deletedAt: now, result`
    | NackUpdate(visible: int)                    // `visible: now + delay`, `ack` removed

  function OpOf(u: LeaseUpdate): LeaseOp {
    match u
    case PingUpdate(_) => PingOp
    case AckUpdate(_, _) => AckOp
    case NackUpdate(_) => NackOp
  }

  function Apply(r: Record, u: LeaseUpdate): Record {
    match u
    case PingUpdate(v) => r.(visible := v)
    case AckUpdate(at, res) => r.(deletedAt := Some(at), result := res)
    case NackUpdate(v) => r.(visible := v, ack := None)
  }

  /** The update a `nack` with per-call `delay` applies at `now`. */
  function NackAt(now: int, delay: Option<int>, queueDelay: Option<int>): LeaseUpdate {
    NackUpdate(now + Span(Or(delay, queueDelay)))
  }

  /** The whole lease operation on the store: the token's holder, updated, or
      the "Unidentified ack" error when no record holds the token. */
  ghost function LeaseEffect(records: map<Id, Record>, token: Token, now: int, u: LeaseUpdate): (res: Result<map<Id, Record>>)
    ensures res.Err? <==> Holders(records, token, now) == {}
    ensures res.Err? ==> res.error == UnidentifiedAck(OpOf(u), token)
    ensures res.Ok? ==> res.value.Keys == records.Keys
  {
    var hs := Holders(records, token, now);
    if hs == {} then Err(UnidentifiedAck(OpOf(u), token))
    else
      var id :| id in hs;
      Ok(records[id := Apply(records[id], u)])
  }

  // ---------------------------------------------------------------------
  // Properties

  /** Under the unique index on `ack`, at most one record holds a token. */
  lemma HolderUnique(records: map<Id, Record>, token: Token, now: int)
    requires TokensUnique(records)
    ensures forall a, b :: a in Holders(records, token, now) && b in Holders(records, token, now) ==> a == b
  {
  }

  /** A successful lease operation changes exactly the token's holder, by the
      operation's update, and no other record. */
  lemma LeaseEffectChanges(records: map<Id, Record>, token: Token, now: int, u: LeaseUpdate)
    requires LeaseEffect(records, token, now, u).Ok?
    ensures var rs := LeaseEffect(records, token, now, u).value;
      exists id :: id in records && HoldsLease(records[id], token, now)
        && rs == records[id := Apply(records[id], u)]
  {
  }

  /** Under the unique index, a successful operation with the token a record
      carries changes that record. */
  lemma LeaseEffectOn(records: map<Id, Record>, token: Token, now: int, u: LeaseUpdate, id: Id)
    requires TokensUnique(records)
    requires id in records && records[id].ack == Some(token)
    requires LeaseEffect(records, token, now, u).Ok?
    ensures LeaseEffect(records, token, now, u).value == records[id := Apply(records[id], u)]
  {
    LeaseEffectChanges(records, token, now, u);
    var j :| j in records && HoldsLease(records[j], token, now)
      && LeaseEffect(records, token, now, u).value == records[j := Apply(records[j], u)];
    assert j == id;
  }

  /** A lease whose `visible` has passed is gone: every operation presenting
      its token fails, even though the record still carries the token. */
  lemma ExpiredLeaseRejected(records: map<Id, Record>, token: Token, now: int, u: LeaseUpdate, id: Id)
    requires TokensUnique(records)
    requires id in records && records[id].ack == Some(token) && records[id].visible <= now
    ensures LeaseEffect(records, token, now, u) == Err(UnidentifiedAck(OpOf(u), token))
  {
    forall j | j in records
      ensures !HoldsLease(records[j], token, now)
    {
      if j != id {
        assert records[id].ack.Some?;
      }
    }
  }

  /** After an `ack`, no later operation with the same token succeeds, and the
      record counts as done. */
  lemma AckEndsLease(records: map<Id, Record>, token: Token, now: int, at: int, result: Option<Doc>, later: int)
    requires TokensUnique(records)
    requires LeaseEffect(records, token, now, AckUpdate(at, result)).Ok?
    ensures var rs := LeaseEffect(records, token, now, AckUpdate(at, result)).value;
      && Holders(rs, token, later) == {}
      && (forall id :: id in Holders(records, token, now) ==> IsDone(rs[id]) && rs[id].result == result)
  {
    var rs := LeaseEffect(records, token, now, AckUpdate(at, result)).value;
    LeaseEffectChanges(records, token, now, AckUpdate(at, result));
    var id :| id in records && HoldsLease(records[id], token, now)
      && rs == records[id := Apply(records[id], AckUpdate(at, result))];
    forall j | j in rs
      ensures !HoldsLease(rs[j], token, later)
    {
      if j != id {
        assert rs[j] == records[j];
      }
    }
  }

  /** After a `nack`, no later operation with the same token succeeds, and the
      record carries no token at all. */
  lemma NackEndsLease(records: map<Id, Record>, token: Token, now: int, visible: int, later: int)
    requires TokensUnique(records)
    requires LeaseEffect(records, token, now, NackUpdate(visible)).Ok?
    ensures var rs := LeaseEffect(records, token, now, NackUpdate(visible)).value;
      && Holders(rs, token, later) == {}
      && (forall id :: id in Holders(records, token, now) ==> rs[id].ack.None?)
  {
    var rs := LeaseEffect(records, token, now, NackUpdate(visible)).value;
    LeaseEffectChanges(records, token, now, NackUpdate(visible));
    var id :| id in records && HoldsLease(records[id], token, now)
      && rs == records[id := Apply(records[id], NackUpdate(visible))];
    forall j | j in rs
      ensures !HoldsLease(rs[j], token, later)
    {
      if j != id {
        assert rs[j] == records[j];
      }
    }
  }

  /** A nacked record is back in the waiting set once its new `visible` is
      reached, so a later `get` can claim it again. */
  lemma NackReleases(records: map<Id, Record>, token: Token, now: int, visible: int, later: int)
    requires TokensUnique(records)
    requires LeaseEffect(records, token, now, NackUpdate(visible)).Ok?
    requires visible <= later
    ensures var rs := LeaseEffect(records, token, now, NackUpdate(visible)).value;
      forall id :: id in Holders(records, token, now) ==> IsWaiting(rs[id], later)
  {
    LeaseEffectChanges(records, token, now, NackUpdate(visible));
  }

  /** A `ping` keeps the lease with the same holder until its new `visible`. */
  lemma PingExtendsLease(records: map<Id, Record>, token: Token, now: int, visible: int, later: int)
    requires TokensUnique(records)
    requires LeaseEffect(records, token, now, PingUpdate(visible)).Ok?
    requires later < visible
    ensures var rs := LeaseEffect(records, token, now, PingUpdate(visible)).value;
      Holders(rs, token, later) == Holders(records, token, now)
  {
    var rs := LeaseEffect(records, token, now, PingUpdate(visible)).value;
    LeaseEffectChanges(records, token, now, PingUpdate(visible));
    var id :| id in records && HoldsLease(records[id], token, now)
      && rs == records[id := Apply(records[id], PingUpdate(visible))];
    HolderUnique(records, token, now);
    forall j | j in rs && j != id
      ensures !HoldsLease(rs[j], token, later)
    {
      assert rs[j] == records[j];
    }
    assert Holders(records, token, now) == {id};
  }

  /** What each update leaves of a record: never the payload, the sort
      fields, the try count or the error list; ack and ping keep the token;
      only ack writes `deletedAt` and `result`; ack keeps `visible`. */
  predicate KeepsFields(u: LeaseUpdate, before: Record, after: Record) {
    && after.payload == before.payload && after.tries == before.tries
    && after.priority == before.priority && after.createdAt == before.createdAt
    && after.errors == before.errors
    && (u.NackUpdate? || after.ack == before.ack)
    && (u.AckUpdate? || (after.deletedAt == before.deletedAt && after.result == before.result))
    && (u.AckUpdate? ==> after.visible == before.visible)
  }

  /** No lease operation breaks the unique index on `ack`. */
  lemma LeaseEffectKeepsIndex(records: map<Id, Record>, token: Token, now: int, u: LeaseUpdate)
    requires TokensUnique(records)
    requires LeaseEffect(records, token, now, u).Ok?
    ensures TokensUnique(LeaseEffect(records, token, now, u).value)
  {
    var rs := LeaseEffect(records, token, now, u).value;
    LeaseEffectChanges(records, token, now, u);
    var id :| id in records && HoldsLease(records[id], token, now)
      && rs == records[id := Apply(records[id], u)];
    forall i, j | i in rs && j in rs && i != j && rs[i].ack.Some?
      ensures rs[i].ack != rs[j].ack
    {
      assert rs[i].ack.Some? ==> rs[i].ack == records[i].ack;
      assert rs[j].ack.Some? ==> rs[j].ack == records[j].ack;
    }
  }

  /** No lease operation touches a field its update does not name. */
  lemma LeaseEffectKeeps(records: map<Id, Record>, token: Token, now: int, u: LeaseUpdate)
    requires LeaseEffect(records, token, now, u).Ok?
    ensures var rs := LeaseEffect(records, token, now, u).value;
      forall id :: id in rs ==> KeepsFields(u, records[id], rs[id])
  {
    var rs := LeaseEffect(records, token, now, u).value;
    LeaseEffectChanges(records, token, now, u);
    var id :| id in records && HoldsLease(records[id], token, now)
      && rs == records[id := Apply(records[id], u)];
    assert KeepsFields(u, records[id], rs[id]);
  }
}
