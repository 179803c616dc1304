/** What one call of `Queue.get` does to the store: a run of claims, one per
    requested message, each the atomic find-one-and-update of the best-ranked
    waiting record (src/lib/Queue.ts:212-254). */
module Claim {
  import opened Store

  /** The fields the claim sorts on: `{priority: -1, createdAt: 1}`, then the id. */
  datatype SortKey = SortKey(priority: Option<int>, createdAt: Option<int>, id: Id)

  function Key(id: Id, r: Record): SortKey {
    SortKey(r.priority, r.createdAt, id)
  }

  /** The store's order on an optional number: a missing field sorts as null,
      below every number. */
  predicate Below(a: Option<int>, b: Option<int>) {
    match a
    case None => b.Some?
    case Some(x) => b.Some? && x < b.value
  }

  /** `a` is claimed before `b`: higher priority first, then earlier
      `createdAt`, then (where the store leaves the order open) lower id. */
  predicate Precedes(a: SortKey, b: SortKey) {
    || Below(b.priority, a.priority)
    || (a.priority == b.priority && Below(a.createdAt, b.createdAt))
    || (a.priority == b.priority && a.createdAt == b.createdAt && a.id < b.id)
  }

  /** Precedes is a strict total order on keys with distinct ids. */
  lemma PrecedesOrder(a: SortKey, b: SortKey, c: SortKey)
    ensures !Precedes(a, a)
    ensures Precedes(a, b) ==> !Precedes(b, a)
    ensures Precedes(a, b) && Precedes(b, c) ==> Precedes(a, c)
    ensures a.id != b.id ==> Precedes(a, b) || Precedes(b, a)
  {
  }

  /** The ids the claim's filter `{deletedAt: null, visible: {$lte: now}}` matches. */
  function EligibleIds(records: map<Id, Record>, now: int): set<Id> {
    set id | id in records && IsWaiting(records[id], now)
  }

  /** `id` is the record the claim's sorted find returns. */
  predicate IsFirst(records: map<Id, Record>, now: int, id: Id) {
    && id in records && IsWaiting(records[id], now)
    && forall j :: j in records && IsWaiting(records[j], now) && j != id ==>
         Precedes(Key(id, records[id]), Key(j, records[j]))
  }

  /** Every non-empty set of records has a best-ranked one. */
  lemma {:induction false} Least(records: map<Id, Record>, s: set<Id>) returns (m: Id)
    requires s != {} && s <= records.Keys
    ensures m in s && forall j :: j in s && j != m ==> Precedes(Key(m, records[m]), Key(j, records[j]))
    decreases s
  {
    var x :| x in s;
    if s == {x} {
      m := x;
    } else {
      var rest := s - {x};
      var r := Least(records, rest);
      var kx, kr := Key(x, records[x]), Key(r, records[r]);
      PrecedesOrder(kx, kr, kx);
      if Precedes(kx, kr) {
        m := x;
        forall j | j in s && j != x
          ensures Precedes(kx, Key(j, records[j]))
        {
          if j != r {
            PrecedesOrder(kx, kr, Key(j, records[j]));
          }
        }
      } else {
        m := r;
      }
    }
  }

  /** When anything is waiting, the sorted find has a record to return. */
  lemma FirstExists(records: map<Id, Record>, now: int)
    requires EligibleIds(records, now) != {}
    ensures exists id :: id in records && IsFirst(records, now, id)
  {
    var m := Least(records, EligibleIds(records, now));
    assert IsFirst(records, now, m);
  }

  /** The sorted find is deterministic: at most one record is first. */
  lemma FirstUnique(records: map<Id, Record>, now: int, a: Id, b: Id)
    requires IsFirst(records, now, a) && IsFirst(records, now, b)
    ensures a == b
  {
    if a != b {
      PrecedesOrder(Key(a, records[a]), Key(b, records[b]), Key(a, records[a]));
    }
  }

  /** The record the sorted find returns, if any. */
  ghost function First(records: map<Id, Record>, now: int): (r: Option<Id>)
    ensures r.Some? ==> IsFirst(records, now, r.value)
    ensures r.None? <==> EligibleIds(records, now) == {}
  {
    if EligibleIds(records, now) == {} then None
    else
      FirstExists(records, now);
      var id :| id in records && IsFirst(records, now, id);
      Some(id)
  }

  /** The claim's update: `$inc: {tries: 1}`, `$set: {ack, visible}`. */
  function Leased(r: Record, token: Token, visible: int): Record {
    r.(tries := r.tries + 1, ack := Some(token), visible := visible)
  }

  /** The store after some claims, and the post-update records they returned. */
  datatype Claim = Claim(records: map<Id, Record>, claimed: seq<Message>)

  /** One claim with a fresh token: lease the first waiting record, or return nothing. */
  ghost function ClaimOne(records: map<Id, Record>, now: int, visible: int, token: Token): Claim {
    match First(records, now)
    case None => Claim(records, [])
    case Some(id) =>
      var rec := Leased(records[id], token, visible);
      Claim(records[id := rec], [Message(id, rec)])
  }

  /** `get`: one claim per token, in order, each seeing the effect of the previous
      ones (`{concurrency: 1}`), the misses filtered out of the result. */
  ghost function ClaimAll(records: map<Id, Record>, now: int, visible: int, tokens: seq<Token>): Claim
    decreases |tokens|
  {
    if tokens == [] then Claim(records, [])
    else
      var prev := ClaimAll(records, now, visible, tokens[..|tokens| - 1]);
      var step := ClaimOne(prev.records, now, visible, tokens[|tokens| - 1]);
      Claim(step.records, prev.claimed + step.claimed)
  }

  /** The `i`-th claim of a `get` leases the first record waiting after the
      earlier claims, and appends it to the result. */
  lemma ClaimAllTaken(records: map<Id, Record>, now: int, visible: int, tokens: seq<Token>, i: nat, id: Id)
    requires i < |tokens|
    requires IsFirst(ClaimAll(records, now, visible, tokens[..i]).records, now, id)
    ensures var prev := ClaimAll(records, now, visible, tokens[..i]);
      var rec := Leased(prev.records[id], tokens[i], visible);
      && ClaimAll(records, now, visible, tokens[..i + 1]).records == prev.records[id := rec]
      && ClaimAll(records, now, visible, tokens[..i + 1]).claimed == prev.claimed + [Message(id, rec)]
  {
    assert tokens[..i + 1][..i] == tokens[..i];
    var prev := ClaimAll(records, now, visible, tokens[..i]);
    assert id in EligibleIds(prev.records, now);
    FirstUnique(prev.records, now, id, First(prev.records, now).value);
  }

  /** When nothing is left waiting, the `i`-th claim of a `get` changes nothing. */
  lemma ClaimAllMissed(records: map<Id, Record>, now: int, visible: int, tokens: seq<Token>, i: nat)
    requires i < |tokens|
    requires EligibleIds(ClaimAll(records, now, visible, tokens[..i]).records, now) == {}
    ensures ClaimAll(records, now, visible, tokens[..i + 1]).records == ClaimAll(records, now, visible, tokens[..i]).records
    ensures ClaimAll(records, now, visible, tokens[..i + 1]).claimed == ClaimAll(records, now, visible, tokens[..i]).claimed
  {
    assert tokens[..i + 1][..i] == tokens[..i];
  }

  function ClaimedIds(ms: seq<Message>): set<Id> {
    set m | m in ms :: m.id
  }

  function Min(a: int, b: int): int {
    if a <= b then a else b
  }

  /** One claim changes at most the record it returns, and only in the fields
      the claim sets. */
  lemma ClaimOneKeeps(records: map<Id, Record>, now: int, visible: int, token: Token)
    ensures var s := ClaimOne(records, now, visible, token);
      && s.records.Keys == records.Keys
      && |s.claimed| <= 1
      && (forall id :: id in records ==> Key(id, s.records[id]) == Key(id, records[id]))
      && (forall id :: id in records && id !in ClaimedIds(s.claimed) ==> s.records[id] == records[id])
      && (forall id :: id in records && s.records[id].ack != records[id].ack ==> s.records[id].ack == Some(token))
      && (forall m :: m in s.claimed ==>
            && m.id in records && IsWaiting(records[m.id], now)
            && m.rec == Leased(records[m.id], token, visible) && s.records[m.id] == m.rec)
  {
    var s := ClaimOne(records, now, visible, token);
    match First(records, now)
    case None =>
    case Some(id) =>
      assert s.claimed == [Message(id, Leased(records[id], token, visible))];
      assert ClaimedIds(s.claimed) == {id};
  }

  /** A run of claims keeps the set of ids and every record's sort key, and
      returns at most one record per token. */
  lemma {:induction false} ClaimAllFrame(records: map<Id, Record>, now: int, visible: int, tokens: seq<Token>)
    ensures var c := ClaimAll(records, now, visible, tokens);
      && c.records.Keys == records.Keys
      && |c.claimed| <= |tokens|
      && (forall id :: id in records ==> Key(id, c.records[id]) == Key(id, records[id]))
    decreases |tokens|
  {
    if tokens != [] {
      var ts, t := tokens[..|tokens| - 1], tokens[|tokens| - 1];
      ClaimAllFrame(records, now, visible, ts);
      ClaimOneKeeps(ClaimAll(records, now, visible, ts).records, now, visible, t);
    }
  }

  /** A run of claims leaves every record it did not return as it was. */
  lemma {:induction false} ClaimAllUntouched(records: map<Id, Record>, now: int, visible: int, tokens: seq<Token>)
    ensures var c := ClaimAll(records, now, visible, tokens);
      && c.records.Keys == records.Keys
      && (forall id :: id in records && id !in ClaimedIds(c.claimed) ==> c.records[id] == records[id])
    decreases |tokens|
  {
    if tokens != [] {
      var ts, t := tokens[..|tokens| - 1], tokens[|tokens| - 1];
      ClaimAllUntouched(records, now, visible, ts);
      var prev := ClaimAll(records, now, visible, ts);
      ClaimOneKeeps(prev.records, now, visible, t);
      var step := ClaimOne(prev.records, now, visible, t);
      assert ClaimedIds(prev.claimed + step.claimed) == ClaimedIds(prev.claimed) + ClaimedIds(step.claimed);
    }
  }

  /** The only tokens a run of claims writes are the new ones. */
  lemma {:induction false} ClaimAllNewTokens(records: map<Id, Record>, now: int, visible: int, tokens: seq<Token>)
    ensures var c := ClaimAll(records, now, visible, tokens);
      && c.records.Keys == records.Keys
      && (forall id :: id in records && c.records[id].ack != records[id].ack ==>
            c.records[id].ack.Some? && c.records[id].ack.value in tokens)
    decreases |tokens|
  {
    if tokens != [] {
      var ts, t := tokens[..|tokens| - 1], tokens[|tokens| - 1];
      ClaimAllNewTokens(records, now, visible, ts);
      ClaimOneKeeps(ClaimAll(records, now, visible, ts).records, now, visible, t);
      assert forall x :: x in ts ==> x in tokens;
    }
  }

  /** Every record a run of claims returns was waiting before the call, and
      comes back leased: with one of the new tokens, the new `visible`, not done. */
  lemma {:induction false} ClaimAllReturnsWaiting(records: map<Id, Record>, now: int, visible: int, tokens: seq<Token>)
    ensures forall m :: m in ClaimAll(records, now, visible, tokens).claimed ==>
      && m.id in records && IsWaiting(records[m.id], now)
      && m.rec.ack.Some? && m.rec.ack.value in tokens
      && m.rec.visible == visible && m.rec.deletedAt.None?
    decreases |tokens|
  {
    if tokens != [] {
      var ts, t := tokens[..|tokens| - 1], tokens[|tokens| - 1];
      ClaimAllReturnsWaiting(records, now, visible, ts);
      ClaimAllUntouched(records, now, visible, ts);
      var prev := ClaimAll(records, now, visible, ts);
      ClaimOneKeeps(prev.records, now, visible, t);
      var step := ClaimOne(prev.records, now, visible, t);
      assert ClaimAll(records, now, visible, tokens).claimed == prev.claimed + step.claimed;
      assert tokens == ts + [t];
      forall m | m in step.claimed
        ensures IsWaiting(records[m.id], now)
      {
        if m.id in ClaimedIds(prev.claimed) {
          var m' :| m' in prev.claimed && m'.id == m.id;
        }
      }
    }
  }

  /** Claiming with fresh tokens keeps the unique index on `ack` satisfied. */
  lemma {:induction false} ClaimAllTokensUnique(records: map<Id, Record>, now: int, visible: int, tokens: seq<Token>)
    requires TokensUnique(records) && FreshTokens(records, tokens)
    ensures TokensUnique(ClaimAll(records, now, visible, tokens).records)
    decreases |tokens|
  {
    if tokens != [] {
      var ts, t := tokens[..|tokens| - 1], tokens[|tokens| - 1];
      assert FreshTokens(records, ts);
      ClaimAllTokensUnique(records, now, visible, ts);
      ClaimAllNewTokens(records, now, visible, ts);
      var prev := ClaimAll(records, now, visible, ts);
      forall j | j in prev.records
        ensures prev.records[j].ack != Some(t)
      {
        if prev.records[j].ack != records[j].ack {
          var k :| 0 <= k < |ts| && prev.records[j].ack.value == ts[k];
          assert tokens[k] == ts[k];
        }
      }
      ClaimOneTokensUnique(prev.records, now, visible, t);
    }
  }

  /** With fresh tokens, the token of every record a `get` returns is held
      afterwards by no other record. */
  lemma {:induction false} ClaimAllHolders(records: map<Id, Record>, now: int, visible: int, tokens: seq<Token>)
    requires FreshTokens(records, tokens)
    ensures var c := ClaimAll(records, now, visible, tokens);
      forall m, id :: m in c.claimed && id in c.records && c.records[id].ack == m.rec.ack ==> id == m.id
    decreases |tokens|
  {
    if tokens != [] {
      var ts, t := tokens[..|tokens| - 1], tokens[|tokens| - 1];
      assert FreshTokens(records, ts);
      ClaimAllHolders(records, now, visible, ts);
      ClaimAllNewTokens(records, now, visible, ts);
      ClaimAllReturnsWaiting(records, now, visible, ts);
      var prev := ClaimAll(records, now, visible, ts);
      ClaimOneKeeps(prev.records, now, visible, t);
      var step := ClaimOne(prev.records, now, visible, t);
      var c := ClaimAll(records, now, visible, tokens);
      assert c.claimed == prev.claimed + step.claimed;
      assert forall k :: 0 <= k < |ts| ==> ts[k] == tokens[k] && ts[k] != t;
      forall m, id | m in c.claimed && id in c.records && c.records[id].ack == m.rec.ack
        ensures id == m.id
      {
        if m in prev.claimed {
          assert c.records[id].ack != Some(t);
          assert c.records[id] == prev.records[id];
        } else {
          assert m in step.claimed && m.rec.ack == Some(t);
          assert prev.records[id].ack != Some(t);
          assert ClaimedIds(step.claimed) == {m.id};
        }
      }
    }
  }

  /** A claim with a token no record holds keeps the unique index on `ack`. */
  lemma ClaimOneTokensUnique(records: map<Id, Record>, now: int, visible: int, token: Token)
    requires TokensUnique(records)
    requires forall j :: j in records ==> records[j].ack != Some(token)
    ensures TokensUnique(ClaimOne(records, now, visible, token).records)
  {
    ClaimOneKeeps(records, now, visible, token);
  }

  /** With the new `visible` in the future, one claim takes the first waiting
      record out of the waiting set, and returns nothing only when that set is
      empty. */
  lemma ClaimOneLeased(records: map<Id, Record>, now: int, visible: int, token: Token)
    requires visible > now
    ensures var s := ClaimOne(records, now, visible, token);
      && (s.claimed == [] <==> EligibleIds(records, now) == {})
      && |s.claimed| <= 1
      && (forall m :: m in s.claimed ==> IsFirst(records, now, m.id))
      && EligibleIds(s.records, now) == EligibleIds(records, now) - ClaimedIds(s.claimed)
  {
    var s := ClaimOne(records, now, visible, token);
    match First(records, now)
    case None =>
    case Some(id) =>
      assert s.claimed == [Message(id, Leased(records[id], token, visible))];
      assert ClaimedIds(s.claimed) == {id};
  }

  /** With the new `visible` in the future, the records a `get` returns leave
      the waiting set, and nothing else does. */
  lemma {:induction false} ClaimAllDrains(records: map<Id, Record>, now: int, visible: int, tokens: seq<Token>)
    requires visible > now
    ensures var c := ClaimAll(records, now, visible, tokens);
      EligibleIds(c.records, now) == EligibleIds(records, now) - ClaimedIds(c.claimed)
    decreases |tokens|
  {
    if tokens != [] {
      var ts, t := tokens[..|tokens| - 1], tokens[|tokens| - 1];
      ClaimAllDrains(records, now, visible, ts);
      var prev := ClaimAll(records, now, visible, ts);
      ClaimOneLeased(prev.records, now, visible, t);
      var step := ClaimOne(prev.records, now, visible, t);
      assert ClaimedIds(prev.claimed + step.claimed) == ClaimedIds(prev.claimed) + ClaimedIds(step.claimed);
    }
  }

  /** With the new `visible` in the future, one `get` never returns the same
      record twice. */
  lemma {:induction false} ClaimAllDistinct(records: map<Id, Record>, now: int, visible: int, tokens: seq<Token>)
    requires visible > now
    ensures var c := ClaimAll(records, now, visible, tokens);
      forall k, l :: 0 <= k < l < |c.claimed| ==> c.claimed[k].id != c.claimed[l].id
    decreases |tokens|
  {
    if tokens != [] {
      var ts, t := tokens[..|tokens| - 1], tokens[|tokens| - 1];
      ClaimAllDistinct(records, now, visible, ts);
      ClaimAllDrains(records, now, visible, ts);
      var prev := ClaimAll(records, now, visible, ts);
      ClaimOneLeased(prev.records, now, visible, t);
      var step := ClaimOne(prev.records, now, visible, t);
      var c := prev.claimed + step.claimed;
      if step.claimed != [] {
        var m := step.claimed[0];
        assert step.claimed == [m];
        assert m.id in EligibleIds(prev.records, now);
        forall k | 0 <= k < |prev.claimed|
          ensures prev.claimed[k].id != m.id
        {
          assert prev.claimed[k].id in ClaimedIds(prev.claimed);
        }
        forall k, l | 0 <= k < l < |c|
          ensures c[k].id != c[l].id
        {
          if l == |prev.claimed| {
            assert c[l] == m && c[k] == prev.claimed[k];
          } else {
            assert c[l] == prev.claimed[l] && c[k] == prev.claimed[k];
          }
        }
      }
    }
  }

  /** With the new `visible` in the future, a `get` returns min(count, number
      waiting) records, each taken out of the waiting set, and returns fewer
      than requested only when nothing is left waiting. */
  lemma {:induction false} ClaimAllCount(records: map<Id, Record>, now: int, visible: int, tokens: seq<Token>)
    requires visible > now
    ensures var c := ClaimAll(records, now, visible, tokens);
      && |EligibleIds(c.records, now)| == |EligibleIds(records, now)| - |c.claimed|
      && (|c.claimed| < |tokens| ==> EligibleIds(c.records, now) == {})
      && |c.claimed| == Min(|tokens|, |EligibleIds(records, now)|)
    decreases |tokens|
  {
    if tokens != [] {
      var ts, t := tokens[..|tokens| - 1], tokens[|tokens| - 1];
      ClaimAllCount(records, now, visible, ts);
      ClaimAllFrame(records, now, visible, ts);
      var prev := ClaimAll(records, now, visible, ts);
      ClaimOneLeased(prev.records, now, visible, t);
      var step := ClaimOne(prev.records, now, visible, t);
      assert |prev.claimed + step.claimed| == |prev.claimed| + |step.claimed|;
      if step.claimed != [] {
        var id := step.claimed[0].id;
        assert step.claimed == [step.claimed[0]];
        assert ClaimedIds(step.claimed) == {id};
        assert id in EligibleIds(prev.records, now);
        assert EligibleIds(step.records, now) == EligibleIds(prev.records, now) - {id};
      }
    }
  }

  /** With the new `visible` in the future, the k-th record a `get` returns was
      waiting before the call and is that record leased with the k-th token:
      `tries` raised by one, the new token, the new `visible`, every other field
      as it was; the store keeps it so. */
  lemma {:induction false} ClaimAllLeases(records: map<Id, Record>, now: int, visible: int, tokens: seq<Token>)
    requires visible > now
    ensures var c := ClaimAll(records, now, visible, tokens);
      forall k :: 0 <= k < |c.claimed| ==>
        && k < |tokens|
        && c.claimed[k].id in EligibleIds(records, now)
        && c.claimed[k].rec == Leased(records[c.claimed[k].id], tokens[k], visible)
        && c.claimed[k].id in c.records && c.records[c.claimed[k].id] == c.claimed[k].rec
    decreases |tokens|
  {
    if tokens != [] {
      var ts, t := tokens[..|tokens| - 1], tokens[|tokens| - 1];
      ClaimAllLeases(records, now, visible, ts);
      var prev := ClaimAll(records, now, visible, ts);
      var step := ClaimOne(prev.records, now, visible, t);
      ClaimOneKeeps(prev.records, now, visible, t);
      ClaimAllLast(records, now, visible, tokens);
      var c := ClaimAll(records, now, visible, tokens);
      assert c.claimed == prev.claimed + step.claimed && c.records == step.records;
      forall k | 0 <= k < |c.claimed|
        ensures && k < |tokens|
          && c.claimed[k].id in EligibleIds(records, now)
          && c.claimed[k].rec == Leased(records[c.claimed[k].id], tokens[k], visible)
          && c.claimed[k].id in c.records && c.records[c.claimed[k].id] == c.claimed[k].rec
      {
        if k < |prev.claimed| {
          assert c.claimed[k] == prev.claimed[k] && tokens[k] == ts[k];
          assert prev.claimed[k].id in ClaimedIds(prev.claimed);
        } else {
          assert c.claimed[k] == step.claimed[0] && step.claimed[0] in step.claimed;
        }
      }
    }
  }

  /** The last claim of a run returns, if anything, a record that was waiting
      before the run and that no earlier claim returned, leased with the last
      token; it comes only after a claim for every earlier token. */
  lemma ClaimAllLast(records: map<Id, Record>, now: int, visible: int, tokens: seq<Token>)
    requires visible > now && tokens != []
    ensures var ts := tokens[..|tokens| - 1];
      var prev := ClaimAll(records, now, visible, ts);
      var step := ClaimOne(prev.records, now, visible, tokens[|tokens| - 1]);
      forall m :: m in step.claimed ==>
        && |prev.claimed| == |ts|
        && m.id in EligibleIds(records, now) && m.id !in ClaimedIds(prev.claimed)
        && m.rec == Leased(records[m.id], tokens[|tokens| - 1], visible)
  {
    var ts, t := tokens[..|tokens| - 1], tokens[|tokens| - 1];
    var prev := ClaimAll(records, now, visible, ts);
    ClaimOneKeeps(prev.records, now, visible, t);
    ClaimOneLeased(prev.records, now, visible, t);
    ClaimAllCount(records, now, visible, ts);
    ClaimAllDrains(records, now, visible, ts);
    ClaimAllUntouched(records, now, visible, ts);
  }

  /** The messages are listed in claim order. */
  predicate InClaimOrder(ms: seq<Message>) {
    forall k, l :: 0 <= k < l < |ms| ==> Precedes(Key(ms[k].id, ms[k].rec), Key(ms[l].id, ms[l].rec))
  }

  /** Every message ranks above every record still waiting at `now`. */
  predicate RanksAbove(ms: seq<Message>, records: map<Id, Record>, now: int) {
    forall k, e :: 0 <= k < |ms| && e in EligibleIds(records, now) ==>
      Precedes(Key(ms[k].id, ms[k].rec), Key(e, records[e]))
  }

  /** With the new `visible` in the future, a `get` returns records in claim
      order (priority descending, then `createdAt` ascending, then id), and
      every record it leaves waiting ranks below every record it returned. */
  lemma {:induction false} ClaimAllOrder(records: map<Id, Record>, now: int, visible: int, tokens: seq<Token>)
    requires visible > now
    ensures InClaimOrder(ClaimAll(records, now, visible, tokens).claimed)
    ensures RanksAbove(ClaimAll(records, now, visible, tokens).claimed, ClaimAll(records, now, visible, tokens).records, now)
    decreases |tokens|
  {
    if tokens != [] {
      var ts, t := tokens[..|tokens| - 1], tokens[|tokens| - 1];
      ClaimAllOrder(records, now, visible, ts);
      var prev := ClaimAll(records, now, visible, ts);
      assert InClaimOrder(prev.claimed) && RanksAbove(prev.claimed, prev.records, now);
      ClaimOneLeased(prev.records, now, visible, t);
      ClaimOneKeeps(prev.records, now, visible, t);
      var step := ClaimOne(prev.records, now, visible, t);
      var c := ClaimAll(records, now, visible, tokens);
      assert c.records == step.records;
      assert c.claimed == prev.claimed + step.claimed;
      if step.claimed == [] {
        assert c.records == prev.records;
      } else {
        var m := step.claimed[0];
        assert step.claimed == [m];
        assert ClaimedIds(step.claimed) == {m.id};
        var km := Key(m.id, m.rec);
        assert km == Key(m.id, prev.records[m.id]);
        assert m.id in EligibleIds(prev.records, now);
        forall k | 0 <= k < |prev.claimed|
          ensures Precedes(Key(prev.claimed[k].id, prev.claimed[k].rec), km)
        {
          assert Precedes(Key(prev.claimed[k].id, prev.claimed[k].rec), Key(m.id, prev.records[m.id]));
        }
        forall k, l | 0 <= k < l < |c.claimed|
          ensures Precedes(Key(c.claimed[k].id, c.claimed[k].rec), Key(c.claimed[l].id, c.claimed[l].rec))
        {
          if l == |prev.claimed| {
            assert c.claimed[l] == m && c.claimed[k] == prev.claimed[k];
          } else {
            assert c.claimed[l] == prev.claimed[l] && c.claimed[k] == prev.claimed[k];
          }
        }
        forall e | e in EligibleIds(c.records, now)
          ensures e in EligibleIds(prev.records, now) && e != m.id
          ensures Key(e, c.records[e]) == Key(e, prev.records[e])
          ensures Precedes(km, Key(e, c.records[e]))
        {
        }
      }
    }
  }
}
