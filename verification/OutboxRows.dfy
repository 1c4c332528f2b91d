/**
 * What the outbox does to its rows (fasp_harness/edge/outbox.py), stated on their fields:
 * which rows a claim hands out, when a failed row is due again, and what an enqueue stores.
 */
module OutboxRows {
  import opened Common
  import opened Outbox
  import opened OutboxTheory

  predicate PastExpiry(r: Row, now: int) { r.status == Pending && r.expires.Some? && r.expires.value <= now }

  /** Undelivered, and not about to be buried by a claim at `now`. */
  predicate Waiting(r: Row, now: int) { r.status == Inflight || (r.status == Pending && !PastExpiry(r, now)) }

  /** Pending, not expired, due, and the lowest waiting row of its destination. */
  ghost predicate Due(rows: Rows, id: nat, now: int) {
    && id in rows && rows[id].status == Pending && !PastExpiry(rows[id], now) && rows[id].nextAttempt <= now
    && forall j :: j in rows && rows[j].destination == rows[id].destination && Waiting(rows[j], now) ==> id <= j
  }

  lemma {:induction false} SweptLive(t: Table, now: int, cutoff: int, wall: int)
    ensures var rows := Swept(t, now, cutoff, wall).rows;
      && (forall j :: j in rows && Live(rows[j]) ==> j in t.rows && Waiting(t.rows[j], now) && rows[j] == t.rows[j])
      && (forall j :: j in t.rows && Waiting(t.rows[j], now) ==> j in rows && rows[j] == t.rows[j])
  {
  }

  lemma {:induction false} ReadyIsDue(t: Table, id: nat, now: int, cutoff: int, wall: int)
    ensures Ready(Swept(t, now, cutoff, wall).rows, id, now) <==> Due(t.rows, id, now)
  {
    var rows := Swept(t, now, cutoff, wall).rows;
    SweptLive(t, now, cutoff, wall);
    if Ready(rows, id, now) {
      forall j | j in t.rows && t.rows[j].destination == t.rows[id].destination && Waiting(t.rows[j], now) ensures id <= j {
        assert j in rows && Live(rows[j]);
      }
    }
  }

  /**
   * A claim hands out due rows only, lowest id first; it leaves a due row only when the limit
   * is reached, and then one above all that it takes.
   */
  lemma {:induction false} ClaimsExactlyDue(t: Table, limit: int, now: int, cutoff: int, wall: int)
    requires IdsBelow(t)
    ensures var ids := ClaimedIds(t, limit, now, cutoff, wall);
      && (forall id :: id in ids ==> Due(t.rows, id, now))
      && (forall j, k :: 0 <= j < k < |ids| ==> ids[j] < ids[k])
      && (limit >= 0 ==> |ids| <= limit)
      && (forall id :: Due(t.rows, id, now) && id !in ids ==> |ids| == limit && forall k :: 0 <= k < |ids| ==> ids[k] < id)
  {
    var ready := ReadyBelow(Swept(t, now, cutoff, wall).rows, now, t.nextId);
    var ids := ClaimedIds(t, limit, now, cutoff, wall);
    LimitedKeeps(ready, limit);
    forall id | id in ids ensures Due(t.rows, id, now) {
      ReadyIsDue(t, id, now, cutoff, wall);
    }
    forall id | Due(t.rows, id, now) && id !in ids ensures |ids| == limit && forall k :: 0 <= k < |ids| ==> ids[k] < id {
      ReadyIsDue(t, id, now, cutoff, wall);
      LeftOutIsHigher(ready, limit, id);
    }
  }

  lemma {:induction false} TakenUpToLimit(ready: seq<nat>, limit: int)
    ensures forall m :: 0 <= m < |ready| && (limit < 0 || m < limit) ==> ready[m] in Limited(ready, limit)
  {
    forall m | 0 <= m < |ready| && (limit < 0 || m < limit) ensures ready[m] in Limited(ready, limit) {
      assert Limited(ready, limit)[m] == ready[m];
    }
  }

  lemma {:induction false} LeftOutIsHigher(ready: seq<nat>, limit: int, id: nat)
    requires id in ready && id !in Limited(ready, limit)
    requires forall j, k :: 0 <= j < k < |ready| ==> ready[j] < ready[k]
    ensures var ids := Limited(ready, limit); |ids| == limit && forall k :: 0 <= k < |ids| ==> ids[k] < id
  {
    TakenUpToLimit(ready, limit);
    var m :| 0 <= m < |ready| && ready[m] == id;
  }

  /** The table after a claim, row by row: expired rows are buried, old sent rows go, claimed rows are inflight. */
  lemma {:induction false} ClaimChanges(t: Table, limit: int, now: int, cutoff: int, wall: int, id: nat)
    ensures var after := ClaimStep(t, limit, now, cutoff, wall);
      && after.nextId == t.nextId
      && (id in after.rows <==> id in t.rows && !(t.rows[id].status == Sent && t.rows[id].updated < cutoff))
      && (id in after.rows ==>
        after.rows[id] == (if PastExpiry(t.rows[id], now) then t.rows[id].(status := Dead, updated := wall)
                           else if id in ClaimedIds(t, limit, now, cutoff, wall)
                           then t.rows[id].(status := Inflight, updated := wall)
                           else t.rows[id]))
  {
    if id in ClaimedIds(t, limit, now, cutoff, wall) {
      LimitedKeeps(ReadyBelow(Swept(t, now, cutoff, wall).rows, now, t.nextId), limit);
      ReadyIsDue(t, id, now, cutoff, wall);
    }
  }

  // ---------------------------------------------------------------------------------
  // Backing off.

  ghost predicate OnlyBefore(es: seq<Event>, id: nat, due: int) {
    forall k :: 0 <= k < |es| ==> (es[k].Claim? ==> es[k].now < due) && (es[k].MarkFailed? ==> es[k].id != id)
  }

  /** The row waits for `due`, or is settled. */
  predicate Resting(t: Table, id: nat, due: int) {
    id < t.nextId && (id in t.rows ==>
      t.rows[id].status == Sent || t.rows[id].status == Dead || (t.rows[id].status == Pending && t.rows[id].nextAttempt == due))
  }

  lemma {:induction false} RestingIsNotClaimed(t: Table, id: nat, due: int, limit: int, now: int, cutoff: int, wall: int)
    requires IdsBelow(t) && Resting(t, id, due) && now < due
    ensures id !in ClaimedIds(t, limit, now, cutoff, wall)
    ensures Resting(ClaimStep(t, limit, now, cutoff, wall), id, due)
  {
    ClaimsExactlyDue(t, limit, now, cutoff, wall);
    ClaimChanges(t, limit, now, cutoff, wall, id);
  }

  lemma {:induction false} RestsOn(cfg: Config, h: History, e: Event, id: nat, due: int)
    requires IdsBelow(h.t) && Resting(h.t, id, due)
    requires (e.Claim? ==> e.now < due) && (e.MarkFailed? ==> e.id != id)
    ensures var h' := Step(cfg, h, e);
      && IdsBelow(h'.t) && Resting(h'.t, id, due)
      && h.handouts <= h'.handouts && forall k :: |h.handouts| <= k < |h'.handouts| ==> h'.handouts[k].id != id
  {
    if e.Claim? {
      RestingIsNotClaimed(h.t, id, due, e.limit, e.now, e.cutoff, e.wall);
    }
  }

  /**
   * Backoff is respected: as long as no claim reads the clock at or past a pending row's due
   * time, and nobody reports another failure of it, no claim of the run hands it out.
   */
  lemma {:induction false} BackoffIsRespected(cfg: Config, h: History, es: seq<Event>, id: nat, due: int)
    requires IdsBelow(h.t) && Resting(h.t, id, due) && OnlyBefore(es, id, due)
    ensures var h' := Run(cfg, h, es);
      h.handouts <= h'.handouts && forall k :: |h.handouts| <= k < |h'.handouts| ==> h'.handouts[k].id != id
    decreases |es|
  {
    if es != [] {
      RestsOn(cfg, h, es[0], id, due);
      BackoffIsRespected(cfg, Step(cfg, h, es[0]), es[1..], id, due);
    }
  }

  /** A row that failed and is to be retried is not handed out before its retry is due. */
  lemma {:induction false} FailedRowWaits(
    cfg: Config, h: History, id: nat, now: int, jitter: real, wall: int, es: seq<Event>)
    requires IdsBelow(h.t) && id in h.t.rows && h.t.rows[id].attempts + 1 < cfg.maxAttempts
    requires var t := StepTable(cfg, h.t, MarkFailed(id, now, jitter, wall)); OnlyBefore(es, id, t.rows[id].nextAttempt)
    ensures var h' := Run(cfg, h, [MarkFailed(id, now, jitter, wall)] + es);
      h.handouts <= h'.handouts && forall k :: |h.handouts| <= k < |h'.handouts| ==> h'.handouts[k].id != id
  {
    var e := MarkFailed(id, now, jitter, wall);
    var failed := Step(cfg, h, e);
    assert ([e] + es)[0] == e && ([e] + es)[1..] == es;
    BackoffIsRespected(cfg, failed, es, id, failed.t.rows[id].nextAttempt);
  }

  lemma {:induction false} FloorIs(x: real)
    requires x >= 0.0
    ensures Truncate(x) as real <= x < Truncate(x) as real + 1.0
  {
  }

  /** The ceiling starts at the base and doubles with every failure until it reaches the cap. */
  lemma {:induction false} BackoffDoubles(cfg: Config, n: nat)
    requires n > 0 && cfg.baseBackoff >= 0.0 && cfg.maxBackoff >= 0.0
    ensures Backoff(cfg, 1) == if cfg.baseBackoff <= cfg.maxBackoff then cfg.baseBackoff else cfg.maxBackoff
    ensures Backoff(cfg, n + 1) ==
      if 2.0 * Backoff(cfg, n) <= cfg.maxBackoff then 2.0 * Backoff(cfg, n) else cfg.maxBackoff
  {
    var p := Pow2(n - 1) as real;
    assert Pow2(n) as real == 2.0 * p;
    assert cfg.baseBackoff * (2.0 * p) == 2.0 * (cfg.baseBackoff * p);
  }

  /**
   * A failure report, field by field.  The retry comes after the jittered share of the
   * ceiling, in whole milliseconds; the last permitted failure buries the row.
   */
  lemma {:induction false} FailExactly(cfg: Config, t: Table, id: nat, now: int, jitter: real, wall: int)
    requires id in t.rows && jitter >= 0.0 && cfg.baseBackoff >= 0.0 && cfg.maxBackoff >= 0.0
    ensures var before, t' := t.rows[id], FailStep(cfg, t, id, now, jitter, wall);
      && t'.nextId == t.nextId && t'.rows.Keys == t.rows.Keys && (forall i :: i in t.rows && i != id ==> t'.rows[i] == t.rows[i])
      && var after := t'.rows[id];
         && after.attempts == before.attempts + 1 && after.updated == wall
         && after.messageId == before.messageId && after.destination == before.destination
         && after.envelope == before.envelope && after.expires == before.expires
         && (if before.attempts + 1 >= cfg.maxAttempts then after.status == Dead && after.nextAttempt == before.nextAttempt
             else
               && after.status == Pending
               && (after.nextAttempt - now) as real <= Backoff(cfg, before.attempts + 1) * jitter * 1000.0
                  < (after.nextAttempt - now) as real + 1.0)
  {
    var n := t.rows[id].attempts + 1;
    BackoffIsNotNegative(cfg, n);
    var b := Backoff(cfg, n);
    assert b * jitter >= 0.0;
    FloorIs(b * jitter * 1000.0);
    assert RetryDelay(cfg, n, jitter) == Truncate(b * jitter * 1000.0);
  }

  // ---------------------------------------------------------------------------------
  // A round of deliveries.

  /** The row of one message after its delivery attempt. */
  predicate SettledAs(cfg: Config, before: Row, after: Row, delivered: bool, now: int, jitter: real, wall: int) {
    if delivered then after == before.(status := Sent, updated := wall)
    else if before.attempts + 1 >= cfg.maxAttempts
    then after == before.(status := Dead, attempts := before.attempts + 1, updated := wall)
    else after == before.(status := Pending, attempts := before.attempts + 1, updated := wall,
                          nextAttempt := now + RetryDelay(cfg, before.attempts + 1, jitter))
  }

  predicate RowSettled(cfg: Config, before: Rows, after: Rows, id: nat, a: Attempt, wall: int)
    requires id in before
  {
    id in after && SettledAs(cfg, before[id], after[id], a.send(id), a.clock(id), a.jitter(id), wall)
  }

  lemma {:induction false} SettleOne(cfg: Config, t: Table, id: nat, a: Attempt, wall: int)
    requires id in t.rows
    ensures var t' := SettleStep(cfg, t, id, a.send(id), a.clock(id), a.jitter(id), wall);
      && RowSettled(cfg, t.rows, t'.rows, id, a, wall) && t'.rows.Keys == t.rows.Keys
      && forall i :: i in t.rows && i != id ==> t'.rows[i] == t.rows[i]
  {
  }

  /** Settling a batch settles each of its rows, by its own clock reading, and no other. */
  lemma {:induction false} SettlesEach(cfg: Config, t: Table, ids: seq<nat>, a: Attempt, wall: int, id: nat)
    requires (forall k :: 0 <= k < |ids| ==> ids[k] in t.rows) && (forall j, k :: 0 <= j < k < |ids| ==> ids[j] != ids[k])
    requires id in t.rows
    ensures var t' := SettleAll(cfg, t, ids, a, wall);
      id in t'.rows && if id in ids then RowSettled(cfg, t.rows, t'.rows, id, a, wall) else t'.rows[id] == t.rows[id]
    decreases |ids|
  {
    if ids != [] {
      var first, rest := ids[0], ids[1..];
      SettleOne(cfg, t, first, a, wall);
      SettlesEach(cfg, SettleStep(cfg, t, first, a.send(first), a.clock(first), a.jitter(first), wall), rest, a, wall, id);
      assert id in ids <==> id == first || id in rest;
    }
  }

  /**
   * A flush: every claimed message that got through is sent; every other claimed one has one
   * attempt more and is dead or due later; what was not claimed is as the claim left it.
   */
  lemma {:induction false} FlushSettles(
    cfg: Config, t: Table, a: Attempt, limit: int, now: int, cutoff: int, wall: int, id: nat)
    requires IdsBelow(t) && id in ClaimStep(t, limit, now, cutoff, wall).rows
    ensures var claimed, after := ClaimStep(t, limit, now, cutoff, wall), FlushStep(cfg, t, a, limit, now, cutoff, wall);
      && id in after.rows
      && if id in ClaimedIds(t, limit, now, cutoff, wall) then RowSettled(cfg, claimed.rows, after.rows, id, a, wall)
         else after.rows[id] == claimed.rows[id]
  {
    var ids := ClaimedIds(t, limit, now, cutoff, wall);
    ClaimsExactlyDue(t, limit, now, cutoff, wall);
    forall k | 0 <= k < |ids| ensures ids[k] in ClaimStep(t, limit, now, cutoff, wall).rows {
      ClaimChanges(t, limit, now, cutoff, wall, ids[k]);
    }
    SettlesEach(cfg, ClaimStep(t, limit, now, cutoff, wall), ids, a, wall, id);
  }

  // ---------------------------------------------------------------------------------
  // Enqueueing.

  function LiveIds(rows: Rows): set<nat> { set i | i in rows && (rows[i].status == Pending || rows[i].status == Inflight) }

  lemma {:induction false} LiveBelowCounts(rows: Rows, n: nat)
    ensures LiveBelow(rows, n) == |set i | i in LiveIds(rows) && i < n|
  {
    if n == 0 {
      assert (set i | i in LiveIds(rows) && i < 0) == {};
    } else {
      LiveBelowCounts(rows, n - 1);
      var before := set i | i in LiveIds(rows) && i < n - 1;
      assert (set i | i in LiveIds(rows) && i < n) == before + (if n - 1 in LiveIds(rows) then {n - 1} else {});
    }
  }

  lemma {:induction false} DepthCounts(t: Table)
    requires IdsBelow(t)
    ensures Depth(t) == |LiveIds(t.rows)|
  {
    LiveBelowCounts(t.rows, t.nextId);
    assert (set i | i in LiveIds(t.rows) && i < t.nextId) == LiveIds(t.rows);
  }

  predicate Unusable(e: Envelope) { e.messageId == "" || e.deadline.Malformed? }

  predicate Stale(e: Envelope, ttl: Option<int>, now: int) {
    (e.deadline.At? && e.deadline.ms <= now) || (ttl.Some? && ttl.value <= 0)
  }

  predicate Knows(rows: Rows, i: nat, e: Envelope) { i in rows && rows[i].messageId == e.messageId }

  /** What an enqueue refuses, in order, and that a refusal changes nothing. */
  lemma {:induction false} EnqueueRefuses(
    cfg: Config, t: Table, dest: string, e: Envelope, ttl: Option<int>, delay: int, now: int, wall: int)
    requires IdsBelow(t)
    ensures var (t', r) := EnqueueStep(cfg, t, dest, e, ttl, delay, now, wall);
      && (r == Err(SchemaInvalid) <==> Unusable(e))
      && (r == Err(Expired) <==> !Unusable(e) && Stale(e, ttl, now))
      && (r.Err? ==> t' == t)
  {
  }

  /** A message id that is known: the same message is acknowledged under its row, another one is a conflict. */
  lemma {:induction false} EnqueueRepeats(
    cfg: Config, t: Table, dest: string, e: Envelope, ttl: Option<int>, delay: int, now: int, wall: int, i: nat)
    requires IdsBelow(t) && !Unusable(e) && !Stale(e, ttl, now) && Knows(t.rows, i, e)
    requires forall j :: Knows(t.rows, j, e) ==> j == i
    ensures EnqueueStep(cfg, t, dest, e, ttl, delay, now, wall) ==
      (t, if t.rows[i].destination == dest && t.rows[i].envelope == e then Ok(i) else Err(Conflict))
  {
    FindIsComplete(t.rows, e.messageId, t.nextId);
    assert i < t.nextId;
    var found := Find(t.rows, e.messageId, t.nextId);
    assert Knows(t.rows, found.value, e);
  }

  /**
   * A new message: refused exactly when the undelivered messages fill the capacity, and
   * otherwise stored under the next id, pending and due after the delay, with the earlier of
   * the signed deadline and the time to live.
   */
  lemma {:induction false} EnqueueStores(
    cfg: Config, t: Table, dest: string, e: Envelope, ttl: Option<int>, delay: int, now: int, wall: int)
    requires IdsBelow(t) && !Unusable(e) && !Stale(e, ttl, now) && forall j :: !Knows(t.rows, j, e)
    ensures var (t', r) := EnqueueStep(cfg, t, dest, e, ttl, delay, now, wall);
      if |LiveIds(t.rows)| >= cfg.capacity then t' == t && r == Err(Exhausted)
      else
        && r == Ok(t.nextId) && t'.nextId == t.nextId + 1 && t'.rows.Keys == t.rows.Keys + {t.nextId}
        && (forall i :: i in t.rows ==> t'.rows[i] == t.rows[i])
        && var row := t'.rows[t.nextId];
           && row.messageId == e.messageId && row.destination == dest && row.envelope == e
           && row.status == Pending && row.attempts == 0 && row.nextAttempt == now + delay && row.updated == wall
           && EarliestOf(row.expires, e.deadline, ttl, now)
  {
    FindIsComplete(t.rows, e.messageId, t.nextId);
    var found := Find(t.rows, e.messageId, t.nextId);
    assert found.Some? ==> Knows(t.rows, found.value, e);
    DepthCounts(t);
  }

  /** The earlier of the two deadlines there are, if any. */
  predicate EarliestOf(expires: Option<int>, deadline: Deadline, ttl: Option<int>, now: int) {
    && (expires.None? <==> !deadline.At? && ttl.None?)
    && (expires.Some? ==>
      && (deadline.At? ==> expires.value <= deadline.ms) && (ttl.Some? ==> expires.value <= now + ttl.value)
      && ((deadline.At? && expires.value == deadline.ms) || (ttl.Some? && expires.value == now + ttl.value)))
  }

  // ---------------------------------------------------------------------------------
  // The other statements, row by row.

  /** Recovery returns exactly the inflight rows, due at once; a purge removes exactly the old sent ones. */
  lemma {:induction false} RecoverAndPurge(rows: Rows, now: int, wall: int, cutoff: int, id: nat)
    requires id in rows
    ensures id in RecoverRows(rows, now, wall) && RecoverRows(rows, now, wall)[id] ==
      if rows[id].status == Inflight then rows[id].(status := Pending, nextAttempt := now, updated := wall) else rows[id]
    ensures id in PurgeRows(rows, cutoff) <==> rows[id].status != Sent || rows[id].updated >= cutoff
    ensures id in PurgeRows(rows, cutoff) ==> PurgeRows(rows, cutoff)[id] == rows[id]
  {
  }

  /** A step of a run records exactly the claimed rows, as they were, at the end of the handouts. */
  lemma {:induction false} StepRecords(cfg: Config, h: History, e: Event)
    requires IdsBelow(h.t)
    ensures !e.Claim? ==> Step(cfg, h, e).handouts == h.handouts
    ensures e.Claim? ==>
      var ids, hs, n := ClaimedIds(h.t, e.limit, e.now, e.cutoff, e.wall), Step(cfg, h, e).handouts, |h.handouts|;
      && |hs| == n + |ids| && hs[..n] == h.handouts
      && forall k :: 0 <= k < |ids| ==>
        && ids[k] in h.t.rows
        && hs[n + k] == Handout(h.t.rows[ids[k]].destination, ids[k], e.now, h.t.rows[ids[k]].expires)
  {
    if e.Claim? {
      ClaimedAreReady(h.t, e.limit, e.now, e.cutoff, e.wall);
    }
  }

  /** In a run a recovery and a purge change the rows as their calls do, and nothing else. */
  lemma {:induction false} StepRecoversAndPurges(cfg: Config, t: Table, now: int, wall: int, cutoff: int, id: nat)
    requires id in t.rows
    ensures var after := StepTable(cfg, t, Recover(now, wall));
      && after.nextId == t.nextId && after.rows.Keys == t.rows.Keys
      && after.rows[id] == if t.rows[id].status == Inflight
           then t.rows[id].(status := Pending, nextAttempt := now, updated := wall) else t.rows[id]
    ensures var after := StepTable(cfg, t, PurgeSent(cutoff));
      && after.nextId == t.nextId && after.rows.Keys <= t.rows.Keys
      && (id in after.rows <==> t.rows[id].status != Sent || t.rows[id].updated >= cutoff)
      && (id in after.rows ==> after.rows[id] == t.rows[id])
  {
    RecoverAndPurge(t.rows, now, wall, cutoff, id);
  }

  /** The attempts of a drain are the claims of its rounds, each on what the rounds before left. */
  lemma {:induction false} AttemptsAreClaims(cfg: Config, t: Table, rounds: seq<Round>, r: Round)
    ensures Flushes(cfg, t, rounds + [r]) == Flushed(cfg, Flushes(cfg, t, rounds), r)
    ensures Attempts(cfg, t, rounds + [r])
      == Attempts(cfg, t, rounds) + |ClaimedIds(Flushes(cfg, t, rounds), r.limit, r.now, r.cutoff, r.wall)|
    decreases |rounds|
  {
    if rounds == [] {
      assert ([] + [r])[1..] == [];
    } else {
      assert (rounds + [r])[1..] == rounds[1..] + [r];
      AttemptsAreClaims(cfg, Flushed(cfg, t, rounds[0]), rounds[1..], r);
    }
  }

  /** The operator revives exactly the selected dead rows, with all their attempts and due at once. */
  lemma {:induction false} RequeueRevives(rows: Rows, only: Option<set<string>>, now: int, wall: int, id: nat)
    requires id in rows
    ensures var after := RequeueRows(rows, only, now, wall);
      && after.Keys == rows.Keys
      && after[id] == if rows[id].status == Dead && (only.Some? ==> rows[id].messageId in only.value)
           then rows[id].(status := Pending, attempts := 0, nextAttempt := now, updated := wall) else rows[id]
  {
  }
}
