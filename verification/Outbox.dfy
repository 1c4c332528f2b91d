/**
 * The durable store-and-forward outbox (fasp_harness/edge/outbox.py): a table of rows with
 * AUTOINCREMENT ids, each of whose SQL statements is one atomic step.
 */
module Outbox {
  import opened Common

  datatype Status = Pending | Inflight | Sent | Dead

  /** The signed deadline an envelope carries, in milliseconds. */
  datatype Deadline = NoDeadline | Malformed | At(ms: int)

  /** An empty `messageId` stands for a missing one, which the outbox refuses likewise. */
  datatype Envelope = Envelope(messageId: string, deadline: Deadline, body: string)

  datatype Row = Row(
    messageId: string, destination: string, envelope: Envelope, status: Status,
    attempts: nat, nextAttempt: int, expires: Option<int>, updated: int)

  type Rows = map<nat, Row>

  datatype Config = Config(maxAttempts: int, baseBackoff: real, maxBackoff: real, capacity: int)

  datatype Table = Table(rows: Rows, nextId: nat)

  datatype OutboxError = SchemaInvalid | Expired | Conflict | Exhausted

  predicate Live(r: Row) { r.status == Pending || r.status == Inflight }

  function LiveBelow(rows: Rows, n: nat): nat {
    if n == 0 then 0 else LiveBelow(rows, n - 1) + (if n - 1 in rows && Live(rows[n - 1]) then 1 else 0)
  }

  /** The number of undelivered messages. */
  function Depth(t: Table): nat { LiveBelow(t.rows, t.nextId) }

  /** The id holding a message id, if any below `n` does. */
  function Find(rows: Rows, messageId: string, n: nat): Option<nat> {
    if n == 0 then None
    else if n - 1 in rows && rows[n - 1].messageId == messageId then Some(n - 1)
    else Find(rows, messageId, n - 1)
  }

  function Earlier(a: Option<int>, b: Option<int>): Option<int> {
    if a.None? then b else if b.None? then a else if a.value <= b.value then a else b
  }

  /** The earlier of the signed deadline and the caller's time to live. */
  function Expiry(envelope: Envelope, ttl: Option<int>, now: int): Option<int> {
    Earlier(if envelope.deadline.At? then Some(envelope.deadline.ms) else None,
            if ttl.Some? then Some(now + ttl.value) else None)
  }

  function EnqueueStep(cfg: Config, t: Table, destination: string, envelope: Envelope,
                       ttl: Option<int>, delay: int, now: int, wall: int): (Table, Result<nat, OutboxError>)
  {
    var expiry := Expiry(envelope, ttl, now);
    var existing := Find(t.rows, envelope.messageId, t.nextId);
    if envelope.messageId == "" || envelope.deadline.Malformed? then (t, Err(SchemaInvalid))
    else if expiry.Some? && expiry.value <= now then (t, Err(Expired))
    else if existing.Some? then
      if existing.value in t.rows && t.rows[existing.value].destination == destination
         && t.rows[existing.value].envelope == envelope
      then (t, Ok(existing.value)) else (t, Err(Conflict))
    else if Depth(t) >= cfg.capacity then (t, Err(Exhausted))
    else
      (Table(t.rows[t.nextId := Row(envelope.messageId, destination, envelope, Pending, 0, now + delay, expiry, wall)],
             t.nextId + 1),
       Ok(t.nextId))
  }

  // ---------------------------------------------------------------------------------
  // Statements.

  predicate Overdue(r: Row, now: int) { r.status == Pending && r.expires.Some? && r.expires.value <= now }

  function ExpireRows(rows: Rows, now: int, wall: int): Rows {
    map id | id in rows :: if Overdue(rows[id], now) then rows[id].(status := Dead, updated := wall) else rows[id]
  }

  function PurgeRows(rows: Rows, cutoff: int): Rows {
    map id | id in rows && !(rows[id].status == Sent && rows[id].updated < cutoff) :: rows[id]
  }

  function RecoverRows(rows: Rows, now: int, wall: int): Rows {
    map id | id in rows ::
      if rows[id].status == Inflight then rows[id].(status := Pending, nextAttempt := now, updated := wall) else rows[id]
  }

  /** `requeue_dead` over a selection of message ids, or over all. */
  function RequeueRows(rows: Rows, only: Option<set<string>>, now: int, wall: int): Rows {
    map id | id in rows ::
      if rows[id].status == Dead && (only.None? || rows[id].messageId in only.value)
      then rows[id].(status := Pending, attempts := 0, nextAttempt := now, updated := wall) else rows[id]
  }

  /** A due pending row with no earlier live row for its destination. */
  predicate Ready(rows: Rows, id: nat, now: int) {
    && id in rows && rows[id].status == Pending && rows[id].nextAttempt <= now
    && forall j :: j in rows && Live(rows[j]) && rows[j].destination == rows[id].destination ==> id <= j
  }

  function ReadyBelow(rows: Rows, now: int, n: nat): (ids: seq<nat>)
    ensures forall k :: 0 <= k < |ids| ==> ids[k] < n && Ready(rows, ids[k], now)
    ensures forall id :: 0 <= id < n && Ready(rows, id, now) ==> id in ids
    ensures forall j, k :: 0 <= j < k < |ids| ==> ids[j] < ids[k]
  {
    if n == 0 then []
    else ReadyBelow(rows, now, n - 1) + (if Ready(rows, n - 1, now) then [n - 1] else [])
  }

  /** SQL's LIMIT: a negative limit is none. */
  function Limited(ids: seq<nat>, limit: int): seq<nat> {
    if limit < 0 || limit >= |ids| then ids else ids[..limit]
  }

  function SetInflight(rows: Rows, ids: seq<nat>, wall: int): Rows {
    map id | id in rows :: if id in ids then rows[id].(status := Inflight, updated := wall) else rows[id]
  }

  function Swept(t: Table, now: int, cutoff: int, wall: int): Table {
    t.(rows := PurgeRows(ExpireRows(t.rows, now, wall), cutoff))
  }

  function ClaimedIds(t: Table, limit: int, now: int, cutoff: int, wall: int): seq<nat> {
    Limited(ReadyBelow(Swept(t, now, cutoff, wall).rows, now, t.nextId), limit)
  }

  function ClaimStep(t: Table, limit: int, now: int, cutoff: int, wall: int): Table {
    var swept := Swept(t, now, cutoff, wall);
    swept.(rows := SetInflight(swept.rows, ClaimedIds(t, limit, now, cutoff, wall), wall))
  }

  function SetStatus(t: Table, id: nat, status: Status, wall: int): Table {
    if id !in t.rows then t else t.(rows := t.rows[id := t.rows[id].(status := status, updated := wall)])
  }

  function Pow2(n: nat): nat { if n == 0 then 1 else 2 * Pow2(n - 1) }

  /** Python's `int` of a float. */
  function Truncate(x: real): int { if x >= 0.0 then x.Floor else -(-x).Floor }

  /** The backoff ceiling before jitter, in seconds. */
  function Backoff(cfg: Config, attempts: nat): real
    requires attempts > 0
  {
    MinReal(cfg.baseBackoff * Pow2(attempts - 1) as real, cfg.maxBackoff)
  }

  function JitteredMs(seconds: real, jitter: real): int { Truncate(seconds * jitter * 1000.0) }

  /** The scheduled delay in milliseconds. */
  function RetryDelay(cfg: Config, attempts: nat, jitter: real): int
    requires attempts > 0
  {
    JitteredMs(Backoff(cfg, attempts), jitter)
  }

  function FailStep(cfg: Config, t: Table, id: nat, now: int, jitter: real, wall: int): Table {
    if id !in t.rows then t else
    var attempts := t.rows[id].attempts + 1;
    if attempts >= cfg.maxAttempts then
      t.(rows := t.rows[id := t.rows[id].(status := Dead, attempts := attempts, updated := wall)])
    else
      t.(rows := t.rows[id := t.rows[id].(status := Pending, attempts := attempts, updated := wall,
                                          nextAttempt := now + RetryDelay(cfg, attempts, jitter))])
  }

  /** One claimed message after its delivery attempt. */
  function SettleStep(cfg: Config, t: Table, id: nat, delivered: bool, now: int, jitter: real, wall: int): Table {
    if delivered then SetStatus(t, id, Sent, wall) else FailStep(cfg, t, id, now, jitter, wall)
  }

  /** What a round of deliveries meets, message by message: success, the clock at a failure, and the jitter. */
  datatype Attempt = Attempt(send: nat -> bool, clock: nat -> int, jitter: nat -> real)

  function SettleAll(cfg: Config, t: Table, ids: seq<nat>, a: Attempt, wall: int): Table
    decreases |ids|
  {
    if ids == [] then t
    else SettleAll(cfg, SettleStep(cfg, t, ids[0], a.send(ids[0]), a.clock(ids[0]), a.jitter(ids[0]), wall), ids[1..], a, wall)
  }

  function FlushStep(cfg: Config, t: Table, a: Attempt, limit: int, now: int, cutoff: int, wall: int): Table {
    SettleAll(cfg, ClaimStep(t, limit, now, cutoff, wall), ClaimedIds(t, limit, now, cutoff, wall), a, wall)
  }

  /** How many of these messages get through. */
  function Deliveries(ids: seq<nat>, send: nat -> bool): nat {
    if ids == [] then 0 else Deliveries(ids[..|ids| - 1], send) + (if send(ids[|ids| - 1]) then 1 else 0)
  }

  lemma {:induction false} SettleNext(cfg: Config, t: Table, ids: seq<nat>, k: nat, a: Attempt, wall: int)
    requires k < |ids|
    ensures SettleAll(cfg, t, ids[k..], a, wall) == SettleAll(
      cfg, SettleStep(cfg, t, ids[k], a.send(ids[k]), a.clock(ids[k]), a.jitter(ids[k]), wall), ids[k + 1..], a, wall)
    ensures Deliveries(ids[..k + 1], a.send) == Deliveries(ids[..k], a.send) + (if a.send(ids[k]) then 1 else 0)
  {
    assert ids[k..][0] == ids[k] && ids[k..][1..] == ids[k + 1..];
    assert ids[..k + 1][..k] == ids[..k];
  }

  lemma {:induction false} SetInflightOneMore(rows: Rows, ids: seq<nat>, id: nat, wall: int)
    requires id in rows
    ensures SetInflight(rows, ids + [id], wall)
            == SetInflight(rows, ids, wall)[id := SetInflight(rows, ids, wall)[id].(status := Inflight, updated := wall)]
  {
  }

  lemma {:induction false} LimitedKeeps(ids: seq<nat>, limit: int)
    ensures forall id :: id in Limited(ids, limit) ==> id in ids
  {
  }

  // ---------------------------------------------------------------------------------
  // The object.

  datatype Counts = Counts(attempted: nat, sent: nat, retry: nat, dead: nat)

  class DurableOutbox {
    const cfg: Config
    var rows: Rows
    var nextId: nat

    function View(): Table
      reads this
    {
      Table(rows, nextId)
    }

    constructor (cfg: Config)
      ensures this.cfg == cfg && View() == Table(map[], 0)
    {
      this.cfg, rows, nextId := cfg, map[], 0;
    }

    method Enqueue(destination: string, envelope: Envelope, ttl: Option<int>, delay: int, now: int, wall: int)
      returns (r: Result<nat, OutboxError>)
      modifies this
      ensures (View(), r) == EnqueueStep(cfg, old(View()), destination, envelope, ttl, delay, now, wall)
    {
      if envelope.messageId == "" { return Err(SchemaInvalid); }
      if envelope.deadline.Malformed? { return Err(SchemaInvalid); }
      var expiry := Expiry(envelope, ttl, now);
      if expiry.Some? && expiry.value <= now { return Err(Expired); }
      var existing := Find(rows, envelope.messageId, nextId);
      if existing.Some? {
        if existing.value !in rows || rows[existing.value].destination != destination
           || rows[existing.value].envelope != envelope {
          return Err(Conflict);
        }
        return Ok(existing.value);
      }
      if LiveBelow(rows, nextId) >= cfg.capacity { return Err(Exhausted); }
      rows := rows[nextId := Row(envelope.messageId, destination, envelope, Pending, 0, now + delay, expiry, wall)];
      nextId := nextId + 1;
      return Ok(nextId - 1);
    }

    method RecoverInflight(now: int, wall: int) returns (recovered: nat)
      modifies this
      ensures View() == old(View()).(rows := RecoverRows(old(rows), now, wall))
      ensures recovered == |set id | id in old(rows) && old(rows)[id].status == Inflight|
    {
      recovered := |set id | id in rows && rows[id].status == Inflight|;
      rows := RecoverRows(rows, now, wall);
    }

    method ClaimReady(limit: int, now: int, cutoff: int, wall: int) returns (claimed: seq<nat>)
      modifies this
      ensures claimed == ClaimedIds(old(View()), limit, now, cutoff, wall)
      ensures View() == ClaimStep(old(View()), limit, now, cutoff, wall)
    {
      rows := ExpireRows(rows, now, wall);
      rows := PurgeRows(rows, cutoff);
      var selected := Limited(ReadyBelow(rows, now, nextId), limit);
      ghost var swept := rows;
      LimitedKeeps(ReadyBelow(rows, now, nextId), limit);
      claimed := [];
      for k := 0 to |selected|
        invariant claimed == selected[..k] && nextId == old(nextId)
        invariant forall id :: id in selected ==> id in swept
        invariant rows == SetInflight(swept, selected[..k], wall)
      {
        var id := selected[k];
        assert id in selected;
        SetInflightOneMore(swept, selected[..k], id, wall);
        assert selected[..k + 1] == selected[..k] + [id];
        rows := rows[id := rows[id].(status := Inflight, updated := wall)];
        claimed := claimed + [id];
      }
      assert selected[..|selected|] == selected;
    }

    method MarkSent(id: nat, wall: int)
      modifies this
      ensures View() == SetStatus(old(View()), id, Sent, wall)
    {
      if id in rows { rows := rows[id := rows[id].(status := Sent, updated := wall)]; }
    }

    method MarkDead(id: nat, wall: int)
      modifies this
      ensures View() == SetStatus(old(View()), id, Dead, wall)
    {
      if id in rows { rows := rows[id := rows[id].(status := Dead, updated := wall)]; }
    }

    method MarkFailed(id: nat, now: int, jitter: real, wall: int) returns (outcome: Option<Status>)
      modifies this
      ensures View() == FailStep(cfg, old(View()), id, now, jitter, wall)
      ensures outcome == if id in rows then Some(rows[id].status) else None
    {
      if id !in rows { return None; }
      var attempts := rows[id].attempts + 1;
      if attempts >= cfg.maxAttempts {
        rows := rows[id := rows[id].(status := Dead, attempts := attempts, updated := wall)];
        return Some(Dead);
      }
      rows := rows[id := rows[id].(status := Pending, attempts := attempts, updated := wall,
                                   nextAttempt := now + RetryDelay(cfg, attempts, jitter))];
      return Some(Pending);
    }

    /** One claimed message; raising counts as not getting through. */
    method Settle(id: nat, a: Attempt, wall: int, counts: Counts) returns (r: Counts)
      modifies this
      ensures View() == SettleStep(cfg, old(View()), id, a.send(id), a.clock(id), a.jitter(id), wall)
      ensures r.attempted == counts.attempted + 1 && r.sent == counts.sent + (if a.send(id) then 1 else 0)
      ensures r.sent + r.retry + r.dead == counts.sent + counts.retry + counts.dead + 1
    {
      r := counts.(attempted := counts.attempted + 1);
      if a.send(id) {
        MarkSent(id, wall);
        r := r.(sent := r.sent + 1);
      } else {
        var outcome := MarkFailed(id, a.clock(id), a.jitter(id), wall);
        if outcome == Some(Dead) {
          r := r.(dead := r.dead + 1);
        } else {
          r := r.(retry := r.retry + 1);
        }
      }
    }

    method Flush(a: Attempt, limit: int, now: int, cutoff: int, wall: int) returns (counts: Counts)
      modifies this
      ensures View() == FlushStep(cfg, old(View()), a, limit, now, cutoff, wall)
      ensures counts.attempted == |ClaimedIds(old(View()), limit, now, cutoff, wall)|
      ensures counts.sent == Deliveries(ClaimedIds(old(View()), limit, now, cutoff, wall), a.send)
      ensures counts.attempted == counts.sent + counts.retry + counts.dead
    {
      counts := Counts(0, 0, 0, 0);
      var claimed := ClaimReady(limit, now, cutoff, wall);
      ghost var after := SettleAll(cfg, View(), claimed, a, wall);
      assert claimed[0..] == claimed;
      for k := 0 to |claimed|
        invariant counts.attempted == k == counts.sent + counts.retry + counts.dead
        invariant counts.sent == Deliveries(claimed[..k], a.send)
        invariant SettleAll(cfg, View(), claimed[k..], a, wall) == after
      {
        SettleNext(cfg, View(), claimed, k, a, wall);
        counts := Settle(claimed[k], a, wall, counts);
      }
      assert claimed[..|claimed|] == claimed;
    }

    method PurgeSent(cutoff: int)
      modifies this
      ensures View() == old(View()).(rows := PurgeRows(old(rows), cutoff))
    {
      rows := PurgeRows(rows, cutoff);
    }

    method RequeueDead(only: Option<set<string>>, now: int, wall: int)
      modifies this
      ensures View() == old(View()).(rows := RequeueRows(old(rows), only, now, wall))
    {
      rows := RequeueRows(rows, only, now, wall);
    }
  }
}
