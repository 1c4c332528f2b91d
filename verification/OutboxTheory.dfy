/**
 * What the outbox promises over whole runs: per-destination order, capacity, bounded
 * retries, no loss, and drains that end.
 */
module OutboxTheory {
  import opened Common
  import opened Outbox

  datatype Event =
    | Enqueue(destination: string, envelope: Envelope, ttl: Option<int>, delay: int, now: int, wall: int)
    | Claim(limit: int, now: int, cutoff: int, wall: int)
    | MarkSent(id: nat, wall: int)
    | MarkFailed(id: nat, now: int, jitter: real, wall: int)
    | MarkDead(id: nat, wall: int)
    | Recover(now: int, wall: int)  // after a crash, by the restarted process
    | PurgeSent(cutoff: int)

  /** One message handed to a sender. */
  datatype Handout = Handout(destination: string, id: nat, now: int, expires: Option<int>)

  datatype History = History(t: Table, handouts: seq<Handout>)

  function HandoutsOf(t: Table, ids: seq<nat>, now: int): (hs: seq<Handout>)
    requires forall k :: 0 <= k < |ids| ==> ids[k] in t.rows
    ensures |hs| == |ids|
    ensures forall k :: 0 <= k < |ids| ==> hs[k] == Handout(t.rows[ids[k]].destination, ids[k], now, t.rows[ids[k]].expires)
  {
    seq(|ids|, k requires 0 <= k < |ids| => Handout(t.rows[ids[k]].destination, ids[k], now, t.rows[ids[k]].expires))
  }

  lemma {:induction false} ClaimedAreReady(t: Table, limit: int, now: int, cutoff: int, wall: int)
    ensures forall k :: 0 <= k < |ClaimedIds(t, limit, now, cutoff, wall)| ==>
      var id := ClaimedIds(t, limit, now, cutoff, wall)[k];
      id < t.nextId && Ready(Swept(t, now, cutoff, wall).rows, id, now)
    ensures forall j, k :: 0 <= j < k < |ClaimedIds(t, limit, now, cutoff, wall)| ==>
      ClaimedIds(t, limit, now, cutoff, wall)[j] < ClaimedIds(t, limit, now, cutoff, wall)[k]
  {
  }

  function StepTable(cfg: Config, t: Table, e: Event): Table {
    match e
    case Enqueue(destination, envelope, ttl, delay, now, wall) =>
      EnqueueStep(cfg, t, destination, envelope, ttl, delay, now, wall).0
    case Claim(limit, now, cutoff, wall) => ClaimStep(t, limit, now, cutoff, wall)
    case MarkSent(id, wall) => SetStatus(t, id, Sent, wall)
    case MarkFailed(id, now, jitter, wall) => FailStep(cfg, t, id, now, jitter, wall)
    case MarkDead(id, wall) => SetStatus(t, id, Dead, wall)
    case Recover(now, wall) => t.(rows := RecoverRows(t.rows, now, wall))
    case PurgeSent(cutoff) => t.(rows := PurgeRows(t.rows, cutoff))
  }

  function Step(cfg: Config, h: History, e: Event): History {
    var t := StepTable(cfg, h.t, e);
    if e.Claim? then
      ClaimedAreReady(h.t, e.limit, e.now, e.cutoff, e.wall);
      History(t, h.handouts + HandoutsOf(Swept(h.t, e.now, e.cutoff, e.wall),
                                         ClaimedIds(h.t, e.limit, e.now, e.cutoff, e.wall), e.now))
    else h.(t := t)
  }

  /** Callers only report failures of rows that are still live (claimed and not yet settled). */
  predicate Permitted(t: Table, e: Event) {
    e.MarkFailed? ==> e.id !in t.rows || Live(t.rows[e.id])
  }

  predicate PermittedRun(cfg: Config, t: Table, es: seq<Event>)
    decreases |es|
  {
    es == [] || (Permitted(t, es[0]) && PermittedRun(cfg, StepTable(cfg, t, es[0]), es[1..]))
  }

  function Run(cfg: Config, h: History, es: seq<Event>): History
    decreases |es|
  {
    if es == [] then h else Run(cfg, Step(cfg, h, es[0]), es[1..])
  }

  const EMPTY := History(Table(map[], 0), [])

  // ---------------------------------------------------------------------------------
  // Order.

  /** An inflight row is the lowest live row of its destination. */
  ghost predicate InOrder(rows: Rows) {
    forall i, j :: i in rows && j in rows && rows[j].destination == rows[i].destination ==>
      rows[i].status == Inflight && Live(rows[j]) ==> i <= j
  }

  ghost predicate IdsBelow(t: Table) {
    forall i :: i in t.rows ==> i < t.nextId
  }

  /** No live row precedes a row already handed out for its destination. */
  ghost predicate HandedOut(h: History) {
    && (forall k :: 0 <= k < |h.handouts| ==> h.handouts[k].id < h.t.nextId)
    && (forall k, j :: 0 <= k < |h.handouts| && j in h.t.rows && Live(h.t.rows[j]) ==>
          h.t.rows[j].destination == h.handouts[k].destination ==> h.handouts[k].id <= j)
  }

  /** Per destination, handed-out ids never decrease; nothing is handed out expired. */
  ghost predicate HandoutsOrdered(hs: seq<Handout>) {
    && (forall j, k :: 0 <= j <= k < |hs| && hs[j].destination == hs[k].destination ==> hs[j].id <= hs[k].id)
    && (forall k :: 0 <= k < |hs| ==> hs[k].expires.None? || hs[k].expires.value > hs[k].now)
  }

  ghost predicate OrderInv(h: History) {
    IdsBelow(h.t) && InOrder(h.t.rows) && HandedOut(h) && HandoutsOrdered(h.handouts)
  }

  /** Nothing became live and nothing became inflight. */
  ghost predicate NoNewLive(a: Rows, b: Rows) {
    forall i :: i in b ==>
      && i in a && b[i].destination == a[i].destination && b[i].messageId == a[i].messageId
      && (Live(b[i]) ==> Live(a[i])) && (b[i].status == Inflight ==> a[i].status == Inflight)
  }

  lemma {:induction false} NoNewLiveKeepsOrder(h: History, rows: Rows)
    requires OrderInv(h) && NoNewLive(h.t.rows, rows)
    ensures OrderInv(h.(t := h.t.(rows := rows)))
  {
  }

  lemma {:induction false} StepHasNoNewLive(cfg: Config, t: Table, e: Event)
    requires Permitted(t, e) && !e.Enqueue? && !e.Claim?
    ensures NoNewLive(t.rows, StepTable(cfg, t, e).rows) && StepTable(cfg, t, e).nextId == t.nextId
  {
  }

  lemma {:induction false} SweepHasNoNewLive(t: Table, now: int, cutoff: int, wall: int)
    ensures NoNewLive(t.rows, Swept(t, now, cutoff, wall).rows)
  {
  }

  lemma {:induction false} EnqueueKeepsOrder(cfg: Config, h: History, e: Event)
    requires OrderInv(h) && e.Enqueue?
    ensures OrderInv(Step(cfg, h, e))
  {
  }

  /** Marking ready rows inflight keeps every destination in order. */
  lemma {:induction false} ClaimKeepsInOrder(rows: Rows, ids: seq<nat>, now: int, wall: int)
    requires InOrder(rows) && forall k :: 0 <= k < |ids| ==> Ready(rows, ids[k], now)
    ensures InOrder(SetInflight(rows, ids, wall))
  {
  }

  lemma {:induction false} NewHandoutsOrdered(hs: seq<Handout>, t: Table, ids: seq<nat>, now: int)
    requires HandoutsOrdered(hs) && HandedOut(History(t, hs))
    requires forall k :: 0 <= k < |ids| ==> ids[k] in t.rows && Ready(t.rows, ids[k], now) && !Overdue(t.rows[ids[k]], now)
    requires forall j, k :: 0 <= j < k < |ids| ==> ids[j] < ids[k]
    ensures HandoutsOrdered(hs + HandoutsOf(t, ids, now))
  {
  }

  lemma {:induction false} SweepLeavesNoneOverdue(t: Table, now: int, cutoff: int, wall: int, id: nat)
    requires id in Swept(t, now, cutoff, wall).rows
    ensures !Overdue(Swept(t, now, cutoff, wall).rows[id], now)
  {
  }

  lemma {:induction false} NewHandoutsLead(hs: seq<Handout>, t: Table, ids: seq<nat>, now: int, wall: int)
    requires HandedOut(History(t, hs)) && IdsBelow(t)
    requires forall k :: 0 <= k < |ids| ==> ids[k] in t.rows && Ready(t.rows, ids[k], now)
    ensures HandedOut(History(t.(rows := SetInflight(t.rows, ids, wall)), hs + HandoutsOf(t, ids, now)))
  {
  }

  lemma {:induction false} ClaimKeepsOrder(cfg: Config, h: History, e: Event)
    requires OrderInv(h) && e.Claim?
    ensures OrderInv(Step(cfg, h, e))
  {
    var swept := Swept(h.t, e.now, e.cutoff, e.wall);
    var ids := ClaimedIds(h.t, e.limit, e.now, e.cutoff, e.wall);
    SweepHasNoNewLive(h.t, e.now, e.cutoff, e.wall);
    NoNewLiveKeepsOrder(h, swept.rows);
    ClaimedAreReady(h.t, e.limit, e.now, e.cutoff, e.wall);
    forall k | 0 <= k < |ids| ensures !Overdue(swept.rows[ids[k]], e.now) {
      SweepLeavesNoneOverdue(h.t, e.now, e.cutoff, e.wall, ids[k]);
    }
    ClaimKeepsInOrder(swept.rows, ids, e.now, e.wall);
    NewHandoutsOrdered(h.handouts, swept, ids, e.now);
    NewHandoutsLead(h.handouts, swept, ids, e.now, e.wall);
  }

  lemma {:induction false} StepKeepsOrder(cfg: Config, h: History, e: Event)
    requires OrderInv(h) && Permitted(h.t, e)
    ensures OrderInv(Step(cfg, h, e))
  {
    if e.Enqueue? {
      EnqueueKeepsOrder(cfg, h, e);
    } else if e.Claim? {
      ClaimKeepsOrder(cfg, h, e);
    } else {
      StepHasNoNewLive(cfg, h.t, e);
      NoNewLiveKeepsOrder(h, StepTable(cfg, h.t, e).rows);
    }
  }

  lemma {:induction false} OrderFrom(cfg: Config, h: History, es: seq<Event>)
    requires OrderInv(h) && PermittedRun(cfg, h.t, es)
    ensures OrderInv(Run(cfg, h, es))
    decreases |es|
  {
    if es != [] {
      StepKeepsOrder(cfg, h, es[0]);
      OrderFrom(cfg, Step(cfg, h, es[0]), es[1..]);
    }
  }

  /**
   * Ordering theorem: over any permitted run, crashes and recoveries included, each
   * destination has at most one inflight row and it is the lowest live one, ids handed out
   * for a destination never decrease, and nothing is handed out past its expiry.
   */
  lemma {:induction false} OrderingTheorem(cfg: Config, es: seq<Event>)
    requires PermittedRun(cfg, EMPTY.t, es)
    ensures var h := Run(cfg, EMPTY, es);
      && InOrder(h.t.rows) && HandoutsOrdered(h.handouts)
      && forall i, j :: i in h.t.rows && j in h.t.rows && h.t.rows[i].destination == h.t.rows[j].destination ==>
           h.t.rows[i].status == Inflight && h.t.rows[j].status == Inflight ==> i == j
  {
    OrderFrom(cfg, EMPTY, es);
  }

  /** A claim hands out no message before it is due, or while an earlier one for its destination is pending or inflight. */
  lemma {:induction false} ClaimNeverOvertakes(cfg: Config, es: seq<Event>, limit: int, now: int, cutoff: int, wall: int, id: nat)
    requires PermittedRun(cfg, EMPTY.t, es)
    requires id in ClaimedIds(Run(cfg, EMPTY, es).t, limit, now, cutoff, wall)
    ensures var t := Run(cfg, EMPTY, es).t;
      && id in t.rows && t.rows[id].status == Pending && !Overdue(t.rows[id], now) && t.rows[id].nextAttempt <= now
      && forall j :: j in t.rows && j < id && t.rows[j].destination == t.rows[id].destination && Live(t.rows[j]) ==>
           Overdue(t.rows[j], now)
  {
    var t := Run(cfg, EMPTY, es).t;
    ClaimedAreReady(t, limit, now, cutoff, wall);
    var swept := Swept(t, now, cutoff, wall);
    assert Ready(swept.rows, id, now);
    SweepLeavesNoneOverdue(t, now, cutoff, wall, id);
    assert forall j :: j in t.rows && Live(t.rows[j]) && !Overdue(t.rows[j], now) ==> j in swept.rows && swept.rows[j] == t.rows[j];
  }

  // ---------------------------------------------------------------------------------
  // What the operator's requeue and stray failure reports can break, exactly.

  /** No row in `revived` precedes an inflight row of its destination. */
  ghost predicate OvertakesNothing(rows: Rows, revived: set<nat>) {
    forall i, j :: i in revived && i in rows && j in rows && rows[j].destination == rows[i].destination ==>
      rows[j].status == Inflight ==> j <= i
  }

  /** Requeueing dead rows keeps the order exactly when it revives none ahead of an inflight row. */
  lemma {:induction false} RequeueKeepsOrderExactly(rows: Rows, only: Option<set<string>>, now: int, wall: int)
    requires InOrder(rows)
    ensures InOrder(RequeueRows(rows, only, now, wall)) <==>
      OvertakesNothing(rows, set i | i in rows && rows[i].status == Dead && (only.None? || rows[i].messageId in only.value))
  {
    var revived := set i | i in rows && rows[i].status == Dead && (only.None? || rows[i].messageId in only.value);
    var rows' := RequeueRows(rows, only, now, wall);
    assert forall i :: i in rows ==> (rows'[i].status == Inflight <==> rows[i].status == Inflight);
    assert forall i :: i in rows ==> (Live(rows'[i]) <==> Live(rows[i]) || i in revived);
  }

  function RevivedBelow(rows: Rows, only: Option<set<string>>, n: nat): nat {
    if n == 0 then 0
    else RevivedBelow(rows, only, n - 1)
         + (if n - 1 in rows && rows[n - 1].status == Dead && (only.None? || rows[n - 1].messageId in only.value) then 1 else 0)
  }

  /** Requeueing checks no capacity: the depth grows by every dead row it selects. */
  lemma {:induction false} RequeueAddsToDepth(rows: Rows, only: Option<set<string>>, now: int, wall: int, n: nat)
    ensures LiveBelow(RequeueRows(rows, only, now, wall), n) == LiveBelow(rows, n) + RevivedBelow(rows, only, n)
  {
    if n > 0 {
      RequeueAddsToDepth(rows, only, now, wall, n - 1);
    }
  }

  function Plain(messageId: string): Envelope { Envelope(messageId, NoDeadline, "") }

  function PlainRow(messageId: string, dest: string, status: Status, sent: int, updated: int): Row {
    Row(messageId, dest, Plain(messageId), status, 0, sent, None, updated)
  }

  /** Claiming when the newest row is the only live one and due. */
  lemma {:induction false} ClaimsNewest(t: Table, id: nat, now: int)
    requires t.nextId == id + 1 && id in t.rows && t.rows[id].status == Pending && t.rows[id].nextAttempt <= now
    requires t.rows[id].expires.None? && forall i :: i in t.rows && i != id ==> t.rows[i].status == Dead
    ensures ClaimStep(t, 1, now, 0, now).rows == t.rows[id := t.rows[id].(status := Inflight, updated := now)]
  {
    assert Swept(t, now, 0, now).rows == t.rows;
    assert Ready(t.rows, id, now);
    var ids := ReadyBelow(t.rows, now, t.nextId);
    assert forall k :: 0 <= k < |ids| ==> ids[k] == id;
    assert id in ids && ids[0] == id;
    assert ClaimedIds(t, 1, now, 0, now) == ids[..1];
  }

  /** Message `m0` is sent, claimed and rejected; then `m1` for the same destination is sent and claimed. */
  function Overtaken(dest: string): seq<Event> {
    [Enqueue(dest, Plain("m0"), None, 0, 0, 0), Claim(1, 1, 0, 1), MarkDead(0, 2),
     Enqueue(dest, Plain("m1"), None, 0, 3, 3), Claim(1, 4, 0, 4)]
  }

  function Rejected(dest: string): Rows { map[0 := PlainRow("m0", dest, Dead, 0, 2)] }

  /** The run from its event `k` on ends with `m0` dead and `m1` inflight. */
  ghost predicate EndsOvertaken(cfg: Config, dest: string, h: History, k: nat)
    requires k <= 5
  {
    && PermittedRun(cfg, h.t, Overtaken(dest)[k..])
    && Run(cfg, h, Overtaken(dest)[k..]).t.rows == Rejected(dest)[1 := PlainRow("m1", dest, Inflight, 3, 4)]
  }

  lemma {:induction false} NextEvent(cfg: Config, dest: string, h: History, k: nat)
    requires k < 5 && EndsOvertaken(cfg, dest, Step(cfg, h, Overtaken(dest)[k]), k + 1)
    ensures EndsOvertaken(cfg, dest, h, k)
  {
    var es := Overtaken(dest);
    assert es[k..][0] == es[k] && es[k..][1..] == es[k + 1..];
  }

  lemma {:induction false} ClaimsSecond(dest: string, t: Table)
    requires t == Table(Rejected(dest)[1 := PlainRow("m1", dest, Pending, 3, 3)], 2)
    ensures ClaimStep(t, 1, 4, 0, 4).rows == Rejected(dest)[1 := PlainRow("m1", dest, Inflight, 3, 4)]
  {
    ClaimsNewest(t, 1, 4);
  }

  lemma {:induction false} SecondIsClaimed(cfg: Config, dest: string, h: History)
    requires h.t == Table(Rejected(dest)[1 := PlainRow("m1", dest, Pending, 3, 3)], 2)
    ensures EndsOvertaken(cfg, dest, h, 4)
  {
    ClaimsSecond(dest, h.t);
    NextEvent(cfg, dest, h, 4);
  }

  lemma {:induction false} SecondIsSent(cfg: Config, dest: string, h: History)
    requires cfg.capacity > 0 && h.t == Table(Rejected(dest), 1)
    ensures EndsOvertaken(cfg, dest, h, 3)
  {
    assert Find(h.t.rows, "m1", 0) == None && LiveBelow(h.t.rows, 0) == 0;
    SecondIsClaimed(cfg, dest, Step(cfg, h, Overtaken(dest)[3]));
    NextEvent(cfg, dest, h, 3);
  }

  lemma {:induction false} FirstIsRejected(cfg: Config, dest: string, h: History)
    requires cfg.capacity > 0 && h.t == Table(map[0 := PlainRow("m0", dest, Inflight, 0, 1)], 1)
    ensures EndsOvertaken(cfg, dest, h, 2)
  {
    SecondIsSent(cfg, dest, Step(cfg, h, Overtaken(dest)[2]));
    NextEvent(cfg, dest, h, 2);
  }

  lemma {:induction false} FirstIsClaimed(cfg: Config, dest: string, h: History)
    requires cfg.capacity > 0 && h.t == Table(map[0 := PlainRow("m0", dest, Pending, 0, 0)], 1)
    ensures EndsOvertaken(cfg, dest, h, 1)
  {
    ClaimsNewest(h.t, 0, 1);
    FirstIsRejected(cfg, dest, Step(cfg, h, Overtaken(dest)[1]));
    NextEvent(cfg, dest, h, 1);
  }

  lemma {:induction false} FirstIsSent(cfg: Config, dest: string)
    requires cfg.capacity > 0
    ensures EndsOvertaken(cfg, dest, EMPTY, 0)
  {
    FirstIsClaimed(cfg, dest, Step(cfg, EMPTY, Overtaken(dest)[0]));
    NextEvent(cfg, dest, EMPTY, 0);
  }

  /** A requeue that overtakes: it revives the rejected `m0` while the later `m1` is on its way. */
  lemma {:induction false} RequeueCanOvertake(cfg: Config, dest: string)
    requires cfg.capacity > 0
    ensures PermittedRun(cfg, EMPTY.t, Overtaken(dest))
    ensures var rows := Run(cfg, EMPTY, Overtaken(dest)).t.rows;
      InOrder(rows) && !InOrder(RequeueRows(rows, None, 5, 5))
  {
    FirstIsSent(cfg, dest);
    assert Overtaken(dest)[0..] == Overtaken(dest);
    OrderingTheorem(cfg, Overtaken(dest));
    RevivedPrecedes(Run(cfg, EMPTY, Overtaken(dest)).t.rows);
  }

  lemma {:induction false} RevivedPrecedes(rows: Rows)
    requires 0 in rows && 1 in rows && rows[0].status == Dead && rows[1].status == Inflight
    requires rows[0].destination == rows[1].destination
    ensures !InOrder(RequeueRows(rows, None, 5, 5))
  {
    var after := RequeueRows(rows, None, 5, 5);
    assert after[1].status == Inflight && Live(after[0]) && after[0].destination == after[1].destination;
  }

  /** A failure report for a row that is not live keeps the order exactly when it kills it or overtakes nothing. */
  lemma {:induction false} StrayFailureKeepsOrderExactly(cfg: Config, t: Table, id: nat, now: int, jitter: real, wall: int)
    requires InOrder(t.rows) && id in t.rows && !Live(t.rows[id])
    ensures InOrder(FailStep(cfg, t, id, now, jitter, wall).rows) <==>
      t.rows[id].attempts + 1 >= cfg.maxAttempts || OvertakesNothing(t.rows, {id})
  {
    var rows' := FailStep(cfg, t, id, now, jitter, wall).rows;
    assert forall i :: i in t.rows && i != id ==> rows'[i] == t.rows[i];
    if t.rows[id].attempts + 1 < cfg.maxAttempts {
      assert rows'[id].status == Pending && rows'[id].destination == t.rows[id].destination;
    }
  }

  // ---------------------------------------------------------------------------------
  // Bounds.

  ghost predicate BoundsInv(cfg: Config, t: Table) {
    && IdsBelow(t)
    && (Depth(t) <= cfg.capacity || Depth(t) == 0)
    && (forall i :: i in t.rows && Live(t.rows[i]) ==> t.rows[i].attempts == 0 || t.rows[i].attempts < cfg.maxAttempts)
    && (forall i, j :: i in t.rows && j in t.rows && t.rows[i].messageId == t.rows[j].messageId ==> i == j)
  }

  lemma {:induction false} FewerLive(a: Rows, b: Rows, n: nat)
    requires forall i :: i in b && Live(b[i]) ==> i in a && Live(a[i])
    ensures LiveBelow(b, n) <= LiveBelow(a, n)
  {
    if n > 0 {
      FewerLive(a, b, n - 1);
    }
  }

  lemma {:induction false} SameLive(a: Rows, b: Rows, n: nat)
    requires forall i :: 0 <= i < n ==> ((i in b && Live(b[i])) <==> (i in a && Live(a[i])))
    ensures LiveBelow(b, n) == LiveBelow(a, n)
  {
    if n > 0 {
      SameLive(a, b, n - 1);
    }
  }

  lemma {:induction false} FindIsComplete(rows: Rows, messageId: string, n: nat)
    ensures Find(rows, messageId, n).None? ==> forall i :: 0 <= i < n && i in rows ==> rows[i].messageId != messageId
    ensures Find(rows, messageId, n).Some? ==>
      var i := Find(rows, messageId, n).value; i < n && i in rows && rows[i].messageId == messageId
  {
    if n > 0 {
      FindIsComplete(rows, messageId, n - 1);
    }
  }

  /** Rows keep their identity; live rows keep or grow their attempts within the bound. */
  ghost predicate Bounded(cfg: Config, a: Rows, b: Rows) {
    forall i :: i in b ==>
      && i in a && b[i].messageId == a[i].messageId
      && (Live(b[i]) ==> Live(a[i]) && (b[i].attempts == a[i].attempts || b[i].attempts < cfg.maxAttempts))
  }

  lemma {:induction false} StepIsBounded(cfg: Config, t: Table, e: Event)
    requires Permitted(t, e) && !e.Enqueue?
    ensures Bounded(cfg, t.rows, StepTable(cfg, t, e).rows) && StepTable(cfg, t, e).nextId == t.nextId
  {
    if e.Claim? {
      ClaimedAreReady(t, e.limit, e.now, e.cutoff, e.wall);
    }
  }

  lemma {:induction false} EnqueueKeepsBounds(cfg: Config, t: Table, e: Event)
    requires BoundsInv(cfg, t) && e.Enqueue?
    ensures BoundsInv(cfg, StepTable(cfg, t, e))
  {
    FindIsComplete(t.rows, e.envelope.messageId, t.nextId);
    var t' := StepTable(cfg, t, e);
    if t' != t {
      SameLive(t.rows, t'.rows, t.nextId);
    }
  }

  lemma {:induction false} StepKeepsBounds(cfg: Config, t: Table, e: Event)
    requires BoundsInv(cfg, t) && Permitted(t, e)
    ensures BoundsInv(cfg, StepTable(cfg, t, e))
  {
    if e.Enqueue? {
      EnqueueKeepsBounds(cfg, t, e);
    } else {
      StepIsBounded(cfg, t, e);
      FewerLive(t.rows, StepTable(cfg, t, e).rows, t.nextId);
    }
  }

  lemma {:induction false} BoundsFrom(cfg: Config, h: History, es: seq<Event>)
    requires BoundsInv(cfg, h.t) && PermittedRun(cfg, h.t, es)
    ensures BoundsInv(cfg, Run(cfg, h, es).t)
    decreases |es|
  {
    if es != [] {
      StepKeepsBounds(cfg, h.t, es[0]);
      BoundsFrom(cfg, Step(cfg, h, es[0]), es[1..]);
    }
  }

  /**
   * Bounds theorem: after any permitted run the undelivered messages fit the capacity,
   * live rows have attempts to spare, and one message id names one row.
   */
  lemma {:induction false} BoundsTheorem(cfg: Config, es: seq<Event>)
    requires PermittedRun(cfg, EMPTY.t, es) && cfg.capacity >= 0
    ensures var t := Run(cfg, EMPTY, es).t;
      && Depth(t) <= cfg.capacity
      && (forall i :: i in t.rows && Live(t.rows[i]) ==> t.rows[i].attempts == 0 || t.rows[i].attempts < cfg.maxAttempts)
      && (forall i, j :: i in t.rows && j in t.rows && t.rows[i].messageId == t.rows[j].messageId ==> i == j)
  {
    BoundsFrom(cfg, EMPTY, es);
  }

  ghost predicate ReportsSent(es: seq<Event>, id: nat) {
    exists k :: 0 <= k < |es| && es[k].MarkSent? && es[k].id == id
  }

  /** A message leaves the table only after it was reported sent: nothing undelivered disappears. */
  lemma {:induction false} NothingUndeliveredDisappears(cfg: Config, h: History, es: seq<Event>, id: nat)
    requires IdsBelow(h.t) && id in h.t.rows && h.t.rows[id].status != Sent
    requires id !in Run(cfg, h, es).t.rows || Run(cfg, h, es).t.rows[id].status == Sent
    ensures ReportsSent(es, id)
    decreases |es|
  {
    var e := es[0];
    var h' := Step(cfg, h, e);
    if e.MarkSent? && e.id == id {
      assert es[0].MarkSent? && es[0].id == id;
    } else {
      if e.Claim? {
        ClaimedAreReady(h.t, e.limit, e.now, e.cutoff, e.wall);
      }
      assert id in h'.t.rows && h'.t.rows[id].status != Sent && IdsBelow(h'.t);
      NothingUndeliveredDisappears(cfg, h', es[1..], id);
      var k :| 0 <= k < |es[1..]| && es[1..][k].MarkSent? && es[1..][k].id == id;
      assert es[k + 1] == es[1..][k];
    }
  }

  lemma {:induction false} TruncatedScale(x: real, jitter: real)
    requires 0.0 <= x && 0.0 <= jitter <= 1.0
    ensures 0 <= JitteredMs(x, jitter) && JitteredMs(x, jitter) as real <= 1000.0 * x
  {
    var scaled := x * jitter;
    assert 0.0 <= scaled <= x;
    assert x * jitter * 1000.0 == scaled * 1000.0;
  }

  lemma {:induction false} BackoffIsNotNegative(cfg: Config, attempts: nat)
    requires attempts > 0 && cfg.baseBackoff >= 0.0 && cfg.maxBackoff >= 0.0
    ensures Backoff(cfg, attempts) >= 0.0
  {
    assert cfg.baseBackoff * Pow2(attempts - 1) as real >= 0.0;
  }

  lemma {:induction false} DelayIsBounded(cfg: Config, attempts: nat, jitter: real)
    requires attempts > 0 && 0.0 <= jitter <= 1.0 && cfg.baseBackoff >= 0.0 && cfg.maxBackoff >= 0.0
    ensures 0 <= RetryDelay(cfg, attempts, jitter)
    ensures RetryDelay(cfg, attempts, jitter) as real <= 1000.0 * Backoff(cfg, attempts)
  {
    BackoffIsNotNegative(cfg, attempts);
    TruncatedScale(Backoff(cfg, attempts), jitter);
  }

  /** A failed row retries no earlier than now and no later than the capped exponential backoff, or is dead. */
  lemma {:induction false} RetryIsBounded(cfg: Config, t: Table, id: nat, now: int, jitter: real, wall: int)
    requires id in t.rows && 0.0 <= jitter <= 1.0 && cfg.baseBackoff >= 0.0 && cfg.maxBackoff >= 0.0
    ensures var before, after := t.rows[id], FailStep(cfg, t, id, now, jitter, wall).rows[id];
      && after.attempts == before.attempts + 1
      && (after.status == Dead <==> after.attempts >= cfg.maxAttempts)
      && (after.status == Pending <==> after.attempts < cfg.maxAttempts)
      && (after.status == Pending ==>
            now <= after.nextAttempt
            && (after.nextAttempt - now) as real <= 1000.0 * Backoff(cfg, after.attempts))
  {
    var attempts := t.rows[id].attempts + 1;
    DelayIsBounded(cfg, attempts, jitter);
    var after := FailStep(cfg, t, id, now, jitter, wall).rows[id];
    assert after.status == Pending ==> after.nextAttempt - now == RetryDelay(cfg, attempts, jitter);
  }

  // ---------------------------------------------------------------------------------
  // Draining ends.

  /** Delivery attempts a row has left. */
  function Remaining(cfg: Config, r: Row): nat {
    if !Live(r) then 0 else if cfg.maxAttempts - r.attempts > 1 then cfg.maxAttempts - r.attempts else 1
  }

  function RemainingBelow(cfg: Config, rows: Rows, n: nat): nat {
    if n == 0 then 0
    else RemainingBelow(cfg, rows, n - 1) + (if n - 1 in rows then Remaining(cfg, rows[n - 1]) else 0)
  }

  function Budget(cfg: Config, t: Table): nat { RemainingBelow(cfg, t.rows, t.nextId) }

  lemma {:induction false} RemainingShrinks(cfg: Config, a: Rows, b: Rows, n: nat)
    requires forall i :: 0 <= i < n && i in b ==> i in a && Remaining(cfg, b[i]) <= Remaining(cfg, a[i])
    ensures RemainingBelow(cfg, b, n) <= RemainingBelow(cfg, a, n)
  {
    if n > 0 {
      RemainingShrinks(cfg, a, b, n - 1);
    }
  }

  lemma {:induction false} RemainingDrops(cfg: Config, a: Rows, b: Rows, n: nat, id: nat)
    requires forall i :: 0 <= i < n && i in b ==> i in a && Remaining(cfg, b[i]) <= Remaining(cfg, a[i])
    requires id < n && id in a && id in b && Remaining(cfg, b[id]) < Remaining(cfg, a[id])
    ensures RemainingBelow(cfg, b, n) < RemainingBelow(cfg, a, n)
  {
    if id == n - 1 {
      RemainingShrinks(cfg, a, b, n - 1);
    } else {
      RemainingDrops(cfg, a, b, n - 1, id);
    }
  }

  /** Settling a live row, delivered or not, spends budget. */
  lemma {:induction false} SettleSpends(cfg: Config, t: Table, id: nat, delivered: bool, now: int, jitter: real, wall: int)
    requires IdsBelow(t) && id in t.rows && Live(t.rows[id])
    ensures var t' := SettleStep(cfg, t, id, delivered, now, jitter, wall);
      && t'.nextId == t.nextId && IdsBelow(t')
      && Budget(cfg, t') < Budget(cfg, t)
      && t'.rows.Keys == t.rows.Keys && forall i :: i in t.rows && i != id ==> t'.rows[i] == t.rows[i]
  {
    var t' := SettleStep(cfg, t, id, delivered, now, jitter, wall);
    RemainingDrops(cfg, t.rows, t'.rows, t.nextId, id);
  }

  lemma {:induction false} SettleAllSpends(cfg: Config, t: Table, ids: seq<nat>, a: Attempt, wall: int)
    requires IdsBelow(t) && forall k :: 0 <= k < |ids| ==> ids[k] in t.rows && Live(t.rows[ids[k]])
    requires forall j, k :: 0 <= j < k < |ids| ==> ids[j] < ids[k]
    ensures var t' := SettleAll(cfg, t, ids, a, wall);
      t'.nextId == t.nextId && IdsBelow(t') && Budget(cfg, t') + |ids| <= Budget(cfg, t)
    decreases |ids|
  {
    if ids != [] {
      SettleSpends(cfg, t, ids[0], a.send(ids[0]), a.clock(ids[0]), a.jitter(ids[0]), wall);
      var t1 := SettleStep(cfg, t, ids[0], a.send(ids[0]), a.clock(ids[0]), a.jitter(ids[0]), wall);
      forall k | 0 <= k < |ids[1..]| ensures ids[1..][k] in t1.rows && Live(t1.rows[ids[1..][k]]) {
        assert ids[1..][k] == ids[k + 1] > ids[0];
      }
      SettleAllSpends(cfg, t1, ids[1..], a, wall);
    }
  }

  /** A flush spends at least one attempt of the budget for every message it attempts. */
  lemma {:induction false} FlushSpends(cfg: Config, t: Table, a: Attempt, limit: int, now: int, cutoff: int, wall: int)
    requires IdsBelow(t)
    ensures var t' := FlushStep(cfg, t, a, limit, now, cutoff, wall);
      IdsBelow(t') && Budget(cfg, t') + |ClaimedIds(t, limit, now, cutoff, wall)| <= Budget(cfg, t)
  {
    var claimed := ClaimStep(t, limit, now, cutoff, wall);
    var ids := ClaimedIds(t, limit, now, cutoff, wall);
    ClaimedAreReady(t, limit, now, cutoff, wall);
    RemainingShrinks(cfg, t.rows, claimed.rows, t.nextId);
    SettleAllSpends(cfg, claimed, ids, a, wall);
  }

  datatype Round = Round(attempt: Attempt, limit: int, now: int, cutoff: int, wall: int)

  function Flushed(cfg: Config, t: Table, r: Round): Table { FlushStep(cfg, t, r.attempt, r.limit, r.now, r.cutoff, r.wall) }

  function Flushes(cfg: Config, t: Table, rounds: seq<Round>): Table
    decreases |rounds|
  {
    if rounds == [] then t else Flushes(cfg, Flushed(cfg, t, rounds[0]), rounds[1..])
  }

  function Attempts(cfg: Config, t: Table, rounds: seq<Round>): nat
    decreases |rounds|
  {
    if rounds == [] then 0 else
    var r := rounds[0];
    |ClaimedIds(t, r.limit, r.now, r.cutoff, r.wall)| + Attempts(cfg, Flushed(cfg, t, r), rounds[1..])
  }

  /** However long a node keeps flushing, it makes at most as many attempts as the budget it started with. */
  lemma {:induction false} DrainingEnds(cfg: Config, t: Table, rounds: seq<Round>)
    requires IdsBelow(t)
    ensures Attempts(cfg, t, rounds) + Budget(cfg, Flushes(cfg, t, rounds)) <= Budget(cfg, t)
    decreases |rounds|
  {
    if rounds != [] {
      var r := rounds[0];
      FlushSpends(cfg, t, r.attempt, r.limit, r.now, r.cutoff, r.wall);
      DrainingEnds(cfg, Flushed(cfg, t, r), rounds[1..]);
    }
  }

  // ---------------------------------------------------------------------------------
  // Draining makes progress.

  ghost predicate NoneInflight(t: Table) { forall i :: i in t.rows ==> t.rows[i].status != Inflight }

  /** The round comes when every pending row is due, and may claim something. */
  ghost predicate LateEnough(t: Table, r: Round) {
    r.limit != 0 && forall i :: i in t.rows && t.rows[i].status == Pending ==> t.rows[i].nextAttempt <= r.now
  }

  ghost predicate HasLive(t: Table) { exists i :: i in t.rows && Live(t.rows[i]) }

  /** The least live row below `n`, if there is one. */
  lemma {:induction false} LeastLive(rows: Rows, n: nat) returns (id: Option<nat>)
    ensures id.Some? ==> id.value < n && id.value in rows && Live(rows[id.value])
    ensures id.Some? ==> forall j :: 0 <= j < id.value && j in rows ==> !Live(rows[j])
    ensures id.None? ==> forall j :: 0 <= j < n && j in rows ==> !Live(rows[j])
  {
    if n == 0 {
      id := None;
    } else {
      id := LeastLive(rows, n - 1);
      if id.None? && n - 1 in rows && Live(rows[n - 1]) {
        id := Some(n - 1);
      }
    }
  }

  /** A late round claims something, or there was nothing left but overdue rows. */
  lemma {:induction false} LateRoundClaims(t: Table, r: Round)
    requires IdsBelow(t) && NoneInflight(t) && LateEnough(t, r)
    ensures ClaimedIds(t, r.limit, r.now, r.cutoff, r.wall) != [] || !HasLive(Swept(t, r.now, r.cutoff, r.wall))
  {
    var swept := Swept(t, r.now, r.cutoff, r.wall);
    var id := LeastLive(swept.rows, t.nextId);
    if id.Some? {
      assert Ready(swept.rows, id.value, r.now);
      assert id.value in ReadyBelow(swept.rows, r.now, t.nextId);
    }
  }

  lemma {:induction false} SettleAllSettles(cfg: Config, t: Table, ids: seq<nat>, a: Attempt, wall: int)
    requires forall i :: i in t.rows && t.rows[i].status == Inflight ==> i in ids
    ensures NoneInflight(SettleAll(cfg, t, ids, a, wall))
    decreases |ids|
  {
    if ids != [] {
      var t1 := SettleStep(cfg, t, ids[0], a.send(ids[0]), a.clock(ids[0]), a.jitter(ids[0]), wall);
      assert ids[0] in t.rows ==> t1.rows[ids[0]].status != Inflight;
      assert forall i :: i in t1.rows && i != ids[0] ==> t1.rows[i] == t.rows[i];
      SettleAllSettles(cfg, t1, ids[1..], a, wall);
    }
  }

  /** A round leaves nothing inflight, and spends something or leaves nothing to send. */
  lemma {:induction false} LateRoundProgresses(cfg: Config, t: Table, r: Round)
    requires IdsBelow(t) && NoneInflight(t) && LateEnough(t, r)
    ensures var t' := Flushed(cfg, t, r);
      && IdsBelow(t') && NoneInflight(t')
      && (Budget(cfg, t') < Budget(cfg, t) || !HasLive(t'))
  {
    var ids := ClaimedIds(t, r.limit, r.now, r.cutoff, r.wall);
    FlushSpends(cfg, t, r.attempt, r.limit, r.now, r.cutoff, r.wall);
    LateRoundClaims(t, r);
    SettleAllSettles(cfg, ClaimStep(t, r.limit, r.now, r.cutoff, r.wall), ids, r.attempt, r.wall);
    if ids == [] {
      NothingClaimed(t, r);
    }
  }

  lemma {:induction false} NothingClaimed(t: Table, r: Round)
    requires ClaimedIds(t, r.limit, r.now, r.cutoff, r.wall) == []
    ensures ClaimStep(t, r.limit, r.now, r.cutoff, r.wall) == Swept(t, r.now, r.cutoff, r.wall)
  {
  }

  /** Each of the rounds comes late enough for the table it meets. */
  ghost predicate AllLate(cfg: Config, t: Table, rounds: seq<Round>)
    decreases |rounds|
  {
    rounds == [] || (LateEnough(t, rounds[0]) && AllLate(cfg, Flushed(cfg, t, rounds[0]), rounds[1..]))
  }

  lemma {:induction false} NoBudgetNoLive(cfg: Config, rows: Rows, n: nat)
    requires RemainingBelow(cfg, rows, n) == 0
    ensures forall i :: 0 <= i < n && i in rows ==> !Live(rows[i])
  {
    if n > 0 {
      NoBudgetNoLive(cfg, rows, n - 1);
    }
  }

  lemma {:induction false} DrainedStays(cfg: Config, t: Table, rounds: seq<Round>)
    requires IdsBelow(t) && !HasLive(t)
    ensures !HasLive(Flushes(cfg, t, rounds))
    decreases |rounds|
  {
    if rounds != [] {
      var r := rounds[0];
      NothingReady(t, r);
      NothingClaimed(t, r);
      var t' := Flushed(cfg, t, r);
      assert t' == Swept(t, r.now, r.cutoff, r.wall);
      DrainedStays(cfg, t', rounds[1..]);
    }
  }

  lemma {:induction false} NothingReady(t: Table, r: Round)
    requires !HasLive(t)
    ensures ClaimedIds(t, r.limit, r.now, r.cutoff, r.wall) == [] && !HasLive(Swept(t, r.now, r.cutoff, r.wall))
  {
    var swept := Swept(t, r.now, r.cutoff, r.wall);
    assert forall i :: i in swept.rows ==> i in t.rows && (Live(swept.rows[i]) ==> Live(t.rows[i]));
    var ids := ReadyBelow(swept.rows, r.now, t.nextId);
    assert ids == [] || (Ready(swept.rows, ids[0], r.now) && Live(swept.rows[ids[0]]));
  }

  /**
   * Draining succeeds: after at least as many late rounds as there are attempts left, whatever
   * gets through and whatever does not, every message has been sent or is dead.
   */
  lemma {:induction false} EnoughRoundsEmptyTheOutbox(cfg: Config, t: Table, rounds: seq<Round>)
    requires IdsBelow(t) && NoneInflight(t) && AllLate(cfg, t, rounds) && |rounds| >= Budget(cfg, t)
    ensures !HasLive(Flushes(cfg, t, rounds))
    decreases |rounds|
  {
    if Budget(cfg, t) == 0 {
      NoBudgetNoLive(cfg, t.rows, t.nextId);
      DrainedStays(cfg, t, rounds);
    } else {
      LateRoundProgresses(cfg, t, rounds[0]);
      var t' := Flushed(cfg, t, rounds[0]);
      if HasLive(t') {
        EnoughRoundsEmptyTheOutbox(cfg, t', rounds[1..]);
      } else {
        DrainedStays(cfg, t', rounds[1..]);
      }
    }
  }
}
