/**
 * Leader election with fencing tokens (fasp_harness/edge/lease.py).
 *
 * `LeaseTable` and `LeaderLease` are the shared database table and one node's view of
 * one named role.  `System` is the whole deployment: the table, every node's `_held`
 * field, the local assignments that threads still owe after their transaction, and the
 * history of every operation ever minted and every guard check ever passed.
 */
module Lease {
  import opened Common

  datatype Row = Row(holder: string, fence: nat, expires: int)

  datatype FencedOperation = FencedOperation(name: string, holder: string, fence: nat, expires: int)

  type Table = map<string, Row>

  predicate ValidNow(op: FencedOperation, now: int) {
    now < op.expires
  }

  /** The transaction of `try_acquire`: insert, renew, take over, or nothing. */
  function AcquireTxn(rows: Table, name: string, id: string, ttl: nat, now: int): (Table, Option<FencedOperation>) {
    if name !in rows then
      (rows[name := Row(id, 1, now + ttl)], Some(FencedOperation(name, id, 1, now + ttl)))
    else if rows[name].holder == id && rows[name].expires > now then
      (rows[name := rows[name].(expires := now + ttl)],
       Some(FencedOperation(name, id, rows[name].fence, now + ttl)))
    else if rows[name].expires <= now then
      (rows[name := Row(id, rows[name].fence + 1, now + ttl)],
       Some(FencedOperation(name, id, rows[name].fence + 1, now + ttl)))
    else
      (rows, None)
  }

  /** The transaction of `release`: expire the row and burn its fence. */
  function ReleaseTxn(rows: Table, name: string, id: string): Table {
    if name !in rows || rows[name].holder != id then rows
    else rows[name := rows[name].(expires := 0, fence := rows[name].fence + 1)]
  }

  /** What `guard` lets through at the moment of effect. */
  predicate GuardPasses(rows: Table, op: FencedOperation, now: int) {
    && op.name in rows
    && rows[op.name].fence <= op.fence
    && rows[op.name].holder == op.holder
    && rows[op.name].expires > now
  }

  /** The role's row apart, nothing changes. */
  predicate OnlyRow(rows: Table, after: Table, name: string) { after - {name} == rows - {name} }

  /**
   * Who gets the lease, and under which fence.  A node gets it exactly if nobody has it, it
   * has run out, or the node itself holds it; the fence is a new one exactly if the lease was
   * free or had run out, so one fence is one uninterrupted term.
   */
  lemma {:induction false} AcquireExactly(rows: Table, name: string, id: string, ttl: nat, now: int)
    ensures var (after, got) := AcquireTxn(rows, name, id, ttl, now);
      && (got.None? <==> name in rows && rows[name].expires > now && rows[name].holder != id)
      && (got.None? ==> after == rows)
      && (got.Some? ==>
        && got.value.name == name && got.value.holder == id && got.value.expires == now + ttl
        && OnlyRow(rows, after, name) && name in after
        && after[name].holder == id && after[name].fence == got.value.fence && after[name].expires == now + ttl
        && (name !in rows ==> got.value.fence == 1)
        && (name in rows ==>
          got.value.fence == rows[name].fence + (if rows[name].expires <= now then 1 else 0)))
  {
  }

  /** Only the holder's release does anything: the row has run out at once, and its fence is spent. */
  lemma {:induction false} ReleaseExactly(rows: Table, name: string, id: string)
    ensures var after := ReleaseTxn(rows, name, id);
      if name in rows && rows[name].holder == id then
        && OnlyRow(rows, after, name) && name in after
        && after[name].holder == id && after[name].fence == rows[name].fence + 1 && after[name].expires == 0
      else after == rows
  {
  }

  class LeaseTable {
    var rows: Table

    constructor ()
      ensures rows == map[]
    {
      rows := map[];
    }
  }

  datatype LeaseLost = NotHeld | Expired | NoRow | Stale | NoLongerHeld

  class LeaderLease {
    const db: LeaseTable
    const name: string
    const nodeId: string
    const ttl: nat
    var held: Option<FencedOperation>

    constructor (db: LeaseTable, name: string, nodeId: string, ttl: nat)
      ensures this.db == db && this.name == name && this.nodeId == nodeId && this.ttl == ttl
      ensures held == None
    {
      this.db, this.name, this.nodeId, this.ttl := db, name, nodeId, ttl;
      held := None;
    }

    method TryAcquire(now: int) returns (acquired: Option<FencedOperation>)
      modifies this, db
      ensures (db.rows, acquired) == AcquireTxn(old(db.rows), name, nodeId, ttl, now)
      ensures held == acquired
      ensures acquired.Some? ==> GuardPasses(db.rows, acquired.value, now) || ttl == 0
    {
      var expires := now + ttl;
      acquired := None;
      if name !in db.rows {
        db.rows := db.rows[name := Row(nodeId, 1, expires)];
        acquired := Some(FencedOperation(name, nodeId, 1, expires));
      } else {
        var row := db.rows[name];
        if row.holder == nodeId && row.expires > now {
          db.rows := db.rows[name := row.(expires := expires)];
          acquired := Some(FencedOperation(name, nodeId, row.fence, expires));
        } else if row.expires <= now {
          db.rows := db.rows[name := Row(nodeId, row.fence + 1, expires)];
          acquired := Some(FencedOperation(name, nodeId, row.fence + 1, expires));
        }
      }
      held := acquired;
    }

    method Release() returns (released: bool)
      modifies this, db
      ensures db.rows == ReleaseTxn(old(db.rows), name, nodeId)
      ensures released <==> name in old(db.rows) && old(db.rows)[name].holder == nodeId
      ensures held == None
      // The released term can never be resumed: none of its operations passes the guard.
      ensures released ==>
        forall op: FencedOperation, now ::
          op.name == name && op.fence <= old(db.rows)[name].fence ==> !GuardPasses(db.rows, op, now)
    {
      released := name in db.rows && db.rows[name].holder == nodeId;
      if released {
        var row := db.rows[name];
        db.rows := db.rows[name := row.(expires := 0, fence := row.fence + 1)];
      }
      held := None;
    }

    method Held(now: int) returns (r: Result<FencedOperation, LeaseLost>)
      ensures r.Ok? <==> held.Some? && ValidNow(held.value, now)
      ensures r.Ok? ==> held == Some(r.value)
      ensures r.Err? ==> r.error == if held == None then NotHeld else Expired
    {
      if held == None { return Err(NotHeld); }
      if !ValidNow(held.value, now) { return Err(Expired); }
      return Ok(held.value);
    }

    method Guard(op: FencedOperation, now: int) returns (r: Result<(), LeaseLost>)
      ensures r.Ok? <==> GuardPasses(db.rows, op, now)
      ensures r == Err(NoRow) <==> op.name !in db.rows
      ensures r == Err(NoLongerHeld) <==>
        op.name in db.rows && db.rows[op.name].fence <= op.fence
        && (db.rows[op.name].holder != op.holder || db.rows[op.name].expires <= now)
      ensures r == Err(Stale) <==> op.name in db.rows && db.rows[op.name].fence > op.fence
    {
      if op.name !in db.rows { return Err(NoRow); }
      var row := db.rows[op.name];
      if row.fence > op.fence { return Err(Stale); }
      if row.holder != op.holder || row.expires <= now { return Err(NoLongerHeld); }
      return Ok(());
    }
  }

  // ---------------------------------------------------------------------------------
  // The deployment as a transition system.  Each transaction carries its own clock
  // reading, so clocks may disagree and run backwards.

  datatype Node = Node(name: string, id: string, ttl: nat)

  /** A local assignment still to be made, after a transaction that got `op`. */
  datatype Owed = Owed(node: nat, op: Option<FencedOperation>)

  datatype System = System(
    rows: Table,
    held: seq<Option<FencedOperation>>,
    owed: map<nat, Owed>,
    minted: set<FencedOperation>,
    passed: seq<FencedOperation>)

  datatype Step =
    | Acquire(thread: nat, node: nat, now: int)
    | Release(thread: nat, node: nat)
    | Assign(thread: nat)
    | Guard(op: FencedOperation, now: int)

  function Init(nodes: seq<Node>): System {
    System(map[], seq(|nodes|, i => None), map[], {}, [])
  }

  /** One step; a step that names no idle thread, no node or no minted operation does nothing. */
  function Next(nodes: seq<Node>, s: System, e: Step): (r: System)
    requires |s.held| == |nodes|
    ensures |r.held| == |nodes|
  {
    match e
    case Acquire(t, i, now) =>
      if i >= |nodes| || t in s.owed then s else
      var (rows, got) := AcquireTxn(s.rows, nodes[i].name, nodes[i].id, nodes[i].ttl, now);
      s.(rows := rows,
         owed := s.owed[t := Owed(i, got)],
         minted := if got.Some? then s.minted + {got.value} else s.minted)
    case Release(t, i) =>
      if i >= |nodes| || t in s.owed then s else
      s.(rows := ReleaseTxn(s.rows, nodes[i].name, nodes[i].id),
         owed := s.owed[t := Owed(i, None)])
    case Assign(t) =>
      if t !in s.owed || s.owed[t].node >= |nodes| then s else
      s.(held := s.held[s.owed[t].node := s.owed[t].op], owed := s.owed - {t})
    case Guard(op, now) =>
      if op in s.minted && GuardPasses(s.rows, op, now) then s.(passed := s.passed + [op]) else s
  }

  function Run(nodes: seq<Node>, s: System, es: seq<Step>): (r: System)
    requires |s.held| == |nodes|
    ensures |r.held| == |nodes|
    decreases |es|
  {
    if es == [] then s else Run(nodes, Next(nodes, s, es[0]), es[1..])
  }

  lemma {:induction false} RunAppend(nodes: seq<Node>, s: System, es: seq<Step>, fs: seq<Step>)
    requires |s.held| == |nodes|
    ensures Run(nodes, s, es + fs) == Run(nodes, Run(nodes, s, es), fs)
    decreases |es|
  {
    if es == [] {
      assert es + fs == fs;
    } else {
      assert (es + fs)[0] == es[0] && (es + fs)[1..] == es[1..] + fs;
      RunAppend(nodes, Next(nodes, s, es[0]), es[1..], fs);
    }
  }

  // ---------------------------------------------------------------------------------
  // Fencing.

  /** No operation outruns the table, and one fence belongs to one holder. */
  ghost predicate MintedInv(s: System) {
    && (forall op :: op in s.minted ==> op.name in s.rows && op.fence <= s.rows[op.name].fence)
    && (forall op :: op in s.minted && op.fence == s.rows[op.name].fence ==> op.holder == s.rows[op.name].holder)
    && (forall op, op' :: op in s.minted && op' in s.minted && op.name == op'.name && op.fence == op'.fence ==>
          op.holder == op'.holder)
  }

  /** Passed guard checks carry non-decreasing fences. */
  ghost predicate PassedInv(s: System) {
    && (forall k :: 0 <= k < |s.passed| ==> s.passed[k] in s.minted)
    && (forall j, k :: 0 <= j <= k < |s.passed| && s.passed[j].name == s.passed[k].name ==>
          s.passed[j].fence <= s.passed[k].fence)
  }

  /** Everything a node believes, or is about to believe, was minted. */
  ghost predicate HeldInv(s: System) {
    && (forall i :: 0 <= i < |s.held| && s.held[i].Some? ==> s.held[i].value in s.minted)
    && (forall t :: t in s.owed && s.owed[t].op.Some? ==> s.owed[t].op.value in s.minted)
  }

  ghost predicate FencingInv(s: System) {
    MintedInv(s) && PassedInv(s) && HeldInv(s)
  }

  lemma {:induction false} AcquireTxnFacts(rows: Table, name: string, id: string, ttl: nat, now: int)
    ensures var (rows', got) := AcquireTxn(rows, name, id, ttl, now);
      && (forall n :: n in rows ==> n in rows' && rows[n].fence <= rows'[n].fence)
      && (forall n :: n in rows' && n != name ==> n in rows && rows'[n] == rows[n])
      && (name in rows && rows'[name].fence == rows[name].fence ==> rows'[name].holder == rows[name].holder)
      && (got.Some? ==> name in rows' && got.value == FencedOperation(name, id, rows'[name].fence, rows'[name].expires)
                        && rows'[name].holder == id)
      && (got.None? ==> rows' == rows)
  {
  }

  lemma {:induction false} AcquireKeepsMinted(nodes: seq<Node>, s: System, t: nat, i: nat, now: int)
    requires |s.held| == |nodes| && MintedInv(s)
    ensures MintedInv(Next(nodes, s, Acquire(t, i, now)))
  {
    if i < |nodes| && t !in s.owed {
      AcquireTxnFacts(s.rows, nodes[i].name, nodes[i].id, nodes[i].ttl, now);
    }
  }

  lemma {:induction false} PassedGuardIsCurrent(s: System, op: FencedOperation, now: int)
    requires MintedInv(s) && op in s.minted
    ensures GuardPasses(s.rows, op, now) <==>
            s.rows[op.name].fence == op.fence && s.rows[op.name].expires > now
  {
  }

  lemma {:induction false} NextKeepsFencing(nodes: seq<Node>, s: System, e: Step)
    requires |s.held| == |nodes| && FencingInv(s)
    ensures FencingInv(Next(nodes, s, e))
  {
    match e
    case Acquire(t, i, now) => AcquireKeepsMinted(nodes, s, t, i, now);
    case Release(t, i) =>
    case Assign(t) =>
    case Guard(op, now) =>
      if op in s.minted {
        PassedGuardIsCurrent(s, op, now);
      }
  }

  /**
   * Fencing theorem: after any run, with clocks that disagree arbitrarily, no minted
   * operation outruns the stored fence, equal fences have equal holders, and the fences
   * of the guard checks that passed never decreased.
   */
  lemma {:induction false} FencingTheorem(nodes: seq<Node>, es: seq<Step>)
    ensures FencingInv(Run(nodes, Init(nodes), es))
  {
    FencingFrom(nodes, Init(nodes), es);
  }

  lemma {:induction false} FencingFrom(nodes: seq<Node>, s: System, es: seq<Step>)
    requires |s.held| == |nodes| && FencingInv(s)
    ensures FencingInv(Run(nodes, s, es))
    decreases |es|
  {
    if es != [] {
      NextKeepsFencing(nodes, s, es[0]);
      FencingFrom(nodes, Next(nodes, s, es[0]), es[1..]);
    }
  }

  /**
   * In every reachable state the guard lets a minted operation through exactly when it
   * carries the stored fence of an unexpired row.
   */
  lemma {:induction false} GuardAcceptsOnlyStoredTerm(nodes: seq<Node>, es: seq<Step>, op: FencedOperation, now: int)
    requires op in Run(nodes, Init(nodes), es).minted
    ensures var rows := Run(nodes, Init(nodes), es).rows;
      && op.name in rows
      && (GuardPasses(rows, op, now) <==> rows[op.name].fence == op.fence && rows[op.name].expires > now)
  {
    FencingTheorem(nodes, es);
    PassedGuardIsCurrent(Run(nodes, Init(nodes), es), op, now);
  }

  lemma {:induction false} FenceNeverDecreases(nodes: seq<Node>, s: System, es: seq<Step>, name: string)
    requires |s.held| == |nodes| && name in s.rows
    ensures var s' := Run(nodes, s, es); name in s'.rows && s.rows[name].fence <= s'.rows[name].fence
    decreases |es|
  {
    if es != [] {
      var e := es[0];
      if e.Acquire? && e.node < |nodes| {
        AcquireTxnFacts(s.rows, nodes[e.node].name, nodes[e.node].id, nodes[e.node].ttl, e.now);
      }
      FenceNeverDecreases(nodes, Next(nodes, s, e), es[1..], name);
    }
  }

  /** Once the stored fence has moved past a term, that term never passes the guard again. */
  lemma {:induction false} SupersededTermNeverPasses(nodes: seq<Node>, es: seq<Step>, fs: seq<Step>, op: FencedOperation, now: int)
    requires var s := Run(nodes, Init(nodes), es); op.name in s.rows && op.fence < s.rows[op.name].fence
    ensures !GuardPasses(Run(nodes, Init(nodes), es + fs).rows, op, now)
  {
    RunAppend(nodes, Init(nodes), es, fs);
    FenceNeverDecreases(nodes, Run(nodes, Init(nodes), es), fs, op.name);
  }

  // ---------------------------------------------------------------------------------
  // Mutual exclusion: atomic calls under one shared clock that never runs backwards.

  datatype Call = TryAcquire(node: nat) | GiveUp(node: nat) | Wait(ms: nat)

  datatype Timed = Timed(sys: System, clock: int)

  /** An atomic call is the transaction followed at once by the local assignment. */
  function Atomic(nodes: seq<Node>, w: Timed, c: Call): (r: Timed)
    requires |w.sys.held| == |nodes|
    ensures |r.sys.held| == |nodes|
  {
    match c
    case TryAcquire(i) => w.(sys := Next(nodes, Next(nodes, w.sys, Acquire(0, i, w.clock)), Assign(0)))
    case GiveUp(i) => w.(sys := Next(nodes, Next(nodes, w.sys, Release(0, i)), Assign(0)))
    case Wait(ms) => w.(clock := w.clock + ms)
  }

  function AtomicRun(nodes: seq<Node>, w: Timed, cs: seq<Call>): (r: Timed)
    requires |w.sys.held| == |nodes|
    ensures |r.sys.held| == |nodes|
    decreases |cs|
  {
    if cs == [] then w else AtomicRun(nodes, Atomic(nodes, w, cs[0]), cs[1..])
  }

  predicate IsLeader(s: System, i: nat, now: int) {
    i < |s.held| && s.held[i].Some? && ValidNow(s.held[i].value, now)
  }

  ghost predicate AtMostOneLeader(nodes: seq<Node>, w: Timed)
    requires |w.sys.held| == |nodes|
  {
    forall i, j :: 0 <= i < j < |nodes| && IsLeader(w.sys, i, w.clock) && IsLeader(w.sys, j, w.clock) ==>
      nodes[i].name != nodes[j].name
  }

  ghost predicate DistinctIds(nodes: seq<Node>) {
    forall i, j :: 0 <= i < j < |nodes| && nodes[i].name == nodes[j].name ==> nodes[i].id != nodes[j].id
  }

  /** A node that believes it leads is the row's holder, under the row's fence and expiry. */
  ghost predicate LeaderInv(nodes: seq<Node>, w: Timed)
    requires |w.sys.held| == |nodes|
  {
    && w.sys.owed == map[]
    && forall i :: 0 <= i < |nodes| && IsLeader(w.sys, i, w.clock) ==>
        var op := w.sys.held[i].value;
        && op.name == nodes[i].name && op.holder == nodes[i].id
        && op.name in w.sys.rows
        && w.sys.rows[op.name] == Row(op.holder, op.fence, op.expires)
  }

  lemma {:induction false} AtomicKeepsLeader(nodes: seq<Node>, w: Timed, c: Call)
    requires |w.sys.held| == |nodes| && DistinctIds(nodes) && LeaderInv(nodes, w)
    ensures LeaderInv(nodes, Atomic(nodes, w, c))
  {
    var w' := Atomic(nodes, w, c);
    match c
    case Wait(_) =>
    case TryAcquire(i) =>
      if i < |nodes| {
        AcquireTxnFacts(w.sys.rows, nodes[i].name, nodes[i].id, nodes[i].ttl, w.clock);
        assert w'.sys.owed == map[];
      }
    case GiveUp(i) =>
      assert i < |nodes| ==> w'.sys.owed == map[];
  }

  lemma {:induction false} LeaderFrom(nodes: seq<Node>, w: Timed, cs: seq<Call>)
    requires |w.sys.held| == |nodes| && DistinctIds(nodes) && LeaderInv(nodes, w)
    ensures LeaderInv(nodes, AtomicRun(nodes, w, cs))
    decreases |cs|
  {
    if cs != [] {
      AtomicKeepsLeader(nodes, w, cs[0]);
      LeaderFrom(nodes, Atomic(nodes, w, cs[0]), cs[1..]);
    }
  }

  /**
   * Mutual exclusion: with distinct node ids at most one node per role leads, and the
   * operation it holds passes the guard.
   */
  lemma {:induction false} MutualExclusion(nodes: seq<Node>, clock: int, cs: seq<Call>)
    requires DistinctIds(nodes)
    ensures var w := AtomicRun(nodes, Timed(Init(nodes), clock), cs);
      && AtMostOneLeader(nodes, w)
      && forall i :: 0 <= i < |nodes| && IsLeader(w.sys, i, w.clock) ==>
          GuardPasses(w.sys.rows, w.sys.held[i].value, w.clock)
  {
    LeaderFrom(nodes, Timed(Init(nodes), clock), cs);
  }

  /** Two nodes sharing an id renew each other's lease and both lead. */
  lemma {:induction false} SharedIdOverlaps(nodes: seq<Node>, clock: int, i: nat, j: nat)
    requires i < j < |nodes|
    requires nodes[i].name == nodes[j].name && nodes[i].id == nodes[j].id
    requires nodes[i].ttl > 0 && nodes[j].ttl > 0
    ensures !AtMostOneLeader(nodes, AtomicRun(nodes, Timed(Init(nodes), clock), [TryAcquire(i), TryAcquire(j)]))
  {
    var w0 := Timed(Init(nodes), clock);
    var w1 := Atomic(nodes, w0, TryAcquire(i));
    var w2 := Atomic(nodes, w1, TryAcquire(j));
    var cs := [TryAcquire(i), TryAcquire(j)];
    assert cs[1..] == [TryAcquire(j)] && cs[1..][1..] == [];
    assert AtomicRun(nodes, w0, cs) == AtomicRun(nodes, w1, cs[1..]);
    assert AtomicRun(nodes, w1, cs[1..]) == AtomicRun(nodes, w2, []);
    assert IsLeader(w2.sys, i, clock) && IsLeader(w2.sys, j, clock);
  }

  /** Mutual exclusion holds over every run exactly when no two nodes of one role share an id. */
  lemma {:induction false} MutualExclusionExactly(nodes: seq<Node>, clock: int)
    requires forall i :: 0 <= i < |nodes| ==> nodes[i].ttl > 0
    ensures (forall cs :: AtMostOneLeader(nodes, AtomicRun(nodes, Timed(Init(nodes), clock), cs)))
            <==> DistinctIds(nodes)
  {
    if DistinctIds(nodes) {
      forall cs ensures AtMostOneLeader(nodes, AtomicRun(nodes, Timed(Init(nodes), clock), cs)) {
        MutualExclusion(nodes, clock, cs);
      }
    } else {
      var i, j :| 0 <= i < j < |nodes| && nodes[i].name == nodes[j].name && nodes[i].id == nodes[j].id;
      SharedIdOverlaps(nodes, clock, i, j);
    }
  }

  /** One atomic call is the transaction of the call and the belief it leaves the node with. */
  lemma {:induction false} CallIs(nodes: seq<Node>, w: Timed, i: nat)
    requires |w.sys.held| == |nodes| && i < |nodes| && w.sys.owed == map[]
    ensures var n, r := nodes[i], Atomic(nodes, w, TryAcquire(i));
      var (rows, got) := AcquireTxn(w.sys.rows, n.name, n.id, n.ttl, w.clock);
      r.sys.rows == rows && r.sys.held == w.sys.held[i := got] && r.clock == w.clock && r.sys.owed == map[]
    ensures var n, r := nodes[i], Atomic(nodes, w, GiveUp(i));
      r.sys.rows == ReleaseTxn(w.sys.rows, n.name, n.id) && r.sys.held == w.sys.held[i := None] && r.clock == w.clock
      && r.sys.owed == map[]
  {
    var n := nodes[i];
    assert map[0 := Owed(i, AcquireTxn(w.sys.rows, n.name, n.id, n.ttl, w.clock).1)] - {0} == map[];
    assert map[0 := Owed(i, None)] - {0} == map[];
  }

  /**
   * Failover at once: when the leading node gives the lease up, whoever of the role tries next
   * leads and passes the guard, however long the lease would have lasted; the released term
   * does not.
   */
  lemma {:induction false} ReleaseFailsOver(nodes: seq<Node>, clock: int, cs: seq<Call>, i: nat, j: nat)
    requires DistinctIds(nodes) && i < |nodes| && j < |nodes| && nodes[i].name == nodes[j].name && nodes[j].ttl > 0
    requires var w := AtomicRun(nodes, Timed(Init(nodes), clock), cs); w.clock >= 0 && IsLeader(w.sys, i, w.clock)
    ensures var w := AtomicRun(nodes, Timed(Init(nodes), clock), cs);
      var r := Atomic(nodes, Atomic(nodes, w, GiveUp(i)), TryAcquire(j));
      && IsLeader(r.sys, j, r.clock) && GuardPasses(r.sys.rows, r.sys.held[j].value, r.clock)
      && !GuardPasses(r.sys.rows, w.sys.held[i].value, r.clock)
  {
    LeaderFrom(nodes, Timed(Init(nodes), clock), cs);
    var w := AtomicRun(nodes, Timed(Init(nodes), clock), cs);
    CallIs(nodes, w, i);
    CallIs(nodes, Atomic(nodes, w, GiveUp(i)), j);
  }

  /** Failover by expiry: once the stored lease has run out, or if there is none, whoever tries next leads. */
  lemma {:induction false} ExpiryFailsOver(nodes: seq<Node>, w: Timed, ms: nat, j: nat)
    requires |w.sys.held| == |nodes| && j < |nodes| && nodes[j].ttl > 0 && w.sys.owed == map[]
    requires nodes[j].name in w.sys.rows ==> w.sys.rows[nodes[j].name].expires <= w.clock + ms
    ensures var r := Atomic(nodes, Atomic(nodes, w, Wait(ms)), TryAcquire(j));
      && r.clock == w.clock + ms && IsLeader(r.sys, j, r.clock) && GuardPasses(r.sys.rows, r.sys.held[j].value, r.clock)
  {
    CallIs(nodes, Atomic(nodes, w, Wait(ms)), j);
  }

  /** The guard log: a check is recorded exactly if the operation was minted and the row bears it out. */
  lemma {:induction false} PassesAreLogged(nodes: seq<Node>, s: System, op: FencedOperation, now: int)
    requires |s.held| == |nodes|
    ensures var r := Next(nodes, s, Guard(op, now));
      r.passed == s.passed + (if op in s.minted && op.name in s.rows && s.rows[op.name].fence <= op.fence
                                 && s.rows[op.name].holder == op.holder && now < s.rows[op.name].expires then [op] else [])
  {
    assert s.passed + [] == s.passed;
  }

  /**
   * When the local assignment is a step of its own the leader flags can overlap, here
   * between the release transaction of `a` and its local assignment; the guard still
   * refuses `a` and accepts `b`.
   */
  lemma {:induction false} SplitAssignmentOverlaps()
    ensures
      var nodes := [Node("role", "a", 10), Node("role", "b", 10)];
      var s := Run(nodes, Init(nodes),
                   [Acquire(0, 0, 0), Assign(0), Release(0, 0), Acquire(1, 1, 1), Assign(1)]);
      && IsLeader(s, 0, 2) && IsLeader(s, 1, 2)
      && !GuardPasses(s.rows, s.held[0].value, 2)
      && GuardPasses(s.rows, s.held[1].value, 2)
  {
    var nodes := [Node("role", "a", 10), Node("role", "b", 10)];
    var es := [Acquire(0, 0, 0), Assign(0), Release(0, 0), Acquire(1, 1, 1), Assign(1)];
    var s0 := Init(nodes);
    var s1 := Next(nodes, s0, es[0]);
    var s2 := Next(nodes, s1, es[1]);
    var s3 := Next(nodes, s2, es[2]);
    var s4 := Next(nodes, s3, es[3]);
    var s5 := Next(nodes, s4, es[4]);
    assert s2.rows["role"] == Row("a", 1, 10) && s2.owed == map[];
    assert s4.rows["role"] == Row("b", 3, 11);
    assert Run(nodes, s0, es) == Run(nodes, s1, es[1..]);
    assert es[1..][1..] == es[2..] && es[2..][1..] == es[3..] && es[3..][1..] == es[4..] && es[4..][1..] == [];
    assert Run(nodes, s1, es[1..]) == Run(nodes, s2, es[2..]);
    assert Run(nodes, s2, es[2..]) == Run(nodes, s3, es[3..]);
    assert Run(nodes, s3, es[3..]) == Run(nodes, s4, es[4..]);
    assert Run(nodes, s4, es[4..]) == Run(nodes, s5, []);
  }

  // ---------------------------------------------------------------------------------
  // Which leader flags pass the guard when calls are split: a call reads the clock, runs its
  // transaction and assigns what it got at three different times, and a node may have any
  // number of calls outstanding, as when a renewal is in flight while the node stops.

  datatype Term = Term(name: string, fence: nat)

  function TermOf(op: FencedOperation): Term { Term(op.name, op.fence) }

  /** The deployment with its clock, the terms burnt by a release and the terms cut short by a renewal. */
  datatype Deployment = Deployment(sys: System, clock: int, burnt: set<Term>, cut: set<Term>)

  /** `read` is the clock reading of an acquire, taken at or before its transaction. */
  datatype Part =
    | BeginAcquire(thread: nat, node: nat, read: int)
    | BeginRelease(thread: nat, node: nat)
    | Finish(thread: nat)
    | Pass(ms: nat)

  predicate Holds(rows: Table, node: Node) { node.name in rows && rows[node.name].holder == node.id }

  /** A renewal on so old a reading that it brings the stored expiry forward. */
  predicate Cuts(rows: Table, node: Node, read: int) {
    Holds(rows, node) && rows[node.name].expires > read + node.ttl
  }

  function AddTerm(terms: set<Term>, rows: Table, node: Node): set<Term>
    requires node.name in rows
  {
    terms + {Term(node.name, rows[node.name].fence)}
  }

  /** A thread that owes an assignment begins no other call, and no reading lies in the future. */
  predicate CanBegin(nodes: seq<Node>, w: Deployment, p: Part) {
    match p
    case BeginAcquire(t, i, read) => i < |nodes| && t !in w.sys.owed && read <= w.clock
    case BeginRelease(t, i) => i < |nodes| && t !in w.sys.owed
    case Finish(_) => true
    case Pass(_) => true
  }

  function Split(nodes: seq<Node>, w: Deployment, p: Part): (r: Deployment)
    requires |w.sys.held| == |nodes|
    ensures |r.sys.held| == |nodes|
  {
    if !CanBegin(nodes, w, p) then w else
    match p
    case BeginAcquire(t, i, read) =>
      w.(sys := Next(nodes, w.sys, Acquire(t, i, read)),
         cut := if Cuts(w.sys.rows, nodes[i], read) then AddTerm(w.cut, w.sys.rows, nodes[i]) else w.cut)
    case BeginRelease(t, i) =>
      w.(sys := Next(nodes, w.sys, Release(t, i)),
         burnt := if Holds(w.sys.rows, nodes[i]) then AddTerm(w.burnt, w.sys.rows, nodes[i]) else w.burnt)
    case Finish(t) => w.(sys := Next(nodes, w.sys, Assign(t)))
    case Pass(ms) => w.(clock := w.clock + ms)
  }

  function SplitRun(nodes: seq<Node>, w: Deployment, ps: seq<Part>): (r: Deployment)
    requires |w.sys.held| == |nodes|
    ensures |r.sys.held| == |nodes|
    decreases |ps|
  {
    if ps == [] then w else SplitRun(nodes, Split(nodes, w, ps[0]), ps[1..])
  }

  /** The operation's term is the stored one, and the row lasts at least as long. */
  predicate Current(rows: Table, op: FencedOperation) {
    && op.name in rows && rows[op.name].holder == op.holder && rows[op.name].fence == op.fence
    && op.expires <= rows[op.name].expires
  }

  predicate Owns(node: Node, op: FencedOperation) { op.name == node.name && op.holder == node.id }

  /** Burnt terms are past; operations that have not expired are current, unless burnt or cut. */
  ghost predicate TermsInv(minted: set<FencedOperation>, rows: Table, burnt: set<Term>, cut: set<Term>, now: int) {
    && (forall t :: t in burnt ==> t.name in rows && t.fence < rows[t.name].fence)
    && (forall op :: op in minted && ValidNow(op, now) && TermOf(op) !in burnt && TermOf(op) !in cut ==> Current(rows, op))
  }

  /** What nodes believe, or are about to believe, are operations minted for them. */
  ghost predicate BeliefsInv(nodes: seq<Node>, s: System)
    requires |s.held| == |nodes|
  {
    && (forall i :: 0 <= i < |nodes| && s.held[i].Some? ==> s.held[i].value in s.minted && Owns(nodes[i], s.held[i].value))
    && (forall t :: t in s.owed ==> s.owed[t].node < |nodes|)
    && (forall t :: t in s.owed && s.owed[t].op.Some? ==>
          s.owed[t].op.value in s.minted && Owns(nodes[s.owed[t].node], s.owed[t].op.value))
  }

  ghost predicate SplitInv(nodes: seq<Node>, w: Deployment)
    requires |w.sys.held| == |nodes|
  {
    TermsInv(w.sys.minted, w.sys.rows, w.burnt, w.cut, w.clock) && BeliefsInv(nodes, w.sys)
  }

  lemma {:induction false} SplitKeepsBeliefs(nodes: seq<Node>, w: Deployment, p: Part)
    requires |w.sys.held| == |nodes| && BeliefsInv(nodes, w.sys)
    ensures BeliefsInv(nodes, Split(nodes, w, p).sys)
  {
    if p.BeginAcquire? && p.node < |nodes| {
      var n := nodes[p.node];
      AcquireTxnFacts(w.sys.rows, n.name, n.id, n.ttl, p.read);
    }
  }

  lemma {:induction false} AcquireKeepsTerms(
    minted: set<FencedOperation>, rows: Table, burnt: set<Term>, cut: set<Term>, node: Node, read: int, now: int)
    requires TermsInv(minted, rows, burnt, cut, now) && read <= now
    ensures var (rows', got) := AcquireTxn(rows, node.name, node.id, node.ttl, read);
      TermsInv(if got.Some? then minted + {got.value} else minted, rows', burnt,
               if Cuts(rows, node, read) then AddTerm(cut, rows, node) else cut, now)
  {
    var (rows', got) := AcquireTxn(rows, node.name, node.id, node.ttl, read);
    var cut' := if Cuts(rows, node, read) then AddTerm(cut, rows, node) else cut;
    forall op | op in minted && ValidNow(op, now) && TermOf(op) !in burnt && TermOf(op) !in cut' ensures Current(rows', op) {
      assert Current(rows, op);
    }
  }

  lemma {:induction false} ReleaseKeepsTerms(
    minted: set<FencedOperation>, rows: Table, burnt: set<Term>, cut: set<Term>, node: Node, now: int)
    requires TermsInv(minted, rows, burnt, cut, now)
    ensures TermsInv(minted, ReleaseTxn(rows, node.name, node.id),
                     if Holds(rows, node) then AddTerm(burnt, rows, node) else burnt, cut, now)
  {
  }

  lemma {:induction false} SplitKeepsTerms(nodes: seq<Node>, w: Deployment, p: Part)
    requires |w.sys.held| == |nodes| && TermsInv(w.sys.minted, w.sys.rows, w.burnt, w.cut, w.clock)
    ensures var r := Split(nodes, w, p); TermsInv(r.sys.minted, r.sys.rows, r.burnt, r.cut, r.clock)
  {
    if CanBegin(nodes, w, p) {
      match p
      case BeginAcquire(t, i, read) =>
        AcquireKeepsTerms(w.sys.minted, w.sys.rows, w.burnt, w.cut, nodes[i], read, w.clock);
      case BeginRelease(t, i) =>
        ReleaseKeepsTerms(w.sys.minted, w.sys.rows, w.burnt, w.cut, nodes[i], w.clock);
      case Finish(_) =>
      case Pass(_) =>
    }
  }

  lemma {:induction false} SplitFrom(nodes: seq<Node>, w: Deployment, ps: seq<Part>)
    requires |w.sys.held| == |nodes| && SplitInv(nodes, w)
    ensures SplitInv(nodes, SplitRun(nodes, w, ps))
    decreases |ps|
  {
    if ps != [] {
      SplitKeepsBeliefs(nodes, w, ps[0]);
      SplitKeepsTerms(nodes, w, ps[0]);
      SplitFrom(nodes, Split(nodes, w, ps[0]), ps[1..]);
    }
  }

  function Deployed(nodes: seq<Node>, clock: int): Deployment { Deployment(Init(nodes), clock, {}, {}) }

  /**
   * A leading node's operation is refused by the guard if a release has burnt its term, and
   * accepted if not, unless a renewal has cut the term short.
   */
  lemma {:induction false} LeaderPassesExactly(nodes: seq<Node>, clock: int, ps: seq<Part>, i: nat)
    requires i < |nodes|
    requires var w := SplitRun(nodes, Deployed(nodes, clock), ps); IsLeader(w.sys, i, w.clock)
    ensures var w := SplitRun(nodes, Deployed(nodes, clock), ps);
      var op := w.sys.held[i].value;
      && Owns(nodes[i], op)
      && (TermOf(op) in w.burnt ==> !GuardPasses(w.sys.rows, op, w.clock))
      && (TermOf(op) !in w.cut ==> (GuardPasses(w.sys.rows, op, w.clock) <==> TermOf(op) !in w.burnt))
  {
    SplitFrom(nodes, Deployed(nodes, clock), ps);
  }

  /** Two nodes of a role lead at once only if one of them holds a term that was burnt or cut. */
  lemma {:induction false} OverlapNeedsBrokenTerm(nodes: seq<Node>, clock: int, ps: seq<Part>, i: nat, j: nat)
    requires DistinctIds(nodes) && i < |nodes| && j < |nodes| && i != j && nodes[i].name == nodes[j].name
    requires var w := SplitRun(nodes, Deployed(nodes, clock), ps); IsLeader(w.sys, i, w.clock) && IsLeader(w.sys, j, w.clock)
    ensures var w := SplitRun(nodes, Deployed(nodes, clock), ps);
      TermOf(w.sys.held[i].value) in w.burnt + w.cut || TermOf(w.sys.held[j].value) in w.burnt + w.cut
  {
    LeaderPassesExactly(nodes, clock, ps, i);
    LeaderPassesExactly(nodes, clock, ps, j);
  }

  // ---------------------------------------------------------------------------------
  // When no term is cut.

  /** Each node's acquires run their transactions in the order of their readings, which count from the epoch. */
  ghost predicate ReadingsInOrder(ps: seq<Part>) {
    && (forall k :: 0 <= k < |ps| && ps[k].BeginAcquire? ==> 0 <= ps[k].read)
    && (forall j, k :: 0 <= j < k < |ps| && ps[j].BeginAcquire? && ps[k].BeginAcquire? && ps[j].node == ps[k].node ==>
          ps[j].read <= ps[k].read)
  }

  /** No acquire still to come cuts the row as it stands. */
  ghost predicate NoneCuts(nodes: seq<Node>, rows: Table, ps: seq<Part>) {
    forall k :: 0 <= k < |ps| && ps[k].BeginAcquire? && ps[k].node < |nodes| ==> !Cuts(rows, nodes[ps[k].node], ps[k].read)
  }

  lemma {:induction false} NodeById(nodes: seq<Node>, i: nat, j: nat)
    requires DistinctIds(nodes) && i < |nodes| && j < |nodes| && nodes[i].name == nodes[j].name && nodes[i].id == nodes[j].id
    ensures i == j
  {
  }

  lemma {:induction false} AcquireCutsNone(nodes: seq<Node>, rows: Table, i: nat, read: int, j: nat, later: int)
    requires DistinctIds(nodes) && i < |nodes| && j < |nodes| && (i == j ==> read <= later)
    requires !Cuts(rows, nodes[j], later)
    ensures !Cuts(AcquireTxn(rows, nodes[i].name, nodes[i].id, nodes[i].ttl, read).0, nodes[j], later)
  {
    if nodes[i].name == nodes[j].name && nodes[i].id == nodes[j].id {
      NodeById(nodes, i, j);
    }
  }

  lemma {:induction false} ReleaseCutsNone(rows: Table, node: Node, other: Node, later: int)
    requires !Cuts(rows, other, later) && 0 <= later
    ensures !Cuts(ReleaseTxn(rows, node.name, node.id), other, later)
  {
  }

  lemma {:induction false} SplitCutsNone(nodes: seq<Node>, w: Deployment, p: Part, q: Part)
    requires |w.sys.held| == |nodes| && DistinctIds(nodes)
    requires q.BeginAcquire? && q.node < |nodes| && 0 <= q.read && !Cuts(w.sys.rows, nodes[q.node], q.read)
    requires p.BeginAcquire? && p.node == q.node ==> p.read <= q.read
    ensures !Cuts(Split(nodes, w, p).sys.rows, nodes[q.node], q.read)
  {
    if CanBegin(nodes, w, p) {
      match p
      case BeginAcquire(t, i, read) => AcquireCutsNone(nodes, w.sys.rows, i, read, q.node, q.read);
      case BeginRelease(t, i) => ReleaseCutsNone(w.sys.rows, nodes[i], nodes[q.node], q.read);
      case Finish(_) =>
      case Pass(_) =>
    }
  }

  lemma {:induction false} CutNoneFrom(nodes: seq<Node>, w: Deployment, ps: seq<Part>)
    requires |w.sys.held| == |nodes| && DistinctIds(nodes)
    requires ReadingsInOrder(ps) && NoneCuts(nodes, w.sys.rows, ps)
    ensures SplitRun(nodes, w, ps).cut == w.cut
    decreases |ps|
  {
    if ps != [] {
      var r, rest := Split(nodes, w, ps[0]), ps[1..];
      forall k | 0 <= k < |rest| && rest[k].BeginAcquire? && rest[k].node < |nodes|
        ensures !Cuts(r.sys.rows, nodes[rest[k].node], rest[k].read)
      {
        assert rest[k] == ps[k + 1];
        SplitCutsNone(nodes, w, ps[0], rest[k]);
      }
      CutNoneFrom(nodes, r, rest);
    }
  }

  /**
   * With distinct ids and each node's readings in order, nothing is cut: a leading node's
   * operation passes the guard exactly when no release has burnt its term.
   */
  lemma {:induction false} LeaderPassesInOrder(nodes: seq<Node>, clock: int, ps: seq<Part>, i: nat)
    requires DistinctIds(nodes) && ReadingsInOrder(ps) && i < |nodes|
    requires var w := SplitRun(nodes, Deployed(nodes, clock), ps); IsLeader(w.sys, i, w.clock)
    ensures var w := SplitRun(nodes, Deployed(nodes, clock), ps);
      w.cut == {} && (GuardPasses(w.sys.rows, w.sys.held[i].value, w.clock) <==> TermOf(w.sys.held[i].value) !in w.burnt)
  {
    CutNoneFrom(nodes, Deployed(nodes, clock), ps);
    LeaderPassesExactly(nodes, clock, ps, i);
  }

  function TwoNodes(): seq<Node> { [Node("role", "a", 10), Node("role", "b", 10)] }

  lemma {:induction false} FourParts(nodes: seq<Node>, w: Deployment, a: Part, b: Part, c: Part, d: Part, rest: seq<Part>)
    requires |w.sys.held| == |nodes|
    ensures SplitRun(nodes, w, [a, b, c, d] + rest) == SplitRun(nodes, Split(nodes, Split(nodes, Split(nodes, Split(nodes, w, a), b), c), d), rest)
  {
    var ps := [a, b, c, d] + rest;
    assert ps[1..][1..][1..][1..] == rest && ps[1..][1..][1..][0] == d && ps[1..][1..][0] == c && ps[1..][0] == b;
    var w1 := Split(nodes, w, a);
    var w2 := Split(nodes, w1, b);
    assert SplitRun(nodes, w, ps) == SplitRun(nodes, w1, ps[1..]);
    assert SplitRun(nodes, w1, ps[1..]) == SplitRun(nodes, w2, ps[1..][1..]);
    assert SplitRun(nodes, w2, ps[1..][1..]) == SplitRun(nodes, Split(nodes, w2, c), ps[1..][1..][1..]);
  }

  /** Node `a` has acquired but not yet assigned what it got when it releases. */
  lemma {:induction false} LateAcquire(w: Deployment)
    requires w == Deployed(TwoNodes(), 0)
    ensures var nodes := TwoNodes();
      var r := Split(nodes, Split(nodes, Split(nodes, Split(nodes, w, BeginAcquire(0, 0, 0)), BeginRelease(1, 0)), Finish(1)), Pass(1));
      && r.sys.rows == map["role" := Row("a", 2, 0)] && r.sys.held == [None, None]
      && r.sys.owed == map[0 := Owed(0, Some(FencedOperation("role", "a", 1, 10)))]
      && r.clock == 1 && r.burnt == {Term("role", 1)} && r.cut == {}
  {
    var nodes := TwoNodes();
    var w1 := Split(nodes, w, BeginAcquire(0, 0, 0));
    assert w1.sys.rows == map["role" := Row("a", 1, 10)] && w1.cut == {};
    var w2 := Split(nodes, w1, BeginRelease(1, 0));
    assert w2.sys.rows == map["role" := Row("a", 2, 0)] && w2.burnt == {Term("role", 1)};
    var w3 := Split(nodes, w2, Finish(1));
    assert w3.sys.owed == w1.sys.owed && w3.sys.held == [None, None];
  }

  lemma {:induction false} LateTakeover(w: Deployment)
    requires w.sys.rows == map["role" := Row("a", 2, 0)] && w.sys.held == [None, None] && w.clock == 1
    requires w.sys.owed == map[0 := Owed(0, Some(FencedOperation("role", "a", 1, 10)))]
    ensures var nodes := TwoNodes();
      var r := Split(nodes, Split(nodes, Split(nodes, Split(nodes, w, BeginAcquire(2, 1, 1)), Finish(2)), Finish(0)), Pass(1));
      && r.sys.rows == map["role" := Row("b", 3, 11)] && r.sys.owed == map[]
      && r.sys.held == [Some(FencedOperation("role", "a", 1, 10)), Some(FencedOperation("role", "b", 3, 11))]
      && r.clock == 2 && r.burnt == w.burnt && r.cut == w.cut
  {
    var nodes := TwoNodes();
    var w1 := Split(nodes, w, BeginAcquire(2, 1, 1));
    assert w1.sys.rows == map["role" := Row("b", 3, 11)];
    var w2 := Split(nodes, w1, Finish(2));
    assert w2.sys.owed == w.sys.owed;
    var w3 := Split(nodes, w2, Finish(0));
    assert w3.sys.owed == map[];
  }

  /** Both nodes lead and no call is outstanding; the guard refuses the first and accepts the second. */
  predicate Overlapping(w: Deployment)
    requires |w.sys.held| == 2
  {
    && IsLeader(w.sys, 0, w.clock) && IsLeader(w.sys, 1, w.clock) && w.sys.owed == map[]
    && !GuardPasses(w.sys.rows, w.sys.held[0].value, w.clock) && GuardPasses(w.sys.rows, w.sys.held[1].value, w.clock)
  }

  /**
   * An acquire in flight when the node stops: its assignment comes after the release and
   * after another node's takeover, and both lead, the first under a burnt term.
   */
  lemma {:induction false} LateAssignmentOverlaps()
    ensures
      var w := SplitRun(TwoNodes(), Deployed(TwoNodes(), 0),
                        [BeginAcquire(0, 0, 0), BeginRelease(1, 0), Finish(1), Pass(1)]
                        + [BeginAcquire(2, 1, 1), Finish(2), Finish(0), Pass(1)]);
      Overlapping(w) && w.burnt == {Term("role", 1)} && w.cut == {}
  {
    var nodes, w := TwoNodes(), Deployed(TwoNodes(), 0);
    var rest := [BeginAcquire(2, 1, 1), Finish(2), Finish(0), Pass(1)];
    FourParts(nodes, w, BeginAcquire(0, 0, 0), BeginRelease(1, 0), Finish(1), Pass(1), rest);
    LateAcquire(w);
    var mid := Split(nodes, Split(nodes, Split(nodes, Split(nodes, w, BeginAcquire(0, 0, 0)), BeginRelease(1, 0)), Finish(1)), Pass(1));
    assert rest == rest + [];
    FourParts(nodes, mid, BeginAcquire(2, 1, 1), Finish(2), Finish(0), Pass(1), []);
    LateTakeover(mid);
  }

  /** One call of node `a` reads the clock at 1, another at 5; the transaction of the later reading comes first. */
  lemma {:induction false} StaleRenewal(w: Deployment)
    requires w == Deployed(TwoNodes(), 5)
    ensures var nodes := TwoNodes();
      var r := Split(nodes, Split(nodes, Split(nodes, Split(nodes, w, BeginAcquire(0, 0, 5)), BeginAcquire(1, 0, 1)), Finish(1)), Finish(0));
      && r.sys.rows == map["role" := Row("a", 1, 11)]
      && r.sys.held == [Some(FencedOperation("role", "a", 1, 15)), None] && r.sys.owed == map[]
      && r.clock == 5 && r.burnt == {} && r.cut == {Term("role", 1)}
  {
    var nodes := TwoNodes();
    var w1 := Split(nodes, w, BeginAcquire(0, 0, 5));
    assert w1.sys.rows == map["role" := Row("a", 1, 15)] && w1.cut == {};
    var w2 := Split(nodes, w1, BeginAcquire(1, 0, 1));
    assert w2.sys.rows == map["role" := Row("a", 1, 11)] && w2.cut == {Term("role", 1)};
    var w3 := Split(nodes, w2, Finish(1));
    assert w3.sys.owed == w1.sys.owed;
    var w4 := Split(nodes, w3, Finish(0));
    assert w4.sys.owed == map[];
  }

  lemma {:induction false} StaleTakeover(w: Deployment)
    requires w.sys.rows == map["role" := Row("a", 1, 11)] && w.sys.owed == map[] && w.clock == 5
    requires w.sys.held == [Some(FencedOperation("role", "a", 1, 15)), None]
    ensures var nodes := TwoNodes();
      var r := Split(nodes, Split(nodes, Split(nodes, Split(nodes, w, Pass(6)), BeginAcquire(2, 1, 11)), Finish(2)), Pass(1));
      && r.sys.rows == map["role" := Row("b", 2, 21)] && r.sys.owed == map[]
      && r.sys.held == [Some(FencedOperation("role", "a", 1, 15)), Some(FencedOperation("role", "b", 2, 21))]
      && r.clock == 12 && r.burnt == w.burnt && r.cut == w.cut
  {
    var nodes := TwoNodes();
    var w1 := Split(nodes, w, Pass(6));
    var w2 := Split(nodes, w1, BeginAcquire(2, 1, 11));
    assert w2.sys.rows == map["role" := Row("b", 2, 21)];
    var w3 := Split(nodes, w2, Finish(2));
    assert w3.sys.owed == map[];
  }

  /** Readings out of order: the older one cuts the term, another node takes over, and both lead though nobody released. */
  lemma {:induction false} StaleReadingOverlaps()
    ensures
      var w := SplitRun(TwoNodes(), Deployed(TwoNodes(), 5),
                        [BeginAcquire(0, 0, 5), BeginAcquire(1, 0, 1), Finish(1), Finish(0)]
                        + [Pass(6), BeginAcquire(2, 1, 11), Finish(2), Pass(1)]);
      Overlapping(w) && w.burnt == {} && w.cut == {Term("role", 1)}
  {
    var nodes, w := TwoNodes(), Deployed(TwoNodes(), 5);
    var rest := [Pass(6), BeginAcquire(2, 1, 11), Finish(2), Pass(1)];
    FourParts(nodes, w, BeginAcquire(0, 0, 5), BeginAcquire(1, 0, 1), Finish(1), Finish(0), rest);
    StaleRenewal(w);
    var mid := Split(nodes, Split(nodes, Split(nodes, Split(nodes, w, BeginAcquire(0, 0, 5)), BeginAcquire(1, 0, 1)), Finish(1)), Finish(0));
    assert rest == rest + [];
    FourParts(nodes, mid, Pass(6), BeginAcquire(2, 1, 11), Finish(2), Pass(1), []);
    StaleTakeover(mid);
  }
}
