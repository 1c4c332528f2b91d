/**
 * Accounting in the registry of live push channels (fasp_harness/channels.py): connections,
 * reservations of scheduled sends, and the byte budget, under every interleaving of its
 * locked sections.
 */
module Channels {
  import opened Common

  type Peer = string

  /** A connection object, by identity. */
  type Conn = nat

  /** A send that was scheduled and whose reservation has not been released. */
  datatype Send = Send(peer: Peer, conn: Conn, size: nat)

  datatype Limits = Limits(maxConnections: nat, maxPerPeer: nat, maxPending: nat, maxPendingBytes: nat)

  type Connections = map<Peer, set<Conn>>

  /** The registry's fields, and the sends that its coroutines still hold. */
  datatype Registry = Registry(
    connections: Connections, pending: map<Conn, nat>, locks: set<Conn>, pendingBytes: int, dropped: nat,
    outstanding: seq<Send>)

  function Empty(): Registry { Registry(map[], map[], {}, 0, 0, []) }

  function ConnsOf(cs: Connections, peer: Peer): set<Conn> { if peer in cs then cs[peer] else {} }

  predicate In(cs: Connections, peer: Peer, c: Conn) { c in ConnsOf(cs, peer) }

  // ---------------------------------------------------------------------------------
  // The locked sections.

  predicate Admits(limits: Limits, r: Registry, peer: Peer, c: Conn) {
    c !in r.pending && |r.pending| < limits.maxConnections && |ConnsOf(r.connections, peer)| < limits.maxPerPeer
  }

  function RegisterStep(limits: Limits, r: Registry, peer: Peer, c: Conn): (Registry, bool) {
    if In(r.connections, peer, c) then (r, true)
    else if !Admits(limits, r, peer, c) then (r, false)
    else (r.(connections := r.connections[peer := ConnsOf(r.connections, peer) + {c}],
             pending := r.pending[c := 0], locks := r.locks + {c}), true)
  }

  function Discarded(cs: Connections, peer: Peer, c: Conn): Connections {
    if peer !in cs then cs
    else if cs[peer] - {c} == {} then cs - {peer}
    else cs[peer := cs[peer] - {c}]
  }

  predicate Idle(r: Registry, c: Conn) { c !in r.pending || r.pending[c] == 0 }

  function Forgotten(r: Registry, c: Conn): Registry { r.(pending := r.pending - {c}, locks := r.locks - {c}) }

  function UnregisterStep(r: Registry, peer: Peer, c: Conn): Registry {
    if peer !in r.connections then r else
    var q := if Idle(r, c) then Forgotten(r, c) else r;
    q.(connections := Discarded(r.connections, peer, c))
  }

  /** A registered connection without a pending entry would raise; the invariant rules it out. */
  predicate Full(limits: Limits, r: Registry, c: Conn, size: nat) {
    c !in r.pending || r.pending[c] >= limits.maxPending || r.pendingBytes + size > limits.maxPendingBytes
  }

  function ReserveOne(limits: Limits, r: Registry, peer: Peer, c: Conn, size: nat): Registry {
    if Full(limits, r, c, size) then r.(dropped := r.dropped + 1)
    else r.(pending := r.pending[c := r.pending[c] + 1], pendingBytes := r.pendingBytes + size,
            outstanding := r.outstanding + [Send(peer, c, size)])
  }

  /** The loop of `push` over the peer's connections, in whatever order the set yields them. */
  function ReserveEach(limits: Limits, r: Registry, peer: Peer, order: seq<Conn>, size: nat): Registry
    decreases |order|
  {
    if order == [] then r
    else ReserveOne(limits, ReserveEach(limits, r, peer, order[..|order| - 1], size), peer, order[|order| - 1], size)
  }

  ghost predicate Lists(order: seq<Conn>, cs: set<Conn>) {
    && (forall c :: c in order <==> c in cs)
    && (forall i, j :: 0 <= i < j < |order| ==> order[i] != order[j])
  }

  function RemoveAt(out: seq<Send>, i: nat): seq<Send>
    requires i < |out|
  {
    out[..i] + out[i + 1..]
  }

  predicate Releasable(r: Registry, i: nat) {
    i < |r.outstanding| && r.outstanding[i].conn in r.pending && r.pending[r.outstanding[i].conn] > 0
  }

  function ReleaseStep(r: Registry, i: nat): Registry
    requires Releasable(r, i)
  {
    var s := r.outstanding[i];
    var q := r.(pending := r.pending[s.conn := r.pending[s.conn] - 1], pendingBytes := r.pendingBytes - s.size,
                outstanding := RemoveAt(r.outstanding, i));
    if q.pending[s.conn] == 0 && !In(r.connections, s.peer, s.conn) then Forgotten(q, s.conn) else q
  }

  // ---------------------------------------------------------------------------------
  // Counting.

  function Count(out: seq<Send>, c: Conn): nat {
    if out == [] then 0
    else Count(out[..|out| - 1], c) + (if out[|out| - 1].conn == c then 1 else 0)
  }

  function Bytes(out: seq<Send>): nat {
    if out == [] then 0 else Bytes(out[..|out| - 1]) + out[|out| - 1].size
  }

  lemma {:induction false} CountAfter(out: seq<Send>, s: Send)
    ensures Bytes(out + [s]) == Bytes(out) + s.size
    ensures forall c :: Count(out + [s], c) == Count(out, c) + (if s.conn == c then 1 else 0)
  {
    assert (out + [s])[..|out|] == out;
  }

  lemma {:induction false} RemoveAtLast(out: seq<Send>, i: nat)
    requires i < |out| - 1
    ensures RemoveAt(out, i) == RemoveAt(out[..|out| - 1], i) + [out[|out| - 1]]
  {
  }

  lemma {:induction false} CountRemoved(out: seq<Send>, i: nat, c: Conn)
    requires i < |out|
    ensures Count(RemoveAt(out, i), c) + (if out[i].conn == c then 1 else 0) == Count(out, c)
    ensures Bytes(RemoveAt(out, i)) + out[i].size == Bytes(out)
    decreases |out|
  {
    if i < |out| - 1 {
      RemoveAtLast(out, i);
      CountRemoved(out[..|out| - 1], i, c);
      CountAfter(RemoveAt(out[..|out| - 1], i), out[|out| - 1]);
    } else {
      assert RemoveAt(out, i) == out[..i];
    }
  }

  lemma {:induction false} CountedIsThere(out: seq<Send>, i: nat)
    requires i < |out|
    ensures Count(out, out[i].conn) > 0
  {
    CountRemoved(out, i, out[i].conn);
  }

  // ---------------------------------------------------------------------------------
  // The invariant.

  /** Which connections are known and whose they are. */
  ghost predicate Structure(limits: Limits, r: Registry) {
    && r.locks == r.pending.Keys && |r.pending| <= limits.maxConnections
    && (forall p :: p in r.connections ==> r.connections[p] != {} && |r.connections[p]| <= limits.maxPerPeer)
    && (forall p, c :: In(r.connections, p, c) ==> c in r.pending)
    && (forall p, q, c :: In(r.connections, p, c) && In(r.connections, q, c) ==> p == q)
  }

  ghost predicate Live(cs: Connections, c: Conn) { exists p :: In(cs, p, c) }

  /** What is reserved and for whom. */
  ghost predicate Accounts(limits: Limits, r: Registry) {
    && (forall c :: c in r.pending ==> r.pending[c] == Count(r.outstanding, c) <= limits.maxPending)
    && (forall i :: 0 <= i < |r.outstanding| ==> r.outstanding[i].conn in r.pending)
    && r.pendingBytes == Bytes(r.outstanding) <= limits.maxPendingBytes
    && (forall c :: c in r.pending && r.pending[c] == 0 ==> Live(r.connections, c))
    && (forall i, p :: 0 <= i < |r.outstanding| && In(r.connections, p, r.outstanding[i].conn) ==>
          p == r.outstanding[i].peer)
  }

  ghost predicate Inv(limits: Limits, r: Registry) { Structure(limits, r) && Accounts(limits, r) }

  /** The caller names the peer that registered the connection, if anyone has. */
  ghost predicate Rightful(r: Registry, peer: Peer, c: Conn) {
    forall p :: In(r.connections, p, c) ==> p == peer
  }

  lemma {:induction false} RegisterKeeps(limits: Limits, r: Registry, peer: Peer, c: Conn)
    requires Inv(limits, r)
    ensures var (after, ok) := RegisterStep(limits, r, peer, c);
      && Inv(limits, after) && after.outstanding == r.outstanding && after.pendingBytes == r.pendingBytes
      && ok == In(after.connections, peer, c)
  {
    if !In(r.connections, peer, c) && Admits(limits, r, peer, c) {
      var after := RegisterStep(limits, r, peer, c).0;
      RegisteredIs(limits, r, peer, c);
      RegisteredStructure(limits, r, peer, c);
      NotCounted(r.outstanding, c);
      RegisteredAccounts(limits, r, after, peer, c);
    }
  }

  lemma {:induction false} RegisteredIs(limits: Limits, r: Registry, peer: Peer, c: Conn)
    requires !In(r.connections, peer, c) && Admits(limits, r, peer, c)
    ensures var after := RegisterStep(limits, r, peer, c).0;
      forall p, d :: In(after.connections, p, d) <==> In(r.connections, p, d) || (p == peer && d == c)
  {
  }

  lemma {:induction false} RegisteredStructure(limits: Limits, r: Registry, peer: Peer, c: Conn)
    requires Structure(limits, r) && !In(r.connections, peer, c) && Admits(limits, r, peer, c)
    ensures Structure(limits, RegisterStep(limits, r, peer, c).0)
  {
    var after := RegisterStep(limits, r, peer, c).0;
    RegisteredIs(limits, r, peer, c);
    assert after.pending.Keys == r.pending.Keys + {c};
  }

  lemma {:induction false} RegisteredAccounts(limits: Limits, r: Registry, after: Registry, peer: Peer, c: Conn)
    requires Accounts(limits, r) && c !in r.pending && Count(r.outstanding, c) == 0
    requires after.pending == r.pending[c := 0] && after.outstanding == r.outstanding && after.pendingBytes == r.pendingBytes
    requires forall p, d :: In(after.connections, p, d) <==> In(r.connections, p, d) || (p == peer && d == c)
    ensures Accounts(limits, after)
  {
    forall d | d in after.pending && after.pending[d] == 0 ensures Live(after.connections, d) {
      if d == c {
        assert In(after.connections, peer, c);
      } else {
        var p :| In(r.connections, p, d);
        assert In(after.connections, p, d);
      }
    }
  }

  lemma {:induction false} NotCounted(out: seq<Send>, c: Conn)
    requires forall i :: 0 <= i < |out| ==> out[i].conn != c
    ensures Count(out, c) == 0
  {
    if out != [] {
      NotCounted(out[..|out| - 1], c);
    }
  }

  lemma {:induction false} DiscardedIs(cs: Connections, peer: Peer, c: Conn)
    ensures forall p, d :: In(Discarded(cs, peer, c), p, d) <==> In(cs, p, d) && !(p == peer && d == c)
    ensures forall p :: p in Discarded(cs, peer, c) ==> p in cs && |Discarded(cs, peer, c)[p]| <= |cs[p]|
    ensures (forall p :: p in cs ==> cs[p] != {}) ==> forall p :: p in Discarded(cs, peer, c) ==> Discarded(cs, peer, c)[p] != {}
  {
  }

  lemma {:induction false} UnregisterStructure(limits: Limits, r: Registry, peer: Peer, c: Conn)
    requires Structure(limits, r) && Rightful(r, peer, c)
    ensures Structure(limits, UnregisterStep(r, peer, c))
  {
    DiscardedIs(r.connections, peer, c);
    assert (r.pending - {c}).Keys == r.pending.Keys - {c};
  }

  lemma {:induction false} UnregisterAccounts(limits: Limits, r: Registry, peer: Peer, c: Conn)
    requires Accounts(limits, r) && Rightful(r, peer, c)
    ensures Accounts(limits, UnregisterStep(r, peer, c))
  {
    var after := UnregisterStep(r, peer, c);
    DiscardedIs(r.connections, peer, c);
    forall i | 0 <= i < |r.outstanding| ensures r.outstanding[i].conn in after.pending {
      CountedIsThere(r.outstanding, i);
    }
    forall d | d in after.pending && after.pending[d] == 0 ensures Live(after.connections, d) {
      var p :| In(r.connections, p, d);
      assert In(after.connections, p, d);
    }
  }

  /** Unregistering by the right peer: nothing reserved is freed. */
  lemma {:induction false} UnregisterKeeps(limits: Limits, r: Registry, peer: Peer, c: Conn)
    requires Inv(limits, r) && Rightful(r, peer, c)
    ensures var after := UnregisterStep(r, peer, c);
      && Inv(limits, after) && after.outstanding == r.outstanding && after.pendingBytes == r.pendingBytes
      && !In(after.connections, peer, c)
  {
    UnregisterStructure(limits, r, peer, c);
    UnregisterAccounts(limits, r, peer, c);
    DiscardedIs(r.connections, peer, c);
  }

  /**
   * Naming another peer.  The registry survives it exactly when that peer has no channel or
   * the connection has sends in flight; otherwise a registered connection loses its
   * reservation entry and the owner's next push fails on it.
   */
  lemma {:induction false} ForeignUnregisterIsSafeExactly(limits: Limits, r: Registry, owner: Peer, peer: Peer, c: Conn)
    requires Inv(limits, r) && In(r.connections, owner, c) && peer != owner
    ensures Inv(limits, UnregisterStep(r, peer, c)) <==> peer !in r.connections || r.pending[c] > 0
  {
    var after := UnregisterStep(r, peer, c);
    DiscardedIs(r.connections, peer, c);
    if peer in r.connections {
      assert !In(r.connections, peer, c);
      assert r.connections[peer] - {c} == r.connections[peer] != {};
      assert after.connections == r.connections;
      if r.pending[c] == 0 {
        assert In(after.connections, owner, c) && c !in after.pending;
      } else {
        assert after == r;
      }
    }
  }

  lemma {:induction false} ReserveOneKeeps(limits: Limits, r: Registry, peer: Peer, c: Conn, size: nat)
    requires Inv(limits, r) && In(r.connections, peer, c)
    ensures var after := ReserveOne(limits, r, peer, c, size);
      && Inv(limits, after) && after.connections == r.connections
      && after.dropped + |after.outstanding| == r.dropped + |r.outstanding| + 1
  {
    CountAfter(r.outstanding, Send(peer, c, size));
    var after := ReserveOne(limits, r, peer, c, size);
    assert after.pending.Keys == r.pending.Keys;
    forall d | d in after.pending && after.pending[d] == 0 ensures Live(after.connections, d) {
      assert d in r.pending && r.pending[d] == 0;
    }
    ReservedAccounts(limits, r, peer, c, size);
  }

  lemma {:induction false} ReservedAccounts(limits: Limits, r: Registry, peer: Peer, c: Conn, size: nat)
    requires Inv(limits, r) && In(r.connections, peer, c)
    ensures Accounts(limits, ReserveOne(limits, r, peer, c, size))
  {
    var after := ReserveOne(limits, r, peer, c, size);
    if !Full(limits, r, c, size) {
      CountAfter(r.outstanding, Send(peer, c, size));
      assert forall i :: 0 <= i < |r.outstanding| ==> after.outstanding[i] == r.outstanding[i];
      assert after.outstanding[|r.outstanding|] == Send(peer, c, size);
    }
  }

  /** A push either reserves or drops, once for every connection of the peer. */
  lemma {:induction false} ReserveEachKeeps(limits: Limits, r: Registry, peer: Peer, order: seq<Conn>, size: nat)
    requires Inv(limits, r) && forall c :: c in order ==> In(r.connections, peer, c)
    ensures var after := ReserveEach(limits, r, peer, order, size);
      && Inv(limits, after) && after.connections == r.connections
      && after.dropped + |after.outstanding| == r.dropped + |r.outstanding| + |order|
    decreases |order|
  {
    if order != [] {
      var before := order[..|order| - 1];
      ReserveEachKeeps(limits, r, peer, before, size);
      assert order[|order| - 1] in order;
      ReserveOneKeeps(limits, ReserveEach(limits, r, peer, before, size), peer, order[|order| - 1], size);
    }
  }

  /** Releasing is always possible, frees exactly what the send reserved, and never forgets a live connection. */
  lemma {:induction false} ReleaseKeeps(limits: Limits, r: Registry, i: nat)
    requires Inv(limits, r) && i < |r.outstanding|
    ensures Releasable(r, i) && Inv(limits, ReleaseStep(r, i))
  {
    CountedIsThere(r.outstanding, i);
    ReleaseStructure(limits, r, i);
    ReleaseAccounts(limits, r, i);
  }

  lemma {:induction false} ReleaseStructure(limits: Limits, r: Registry, i: nat)
    requires Inv(limits, r) && Releasable(r, i)
    ensures Structure(limits, ReleaseStep(r, i))
  {
    var s := r.outstanding[i];
    var q := r.pending[s.conn := r.pending[s.conn] - 1];
    assert q.Keys == r.pending.Keys;
    assert (q - {s.conn}).Keys == r.pending.Keys - {s.conn};
  }

  lemma {:induction false} ReleaseAccounts(limits: Limits, r: Registry, i: nat)
    requires Inv(limits, r) && Releasable(r, i)
    ensures Accounts(limits, ReleaseStep(r, i))
  {
    var s, after := r.outstanding[i], ReleaseStep(r, i);
    forall c ensures Count(after.outstanding, c) + (if s.conn == c then 1 else 0) == Count(r.outstanding, c) {
      CountRemoved(r.outstanding, i, c);
    }
    CountRemoved(r.outstanding, i, s.conn);
    forall j | 0 <= j < |after.outstanding| ensures after.outstanding[j] in r.outstanding && after.outstanding[j].conn in after.pending {
      CountedIsThere(after.outstanding, j);
    }
    forall c | c in after.pending && after.pending[c] == 0 ensures Live(after.connections, c) {
      if c == s.conn {
        assert In(r.connections, s.peer, c);
      }
    }
  }

  // ---------------------------------------------------------------------------------
  // Whole runs.

  /**
   * `FailSend`: a scheduled send fails and unregisters its connection; `Finish`: its
   * reservation is released (in its `finally` block, or at once when scheduling failed).
   * Sends finish in any order and any time later.
   */
  datatype Event =
    | Register(peer: Peer, conn: Conn)
    | Unregister(peer: Peer, conn: Conn)
    | Push(peer: Peer, size: nat, order: seq<Conn>)
    | FailSend(i: nat)
    | Finish(i: nat)

  /** Callers unregister what their peer registered; the rest follows from the invariant. */
  ghost predicate Enabled(r: Registry, e: Event) {
    match e
    case Register(_, _) => true
    case Unregister(peer, c) => Rightful(r, peer, c)
    case Push(peer, _, order) => Lists(order, ConnsOf(r.connections, peer))
    case FailSend(i) => i < |r.outstanding|
    case Finish(i) => i < |r.outstanding|
  }

  /** A release of a connection without reservations would raise; no run comes to that. */
  function Perform(limits: Limits, r: Registry, e: Event): Registry {
    match e
    case Register(peer, c) => RegisterStep(limits, r, peer, c).0
    case Unregister(peer, c) => UnregisterStep(r, peer, c)
    case Push(peer, size, order) => ReserveEach(limits, r, peer, order, size)
    case FailSend(i) =>
      if i < |r.outstanding| then UnregisterStep(r, r.outstanding[i].peer, r.outstanding[i].conn) else r
    case Finish(i) => if Releasable(r, i) then ReleaseStep(r, i) else r
  }

  lemma {:induction false} PerformKeeps(limits: Limits, r: Registry, e: Event)
    requires Inv(limits, r) && Enabled(r, e)
    ensures Inv(limits, Perform(limits, r, e))
  {
    match e
    case Register(peer, c) => RegisterKeeps(limits, r, peer, c);
    case Unregister(peer, c) => UnregisterKeeps(limits, r, peer, c);
    case Push(peer, size, order) => ReserveEachKeeps(limits, r, peer, order, size);
    case FailSend(i) => UnregisterKeeps(limits, r, r.outstanding[i].peer, r.outstanding[i].conn);
    case Finish(i) => ReleaseKeeps(limits, r, i);
  }

  /** A run, event by event: `states[k]` is the registry before event `k`. */
  ghost predicate IsRun(limits: Limits, states: seq<Registry>, es: seq<Event>) {
    && |states| == |es| + 1 && states[0] == Empty()
    && forall k :: 0 <= k < |es| ==> Enabled(states[k], es[k]) && Perform(limits, states[k], es[k]) == states[k + 1]
  }

  lemma {:induction false} EmptyIsFine(limits: Limits)
    ensures Inv(limits, Empty())
  {
  }

  /**
   * Accounting.  In every state of every run: each connection's pending count is its number
   * of outstanding sends, the byte counter is the sum of their sizes, the pending and lock
   * maps have the same keys, and the four configured bounds hold.
   */
  lemma {:induction false} AccountingTheorem(limits: Limits, states: seq<Registry>, es: seq<Event>, k: nat)
    requires IsRun(limits, states, es) && k <= |es|
    ensures Inv(limits, states[k])
    ensures k < |es| && es[k].Finish? ==> Releasable(states[k], es[k].i)
  {
    if k == 0 {
      EmptyIsFine(limits);
    } else {
      AccountingTheorem(limits, states, es, k - 1);
      PerformKeeps(limits, states[k - 1], es[k - 1]);
    }
    if k < |es| && es[k].Finish? {
      assert Enabled(states[k], es[k]);
      ReleaseKeeps(limits, states[k], es[k].i);
    }
  }

  function OneIdle(): Registry { Registry(map["a" := {0}], map[0 := 0], {0}, 0, 0, []) }

  function TwoIdle(): Registry { Registry(map["a" := {0}, "b" := {1}], map[0 := 0, 1 := 0], {0, 1}, 0, 0, []) }

  lemma {:induction false} RegisterTwo(limits: Limits)
    requires limits.maxConnections >= 2 && limits.maxPerPeer >= 1
    ensures RegisterStep(limits, Empty(), "a", 0).0 == OneIdle()
    ensures RegisterStep(limits, OneIdle(), "b", 1).0 == TwoIdle()
  {
  }

  lemma {:induction false} EntryLost(r: Registry)
    requires r == UnregisterStep(TwoIdle(), "b", 0)
    ensures In(r.connections, "a", 0) && 0 !in r.pending
  {
  }

  /** Two peers that register one channel each are enough: a channel of the one loses its entry. */
  lemma {:induction false} ForeignUnregisterBreaks(limits: Limits)
    requires limits.maxConnections >= 2 && limits.maxPerPeer >= 1
    ensures IsRun(limits, [Empty(), OneIdle(), TwoIdle()], [Register("a", 0), Register("b", 1)])
    ensures var after := UnregisterStep(TwoIdle(), "b", 0);
      In(after.connections, "a", 0) && 0 !in after.pending && !Inv(limits, after)
  {
    RegisterTwo(limits);
    EntryLost(UnregisterStep(TwoIdle(), "b", 0));
  }

  /**
   * Budget is freed only by the send that took it: whatever peers do, the byte counter falls
   * only in a `Finish`, and then by the size of that very send.
   */
  lemma {:induction false} OnlyFinishFreesBudget(limits: Limits, states: seq<Registry>, es: seq<Event>, k: nat)
    requires IsRun(limits, states, es) && k < |es|
    ensures states[k + 1].pendingBytes ==
      (match es[k]
       case Finish(i) => states[k].pendingBytes - states[k].outstanding[i].size
       case Push(_, _, _) => Bytes(states[k + 1].outstanding)
       case Register(_, _) => states[k].pendingBytes
       case Unregister(_, _) => states[k].pendingBytes
       case FailSend(_) => states[k].pendingBytes)
    ensures es[k].Push? ==> states[k].outstanding <= states[k + 1].outstanding
  {
    AccountingTheorem(limits, states, es, k);
    AccountingTheorem(limits, states, es, k + 1);
    var r, e := states[k], es[k];
    assert Enabled(r, e) && Perform(limits, r, e) == states[k + 1];
    match e
    case Push(peer, size, order) => ReserveEachExtends(limits, r, peer, order, size);
    case Register(peer, c) =>
    case Unregister(peer, c) =>
    case FailSend(i) =>
    case Finish(i) => ReleaseKeeps(limits, r, i);
  }

  lemma {:induction false} ReserveEachExtends(limits: Limits, r: Registry, peer: Peer, order: seq<Conn>, size: nat)
    ensures r.outstanding <= ReserveEach(limits, r, peer, order, size).outstanding
    decreases |order|
  {
    if order != [] {
      ReserveEachExtends(limits, r, peer, order[..|order| - 1], size);
    }
  }

  // ---------------------------------------------------------------------------------
  // The registry object.

  class ConnectionRegistry {
    const limits: Limits
    var connections: Connections
    var pending: map<Conn, nat>
    var locks: set<Conn>
    var pendingBytes: int
    var dropped: nat
    ghost var outstanding: seq<Send>

    ghost function View(): Registry
      reads this
    {
      Registry(connections, pending, locks, pendingBytes, dropped, outstanding)
    }

    constructor (limits: Limits)
      ensures this.limits == limits && View() == Empty()
    {
      this.limits := limits;
      connections, pending, locks, pendingBytes, dropped, outstanding := map[], map[], {}, 0, 0, [];
    }

    method RegisterChannel(peer: Peer, c: Conn) returns (ok: bool)
      modifies this
      ensures (View(), ok) == RegisterStep(limits, old(View()), peer, c)
    {
      var live := ConnsOf(connections, peer);
      if c in live { return true; }
      if c in pending { return false; }
      if |pending| >= limits.maxConnections || |live| >= limits.maxPerPeer { return false; }
      connections := connections[peer := live + {c}];
      pending := pending[c := 0];
      locks := locks + {c};
      return true;
    }

    method UnregisterChannel(peer: Peer, c: Conn)
      modifies this
      ensures View() == UnregisterStep(old(View()), peer, c)
    {
      if peer !in connections { return; }
      var live := connections[peer] - {c};
      connections := connections[peer := live];
      if c !in pending || pending[c] == 0 {
        pending := pending - {c};
        locks := locks - {c};
      }
      if live == {} {
        connections := connections - {peer};
        assert connections == old(connections) - {peer};
      }
    }

    /** Every connection of the peer goes; no other peer is touched and no reservation is freed. */
    method Disconnect(peer: Peer)
      requires Inv(limits, View())
      modifies this
      ensures Inv(limits, View())
      ensures forall p, c :: In(connections, p, c) <==> In(old(connections), p, c) && p != peer
      ensures outstanding == old(outstanding) && pendingBytes == old(pendingBytes)
    {
      var targets := ConnsOf(connections, peer);
      while targets != {}
        invariant Inv(limits, View())
        invariant forall p, c :: In(connections, p, c) <==> In(old(connections), p, c) && (p == peer ==> c in targets)
        invariant targets <= ConnsOf(old(connections), peer)
        invariant outstanding == old(outstanding) && pendingBytes == old(pendingBytes)
        decreases |targets|
      {
        var c :| c in targets;
        assert In(connections, peer, c);
        UnregisterKeeps(limits, View(), peer, c);
        DiscardedIs(connections, peer, c);
        UnregisterChannel(peer, c);
        targets := targets - {c};
      }
    }

    method ReserveFor(peer: Peer, c: Conn, size: nat) returns (reserved: bool)
      requires c in pending
      modifies this
      ensures View() == ReserveOne(limits, old(View()), peer, c, size)
      ensures reserved <==> !Full(limits, old(View()), c, size)
      ensures pending.Keys == old(pending).Keys && connections == old(connections)
    {
      if pending[c] >= limits.maxPending || pendingBytes + size > limits.maxPendingBytes {
        dropped := dropped + 1;
        return false;
      }
      pending := pending[c := pending[c] + 1];
      pendingBytes := pendingBytes + size;
      outstanding := outstanding + [Send(peer, c, size)];
      return true;
    }

    /** The locked section of `push`: true when at least one send was reserved. */
    method Reserve(peer: Peer, size: nat) returns (scheduled: bool, ghost order: seq<Conn>)
      requires ConnsOf(connections, peer) <= pending.Keys
      modifies this
      ensures Lists(order, ConnsOf(old(connections), peer))
      ensures View() == ReserveEach(limits, old(View()), peer, order, size)
      ensures scheduled <==> |outstanding| > |old(outstanding)|
    {
      var rest := ConnsOf(connections, peer);
      order, scheduled := [], false;
      ghost var all := rest;
      while rest != {}
        invariant rest <= all <= pending.Keys
        invariant Lists(order, all - rest)
        invariant View() == ReserveEach(limits, old(View()), peer, order, size)
        invariant |outstanding| >= |old(outstanding)| && (scheduled <==> |outstanding| > |old(outstanding)|)
        decreases |rest|
      {
        var c :| c in rest;
        ListsMore(order, all - rest, c);
        assert all - rest + {c} == all - (rest - {c});
        rest := rest - {c};
        var reserved := ReserveFor(peer, c, size);
        scheduled := scheduled || reserved;
        assert (order + [c])[..|order|] == order;
        order := order + [c];
      }
    }

    /** `_release`, by the send at place `i` among those outstanding. */
    method Release(peer: Peer, c: Conn, size: nat, ghost i: nat)
      requires Releasable(View(), i) && outstanding[i] == Send(peer, c, size)
      modifies this
      ensures Releasable(old(View()), i) && View() == ReleaseStep(old(View()), i)
    {
      pending := pending[c := pending[c] - 1];
      pendingBytes := pendingBytes - size;
      outstanding := RemoveAt(outstanding, i);
      if pending[c] == 0 && c !in ConnsOf(connections, peer) {
        pending := pending - {c};
        locks := locks - {c};
      }
    }
  }

  lemma {:induction false} ListsMore(order: seq<Conn>, cs: set<Conn>, c: Conn)
    requires Lists(order, cs) && c !in cs
    ensures Lists(order + [c], cs + {c})
  {
  }
}
