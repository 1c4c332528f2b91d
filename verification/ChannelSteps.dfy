/**
 * What each locked section of the registry does (fasp_harness/channels.py), stated on its
 * fields: who is admitted, which connections a push reserves and which it drops, and what an
 * unregistration and a release give back.
 */
module ChannelSteps {
  import opened Common
  import opened Channels

  /**
   * A registration succeeds for a channel the peer already has, and otherwise exactly if the
   * connection is unknown and both limits leave room; then it is the peer's, idle, with a lock.
   */
  lemma {:induction false} RegisterExactly(limits: Limits, r: Registry, peer: Peer, c: Conn)
    ensures var (after, ok) := RegisterStep(limits, r, peer, c);
      var own := if peer in r.connections then r.connections[peer] else {};
      && (ok <==> c in own || (c !in r.pending && |r.pending| < limits.maxConnections && |own| < limits.maxPerPeer))
      && (!ok || c in own ==> after == r)
      && (ok && c !in own ==>
        && after.connections == r.connections[peer := own + {c}] && after.pending == r.pending[c := 0]
        && after.locks == r.locks + {c} && after.pendingBytes == r.pendingBytes && after.dropped == r.dropped
        && after.outstanding == r.outstanding)
  {
  }

  /**
   * Unregistering takes the connection from the peer, and the peer's entry if it was the last.
   * What is known of the connection goes exactly if no send of it is pending; an unknown peer
   * changes nothing.
   */
  lemma {:induction false} UnregisterExactly(r: Registry, peer: Peer, c: Conn)
    ensures var after := UnregisterStep(r, peer, c);
      && (forall p, d :: In(after.connections, p, d) <==> In(r.connections, p, d) && !(p == peer && d == c))
      && (peer in after.connections <==> peer in r.connections && exists d :: d in r.connections[peer] && d != c)
      && (forall p :: p != peer ==> (p in after.connections <==> p in r.connections))
      && (if peer in r.connections && (c in r.pending ==> r.pending[c] == 0)
          then after.pending == r.pending - {c} && after.locks == r.locks - {c}
          else after.pending == r.pending && after.locks == r.locks)
      && after.pendingBytes == r.pendingBytes && after.dropped == r.dropped && after.outstanding == r.outstanding
  {
    DiscardedIs(r.connections, peer, c);
    if peer in r.connections {
      var rest := r.connections[peer] - {c};
      assert rest != {} ==> exists d :: d in rest;
      assert forall d :: d in rest <==> d in r.connections[peer] && d != c;
    }
  }

  /** A release returns the send's own count and bytes, and forgets a connection that is gone and has nothing pending. */
  lemma {:induction false} ReleaseExactly(r: Registry, i: nat)
    requires Releasable(r, i)
    ensures var after, s := ReleaseStep(r, i), r.outstanding[i];
      var left := r.pending[s.conn] - 1;
      var gone := left == 0 && (s.peer in r.connections ==> s.conn !in r.connections[s.peer]);
      && after.pendingBytes == r.pendingBytes - s.size && after.outstanding == r.outstanding[..i] + r.outstanding[i + 1..]
      && after.pending == (if gone then r.pending - {s.conn} else r.pending[s.conn := left])
      && after.locks == (if gone then r.locks - {s.conn} else r.locks)
      && after.connections == r.connections && after.dropped == r.dropped
  {
    var s := r.outstanding[i];
    assert r.pending[s.conn := r.pending[s.conn] - 1] - {s.conn} == r.pending - {s.conn};
  }

  /** What the events of a run do. */
  lemma {:induction false} EventsAre(limits: Limits, r: Registry, peer: Peer, c: Conn, size: nat, order: seq<Conn>, i: nat)
    ensures Perform(limits, r, Register(peer, c)) == RegisterStep(limits, r, peer, c).0
    ensures Perform(limits, r, Unregister(peer, c)) == UnregisterStep(r, peer, c)
    ensures Perform(limits, r, Push(peer, size, order)) == ReserveEach(limits, r, peer, order, size)
    ensures i < |r.outstanding| ==>
      Perform(limits, r, FailSend(i)) == UnregisterStep(r, r.outstanding[i].peer, r.outstanding[i].conn)
    ensures Releasable(r, i) ==> Perform(limits, r, Finish(i)) == ReleaseStep(r, i)
  {
  }

  // ---------------------------------------------------------------------------------
  // A push.

  /** How many reservations a push has made after visiting these connections. */
  function Made(limits: Limits, r: Registry, peer: Peer, visited: seq<Conn>, size: nat): int {
    |ReserveEach(limits, r, peer, visited, size).outstanding| - |r.outstanding|
  }

  /** The connection has a place left, and the bytes of this push so far leave room for one more. */
  ghost predicate Fits(limits: Limits, r: Registry, c: Conn, size: nat, made: int)
    requires c in r.pending
  {
    r.pending[c] < limits.maxPending && r.pendingBytes + size * (made + 1) <= limits.maxPendingBytes
  }

  ghost predicate Visits(r: Registry, order: seq<Conn>) {
    && (forall i :: 0 <= i < |order| ==> order[i] in r.pending)
    && (forall i, j :: 0 <= i < j < |order| ==> order[i] != order[j])
  }

  /** The registry after a push has visited these connections and made so many reservations. */
  ghost predicate Pushed(r: Registry, after: Registry, visited: seq<Conn>, size: nat, made: int) {
    && after.connections == r.connections && after.locks == r.locks && after.pending.Keys == r.pending.Keys
    && after.pendingBytes == r.pendingBytes + size * made && after.dropped == r.dropped + |visited| - made
    && (forall c :: c in r.pending && c !in visited ==> after.pending[c] == r.pending[c])
  }

  lemma {:induction false} TimesNext(size: nat, made: int)
    ensures size * (made + 1) == size * made + size
  {
  }

  /** One more connection. */
  lemma {:induction false} VisitsNext(limits: Limits, r: Registry, q: Registry, peer: Peer, before: seq<Conn>, c: Conn, size: nat, made: int)
    requires Pushed(r, q, before, size, made) && c in r.pending && c !in before
    ensures var after := ReserveOne(limits, q, peer, c, size);
      && Pushed(r, after, before + [c], size, if Fits(limits, r, c, size, made) then made + 1 else made)
      && after.pending[c] == r.pending[c] + (if Fits(limits, r, c, size, made) then 1 else 0)
      && after.outstanding == q.outstanding + (if Fits(limits, r, c, size, made) then [Send(peer, c, size)] else [])
  {
    TimesNext(size, made);
    assert (forall d :: d !in before + [c] <==> d !in before && d != c);
  }

  lemma {:induction false} PushSoFar(limits: Limits, r: Registry, peer: Peer, order: seq<Conn>, size: nat)
    requires Visits(r, order)
    ensures Pushed(r, ReserveEach(limits, r, peer, order, size), order, size, Made(limits, r, peer, order, size))
    decreases |order|
  {
    if order != [] {
      var before, c := order[..|order| - 1], order[|order| - 1];
      PushSoFar(limits, r, peer, before, size);
      var q, made := ReserveEach(limits, r, peer, before, size), Made(limits, r, peer, before, size);
      VisitsNext(limits, r, q, peer, before, c, size, made);
      assert before + [c] == order;
    }
  }

  /** What the push has done for the connection at place `k` of its visits. */
  ghost predicate Served(limits: Limits, r: Registry, after: Registry, peer: Peer, c: Conn, size: nat, made: int)
    requires c in r.pending && made >= 0
  {
    && c in after.pending
    && if Fits(limits, r, c, size, made) then
         && after.pending[c] == r.pending[c] + 1
         && |after.outstanding| > |r.outstanding| + made && after.outstanding[|r.outstanding| + made] == Send(peer, c, size)
       else after.pending[c] == r.pending[c]
  }

  lemma {:induction false} MadeGrows(limits: Limits, r: Registry, peer: Peer, visited: seq<Conn>, size: nat)
    ensures 0 <= Made(limits, r, peer, visited, size)
  {
    ReserveEachExtends(limits, r, peer, visited, size);
  }

  lemma {:induction false} LastIsServed(limits: Limits, r: Registry, peer: Peer, before: seq<Conn>, c: Conn, size: nat)
    requires Visits(r, before + [c])
    ensures var made := Made(limits, r, peer, before, size);
      && made >= 0
      && Served(limits, r, ReserveEach(limits, r, peer, before + [c], size), peer, c, size, made)
      && Made(limits, r, peer, before + [c], size) == made + (if Fits(limits, r, c, size, made) then 1 else 0)
  {
    var order := before + [c];
    assert order[..|order| - 1] == before && order[|before|] == c;
    assert forall i :: 0 <= i < |before| ==> order[i] == before[i];
    PushSoFar(limits, r, peer, before, size);
    MadeGrows(limits, r, peer, before, size);
    VisitsNext(limits, r, ReserveEach(limits, r, peer, before, size), peer, before, c, size, Made(limits, r, peer, before, size));
  }

  lemma {:induction false} ServedStays(limits: Limits, r: Registry, q: Registry, peer: Peer, c: Conn, size: nat, made: nat, later: Conn)
    requires c in r.pending && Served(limits, r, q, peer, c, size, made) && c != later
    ensures Served(limits, r, ReserveOne(limits, q, peer, later, size), peer, c, size, made)
  {
  }

  /**
   * A push visits each of the peer's connections once.  It reserves one exactly if that
   * connection has a place left and the bytes reserved before this push, those of the
   * reservations it has made so far, and these fit the budget; each other one is a drop.
   */
  lemma {:induction false} PushExactly(limits: Limits, r: Registry, peer: Peer, order: seq<Conn>, size: nat, k: nat)
    requires Visits(r, order) && k < |order|
    ensures var made := Made(limits, r, peer, order[..k], size);
      && made >= 0
      && Served(limits, r, ReserveEach(limits, r, peer, order, size), peer, order[k], size, made)
      && Made(limits, r, peer, order[..k + 1], size) == made + (if Fits(limits, r, order[k], size, made) then 1 else 0)
    decreases |order|
  {
    var before, last := order[..|order| - 1], order[|order| - 1];
    assert before + [last] == order;
    if k == |order| - 1 {
      LastIsServed(limits, r, peer, before, last, size);
      assert order[..k + 1] == order;
    } else {
      PushExactly(limits, r, peer, before, size, k);
      assert before[..k] == order[..k] && before[..k + 1] == order[..k + 1];
      ServedStays(limits, r, ReserveEach(limits, r, peer, before, size), peer, order[k], size,
                  Made(limits, r, peer, order[..k], size), last);
    }
  }
}
