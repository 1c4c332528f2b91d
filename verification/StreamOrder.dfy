/**
 * The sequence, credit and rate rules of `StreamRegistry.packet`
 * (fasp_harness/streaming.py:203-265), and what they make of a network that loses, repeats
 * and reorders packets.
 */
module StreamOrder {
  import opened Common
  import opened Streaming

  /** The part of a stream's record that `packet` reads and advances. */
  datatype Stream = Stream(
    reliable: bool, window: nat, minInterval: real, nextExpected: nat, lastSequence: int, lastPacketAt: Option<real>)

  function Opened(reliable: bool, window: nat, minInterval: real): Stream {
    Stream(reliable, window, minInterval, 0, -1, None)
  }

  /**
   * One call.  `checked`: the stream is open to this sender and the packet agrees with the
   * contract; `committed`: the repository still accepts the advance.
   */
  datatype Arrival = Arrival(packet: Packet, now: real, checked: bool, committed: bool)

  datatype Reply = Ack(ackSequence: int, duplicate: bool) | Rejected | Backpressure | OutOfOrder | RateExceeded

  predicate TooSoon(st: Stream, now: real) {
    st.lastPacketAt.Some? && now - st.lastPacketAt.value < st.minInterval
  }

  function Advanced(st: Stream, sequence: nat, now: real): Stream {
    st.(nextExpected := sequence + 1, lastSequence := Max(st.lastSequence, sequence), lastPacketAt := Some(now))
  }

  function PacketStep(st: Stream, a: Arrival): (Stream, Reply) {
    var sequence := a.packet.sequence;
    if !a.checked || sequence < 0 then (st, Rejected)
    else if st.reliable && sequence >= st.nextExpected + st.window then (st, Backpressure)
    else if sequence < st.nextExpected then (st, Ack(st.nextExpected - 1, true))
    else if st.reliable && sequence != st.nextExpected then (st, OutOfOrder)
    else if TooSoon(st, a.now) then (st, RateExceeded)
    else if !a.committed then (st, Rejected)
    else (Advanced(st, sequence, a.now), Ack(sequence, false))
  }

  /** The packet is checked and its turn has come: the expected one on a reliable stream with credit, else any later one. */
  predicate InTurn(st: Stream, a: Arrival) {
    var q := a.packet.sequence;
    a.checked && q >= 0 && (if st.reliable then q == st.nextExpected && st.window > 0 else q >= st.nextExpected)
  }

  /** As long after the last packet taken as the contract's rate allows. */
  predicate Waited(st: Stream, a: Arrival) {
    st.lastPacketAt.None? || a.now >= st.lastPacketAt.value + st.minInterval
  }

  /**
   * Which packets are taken, and how the others are answered: a checked one below the
   * expected sequence is a duplicate; on a reliable stream one beyond the credit window is
   * held off and one within it but too early is out of order; one in its turn is refused if
   * it comes too soon or can no longer be recorded, and else taken.
   */
  lemma {:induction false} PacketExactly(st: Stream, a: Arrival)
    ensures var (after, reply) := PacketStep(st, a);
      var q, next, good := a.packet.sequence, st.nextExpected, a.checked && a.packet.sequence >= 0;
      && (reply.Ack? && !reply.duplicate <==> InTurn(st, a) && Waited(st, a) && a.committed)
      && (reply.Ack? && reply.duplicate <==> good && q < next)
      && (reply.Ack? ==> reply.ackSequence == after.nextExpected - 1)
      && (reply == Backpressure <==> good && st.reliable && q >= next + st.window)
      && (reply == OutOfOrder <==> good && st.reliable && next < q < next + st.window)
      && (reply == RateExceeded <==> InTurn(st, a) && !Waited(st, a))
      && (!(reply.Ack? && !reply.duplicate) ==> after == st)
      && (reply.Ack? && !reply.duplicate ==>
        && after.nextExpected == q + 1 && after.lastPacketAt == Some(a.now)
        && after.lastSequence == (if q > st.lastSequence then q else st.lastSequence)
        && after.reliable == st.reliable && after.window == st.window && after.minInterval == st.minInterval)
  {
  }

  class MemoryStream {
    var stream: Stream

    constructor (reliable: bool, window: nat, minInterval: real)
      ensures stream == Opened(reliable, window, minInterval)
    {
      stream := Opened(reliable, window, minInterval);
    }

    method Packet(a: Arrival) returns (reply: Reply)
      modifies this
      ensures (stream, reply) == PacketStep(old(stream), a)
    {
      var sequence := a.packet.sequence;
      if !a.checked || sequence < 0 { return Rejected; }
      if stream.reliable && sequence >= stream.nextExpected + stream.window { return Backpressure; }
      var duplicate := sequence < stream.nextExpected;
      if !duplicate {
        if stream.reliable && sequence != stream.nextExpected { return OutOfOrder; }
        if stream.lastPacketAt.Some? {
          var elapsed := a.now - stream.lastPacketAt.value;
          if elapsed < stream.minInterval { return RateExceeded; }
        }
        if !a.committed { return Rejected; }
        stream := stream.(
          nextExpected := sequence + 1, lastSequence := Max(stream.lastSequence, sequence), lastPacketAt := Some(a.now));
      }
      reply := Ack(stream.nextExpected - 1, duplicate);
    }
  }

  // ---------------------------------------------------------------------------------
  // Runs.

  function Run(st: Stream, arrivals: seq<Arrival>): Stream
    decreases |arrivals|
  {
    if arrivals == [] then st
    else PacketStep(Run(st, arrivals[..|arrivals| - 1]), arrivals[|arrivals| - 1]).0
  }

  /** The arrivals acknowledged as new, in order. */
  function Taken(st: Stream, arrivals: seq<Arrival>): seq<Arrival>
    decreases |arrivals|
  {
    if arrivals == [] then [] else
    var before, a := arrivals[..|arrivals| - 1], arrivals[|arrivals| - 1];
    var reply := PacketStep(Run(st, before), a).1;
    if reply.Ack? && !reply.duplicate then Taken(st, before) + [a] else Taken(st, before)
  }

  ghost predicate Spaced(taken: seq<Arrival>, gap: real) {
    forall i :: 0 < i < |taken| ==> Apart(taken, gap, i)
  }

  ghost predicate Apart(taken: seq<Arrival>, gap: real, i: int)
    requires 0 < i < |taken|
  {
    taken[i].now - taken[i - 1].now >= gap
  }

  /** What the record says about the packets taken so far. */
  ghost predicate Tracks(st: Stream, taken: seq<Arrival>) {
    && Below(taken, st.nextExpected) && Increasing(taken)
    && (st.reliable ==> |taken| == st.nextExpected && Consecutive(taken))
    && st.lastSequence == st.nextExpected - 1
    && (if taken == [] then st.nextExpected == 0 && st.lastPacketAt == None else
        && st.nextExpected == taken[|taken| - 1].packet.sequence + 1
        && st.lastPacketAt == Some(taken[|taken| - 1].now))
  }

  lemma {:induction false} StepTracks(st: Stream, taken: seq<Arrival>, a: Arrival)
    requires Tracks(st, taken) && Spaced(taken, st.minInterval)
    ensures var (after, reply) := PacketStep(st, a);
      var now' := if reply.Ack? && !reply.duplicate then taken + [a] else taken;
      && Tracks(after, now') && Spaced(now', after.minInterval)
      && after.reliable == st.reliable && after.minInterval == st.minInterval && after.window == st.window
      && (reply.Ack? ==> now' != [] && reply.ackSequence == now'[|now'| - 1].packet.sequence)
  {
    var reply := PacketStep(st, a).1;
    if reply.Ack? && !reply.duplicate {
      AdvanceTracks(st, taken, a);
    }
  }

  ghost predicate Increasing(taken: seq<Arrival>) {
    forall i, j :: 0 <= i < j < |taken| ==> taken[i].packet.sequence < taken[j].packet.sequence
  }

  ghost predicate Below(taken: seq<Arrival>, n: int) {
    forall i :: 0 <= i < |taken| ==> 0 <= taken[i].packet.sequence < n
  }

  ghost predicate Consecutive(taken: seq<Arrival>) {
    forall i :: 0 <= i < |taken| ==> taken[i].packet.sequence == i
  }

  lemma {:induction false} IncreasingMore(taken: seq<Arrival>, n: int, a: Arrival)
    requires Increasing(taken) && Below(taken, n) && 0 <= n <= a.packet.sequence
    ensures Increasing(taken + [a]) && Below(taken + [a], a.packet.sequence + 1)
  {
  }

  lemma {:induction false} ConsecutiveMore(taken: seq<Arrival>, a: Arrival)
    requires Consecutive(taken) && a.packet.sequence == |taken|
    ensures Consecutive(taken + [a])
  {
  }

  lemma {:induction false} SpacedMore(taken: seq<Arrival>, gap: real, a: Arrival)
    requires Spaced(taken, gap) && (taken != [] ==> a.now - taken[|taken| - 1].now >= gap)
    ensures Spaced(taken + [a], gap)
  {
    var more := taken + [a];
    forall i | 0 < i < |more| ensures Apart(more, gap, i) {
      if i < |taken| {
        assert Apart(taken, gap, i);
      }
    }
  }

  lemma {:induction false} AdvanceTracks(st: Stream, taken: seq<Arrival>, a: Arrival)
    requires Tracks(st, taken) && Spaced(taken, st.minInterval)
    requires a.packet.sequence >= st.nextExpected && !TooSoon(st, a.now)
    requires st.reliable ==> a.packet.sequence == st.nextExpected
    ensures Tracks(Advanced(st, a.packet.sequence, a.now), taken + [a]) && Spaced(taken + [a], st.minInterval)
  {
    IncreasingMore(taken, st.nextExpected, a);
    if st.reliable {
      ConsecutiveMore(taken, a);
    }
    SpacedMore(taken, st.minInterval, a);
    assert (taken + [a])[|taken|] == a;
  }

  /**
   * Whatever arrives, at whatever clock readings: the sequences taken strictly increase, on a
   * reliable stream they are 0, 1, 2, … without a gap, and packets taken next to each other
   * are at least the contract's interval apart.
   */
  lemma {:induction false} RunTracks(reliable: bool, window: nat, gap: real, arrivals: seq<Arrival>)
    ensures var st, taken := Run(Opened(reliable, window, gap), arrivals), Taken(Opened(reliable, window, gap), arrivals);
      && Tracks(st, taken) && Spaced(taken, gap)
      && st.reliable == reliable && st.minInterval == gap && st.window == window
    decreases |arrivals|
  {
    if arrivals != [] {
      var before := arrivals[..|arrivals| - 1];
      RunTracks(reliable, window, gap, before);
      var start := Opened(reliable, window, gap);
      StepTracks(Run(start, before), Taken(start, before), arrivals[|arrivals| - 1]);
    }
  }

  /** `gap` added up `n` times. */
  function Times(n: nat, gap: real): real { if n == 0 then 0.0 else Times(n - 1, gap) + gap }

  lemma {:induction false} SpacedApart(taken: seq<Arrival>, gap: real, i: nat, j: nat)
    requires Spaced(taken, gap) && i <= j < |taken|
    ensures taken[j].now - taken[i].now >= Times(j - i, gap)
    decreases j - i
  {
    if i < j {
      SpacedApart(taken, gap, i, j - 1);
      assert Apart(taken, gap, j);
    }
  }

  /** The rate the contract promises, over every window of accepted packets, whatever the clock does. */
  lemma {:induction false} AcceptedRateIsBounded(
    reliable: bool, window: nat, gap: real, arrivals: seq<Arrival>, i: nat, j: nat)
    requires i <= j < |Taken(Opened(reliable, window, gap), arrivals)|
    ensures var taken := Taken(Opened(reliable, window, gap), arrivals);
      Times(j - i, gap) <= taken[j].now - taken[i].now
  {
    RunTracks(reliable, window, gap, arrivals);
    SpacedApart(Taken(Opened(reliable, window, gap), arrivals), gap, i, j);
  }

  // ---------------------------------------------------------------------------------
  // An unreliable network in front of a reliable stream.

  /** Every packet offered is one the sender numbered. */
  ghost predicate Offers(sent: seq<Packet>, arrivals: seq<Arrival>) {
    && (forall i :: 0 <= i < |sent| ==> sent[i].sequence == i)
    && (forall i :: 0 <= i < |arrivals| ==> arrivals[i].packet in sent)
  }

  function Packets(taken: seq<Arrival>): (ps: seq<Packet>)
    ensures |ps| == |taken| && forall i :: 0 <= i < |ps| ==> ps[i] == taken[i].packet
  {
    if taken == [] then [] else Packets(taken[..|taken| - 1]) + [taken[|taken| - 1].packet]
  }

  lemma {:induction false} TakenArrived(st: Stream, arrivals: seq<Arrival>)
    ensures forall i :: 0 <= i < |Taken(st, arrivals)| ==> Taken(st, arrivals)[i] in arrivals
    decreases |arrivals|
  {
    if arrivals != [] {
      TakenArrived(st, arrivals[..|arrivals| - 1]);
    }
  }

  /**
   * Exactly-once, in-order delivery: however the network drops, repeats and reorders, what a
   * reliable stream has taken is a prefix of what the sender numbered, and the
   * acknowledgement is its length.
   */
  lemma {:induction false} ReliableTakesPrefix(window: nat, gap: real, sent: seq<Packet>, arrivals: seq<Arrival>)
    requires Offers(sent, arrivals)
    ensures var st, taken := Run(Opened(true, window, gap), arrivals), Taken(Opened(true, window, gap), arrivals);
      st.nextExpected == |taken| <= |sent| && Packets(taken) == sent[..|taken|]
  {
    RunTracks(true, window, gap, arrivals);
    TakenArrived(Opened(true, window, gap), arrivals);
    var taken := Taken(Opened(true, window, gap), arrivals);
    forall i | 0 <= i < |taken| ensures i < |sent| && taken[i].packet == sent[i] {
      assert taken[i] in arrivals;
      var j :| 0 <= j < |arrivals| && arrivals[j] == taken[i];
      assert arrivals[j].packet in sent;
    }
    assert taken != [] ==> |taken| - 1 < |sent|;
  }

  // ---------------------------------------------------------------------------------
  // Retransmission.

  lemma {:induction false} StepGrows(st: Stream, a: Arrival)
    ensures st.nextExpected <= PacketStep(st, a).0.nextExpected
  {
  }

  lemma {:induction false} RunLast(st: Stream, arrivals: seq<Arrival>, k: nat)
    requires k < |arrivals|
    ensures Run(st, arrivals[..k + 1]) == PacketStep(Run(st, arrivals[..k]), arrivals[k]).0
    ensures Taken(st, arrivals[..k + 1]) ==
      if Takes(Run(st, arrivals[..k]), arrivals[k]) then Taken(st, arrivals[..k]) + [arrivals[k]] else Taken(st, arrivals[..k])
  {
    assert arrivals[..k + 1][..k] == arrivals[..k];
  }

  lemma {:induction false} NextGrows(st: Stream, arrivals: seq<Arrival>, i: nat, j: nat)
    requires i <= j <= |arrivals|
    ensures Run(st, arrivals[..i]).nextExpected <= Run(st, arrivals[..j]).nextExpected
    decreases j
  {
    if i < j {
      NextGrows(st, arrivals, i, j - 1);
      RunLast(st, arrivals, j - 1);
      StepGrows(Run(st, arrivals[..j - 1]), arrivals[j - 1]);
    }
  }

  /** Arrival `k` is a good copy of packet `p`, later by the interval than everything before it. */
  ghost predicate Timely(arrivals: seq<Arrival>, gap: real, k: nat, p: Packet) {
    && k < |arrivals| && arrivals[k].packet == p && arrivals[k].checked && arrivals[k].committed
    && forall j :: 0 <= j < k ==> arrivals[k].now - arrivals[j].now >= gap
  }

  /** Such an arrival is not too soon, whatever was taken before it. */
  lemma {:induction false} TimelyIsNotTooSoon(window: nat, gap: real, arrivals: seq<Arrival>, k: nat, p: Packet)
    requires Timely(arrivals, gap, k, p)
    ensures !TooSoon(Run(Opened(true, window, gap), arrivals[..k]), arrivals[k].now)
  {
    var start := Opened(true, window, gap);
    RunTracks(true, window, gap, arrivals[..k]);
    TakenArrived(start, arrivals[..k]);
    var taken := Taken(start, arrivals[..k]);
    if taken != [] {
      assert taken[|taken| - 1] in arrivals[..k];
      var j :| 0 <= j < k && arrivals[..k][j] == taken[|taken| - 1];
    }
  }

  lemma {:induction false} NextIsTaken(st: Stream, a: Arrival)
    requires st.reliable && st.window > 0 && a.checked && a.committed && !TooSoon(st, a.now)
    requires 0 <= a.packet.sequence <= st.nextExpected
    ensures PacketStep(st, a).0.nextExpected > a.packet.sequence
  {
  }

  lemma {:induction false} TimelyAdvances(window: nat, gap: real, arrivals: seq<Arrival>, k: nat, p: Packet)
    requires window > 0 && Timely(arrivals, gap, k, p)
    requires 0 <= p.sequence <= Run(Opened(true, window, gap), arrivals[..k]).nextExpected
    ensures Run(Opened(true, window, gap), arrivals[..k + 1]).nextExpected > p.sequence
  {
    RunTracks(true, window, gap, arrivals[..k]);
    TimelyIsNotTooSoon(window, gap, arrivals, k, p);
    NextIsTaken(Run(Opened(true, window, gap), arrivals[..k]), arrivals[k]);
    RunLast(Opened(true, window, gap), arrivals, k);
  }

  /** Among the arrivals there are timely copies of the first packets, in order, at the places `at`. */
  ghost predicate Copies(sent: seq<Packet>, arrivals: seq<Arrival>, gap: real, at: seq<nat>) {
    && |at| <= |sent|
    && (forall m :: 0 <= m < |at| ==> sent[m].sequence == m && Timely(arrivals, gap, at[m], sent[m]))
    && (forall m, n :: 0 <= m < n < |at| ==> at[m] < at[n])
  }

  lemma {:induction false} CopiesAdvance(
    window: nat, gap: real, sent: seq<Packet>, arrivals: seq<Arrival>, at: seq<nat>, m: nat)
    requires window > 0 && Copies(sent, arrivals, gap, at) && m < |at|
    ensures Timely(arrivals, gap, at[m], sent[m])
    ensures Run(Opened(true, window, gap), arrivals[..at[m] + 1]).nextExpected > m
  {
    assert Timely(arrivals, gap, at[m], sent[m]);
    if m > 0 {
      CopiesAdvance(window, gap, sent, arrivals, at, m - 1);
      NextGrows(Opened(true, window, gap), arrivals, at[m - 1] + 1, at[m]);
    }
    TimelyAdvances(window, gap, arrivals, at[m], sent[m]);
  }

  /**
   * Retransmission delivers: if among arbitrary arrivals there are, in order, good copies of
   * the first packets, each later by the contract's interval than everything before it, then
   * the stream has taken all of those packets, however often they were lost, repeated or
   * refused in between.
   */
  lemma {:induction false} RetransmissionDelivers(
    window: nat, gap: real, sent: seq<Packet>, arrivals: seq<Arrival>, at: seq<nat>)
    requires window > 0 && Offers(sent, arrivals) && Copies(sent, arrivals, gap, at)
    ensures var taken := Taken(Opened(true, window, gap), arrivals);
      |taken| >= |at| && Packets(taken)[..|at|] == sent[..|at|]
  {
    ReliableTakesPrefix(window, gap, sent, arrivals);
    CopiesAreTaken(window, gap, sent, arrivals, at);
    ShorterPrefix(sent, |Taken(Opened(true, window, gap), arrivals)|, |at|);
  }

  lemma {:induction false} ShorterPrefix(sent: seq<Packet>, n: nat, m: nat)
    requires m <= n <= |sent|
    ensures sent[..n][..m] == sent[..m]
  {
  }

  lemma {:induction false} CopiesAreTaken(
    window: nat, gap: real, sent: seq<Packet>, arrivals: seq<Arrival>, at: seq<nat>)
    requires window > 0 && Copies(sent, arrivals, gap, at)
    ensures Run(Opened(true, window, gap), arrivals).nextExpected >= |at|
  {
    if at != [] {
      CopiesAdvance(window, gap, sent, arrivals, at, |at| - 1);
      NextGrows(Opened(true, window, gap), arrivals, at[|at| - 1] + 1, |arrivals|);
      assert arrivals[..|arrivals|] == arrivals;
    }
  }

  // ---------------------------------------------------------------------------------
  // What a duplicate acknowledgement says.

  ghost predicate WasTaken(taken: seq<Arrival>, q: nat) {
    exists i :: 0 <= i < |taken| && taken[i].packet.sequence == q
  }

  /** Everything that would be acknowledged as a duplicate was taken before. */
  ghost predicate NothingSkipped(st: Stream, taken: seq<Arrival>) {
    forall q: nat :: q < st.nextExpected ==> WasTaken(taken, q)
  }

  predicate Takes(st: Stream, a: Arrival) { PacketStep(st, a).1.Ack? && !PacketStep(st, a).1.duplicate }

  lemma {:induction false} TakenMore(taken: seq<Arrival>, a: Arrival, q: nat)
    ensures WasTaken(taken + [a], q) <==> WasTaken(taken, q) || a.packet.sequence == q
  {
    if WasTaken(taken, q) {
      var i :| 0 <= i < |taken| && taken[i].packet.sequence == q;
      assert (taken + [a])[i].packet.sequence == q;
    }
    assert (taken + [a])[|taken|] == a;
  }

  /** One more arrival leaves nothing skipped exactly when nothing was skipped before and it does not jump ahead. */
  lemma {:induction false} ArrivalSkipsExactly(st: Stream, taken: seq<Arrival>, a: Arrival)
    requires Tracks(st, taken)
    ensures NothingSkipped(PacketStep(st, a).0, if Takes(st, a) then taken + [a] else taken) <==>
      NothingSkipped(st, taken) && (Takes(st, a) ==> a.packet.sequence == st.nextExpected)
  {
    if Takes(st, a) {
      forall q: nat ensures WasTaken(taken + [a], q) <==> WasTaken(taken, q) || a.packet.sequence == q {
        TakenMore(taken, a, q);
      }
      var after := PacketStep(st, a).0;
      if NothingSkipped(after, taken + [a]) {
        NotYetTaken(st, taken);
        assert WasTaken(taken + [a], st.nextExpected);
        forall q: nat | q < st.nextExpected ensures WasTaken(taken, q) {
          assert WasTaken(taken + [a], q);
        }
      }
    }
  }

  lemma {:induction false} NotYetTaken(st: Stream, taken: seq<Arrival>)
    requires Tracks(st, taken)
    ensures !WasTaken(taken, st.nextExpected)
  {
  }

  /** No arrival was taken ahead of the sequence expected at its time. */
  ghost predicate NoJumps(start: Stream, arrivals: seq<Arrival>) {
    forall k :: 0 <= k < |arrivals| ==> NoJump(start, arrivals, k)
  }

  ghost predicate NoJump(start: Stream, arrivals: seq<Arrival>, k: int)
    requires 0 <= k < |arrivals|
  {
    var st := Run(start, arrivals[..k]);
    Takes(st, arrivals[k]) ==> arrivals[k].packet.sequence == st.nextExpected
  }

  lemma {:induction false} NoJumpsMore(start: Stream, arrivals: seq<Arrival>)
    requires arrivals != []
    ensures var before := arrivals[..|arrivals| - 1];
      NoJumps(start, arrivals) <==> NoJumps(start, before) && NoJump(start, arrivals, |before|)
  {
    var before := arrivals[..|arrivals| - 1];
    forall k | 0 <= k < |before| ensures NoJump(start, before, k) <==> NoJump(start, arrivals, k) {
      assert before[..k] == arrivals[..k];
    }
  }

  /**
   * A packet acknowledged as a duplicate was really taken before: so for every sequence below
   * the next expected one, if and only if no arrival was taken ahead of the sequence expected
   * at its time.  A reliable stream takes none ahead.
   */
  lemma {:induction false} DuplicateWasTakenExactly(reliable: bool, window: nat, gap: real, arrivals: seq<Arrival>)
    ensures var start := Opened(reliable, window, gap);
      && (NothingSkipped(Run(start, arrivals), Taken(start, arrivals)) <==> NoJumps(start, arrivals))
      && (reliable ==> NoJumps(start, arrivals))
    decreases |arrivals|
  {
    if arrivals != [] {
      var start := Opened(reliable, window, gap);
      var before, a := arrivals[..|arrivals| - 1], arrivals[|arrivals| - 1];
      DuplicateWasTakenExactly(reliable, window, gap, before);
      RunTracks(reliable, window, gap, before);
      ArrivalSkipsExactly(Run(start, before), Taken(start, before), a);
      NoJumpsMore(start, arrivals);
    }
  }

  function Numbered(sequence: int): Packet { Packet(sequence, "", None, None, None, None, None) }

  /** Two good packets on an unreliable stream: number 5, and after it number 3. */
  function Overtaken(): seq<Arrival> {
    [Arrival(Numbered(5), 0.0, true, true), Arrival(Numbered(3), 1.0, true, true)]
  }

  /** The stream takes number 5 and acknowledges number 3 as a duplicate, though it never took it. */
  lemma {:induction false} UnreliableStreamAcknowledgesUntaken()
    ensures var start, two := Opened(false, 1, 1.0), Overtaken();
      && PacketStep(Run(start, two[..1]), two[1]).1 == Ack(5, true)
      && !WasTaken(Taken(start, two), 3)
  {
    var start, two := Opened(false, 1, 1.0), Overtaken();
    assert two[..0] == [] && two[..2] == two;
    RunLast(start, two, 0);
    assert Run(start, two[..1]) == Advanced(start, 5, 0.0) && Taken(start, two[..1]) == [two[0]];
    RunLast(start, two, 1);
    assert Taken(start, two) == [two[0]];
  }
}
