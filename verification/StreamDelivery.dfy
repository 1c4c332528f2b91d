/**
 * Fragmentation, a reliable stream and reassembly end to end (fasp_harness/streaming.py): a
 * stream that carries frame after frame.
 */
module StreamDelivery {
  import opened Common
  import opened Streaming
  import opened StreamOrder

  /** The first `n` fragments of a frame. */
  function AllSent(s: Source, n: nat): (ps: seq<Packet>)
    requires n <= CountOf(s)
    ensures |ps| == n && forall k :: 0 <= k < n ==> ps[k] == Sent(s, k)
  {
    if n == 0 then [] else AllSent(s, n - 1) + [Sent(s, n - 1)]
  }

  /** The packets of a stream that carries these frames one after the other. */
  function StreamOf(ss: seq<Source>): seq<Packet> {
    if ss == [] then [] else StreamOf(ss[..|ss| - 1]) + AllSent(ss[|ss| - 1], CountOf(ss[|ss| - 1]))
  }

  function DataOfAll(ss: seq<Source>): seq<Bytes> {
    if ss == [] then [] else DataOfAll(ss[..|ss| - 1]) + [DataOf(ss[|ss| - 1])]
  }

  /** A reassembler seen from outside: from a table and a packet to the next table and the answer. */
  type Assembler = (Frames, Packet) -> (Frames, Outcome)

  function Adding(limits: Limits): Assembler { (table, p) => AddStep(limits, table, p) }

  function Fed(add: Assembler, table: Frames, ps: seq<Packet>): Frames {
    if ps == [] then table else add(Fed(add, table, ps[..|ps| - 1]), ps[|ps| - 1]).0
  }

  /** What it hands out when it is fed these packets, in order. */
  function Outputs(add: Assembler, table: Frames, ps: seq<Packet>): seq<Bytes> {
    if ps == [] then [] else
    var before := ps[..|ps| - 1];
    Outputs(add, table, before) + Delivered(add(Fed(add, table, before), ps[|ps| - 1]).1)
  }

  function Delivered(r: Outcome): seq<Bytes> { if r.Ok? && r.value.Some? then [r.value.value] else [] }

  lemma {:induction false} FeedLast(add: Assembler, table: Frames, ps: seq<Packet>, p: Packet)
    ensures Fed(add, table, ps + [p]) == add(Fed(add, table, ps), p).0
    ensures Outputs(add, table, ps + [p]) == Outputs(add, table, ps) + Delivered(add(Fed(add, table, ps), p).1)
  {
    var more := ps + [p];
    assert more[..|more| - 1] == ps && more[|more| - 1] == p;
  }

  lemma {:induction false} LastSplits(ps: seq<Packet>, qs: seq<Packet>)
    requires qs != []
    ensures var before, q := qs[..|qs| - 1], qs[|qs| - 1]; ps + qs == (ps + before) + [q] && qs == before + [q]
  {
  }

  lemma {:induction false} FedAppend(add: Assembler, table: Frames, ps: seq<Packet>, qs: seq<Packet>)
    ensures Fed(add, table, ps + qs) == Fed(add, Fed(add, table, ps), qs)
    decreases |qs|
  {
    if qs == [] {
      assert ps + qs == ps;
    } else {
      var before, q := qs[..|qs| - 1], qs[|qs| - 1];
      FedAppend(add, table, ps, before);
      LastSplits(ps, qs);
      FeedLast(add, table, ps + before, q);
      FeedLast(add, Fed(add, table, ps), before, q);
    }
  }

  lemma {:induction false} Associates(a: seq<Bytes>, b: seq<Bytes>, c: seq<Bytes>)
    ensures (a + b) + c == a + (b + c)
  {
  }

  lemma {:induction false} OutputsAppend(add: Assembler, table: Frames, ps: seq<Packet>, qs: seq<Packet>)
    ensures Outputs(add, table, ps + qs) == Outputs(add, table, ps) + Outputs(add, Fed(add, table, ps), qs)
    decreases |qs|
  {
    if qs == [] {
      assert ps + qs == ps;
    } else {
      var before, q, mid := qs[..|qs| - 1], qs[|qs| - 1], Fed(add, table, ps);
      OutputsAppend(add, table, ps, before);
      FedAppend(add, table, ps, before);
      LastSplits(ps, qs);
      FeedLast(add, table, ps + before, q);
      FeedLast(add, mid, before, q);
      Associates(Outputs(add, table, ps), Outputs(add, mid, before), Delivered(add(Fed(add, mid, before), q).1));
    }
  }

  // ---------------------------------------------------------------------------------
  // One frame.

  /** The reassembler can take the frame in. */
  ghost predicate Fits(s: Source, limits: Limits, base: Frames) {
    && Sendable(s) && |DataOf(s)| <= limits.maxFrameBytes
    && Valid(limits, base) && s.frameId !in base && |base| < limits.maxInflight
  }

  function UpTo(n: nat): (r: set<nat>)
    ensures forall k: nat :: k in r <==> k < n
  {
    if n == 0 then {} else UpTo(n - 1) + {n - 1}
  }

  /** The table holds the first `n` fragments of the frame, and is otherwise as it was. */
  ghost predicate Partway(s: Source, limits: Limits, base: Frames, table: Frames, n: nat)
    requires Sendable(s)
  {
    && Valid(limits, table) && Holds(s, table, UpTo(n)) && table - {s.frameId} == base
  }

  lemma {:induction false} UpToNext(s: Source, n: nat)
    requires Sendable(s) && n < CountOf(s)
    ensures UpTo(n) + {n} == UpTo(n + 1) && UpTo(n + 1) != {}
    ensures Complete(s, UpTo(n + 1)) <==> n + 1 == CountOf(s)
  {
    assert n in UpTo(n + 1) && n + 1 !in UpTo(n + 1);
  }

  lemma {:induction false} OthersStay(s: Source, limits: Limits, table: Frames, n: nat)
    requires n < CountOf(s)
    ensures AddStep(limits, table, Sent(s, n)).0 - {s.frameId} == table - {s.frameId}
  {
  }

  lemma {:induction false} PartwayHasRoom(s: Source, limits: Limits, base: Frames, table: Frames, n: nat)
    requires Fits(s, limits, base) && Partway(s, limits, base, table, n)
    ensures Room(limits, table, s.frameId)
  {
    if s.frameId !in table {
      assert table - {s.frameId} == table;
    }
  }

  /** The next fragment in order. */
  lemma {:induction false} InOrderStep(s: Source, limits: Limits, base: Frames, table: Frames, n: nat)
    requires Fits(s, limits, base) && n < CountOf(s) && Partway(s, limits, base, table, n)
    ensures var (after, r) := AddStep(limits, table, Sent(s, n));
      if n + 1 == CountOf(s) then r == Ok(Some(DataOf(s))) && Holds(s, after, {})
      else r == Ok(None) && Holds(s, after, UpTo(n + 1))
  {
    PartwayHasRoom(s, limits, base, table, n);
    OwnStep(s, limits, table, UpTo(n), n);
    UpToNext(s, n);
  }

  lemma {:induction false} PartwayStep(s: Source, limits: Limits, base: Frames, table: Frames, n: nat)
    requires Fits(s, limits, base) && n + 1 < CountOf(s) && Partway(s, limits, base, table, n)
    ensures var (after, r) := AddStep(limits, table, Sent(s, n));
      Partway(s, limits, base, after, n + 1) && Delivered(r) == []
  {
    InOrderStep(s, limits, base, table, n);
    OthersStay(s, limits, table, n);
    AddKeepsValid(limits, table, Sent(s, n));
  }

  lemma {:induction false} LastStep(s: Source, limits: Limits, base: Frames, table: Frames, n: nat)
    requires Fits(s, limits, base) && n + 1 == CountOf(s) && Partway(s, limits, base, table, n)
    ensures var (after, r) := AddStep(limits, table, Sent(s, n));
      after == base && Delivered(r) == [DataOf(s)]
  {
    InOrderStep(s, limits, base, table, n);
    OthersStay(s, limits, table, n);
    BaseAgain(s.frameId, base, table, AddStep(limits, table, Sent(s, n)).0);
  }

  lemma {:induction false} BaseAgain(id: string, base: Frames, table: Frames, after: Frames)
    requires table - {id} == base && after - {id} == table - {id} && id !in after
    ensures after == base
  {
    assert after - {id} == after;
  }

  lemma {:induction false} PartwayStart(s: Source, limits: Limits, base: Frames)
    requires Fits(s, limits, base)
    ensures Partway(s, limits, base, base, 0)
  {
    assert base - {s.frameId} == base;
  }

  /** What is to hold of the table after so many fragments of a frame. */
  type Stage = (Frames, nat) -> bool

  ghost function Stages(s: Source, limits: Limits, base: Frames): Stage {
    (table: Frames, n: nat) => Sendable(s) && Partway(s, limits, base, table, n)
  }

  /** An assembler that collects this frame's fragments in order and hands the data out with the last one. */
  ghost predicate Collects(add: Assembler, s: Source, stage: Stage, base: Frames) {
    && 0 < CountOf(s) && stage(base, 0)
    && forall table, n: nat {:trigger CollectsNext(add, s, stage, base, table, n)} ::
         n < CountOf(s) && stage(table, n) ==> CollectsNext(add, s, stage, base, table, n)
  }

  ghost predicate CollectsNext(add: Assembler, s: Source, stage: Stage, base: Frames, table: Frames, n: nat)
    requires n < CountOf(s)
  {
    var (after, r) := add(table, Sent(s, n));
    if n + 1 == CountOf(s) then after == base && Delivered(r) == [DataOf(s)]
    else stage(after, n + 1) && Delivered(r) == []
  }

  lemma {:induction false} ReassemblerTakesLast(s: Source, limits: Limits, base: Frames, table: Frames, n: nat)
    requires Fits(s, limits, base) && n + 1 == CountOf(s) && Partway(s, limits, base, table, n)
    ensures CollectsNext(Adding(limits), s, Stages(s, limits, base), base, table, n)
  {
    LastStep(s, limits, base, table, n);
  }

  lemma {:induction false} NextIs(
    add: Assembler, s: Source, stage: Stage, base: Frames, table: Frames, n: nat, after: Frames, r: Outcome)
    requires n + 1 < CountOf(s) && add(table, Sent(s, n)) == (after, r) && stage(after, n + 1) && Delivered(r) == []
    ensures CollectsNext(add, s, stage, base, table, n)
  {
  }

  lemma {:induction false} StageAfter(s: Source, limits: Limits, base: Frames, table: Frames, n: nat)
    returns (after: Frames, r: Outcome)
    requires Fits(s, limits, base) && n + 1 < CountOf(s) && Partway(s, limits, base, table, n)
    ensures AddStep(limits, table, Sent(s, n)) == (after, r)
    ensures Stages(s, limits, base)(after, n + 1) && Delivered(r) == []
  {
    PartwayStep(s, limits, base, table, n);
    after, r := AddStep(limits, table, Sent(s, n)).0, AddStep(limits, table, Sent(s, n)).1;
  }

  lemma {:induction false} ReassemblerTakesNext(s: Source, limits: Limits, base: Frames, table: Frames, n: nat)
    requires Fits(s, limits, base) && n + 1 < CountOf(s) && Partway(s, limits, base, table, n)
    ensures CollectsNext(Adding(limits), s, Stages(s, limits, base), base, table, n)
  {
    var after, r := StageAfter(s, limits, base, table, n);
    NextIs(Adding(limits), s, Stages(s, limits, base), base, table, n, after, r);
  }

  lemma {:induction false} ReassemblerCollects(s: Source, limits: Limits, base: Frames)
    requires Fits(s, limits, base)
    ensures Collects(Adding(limits), s, Stages(s, limits, base), base)
  {
    var stage := Stages(s, limits, base);
    PartwayStart(s, limits, base);
    forall table, n: nat | n < CountOf(s) && stage(table, n) ensures CollectsNext(Adding(limits), s, stage, base, table, n) {
      if n + 1 == CountOf(s) {
        ReassemblerTakesLast(s, limits, base, table, n);
      } else {
        ReassemblerTakesNext(s, limits, base, table, n);
      }
    }
  }

  /** `ps` has brought the first `n` fragments in, and nothing out. */
  ghost predicate InProgress(add: Assembler, stage: Stage, base: Frames, ps: seq<Packet>, n: nat) {
    stage(Fed(add, base, ps), n) && Outputs(add, base, ps) == []
  }

  /** One more fragment in order. */
  lemma {:induction false} CollectedMore(add: Assembler, s: Source, stage: Stage, base: Frames, ps: seq<Packet>, n: nat)
    requires Collects(add, s, stage, base) && n + 1 < CountOf(s) && InProgress(add, stage, base, ps, n)
    ensures InProgress(add, stage, base, ps + [Sent(s, n)], n + 1)
  {
    FeedLast(add, base, ps, Sent(s, n));
    assert CollectsNext(add, s, stage, base, Fed(add, base, ps), n);
  }

  lemma {:induction false} CollectedLast(add: Assembler, s: Source, stage: Stage, base: Frames, ps: seq<Packet>, n: nat)
    requires Collects(add, s, stage, base) && n + 1 == CountOf(s) && InProgress(add, stage, base, ps, n)
    ensures Fed(add, base, ps + [Sent(s, n)]) == base && Outputs(add, base, ps + [Sent(s, n)]) == [DataOf(s)]
  {
    FeedLast(add, base, ps, Sent(s, n));
    assert CollectsNext(add, s, stage, base, Fed(add, base, ps), n);
  }

  lemma {:induction false} ProgressAfter(add: Assembler, s: Source, stage: Stage, base: Frames, n: nat)
    requires Collects(add, s, stage, base) && n < CountOf(s)
    ensures InProgress(add, stage, base, AllSent(s, n), n)
  {
    if n > 0 {
      ProgressAfter(add, s, stage, base, n - 1);
      CollectedMore(add, s, stage, base, AllSent(s, n - 1), n - 1);
    }
  }

  /** A whole frame comes out once, and the table is as it was. */
  lemma {:induction false} FrameComesOut(add: Assembler, s: Source, stage: Stage, base: Frames)
    requires Collects(add, s, stage, base)
    ensures Fed(add, base, AllSent(s, CountOf(s))) == base
    ensures Outputs(add, base, AllSent(s, CountOf(s))) == [DataOf(s)]
  {
    var n := CountOf(s) - 1;
    ProgressAfter(add, s, stage, base, n);
    CollectedLast(add, s, stage, base, AllSent(s, n), n);
  }

  // ---------------------------------------------------------------------------------
  // A stream of frames.

  ghost predicate AllCollected(add: Assembler, ss: seq<Source>, limits: Limits, base: Frames) {
    forall i :: 0 <= i < |ss| ==> Collects(add, ss[i], Stages(ss[i], limits, base), base)
  }

  lemma {:induction false} FramesComeOut(add: Assembler, ss: seq<Source>, limits: Limits, base: Frames)
    requires AllCollected(add, ss, limits, base)
    ensures Fed(add, base, StreamOf(ss)) == base
    ensures Outputs(add, base, StreamOf(ss)) == DataOfAll(ss)
  {
    if ss != [] {
      var before, s := ss[..|ss| - 1], ss[|ss| - 1];
      FramesComeOut(add, before, limits, base);
      FedAppend(add, base, StreamOf(before), AllSent(s, CountOf(s)));
      OutputsAppend(add, base, StreamOf(before), AllSent(s, CountOf(s)));
      FrameComesOut(add, s, Stages(s, limits, base), base);
    }
  }

  /** How many frames lie wholly within the first `n` packets. */
  function Whole(ss: seq<Source>, n: nat): (m: nat)
    ensures m <= |ss|
  {
    if ss == [] || |StreamOf(ss)| <= n then |ss| else Whole(ss[..|ss| - 1], n)
  }

  lemma {:induction false} FragmentsBegin(s: Source, n: nat)
    requires n <= CountOf(s)
    ensures AllSent(s, CountOf(s))[..n] == AllSent(s, n)
  {
  }

  /** `n` packets are the first `m` frames and a beginning of the next. */
  ghost predicate SplitsAt(ss: seq<Source>, n: nat, m: nat)
    requires m <= |ss| && n <= |StreamOf(ss)|
  {
    var whole := StreamOf(ss[..m]);
    && |whole| <= n
    && (if m == |ss| then StreamOf(ss)[..n] == whole
        else n < |whole| + CountOf(ss[m]) && StreamOf(ss)[..n] == whole + AllSent(ss[m], n - |whole|))
  }

  lemma {:induction false} SplitsInLast(ss: seq<Source>, n: nat)
    requires ss != [] && |StreamOf(ss[..|ss| - 1])| <= n < |StreamOf(ss)|
    ensures SplitsAt(ss, n, |ss| - 1)
  {
    var before, s := ss[..|ss| - 1], ss[|ss| - 1];
    var start := StreamOf(before);
    FragmentsBegin(s, n - |start|);
    assert (start + AllSent(s, CountOf(s)))[..n] == start + AllSent(s, CountOf(s))[..n - |start|];
  }

  lemma {:induction false} SplitsEarlier(ss: seq<Source>, n: nat, m: nat)
    requires ss != [] && n < |StreamOf(ss[..|ss| - 1])| <= |StreamOf(ss)|
    requires m < |ss| - 1 && SplitsAt(ss[..|ss| - 1], n, m)
    ensures SplitsAt(ss, n, m)
  {
    var before := ss[..|ss| - 1];
    assert before[..m] == ss[..m] && before[m] == ss[m];
    assert StreamOf(ss)[..n] == StreamOf(before)[..n];
  }

  /** Any prefix of the stream is some whole frames and the beginning of the next. */
  lemma {:induction false} PrefixSplits(ss: seq<Source>, n: nat)
    requires n <= |StreamOf(ss)|
    ensures SplitsAt(ss, n, Whole(ss, n))
    decreases |ss|
  {
    if ss == [] || |StreamOf(ss)| <= n {
      assert ss[..|ss|] == ss;
    } else {
      var before := ss[..|ss| - 1];
      if |StreamOf(before)| <= n {
        SplitsInLast(ss, n);
        assert Whole(before, n) == |before|;
      } else {
        PrefixSplits(before, n);
        WholeIsFewer(before, n);
        SplitsEarlier(ss, n, Whole(before, n));
      }
    }
  }

  lemma {:induction false} WholeIsFewer(ss: seq<Source>, n: nat)
    requires n < |StreamOf(ss)|
    ensures Whole(ss, n) < |ss|
  {
  }

  /** What comes out of a second run of packets when the first left the table as it was. */
  lemma {:induction false} Composes(add: Assembler, base: Frames, ps: seq<Packet>, qs: seq<Packet>)
    requires Fed(add, base, ps) == base && Outputs(add, base, qs) == []
    ensures Fed(add, base, ps + qs) == Fed(add, base, qs) && Outputs(add, base, ps + qs) == Outputs(add, base, ps)
  {
    FedAppend(add, base, ps, qs);
    OutputsAppend(add, base, ps, qs);
  }

  /** The table after `n` packets that hold `m` whole frames: the beginning of the next frame, and else as at first. */
  ghost predicate LeftWith(ss: seq<Source>, limits: Limits, base: Frames, table: Frames, n: nat, m: nat)
    requires m <= |ss| && |StreamOf(ss[..m])| <= n
  {
    if m == |ss| then table == base
    else Stages(ss[m], limits, base)(table, n - |StreamOf(ss[..m])|)
  }

  /** Any prefix of the stream hands out the frames that lie wholly within it. */
  lemma {:induction false} PrefixComesOut(add: Assembler, ss: seq<Source>, limits: Limits, base: Frames, n: nat)
    requires AllCollected(add, ss, limits, base) && n <= |StreamOf(ss)|
    ensures Outputs(add, base, StreamOf(ss)[..n]) == DataOfAll(ss[..Whole(ss, n)])
    ensures |StreamOf(ss[..Whole(ss, n)])| <= n && LeftWith(ss, limits, base, Fed(add, base, StreamOf(ss)[..n]), n, Whole(ss, n))
  {
    PrefixSplits(ss, n);
    SplitComesOut(add, ss, limits, base, n, Whole(ss, n));
  }

  lemma {:induction false} SomeCollected(add: Assembler, ss: seq<Source>, limits: Limits, base: Frames, m: nat)
    requires AllCollected(add, ss, limits, base) && m <= |ss|
    ensures AllCollected(add, ss[..m], limits, base)
  {
    forall i | 0 <= i < m ensures Collects(add, ss[..m][i], Stages(ss[..m][i], limits, base), base) {
      assert ss[..m][i] == ss[i];
    }
  }

  lemma {:induction false} SplitComesOut(add: Assembler, ss: seq<Source>, limits: Limits, base: Frames, n: nat, m: nat)
    requires AllCollected(add, ss, limits, base) && n <= |StreamOf(ss)| && m <= |ss| && SplitsAt(ss, n, m)
    ensures Outputs(add, base, StreamOf(ss)[..n]) == DataOfAll(ss[..m])
    ensures LeftWith(ss, limits, base, Fed(add, base, StreamOf(ss)[..n]), n, m)
  {
    SomeCollected(add, ss, limits, base, m);
    if m < |ss| {
      NextComesOut(add, ss, limits, base, StreamOf(ss)[..n], n, m);
    } else {
      FramesComeOut(add, ss[..m], limits, base);
    }
  }

  lemma {:induction false} NextComesOut(
    add: Assembler, ss: seq<Source>, limits: Limits, base: Frames, ps: seq<Packet>, n: nat, m: nat)
    requires m < |ss| && AllCollected(add, ss[..m], limits, base) && Collects(add, ss[m], Stages(ss[m], limits, base), base)
    requires n <= |StreamOf(ss)| && SplitsAt(ss, n, m) && ps == StreamOf(ss)[..n]
    ensures Outputs(add, base, ps) == DataOfAll(ss[..m]) && LeftWith(ss, limits, base, Fed(add, base, ps), n, m)
  {
    var before, rest := StreamOf(ss[..m]), n - |StreamOf(ss[..m])|;
    var begun := AllSent(ss[m], rest);
    SplitIs(ss, n, m);
    FramesComeOut(add, ss[..m], limits, base);
    ProgressAfter(add, ss[m], Stages(ss[m], limits, base), base, rest);
    Composes(add, base, before, begun);
  }

  lemma {:induction false} SplitIs(ss: seq<Source>, n: nat, m: nat)
    requires m < |ss| && n <= |StreamOf(ss)| && SplitsAt(ss, n, m)
    ensures StreamOf(ss)[..n] == StreamOf(ss[..m]) + AllSent(ss[m], n - |StreamOf(ss[..m])|)
  {
  }

  /** Feeding is what the reassembler object does, packet by packet. */
  lemma {:induction false} FedIsRun(limits: Limits, frames: Frames, ps: seq<Packet>)
    ensures Fed(Adding(limits), frames, ps) == RunFrames(limits, frames, ps)
    decreases |ps|
  {
    if ps != [] {
      FedIsRun(limits, frames, ps[..|ps| - 1]);
    }
  }

  /**
   * End to end.  The fragments of any frames, numbered through, cross a network that loses,
   * repeats and reorders them to a reliable stream whose packets feed a reassembler with room
   * for them.  What comes out is at any time exactly the data of the frames whose last
   * fragment has been taken, in order and once each, and the reassembler is left with the
   * fragments taken of the next frame and nothing else.
   */
  lemma {:induction false} EndToEnd(
    ss: seq<Source>, window: nat, gap: real, arrivals: seq<Arrival>, limits: Limits, base: Frames)
    requires Offers(StreamOf(ss), arrivals) && forall i :: 0 <= i < |ss| ==> Fits(ss[i], limits, base)
    ensures var taken := Packets(Taken(Opened(true, window, gap), arrivals));
      var m := Whole(ss, |taken|);
      && |StreamOf(ss[..m])| <= |taken| <= |StreamOf(ss)|
      && (m < |ss| ==> |taken| < |StreamOf(ss[..m])| + CountOf(ss[m]))
      && Outputs(Adding(limits), base, taken) == DataOfAll(ss[..m])
      && LeftWith(ss, limits, base, RunFrames(limits, base, taken), |taken|, m)
  {
    ReliableTakesPrefix(window, gap, StreamOf(ss), arrivals);
    var n := |Taken(Opened(true, window, gap), arrivals)|;
    PrefixSplits(ss, n);
    forall i | 0 <= i < |ss| ensures Collects(Adding(limits), ss[i], Stages(ss[i], limits, base), base) {
      ReassemblerCollects(ss[i], limits, base);
    }
    PrefixComesOut(Adding(limits), ss, limits, base, n);
    FedIsRun(limits, base, StreamOf(ss)[..n]);
  }
}
