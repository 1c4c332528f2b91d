/**
 * What the reassembler lets in and what it hands out (fasp_harness/streaming.py:38-120),
 * stated on the fields of packets and frames: a damaged or malformed fragment is refused and
 * changes nothing, and every byte handed out was vouched for by the checksum of its packet.
 */
module StreamIntegrity {
  import opened Common
  import opened Streaming

  /** The checksum of the payload is the one the packet carries. */
  predicate Checked(p: Packet) { p.payload.Some? && p.checksum == Some(Sha256(p.payload.value)) }

  /** Payload size, numbering and frame id are in the protocol's bounds. */
  predicate WellNumbered(p: Packet) {
    && p.count.Some? && p.index.Some? && p.frameId.Some?
    && 1 <= p.count.value <= 512 && 0 <= p.index.value < p.count.value && 1 <= |p.frameId.value| <= 128
  }

  predicate Sized(p: Packet) { p.payload.Some? && |p.payload.value| <= 40960 }

  /** Which packets are refused on their own, and how; a refused packet changes nothing. */
  lemma {:induction false} RefusedExactly(limits: Limits, frames: Frames, p: Packet)
    ensures var (after, r) := AddStep(limits, frames, p);
      && (r.Ok? ==> Sized(p) && Checked(p) && WellNumbered(p))
      && (r == Err(ChecksumMismatch) <==> Sized(p) && !Checked(p))
      && (!Sized(p) || (Checked(p) && !WellNumbered(p)) ==> r == Err(InvalidFragment))
      && (!(Sized(p) && Checked(p) && WellNumbered(p)) ==> after == frames)
  {
  }

  /** The bytes the frame would hold: those it has, and the payload if its index is new. */
  ghost function Demand(frames: Frames, p: Packet): nat
    requires WellNumbered(p) && p.payload.Some?
  {
    var id, i: nat := p.frameId.value, p.index.value;
    if id !in frames then |p.payload.value|
    else Sum(frames[id].parts, frames[id].count) + (if i in frames[id].parts then 0 else |p.payload.value|)
  }

  /** The fragments the frame would hold: the first payload of an index counts. */
  ghost function Gathered(frames: Frames, p: Packet): Parts
    requires WellNumbered(p) && p.payload.Some?
  {
    var id, i: nat := p.frameId.value, p.index.value;
    if id !in frames then map[i := p.payload.value]
    else if i in frames[id].parts then frames[id].parts
    else frames[id].parts[i := p.payload.value]
  }

  ghost predicate Lacks(parts: Parts, n: nat) { exists k: nat :: k < n && k !in parts }

  lemma {:induction false} GatheredIsStored(limits: Limits, frames: Frames, p: Packet)
    requires Valid(limits, frames) && Sized(p) && WellNumbered(p)
    requires p.frameId.value in frames ==> frames[p.frameId.value].count == p.count.value
    ensures var f := FrameOf(frames, p.frameId.value, p.count.value);
      var g := Stored(f, p.index.value, p.payload.value);
      && g.parts == Gathered(frames, p) && g.bytes == Demand(frames, p) && g.count == p.count.value
      && Sum(g.parts, g.count) == g.bytes && (|g.parts| != g.count <==> Lacks(g.parts, g.count))
  {
    var id, i: nat := p.frameId.value, p.index.value;
    FrameOfIsOpen(limits, frames, id, p.count.value);
    StoredIsOpen(limits, FrameOf(frames, id, p.count.value), i, p.payload.value);
  }

  /** What becomes of a frame that holds these fragments, and the answer. */
  ghost predicate Settles(limits: Limits, parts: Parts, bytes: nat, n: nat, f: Option<Frame>, r: Outcome) {
    if bytes > limits.maxFrameBytes then f == None && r == Err(Exhausted)
    else if Lacks(parts, n) then f.Some? && f.value.count == n && f.value.parts == parts && r == Ok(None)
    else f == None && r == Ok(Some(Joined(parts, n)))
  }

  lemma {:induction false} OfferSettles(limits: Limits, frames: Frames, p: Packet)
    requires Valid(limits, frames) && Sized(p) && WellNumbered(p)
    requires p.frameId.value in frames ==> frames[p.frameId.value].count == p.count.value
    ensures var (f, r) := Offered(limits, FrameOf(frames, p.frameId.value, p.count.value), p.index.value, p.payload.value);
      Settles(limits, Gathered(frames, p), Demand(frames, p), p.count.value, f, r)
  {
    GatheredIsStored(limits, frames, p);
  }

  function FrameAt(frames: Frames, id: string): Option<Frame> { if id in frames then Some(frames[id]) else None }

  lemma {:induction false} WithFrameIs(frames: Frames, id: string, f: Option<Frame>)
    ensures WithFrame(frames, id, f) - {id} == frames - {id} && FrameAt(WithFrame(frames, id, f), id) == f
  {
  }

  /** The frame is new and there is room for it, or it is known with this packet's count. */
  predicate Welcome(limits: Limits, frames: Frames, p: Packet)
    requires WellNumbered(p)
  {
    var id := p.frameId.value;
    if id in frames then frames[id].count == p.count.value else |frames| < limits.maxInflight
  }

  /** An intact packet that is turned away: the table is full, or the count is not the frame's. */
  lemma {:induction false} TurnedAway(limits: Limits, frames: Frames, p: Packet)
    requires Sized(p) && Checked(p) && WellNumbered(p) && !Welcome(limits, frames, p)
    ensures AddStep(limits, frames, p) ==
      (frames, if p.frameId.value in frames then Err(InvalidFragment) else Err(Exhausted))
  {
  }

  lemma {:induction false} WelcomeIsOffered(limits: Limits, frames: Frames, p: Packet)
    requires Sized(p) && Checked(p) && WellNumbered(p) && Welcome(limits, frames, p)
    ensures var (f, r) := Offered(limits, FrameOf(frames, p.frameId.value, p.count.value), p.index.value, p.payload.value);
      AddStep(limits, frames, p) == (WithFrame(frames, p.frameId.value, f), r)
  {
  }

  /**
   * An intact packet that is let in, on the fields of the table.  If the frame would hold too
   * many bytes, it is dropped.  Otherwise the fragment is kept, an earlier one of its index
   * taking precedence; with every index there, the joined bytes are handed out and the frame
   * goes.  Other frames never change.
   */
  lemma {:induction false} LetIn(limits: Limits, frames: Frames, p: Packet)
    requires Valid(limits, frames) && Sized(p) && Checked(p) && WellNumbered(p) && Welcome(limits, frames, p)
    ensures var (after, r) := AddStep(limits, frames, p);
      && after - {p.frameId.value} == frames - {p.frameId.value}
      && Settles(limits, Gathered(frames, p), Demand(frames, p), p.count.value, FrameAt(after, p.frameId.value), r)
  {
    var (f, r) := Offered(limits, FrameOf(frames, p.frameId.value, p.count.value), p.index.value, p.payload.value);
    OfferSettles(limits, frames, p);
    WelcomeIsOffered(limits, frames, p);
    WithFrameIs(frames, p.frameId.value, f);
  }

  // ---------------------------------------------------------------------------------
  // Over runs.

  /** Some packet of `ps` carried these bytes as fragment `i` of this frame, under their own checksum. */
  ghost predicate Vouched(ps: seq<Packet>, id: string, i: nat, d: Bytes) {
    exists j :: 0 <= j < |ps| && Carries(ps[j], id, i, d)
  }

  predicate Carries(p: Packet, id: string, i: nat, d: Bytes) {
    p.frameId == Some(id) && p.index == Some(i as int) && p.payload == Some(d) && p.checksum == Some(Sha256(d))
  }

  ghost predicate AllVouched(ps: seq<Packet>, id: string, parts: Parts) {
    forall i :: i in parts ==> Vouched(ps, id, i, parts[i])
  }

  ghost predicate TableVouched(ps: seq<Packet>, frames: Frames) {
    forall id :: id in frames ==> AllVouched(ps, id, frames[id].parts)
  }

  lemma {:induction false} VouchedStays(ps: seq<Packet>, p: Packet, id: string, parts: Parts)
    requires AllVouched(ps, id, parts)
    ensures AllVouched(ps + [p], id, parts)
  {
    forall i | i in parts ensures Vouched(ps + [p], id, i, parts[i]) {
      var j :| 0 <= j < |ps| && Carries(ps[j], id, i, parts[i]);
      assert (ps + [p])[j] == ps[j];
    }
  }

  lemma {:induction false} GatheredIsVouched(ps: seq<Packet>, frames: Frames, p: Packet)
    requires TableVouched(ps, frames) && Sized(p) && Checked(p) && WellNumbered(p)
    ensures AllVouched(ps + [p], p.frameId.value, Gathered(frames, p))
  {
    var id, parts := p.frameId.value, Gathered(frames, p);
    if id in frames {
      VouchedStays(ps, p, id, frames[id].parts);
    }
    assert (ps + [p])[|ps|] == p;
  }

  lemma {:induction false} OthersAreVouched(ps: seq<Packet>, p: Packet, frames: Frames, after: Frames, own: string)
    requires TableVouched(ps, frames) && after - {own} == frames - {own}
    requires own in after ==> AllVouched(ps + [p], own, after[own].parts)
    ensures TableVouched(ps + [p], after)
  {
    forall id | id in after ensures AllVouched(ps + [p], id, after[id].parts) {
      if id != own {
        assert id in after - {own} && id in frames - {own} && after[id] == frames[id];
        VouchedStays(ps, p, id, frames[id].parts);
      }
    }
  }

  lemma {:induction false} TableStaysVouched(ps: seq<Packet>, p: Packet, frames: Frames)
    requires TableVouched(ps, frames)
    ensures TableVouched(ps + [p], frames)
  {
    forall id | id in frames ensures AllVouched(ps + [p], id, frames[id].parts) {
      VouchedStays(ps, p, id, frames[id].parts);
    }
  }

  lemma {:induction false} LetInIsVouched(limits: Limits, ps: seq<Packet>, frames: Frames, p: Packet)
    requires Valid(limits, frames) && TableVouched(ps, frames)
    requires Sized(p) && Checked(p) && WellNumbered(p) && Welcome(limits, frames, p)
    ensures TableVouched(ps + [p], AddStep(limits, frames, p).0)
  {
    LetIn(limits, frames, p);
    GatheredIsVouched(ps, frames, p);
    OthersAreVouched(ps, p, frames, AddStep(limits, frames, p).0, p.frameId.value);
  }

  lemma {:induction false} StepIsVouched(limits: Limits, ps: seq<Packet>, frames: Frames, p: Packet)
    requires Valid(limits, frames) && TableVouched(ps, frames)
    ensures TableVouched(ps + [p], AddStep(limits, frames, p).0)
  {
    TableStaysVouched(ps, p, frames);
    RefusedExactly(limits, frames, p);
    if Sized(p) && Checked(p) && WellNumbered(p) {
      if Welcome(limits, frames, p) {
        LetInIsVouched(limits, ps, frames, p);
      } else {
        TurnedAway(limits, frames, p);
      }
    }
  }

  lemma {:induction false} TableIsVouched(limits: Limits, ps: seq<Packet>)
    ensures TableVouched(ps, RunFrames(limits, map[], ps))
    decreases |ps|
  {
    if ps != [] {
      var before, p := ps[..|ps| - 1], ps[|ps| - 1];
      TableIsVouched(limits, before);
      RunKeepsValid(limits, map[], before);
      StepIsVouched(limits, before, RunFrames(limits, map[], before), p);
      assert before + [p] == ps;
    }
  }

  /**
   * Integrity.  After any packets at all, whatever the next packet makes the reassembler hand
   * out is the concatenation of one fragment per index, each of which some packet carried for
   * that frame and index with the checksum of exactly these bytes; so is everything it holds.
   */
  lemma {:induction false} Integrity(limits: Limits, ps: seq<Packet>, p: Packet)
    ensures TableVouched(ps, RunFrames(limits, map[], ps))
    ensures var r := AddStep(limits, RunFrames(limits, map[], ps), p).1;
      r.Ok? && r.value.Some? ==>
        && WellNumbered(p)
        && exists parts: Parts :: HandsOut(ps + [p], p.frameId.value, p.count.value, parts, r.value.value)
  {
    var frames := RunFrames(limits, map[], ps);
    TableIsVouched(limits, ps);
    RunKeepsValid(limits, map[], ps);
    RefusedExactly(limits, frames, p);
    if Sized(p) && Checked(p) && WellNumbered(p) && Welcome(limits, frames, p) {
      LetIn(limits, frames, p);
      GatheredIsVouched(ps, frames, p);
      var parts := Gathered(frames, p);
      if !Lacks(parts, p.count.value) {
        assert HandsOut(ps + [p], p.frameId.value, p.count.value, parts, Joined(parts, p.count.value));
      }
    }
  }

  /** The bytes are those of vouched fragments, one for every index. */
  ghost predicate HandsOut(ps: seq<Packet>, id: string, n: int, parts: Parts, output: Bytes) {
    n >= 0 && !Lacks(parts, n) && AllVouched(ps, id, parts) && output == Joined(parts, n)
  }
}
