/**
 * Fragmentation and bounded reassembly of stream frames (fasp_harness/streaming.py:49-120).
 * The base64url payload is represented by the bytes it decodes to (none when it is missing
 * or not canonical), and SHA-256 by an injective constructor.
 */
module Streaming {
  import opened Common

  const MaxPacketBytes: nat := 40 * 1024
  const MaxFrameBytes: nat := 4 * 1024 * 1024
  const MaxWindow: nat := 512

  newtype Byte = x: int | 0 <= x < 256

  type Bytes = seq<Byte>

  datatype Checksum = Sha256(content: Bytes)

  /** A packet off the wire: a field that is missing or of the wrong type is `None`. */
  datatype Packet = Packet(
    sequence: int, contentType: string, frameId: Option<string>, index: Option<int>, count: Option<int>,
    payload: Option<Bytes>, checksum: Option<Checksum>)

  datatype Error = InvalidFragment | ChecksumMismatch | Exhausted

  // ---------------------------------------------------------------------------------
  // Fragmentation.

  /** The data cut into pieces of `max` bytes, the last one possibly shorter; one empty piece if there are none. */
  function Chunks(data: Bytes, max: nat): (chunks: seq<Bytes>)
    requires max >= 1
    ensures |chunks| >= 1 && forall k :: 0 <= k < |chunks| ==> |chunks[k]| <= max
    decreases |data|
  {
    if |data| <= max then [data] else [data[..max]] + Chunks(data[max..], max)
  }

  function Concat(chunks: seq<Bytes>): Bytes {
    if chunks == [] then [] else Concat(chunks[..|chunks| - 1]) + chunks[|chunks| - 1]
  }

  /** A frame on its way: its id, its numbering and its pieces. */
  datatype Source = Source(frameId: string, start: int, contentType: string, chunks: seq<Bytes>)

  function Sent(s: Source, k: nat): Packet
    requires k < |s.chunks|
  {
    Packet(
      s.start + k, s.contentType, Some(s.frameId), Some(k), Some(|s.chunks|), Some(s.chunks[k]), Some(Sha256(s.chunks[k])))
  }

  /** The inputs that `packetize` does not refuse. */
  predicate Packetizable(data: Bytes, contentType: string, max: int) {
    && 1 <= max <= MaxPacketBytes
    && (contentType == "application/json" ==> |data| <= max)
    && |data| <= MaxFrameBytes
    && |Chunks(data, max)| <= MaxWindow
  }

  function Cut(frameId: string, start: int, data: Bytes, contentType: string, max: int): Source
    requires max >= 1
  {
    Source(frameId, start, contentType, Chunks(data, max))
  }

  method CountOfChunks(data: Bytes, max: nat) returns (count: nat)
    requires max >= 1
    ensures count == |Chunks(data, max)|
  {
    CountIsCeiling(data, max);
    var ceiling := (|data| + max - 1) / max;
    count := if ceiling > 1 then ceiling else 1;
  }

  method ChunkAt(data: Bytes, max: nat, index: nat) returns (chunk: Bytes)
    requires max >= 1 && index < |Chunks(data, max)|
    ensures chunk == Chunks(data, max)[index]
  {
    SliceIsChunk(data, max, index);
    chunk := Slice(data, index * max, (index + 1) * max);
  }

  method Packetize(frameId: string, start: int, data: Bytes, contentType: string, max: int)
    returns (r: Option<seq<Packet>>)
    ensures r.Some? <==> Packetizable(data, contentType, max)
    ensures r.Some? <==>
      && 1 <= max && max <= MaxPacketBytes && |data| <= MaxFrameBytes && |data| <= MaxWindow * max
      && (|data| > max ==> contentType != "application/json")
    ensures r.Some? ==>
      var s := Cut(frameId, start, data, contentType, max);
      && |r.value| == |s.chunks| && Concat(s.chunks) == data
      && forall k :: 0 <= k < |r.value| ==> r.value[k] == Sent(s, k)
    // The numbering of the packets, each under the checksum of its own piece.
    ensures r.Some? ==> forall k :: 0 <= k < |r.value| ==>
      var p, piece := r.value[k], Chunks(data, max)[k];
      && p.sequence == start + k && p.contentType == contentType && p.frameId == Some(frameId)
      && p.index == Some(k) && p.count == Some(|r.value|) && p.payload == Some(piece) && p.checksum == Some(Sha256(piece))
  {
    AcceptedExactly(data, contentType, max);
    if !(1 <= max <= MaxPacketBytes) { return None; }
    if contentType == "application/json" && |data| > max { return None; }
    if |data| > MaxFrameBytes { return None; }
    var count := CountOfChunks(data, max);
    if count > MaxWindow { return None; }
    ghost var s := Cut(frameId, start, data, contentType, max);
    var out: seq<Packet> := [];
    for index := 0 to count
      invariant |out| == index
      invariant forall k :: 0 <= k < index ==> out[k] == Sent(s, k)
    {
      var chunk := ChunkAt(data, max, index);
      out := out + [Packet(start + index, contentType, Some(frameId), Some(index), Some(count), Some(chunk), Some(Sha256(chunk)))];
    }
    ConcatChunks(data, max);
    r := Some(out);
  }

  /** Python's `data[from : to]`: bounds past the end are clamped. */
  function Slice(data: Bytes, from: nat, to: nat): Bytes
    requires from <= to
  {
    var a := if from <= |data| then from else |data|;
    var b := if to <= |data| then to else |data|;
    data[a..b]
  }

  lemma {:induction false} TimesGrows(a: nat, b: nat, m: nat)
    requires a <= b
    ensures a * m <= b * m
  {
  }

  lemma {:induction false} TimesNext(a: nat, m: nat)
    requires a >= 1
    ensures (a - 1) * m + m == a * m && (a - 1) * m >= 0
  {
  }

  lemma {:induction false} SliceShifts(data: Bytes, max: nat, from: nat, to: nat)
    requires max <= |data| && max <= from <= to
    ensures Slice(data, from, to) == Slice(data[max..], from - max, to - max)
  {
  }

  lemma {:induction false} SliceIsChunk(data: Bytes, max: nat, k: nat)
    requires max >= 1 && k < |Chunks(data, max)|
    ensures 0 <= k * max <= (k + 1) * max && Slice(data, k * max, (k + 1) * max) == Chunks(data, max)[k]
    decreases k
  {
    TimesNext(k + 1, max);
    if k > 0 {
      TimesNext(k, max);
      SliceIsChunk(data[max..], max, k - 1);
      SliceShifts(data, max, k * max, (k + 1) * max);
    } else {
      assert data[..|data|] == data;
    }
  }

  /** The number of pieces is the length divided by the piece size, rounded up, and at least one. */
  lemma {:induction false} CountIsCeiling(data: Bytes, max: nat)
    requires max >= 1
    ensures var ceiling := (|data| + max - 1) / max; |Chunks(data, max)| == (if ceiling > 1 then ceiling else 1)
    decreases |data|
  {
    var len := |data|;
    if len <= max {
      DivideIs(len + max - 1, max, if len == 0 then 0 else 1, if len == 0 then max - 1 else len - 1);
    } else {
      CountIsCeiling(data[max..], max);
      var q, r := (len - 1) / max, (len - 1) % max;
      TimesNext(q + 1, max);
      DivideIs(len + max - 1, max, q + 1, r);
    }
  }

  lemma {:induction false} DivideIs(a: nat, max: nat, q: nat, r: nat)
    requires max >= 1 && a == q * max + r && r < max
    ensures a / max == q
  {
    var q', r' := a / max, a % max;
    assert a == q' * max + r';
    if q' < q {
      TimesGrows(q' + 1, q, max);
      TimesNext(q' + 1, max);
    } else if q < q' {
      TimesGrows(q + 1, q', max);
      TimesNext(q + 1, max);
    }
  }

  /** At most `n` pieces are cut if and only if the data are at most `n` times the piece size. */
  lemma {:induction false} WindowFitsExactly(data: Bytes, max: nat, n: nat)
    requires max >= 1 && n >= 1
    ensures |Chunks(data, max)| <= n <==> |data| <= n * max
    decreases n
  {
    TimesNext(n, max);
    if |data| > max && n > 1 {
      WindowFitsExactly(data[max..], max, n - 1);
    }
  }

  /** What `packetize` takes, by the length of the data. */
  lemma {:induction false} AcceptedExactly(data: Bytes, contentType: string, max: int)
    ensures Packetizable(data, contentType, max) <==>
      && 1 <= max && max <= MaxPacketBytes && |data| <= MaxFrameBytes && |data| <= MaxWindow * max
      && (|data| > max ==> contentType != "application/json")
  {
    if max >= 1 {
      WindowFitsExactly(data, max, MaxWindow);
    }
  }

  lemma {:induction false} ConcatFront(first: Bytes, rest: seq<Bytes>)
    ensures Concat([first] + rest) == first + Concat(rest)
    decreases |rest|
  {
    if rest == [] {
      assert ([first] + rest)[..0] == [];
    } else {
      var n := |rest| - 1;
      ConcatFront(first, rest[..n]);
      assert ([first] + rest)[..n + 1] == [first] + rest[..n];
    }
  }

  /** Cutting loses nothing. */
  lemma {:induction false} ConcatChunks(data: Bytes, max: nat)
    requires max >= 1
    ensures Concat(Chunks(data, max)) == data
    decreases |data|
  {
    if |data| <= max {
      ConcatFront(data, []);
      assert [data] + [] == [data];
    } else {
      ConcatChunks(data[max..], max);
      ConcatFront(data[..max], Chunks(data[max..], max));
    }
  }

  // ---------------------------------------------------------------------------------
  // Parts of a frame.

  type Parts = map<nat, Bytes>

  function At(parts: Parts, k: nat): Bytes { if k in parts then parts[k] else [] }

  function Joined(parts: Parts, n: nat): Bytes { if n == 0 then [] else Joined(parts, n - 1) + At(parts, n - 1) }

  function Sum(parts: Parts, n: nat): nat { if n == 0 then 0 else Sum(parts, n - 1) + |At(parts, n - 1)| }

  ghost predicate Within(keys: set<nat>, n: nat) { forall k :: k in keys ==> k < n }

  ghost predicate Covers(keys: set<nat>, n: nat) { forall k: nat :: k < n ==> k in keys }

  /** The source compares a number of parts with the count; that is the same as having them all. */
  lemma {:induction false} FullExactly(keys: set<nat>, n: nat)
    requires Within(keys, n)
    ensures |keys| <= n && (|keys| == n <==> Covers(keys, n))
  {
    if n > 0 {
      var fewer := keys - {n - 1};
      FullExactly(fewer, n - 1);
      assert |keys| == |fewer| + (if n - 1 in keys then 1 else 0);
      assert Covers(keys, n) <==> Covers(fewer, n - 1) && n - 1 in keys;
    }
  }

  lemma {:induction false} SumAfter(parts: Parts, i: nat, d: Bytes, n: nat)
    requires i !in parts
    ensures Sum(parts[i := d], n) == Sum(parts, n) + (if i < n then |d| else 0)
  {
    if n > 0 {
      SumAfter(parts, i, d, n - 1);
    }
  }

  lemma {:induction false} JoinedLength(parts: Parts, n: nat)
    ensures |Joined(parts, n)| == Sum(parts, n)
  {
    if n > 0 {
      JoinedLength(parts, n - 1);
    }
  }

  lemma {:induction false} EmptySum(n: nat)
    ensures Sum(map[], n) == 0
  {
    if n > 0 {
      EmptySum(n - 1);
    }
  }

  method JoinParts(parts: Parts, count: nat) returns (output: Bytes)
    ensures output == Joined(parts, count) && |output| == Sum(parts, count)
  {
    output := [];
    for part := 0 to count
      invariant output == Joined(parts, part)
    {
      output := output + At(parts, part);
    }
    JoinedLength(parts, count);
  }

  // ---------------------------------------------------------------------------------
  // Reassembly.

  datatype Frame = Frame(count: nat, parts: Parts, bytes: nat)

  type Frames = map<string, Frame>

  datatype Limits = Limits(maxFrameBytes: nat, maxInflight: nat)

  type Outcome = Result<Option<Bytes>, Error>

  /** What is wrong with a packet on its own, in the order the source looks. */
  function Malformed(p: Packet): Option<Error> {
    if p.payload.None? || |p.payload.value| > MaxPacketBytes then Some(InvalidFragment)
    else if p.checksum != Some(Sha256(p.payload.value)) then Some(ChecksumMismatch)
    else if p.count.None? || p.index.None? then Some(InvalidFragment)
    else if !(1 <= p.count.value <= MaxWindow) || !(0 <= p.index.value < p.count.value) then Some(InvalidFragment)
    else if p.frameId.None? || !(1 <= |p.frameId.value| <= 128) then Some(InvalidFragment)
    else None
  }

  function Stored(f: Frame, i: nat, d: Bytes): Frame {
    if i in f.parts then f else Frame(f.count, f.parts[i := d], f.bytes + |d|)
  }

  /** What becomes of a frame once fragment `i` has been offered to it: kept or not, and the answer. */
  function Offered(limits: Limits, f: Frame, i: nat, d: Bytes): (Option<Frame>, Outcome) {
    var g := Stored(f, i, d);
    if g.bytes > limits.maxFrameBytes then (None, Err(Exhausted))
    else if |g.parts| != g.count then (Some(g), Ok(None))
    else (None, Ok(Some(Joined(g.parts, g.count))))
  }

  function WithFrame(frames: Frames, id: string, f: Option<Frame>): Frames {
    if f.Some? then frames[id := f.value] else frames - {id}
  }

  predicate Room(limits: Limits, frames: Frames, id: string) {
    id in frames || |frames| < limits.maxInflight
  }

  function FrameOf(frames: Frames, id: string, count: nat): Frame {
    if id in frames then frames[id] else Frame(count, map[], 0)
  }

  function AddStep(limits: Limits, frames: Frames, p: Packet): (Frames, Outcome) {
    if Malformed(p).Some? then (frames, Err(Malformed(p).value)) else
    var id := p.frameId.value;
    if !Room(limits, frames, id) then (frames, Err(Exhausted)) else
    var f := FrameOf(frames, id, p.count.value);
    if f.count != p.count.value then (frames, Err(InvalidFragment)) else
    var (g, r) := Offered(limits, f, p.index.value, p.payload.value);
    (WithFrame(frames, id, g), r)
  }

  class Reassembler {
    const limits: Limits
    var frames: Frames

    /** The source refuses other limits. */
    constructor (limits: Limits)
      requires limits.maxFrameBytes >= 1 && limits.maxInflight >= 1
      ensures this.limits == limits && frames == map[]
    {
      this.limits, frames := limits, map[];
    }

    method Add(p: Packet) returns (r: Outcome)
      modifies this
      ensures (frames, r) == AddStep(limits, old(frames), p)
    {
      var bad := Malformed(p);
      if bad.Some? { return Err(bad.value); }
      var id, count, index, data := p.frameId.value, p.count.value, p.index.value, p.payload.value;
      if id !in frames && |frames| >= limits.maxInflight { return Err(Exhausted); }
      if id !in frames { frames := frames[id := Frame(count, map[], 0)]; }
      var state := frames[id];
      if state.count != count { return Err(InvalidFragment); }
      if index !in state.parts {
        state := Frame(count, state.parts[index := data], state.bytes + |data|);
        frames := frames[id := state];
      }
      assert state == Stored(FrameOf(old(frames), id, count), index, data);
      assert frames == old(frames)[id := state];
      assert frames - {id} == old(frames) - {id};
      if state.bytes > limits.maxFrameBytes {
        frames := frames - {id};
        return Err(Exhausted);
      }
      if |state.parts| != count { return Ok(None); }
      var output := JoinParts(state.parts, count);
      frames := frames - {id};
      return Ok(Some(output));
    }
  }

  // ---------------------------------------------------------------------------------
  // Invariant and the memory bound.

  ghost predicate FrameOk(limits: Limits, f: Frame) {
    && 1 <= f.count <= MaxWindow && Within(f.parts.Keys, f.count)
    && 1 <= |f.parts| < f.count
    && f.bytes == Sum(f.parts, f.count) <= limits.maxFrameBytes
  }

  ghost predicate Valid(limits: Limits, frames: Frames) {
    && |frames| <= limits.maxInflight
    && forall id :: id in frames ==> FrameOk(limits, frames[id])
  }

  /** A frame that is held, or has just been opened for its first fragment. */
  ghost predicate Open(limits: Limits, f: Frame) {
    && 1 <= f.count <= MaxWindow && Within(f.parts.Keys, f.count)
    && f.bytes == Sum(f.parts, f.count)
  }

  lemma {:induction false} StoredIsOpen(limits: Limits, f: Frame, i: nat, d: Bytes)
    requires Open(limits, f) && i < f.count
    ensures var g := Stored(f, i, d);
      && Open(limits, g) && g.count == f.count && i in g.parts && 1 <= |g.parts| <= g.count
      && (|g.parts| == g.count <==> Covers(g.parts.Keys, g.count))
  {
    var g := Stored(f, i, d);
    if i !in f.parts {
      SumAfter(f.parts, i, d, f.count);
    }
    assert Within(g.parts.Keys, g.count);
    FullExactly(g.parts.Keys, g.count);
    assert g.parts.Keys != {};
  }

  /** A kept frame is in order; a frame that is delivered respects the byte limit and is complete. */
  lemma {:induction false} OfferedKeeps(limits: Limits, f: Frame, i: nat, d: Bytes)
    requires Open(limits, f) && i < f.count
    ensures var (g, r) := Offered(limits, f, i, d);
      && (g.Some? ==> FrameOk(limits, g.value))
      && (r.Ok? && r.value.Some? ==>
        && |r.value.value| == Sum(Stored(f, i, d).parts, f.count) <= limits.maxFrameBytes
        && Covers(Stored(f, i, d).parts.Keys, f.count))
  {
    StoredIsOpen(limits, f, i, d);
    var g := Stored(f, i, d);
    JoinedLength(g.parts, g.count);
  }

  lemma {:induction false} FrameOfIsOpen(limits: Limits, frames: Frames, id: string, count: nat)
    requires Valid(limits, frames) && 1 <= count <= MaxWindow
    ensures Open(limits, FrameOf(frames, id, count))
  {
    EmptySum(count);
  }

  lemma {:induction false} WithFrameSize(frames: Frames, id: string, f: Option<Frame>)
    ensures |WithFrame(frames, id, f)| <= |frames| + (if id in frames then 0 else 1)
  {
    var after := WithFrame(frames, id, f);
    if f.Some? {
      assert after.Keys == frames.Keys + {id};
    } else {
      assert after.Keys == frames.Keys - {id};
    }
  }

  /** Every packet, however malformed, leaves the table within its limits. */
  lemma {:induction false} AddKeepsValid(limits: Limits, frames: Frames, p: Packet)
    requires Valid(limits, frames)
    ensures Valid(limits, AddStep(limits, frames, p).0)
    ensures AddStep(limits, frames, p).1.Ok? && AddStep(limits, frames, p).1.value.Some? ==>
      |AddStep(limits, frames, p).1.value.value| <= limits.maxFrameBytes
  {
    if Malformed(p).None? && Room(limits, frames, p.frameId.value) {
      var id := p.frameId.value;
      var f := FrameOf(frames, id, p.count.value);
      FrameOfIsOpen(limits, frames, id, p.count.value);
      if f.count == p.count.value {
        OfferedKeeps(limits, f, p.index.value, p.payload.value);
        WithFrameSize(frames, id, Offered(limits, f, p.index.value, p.payload.value).0);
      }
    }
  }

  /** The bytes buffered over all incomplete frames. */
  ghost function Buffered(frames: Frames): nat
    decreases |frames|
  {
    if frames == map[] then 0 else
    var id :| id in frames;
    Sum(frames[id].parts, frames[id].count) + Buffered(frames - {id})
  }

  lemma {:induction false} BufferedBound(limits: Limits, frames: Frames)
    requires forall id :: id in frames ==> FrameOk(limits, frames[id])
    ensures Buffered(frames) <= |frames| * limits.maxFrameBytes
    decreases |frames|
  {
    if frames != map[] {
      var id :| id in frames && Buffered(frames) == Sum(frames[id].parts, frames[id].count) + Buffered(frames - {id});
      var rest := frames - {id};
      assert rest.Keys == frames.Keys - {id};
      assert |rest| == |frames| - 1;
      BufferedBound(limits, rest);
      assert FrameOk(limits, frames[id]);
      TimesNext(|frames|, limits.maxFrameBytes);
    }
  }

  function RunFrames(limits: Limits, frames: Frames, ps: seq<Packet>): Frames
    decreases |ps|
  {
    if ps == [] then frames
    else AddStep(limits, RunFrames(limits, frames, ps[..|ps| - 1]), ps[|ps| - 1]).0
  }

  lemma {:induction false} RunKeepsValid(limits: Limits, frames: Frames, ps: seq<Packet>)
    requires Valid(limits, frames)
    ensures Valid(limits, RunFrames(limits, frames, ps))
    decreases |ps|
  {
    if ps != [] {
      RunKeepsValid(limits, frames, ps[..|ps| - 1]);
      AddKeepsValid(limits, RunFrames(limits, frames, ps[..|ps| - 1]), ps[|ps| - 1]);
    }
  }

  /** After any packets at all, total buffering stays within the product of the two limits. */
  lemma {:induction false} MemoryBound(limits: Limits, ps: seq<Packet>)
    ensures var frames := RunFrames(limits, map[], ps);
      && Valid(limits, frames)
      && Buffered(frames) <= limits.maxInflight * limits.maxFrameBytes
  {
    RunKeepsValid(limits, map[], ps);
    var frames := RunFrames(limits, map[], ps);
    BufferedBound(limits, frames);
    TimesGrows(|frames|, limits.maxInflight, limits.maxFrameBytes);
  }

  // ---------------------------------------------------------------------------------
  // Round trip.

  /** Frames whose packets are well formed; `packetize` makes no others. */
  ghost predicate Sendable(s: Source) {
    && 1 <= |s.frameId| <= 128 && 1 <= |s.chunks| <= MaxWindow
    && forall k :: 0 <= k < |s.chunks| ==> |s.chunks[k]| <= MaxPacketBytes
  }

  function CountOf(s: Source): nat { |s.chunks| }

  lemma {:induction false} SentIsWellFormed(s: Source, k: nat)
    requires Sendable(s) && k < CountOf(s)
    ensures Malformed(Sent(s, k)).None?
  {
  }

  /** Every stored part is the chunk of its index. */
  ghost predicate Faithful(s: Source, parts: Parts) {
    forall k :: k in parts ==> k < |s.chunks| && parts[k] == s.chunks[k]
  }

  lemma {:induction false} FaithfulSum(s: Source, parts: Parts, n: nat)
    requires Faithful(s, parts) && n <= |s.chunks|
    ensures Sum(parts, n) <= |Concat(s.chunks[..n])|
  {
    if n > 0 {
      FaithfulSum(s, parts, n - 1);
      assert s.chunks[..n][..n - 1] == s.chunks[..n - 1];
    }
  }

  lemma {:induction false} FaithfulJoin(s: Source, parts: Parts, n: nat)
    requires Faithful(s, parts) && n <= |s.chunks| && forall k: nat :: k < n ==> k in parts
    ensures Joined(parts, n) == Concat(s.chunks[..n])
  {
    if n > 0 {
      FaithfulJoin(s, parts, n - 1);
      assert s.chunks[..n][..n - 1] == s.chunks[..n - 1];
    }
  }

  function DataOf(s: Source): Bytes { Concat(s.chunks) }

  /** The table holds exactly the fragments `got` of this frame. */
  ghost predicate Holds(s: Source, frames: Frames, got: set<nat>)
    requires Sendable(s)
  {
    && (got == {} <==> s.frameId !in frames)
    && (s.frameId in frames ==>
      && frames[s.frameId].count == CountOf(s)
      && frames[s.frameId].parts.Keys == got && Faithful(s, frames[s.frameId].parts))
  }

  ghost predicate Complete(s: Source, got: set<nat>)
    requires Sendable(s)
  {
    Covers(got, CountOf(s))
  }

  lemma {:induction false} StoreOwn(s: Source, f: Frame, k: nat)
    requires k < CountOf(s) && Faithful(s, f.parts)
    ensures var g := Stored(f, k, s.chunks[k]);
      g.count == f.count && g.parts.Keys == f.parts.Keys + {k} && Faithful(s, g.parts)
  {
  }

  lemma {:induction false} FullIsData(s: Source, parts: Parts)
    requires Faithful(s, parts)
    ensures Sum(parts, CountOf(s)) <= |DataOf(s)|
    ensures Covers(parts.Keys, CountOf(s)) ==> Joined(parts, CountOf(s)) == DataOf(s)
  {
    assert s.chunks[..|s.chunks|] == s.chunks;
    FaithfulSum(s, parts, CountOf(s));
    if Covers(parts.Keys, CountOf(s)) {
      FaithfulJoin(s, parts, CountOf(s));
    }
  }

  lemma {:induction false} OfferOwn(s: Source, limits: Limits, f: Frame, k: nat)
    requires |DataOf(s)| <= limits.maxFrameBytes && k < CountOf(s)
    requires Open(limits, f) && f.count == CountOf(s) && Faithful(s, f.parts)
    ensures var g := Stored(f, k, s.chunks[k]);
      Offered(limits, f, k, s.chunks[k]) ==
        (if Covers(g.parts.Keys, CountOf(s)) then (None, Ok(Some(DataOf(s)))) else (Some(g), Ok(None)))
  {
    var g := Stored(f, k, s.chunks[k]);
    StoredIsOpen(limits, f, k, s.chunks[k]);
    StoreOwn(s, f, k);
    FullIsData(s, g.parts);
  }

  /** One of the frame's own fragments: the data come back exactly when it was the last one missing. */
  lemma {:induction false} OwnStep(s: Source, limits: Limits, frames: Frames, got: set<nat>, k: nat)
    requires Sendable(s) && |DataOf(s)| <= limits.maxFrameBytes && k < CountOf(s)
    requires Valid(limits, frames) && Holds(s, frames, got) && Room(limits, frames, s.frameId)
    ensures var (after, r) := AddStep(limits, frames, Sent(s, k));
      if Complete(s, got + {k}) then r == Ok(Some(DataOf(s))) && Holds(s, after, {})
      else r == Ok(None) && Holds(s, after, got + {k})
  {
    SentIsWellFormed(s, k);
    FrameOfIsOpen(limits, frames, s.frameId, CountOf(s));
    var f := FrameOf(frames, s.frameId, CountOf(s));
    assert f.parts.Keys == got;
    StoreOwn(s, f, k);
    OfferOwn(s, limits, f, k);
  }

  /** A packet of another frame, or of none, does not touch this frame. */
  lemma {:induction false} OtherStep(s: Source, limits: Limits, frames: Frames, got: set<nat>, p: Packet)
    requires Sendable(s) && Holds(s, frames, got) && p.frameId != Some(s.frameId)
    ensures Holds(s, AddStep(limits, frames, p).0, got)
  {
  }

  /** Indices of the frame's own fragments among `ps`. */
  ghost function Arrived(s: Source, ps: seq<Packet>): set<nat>
    requires Sendable(s)
  {
    set k: nat | k < CountOf(s) && Sent(s, k) in ps
  }

  /** Whatever carries the frame's id is one of its fragments. */
  ghost predicate Honest(s: Source, ps: seq<Packet>)
    requires Sendable(s)
  {
    forall i :: 0 <= i < |ps| && ps[i].frameId == Some(s.frameId) ==> IsFragment(s, ps[i])
  }

  ghost predicate IsFragment(s: Source, p: Packet)
    requires Sendable(s)
  {
    exists k: nat :: k < CountOf(s) && p == Sent(s, k)
  }

  /** No own fragment meets a table that other frames have filled. */
  ghost predicate WithinInflight(s: Source, limits: Limits, frames: Frames, ps: seq<Packet>) {
    forall i :: 0 <= i < |ps| && ps[i].frameId == Some(s.frameId) ==>
      Room(limits, RunFrames(limits, frames, ps[..i]), s.frameId)
  }

  lemma {:induction false} ArrivedGrows(s: Source, ps: seq<Packet>, p: Packet)
    requires Sendable(s)
    ensures p.frameId != Some(s.frameId) ==> Arrived(s, ps + [p]) == Arrived(s, ps)
    ensures forall k: nat :: k < CountOf(s) && p == Sent(s, k) ==> Arrived(s, ps + [p]) == Arrived(s, ps) + {k}
  {
    forall k: nat | k < CountOf(s) && p == Sent(s, k) ensures Arrived(s, ps + [p]) == Arrived(s, ps) + {k} {
      forall j: nat | j < CountOf(s) ensures Sent(s, j) == p <==> j == k {
        assert Sent(s, j).index == Some(j as int) && Sent(s, k).index == Some(k as int);
      }
    }
  }

  lemma {:induction false} PrefixKeeps(s: Source, limits: Limits, frames: Frames, ps: seq<Packet>)
    requires Sendable(s) && ps != [] && Honest(s, ps) && WithinInflight(s, limits, frames, ps)
    ensures var before := ps[..|ps| - 1]; Honest(s, before) && WithinInflight(s, limits, frames, before)
  {
    var before := ps[..|ps| - 1];
    forall i | 0 <= i < |before| && before[i].frameId == Some(s.frameId)
      ensures Room(limits, RunFrames(limits, frames, before[..i]), s.frameId)
    {
      assert before[..i] == ps[..i] && ps[i] == before[i];
    }
  }

  /** While the frame is incomplete the table holds precisely what has arrived of it. */
  lemma {:induction false} Progress(s: Source, limits: Limits, frames: Frames, ps: seq<Packet>)
    requires Sendable(s) && |DataOf(s)| <= limits.maxFrameBytes
    requires Valid(limits, frames) && s.frameId !in frames
    requires Honest(s, ps) && WithinInflight(s, limits, frames, ps) && !Complete(s, Arrived(s, ps))
    ensures Holds(s, RunFrames(limits, frames, ps), Arrived(s, ps))
    decreases |ps|
  {
    if ps != [] {
      var before, p := ps[..|ps| - 1], ps[|ps| - 1];
      assert ps == before + [p];
      ArrivedGrows(s, before, p);
      PrefixKeeps(s, limits, frames, ps);
      assert Arrived(s, before) <= Arrived(s, ps);
      Progress(s, limits, frames, before);
      ProgressStep(s, limits, frames, before, p);
    }
  }

  lemma {:induction false} ProgressStep(s: Source, limits: Limits, frames: Frames, before: seq<Packet>, p: Packet)
    requires Sendable(s) && |DataOf(s)| <= limits.maxFrameBytes && Valid(limits, frames)
    requires Holds(s, RunFrames(limits, frames, before), Arrived(s, before))
    requires p.frameId == Some(s.frameId) ==> IsFragment(s, p) && Room(limits, RunFrames(limits, frames, before), s.frameId)
    requires !Complete(s, Arrived(s, before + [p]))
    ensures Holds(s, AddStep(limits, RunFrames(limits, frames, before), p).0, Arrived(s, before + [p]))
  {
    ArrivedGrows(s, before, p);
    var table := RunFrames(limits, frames, before);
    if p.frameId == Some(s.frameId) {
      var k: nat :| k < CountOf(s) && p == Sent(s, k);
      RunKeepsValid(limits, frames, before);
      OwnStep(s, limits, table, Arrived(s, before), k);
    } else {
      OtherStep(s, limits, table, Arrived(s, before), p);
    }
  }

  /**
   * Round trip.  Fragments of a frame, however it was cut, arrive in any order, any number of times,
   * among arbitrary packets of other frames.  A fragment that comes while the frame is
   * incomplete is answered with the original bytes exactly when it was the last one missing,
   * and with nothing otherwise; delivery frees the frame's slot.
   */
  lemma {:induction false} FragmentRoundTrip(s: Source, limits: Limits, frames: Frames, before: seq<Packet>, k: nat)
    requires Sendable(s) && |DataOf(s)| <= limits.maxFrameBytes && k < CountOf(s)
    requires Valid(limits, frames) && s.frameId !in frames
    requires Honest(s, before) && WithinInflight(s, limits, frames, before + [Sent(s, k)])
    requires !Complete(s, Arrived(s, before))
    ensures var (after, r) := AddStep(limits, RunFrames(limits, frames, before), Sent(s, k));
      && r == (if Complete(s, Arrived(s, before + [Sent(s, k)])) then Ok(Some(DataOf(s))) else Ok(None))
      && (s.frameId in after <==> !Complete(s, Arrived(s, before + [Sent(s, k)])))
  {
    var ps := before + [Sent(s, k)];
    assert ps[..|before|] == before && ps[|before|] == Sent(s, k);
    assert ps[..|ps| - 1] == before;
    assert Room(limits, RunFrames(limits, frames, ps[..|before|]), s.frameId);
    assert WithinInflight(s, limits, frames, before) by {
      assert forall i :: 0 <= i < |before| ==> before[..i] == ps[..i] && ps[i] == before[i];
    }
    Progress(s, limits, frames, before);
    RunKeepsValid(limits, frames, before);
    ArrivedGrows(s, before, Sent(s, k));
    OwnStep(s, limits, RunFrames(limits, frames, before), Arrived(s, before), k);
  }

  /** The round trip for what `packetize` emits from the data it accepts. */
  lemma {:induction false} PacketizeRoundTrip(
    frameId: string, start: int, data: Bytes, contentType: string, max: int,
    limits: Limits, frames: Frames, before: seq<Packet>, k: nat)
    requires 1 <= |frameId| <= 128 && Packetizable(data, contentType, max) && |data| <= limits.maxFrameBytes
    requires Valid(limits, frames) && frameId !in frames && k < |Chunks(data, max)|
    requires var s := Cut(frameId, start, data, contentType, max);
      Honest(s, before) && WithinInflight(s, limits, frames, before + [Sent(s, k)]) && !Complete(s, Arrived(s, before))
    ensures var s := Cut(frameId, start, data, contentType, max);
      var (after, r) := AddStep(limits, RunFrames(limits, frames, before), Sent(s, k));
      && r == (if Complete(s, Arrived(s, before + [Sent(s, k)])) then Ok(Some(data)) else Ok(None))
      && (frameId in after <==> !Complete(s, Arrived(s, before + [Sent(s, k)])))
  {
    var s := Cut(frameId, start, data, contentType, max);
    ConcatChunks(data, max);
    assert DataOf(s) == data && Sendable(s);
    FragmentRoundTrip(s, limits, frames, before, k);
  }

  /**
   * A fragment that is repeated after its frame was delivered opens the frame again, unless
   * the frame has a single fragment, in which case the data are delivered a second time.
   */
  lemma {:induction false} LateRepeatIsHarmlessExactly(s: Source, limits: Limits, frames: Frames, k: nat)
    requires Sendable(s) && |DataOf(s)| <= limits.maxFrameBytes && k < CountOf(s)
    requires Valid(limits, frames) && s.frameId !in frames
    ensures var (after, r) := AddStep(limits, frames, Sent(s, k));
      && (after == frames <==> CountOf(s) == 1 || !Room(limits, frames, s.frameId))
      && (r == Ok(Some(DataOf(s))) <==> CountOf(s) == 1 && Room(limits, frames, s.frameId))
  {
    SentIsWellFormed(s, k);
    if Room(limits, frames, s.frameId) {
      FirstAnswer(s, limits, frames, k);
    }
  }

  lemma {:induction false} OneIsAllExactly(s: Source, k: nat)
    requires Sendable(s) && k < CountOf(s)
    ensures {} + {k} == {k} && (Complete(s, {k}) <==> CountOf(s) == 1)
  {
    if CountOf(s) > 1 {
      var other: nat := if k == 0 then 1 else 0;
      var one := {k};
      assert other !in one;
    }
  }

  lemma {:induction false} FirstAnswer(s: Source, limits: Limits, frames: Frames, k: nat)
    requires Sendable(s) && |DataOf(s)| <= limits.maxFrameBytes && k < CountOf(s)
    requires Valid(limits, frames) && s.frameId !in frames && Room(limits, frames, s.frameId)
    ensures var (after, r) := AddStep(limits, frames, Sent(s, k));
      if CountOf(s) == 1 then after == frames && r == Ok(Some(DataOf(s)))
      else after != frames && r == Ok(None)
  {
    OneIsAllExactly(s, k);
    OwnStep(s, limits, frames, {}, k);
    OnlyOwnFrameChanges(s, limits, frames, k);
  }

  lemma {:induction false} OnlyOwnFrameChanges(s: Source, limits: Limits, frames: Frames, k: nat)
    requires k < CountOf(s)
    ensures var after := AddStep(limits, frames, Sent(s, k)).0;
      s.frameId !in frames && s.frameId !in after ==> after == frames
  {
  }
}
