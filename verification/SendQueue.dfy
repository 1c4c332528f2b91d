/**
 * The reconnecting send queue of `openChannel` (bridge_core/fasp.ts:524-642), including
 * message callbacks that call `send` and `close` while the queue is being flushed.
 */
module SendQueue {
  import opened Common

  const MaxQueued: nat := 50
  const MaxPendingBytes: nat := 1024 * 1024
  const MaxSocketBytes: nat := 256 * 1024
  const MaxFrameBytes: nat := 65536

  /** A signed envelope; `expiresAt` is `None` when it has no valid expiry. */
  datatype Frame = Frame(line: string, bytes: nat, expiresAt: Option<int>, volatile: bool, addressed: bool)

  /** What a callback may do to the channel. */
  datatype Action = Send(frame: Frame) | Close

  /** Everything outside: the clock and the socket's buffer at each reading, the consumer at each notice. */
  datatype Env = Env(clock: nat -> int, buffered: nat -> nat, reaction: nat -> seq<Action>)

  /** What became of an accepted frame that is no longer queued, and what the clock and the socket's buffer said. */
  datatype Fate = Handed(now: int, buffered: nat) | ExpiredAt(now: int) | DroppedByClose

  datatype Settled = Settled(frame: Frame, fate: Fate)

  /** The frames accepted, the frames given to the socket, and the frames no longer queued, each in order. */
  datatype Trace = Trace(accepted: seq<Frame>, handed: seq<Frame>, settled: seq<Settled>)

  /** The variables `openChannel` closes over, how often the environment was consulted, and the history. */
  datatype Channel = Channel(
    closed: bool, ready: bool, open: bool, pending: seq<Frame>, pendingBytes: int,
    readings: nat, notices: nat, trace: Trace)

  datatype Outcome = Accepted | ClosedByCaller | WrongAudience | Expired | TooLarge | QueueFull | Offline

  function Opened(): Channel { Channel(false, true, true, [], 0, 0, 0, Trace([], [], [])) }

  // ---------------------------------------------------------------------------------
  // Elementary changes.

  predicate Due(f: Frame, now: int) { f.expiresAt.None? || f.expiresAt.value <= now }

  function Read(s: Channel): Channel { s.(readings := s.readings + 1) }

  function Notice(s: Channel): Channel { s.(notices := s.notices + 1) }

  function Took(t: Trace, f: Frame): Trace { t.(accepted := t.accepted + [f]) }

  function Left(t: Trace, f: Frame, fate: Fate): Trace {
    t.(handed := if fate.Handed? then t.handed + [f] else t.handed, settled := t.settled + [Settled(f, fate)])
  }

  function Shifted(s: Channel, fate: Fate): Channel
    requires s.pending != []
  {
    s.(pending := s.pending[1..], pendingBytes := s.pendingBytes - s.pending[0].bytes,
       trace := Left(s.trace, s.pending[0], fate))
  }

  function Direct(s: Channel, f: Frame, now: int, buffered: nat): Channel {
    s.(trace := Left(Took(s.trace, f), f, Handed(now, buffered)))
  }

  function Queued(s: Channel, f: Frame): Channel {
    s.(pending := s.pending + [f], pendingBytes := s.pendingBytes + f.bytes, trace := Took(s.trace, f))
  }

  function AllDropped(fs: seq<Frame>): seq<Settled> {
    if fs == [] then [] else [Settled(fs[0], DroppedByClose)] + AllDropped(fs[1..])
  }

  function CloseStep(s: Channel): Channel {
    s.(closed := true, ready := false, open := false, pending := [], pendingBytes := 0,
       trace := s.trace.(settled := s.trace.settled + AllDropped(s.pending)))
  }

  // ---------------------------------------------------------------------------------
  // Flushing, sending and callbacks.

  /** A callback made while flushing finds the channel either live or closed. */
  predicate Steady(s: Channel) { s.closed || (s.ready && s.open) }

  function Flush(env: Env, s: Channel): (r: Channel)
    requires Steady(s)
    ensures Steady(r) && |r.pending| <= |s.pending|
    decreases |s.pending|, 0, 0
  {
    if s.pending == [] || !s.ready || !s.open then s else
    var now, item, q := env.clock(s.readings), s.pending[0], Read(s);
    if Due(item, now) then
      var told := Notice(Shifted(q, ExpiredAt(now)));
      Flush(env, React(env, told, env.reaction(s.notices)))
    else if env.buffered(q.readings) + item.bytes > MaxSocketBytes then Read(q)
    else Flush(env, Shifted(Read(q), Handed(now, env.buffered(q.readings))))
  }

  function SendStep(env: Env, s: Channel, f: Frame): (r: (Channel, Outcome))
    ensures Steady(s) ==> Steady(r.0) && |r.0.pending| <= |s.pending|
    decreases |s.pending|, 1, 0
  {
    if s.closed then (s, ClosedByCaller)
    else if !f.addressed then (s, WrongAudience)
    else if Due(f, env.clock(s.readings)) then (Read(s), Expired)
    else if f.bytes > MaxFrameBytes then (Read(s), TooLarge)
    else if s.ready && s.open then
      var q := Flush(env, Read(s));
      if q.pending != [] || env.buffered(q.readings) + f.bytes > MaxSocketBytes then (Read(q), QueueFull)
      else (Direct(Read(q), f, env.clock(s.readings), env.buffered(q.readings)), Accepted)
    else if f.volatile then (Read(s), Offline)
    else if |s.pending| >= MaxQueued || s.pendingBytes + f.bytes > MaxPendingBytes then (Read(s), QueueFull)
    else (Queued(Read(s), f), Accepted)
  }

  function React(env: Env, s: Channel, actions: seq<Action>): (r: Channel)
    requires Steady(s)
    ensures Steady(r) && |r.pending| <= |s.pending|
    decreases |s.pending|, 2, |actions|
  {
    if actions == [] then s else
    match actions[0]
    case Send(f) => React(env, SendStep(env, s, f).0, actions[1..])
    case Close => React(env, CloseStep(s), actions[1..])
  }

  lemma {:induction false} FlushTurn(env: Env, s: Channel)
    requires s.pending != [] && s.ready && s.open
    ensures var now, item, q := env.clock(s.readings), s.pending[0], Read(s);
      Flush(env, s) ==
        if Due(item, now) then Flush(env, React(env, Notice(Shifted(q, ExpiredAt(now))), env.reaction(s.notices)))
        else if env.buffered(q.readings) + item.bytes > MaxSocketBytes then Read(q)
        else Flush(env, Shifted(Read(q), Handed(now, env.buffered(q.readings))))
  {
  }

  class FaspChannel {
    const env: Env
    var closed: bool
    var ready: bool
    var open: bool
    var pending: seq<Frame>
    var pendingBytes: int
    var readings: nat
    var notices: nat
    ghost var trace: Trace

    ghost function View(): Channel
      reads this
    {
      Channel(closed, ready, open, pending, pendingBytes, readings, notices, trace)
    }

    constructor (env: Env)
      ensures this.env == env && View() == Opened()
    {
      this.env := env;
      closed, ready, open, pending, pendingBytes := false, true, true, [], 0;
      readings, notices, trace := 0, 0, Trace([], [], []);
    }

    method FlushPending()
      requires Steady(View())
      modifies this
      ensures View() == Flush(env, old(View()))
      decreases |pending|, 0, 1
    {
      while pending != [] && ready && open
        invariant Steady(View()) && |pending| <= |old(pending)|
        invariant Flush(env, View()) == Flush(env, old(View()))
        decreases |pending|
      {
        var blocked := FlushNext();
        if blocked { return; }
      }
    }

    /** One turn of the flushing loop; true when the socket's buffer has no room. */
    method FlushNext() returns (blocked: bool)
      requires Steady(View()) && pending != [] && ready && open
      modifies this
      ensures blocked ==> View() == Flush(env, old(View()))
      ensures !blocked ==> Steady(View()) && |pending| < |old(pending)| && Flush(env, View()) == Flush(env, old(View()))
      decreases |pending|, 0, 0
    {
      FlushTurn(env, View());
      var now := env.clock(readings);
      if Due(pending[0], now) {
        DropNext(now);
        Notify(env.reaction(notices - 1));
        return false;
      }
      blocked := HandNext(now);
    }

    method DropNext(now: int)
      requires pending != []
      modifies this
      ensures View() == Notice(Shifted(Read(old(View())), ExpiredAt(now)))
    {
      var item := pending[0];
      pending, pendingBytes, readings := pending[1..], pendingBytes - item.bytes, readings + 1;
      trace, notices := Left(trace, item, ExpiredAt(now)), notices + 1;
    }

    /** Gives the first frame to the socket, or puts it back. */
    method HandNext(now: int) returns (blocked: bool)
      requires pending != []
      modifies this
      ensures blocked <==> env.buffered(old(readings) + 1) + old(pending)[0].bytes > MaxSocketBytes
      ensures View() == if blocked then Read(Read(old(View()))) else Shifted(Read(Read(old(View()))), Handed(now, env.buffered(old(readings) + 1)))
    {
      var item := pending[0];
      pending, pendingBytes, readings := pending[1..], pendingBytes - item.bytes, readings + 1;
      var buffered := env.buffered(readings);
      blocked := buffered + item.bytes > MaxSocketBytes;
      readings := readings + 1;
      if blocked {
        pending, pendingBytes := [item] + pending, pendingBytes + item.bytes;
      } else {
        trace := Left(trace, item, Handed(now, buffered));
      }
    }

    /** Accepts or refuses one envelope; the queue is flushed first when the socket is up. */
    method SendFrame(f: Frame) returns (outcome: Outcome)
      modifies this
      ensures (View(), outcome) == SendStep(env, old(View()), f)
      decreases |pending|, 1, 0
    {
      if closed { return ClosedByCaller; }
      if !f.addressed { return WrongAudience; }
      var now := env.clock(readings);
      readings := readings + 1;
      if Due(f, now) { return Expired; }
      if f.bytes > MaxFrameBytes { return TooLarge; }
      if ready && open {
        FlushPending();
        var buffered := env.buffered(readings);
        readings := readings + 1;
        if pending != [] || buffered + f.bytes > MaxSocketBytes { return QueueFull; }
        trace := Left(Took(trace, f), f, Handed(now, buffered));
        return Accepted;
      }
      if f.volatile { return Offline; }
      if |pending| >= MaxQueued || pendingBytes + f.bytes > MaxPendingBytes { return QueueFull; }
      pending, pendingBytes := pending + [f], pendingBytes + f.bytes;
      trace := Took(trace, f);
      return Accepted;
    }

    method CloseChannel()
      modifies this
      ensures View() == CloseStep(old(View()))
    {
      closed, ready := true, false;
      trace := trace.(settled := trace.settled + AllDropped(pending));
      pending, pendingBytes := [], 0;
      open := false;
    }

    /** The consumer's callback, which may call back into the channel. */
    method Notify(actions: seq<Action>)
      requires Steady(View())
      modifies this
      ensures View() == React(env, old(View()), actions)
      decreases |pending|, 2, |actions|
    {
      if actions != [] {
        match actions[0] {
          case Send(f) => var outcome := SendFrame(f);
          case Close => CloseChannel();
        }
        Notify(actions[1..]);
      }
    }
  }

  // ---------------------------------------------------------------------------------
  // What `send` answers, on the fields of frame and channel.

  /** The refusals that do not depend on the socket, in order. */
  lemma {:induction false} SendRefuses(env: Env, s: Channel, f: Frame)
    ensures var (r, outcome) := SendStep(env, s, f);
      var timely := f.expiresAt.Some? && env.clock(s.readings) < f.expiresAt.value;
      && (outcome == ClosedByCaller <==> s.closed)
      && (outcome == WrongAudience <==> !s.closed && !f.addressed)
      && (outcome == Expired <==> !s.closed && f.addressed && !timely)
      && (outcome == TooLarge <==> !s.closed && f.addressed && timely && f.bytes > 65536)
      && (s.closed || !f.addressed || !timely || f.bytes > 65536 ==>
            r.pending == s.pending && r.pendingBytes == s.pendingBytes && r.trace == s.trace && r.closed == s.closed)
  {
  }

  predicate Sendable(env: Env, s: Channel, f: Frame) {
    && !s.closed && f.addressed && f.expiresAt.Some? && env.clock(s.readings) < f.expiresAt.value && f.bytes <= 65536
  }

  /**
   * With the socket up: the queue is flushed, and the frame handed over exactly if that left
   * nothing queued and the socket's buffer, read after the flush, has room for it.
   */
  lemma {:induction false} SendOnline(env: Env, s: Channel, f: Frame)
    requires Sendable(env, s, f) && s.ready && s.open
    ensures var (r, outcome) := SendStep(env, s, f);
      var q := Flush(env, s.(readings := s.readings + 1));
      var accepted := q.pending == [] && env.buffered(q.readings) + f.bytes <= 262144;
      && outcome == (if accepted then Accepted else QueueFull)
      && r.pending == q.pending && r.pendingBytes == q.pendingBytes && r.closed == q.closed
      && (!accepted ==> r.trace == q.trace)
      && (accepted ==>
        && r.trace.accepted == q.trace.accepted + [f] && r.trace.handed == q.trace.handed + [f]
        && r.trace.settled == q.trace.settled + [Settled(f, Handed(env.clock(s.readings), env.buffered(q.readings)))])
  {
  }

  /** With the socket down: a volatile frame is refused, any other is queued exactly if it fits both limits. */
  lemma {:induction false} SendOffline(env: Env, s: Channel, f: Frame)
    requires Sendable(env, s, f) && !(s.ready && s.open)
    ensures var (r, outcome) := SendStep(env, s, f);
      var fits := |s.pending| < 50 && s.pendingBytes + f.bytes <= 1048576;
      && outcome == (if f.volatile then Offline else if fits then Accepted else QueueFull)
      && (outcome != Accepted ==> r.pending == s.pending && r.pendingBytes == s.pendingBytes && r.trace == s.trace)
      && (outcome == Accepted ==>
        && r.pending == s.pending + [f] && r.pendingBytes == s.pendingBytes + f.bytes
        && r.trace == s.trace.(accepted := s.trace.accepted + [f]))
  {
  }

  /**
   * A flush takes frames from the front.  An overdue one goes with a notice to the consumer; one
   * that fits the buffer is handed over; at one that does not fit, and when the socket is down
   * or nothing is left, it stops and leaves the rest queued.
   */
  lemma {:induction false} FlushTakesFront(env: Env, s: Channel)
    requires Steady(s)
    ensures s.pending == [] || !s.ready || !s.open ==> Flush(env, s) == s
    ensures s.pending != [] && s.ready && s.open ==>
      var now, buffered, item := env.clock(s.readings), env.buffered(s.readings + 1), s.pending[0];
      var rest := s.(pending := s.pending[1..], pendingBytes := s.pendingBytes - item.bytes);
      Flush(env, s) ==
        if item.expiresAt.None? || item.expiresAt.value <= now then
          var dropped := rest.(readings := s.readings + 1, notices := s.notices + 1,
                               trace := s.trace.(settled := s.trace.settled + [Settled(item, ExpiredAt(now))]));
          Flush(env, React(env, dropped, env.reaction(s.notices)))
        else if buffered + item.bytes <= 262144 then
          Flush(env, rest.(readings := s.readings + 2,
                           trace := s.trace.(handed := s.trace.handed + [item],
                                             settled := s.trace.settled + [Settled(item, Handed(now, buffered))])))
        else s.(readings := s.readings + 2)
  {
    if s.pending != [] && s.ready && s.open {
      FlushTurn(env, s);
    }
  }

  /** Closing drops what is queued, in order, and shuts the channel for good. */
  lemma {:induction false} CloseDropsAll(s: Channel)
    ensures var r := CloseStep(s);
      && r.closed && !r.ready && !r.open && r.pending == [] && r.pendingBytes == 0
      && r.trace.accepted == s.trace.accepted && r.trace.handed == s.trace.handed
      && |r.trace.settled| == |s.trace.settled| + |s.pending| && r.trace.settled[..|s.trace.settled|] == s.trace.settled
      && forall i :: 0 <= i < |s.pending| ==> r.trace.settled[|s.trace.settled| + i] == Settled(s.pending[i], DroppedByClose)
  {
    DroppedAre(s.pending);
  }

  lemma {:induction false} DroppedAre(fs: seq<Frame>)
    ensures |AllDropped(fs)| == |fs| && forall i :: 0 <= i < |fs| ==> AllDropped(fs)[i] == Settled(fs[i], DroppedByClose)
  {
    if fs != [] {
      DroppedAre(fs[1..]);
    }
  }

  // ---------------------------------------------------------------------------------
  // The invariant.

  function Bytes(fs: seq<Frame>): nat { if fs == [] then 0 else fs[0].bytes + Bytes(fs[1..]) }

  function FramesOf(ss: seq<Settled>): seq<Frame> {
    if ss == [] then [] else FramesOf(ss[..|ss| - 1]) + [ss[|ss| - 1].frame]
  }

  function HandedOf(ss: seq<Settled>): seq<Frame> {
    if ss == [] then [] else
    var rest, last := HandedOf(ss[..|ss| - 1]), ss[|ss| - 1];
    if last.fate.Handed? then rest + [last.frame] else rest
  }

  /**
   * A frame is handed over only before its expiry and into a buffer with room for it; it
   * expires only when its expiry is past or missing, and is dropped only by closing.
   */
  ghost predicate FateOk(closed: bool, x: Settled) {
    match x.fate
    case Handed(now, buffered) =>
      x.frame.expiresAt.Some? && now < x.frame.expiresAt.value && buffered + x.frame.bytes <= 262144
    case ExpiredAt(now) => x.frame.expiresAt.Some? ==> x.frame.expiresAt.value <= now
    case DroppedByClose => closed
  }

  ghost predicate Within(s: Channel) {
    && s.pendingBytes == Bytes(s.pending) <= MaxPendingBytes && |s.pending| <= MaxQueued
    && (forall i :: 0 <= i < |s.pending| ==> !s.pending[i].volatile)
    && (s.closed ==> s.pending == [] && !s.ready && !s.open)
  }

  ghost predicate History(s: Channel) {
    && s.trace.accepted == FramesOf(s.trace.settled) + s.pending
    && s.trace.handed == HandedOf(s.trace.settled)
    && (forall i :: 0 <= i < |s.trace.settled| ==> FateOk(s.closed, s.trace.settled[i]))
  }

  ghost predicate Valid(s: Channel) { Within(s) && History(s) }

  lemma {:induction false} BytesAppend(fs: seq<Frame>, f: Frame)
    ensures Bytes(fs + [f]) == Bytes(fs) + f.bytes
  {
    if fs != [] {
      BytesAppend(fs[1..], f);
      assert (fs + [f])[1..] == fs[1..] + [f];
    }
  }

  lemma {:induction false} SettledAppend(ss: seq<Settled>, x: Settled)
    ensures FramesOf(ss + [x]) == FramesOf(ss) + [x.frame]
    ensures HandedOf(ss + [x]) == (if x.fate.Handed? then HandedOf(ss) + [x.frame] else HandedOf(ss))
  {
    assert (ss + [x])[..|ss|] == ss;
  }

  lemma {:induction false} DroppedFates(fs: seq<Frame>)
    ensures forall i :: 0 <= i < |AllDropped(fs)| ==> AllDropped(fs)[i].fate.DroppedByClose?
  {
    if fs != [] {
      DroppedFates(fs[1..]);
    }
  }

  lemma {:induction false} DroppedOne(ss: seq<Settled>, fs: seq<Frame>)
    requires fs != []
    ensures var x := Settled(fs[0], DroppedByClose); ss + AllDropped(fs) == (ss + [x]) + AllDropped(fs[1..])
  {
  }

  lemma {:induction false} DroppedFrames(ss: seq<Settled>, fs: seq<Frame>)
    ensures FramesOf(ss + AllDropped(fs)) == FramesOf(ss) + fs
    decreases |fs|
  {
    if fs == [] {
      assert ss + AllDropped(fs) == ss;
    } else {
      var x := Settled(fs[0], DroppedByClose);
      SettledAppend(ss, x);
      DroppedOne(ss, fs);
      DroppedFrames(ss + [x], fs[1..]);
      MoveOver(FramesOf(ss), fs);
    }
  }

  lemma {:induction false} DroppedNotHanded(ss: seq<Settled>, fs: seq<Frame>)
    ensures HandedOf(ss + AllDropped(fs)) == HandedOf(ss)
    decreases |fs|
  {
    if fs == [] {
      assert ss + AllDropped(fs) == ss;
    } else {
      var x := Settled(fs[0], DroppedByClose);
      SettledAppend(ss, x);
      DroppedOne(ss, fs);
      DroppedNotHanded(ss + [x], fs[1..]);
    }
  }

  lemma {:induction false} ShiftedKeeps(s: Channel, fate: Fate)
    requires Valid(s) && s.pending != [] && FateOk(s.closed, Settled(s.pending[0], fate))
    ensures Valid(Shifted(s, fate))
  {
    SettledAppend(s.trace.settled, Settled(s.pending[0], fate));
    MoveOver(FramesOf(s.trace.settled), s.pending);
  }

  lemma {:induction false} MoveOver(done: seq<Frame>, waiting: seq<Frame>)
    requires waiting != []
    ensures done + waiting == (done + [waiting[0]]) + waiting[1..]
  {
  }

  lemma {:induction false} DirectKeeps(s: Channel, f: Frame, now: int, buffered: nat)
    requires Valid(s) && s.pending == [] && FateOk(s.closed, Settled(f, Handed(now, buffered)))
    ensures Valid(Direct(s, f, now, buffered))
  {
    SettledAppend(s.trace.settled, Settled(f, Handed(now, buffered)));
  }

  lemma {:induction false} QueuedKeeps(s: Channel, f: Frame)
    requires Valid(s) && !s.closed && !f.volatile
    requires |s.pending| < MaxQueued && s.pendingBytes + f.bytes <= MaxPendingBytes
    ensures Valid(Queued(s, f))
  {
    BytesAppend(s.pending, f);
  }

  lemma {:induction false} CloseKeeps(s: Channel)
    requires Valid(s)
    ensures Valid(CloseStep(s))
  {
    DroppedFrames(s.trace.settled, s.pending);
    DroppedNotHanded(s.trace.settled, s.pending);
    DroppedFates(s.pending);
  }

  lemma {:induction false} SameValid(s: Channel, r: Channel)
    requires Valid(s) && r == s.(readings := r.readings, notices := r.notices)
    ensures Valid(r)
  {
  }

  lemma {:induction false} FlushKeeps(env: Env, s: Channel)
    requires Valid(s) && Steady(s)
    ensures Valid(Flush(env, s))
    decreases |s.pending|, 0, 0
  {
    if s.pending != [] && s.ready && s.open {
      FlushTurn(env, s);
      var now, item, q := env.clock(s.readings), s.pending[0], Read(s);
      if Due(item, now) {
        ShiftedKeeps(q, ExpiredAt(now));
        var told := Notice(Shifted(q, ExpiredAt(now)));
        SameValid(Shifted(q, ExpiredAt(now)), told);
        ReactKeeps(env, told, env.reaction(s.notices));
        FlushKeeps(env, React(env, told, env.reaction(s.notices)));
      } else if env.buffered(q.readings) + item.bytes <= MaxSocketBytes {
        ShiftedKeeps(Read(q), Handed(now, env.buffered(q.readings)));
        FlushKeeps(env, Shifted(Read(q), Handed(now, env.buffered(q.readings))));
      }
    }
  }

  lemma {:induction false} SendKeeps(env: Env, s: Channel, f: Frame)
    requires Valid(s)
    ensures Valid(SendStep(env, s, f).0)
    decreases |s.pending|, 1, 0
  {
    if s.closed || !f.addressed || Due(f, env.clock(s.readings)) || f.bytes > MaxFrameBytes {
    } else if s.ready && s.open {
      FlushKeeps(env, Read(s));
      var q := Flush(env, Read(s));
      if q.pending == [] && env.buffered(q.readings) + f.bytes <= MaxSocketBytes {
        DirectKeeps(Read(q), f, env.clock(s.readings), env.buffered(q.readings));
      }
    } else if !f.volatile && |s.pending| < MaxQueued && s.pendingBytes + f.bytes <= MaxPendingBytes {
      QueuedKeeps(Read(s), f);
    }
  }

  lemma {:induction false} ReactKeeps(env: Env, s: Channel, actions: seq<Action>)
    requires Valid(s) && Steady(s)
    ensures Valid(React(env, s, actions))
    decreases |s.pending|, 2, |actions|
  {
    if actions != [] {
      match actions[0]
      case Send(f) =>
        SendKeeps(env, s, f);
        ReactKeeps(env, SendStep(env, s, f).0, actions[1..]);
      case Close =>
        CloseKeeps(s);
        ReactKeeps(env, CloseStep(s), actions[1..]);
    }
  }

  // ---------------------------------------------------------------------------------
  // Whole lives of a channel.

  /**
   * `Lost`: the socket's close event; `Stopped`: the socket stops being open before that;
   * `Reconnected`: a new socket is registered; `Timer`: the retry timer, or the flush that
   * follows a reconnection; `Rejected`: the peer fails authentication on reconnection.
   * Status callbacks are `Caller` events between these.
   */
  datatype Event = Caller(action: Action) | Timer | Lost | Stopped | Reconnected | Rejected

  function Perform(env: Env, s: Channel, e: Event): Channel {
    match e
    case Caller(Send(f)) => SendStep(env, s, f).0
    case Caller(Close) => CloseStep(s)
    case Timer => if Steady(s) then Flush(env, s) else s
    case Lost => s.(ready := false)
    case Stopped => s.(open := false)
    case Reconnected => if s.closed then s else s.(ready := true, open := true)
    case Rejected => CloseStep(s)
  }

  function Run(env: Env, es: seq<Event>): Channel {
    if es == [] then Opened() else Perform(env, Run(env, es[..|es| - 1]), es[|es| - 1])
  }

  /** What the events and a callback's actions do to the channel. */
  lemma {:induction false} EventsAre(env: Env, s: Channel, f: Frame, more: seq<Action>)
    requires Steady(s)
    ensures React(env, s, []) == s
    ensures React(env, s, [Send(f)] + more) == React(env, SendStep(env, s, f).0, more)
    ensures React(env, s, [Close] + more) == React(env, CloseStep(s), more)
    ensures Perform(env, s, Timer) == Flush(env, s)
    ensures Perform(env, s, Lost) == s.(ready := false) && Perform(env, s, Stopped) == s.(open := false)
    ensures Perform(env, s, Reconnected) == s.(ready := s.ready || !s.closed, open := s.open || !s.closed)
    ensures Perform(env, s, Rejected) == Perform(env, s, Caller(Close)) == CloseStep(s)
    ensures Perform(env, s, Caller(Send(f))) == SendStep(env, s, f).0
  {
    assert ([Send(f)] + more)[1..] == more && ([Close] + more)[1..] == more;
  }

  lemma {:induction false} PerformKeeps(env: Env, s: Channel, e: Event)
    requires Valid(s)
    ensures Valid(Perform(env, s, e))
  {
    match e
    case Caller(Send(f)) => SendKeeps(env, s, f);
    case Caller(Close) => CloseKeeps(s);
    case Timer => if Steady(s) { FlushKeeps(env, s); }
    case Lost =>
    case Stopped =>
    case Reconnected =>
    case Rejected => CloseKeeps(s);
  }

  lemma {:induction false} RunIsValid(env: Env, es: seq<Event>)
    ensures Valid(Run(env, es))
  {
    if es != [] {
      RunIsValid(env, es[..|es| - 1]);
      PerformKeeps(env, Run(env, es[..|es| - 1]), es[|es| - 1]);
    }
  }

  /** Places of `a`'s elements in `b`, in the same order. */
  ghost predicate Places(a: seq<Frame>, b: seq<Frame>, at: seq<nat>) {
    && |at| == |a| && (forall i :: 0 <= i < |a| ==> at[i] < |b| && a[i] == b[at[i]])
    && (forall i, j :: 0 <= i < j < |at| ==> at[i] < at[j])
  }

  /** `a` is `b` with some elements left out. */
  ghost predicate IsSubsequence(a: seq<Frame>, b: seq<Frame>) { exists at :: Places(a, b, at) }

  lemma {:induction false} PlacesMore(a: seq<Frame>, b: seq<Frame>, at: seq<nat>, more: seq<Frame>)
    requires Places(a, b, at)
    ensures Places(a, b + more, at)
  {
  }

  lemma {:induction false} PlacesLast(a: seq<Frame>, b: seq<Frame>, at: seq<nat>, f: Frame)
    requires Places(a, b, at)
    ensures Places(a + [f], b + [f], at + [|b|])
  {
  }

  lemma {:induction false} HandedPlaces(ss: seq<Settled>) returns (at: seq<nat>)
    ensures Places(HandedOf(ss), FramesOf(ss), at)
  {
    at := [];
    if ss != [] {
      var rest, f := ss[..|ss| - 1], ss[|ss| - 1].frame;
      at := HandedPlaces(rest);
      if ss[|ss| - 1].fate.Handed? {
        PlacesLast(HandedOf(rest), FramesOf(rest), at, f);
        at := at + [|FramesOf(rest)|];
      } else {
        PlacesMore(HandedOf(rest), FramesOf(rest), at, [f]);
      }
    }
  }

  /**
   * Delivery order over every life of the channel and every consumer.  What the socket was
   * given is what was accepted, in that order, less frames that are still queued, that were
   * overdue when their turn came, or that `close` dropped; after close nothing is queued.
   */
  lemma {:induction false} DeliveryOrder(env: Env, es: seq<Event>)
    ensures var s := Run(env, es);
      var t := s.trace;
      && IsSubsequence(t.handed, t.accepted)
      && t.accepted == FramesOf(t.settled) + s.pending && t.handed == HandedOf(t.settled)
      && (forall i :: 0 <= i < |t.settled| ==> FateOk(s.closed, t.settled[i]))
      && (s.closed ==> s.pending == [])
  {
    RunIsValid(env, es);
    var s := Run(env, es);
    var at := HandedPlaces(s.trace.settled);
    PlacesMore(s.trace.handed, FramesOf(s.trace.settled), at, s.pending);
  }

  /** The queue's limits hold, its byte count is exact and it never holds a volatile frame. */
  lemma {:induction false} QueueLimits(env: Env, es: seq<Event>)
    ensures var s := Run(env, es);
      && s.pendingBytes == Bytes(s.pending) <= MaxPendingBytes && |s.pending| <= MaxQueued
      && (forall i :: 0 <= i < |s.pending| ==> !s.pending[i].volatile)
  {
    RunIsValid(env, es);
  }

  // ---------------------------------------------------------------------------------
  // Sending on a channel that a callback has just closed: `send` does not look at the closed
  // flag again after flushing.

  /** One of the notices numbered `from` up to `to` is answered with a close. */
  ghost predicate ClosingNotice(env: Env, from: nat, to: nat) {
    exists n :: from <= n < to && Close in env.reaction(n)
  }

  lemma {:induction false} NoticeSplits(env: Env, from: nat, mid: nat, to: nat)
    requires from <= mid <= to
    ensures ClosingNotice(env, from, to) <==> ClosingNotice(env, from, mid) || ClosingNotice(env, mid, to)
  {
    if ClosingNotice(env, from, to) {
      var n :| from <= n < to && Close in env.reaction(n);
    }
  }

  lemma {:induction false} OneNotice(env: Env, n: nat)
    ensures ClosingNotice(env, n, n + 1) <==> Close in env.reaction(n)
  {
  }

  /** A closed channel is not ready. */
  predicate Shut(s: Channel) { s.closed ==> !s.ready }

  /**
   * The state `r` that something leaves behind in a live channel `s`: it is closed exactly
   * when `own`, or when a notice raised in between was answered with a close.  Every notice
   * used up a queued frame.
   */
  ghost predicate ClosesBy(env: Env, s: Channel, r: Channel, own: bool) {
    && Shut(r) && s.notices <= r.notices && r.notices + |r.pending| <= s.notices + |s.pending|
    && (r.closed <==> own || ClosingNotice(env, s.notices, r.notices))
  }

  lemma {:induction false} ClosesNever(env: Env, s: Channel, r: Channel)
    requires Shut(r) && !r.closed && r.notices == s.notices && |r.pending| <= |s.pending|
    ensures ClosesBy(env, s, r, false)
  {
  }

  /** Doing one thing after another, where the second does nothing if the first closed the channel. */
  lemma {:induction false} ClosesThen(env: Env, s: Channel, mid: Channel, r: Channel, a: bool, b: bool)
    requires ClosesBy(env, s, mid, a)
    requires if mid.closed then r == mid else ClosesBy(env, mid, r, b)
    ensures ClosesBy(env, s, r, a || (b && !mid.closed))
  {
    if !mid.closed {
      NoticeSplits(env, s.notices, mid.notices, r.notices);
    }
  }

  lemma {:induction false} FlushCloses(env: Env, s: Channel)
    requires Steady(s) && !s.closed
    ensures ClosesBy(env, s, Flush(env, s), false)
    decreases |s.pending|, 0, 0
  {
    if s.pending != [] {
      FlushTurn(env, s);
      var now, item, q := env.clock(s.readings), s.pending[0], Read(s);
      if Due(item, now) {
        var told := Notice(Shifted(q, ExpiredAt(now)));
        ReactCloses(env, told, env.reaction(s.notices));
        var mid := React(env, told, env.reaction(s.notices));
        AfterNotice(env, s, told, mid);
        if !mid.closed {
          FlushCloses(env, mid);
        }
        ClosesThen(env, s, mid, Flush(env, mid), false, false);
      } else if env.buffered(q.readings) + item.bytes <= MaxSocketBytes {
        FlushCloses(env, Shifted(Read(q), Handed(now, env.buffered(q.readings))));
      }
    }
  }

  lemma {:induction false} AfterNotice(env: Env, s: Channel, told: Channel, mid: Channel)
    requires told.notices == s.notices + 1 && |told.pending| == |s.pending| - 1
    requires ClosesBy(env, told, mid, Close in env.reaction(s.notices))
    ensures ClosesBy(env, s, mid, false)
  {
    NoticeSplits(env, s.notices, told.notices, mid.notices);
    OneNotice(env, s.notices);
  }

  lemma {:induction false} SendCloses(env: Env, s: Channel, f: Frame)
    requires Steady(s) && !s.closed
    ensures ClosesBy(env, s, SendStep(env, s, f).0, false)
    decreases |s.pending|, 1, 0
  {
    if f.addressed && !Due(f, env.clock(s.readings)) && f.bytes <= MaxFrameBytes {
      FlushCloses(env, Read(s));
    }
  }

  lemma {:induction false} ReactStaysClosed(env: Env, s: Channel, actions: seq<Action>)
    requires s.closed && Shut(s)
    ensures var r := React(env, s, actions); r.closed && Shut(r) && r.notices == s.notices && |r.pending| <= |s.pending|
    decreases |actions|
  {
    if actions != [] {
      match actions[0]
      case Send(f) => ReactStaysClosed(env, s, actions[1..]);
      case Close => ReactStaysClosed(env, CloseStep(s), actions[1..]);
    }
  }

  lemma {:induction false} ReactCloses(env: Env, s: Channel, actions: seq<Action>)
    requires Steady(s) && !s.closed
    ensures ClosesBy(env, s, React(env, s, actions), Close in actions)
    decreases |s.pending|, 2, |actions|
  {
    if actions == [] {
      ClosesNever(env, s, s);
    } else {
      match actions[0]
      case Send(f) =>
        SendCloses(env, s, f);
        var mid := SendStep(env, s, f).0;
        if mid.closed {
          ReactStaysClosed(env, mid, actions[1..]);
          assert ClosingNotice(env, s.notices, mid.notices);
        } else {
          ReactCloses(env, mid, actions[1..]);
          NoticeSplits(env, s.notices, mid.notices, React(env, mid, actions[1..]).notices);
        }
        assert Close in actions <==> Close in actions[1..];
      case Close => ReactStaysClosed(env, CloseStep(s), actions[1..]);
    }
  }

  /** `send` gets as far as flushing a live socket. */
  predicate Flushes(env: Env, s: Channel, f: Frame) {
    && !s.closed && s.ready && s.open
    && f.addressed && !Due(f, env.clock(s.readings)) && f.bytes <= MaxFrameBytes
  }

  /**
   * In every reachable state: a frame is accepted and handed over on a channel that is closed
   * by then, if and only if `send` flushes a live socket, some notice of an overdue frame
   * raised by that flush is answered with a close, and the socket's buffer then has room.
   */
  lemma {:induction false} HandedOverClosedExactly(env: Env, es: seq<Event>, f: Frame)
    ensures var s := Run(env, es);
      var (r, outcome) := SendStep(env, s, f);
      outcome == Accepted && r.closed <==>
        && Flushes(env, s, f)
        && var q := Flush(env, Read(s));
           ClosingNotice(env, s.notices, q.notices) && env.buffered(q.readings) + f.bytes <= MaxSocketBytes
  {
    RunIsValid(env, es);
    var s := Run(env, es);
    if Flushes(env, s, f) {
      FlushCloses(env, Read(s));
      FlushKeeps(env, Read(s));
    }
  }

  /** No closing reaction among the notices that the queued frames could raise is enough to be safe. */
  lemma {:induction false} SafeWithoutClosingReaction(env: Env, es: seq<Event>, f: Frame)
    requires var s := Run(env, es); !ClosingNotice(env, s.notices, s.notices + |s.pending|)
    ensures var (r, outcome) := SendStep(env, Run(env, es), f); outcome == Accepted ==> !r.closed
  {
    HandedOverClosedExactly(env, es, f);
    if Flushes(env, Run(env, es), f) {
      NoticesAreBounded(env, Run(env, es));
    }
  }

  lemma {:induction false} NoticesAreBounded(env: Env, s: Channel)
    requires Steady(s) && !s.closed && !ClosingNotice(env, s.notices, s.notices + |s.pending|)
    ensures !ClosingNotice(env, s.notices, Flush(env, Read(s)).notices)
  {
    FlushCloses(env, Read(s));
    NoticeSplits(env, s.notices, Flush(env, Read(s)).notices, s.notices + |s.pending|);
  }

  // ---------------------------------------------------------------------------------
  // When a flush raises a notice at all, in terms of the queue.

  /** Everything queued before place `i` goes out, and the frame there is overdue when its turn comes. */
  ghost predicate ReachesOverdue(env: Env, s: Channel, i: nat) {
    && i < |s.pending| && Due(s.pending[i], env.clock(s.readings + 2 * i))
    && forall j :: 0 <= j < i ==> GoesOut(env, s, j)
  }

  predicate GoesOut(env: Env, s: Channel, j: nat)
    requires j < |s.pending|
  {
    && !Due(s.pending[j], env.clock(s.readings + 2 * j))
    && env.buffered(s.readings + 2 * j + 1) + s.pending[j].bytes <= MaxSocketBytes
  }

  lemma {:induction false} ReachesShifted(env: Env, s: Channel, i: nat, fate: Fate)
    requires s.pending != [] && GoesOut(env, s, 0)
    ensures ReachesOverdue(env, Shifted(Read(Read(s)), fate), i) <==> ReachesOverdue(env, s, i + 1)
  {
    var r := Shifted(Read(Read(s)), fate);
    assert r.readings == s.readings + 2;
    forall j: nat | j < |r.pending| ensures GoesOut(env, r, j) <==> GoesOut(env, s, j + 1) {
      assert r.pending[j] == s.pending[j + 1];
    }
    if ReachesOverdue(env, s, i + 1) {
      forall j | 0 <= j < i ensures GoesOut(env, r, j) { assert GoesOut(env, s, j + 1); }
    }
    if ReachesOverdue(env, r, i) {
      forall j | 0 <= j < i + 1 ensures GoesOut(env, s, j) {
        if j > 0 { assert GoesOut(env, r, j - 1); }
      }
    }
  }

  /** A flush raises a notice exactly when it reaches an overdue frame. */
  lemma {:induction false} NoticeExactly(env: Env, s: Channel)
    requires Steady(s) && !s.closed
    ensures Flush(env, s).notices > s.notices <==> exists i: nat :: ReachesOverdue(env, s, i)
    decreases |s.pending|
  {
    if s.pending != [] {
      FlushTurn(env, s);
      var now, item, q := env.clock(s.readings), s.pending[0], Read(s);
      if Due(item, now) {
        assert ReachesOverdue(env, s, 0);
        NoticeIsRaised(env, s);
      } else if env.buffered(q.readings) + item.bytes > MaxSocketBytes {
        assert !GoesOut(env, s, 0);
      } else {
        var r := Shifted(Read(q), Handed(now, env.buffered(q.readings)));
        NoticeExactly(env, r);
        assert GoesOut(env, s, 0);
        if i: nat :| ReachesOverdue(env, r, i) {
          ReachesShifted(env, s, i, Handed(now, env.buffered(q.readings)));
        }
        if i: nat :| ReachesOverdue(env, s, i) {
          ReachesShifted(env, s, i - 1, Handed(now, env.buffered(q.readings)));
        }
      }
    }
  }

  lemma {:induction false} NoticeIsRaised(env: Env, s: Channel)
    requires Steady(s) && !s.closed && s.pending != [] && Due(s.pending[0], env.clock(s.readings))
    ensures Flush(env, s).notices > s.notices
  {
    FlushTurn(env, s);
    var told := Notice(Shifted(Read(s), ExpiredAt(env.clock(s.readings))));
    var mid := React(env, told, env.reaction(s.notices));
    ReactCloses(env, told, env.reaction(s.notices));
    if !mid.closed {
      FlushCloses(env, mid);
    }
  }

  /**
   * For a consumer that closes at its next notice the condition is one on the queue: the
   * outcome occurs exactly when the flush reaches an overdue frame and the buffer has room.
   */
  lemma {:induction false} ClosingConsumerExactly(env: Env, es: seq<Event>, f: Frame)
    requires Close in env.reaction(Run(env, es).notices)
    ensures var s := Run(env, es);
      var (r, outcome) := SendStep(env, s, f);
      outcome == Accepted && r.closed <==>
        && Flushes(env, s, f) && (exists i: nat :: ReachesOverdue(env, Read(s), i))
        && env.buffered(Flush(env, Read(s)).readings) + f.bytes <= MaxSocketBytes
  {
    HandedOverClosedExactly(env, es, f);
    var s := Run(env, es);
    if Flushes(env, s, f) {
      NoticeExactly(env, Read(s));
      FlushCloses(env, Read(s));
    }
  }

  // ---------------------------------------------------------------------------------
  // A run in which it happens.

  /** The clock counts its readings, the buffer is empty, and the consumer closes at every notice. */
  function Hasty(): Env { Env(n => n, n => 0, n => [Close]) }

  const EARLY := Frame("early", 0, Some(1), false, true)
  const LATE := Frame("late", 0, Some(100), false, true)

  function Reconnecting(): seq<Event> { [Lost, Caller(Send(EARLY)), Reconnected] }

  lemma {:induction false} EarlyIsQueued()
    ensures Run(Hasty(), Reconnecting()) ==
      Channel(false, true, true, [EARLY], 0, 1, 0, Trace([EARLY], [], []))
  {
    var two := [Lost] + [Caller(Send(EARLY))];
    EarlyRun(Hasty());
    RunMore(Hasty(), two, Reconnected);
    assert Reconnecting() == two + [Reconnected];
  }

  lemma {:induction false} EarlyRun(env: Env)
    requires env == Hasty()
    ensures Run(env, [Lost] + [Caller(Send(EARLY))]) == Channel(false, false, true, [EARLY], 0, 1, 0, Trace([EARLY], [], []))
  {
    RunMore(env, [], Lost);
    assert [] + [Lost] == [Lost];
    RunMore(env, [Lost], Caller(Send(EARLY)));
    EarlyStep(Opened().(ready := false));
  }

  lemma {:induction false} RunMore(env: Env, es: seq<Event>, e: Event)
    ensures Run(env, es + [e]) == Perform(env, Run(env, es), e)
  {
    assert (es + [e])[..|es|] == es;
  }

  lemma {:induction false} QueuesOffline(env: Env, s: Channel, f: Frame)
    requires Sendable(env, s, f) && !s.ready && !f.volatile && |s.pending| < 50 && s.pendingBytes + f.bytes <= 1048576
    ensures SendStep(env, s, f).0 == s.(pending := s.pending + [f], pendingBytes := s.pendingBytes + f.bytes,
                                        readings := s.readings + 1, trace := s.trace.(accepted := s.trace.accepted + [f]))
  {
  }

  lemma {:induction false} EarlyStep(s: Channel)
    requires s == Opened().(ready := false)
    ensures SendStep(Hasty(), s, EARLY).0 == Channel(false, false, true, [EARLY], 0, 1, 0, Trace([EARLY], [], []))
  {
    QueuesOffline(Hasty(), s, EARLY);
    assert [] + [EARLY] == [EARLY];
  }

  lemma {:induction false} FlushCloseEarly(s: Channel)
    requires s == Channel(false, true, true, [EARLY], 0, 2, 0, Trace([EARLY], [], []))
    ensures var q := Flush(Hasty(), s); q.closed && q.pending == [] && q.trace.handed == []
  {
    FlushTurn(Hasty(), s);
    var told := Notice(Shifted(Read(s), ExpiredAt(2)));
    assert [Close][1..] == [];
    assert React(Hasty(), told, [Close]) == CloseStep(told);
  }

  /** The frame sent after reconnecting is accepted and handed over although the channel is closed by then. */
  lemma {:induction false} HandedOverOnClosedChannel()
    ensures var (r, outcome) := SendStep(Hasty(), Run(Hasty(), Reconnecting()), LATE);
      outcome == Accepted && r.closed && r.trace.handed == [LATE]
  {
    EarlyIsQueued();
    var s := Run(Hasty(), Reconnecting());
    FlushCloseEarly(Read(s));
  }
}
