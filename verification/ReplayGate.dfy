/**
 * The replay gate in front of every envelope handler (`FaspHarness.accept` and its claim
 * set in fasp_harness/core.py, over fasp_harness/storage/inbox_repo.py): concurrent threads
 * of one live process, an in-memory claim set, a durable inbox, and crashes.
 */
module ReplayGate {
  import opened Common

  datatype Envelope = Envelope(id: string, heartbeat: bool, content: string)

  type Response = string

  datatype Row = Row(envelope: Envelope, response: Option<Response>)

  type Inbox = map<string, Row>

  /** How a handler ends: a reply, a recorded refusal, an admission refusal, anything else. */
  datatype Outcome = Replied(r: Response) | Refused(r: Response) | Rejected | Unexpected

  datatype Answer = Returned(duplicate: bool, response: Option<Response>) | Conflict | Raised

  function Recorded(inbox: Inbox, id: string): Option<Response> {
    if id in inbox then inbox[id].response else None
  }

  // ---------------------------------------------------------------------------------
  // One call on its own.

  function RowIn(inbox: Inbox, id: string): Option<Row> { if id in inbox then Some(inbox[id]) else None }

  function WithRow(inbox: Inbox, id: string, row: Option<Row>): Inbox {
    if row.Some? then inbox[id := row.value] else inbox - {id}
  }

  function Answered(row: Option<Row>): Option<Response> { if row.Some? then row.value.response else None }

  predicate BoundElsewhere(row: Option<Row>, env: Envelope) {
    row.Some? && row.value.envelope != env
  }

  /** Whether an uncontested call runs the handler. */
  predicate Runs(row: Option<Row>, env: Envelope) {
    !BoundElsewhere(row, env) && Answered(row) == None
  }

  /** The row and answer that a call leaves behind when no other thread interferes with it. */
  function AcceptAlone(row: Option<Row>, claimed: bool, env: Envelope, outcome: Outcome): (Option<Row>, Answer) {
    if claimed then (row, Returned(true, Answered(row)))
    else if BoundElsewhere(row, env) then (row, Conflict)
    else if Answered(row).Some? then (row, Returned(true, Answered(row)))
    else match outcome
      case Replied(r) => (Some(Row(env, Some(r))), Returned(row.Some?, Some(r)))
      case Refused(r) => (Some(Row(env, Some(r))), Raised)
      case Rejected => (None, Raised)
      case Unexpected => (Some(Row(env, None)), Raised)
  }

  class Gate {
    var inflight: set<string>
    var inbox: Inbox

    constructor ()
      ensures inflight == {} && inbox == map[]
    {
      inflight, inbox := {}, map[];
    }

    method ClaimMessage(id: string) returns (claimed: bool)
      modifies this`inflight
      ensures claimed <==> id !in old(inflight)
      ensures inflight == old(inflight) + {id}
    {
      claimed := id !in inflight;
      inflight := inflight + {id};
    }

    method ReleaseMessage(id: string)
      modifies this`inflight
      ensures inflight == old(inflight) - {id}
    {
      inflight := inflight - {id};
    }

    /** `accept` for kinds other than heartbeats; `outcome` is how the handler would end. */
    method Accept(env: Envelope, outcome: Outcome) returns (answer: Answer, ran: bool)
      modifies this
      ensures (RowIn(inbox, env.id), answer)
              == AcceptAlone(RowIn(old(inbox), env.id), env.id in old(inflight), env, outcome)
      ensures inbox == WithRow(old(inbox), env.id, RowIn(inbox, env.id))
      ensures ran <==> env.id !in old(inflight) && Runs(RowIn(old(inbox), env.id), env)
      ensures inflight == old(inflight)
      // The handler runs for a message that nobody else handles and that is new or was never answered.
      ensures ran <==> env.id !in old(inflight) && (env.id in old(inbox) ==> old(inbox)[env.id] == Row(env, None))
      ensures !ran ==> inbox == old(inbox)
      ensures !ran && env.id in old(inflight) ==>
        answer == Returned(true, if env.id in old(inbox) then old(inbox)[env.id].response else None)
      ensures !ran && env.id !in old(inflight) && env.id in old(inbox) ==>
        answer == if old(inbox)[env.id].envelope != env then Conflict else Returned(true, old(inbox)[env.id].response)
      // What its end leaves behind.
      ensures ran && outcome.Replied? ==>
        env.id in inbox && inbox[env.id] == Row(env, Some(outcome.r)) && answer == Returned(env.id in old(inbox), Some(outcome.r))
      ensures ran && outcome.Refused? ==> env.id in inbox && inbox[env.id] == Row(env, Some(outcome.r)) && answer == Raised
      ensures ran && outcome.Rejected? ==> env.id !in inbox && answer == Raised
      ensures ran && outcome.Unexpected? ==> env.id in inbox && inbox[env.id] == Row(env, None) && answer == Raised
    {
      ran := false;
      var claimed := ClaimMessage(env.id);
      if !claimed {
        return Returned(true, Recorded(inbox, env.id)), false;
      }
      var inserted := env.id !in inbox;
      if inserted {
        inbox := inbox[env.id := Row(env, None)];
      } else if inbox[env.id].envelope != env {
        ReleaseMessage(env.id);
        return Conflict, false;
      } else if inbox[env.id].response.Some? {
        ReleaseMessage(env.id);
        return Returned(true, inbox[env.id].response), false;
      }
      ran := true;
      answer := Raised;
      match outcome {
        case Replied(r) =>
          inbox := inbox[env.id := Row(env, Some(r))];
          answer := Returned(!inserted, Some(r));
        case Refused(r) =>
          inbox := inbox[env.id := Row(env, Some(r))];
        case Rejected =>
          inbox := inbox - {env.id};
        case Unexpected =>
      }
      ReleaseMessage(env.id);
    }
  }

  // ---------------------------------------------------------------------------------
  // Threads, step by step.

  datatype Pc =
    | Start
    | Contested                      // about to read the recorded response
    | Claimed                        // holds the claim, about to insert
    | Admitted(inserted: bool)       // the row is there, about to dispatch or to read it
    | Dispatching(inserted: bool)    // the handler is running
    | Handled(inserted: bool, outcome: Outcome)  // about to record the outcome
    | Leaving(answer: Answer)        // about to release the claim
    | Done(answer: Answer)

  /**
   * `seen` is the row that already carried a response when the call began; `contested` records
   * that the call found its message id claimed by another.
   */
  datatype Thread = Thread(env: Envelope, pc: Pc, seen: Option<Row>, contested: bool)

  datatype System = System(
    inbox: Inbox,
    claims: set<string>,
    threads: map<nat, Thread>,
    starts: map<string, nat>,      // handler runs begun, by message id
    rejected: map<string, nat>,    // handler runs that ended in an admission refusal
    unexpected: map<string, nat>,  // handler runs that ended in an unexpected exception
    crashes: nat)

  datatype Event =
    | Begin(t: nat, env: Envelope)
    | Go(t: nat, outcome: Outcome)  // `outcome` matters only where a handler ends
    | Crash

  function Count(m: map<string, nat>, id: string): nat { if id in m then m[id] else 0 }

  function Bump(m: map<string, nat>, id: string): map<string, nat> { m[id := Count(m, id) + 1] }

  /**
   * What one step of a thread does, seen from the one message id it concerns: the thread's
   * next pc, the id's row and claim afterwards, and which counters move.
   */
  datatype Effect = Effect(pc: Pc, row: Option<Row>, claimed: bool, starts: bool, rejects: bool, fails: bool)

  function Moves(pc: Pc, row: Option<Row>, claimed: bool): Effect { Effect(pc, row, claimed, false, false, false) }

  function StepStart(env: Envelope, row: Option<Row>, claimed: bool, outcome: Outcome): Effect {
    if env.heartbeat then
      var reply := if outcome.Replied? then outcome.r else "";
      if row.None? then Moves(Done(Returned(false, Some(reply))), Some(Row(env, Some(reply))), claimed)
      else if row.value.envelope != env then Moves(Done(Conflict), row, claimed)
      else Moves(Contested, row, claimed)
    else if claimed then Moves(Contested, row, claimed)
    else Moves(Claimed, row, true)
  }

  function StepInsert(env: Envelope, row: Option<Row>, claimed: bool): Effect {
    if row.None? then Moves(Admitted(true), Some(Row(env, None)), claimed)
    else if row.value.envelope != env then Moves(Leaving(Conflict), row, claimed)
    else Moves(Admitted(false), row, claimed)
  }

  function StepDispatch(inserted: bool, row: Option<Row>, claimed: bool): Effect {
    if !inserted && Answered(row).Some? then Moves(Leaving(Returned(true, Answered(row))), row, claimed)
    else Moves(Dispatching(inserted), row, claimed).(starts := true)
  }

  /** `set_response` updates a row if it is there; `discard_unprocessed` deletes an unanswered one. */
  function StepRecord(inserted: bool, outcome: Outcome, row: Option<Row>, claimed: bool): Effect {
    match outcome
    case Replied(r) => Moves(Leaving(Returned(!inserted, Some(r))), WithResponse(row, r), claimed)
    case Refused(r) => Moves(Leaving(Raised), WithResponse(row, r), claimed)
    case Rejected => Moves(Leaving(Raised), if Answered(row).None? then None else row, claimed).(rejects := true)
    case Unexpected => Moves(Leaving(Raised), row, claimed).(fails := true)
  }

  function WithResponse(row: Option<Row>, r: Response): Option<Row> {
    if row.Some? then Some(row.value.(response := Some(r))) else None
  }

  function StepOf(env: Envelope, pc: Pc, row: Option<Row>, claimed: bool, outcome: Outcome): Effect {
    match pc
    case Start => StepStart(env, row, claimed, outcome)
    case Contested => Moves(Done(Returned(true, Answered(row))), row, claimed)
    case Claimed => StepInsert(env, row, claimed)
    case Admitted(inserted) => StepDispatch(inserted, row, claimed)
    case Dispatching(inserted) => Moves(Handled(inserted, outcome), row, claimed)
    case Handled(inserted, o) => StepRecord(inserted, o, row, claimed)
    case Leaving(answer) => Moves(Done(answer), row, false)
    case Done(_) => Moves(pc, row, claimed)
  }

  function RowOf(s: System, id: string): Option<Row> { RowIn(s.inbox, id) }

  /** The thread after a step, remembering whether its first one found the claim taken. */
  function Moved(th: Thread, claimed: bool, pc: Pc): Thread {
    th.(pc := pc, contested := th.contested || (th.pc.Start? && !th.env.heartbeat && claimed))
  }

  function Apply(s: System, t: nat, e: Effect): System
    requires t in s.threads
  {
    var id := s.threads[t].env.id;
    System(
      WithRow(s.inbox, id, e.row),
      if e.claimed then s.claims + {id} else s.claims - {id},
      s.threads[t := Moved(s.threads[t], id in s.claims, e.pc)],
      if e.starts then Bump(s.starts, id) else s.starts,
      if e.rejects then Bump(s.rejected, id) else s.rejected,
      if e.fails then Bump(s.unexpected, id) else s.unexpected,
      s.crashes)
  }

  function EffectOf(s: System, t: nat, outcome: Outcome): Effect
    requires t in s.threads
  {
    var th := s.threads[t];
    StepOf(th.env, th.pc, RowOf(s, th.env.id), th.env.id in s.claims, outcome)
  }

  function Next(s: System, e: Event): System {
    match e
    case Begin(t, env) =>
      if t in s.threads then s else
      var seen := if Recorded(s.inbox, env.id).Some? then Some(s.inbox[env.id]) else None;
      s.(threads := s.threads[t := Thread(env, Start, seen, false)])
    case Go(t, outcome) => if t in s.threads then Apply(s, t, EffectOf(s, t, outcome)) else s
    case Crash => s.(claims := {}, threads := map[], crashes := s.crashes + 1)
  }

  function Run(s: System, es: seq<Event>): System
    decreases |es|
  {
    if es == [] then s else Run(Next(s, es[0]), es[1..])
  }

  const FRESH := System(map[], {}, map[], map[], map[], map[], 0)

  // ---------------------------------------------------------------------------------
  // The invariant.

  predicate Holding(pc: Pc) { pc.Claimed? || pc.Admitted? || pc.Dispatching? || pc.Handled? || pc.Leaving? }

  predicate Running(pc: Pc) { pc.Dispatching? || pc.Handled? }

  /** What a thread may rely on about the row and claim of its message id. */
  predicate ThreadOk(th: Thread, row: Option<Row>, claimed: bool) {
    && (Holding(th.pc) ==> claimed)
    // Between insertion and recording the thread finds its own row, and no answer on it.
    && (th.pc.Admitted? ==> row.Some? && row.value.envelope == th.env)
    && (Running(th.pc) || (th.pc.Admitted? && th.pc.inserted) ==> row == Some(Row(th.env, None)))
    // A call that began after the response was recorded can only return it.
    && (th.seen.Some? ==>
          && th.seen.value.response.Some? && row == th.seen
          && (th.pc.Leaving? || th.pc.Done? ==>
                || th.pc.answer == Returned(true, row.value.response)
                || (th.pc.answer == Conflict && row.value.envelope != th.env)))
  }

  ghost predicate ThreadsInv(s: System) {
    forall t :: t in s.threads ==> ThreadOk(s.threads[t], RowOf(s, s.threads[t].env.id), s.threads[t].env.id in s.claims)
  }

  /** No two threads hold the claim of one message id. */
  ghost predicate ExclusiveInv(s: System) {
    forall t, u :: t in s.threads && u in s.threads && Holding(s.threads[t].pc) && Holding(s.threads[u].pc) ==>
      s.threads[t].env.id == s.threads[u].env.id ==> t == u
  }

  ghost predicate IsRunning(s: System, id: string) {
    exists t :: t in s.threads && Running(s.threads[t].pc) && s.threads[t].env.id == id
  }

  /** Handler runs are accounted for by crashes, failures, or the one run that counts. */
  ghost predicate Accounted(s: System, id: string) {
    Count(s.starts, id) <= s.crashes + Count(s.rejected, id) + Count(s.unexpected, id)
                           + (if IsRunning(s, id) || Recorded(s.inbox, id).Some? then 1 else 0)
  }

  ghost predicate RunsInv(s: System) {
    forall id :: Accounted(s, id)
  }

  ghost predicate GateInv(s: System) {
    ThreadsInv(s) && ExclusiveInv(s) && RunsInv(s)
  }

  // ---------------------------------------------------------------------------------
  // One step, seen from its own message id.

  /** A thread's next `n` steps when nobody interferes: its pc, and the id's row and claim. */
  function StepsAlone(env: Envelope, pc: Pc, row: Option<Row>, claimed: bool, o: Outcome, n: nat): (Pc, Option<Row>, bool)
    decreases n
  {
    if n == 0 then (pc, row, claimed) else
    var e := StepOf(env, pc, row, claimed, o);
    StepsAlone(env, e.pc, e.row, e.claimed, o, n - 1)
  }

  lemma {:induction false} HandlingAlone(env: Envelope, row: Option<Row>, inserted: bool, o: Outcome)
    requires row.Some? && row.value.envelope == env && row.value.response == None
    ensures StepsAlone(env, Admitted(inserted), row, true, o, 4) ==
      (Done(AcceptAlone(if inserted then None else row, false, env, o).1),
       AcceptAlone(if inserted then None else row, false, env, o).0, false)
  {
    var e := StepRecord(inserted, o, row, true);
    assert StepsAlone(env, Leaving(e.pc.answer), e.row, true, o, 1) == (Done(e.pc.answer), e.row, false);
    assert StepsAlone(env, Handled(inserted, o), row, true, o, 2) == StepsAlone(env, e.pc, e.row, true, o, 1);
    assert StepsAlone(env, Dispatching(inserted), row, true, o, 3) == StepsAlone(env, Handled(inserted, o), row, true, o, 2);
    assert StepsAlone(env, Admitted(inserted), row, true, o, 4) == StepsAlone(env, Dispatching(inserted), row, true, o, 3);
  }

  lemma {:induction false} DoneStays(env: Envelope, answer: Answer, row: Option<Row>, claimed: bool, o: Outcome, n: nat)
    ensures StepsAlone(env, Done(answer), row, claimed, o, n) == (Done(answer), row, claimed)
  {
    if n > 0 {
      DoneStays(env, answer, row, claimed, o, n - 1);
    }
  }

  /** A thread that nobody interferes with does in six steps what `Accept` does in one. */
  lemma {:induction false} SixStepsAreAccept(env: Envelope, row: Option<Row>, claimed: bool, o: Outcome)
    requires !env.heartbeat
    ensures StepsAlone(env, Start, row, claimed, o, 6) ==
      (Done(AcceptAlone(row, claimed, env, o).1), AcceptAlone(row, claimed, env, o).0, claimed)
  {
    if claimed {
      ShortCall(env, Contested, row, true, Returned(true, Answered(row)), o, 5);
    } else if BoundElsewhere(row, env) {
      ShortCall(env, Leaving(Conflict), row, true, Conflict, o, 4);
    } else if Answered(row).Some? {
      ShortCall(env, Leaving(Returned(true, Answered(row))), row, true, Returned(true, Answered(row)), o, 3);
      assert StepsAlone(env, Admitted(false), row, true, o, 4) == (Done(Returned(true, Answered(row))), row, false);
      assert StepsAlone(env, Claimed, row, true, o, 5) == StepsAlone(env, Admitted(false), row, true, o, 4);
    } else {
      var inserted := if row.None? then Some(Row(env, None)) else row;
      HandlingAlone(env, inserted, row.None?, o);
      assert StepsAlone(env, Claimed, row, true, o, 5) == StepsAlone(env, Admitted(row.None?), inserted, true, o, 4);
    }
  }

  lemma {:induction false} ShortCall(env: Envelope, pc: Pc, row: Option<Row>, claimed: bool, answer: Answer, o: Outcome, n: nat)
    requires n > 0 && (pc == Leaving(answer) || (pc == Contested && answer == Returned(true, Answered(row))))
    ensures StepsAlone(env, pc, row, claimed, o, n) == (Done(answer), row, if pc.Leaving? then false else claimed)
  {
    DoneStays(env, answer, row, if pc.Leaving? then false else claimed, o, n - 1);
  }

  /** The stepping thread stays in order. */
  lemma {:induction false} OwnStep(th: Thread, row: Option<Row>, claimed: bool, outcome: Outcome)
    requires ThreadOk(th, row, claimed)
    ensures var e := StepOf(th.env, th.pc, row, claimed, outcome);
      && ThreadOk(th.(pc := e.pc), e.row, e.claimed)
      && (Answered(row).Some? ==> e.row == row)
  {
  }

  /** So does any other thread with the same message id, as long as the claim is exclusive. */
  lemma {:induction false} OtherStep(th: Thread, u: Thread, row: Option<Row>, claimed: bool, outcome: Outcome)
    requires ThreadOk(th, row, claimed) && ThreadOk(u, row, claimed) && !(Holding(th.pc) && Holding(u.pc))
    ensures var e := StepOf(th.env, th.pc, row, claimed, outcome);
      ThreadOk(u, e.row, e.claimed) && !(Holding(e.pc) && Holding(u.pc))
  {
  }

  /** A run begins only on an unanswered row, and ends in an answer or in a counted failure. */
  lemma {:induction false} StepAccounts(th: Thread, row: Option<Row>, claimed: bool, outcome: Outcome)
    requires ThreadOk(th, row, claimed)
    ensures var e := StepOf(th.env, th.pc, row, claimed, outcome);
      && (e.starts ==> Answered(row).None? && Holding(th.pc) && !Running(th.pc) && Running(e.pc))
      && (!e.starts && Running(e.pc) ==> Running(th.pc))
      && (Running(th.pc) && !Running(e.pc) ==> e.rejects || e.fails || Answered(e.row).Some?)
  {
  }

  // ---------------------------------------------------------------------------------
  // The same for the whole system.

  lemma {:induction false} ApplyFacts(s: System, t: nat, e: Effect)
    requires t in s.threads
    ensures var s' := Apply(s, t, e); var id := s.threads[t].env.id;
      && RowOf(s', id) == e.row && (id in s'.claims <==> e.claimed)
      && (forall other :: other != id ==> RowOf(s', other) == RowOf(s, other) && (other in s'.claims <==> other in s.claims))
      && s'.threads.Keys == s.threads.Keys && s'.threads[t] == Moved(s.threads[t], id in s.claims, e.pc)
      && (forall u :: u in s.threads && u != t ==> s'.threads[u] == s.threads[u])
  {
  }

  lemma {:induction false} GoKeepsThreads(s: System, t: nat, outcome: Outcome)
    requires t in s.threads && ThreadsInv(s) && ExclusiveInv(s)
    ensures ThreadsInv(Next(s, Go(t, outcome))) && ExclusiveInv(Next(s, Go(t, outcome)))
  {
    var s' := Next(s, Go(t, outcome));
    ApplyFacts(s, t, EffectOf(s, t, outcome));
    forall u | u in s.threads
      ensures ThreadOk(s'.threads[u], RowOf(s', s'.threads[u].env.id), s'.threads[u].env.id in s'.claims)
    {
      GoKeepsThread(s, t, outcome, u);
    }
    forall u | u in s.threads && u != t && s.threads[u].env.id == s.threads[t].env.id
      ensures !(Holding(s'.threads[t].pc) && Holding(s'.threads[u].pc))
    {
      GoKeepsThread(s, t, outcome, u);
    }
  }

  lemma {:induction false} GoKeepsThread(s: System, t: nat, outcome: Outcome, u: nat)
    requires t in s.threads && u in s.threads && ThreadsInv(s) && ExclusiveInv(s)
    ensures var s' := Next(s, Go(t, outcome));
      && u in s'.threads
      && ThreadOk(s'.threads[u], RowOf(s', s'.threads[u].env.id), s'.threads[u].env.id in s'.claims)
      && (u != t && s.threads[u].env.id == s.threads[t].env.id ==>
            t in s'.threads && !(Holding(s'.threads[t].pc) && Holding(s'.threads[u].pc)))
  {
    var th := s.threads[t];
    var row, claimed := RowOf(s, th.env.id), th.env.id in s.claims;
    ApplyFacts(s, t, EffectOf(s, t, outcome));
    assert ThreadOk(s.threads[u], RowOf(s, s.threads[u].env.id), s.threads[u].env.id in s.claims);
    if u == t {
      OwnStep(th, row, claimed, outcome);
    } else if s.threads[u].env.id == th.env.id {
      OtherStep(th, s.threads[u], row, claimed, outcome);
    }
  }

  lemma {:induction false} GoKeepsRunning(s: System, t: nat, outcome: Outcome, id: string)
    requires t in s.threads && IsRunning(s, id)
    requires s.threads[t].env.id == id && Running(s.threads[t].pc) ==> Running(EffectOf(s, t, outcome).pc)
    ensures IsRunning(Next(s, Go(t, outcome)), id)
  {
    ApplyFacts(s, t, EffectOf(s, t, outcome));
    var u :| u in s.threads && Running(s.threads[u].pc) && s.threads[u].env.id == id;
    assert Running(Next(s, Go(t, outcome)).threads[u].pc);
  }

  lemma {:induction false} RecordedIsAnswered(s: System, id: string)
    ensures Recorded(s.inbox, id) == Answered(RowOf(s, id))
  {
  }

  lemma {:induction false} GoAccountsForOthers(s: System, t: nat, outcome: Outcome, id: string)
    requires t in s.threads && Accounted(s, id) && s.threads[t].env.id != id
    ensures Accounted(Next(s, Go(t, outcome)), id)
  {
    var s' := Next(s, Go(t, outcome));
    ApplyFacts(s, t, EffectOf(s, t, outcome));
    RecordedIsAnswered(s, id);
    RecordedIsAnswered(s', id);
    if IsRunning(s, id) {
      GoKeepsRunning(s, t, outcome, id);
    }
  }

  lemma {:induction false} GoAccountsForOwn(s: System, t: nat, outcome: Outcome)
    requires t in s.threads && ThreadsInv(s) && ExclusiveInv(s) && Accounted(s, s.threads[t].env.id)
    ensures Accounted(Next(s, Go(t, outcome)), s.threads[t].env.id)
  {
    var th, e, s' := s.threads[t], EffectOf(s, t, outcome), Next(s, Go(t, outcome));
    var id := th.env.id;
    ApplyFacts(s, t, e);
    RecordedIsAnswered(s, id);
    RecordedIsAnswered(s', id);
    OwnStep(th, RowOf(s, id), id in s.claims, outcome);
    StepAccounts(th, RowOf(s, id), id in s.claims, outcome);
    if e.starts {
      assert !IsRunning(s, id);
      assert Running(s'.threads[t].pc) && s'.threads[t].env.id == id;
    } else if IsRunning(s, id) && (Running(th.pc) ==> Running(e.pc)) {
      GoKeepsRunning(s, t, outcome, id);
    }
  }

  lemma {:induction false} BeginKeepsGate(s: System, t: nat, env: Envelope)
    requires GateInv(s)
    ensures GateInv(Next(s, Begin(t, env)))
  {
    var s' := Next(s, Begin(t, env));
    if t !in s.threads {
      assert forall u :: u in s.threads ==> s'.threads[u] == s.threads[u];
      forall id ensures Accounted(s', id) {
        assert Accounted(s, id);
        if IsRunning(s, id) {
          var u :| u in s.threads && Running(s.threads[u].pc) && s.threads[u].env.id == id;
          assert u in s'.threads && Running(s'.threads[u].pc);
        }
      }
    }
  }

  lemma {:induction false} CrashKeepsGate(s: System)
    requires GateInv(s)
    ensures GateInv(Next(s, Crash))
  {
    forall id ensures Accounted(Next(s, Crash), id) {
      assert Accounted(s, id);
    }
  }

  lemma {:induction false} NextKeepsGate(s: System, e: Event)
    requires GateInv(s)
    ensures GateInv(Next(s, e))
  {
    match e
    case Begin(t, env) => BeginKeepsGate(s, t, env);
    case Crash => CrashKeepsGate(s);
    case Go(t, outcome) =>
      if t in s.threads {
        GoKeepsThreads(s, t, outcome);
        forall id ensures Accounted(Next(s, e), id) {
          assert Accounted(s, id);
          if s.threads[t].env.id == id {
            GoAccountsForOwn(s, t, outcome);
          } else {
            GoAccountsForOthers(s, t, outcome, id);
          }
        }
      }
  }

  lemma {:induction false} GateFrom(s: System, es: seq<Event>)
    requires GateInv(s)
    ensures GateInv(Run(s, es))
    decreases |es|
  {
    if es != [] {
      NextKeepsGate(s, es[0]);
      GateFrom(Next(s, es[0]), es[1..]);
    }
  }

  /** A recorded response never changes. */
  lemma {:induction false} RecordedStays(s: System, e: Event, id: string)
    requires ThreadsInv(s) && Recorded(s.inbox, id).Some?
    ensures RowOf(Next(s, e), id) == RowOf(s, id)
  {
    if e.Go? && e.t in s.threads {
      var th := s.threads[e.t];
      ApplyFacts(s, e.t, EffectOf(s, e.t, e.outcome));
      OwnStep(th, RowOf(s, th.env.id), th.env.id in s.claims, e.outcome);
    }
  }

  // ---------------------------------------------------------------------------------
  // What it means for callers, over every interleaving and every pattern of crashes.

  /** At most one thread at a time dispatches a given message id. */
  lemma {:induction false} AtMostOneDispatch(es: seq<Event>, t: nat, u: nat)
    requires var s := Run(FRESH, es);
      && t in s.threads && u in s.threads && t != u
      && Running(s.threads[t].pc) && Running(s.threads[u].pc)
    ensures Run(FRESH, es).threads[t].env.id != Run(FRESH, es).threads[u].env.id
  {
    GateFrom(FRESH, es);
  }

  lemma {:induction false} RecordedStaysFrom(s: System, es: seq<Event>, id: string)
    requires GateInv(s) && Recorded(s.inbox, id).Some?
    ensures RowOf(Run(s, es), id) == RowOf(s, id)
    decreases |es|
  {
    if es != [] {
      RecordedStays(s, es[0], id);
      NextKeepsGate(s, es[0]);
      RecordedStaysFrom(Next(s, es[0]), es[1..], id);
    }
  }

  /** A recorded response survives everything that follows, unchanged. */
  lemma {:induction false} RecordedNeverChanges(es: seq<Event>, more: seq<Event>, id: string)
    requires Recorded(Run(FRESH, es).inbox, id).Some?
    ensures Recorded(Run(Run(FRESH, es), more).inbox, id) == Recorded(Run(FRESH, es).inbox, id)
  {
    GateFrom(FRESH, es);
    RecordedStaysFrom(Run(FRESH, es), more, id);
  }

  /** What a thread's answer says about contention. */
  predicate ContestOk(th: Thread) {
    && (th.contested ==> !th.env.heartbeat && (th.pc.Contested? || (th.pc.Done? && th.pc.answer.Returned?)))
    && (!th.contested && !th.env.heartbeat ==> !th.pc.Contested?)
    && (!th.contested && !th.env.heartbeat && th.seen.Some? && th.seen.value.envelope != th.env ==>
          th.pc.Leaving? || th.pc.Done? ==> th.pc.answer == Conflict)
  }

  ghost predicate ContestInv(s: System) { forall t :: t in s.threads ==> ContestOk(s.threads[t]) }

  lemma {:induction false} StepKeepsContest(th: Thread, row: Option<Row>, claimed: bool, outcome: Outcome)
    requires ThreadOk(th, row, claimed) && ContestOk(th)
    ensures ContestOk(Moved(th, claimed, StepOf(th.env, th.pc, row, claimed, outcome).pc))
  {
  }

  lemma {:induction false} NextKeepsContest(s: System, e: Event)
    requires ThreadsInv(s) && ContestInv(s)
    ensures ContestInv(Next(s, e))
  {
    if e.Go? && e.t in s.threads {
      var th := s.threads[e.t];
      ApplyFacts(s, e.t, EffectOf(s, e.t, e.outcome));
      StepKeepsContest(th, RowOf(s, th.env.id), th.env.id in s.claims, e.outcome);
    }
  }

  lemma {:induction false} ContestFrom(s: System, es: seq<Event>)
    requires GateInv(s) && ContestInv(s)
    ensures ContestInv(Run(s, es))
    decreases |es|
  {
    if es != [] {
      NextKeepsContest(s, es[0]);
      NextKeepsGate(s, es[0]);
      ContestFrom(Next(s, es[0]), es[1..]);
    }
  }

  /**
   * A call that begins once a response is recorded never runs the handler (a heartbeat has an
   * effect-free one, which runs on every delivery and is not counted).  When it is done it
   * has returned that response, except that a different envelope is reported as a conflict if
   * and only if the call did not find its id claimed.
   */
  lemma {:induction false} LaterCallsReplay(es: seq<Event>, t: nat)
    requires var s := Run(FRESH, es); t in s.threads && s.threads[t].seen.Some?
    ensures var th := Run(FRESH, es).threads[t];
      && !Running(th.pc)
      && (th.pc.Done? ==> th.pc.answer == Returned(true, th.seen.value.response) || th.pc.answer == Conflict)
      && (th.pc.Done? && th.seen.value.envelope == th.env ==> th.pc.answer == Returned(true, th.seen.value.response))
      && (th.pc.Done? && th.seen.value.envelope != th.env && !th.env.heartbeat ==>
            (th.pc.answer == Conflict <==> !th.contested))
  {
    GateFrom(FRESH, es);
    ContestFrom(FRESH, es);
  }

  /**
   * The handler runs at most once per message, plus once per crash, rejection or unexpected
   * exception.  Heartbeats, whose handler has no effects and runs on every delivery, are not
   * counted.
   */
  lemma {:induction false} HandlerRunsAreBounded(es: seq<Event>, id: string)
    ensures var s := Run(FRESH, es);
      Count(s.starts, id) <= 1 + s.crashes + Count(s.rejected, id) + Count(s.unexpected, id)
  {
    GateFrom(FRESH, es);
    assert Accounted(Run(FRESH, es), id);
  }

  // ---------------------------------------------------------------------------------
  // Under contention the envelope is not compared.

  const FIRST := Envelope("m", false, "first")
  const SECOND := Envelope("m", false, "second")

  /** One call handles `FIRST` and has recorded its reply but not yet released the claim. */
  function Answering(): seq<Event> {
    [Begin(0, FIRST), Go(0, Unexpected), Go(0, Unexpected), Go(0, Unexpected), Go(0, Replied("for first")), Go(0, Unexpected)]
  }

  /** Then a call with other content under the same id comes and goes. */
  function Intruding(): seq<Event> { [Begin(1, SECOND), Go(1, Unexpected), Go(1, Unexpected)] }

  function Threads1(pc: Pc): map<nat, Thread> { map[0 := Thread(FIRST, pc, None, false)] }

  /** The system while the first call is on its own. */
  function Alone(pc: Pc, response: Option<Response>, claimed: bool, starts: map<string, nat>, inserted: bool): System {
    System(if inserted then map["m" := Row(FIRST, response)] else map[], if claimed then {"m"} else {}, Threads1(pc),
           starts, map[], map[], 0)
  }

  lemma {:induction false} RunOne(s: System, e: Event, es: seq<Event>)
    ensures Run(s, [e] + es) == Run(Next(s, e), es)
  {
    assert ([e] + es)[1..] == es;
  }

  lemma {:induction false} FirstIsAdmitted()
    ensures Next(FRESH, Begin(0, FIRST)) == Alone(Start, None, false, map[], false)
    ensures Next(Alone(Start, None, false, map[], false), Go(0, Unexpected)) == Alone(Claimed, None, true, map[], false)
    ensures Next(Alone(Claimed, None, true, map[], false), Go(0, Unexpected)) == Alone(Admitted(true), None, true, map[], true)
  {
  }

  lemma {:induction false} FirstIsRecorded()
    ensures var ran := map["m" := 1];
      && Next(Alone(Admitted(true), None, true, map[], true), Go(0, Unexpected)) == Alone(Dispatching(true), None, true, ran, true)
      && Next(Alone(Dispatching(true), None, true, ran, true), Go(0, Replied("for first")))
           == Alone(Handled(true, Replied("for first")), None, true, ran, true)
      && Next(Alone(Handled(true, Replied("for first")), None, true, ran, true), Go(0, Unexpected))
           == Alone(Leaving(Returned(false, Some("for first"))), Some("for first"), true, ran, true)
  {
  }

  lemma {:induction false} FirstHasAnswered()
    ensures Run(FRESH, Answering()) == Alone(Leaving(Returned(false, Some("for first"))), Some("for first"), true, map["m" := 1], true)
  {
    FirstIsAdmitted();
    FirstIsRecorded();
    var es := Answering();
    assert es == [es[0]] + ([es[1]] + ([es[2]] + ([es[3]] + ([es[4]] + ([es[5]] + [])))));
    RunOne(FRESH, es[0], [es[1]] + ([es[2]] + ([es[3]] + ([es[4]] + ([es[5]] + [])))));
    RunOne(Alone(Start, None, false, map[], false), es[1], [es[2]] + ([es[3]] + ([es[4]] + ([es[5]] + []))));
    RunOne(Alone(Claimed, None, true, map[], false), es[2], [es[3]] + ([es[4]] + ([es[5]] + [])));
    RunOne(Alone(Admitted(true), None, true, map[], true), es[3], [es[4]] + ([es[5]] + []));
    RunOne(Alone(Dispatching(true), None, true, map["m" := 1], true), es[4], [es[5]] + []);
    RunOne(Alone(Handled(true, Replied("for first")), None, true, map["m" := 1], true), es[5], []);
  }

  lemma {:induction false} RunAppend(s: System, es: seq<Event>, more: seq<Event>)
    ensures Run(s, es + more) == Run(Run(s, es), more)
    decreases |es|
  {
    if es == [] {
      assert es + more == more;
    } else {
      assert (es + more)[1..] == es[1..] + more;
      RunAppend(Next(s, es[0]), es[1..], more);
    }
  }

  lemma {:induction false} IntruderSteps(s: System)
    requires s == Alone(Leaving(Returned(false, Some("for first"))), Some("for first"), true, map["m" := 1], true)
    ensures var s' := Next(Next(Next(s, Begin(1, SECOND)), Go(1, Unexpected)), Go(1, Unexpected));
      s'.inbox == s.inbox && 1 in s'.threads && s'.threads[1].env == SECOND
      && s'.threads[1].pc == Done(Returned(true, Some("for first")))
  {
    var s1 := Next(s, Begin(1, SECOND));
    var s2 := Next(s1, Go(1, Unexpected));
    assert s1.threads[1] == Thread(SECOND, Start, Some(Row(FIRST, Some("for first"))), false) && s1.claims == {"m"};
    ApplyFacts(s1, 1, EffectOf(s1, 1, Unexpected));
    assert s2.threads[1].pc == Contested && RowOf(s2, "m") == Some(Row(FIRST, Some("for first"))) && s2.inbox == s.inbox;
    ApplyFacts(s2, 1, EffectOf(s2, 1, Unexpected));
    assert Next(s2, Go(1, Unexpected)).inbox == s.inbox;
  }

  /** The second call of that run gets the response that was recorded for the other envelope. */
  lemma {:induction false} ContestedCallGetsAnothersResponse()
    ensures var s := Run(FRESH, Answering() + Intruding());
      && s.inbox == map["m" := Row(FIRST, Some("for first"))]
      && 1 in s.threads && s.threads[1].env == SECOND && s.threads[1].pc == Done(Returned(true, Some("for first")))
  {
    RunAppend(FRESH, Answering(), Intruding());
    FirstHasAnswered();
    var s := Run(FRESH, Answering());
    var es := Intruding();
    assert es == [es[0]] + ([es[1]] + ([es[2]] + []));
    RunOne(s, es[0], [es[1]] + ([es[2]] + []));
    RunOne(Next(s, es[0]), es[1], [es[2]] + []);
    RunOne(Next(Next(s, es[0]), es[1]), es[2], []);
    IntruderSteps(s);
  }
}
