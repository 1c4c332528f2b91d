/**
 * The threads of the replay gate step by step (fasp_harness/core.py): what the run counters
 * count, what heartbeats do, and what a crash leaves.
 */
module ReplaySteps {
  import opened Common
  import opened ReplayGate

  /** A run begins where a thread comes to dispatch, and ends badly where it records such an end. */
  lemma {:induction false} EffectsAre(env: Envelope, pc: Pc, row: Option<Row>, claimed: bool, o: Outcome)
    ensures var e := StepOf(env, pc, row, claimed, o);
      && (e.starts <==> e.pc.Dispatching? && !pc.Dispatching?)
      && (e.rejects <==> pc.Handled? && pc.outcome == Rejected)
      && (e.fails <==> pc.Handled? && pc.outcome == Unexpected)
  {
  }

  function Times(m: map<string, nat>, id: string): nat { if id in m then m[id] else 0 }

  predicate Comes(was: Pc, now: Pc) { now.Dispatching? && !was.Dispatching? }

  predicate Ends(was: Pc, o: Outcome) { was.Handled? && was.outcome == o }

  lemma {:induction false} ApplyCounts(s: System, t: nat, e: Effect, id: string)
    requires t in s.threads
    ensures var s', own := Apply(s, t, e), s.threads[t].env.id == id;
      && t in s'.threads && s'.threads[t].pc == e.pc && s'.crashes == s.crashes
      && Times(s'.starts, id) == Times(s.starts, id) + (if own && e.starts then 1 else 0)
      && Times(s'.rejected, id) == Times(s.rejected, id) + (if own && e.rejects then 1 else 0)
      && Times(s'.unexpected, id) == Times(s.unexpected, id) + (if own && e.fails then 1 else 0)
  {
  }

  /**
   * The counters of handler runs count what their names say: a run begins when a thread comes
   * to dispatch its message, and is rejected or fails unexpectedly when the thread records
   * such an end.  Nothing else moves them.
   */
  lemma {:induction false} CountersCount(s: System, t: nat, o: Outcome, id: string)
    requires t in s.threads
    ensures var s', was, own := Next(s, Go(t, o)), s.threads[t].pc, s.threads[t].env.id == id;
      && t in s'.threads && s'.crashes == s.crashes
      && Times(s'.starts, id) == Times(s.starts, id) + (if own && Comes(was, s'.threads[t].pc) then 1 else 0)
      && Times(s'.rejected, id) == Times(s.rejected, id) + (if own && Ends(was, Rejected) then 1 else 0)
      && Times(s'.unexpected, id) == Times(s.unexpected, id) + (if own && Ends(was, Unexpected) then 1 else 0)
  {
    var th := s.threads[t];
    EffectsAre(th.env, th.pc, RowOf(s, th.env.id), th.env.id in s.claims, o);
    ApplyCounts(s, t, EffectOf(s, t, o), id);
  }

  /** A crash is counted, ends all threads, forgets all claims and keeps the inbox; a call begins idle. */
  lemma {:induction false} CrashAndBegin(s: System, t: nat, env: Envelope)
    ensures var s' := Next(s, Crash);
      && s'.crashes == s.crashes + 1 && s'.threads == map[] && s'.claims == {} && s'.inbox == s.inbox
      && s'.starts == s.starts && s'.rejected == s.rejected && s'.unexpected == s.unexpected
    ensures t !in s.threads ==>
      var s' := Next(s, Begin(t, env));
      && s' == s.(threads := s'.threads) && s'.threads - {t} == s.threads - {t} && t in s'.threads
      && s'.threads[t].env == env && s'.threads[t].pc == Start && !s'.threads[t].contested
      && s'.threads[t].seen == (if env.id in s.inbox && s.inbox[env.id].response.Some? then Some(s.inbox[env.id]) else None)
  {
  }

  /** What a thread does to the shared state concerns its own message id only. */
  lemma {:induction false} StepIsLocal(s: System, t: nat, o: Outcome, id: string)
    requires t in s.threads && s.threads[t].env.id != id
    ensures var s' := Next(s, Go(t, o));
      && (id in s'.inbox <==> id in s.inbox) && (id in s.inbox ==> s'.inbox[id] == s.inbox[id])
      && (id in s'.claims <==> id in s.claims) && s'.threads - {t} == s.threads - {t}
  {
  }

  /**
   * A heartbeat: a new one is stored with the handler's reply and answered with it, a repeated
   * one is answered with what is recorded, and another envelope under its id is a conflict.
   * No claim is taken.
   */
  lemma {:induction false} HeartbeatAlone(env: Envelope, row: Option<Row>, claimed: bool, r: Response)
    requires env.heartbeat
    ensures StepsAlone(env, Start, row, claimed, Replied(r), 2) ==
      if row.None? then (Done(Returned(false, Some(r))), Some(Row(env, Some(r))), claimed)
      else if row.value.envelope == env then (Done(Returned(true, row.value.response)), row, claimed)
      else (Done(Conflict), row, claimed)
  {
    var e := StepStart(env, row, claimed, Replied(r));
    DoneStays(env, if row.None? then Returned(false, Some(r)) else Conflict, e.row, claimed, Replied(r), 1);
    assert StepsAlone(env, Start, row, claimed, Replied(r), 2) == StepsAlone(env, e.pc, e.row, e.claimed, Replied(r), 1);
    DoneStays(env, Returned(true, Answered(row)), row, claimed, Replied(r), 0);
  }

  /** Whether a call found its message id claimed is decided by its first step, and a heartbeat never looks. */
  lemma {:induction false} ContestedExactly(s: System, t: nat, o: Outcome)
    requires t in s.threads
    ensures var th, s' := s.threads[t], Next(s, Go(t, o));
      && t in s'.threads
      && (s'.threads[t].contested <==> th.contested || (th.pc == Start && !th.env.heartbeat && th.env.id in s.claims))
      && s'.threads[t].env == th.env && s'.threads[t].seen == th.seen
  {
  }
}
