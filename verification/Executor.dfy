/**
 * The drift-free cyclic executor and its virtual clock
 * (fasp_harness/realtime/scheduler.py:65-88 and 263-300).  Times are nanoseconds.
 */
module Executor {
  import opened Common

  datatype Policy = Skip | CatchUp | FailSafe

  datatype Config = Config(period: int, deadline: int, policy: Policy)

  /** What the constructor accepts, for periods of at least a nanosecond. */
  ghost predicate ValidConfig(cfg: Config) { 0 < cfg.period && 0 <= cfg.deadline <= cfg.period }

  /** What a cycle meets: when it woke and finished, whether its work raised, whether anyone asked to stop. */
  datatype Beat = Beat(woke: int, finished: int, raised: bool, stop: bool)

  datatype Cycle = Cycle(index: nat, release: int, woke: int, finished: int)

  function Times(k: nat, period: int): int { if k == 0 then 0 else Times(k - 1, period) + period }

  function Release(cfg: Config, origin: int, k: nat): int { origin + Times(k, cfg.period) }

  predicate Late(cfg: Config, c: Cycle) { c.finished - c.release > cfg.deadline }

  /** The whole periods in a stretch of time. */
  function Periods(t: int, period: int): nat
    requires period > 0
    decreases t
  {
    if t < period then 0 else 1 + Periods(t - period, period)
  }

  function LateCount(cfg: Config, c: Cycle): nat { if Late(cfg, c) then 1 else 0 }

  /** How many releases a late cycle drops. */
  function Missed(cfg: Config, origin: int, c: Cycle): nat
    requires cfg.period > 0
  {
    if !Late(cfg, c) || cfg.policy != Skip then 0 else
    var m := Periods(c.finished - origin, cfg.period) + 1 - (c.index + 1);
    if m > 0 then m else 0
  }

  /** Each cycle is released on the grid, and after the previous one by one period plus what that one missed. */
  ghost predicate OnSchedule(cfg: Config, origin: int, log: seq<Cycle>)
    requires cfg.period > 0
  {
    && (log != [] ==> log[0].index == 0)
    && (forall i :: 0 <= i < |log| ==> log[i].release == Release(cfg, origin, log[i].index))
    && (forall i :: 0 < i < |log| ==> Succeeds(cfg, origin, log, i))
  }

  ghost predicate Succeeds(cfg: Config, origin: int, log: seq<Cycle>, i: int)
    requires cfg.period > 0 && 0 < i < |log|
  {
    log[i].index == log[i - 1].index + 1 + Missed(cfg, origin, log[i - 1])
  }

  function Overruns(cfg: Config, log: seq<Cycle>): nat {
    if log == [] then 0 else Overruns(cfg, log[..|log| - 1]) + LateCount(cfg, log[|log| - 1])
  }

  /** The index after the last cycle and what it missed. */
  function NextIndex(cfg: Config, origin: int, log: seq<Cycle>): nat
    requires cfg.period > 0
  {
    if log == [] then 0 else log[|log| - 1].index + 1 + Missed(cfg, origin, log[|log| - 1])
  }

  /** The cycles that a script of beats gives rise to. */
  ghost predicate Follows(log: seq<Cycle>, beats: seq<Beat>) {
    && |log| <= |beats|
    && forall i :: 0 <= i < |log| ==> log[i].woke == beats[i].woke && log[i].finished == beats[i].finished
  }

  /** Nothing in the first `n` cycles ends the run. */
  ghost predicate Uneventful(cfg: Config, log: seq<Cycle>, beats: seq<Beat>, n: int)
    requires n <= |log| <= |beats|
  {
    forall i :: 0 <= i < n ==> !beats[i].raised && !beats[i].stop && !(cfg.policy == FailSafe && Late(cfg, log[i]))
  }

  /** The state of a run between cycles: `index` is the next one. */
  ghost predicate Running(cfg: Config, origin: int, log: seq<Cycle>, beats: seq<Beat>, index: nat)
    requires cfg.period > 0
  {
    OnSchedule(cfg, origin, log) && Follows(log, beats) && index == NextIndex(cfg, origin, log)
  }

  lemma {:induction false} LogMore(cfg: Config, origin: int, log: seq<Cycle>, beats: seq<Beat>, index: nat, c: Cycle)
    requires cfg.period > 0 && Running(cfg, origin, log, beats, index) && |log| < |beats|
    requires c == Cycle(index, Release(cfg, origin, index), beats[|log|].woke, beats[|log|].finished)
    ensures Running(cfg, origin, log + [c], beats, index + 1 + Missed(cfg, origin, c))
    ensures Overruns(cfg, log + [c]) == Overruns(cfg, log) + LateCount(cfg, c)
  {
    var more := log + [c];
    assert more[..|log|] == log && more[|more| - 1] == c;
    forall i | 0 < i < |more| ensures Succeeds(cfg, origin, more, i) {
      if i < |log| {
        assert Succeeds(cfg, origin, log, i);
      }
    }
  }

  /** A run between cycles, with what its counters have gained. */
  ghost predicate Tallied(cfg: Config, origin: int, log: seq<Cycle>, beats: seq<Beat>, index: nat, late: int, dropped: int)
    requires cfg.period > 0
  {
    Running(cfg, origin, log, beats, index) && late == Overruns(cfg, log) && index == |log| + dropped
  }

  lemma {:induction false} TalliedMore(
    cfg: Config, origin: int, log: seq<Cycle>, beats: seq<Beat>, index: nat, late: int, dropped: int, c: Cycle,
    next: nat, late': int, dropped': int)
    requires cfg.period > 0 && Tallied(cfg, origin, log, beats, index, late, dropped) && |log| < |beats|
    requires c == Cycle(index, Release(cfg, origin, index), beats[|log|].woke, beats[|log|].finished)
    requires next == index + 1 + Missed(cfg, origin, c)
    requires late' == late + LateCount(cfg, c) && dropped' == dropped + Missed(cfg, origin, c)
    ensures Tallied(cfg, origin, log + [c], beats, next, late', dropped')
  {
    LogMore(cfg, origin, log, beats, index, c);
  }

  /** Only the last cycle may have stopped the run, and did if it overran a fail-safe. */
  ghost predicate Quiet(cfg: Config, log: seq<Cycle>, beats: seq<Beat>, stopped: bool)
    requires |log| <= |beats|
  {
    && Uneventful(cfg, log, beats, |log| - 1)
    && (!stopped ==> Uneventful(cfg, log, beats, |log|))
    && (log != [] ==> !beats[|log| - 1].raised)
    && (log != [] && cfg.policy == FailSafe && Late(cfg, log[|log| - 1]) ==> stopped)
  }

  ghost predicate Between(
    cfg: Config, origin: int, log: seq<Cycle>, beats: seq<Beat>, index: nat, late: int, dropped: int, stopped: bool)
    requires cfg.period > 0
  {
    Tallied(cfg, origin, log, beats, index, late, dropped) && Quiet(cfg, log, beats, stopped)
  }

  lemma {:induction false} UneventfulMore(cfg: Config, log: seq<Cycle>, beats: seq<Beat>, c: Cycle)
    requires |log| < |beats| && Uneventful(cfg, log, beats, |log|)
    ensures Uneventful(cfg, log + [c], beats, |log|)
    ensures !beats[|log|].raised && !beats[|log|].stop && !(cfg.policy == FailSafe && Late(cfg, c)) ==>
      Uneventful(cfg, log + [c], beats, |log| + 1)
  {
    assert (log + [c])[|log|] == c;
  }

  lemma {:induction false} QuietMore(cfg: Config, log: seq<Cycle>, beats: seq<Beat>, c: Cycle, stopped: bool)
    requires |log| < |beats| && Quiet(cfg, log, beats, false) && !beats[|log|].raised
    requires stopped <==> beats[|log|].stop || (cfg.policy == FailSafe && Late(cfg, c))
    ensures Quiet(cfg, log + [c], beats, stopped)
  {
    UneventfulMore(cfg, log, beats, c);
    assert (log + [c])[|log|] == c;
  }

  lemma {:induction false} BetweenMore(
    cfg: Config, origin: int, log: seq<Cycle>, beats: seq<Beat>, index: nat, late: int, dropped: int, c: Cycle,
    next: nat, late': int, dropped': int, stopped: bool)
    requires cfg.period > 0 && Between(cfg, origin, log, beats, index, late, dropped, false) && |log| < |beats|
    requires c == Cycle(index, Release(cfg, origin, index), beats[|log|].woke, beats[|log|].finished)
    requires !beats[|log|].raised && (stopped <==> beats[|log|].stop || (cfg.policy == FailSafe && Late(cfg, c)))
    requires next == index + 1 + Missed(cfg, origin, c)
    requires late' == late + LateCount(cfg, c) && dropped' == dropped + Missed(cfg, origin, c)
    ensures Between(cfg, origin, log + [c], beats, next, late', dropped', stopped)
  {
    TalliedMore(cfg, origin, log, beats, index, late, dropped, c, next, late', dropped');
    QuietMore(cfg, log, beats, c, stopped);
  }

  /** A run that ended because the work of its last cycle raised. */
  ghost predicate RaisedLast(cfg: Config, origin: int, log: seq<Cycle>, beats: seq<Beat>)
    requires cfg.period > 0
  {
    && OnSchedule(cfg, origin, log) && Follows(log, beats) && log != []
    && beats[|log| - 1].raised && Uneventful(cfg, log, beats, |log| - 1)
  }

  lemma {:induction false} BetweenRaises(
    cfg: Config, origin: int, log: seq<Cycle>, beats: seq<Beat>, index: nat, late: int, dropped: int, c: Cycle)
    requires cfg.period > 0 && Between(cfg, origin, log, beats, index, late, dropped, false) && |log| < |beats|
    requires c == Cycle(index, Release(cfg, origin, index), beats[|log|].woke, beats[|log|].finished)
    ensures beats[|log|].raised ==> RaisedLast(cfg, origin, log + [c], beats)
  {
    LogMore(cfg, origin, log, beats, index, c);
    UneventfulMore(cfg, log, beats, c);
  }

  /** The cycles whose response, from release to finish, exceeds the deadline. */
  function LateCycles(cfg: Config, log: seq<Cycle>): set<nat> {
    set i: nat | i < |log| && log[i].finished - log[i].release > cfg.deadline
  }

  lemma {:induction false} OverrunsCount(cfg: Config, log: seq<Cycle>)
    ensures Overruns(cfg, log) == |LateCycles(cfg, log)|
  {
    if log == [] {
      assert LateCycles(cfg, log) == {};
    } else {
      var n := |log| - 1;
      var before := LateCycles(cfg, log[..n]);
      OverrunsCount(cfg, log[..n]);
      assert LateCycles(cfg, log) == before + (if log[n].finished - log[n].release > cfg.deadline then {n} else {});
    }
  }

  class CyclicExecutor {
    const cfg: Config
    var cycles: nat
    var overruns: nat
    var skipped: nat
    var stopped: bool

    constructor (cfg: Config)
      ensures this.cfg == cfg && cycles == overruns == skipped == 0 && !stopped
    {
      this.cfg, cycles, overruns, skipped, stopped := cfg, 0, 0, 0, false;
    }

    method ReleaseOf(origin: int, index: nat) returns (release: int)
      ensures release == Release(cfg, origin, index)
    {
      TimesIsProduct(index, cfg.period);
      release := origin + index * cfg.period;
    }

    /** Books a finished cycle and returns the index of the next one. */
    method Book(origin: int, c: Cycle) returns (next: nat)
      requires cfg.period > 0
      modifies this
      ensures next == c.index + 1 + Missed(cfg, origin, c)
      ensures skipped == old(skipped) + Missed(cfg, origin, c) && cycles == old(cycles)
      ensures overruns == old(overruns) + LateCount(cfg, c)
      ensures stopped <==> old(stopped) || (cfg.policy == FailSafe && Late(cfg, c))
      // A response past the deadline is an overrun; only `skip` then resumes later than the next release.
      ensures overruns == old(overruns) + (if c.finished - c.release > cfg.deadline then 1 else 0)
      ensures stopped <==> old(stopped) || (cfg.policy == FailSafe && c.finished - c.release > cfg.deadline)
      ensures skipped - old(skipped) == next - (c.index + 1) >= 0
      ensures cfg.policy != Skip || c.finished - c.release <= cfg.deadline ==> next == c.index + 1
    {
      next := c.index + 1;
      if c.finished - c.release <= cfg.deadline { return; }
      overruns := overruns + 1;
      if cfg.policy == FailSafe {
        stopped := true;
      } else if cfg.policy == Skip {
        PeriodsIsDivision(c.finished - origin, cfg.period);
        var missed := (c.finished - origin) / cfg.period + 1 - next;
        if missed > 0 {
          skipped, next := skipped + missed, next + missed;
        }
      }
    }

    method OneCycle(origin: int, index: nat, beat: Beat) returns (c: Cycle, next: nat)
      requires cfg.period > 0
      modifies this
      ensures c == Cycle(index, Release(cfg, origin, index), beat.woke, beat.finished) && cycles == old(cycles) + 1
      ensures !beat.raised ==>
        && next == c.index + 1 + Missed(cfg, origin, c) && skipped == old(skipped) + Missed(cfg, origin, c)
        && overruns == old(overruns) + LateCount(cfg, c)
        && (stopped <==> old(stopped) || beat.stop || (cfg.policy == FailSafe && Late(cfg, c)))
      ensures beat.raised ==> stopped == old(stopped) && overruns == old(overruns) && skipped == old(skipped)
    {
      var release := ReleaseOf(origin, index);
      c, next := Cycle(index, release, beat.woke, beat.finished), index;
      cycles := cycles + 1;
      if beat.raised { return; }
      if beat.stop { stopped := true; }
      next := Book(origin, c);
    }

    /** The loop of `run`, with what the counters gain. */
    method Loop(origin: int, limit: Option<nat>, beats: seq<Beat>)
      returns (log: seq<Cycle>, index: nat, raised: bool, ghost late: int, ghost dropped: int)
      requires ValidConfig(cfg)
      modifies this
      ensures cycles == old(cycles) + |log|
      ensures raised ==> RaisedLast(cfg, origin, log, beats)
      ensures !raised ==> Between(cfg, origin, log, beats, index, late, dropped, stopped)
      ensures !raised ==> overruns == old(overruns) + late && skipped == old(skipped) + dropped
      ensures raised || stopped || (limit.Some? && cycles >= limit.value) || |log| == |beats|
    {
      log, index, raised, late, dropped := [], 0, false, 0, 0;
      while !stopped && (limit.None? || cycles < limit.value) && |log| < |beats|
        invariant Between(cfg, origin, log, beats, index, late, dropped, stopped)
        invariant cycles == old(cycles) + |log| && overruns == old(overruns) + late && skipped == old(skipped) + dropped
        decreases |beats| - |log|
      {
        var beat := beats[|log|];
        var cycle, next := OneCycle(origin, index, beat);
        if beat.raised {
          BetweenRaises(cfg, origin, log, beats, index, late, dropped, cycle);
          log, raised := log + [cycle], true;
          return;
        }
        ghost var late', dropped' := overruns - old(overruns), skipped - old(skipped);
        BetweenMore(cfg, origin, log, beats, index, late, dropped, cycle, next, late', dropped', stopped);
        log, index, late, dropped := log + [cycle], next, late', dropped';
      }
    }

    /**
     * Runs against any clock: `beats` is what the cycles meet, one after the other, and a run
     * that would outlast it is cut off there.
     */
    method Run(origin: int, limit: Option<nat>, beats: seq<Beat>) returns (log: seq<Cycle>, index: nat, raised: bool)
      requires ValidConfig(cfg)
      modifies this
      ensures OnSchedule(cfg, origin, log) && Follows(log, beats)
      ensures cycles == old(cycles) + |log|
      ensures !raised ==> overruns == old(overruns) + |LateCycles(cfg, log)|
      ensures cfg.policy == FailSafe ==> forall i: nat :: i < |log| - 1 ==> log[i].finished - log[i].release <= cfg.deadline
      ensures !raised ==> index == |log| + skipped - old(skipped) == NextIndex(cfg, origin, log)
      ensures raised <==> log != [] && beats[|log| - 1].raised
      ensures Uneventful(cfg, log, beats, |log| - 1)
      ensures !raised && cfg.policy == FailSafe && log != [] && Late(cfg, log[|log| - 1]) ==> stopped
      ensures raised || stopped || (limit.Some? && cycles >= limit.value) || |log| == |beats|
    {
      ghost var late, dropped;
      log, index, raised, late, dropped := Loop(origin, limit, beats);
      OverrunsCount(cfg, log);
    }
  }

  // ---------------------------------------------------------------------------------
  // The schedule.

  lemma {:induction false} TimesIsProduct(k: nat, period: int)
    ensures Times(k, period) == k * period
  {
    if k > 0 {
      TimesIsProduct(k - 1, period);
    }
  }

  lemma {:induction false} ProductGrows(a: int, b: int, period: int)
    requires period > 0 && a < b
    ensures a * period + period <= b * period
  {
    assert (b - a - 1) * period >= 0;
    assert (b - a - 1) * period == b * period - a * period - period;
  }

  lemma {:induction false} QuotientIs(t: int, period: int, q: int, r: int)
    requires period > 0 && t == q * period + r && 0 <= r < period
    ensures t / period == q
  {
    var q', r' := t / period, t % period;
    assert t == q' * period + r';
    if q' < q {
      ProductGrows(q', q, period);
    } else if q < q' {
      ProductGrows(q, q', period);
    }
  }

  lemma {:induction false} QuotientOfNegative(t: int, period: int)
    requires t < 0 < period
    ensures t / period < 0
  {
    assert t == t / period * period + t % period;
  }

  /** The source's floor division: equal from zero on, and too small to matter below. */
  lemma {:induction false} PeriodsIsDivision(t: int, period: int)
    requires period > 0
    ensures if t >= 0 then Periods(t, period) == t / period else Periods(t, period) == 0 && t / period < 0
    decreases t
  {
    if t < 0 {
      QuotientOfNegative(t, period);
    } else if t < period {
      QuotientIs(t, period, 0, t);
    } else {
      PeriodsIsDivision(t - period, period);
      var q, r := (t - period) / period, (t - period) % period;
      assert (q + 1) * period == q * period + period;
      QuotientIs(t, period, q + 1, r);
    }
  }

  lemma {:induction false} TimesGrows(a: nat, b: nat, period: int)
    requires period > 0 && a <= b
    ensures Times(a, period) <= Times(b, period)
    ensures a < b ==> Times(a, period) + period <= Times(b, period)
    decreases b
  {
    if a < b {
      TimesGrows(a, b - 1, period);
    }
  }

  /** Indices strictly increase, so no release is used twice and the grid never shifts. */
  lemma {:induction false} IndicesIncrease(cfg: Config, origin: int, log: seq<Cycle>, i: nat, j: nat)
    requires ValidConfig(cfg) && OnSchedule(cfg, origin, log) && i < j < |log|
    ensures log[i].index < log[j].index && log[i].release + cfg.period <= log[j].release
    decreases j
  {
    assert Succeeds(cfg, origin, log, j);
    if i + 1 < j {
      IndicesIncrease(cfg, origin, log, i, j - 1);
    }
    TimesGrows(log[i].index, log[j].index, cfg.period);
  }

  /** Unless cycles are skipped, the k-th cycle is released exactly k periods after the origin. */
  lemma {:induction false} NothingIsSkipped(cfg: Config, origin: int, log: seq<Cycle>, i: nat)
    requires ValidConfig(cfg) && OnSchedule(cfg, origin, log) && cfg.policy != Skip && i < |log|
    ensures log[i].index == i && log[i].release == Release(cfg, origin, i)
  {
    if i > 0 {
      NothingIsSkipped(cfg, origin, log, i - 1);
      assert Succeeds(cfg, origin, log, i);
    }
  }

  lemma {:induction false} PeriodsBracket(t: int, period: int)
    requires period > 0 && t >= 0
    ensures Times(Periods(t, period), period) <= t < Times(Periods(t, period) + 1, period)
    decreases t
  {
    if t >= period {
      PeriodsBracket(t - period, period);
    }
  }

  /** `j` is the first release after time `t`. */
  ghost predicate FirstAfter(cfg: Config, origin: int, t: int, j: nat) {
    j > 0 && Release(cfg, origin, j) > t && Release(cfg, origin, j - 1) <= t
  }

  lemma {:induction false} FirstAfterIsLeast(cfg: Config, origin: int, t: int, j: nat, k: nat)
    requires cfg.period > 0 && FirstAfter(cfg, origin, t, j)
    ensures Release(cfg, origin, k) > t <==> j <= k
  {
    if j <= k {
      TimesGrows(j, k, cfg.period);
    } else {
      TimesGrows(k, j - 1, cfg.period);
    }
  }

  /** After a late cycle `skip` resumes at the first release after its finish. */
  lemma {:induction false} ResyncIsLeast(cfg: Config, origin: int, c: Cycle)
    requires ValidConfig(cfg) && cfg.policy == Skip && Late(cfg, c) && c.release == Release(cfg, origin, c.index)
    ensures FirstAfter(cfg, origin, c.finished, c.index + 1 + Missed(cfg, origin, c))
  {
    var p := Periods(c.finished - origin, cfg.period);
    TimesGrows(0, c.index, cfg.period);
    PeriodsBracket(c.finished - origin, cfg.period);
    assert FirstAfter(cfg, origin, c.finished, p + 1);
    FirstAfterIsLeast(cfg, origin, c.finished, p + 1, c.index);
    assert c.index <= p;
  }

  /**
   * The schedule, cycle by cycle: the first is released at the origin; each next one at the
   * next period, or, under `skip` after a response past the deadline, at the first release
   * after the finish.
   */
  lemma {:induction false} ScheduleExactly(cfg: Config, origin: int, log: seq<Cycle>, i: nat)
    requires ValidConfig(cfg) && OnSchedule(cfg, origin, log) && i < |log|
    ensures log[i].release == origin + log[i].index * cfg.period
    ensures i == 0 ==> log[i].index == 0
    ensures i > 0 ==>
      var before := log[i - 1];
      if cfg.policy == Skip && before.finished - before.release > cfg.deadline then
        log[i].release - cfg.period <= before.finished < log[i].release
      else log[i].index == before.index + 1
  {
    TimesIsProduct(log[i].index, cfg.period);
    if i > 0 {
      assert Succeeds(cfg, origin, log, i);
      if cfg.policy == Skip && Late(cfg, log[i - 1]) {
        ResyncIsLeast(cfg, origin, log[i - 1]);
      }
    }
  }

  // ---------------------------------------------------------------------------------
  // The virtual clock.

  class ManualClock {
    var now: int
    var sleeps: seq<int>

    constructor (start: int)
      ensures now == start && sleeps == []
    {
      now, sleeps := start, [];
    }

    method Advance(delta: int) returns (ok: bool)
      modifies this
      ensures ok <==> delta >= 0
      ensures now == (if ok then old(now) + delta else old(now)) && sleeps == old(sleeps)
    {
      ok := delta >= 0;
      if ok { now := now + delta; }
    }

    method SleepUntil(deadline: int)
      modifies this
      ensures now == Max(old(now), deadline) && sleeps == old(sleeps) + [now - old(now)]
    {
      sleeps := sleeps + [Max(0, deadline - now)];
      now := Max(now, deadline);
    }
  }

  /** The log is that of a run on the virtual clock: nothing but the work itself takes time. */
  ghost predicate OnVirtualClock(origin: int, log: seq<Cycle>) {
    forall i :: 0 <= i < |log| ==> WakesNext(origin, log, i)
  }

  ghost predicate WakesNext(origin: int, log: seq<Cycle>, i: int)
    requires 0 <= i < |log|
  {
    && log[i].woke == Max(if i == 0 then origin else log[i - 1].finished, log[i].release)
    && log[i].finished >= log[i].woke
  }

  /** Under `skip` every cycle of a virtual run wakes exactly at its release, however long the work takes. */
  lemma {:induction false} SkipWakesOnTime(cfg: Config, origin: int, log: seq<Cycle>, i: nat)
    requires ValidConfig(cfg) && cfg.policy == Skip
    requires OnSchedule(cfg, origin, log) && OnVirtualClock(origin, log) && i < |log|
    ensures log[i].woke == log[i].release
  {
    assert WakesNext(origin, log, i);
    if i > 0 {
      var c := log[i - 1];
      assert Succeeds(cfg, origin, log, i);
      SkipWakesOnTime(cfg, origin, log, i - 1);
      if Late(cfg, c) {
        ResyncIsLeast(cfg, origin, c);
      } else {
        assert log[i].release == c.release + cfg.period;
      }
    }
  }

  function Lateness(c: Cycle): int { c.woke - c.release }

  function Duration(c: Cycle): int { c.finished - c.woke }

  /** Under `catch up` lateness obeys the queueing recurrence: it grows by the work and shrinks by the period. */
  lemma {:induction false} LatenessCarriesOver(cfg: Config, origin: int, log: seq<Cycle>, i: nat)
    requires ValidConfig(cfg) && cfg.policy != Skip
    requires OnSchedule(cfg, origin, log) && OnVirtualClock(origin, log) && i < |log|
    ensures Lateness(log[i]) ==
      (if i == 0 then 0 else Max(0, Lateness(log[i - 1]) + Duration(log[i - 1]) - cfg.period))
  {
    assert WakesNext(origin, log, i);
    NothingIsSkipped(cfg, origin, log, i);
    if i > 0 {
      NothingIsSkipped(cfg, origin, log, i - 1);
    }
  }

  /** Work that leaves `slack` in every period recovers that much lateness each cycle, until it is on time again. */
  lemma {:induction false} CatchUpRecovers(cfg: Config, origin: int, log: seq<Cycle>, i: nat, j: nat, slack: nat)
    requires ValidConfig(cfg) && cfg.policy == CatchUp
    requires OnSchedule(cfg, origin, log) && OnVirtualClock(origin, log) && i <= j < |log|
    requires forall k :: i <= k < j ==> Duration(log[k]) <= cfg.period - slack
    ensures 0 <= Lateness(log[j]) <= Max(0, Lateness(log[i]) - Times(j - i, slack))
    decreases j
  {
    LatenessCarriesOver(cfg, origin, log, j);
    if i < j {
      CatchUpRecovers(cfg, origin, log, i, j - 1, slack);
    }
  }

  lemma {:induction false} VirtualMore(origin: int, log: seq<Cycle>, c: Cycle)
    requires OnVirtualClock(origin, log) && c.finished >= c.woke
    requires c.woke == Max(if log == [] then origin else log[|log| - 1].finished, c.release)
    ensures OnVirtualClock(origin, log + [c])
  {
    var more := log + [c];
    forall i | 0 <= i < |more| ensures WakesNext(origin, more, i) {
      if i < |log| {
        assert WakesNext(origin, log, i);
      }
    }
  }

  lemma {:induction false} SkipIsOnTime(cfg: Config, origin: int, log: seq<Cycle>)
    requires ValidConfig(cfg) && cfg.policy == Skip && OnSchedule(cfg, origin, log) && OnVirtualClock(origin, log)
    ensures forall i :: 0 <= i < |log| ==> log[i].woke == log[i].release
  {
    forall i | 0 <= i < |log| ensures log[i].woke == log[i].release {
      SkipWakesOnTime(cfg, origin, log, i);
    }
  }

  /**
   * The executor on the virtual clock, for work that takes the given times: the schedule is
   * kept, and under `skip` every cycle wakes exactly at its release.
   */
  method RunOnManualClock(executor: CyclicExecutor, clock: ManualClock, limit: Option<nat>, work: seq<nat>)
    returns (log: seq<Cycle>)
    requires ValidConfig(executor.cfg)
    modifies executor, clock
    ensures OnSchedule(executor.cfg, old(clock.now), log) && OnVirtualClock(old(clock.now), log)
    ensures |log| <= |work| && forall i :: 0 <= i < |log| ==> Duration(log[i]) == work[i]
    ensures executor.cfg.policy == Skip ==> forall i :: 0 <= i < |log| ==> log[i].woke == log[i].release
    ensures executor.cycles == old(executor.cycles) + |log|
    ensures executor.stopped || (limit.Some? && executor.cycles >= limit.value) || |log| == |work|
  {
    var origin, cfg, index := clock.now, executor.cfg, 0;
    ghost var beats: seq<Beat> := [];
    log := [];
    while !executor.stopped && (limit.None? || executor.cycles < limit.value) && |log| < |work|
      invariant OnManualClock(cfg, origin, log, beats, index, work, clock.now)
      invariant executor.cycles == old(executor.cycles) + |log|
      decreases |work| - |log|
    {
      var release := executor.ReleaseOf(origin, index);
      clock.SleepUntil(release);
      var woke := clock.now;
      var ok := clock.Advance(work[|log|]);
      var beat := Beat(woke, clock.now, false, false);
      var cycle, next := executor.OneCycle(origin, index, beat);
      ManualMore(cfg, origin, log, beats, index, work, cycle, beat, next);
      log, index, beats := log + [cycle], next, beats + [beat];
    }
    if cfg.policy == Skip {
      SkipIsOnTime(cfg, origin, log);
    }
  }

  /** A run on the virtual clock between cycles. */
  ghost predicate OnManualClock(
    cfg: Config, origin: int, log: seq<Cycle>, beats: seq<Beat>, index: nat, work: seq<nat>, now: int)
    requires cfg.period > 0
  {
    && Running(cfg, origin, log, beats, index) && |beats| == |log| <= |work|
    && OnVirtualClock(origin, log) && now == (if log == [] then origin else log[|log| - 1].finished)
    && forall i :: 0 <= i < |log| ==> Duration(log[i]) == work[i]
  }

  lemma {:induction false} ManualMore(
    cfg: Config, origin: int, log: seq<Cycle>, beats: seq<Beat>, index: nat, work: seq<nat>, c: Cycle, beat: Beat, next: nat)
    requires cfg.period > 0 && |log| < |work|
    requires OnManualClock(cfg, origin, log, beats, index, work, if log == [] then origin else log[|log| - 1].finished)
    requires c == Cycle(index, Release(cfg, origin, index), beat.woke, beat.finished) && next == index + 1 + Missed(cfg, origin, c)
    requires beat.woke == Max(if log == [] then origin else log[|log| - 1].finished, c.release)
    requires beat.finished == beat.woke + work[|log|]
    ensures OnManualClock(cfg, origin, log + [c], beats + [beat], next, work, beat.finished)
  {
    assert Follows(log, beats + [beat]);
    LogMore(cfg, origin, log, beats + [beat], index, c);
    VirtualMore(origin, log, c);
    assert (log + [c])[|log|] == c;
  }
}
