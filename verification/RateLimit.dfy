/**
 * The token-bucket rate limiter with bounded memory (fasp_harness/policy/ratelimit.py),
 * compared with an ideal limiter that remembers every key for ever.
 */
module RateLimit {
  import opened Common

  /** One bucket; the ordered dictionary is the sequence of its entries, oldest first. */
  datatype Bucket = Bucket(key: string, tokens: real, lastRefill: real)

  datatype Config = Config(rate: real, burst: nat, maxKeys: nat)

  ghost predicate ValidConfig(cfg: Config) {
    cfg.rate > 0.0 && cfg.burst > 0 && cfg.maxKeys > 0
  }

  /** The tokens that accrue in `elapsed` seconds. */
  function Accrued(cfg: Config, elapsed: real): real { elapsed * cfg.rate }

  /** The tokens a bucket holds at time `now`. */
  function Refilled(cfg: Config, b: Bucket, now: real): real {
    MinReal(cfg.burst as real, b.tokens + Accrued(cfg, now - b.lastRefill))
  }

  function IndexOf(order: seq<Bucket>, key: string): (i: nat)
    ensures i <= |order|
    ensures i < |order| ==> order[i].key == key
    ensures forall j :: 0 <= j < i ==> order[j].key != key
  {
    if order == [] then 0 else if order[0].key == key then 0 else 1 + IndexOf(order[1..], key)
  }

  function Without(order: seq<Bucket>, i: nat): seq<Bucket>
    requires i < |order|
  {
    order[..i] + order[i + 1..]
  }

  /** Refused for want of room: the key is new, the table full and its oldest bucket not yet replenished. */
  predicate CapacityRefusal(cfg: Config, order: seq<Bucket>, key: string, now: real)
    requires cfg.rate > 0.0
  {
    && IndexOf(order, key) == |order| && |order| >= cfg.maxKeys && order != []
    && now - order[0].lastRefill < cfg.burst as real / cfg.rate
  }

  /** The buckets that stay, and the tokens the caller's bucket has before it pays. */
  function Kept(cfg: Config, order: seq<Bucket>, key: string, now: real): (seq<Bucket>, real)
    requires cfg.rate > 0.0
  {
    var i := IndexOf(order, key);
    if i < |order| then (Without(order, i), Refilled(cfg, order[i], now))
    else (if |order| >= cfg.maxKeys && order != [] then order[1..] else order, cfg.burst as real)
  }

  function AllowStep(cfg: Config, order: seq<Bucket>, key: string, now: real): (seq<Bucket>, bool)
    requires cfg.rate > 0.0
  {
    if CapacityRefusal(cfg, order, key, now) then (order, false) else
    var (kept, tokens) := Kept(cfg, order, key, now);
    if tokens < 1.0 then (kept + [Bucket(key, tokens, now)], false)
    else (kept + [Bucket(key, tokens - 1.0, now)], true)
  }

  class TokenBucketLimiter {
    const cfg: Config
    var buckets: seq<Bucket>

    constructor (cfg: Config)
      requires ValidConfig(cfg)
      ensures this.cfg == cfg && buckets == []
    {
      this.cfg, buckets := cfg, [];
    }

    method Allow(key: string, now: real) returns (ok: bool)
      requires ValidConfig(cfg)
      modifies this
      ensures (buckets, ok) == AllowStep(cfg, old(buckets), key, now)
    {
      var i := IndexOf(buckets, key);
      var bucket: Bucket;
      if i == |buckets| {
        if |buckets| >= cfg.maxKeys {
          var oldest := buckets[0];
          if now - oldest.lastRefill < cfg.burst as real / cfg.rate {
            return false;
          }
          buckets := buckets[1..];
        }
        bucket := Bucket(key, cfg.burst as real, now);
      } else {
        bucket := Bucket(key, Refilled(cfg, buckets[i], now), now);
        buckets := Without(buckets, i);
      }
      ok := bucket.tokens >= 1.0;
      if ok {
        bucket := bucket.(tokens := bucket.tokens - 1.0);
      }
      buckets := buckets + [bucket];
    }
  }

  // ---------------------------------------------------------------------------------
  // Invariant: keys are distinct, balances lie in range, and the order is refill order.

  ghost predicate Valid(cfg: Config, order: seq<Bucket>, now: real) {
    && ValidConfig(cfg) && |order| <= cfg.maxKeys
    && (forall i :: 0 <= i < |order| ==> 0.0 <= order[i].tokens <= cfg.burst as real && order[i].lastRefill <= now)
    && (forall i, j :: 0 <= i < j < |order| ==> order[i].key != order[j].key && order[i].lastRefill <= order[j].lastRefill)
  }

  lemma {:induction false} AccruedAdds(cfg: Config, a: real, b: real)
    requires cfg.rate > 0.0
    ensures Accrued(cfg, a + b) == Accrued(cfg, a) + Accrued(cfg, b)
    ensures a >= 0.0 ==> Accrued(cfg, a) >= 0.0
  {
  }

  lemma {:induction false} AccruedFills(cfg: Config)
    requires cfg.rate > 0.0
    ensures Accrued(cfg, cfg.burst as real / cfg.rate) == cfg.burst as real
  {
  }

  lemma {:induction false} RefilledInRange(cfg: Config, b: Bucket, now: real)
    requires cfg.rate > 0.0 && 0.0 <= b.tokens <= cfg.burst as real && b.lastRefill <= now
    ensures 0.0 <= Refilled(cfg, b, now) <= cfg.burst as real
  {
    AccruedAdds(cfg, now - b.lastRefill, 0.0);
  }

  lemma {:induction false} KeptIsValid(cfg: Config, order: seq<Bucket>, key: string, now: real)
    requires Valid(cfg, order, now)
    ensures var (kept, tokens) := Kept(cfg, order, key, now);
      && Valid(cfg, kept, now) && |kept| < cfg.maxKeys
      && (forall k :: 0 <= k < |kept| ==> kept[k].key != key)
      && 0.0 <= tokens <= cfg.burst as real
  {
    var i := IndexOf(order, key);
    if i < |order| {
      RefilledInRange(cfg, order[i], now);
      WithoutIsValid(cfg, order, i, now);
    } else if order != [] {
      DropFirstIsValid(cfg, order, now);
    }
  }

  lemma {:induction false} WithoutIsValid(cfg: Config, order: seq<Bucket>, i: nat, now: real)
    requires Valid(cfg, order, now) && i < |order|
    ensures var kept := Without(order, i);
      Valid(cfg, kept, now) && |kept| == |order| - 1 && forall k :: 0 <= k < |kept| ==> kept[k].key != order[i].key
  {
    var kept := Without(order, i);
    assert forall k :: 0 <= k < |kept| ==> kept[k] == order[if k < i then k else k + 1];
  }

  lemma {:induction false} DropFirstIsValid(cfg: Config, order: seq<Bucket>, now: real)
    requires Valid(cfg, order, now) && order != []
    ensures Valid(cfg, order[1..], now) && forall k :: 0 <= k < |order| - 1 ==> order[1..][k] == order[k + 1]
  {
  }

  /** Every call keeps the invariant; the order of the dictionary is the order of last refill. */
  lemma {:induction false} AllowKeepsValid(cfg: Config, order: seq<Bucket>, key: string, now: real)
    requires Valid(cfg, order, now)
    ensures Valid(cfg, AllowStep(cfg, order, key, now).0, now)
  {
    if !CapacityRefusal(cfg, order, key, now) {
      KeptIsValid(cfg, order, key, now);
      var (kept, tokens) := Kept(cfg, order, key, now);
      AppendIsValid(cfg, kept, Bucket(key, if tokens < 1.0 then tokens else tokens - 1.0, now), now);
    }
  }

  lemma {:induction false} AppendIsValid(cfg: Config, kept: seq<Bucket>, b: Bucket, now: real)
    requires Valid(cfg, kept, now) && |kept| < cfg.maxKeys && forall k :: 0 <= k < |kept| ==> kept[k].key != b.key
    requires 0.0 <= b.tokens <= cfg.burst as real && b.lastRefill == now
    ensures Valid(cfg, kept + [b], now)
  {
  }

  /**
   * A call is refused for want of room exactly when its key is untracked, the table is full
   * and no tracked bucket at all has been idle long enough to replenish.
   */
  lemma {:induction false} CapacityRefusalExactly(cfg: Config, order: seq<Bucket>, key: string, now: real)
    requires Valid(cfg, order, now)
    ensures CapacityRefusal(cfg, order, key, now) <==>
      && (forall i :: 0 <= i < |order| ==> order[i].key != key)
      && |order| == cfg.maxKeys
      && (forall i :: 0 <= i < |order| ==> now - order[i].lastRefill < cfg.burst as real / cfg.rate)
  {
    if CapacityRefusal(cfg, order, key, now) {
      forall i | 0 <= i < |order| ensures now - order[i].lastRefill < cfg.burst as real / cfg.rate {
        assert order[0].lastRefill <= order[i].lastRefill;
      }
    }
  }

  // ---------------------------------------------------------------------------------
  // What a key may spend.

  function Lookup(order: seq<Bucket>, key: string): Option<Bucket> {
    var i := IndexOf(order, key);
    if i < |order| then Some(order[i]) else None
  }

  /** The tokens `key` can spend at `now`: an untracked key is fully replenished. */
  function Available(cfg: Config, order: seq<Bucket>, key: string, now: real): real {
    match Lookup(order, key)
    case Some(b) => Refilled(cfg, b, now)
    case None => cfg.burst as real
  }

  lemma {:induction false} LookupFinds(order: seq<Bucket>, i: nat)
    requires i < |order| && forall j :: 0 <= j < |order| && j != i ==> order[j].key != order[i].key
    ensures Lookup(order, order[i].key) == Some(order[i])
  {
  }

  lemma {:induction false} LookupMisses(order: seq<Bucket>, key: string)
    requires forall j :: 0 <= j < |order| ==> order[j].key != key
    ensures Lookup(order, key) == None
  {
  }

  lemma {:induction false} LookupAppend(order: seq<Bucket>, b: Bucket, key: string)
    requires forall j :: 0 <= j < |order| ==> order[j].key != b.key
    ensures Lookup(order + [b], key) == if b.key == key then Some(b) else Lookup(order, key)
  {
    var i, j := IndexOf(order + [b], key), IndexOf(order, key);
    if j < |order| {
      assert (order + [b])[j].key == key;
    }
    assert (order + [b])[|order|] == b;
  }

  /** A bucket idle for burst/rate seconds is full, and stays full. */
  lemma {:induction false} IdleIsFull(cfg: Config, b: Bucket, now: real)
    requires cfg.rate > 0.0 && 0.0 <= b.tokens && now - b.lastRefill >= cfg.burst as real / cfg.rate
    ensures Refilled(cfg, b, now) == cfg.burst as real
  {
    var need := cfg.burst as real / cfg.rate;
    AccruedFills(cfg);
    AccruedAdds(cfg, now - b.lastRefill - need, need);
  }

  /** Refilling in two stages is refilling at once. */
  lemma {:induction false} RefillInStages(cfg: Config, b: Bucket, now: real, later: real)
    requires cfg.rate > 0.0 && b.lastRefill <= now <= later
    ensures Refilled(cfg, Bucket(b.key, Refilled(cfg, b, now), now), later) == Refilled(cfg, b, later)
  {
    AccruedAdds(cfg, later - now, now - b.lastRefill);
    AccruedAdds(cfg, now - b.lastRefill, 0.0);
  }

  /** What is evicted or moved for another key: only a replenished bucket disappears. */
  lemma {:induction false} KeptLookup(cfg: Config, order: seq<Bucket>, other: string, now: real, key: string)
    requires Valid(cfg, order, now) && other != key && !CapacityRefusal(cfg, order, other, now)
    ensures var kept := Kept(cfg, order, other, now).0;
      || Lookup(kept, key) == Lookup(order, key)
      || (Lookup(kept, key) == None && order != [] && Lookup(order, key) == Some(order[0])
          && now - order[0].lastRefill >= cfg.burst as real / cfg.rate)
  {
    var o := IndexOf(order, other);
    if o < |order| {
      MovedLookup(cfg, order, o, now, key);
    } else if |order| >= cfg.maxKeys {
      EvictedLookup(cfg, order, now, key);
    }
  }

  lemma {:induction false} MovedLookup(cfg: Config, order: seq<Bucket>, o: nat, now: real, key: string)
    requires Valid(cfg, order, now) && o < |order| && order[o].key != key
    ensures Lookup(Without(order, o), key) == Lookup(order, key)
  {
    var k, kept := IndexOf(order, key), Without(order, o);
    assert forall j :: 0 <= j < |kept| ==> kept[j] == order[if j < o then j else j + 1];
    if k < |order| {
      LookupFinds(kept, if k < o then k else k - 1);
    } else {
      LookupMisses(kept, key);
    }
  }

  lemma {:induction false} EvictedLookup(cfg: Config, order: seq<Bucket>, now: real, key: string)
    requires Valid(cfg, order, now) && order != []
    ensures if Lookup(order, key) == Some(order[0]) then Lookup(order[1..], key) == None
            else Lookup(order[1..], key) == Lookup(order, key)
  {
    var k := IndexOf(order, key);
    if 0 < k < |order| {
      LookupFinds(order[1..], k - 1);
    } else {
      LookupMisses(order[1..], key);
    }
  }

  /** A call by another key leaves what `key` can spend, now and later, exactly as it was. */
  lemma {:induction false} OthersDoNotMatter(cfg: Config, order: seq<Bucket>, other: string, now: real, key: string, later: real)
    requires Valid(cfg, order, now) && other != key && now <= later
    ensures Available(cfg, AllowStep(cfg, order, other, now).0, key, later) == Available(cfg, order, key, later)
  {
    if !CapacityRefusal(cfg, order, other, now) {
      var kept := Kept(cfg, order, other, now).0;
      var order' := AllowStep(cfg, order, other, now).0;
      KeptIsValid(cfg, order, other, now);
      KeptLookup(cfg, order, other, now, key);
      LookupAppend(kept, order'[|kept|], key);
      assert order' == kept + [order'[|kept|]];
      if Lookup(kept, key) != Lookup(order, key) {
        IdleIsFull(cfg, order[0], later);
      }
    }
  }

  /** The balance a key is left with by its own call. */
  lemma {:induction false} OwnCallPays(cfg: Config, order: seq<Bucket>, key: string, now: real)
    requires Valid(cfg, order, now) && !CapacityRefusal(cfg, order, key, now)
    ensures var (order', ok) := AllowStep(cfg, order, key, now);
      && (ok <==> Available(cfg, order, key, now) >= 1.0)
      && Lookup(order', key) == Some(Bucket(key, Available(cfg, order, key, now) - (if ok then 1.0 else 0.0), now))
  {
    var (kept, tokens) := Kept(cfg, order, key, now);
    var order' := AllowStep(cfg, order, key, now).0;
    KeptIsValid(cfg, order, key, now);
    LookupAppend(kept, order'[|kept|], key);
    assert order' == kept + [order'[|kept|]];
  }

  // ---------------------------------------------------------------------------------
  // The ideal limiter: a balance for every key ever seen, nothing evicted.

  type Ideal = map<string, Bucket>

  function IdealAvailable(cfg: Config, ideal: Ideal, key: string, now: real): real {
    if key in ideal then Refilled(cfg, ideal[key], now) else cfg.burst as real
  }

  function IdealStep(cfg: Config, ideal: Ideal, key: string, now: real): (Ideal, bool) {
    var tokens := IdealAvailable(cfg, ideal, key, now);
    if tokens < 1.0 then (ideal[key := Bucket(key, tokens, now)], false)
    else (ideal[key := Bucket(key, tokens - 1.0, now)], true)
  }

  datatype Call = Call(key: string, now: real)

  ghost predicate InTime(calls: seq<Call>, from: real) {
    && (forall i :: 0 <= i < |calls| ==> from <= calls[i].now)
    && (forall i, j :: 0 <= i < j < |calls| ==> calls[i].now <= calls[j].now)
  }

  function Run(cfg: Config, order: seq<Bucket>, calls: seq<Call>): seq<Bucket>
    requires cfg.rate > 0.0
    decreases |calls|
  {
    if calls == [] then order else Run(cfg, AllowStep(cfg, order, calls[0].key, calls[0].now).0, calls[1..])
  }

  /** How many calls by `key` are admitted. */
  function Admitted(cfg: Config, order: seq<Bucket>, calls: seq<Call>, key: string): nat
    requires cfg.rate > 0.0
    decreases |calls|
  {
    if calls == [] then 0 else
    var (order', ok) := AllowStep(cfg, order, calls[0].key, calls[0].now);
    (if ok && calls[0].key == key then 1 else 0) + Admitted(cfg, order', calls[1..], key)
  }

  /** The two limiters agree on what every key can spend from `now` on. */
  ghost predicate Agrees(cfg: Config, order: seq<Bucket>, ideal: Ideal, now: real) {
    forall key, later :: now <= later ==> Available(cfg, order, key, later) == IdealAvailable(cfg, ideal, key, later)
  }

  /**
   * Refinement: a call that is not refused for want of room gets the ideal limiter's
   * answer, and the two still agree afterwards; a refused call changes nothing.
   */
  lemma {:induction false} AllowRefinesIdeal(cfg: Config, order: seq<Bucket>, ideal: Ideal, key: string, now: real)
    requires Valid(cfg, order, now) && Agrees(cfg, order, ideal, now)
    ensures var (order', ok) := AllowStep(cfg, order, key, now);
      if CapacityRefusal(cfg, order, key, now) then !ok && order' == order
      else ok == IdealStep(cfg, ideal, key, now).1 && Agrees(cfg, order', IdealStep(cfg, ideal, key, now).0, now)
  {
    if !CapacityRefusal(cfg, order, key, now) {
      var (order', ok) := AllowStep(cfg, order, key, now);
      var ideal' := IdealStep(cfg, ideal, key, now).0;
      OwnCallPays(cfg, order, key, now);
      assert Available(cfg, order, key, now) == IdealAvailable(cfg, ideal, key, now);
      forall k, later | now <= later
        ensures Available(cfg, order', k, later) == IdealAvailable(cfg, ideal', k, later)
      {
        if k != key {
          OthersDoNotMatter(cfg, order, key, now, k, later);
        }
      }
    }
  }

  /** The ideal limiter over the calls the bounded one had room for; both answer alike. */
  ghost function IdealRun(cfg: Config, order: seq<Bucket>, ideal: Ideal, calls: seq<Call>): Ideal
    requires cfg.rate > 0.0
    decreases |calls|
  {
    if calls == [] then ideal else
    var c := calls[0];
    IdealRun(cfg, AllowStep(cfg, order, c.key, c.now).0,
             if CapacityRefusal(cfg, order, c.key, c.now) then ideal else IdealStep(cfg, ideal, c.key, c.now).0, calls[1..])
  }

  lemma {:induction false} RunRefinesIdeal(cfg: Config, order: seq<Bucket>, ideal: Ideal, calls: seq<Call>, from: real, to: real)
    requires Valid(cfg, order, from) && Agrees(cfg, order, ideal, from) && InTime(calls, from)
    requires from <= to && forall i :: 0 <= i < |calls| ==> calls[i].now <= to
    ensures Valid(cfg, Run(cfg, order, calls), to)
    ensures Agrees(cfg, Run(cfg, order, calls), IdealRun(cfg, order, ideal, calls), to)
    decreases |calls|
  {
    if calls != [] {
      var c := calls[0];
      AllowRefinesIdeal(cfg, order, ideal, c.key, c.now);
      AllowKeepsValid(cfg, order, c.key, c.now);
      var ideal' := if CapacityRefusal(cfg, order, c.key, c.now) then ideal else IdealStep(cfg, ideal, c.key, c.now).0;
      RunRefinesIdeal(cfg, AllowStep(cfg, order, c.key, c.now).0, ideal', calls[1..], c.now, to);
    }
  }

  /**
   * After any past, a call that finds room is answered exactly as the ideal limiter, having
   * seen the same calls, would answer it.
   */
  lemma {:induction false} AnswersAreIdeal(cfg: Config, past: seq<Call>, key: string, start: real, now: real)
    requires ValidConfig(cfg) && start <= now
    requires InTime(past, start) && forall i :: 0 <= i < |past| ==> past[i].now <= now
    ensures var order := Run(cfg, [], past);
      !CapacityRefusal(cfg, order, key, now) ==>
        AllowStep(cfg, order, key, now).1 == IdealStep(cfg, IdealRun(cfg, [], map[], past), key, now).1
  {
    RunRefinesIdeal(cfg, [], map[], past, start, now);
    AllowRefinesIdeal(cfg, Run(cfg, [], past), IdealRun(cfg, [], map[], past), key, now);
  }

  // ---------------------------------------------------------------------------------
  // The rate bound.

  lemma {:induction false} AvailableInRange(cfg: Config, order: seq<Bucket>, key: string, now: real)
    requires Valid(cfg, order, now)
    ensures 0.0 <= Available(cfg, order, key, now) <= cfg.burst as real
  {
    var i := IndexOf(order, key);
    if i < |order| {
      RefilledInRange(cfg, order[i], now);
    }
  }

  lemma {:induction false} AvailableGrowsAtRate(cfg: Config, order: seq<Bucket>, key: string, now: real, later: real)
    requires Valid(cfg, order, now) && now <= later
    ensures Available(cfg, order, key, later) <= Available(cfg, order, key, now) + Accrued(cfg, later - now)
  {
    AccruedAdds(cfg, later - now, 0.0);
    var i := IndexOf(order, key);
    if i < |order| {
      AccruedAdds(cfg, later - now, now - order[i].lastRefill);
    }
  }

  /** One call spends what it admits, and nothing else changes the caller's balance. */
  lemma {:induction false} CallAccounts(cfg: Config, order: seq<Bucket>, c: Call, key: string)
    requires Valid(cfg, order, c.now)
    ensures var (order', ok) := AllowStep(cfg, order, c.key, c.now);
      Available(cfg, order', key, c.now) + (if ok && c.key == key then 1.0 else 0.0) == Available(cfg, order, key, c.now)
  {
    if c.key != key {
      OthersDoNotMatter(cfg, order, c.key, c.now, key, c.now);
    } else if !CapacityRefusal(cfg, order, c.key, c.now) {
      OwnCallPays(cfg, order, key, c.now);
      AvailableInRange(cfg, order, key, c.now);
      AccruedAdds(cfg, 0.0, 0.0);
    }
  }

  lemma {:induction false} AdmittedIsPaidFor(cfg: Config, order: seq<Bucket>, calls: seq<Call>, key: string, from: real, to: real)
    requires Valid(cfg, order, from) && InTime(calls, from)
    requires from <= to && forall i :: 0 <= i < |calls| ==> calls[i].now <= to
    ensures Admitted(cfg, order, calls, key) as real
            <= Available(cfg, order, key, from) + Accrued(cfg, to - from)
    decreases |calls|
  {
    if calls == [] {
      AvailableInRange(cfg, order, key, from);
      AccruedAdds(cfg, to - from, 0.0);
    } else {
      var c := calls[0];
      CallIsPaidFor(cfg, order, c, key, from, to);
      AllowKeepsValid(cfg, order, c.key, c.now);
      var (order', ok) := AllowStep(cfg, order, c.key, c.now);
      AdmittedIsPaidFor(cfg, order', calls[1..], key, c.now, to);
      var first: nat := if ok && c.key == key then 1 else 0;
      AddUp(first, Admitted(cfg, order', calls[1..], key), Available(cfg, order', key, c.now) + Accrued(cfg, to - c.now),
            Available(cfg, order, key, from) + Accrued(cfg, to - from));
    }
  }

  lemma {:induction false} AddUp(first: nat, rest: nat, left: real, total: real)
    requires first as real + left <= total && rest as real <= left
    ensures (first + rest) as real <= total
  {
  }

  lemma {:induction false} CallIsPaidFor(cfg: Config, order: seq<Bucket>, c: Call, key: string, from: real, to: real)
    requires Valid(cfg, order, from) && from <= c.now <= to
    ensures var (order', ok) := AllowStep(cfg, order, c.key, c.now);
      (if ok && c.key == key then 1.0 else 0.0) + Available(cfg, order', key, c.now) + Accrued(cfg, to - c.now)
      <= Available(cfg, order, key, from) + Accrued(cfg, to - from)
  {
    AvailableGrowsAtRate(cfg, order, key, from, c.now);
    ValidLater(cfg, order, from, c.now);
    CallAccounts(cfg, order, c, key);
    AccruedAdds(cfg, to - c.now, c.now - from);
    assert to - c.now + (c.now - from) == to - from;
    var (order', ok) := AllowStep(cfg, order, c.key, c.now);
    PaysUp(if ok && c.key == key then 1.0 else 0.0, Available(cfg, order', key, c.now), Available(cfg, order, key, from),
           Accrued(cfg, c.now - from), Accrued(cfg, to - c.now), Accrued(cfg, to - from));
  }

  lemma {:induction false} ValidLater(cfg: Config, order: seq<Bucket>, now: real, later: real)
    requires Valid(cfg, order, now) && now <= later
    ensures Valid(cfg, order, later)
  {
  }

  lemma {:induction false} PaysUp(spent: real, left: real, before: real, first: real, second: real, both: real)
    requires spent + left <= before + first && both == second + first
    ensures spent + left + second <= before + both
  {
  }

  lemma {:induction false} RunStaysValid(cfg: Config, order: seq<Bucket>, calls: seq<Call>, from: real, to: real)
    requires Valid(cfg, order, from) && InTime(calls, from)
    requires from <= to && forall i :: 0 <= i < |calls| ==> calls[i].now <= to
    ensures Valid(cfg, Run(cfg, order, calls), to)
    decreases |calls|
  {
    if calls != [] {
      AllowKeepsValid(cfg, order, calls[0].key, calls[0].now);
      RunStaysValid(cfg, AllowStep(cfg, order, calls[0].key, calls[0].now).0, calls[1..], calls[0].now, to);
    }
  }

  /** The limiter's answer to call `i` of `calls`. */
  predicate Grants(cfg: Config, order: seq<Bucket>, calls: seq<Call>, i: nat)
    requires cfg.rate > 0.0 && i < |calls|
  {
    AllowStep(cfg, Run(cfg, order, calls[..i]), calls[i].key, calls[i].now).1
  }

  /** The calls by `key` that are admitted. */
  function Admissions(cfg: Config, order: seq<Bucket>, calls: seq<Call>, key: string): set<nat>
    requires cfg.rate > 0.0
  {
    set i: nat | i < |calls| && calls[i].key == key && Grants(cfg, order, calls, i)
  }

  lemma {:induction false} GrantsLater(cfg: Config, order: seq<Bucket>, calls: seq<Call>, i: nat)
    requires cfg.rate > 0.0 && i + 1 < |calls|
    ensures Grants(cfg, order, calls, i + 1) <==>
            Grants(cfg, AllowStep(cfg, order, calls[0].key, calls[0].now).0, calls[1..], i)
  {
    assert calls[..i + 1][0] == calls[0] && calls[..i + 1][1..] == calls[1..][..i];
  }

  lemma {:induction false} ShiftedSize(s: set<nat>, t: set<nat>)
    requires forall i: nat :: i in t <==> i > 0 && i - 1 in s
    ensures |t| == |s|
    decreases |s|
  {
    if s == {} {
      assert forall i: nat :: i !in t;
      assert t == {};
    } else {
      var i :| i in s;
      ShiftedSize(s - {i}, t - {i + 1});
    }
  }

  lemma {:induction false} LaterAdmissions(cfg: Config, order: seq<Bucket>, calls: seq<Call>, key: string)
    requires cfg.rate > 0.0 && calls != []
    ensures var order' := AllowStep(cfg, order, calls[0].key, calls[0].now).0;
      |Admissions(cfg, order, calls, key) - {0}| == |Admissions(cfg, order', calls[1..], key)|
  {
    var order' := AllowStep(cfg, order, calls[0].key, calls[0].now).0;
    var later, rest := Admissions(cfg, order, calls, key) - {0}, Admissions(cfg, order', calls[1..], key);
    forall i: nat ensures i in later <==> i > 0 && i - 1 in rest {
      if 0 < i < |calls| {
        GrantsLater(cfg, order, calls, i - 1);
      }
    }
    ShiftedSize(rest, later);
  }

  lemma {:induction false} FirstAdmission(cfg: Config, order: seq<Bucket>, calls: seq<Call>, key: string)
    requires cfg.rate > 0.0 && calls != []
    ensures 0 in Admissions(cfg, order, calls, key) <==>
            calls[0].key == key && AllowStep(cfg, order, calls[0].key, calls[0].now).1
  {
    assert calls[..0] == [];
  }

  lemma {:induction false} AdmittedCounts(cfg: Config, order: seq<Bucket>, calls: seq<Call>, key: string)
    requires cfg.rate > 0.0
    ensures Admitted(cfg, order, calls, key) == |Admissions(cfg, order, calls, key)|
    decreases |calls|
  {
    var all := Admissions(cfg, order, calls, key);
    if calls == [] {
      assert all == {};
    } else {
      AdmittedCounts(cfg, AllowStep(cfg, order, calls[0].key, calls[0].now).0, calls[1..], key);
      LaterAdmissions(cfg, order, calls, key);
      FirstAdmission(cfg, order, calls, key);
      assert |all| == |all - {0}| + (if 0 in all then 1 else 0);
    }
  }

  /** Between two calls that do not concern it, a key's balance grows at exactly the rate until it is full. */
  lemma {:induction false} BalanceGrows(cfg: Config, order: seq<Bucket>, key: string, now: real, later: real)
    requires Valid(cfg, order, now) && now <= later
    ensures var full := cfg.burst as real;
      var before, after := Available(cfg, order, key, now), Available(cfg, order, key, later);
      after == if before + Accrued(cfg, later - now) <= full then before + Accrued(cfg, later - now) else full
  {
    AvailableInRange(cfg, order, key, now);
    AccruedAdds(cfg, later - now, 0.0);
    var i := IndexOf(order, key);
    if i < |order| {
      AccruedAdds(cfg, later - now, now - order[i].lastRefill);
    }
  }

  /** A key that has waited for one token since its last call is never refused. */
  lemma {:induction false} SpacedCallIsAdmitted(cfg: Config, order: seq<Bucket>, key: string, now: real, i: nat)
    requires Valid(cfg, order, now) && i < |order| && order[i].key == key
    requires Accrued(cfg, now - order[i].lastRefill) >= 1.0
    ensures AllowStep(cfg, order, key, now).1
  {
    LookupFinds(order, i);
    OwnCallPays(cfg, order, key, now);
  }

  lemma {:induction false} CountedBound(cfg: Config, order: seq<Bucket>, window: seq<Call>, key: string, from: real, to: real)
    requires Valid(cfg, order, from) && from <= to
    requires InTime(window, from) && forall i :: 0 <= i < |window| ==> window[i].now <= to
    ensures Admitted(cfg, order, window, key) as real <= cfg.burst as real + Accrued(cfg, to - from)
  {
    AvailableInRange(cfg, order, key, from);
    AdmittedIsPaidFor(cfg, order, window, key, from, to);
    AtMostFull(Admitted(cfg, order, window, key) as real, Available(cfg, order, key, from), cfg.burst as real, Accrued(cfg, to - from));
  }

  lemma {:induction false} AtMostFull(admitted: real, available: real, full: real, accrued: real)
    requires admitted <= available + accrued && available <= full
    ensures admitted <= full + accrued
  {
  }

  /** At most the burst, and what the rate yields in so many seconds. */
  predicate WithinRate(cfg: Config, granted: nat, seconds: real) {
    granted as real <= cfg.burst as real + seconds * cfg.rate
  }

  lemma {:induction false} RateFrom(cfg: Config, granted: nat, seconds: real)
    requires granted as real <= cfg.burst as real + Accrued(cfg, seconds)
    ensures WithinRate(cfg, granted, seconds)
  {
  }

  lemma {:induction false} WindowBound(
    cfg: Config, order: seq<Bucket>, window: seq<Call>, key: string, from: real, to: real, granted: nat)
    requires Valid(cfg, order, from) && from <= to
    requires InTime(window, from) && forall i :: 0 <= i < |window| ==> window[i].now <= to
    requires granted == |Admissions(cfg, order, window, key)|
    ensures WithinRate(cfg, granted, to - from)
  {
    CountedBound(cfg, order, window, key, from, to);
    AdmittedCounts(cfg, order, window, key);
    RateFrom(cfg, granted, to - from);
  }

  /**
   * Rate bound: after any past, in any window of calls from `from` to `to`, one key is
   * admitted at most burst + rate * (to - from) times, whatever the other keys do.
   */
  lemma {:induction false} RateBound(cfg: Config, past: seq<Call>, window: seq<Call>, key: string, start: real, from: real, to: real)
    requires ValidConfig(cfg) && start <= from <= to
    requires InTime(past, start) && forall i :: 0 <= i < |past| ==> past[i].now <= from
    requires InTime(window, from) && forall i :: 0 <= i < |window| ==> window[i].now <= to
    ensures WithinRate(cfg, |Admissions(cfg, Run(cfg, [], past), window, key)|, to - from)
  {
    RunStaysValid(cfg, [], past, start, from);
    WindowBound(cfg, Run(cfg, [], past), window, key, from, to, |Admissions(cfg, Run(cfg, [], past), window, key)|);
  }
}
