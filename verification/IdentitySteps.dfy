/**
 * What each operation on the stored identity does and refuses (bridge_core/harness.ts:225-421),
 * without the functions that compute it: renewing only when due, and minting only on a change.
 */
module IdentitySteps {
  import opened Common
  import opened Canonical
  import opened Texts
  import opened Identity
  import opened IdentityHarness

  /** Without an identity, a chain and a detail every operation but bootstrap is refused. */
  lemma {:induction false} UnfoundedRefuses(
    h: Digest, st: Store, key: AgentIdentity, capabilities: seq<Text>, limitations: seq<Text>,
    live: Option<seq<Text>>, apply: bool, validity: int, now: int)
    requires st.identity.None? || st.chain == [] || st.detail.None?
    ensures UpdateCapabilities(h, st, capabilities, limitations, now) == Err(NotBootstrapped)
    ensures RotateKey(h, st, key, now) == Err(NotBootstrapped)
    ensures st.identity.None? || st.chain == [] ==> RenewCurrent(h, st, validity, now) == Err(NotBootstrapped)
    ensures st.chain == [] ==> EnsureLive(h, st, validity, now) == Err(NotBootstrapped)
    ensures st.detail.None? ==> Reconcile(h, st, live, apply, now) == Err(NotBootstrapped)
  {
  }

  /** A renewal that verifies now is kept; otherwise one is issued now, or refused for its length. */
  lemma {:induction false} RenewedOnlyWhenDue(h: Digest, st: Store, validity: int, now: int)
    requires Bootstrapped(h, st)
    ensures var r, kept := EnsureLive(h, st, validity, now), st.renewal.value.body;
      var due := !(kept.renewedAt - 60_000 <= now < kept.validUntil);
      && (!due ==> r == Ok(st))
      && (due && validity > 604_800_000 ==> r == Err(ValidityTooLong))
      && (due && validity <= 604_800_000 ==>
        && r.Ok? && r.value.renewal.Some? && r.value == st.(renewal := r.value.renewal)
        && r.value.renewal.value.body.renewedAt == now && r.value.renewal.value.body.validUntil == now + validity)
  {
  }

  // ---------------------------------------------------------------------------------
  // Reconciliation.

  lemma {:induction false} SameLeast(s: seq<Text>, t: seq<Text>)
    requires s != [] && t != [] && Increasing(s) && Increasing(t)
    requires s[0] in t && t[0] in s
    ensures s[0] == t[0]
  {
    FirstIsLeast(t, s[0]);
    FirstIsLeast(s, t[0]);
    LeqAntisymmetric(s[0], t[0]);
  }

  lemma {:induction false} TailBag(s: seq<Text>)
    requires s != []
    ensures multiset(s[1..]) == multiset(s) - multiset{s[0]} && s == [s[0]] + s[1..]
  {
    assert s == [s[0]] + s[1..];
  }

  lemma {:induction false} SortedBagIsUnique(s: seq<Text>, t: seq<Text>)
    requires Increasing(s) && Increasing(t) && multiset(s) == multiset(t)
    ensures s == t
    decreases |s|
  {
    assert |multiset(s)| == |s| && |multiset(t)| == |t|;
    if s != [] {
      assert s[0] in multiset(t) && s[0] in t;
      assert t[0] in multiset(s) && t[0] in s;
      SameLeast(s, t);
      TailBag(s);
      TailBag(t);
      SortedBagIsUnique(s[1..], t[1..]);
    }
  }

  /** Two lists are the same once sorted if and only if they hold the same texts equally often. */
  lemma {:induction false} SameSortedExactly(a: seq<Text>, b: seq<Text>)
    ensures SameSorted(a, b) <==> multiset(a) == multiset(b)
  {
    SortTextsKeeps(a);
    SortTextsKeeps(b);
    if multiset(a) == multiset(b) {
      SortedBagIsUnique(SortTexts(a), SortTexts(b));
    }
  }

  /** Reconciliation mints an epoch if and only if it is told to and the log changed a list; otherwise it only logs. */
  lemma {:induction false} MintsExactly(h: Digest, st: Store, live: Option<seq<Text>>, apply: bool, now: int)
    requires Bootstrapped(h, st)
    ensures var (events, report) := Reconciliation(st, live);
      var before, r := st.detail.value.body, Reconcile(h, st, live, apply, now);
      var changed := multiset(before.capabilities) != multiset(report.capabilities)
                     || multiset(before.limitations) != multiset(report.limitations);
      && report.changed == changed && r.Ok?
      && (!(apply && changed) ==> r.value == st.(events := events))
      && (apply && changed ==>
        && r.value.events == events + [Event(OtherEvent, [])]
        && Updated(st, r.value.(events := st.events), report.capabilities, report.limitations, now))
  {
    var (events, report) := Reconciliation(st, live);
    SameSortedExactly(st.detail.value.body.capabilities, report.capabilities);
    SameSortedExactly(st.detail.value.body.limitations, report.limitations);
    var logged := st.(events := events);
    UpdateWrites(h, logged, report.capabilities, report.limitations, now);
  }

  lemma {:induction false} MissingCounts(xs: seq<Text>, ys: seq<Text>, v: Text)
    ensures multiset(Missing(xs, ys))[v] == if v in ys then 0 else multiset(xs)[v]
  {
    if xs != [] {
      MissingCounts(xs[1..], ys, v);
      assert xs == [xs[0]] + xs[1..];
      assert multiset(Missing(xs, ys)) == multiset(if xs[0] in ys then [] else [xs[0]]) + multiset(Missing(xs[1..], ys));
    }
  }

  /** A list of changes in increasing order: each live capability not declared, or declared one not live, as often as it is listed. */
  ghost predicate Changes(vs: seq<Text>, listed: seq<Text>, other: seq<Text>) {
    && (forall i, j :: 0 <= i < j < |vs| ==> Before(vs[i], vs[j]))
    && forall v :: multiset(vs)[v] == if v in other then 0 else multiset(listed)[v]
  }

  lemma {:induction false} MissingChanges(xs: seq<Text>, ys: seq<Text>)
    ensures Changes(SortTexts(Missing(xs, ys)), xs, ys)
  {
    SortTextsByUnits(Missing(xs, ys));
    forall v ensures multiset(SortTexts(Missing(xs, ys)))[v] == if v in ys then 0 else multiset(xs)[v] {
      MissingCounts(xs, ys, v);
    }
  }

  lemma {:induction false} UniqueCounts(xs: seq<Text>, v: Text)
    ensures multiset(Unique(xs))[v] == if v in xs then 1 else 0
  {
    UniqueHasNoRepeats(xs);
    NoRepeatsCounts(Unique(xs));
    assert v in Unique(xs) <==> v in multiset(Unique(xs));
  }

  /** The adapter's entries: what it has and the card does not, once each, then what the card has and it does not. */
  lemma {:induction false} AdapterLogsExactly(live: seq<Text>, declared: seq<Text>)
    ensures AdapterEvents(None, declared) == []
    ensures exists found: seq<Text>, lost: seq<Text> ::
      && AdapterEvents(Some(live), declared)
         == seq(|found|, i requires 0 <= i < |found| => Event(CapabilityDiscovered, found[i]))
            + seq(|lost|, i requires 0 <= i < |lost| => Event(CapabilityLost, lost[i]))
      && Changes(found, Unique(live), declared) && Changes(lost, declared, live)
    ensures forall v :: multiset(Unique(live))[v] == if v in live then 1 else 0
  {
    var found, lost := SortTexts(Missing(Unique(live), declared)), SortTexts(Missing(declared, Unique(live)));
    MissingChanges(Unique(live), declared);
    MissingChanges(declared, Unique(live));
    assert Changes(lost, declared, live);
    forall v ensures multiset(Unique(live))[v] == if v in live then 1 else 0 {
      UniqueCounts(live, v);
    }
  }

  /** What reconciliation reports: every value by the last word of the extended log, and else as it was declared. */
  lemma {:induction false} ReportsLastWord(st: Store, live: Option<seq<Text>>, v: Text)
    requires st.detail.Some?
    ensures var (events, report) := Reconciliation(st, live);
      var before := st.detail.value.body;
      var gained, solved :=
        LastWord(events, CapabilityDiscovered, CapabilityLost, v), LastWord(events, LimitationDiscovered, LimitationResolved, v);
      && events == st.events + AdapterEvents(live, before.capabilities)
      && (v in report.capabilities <==> gained == Present || (gained == Silent && v in before.capabilities))
      && (v in report.limitations <==> solved == Present || (solved == Silent && v in before.limitations))
  {
    var (events, report) := Reconciliation(st, live);
    ReplaySetIsExact(events, CapabilityDiscovered, CapabilityLost, st.detail.value.body.capabilities, v);
    ReplaySetIsExact(events, LimitationDiscovered, LimitationResolved, st.detail.value.body.limitations, v);
  }
}
