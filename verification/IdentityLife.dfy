/**
 * What no operation ever changes about an identity (bridge_core/harness.ts): its names, its
 * protocols, its operator and its sensitive description stay those of the bootstrap.
 */
module IdentityLife {
  import opened Common
  import opened Canonical
  import opened Stringify
  import opened Identity
  import opened IdentityHarness

  /** Every epoch bears the names of the profile. */
  ghost predicate Named(chain: seq<Epoch>, p: Profile) {
    forall i :: 0 <= i < |chain| ==> chain[i].body.displayName == p.displayName && chain[i].body.purpose == p.purpose
  }

  /** The stored object has the canonical text of the given one as it was first written. */
  predicate StillSays(stored: Value, given: Value) {
    Supported(stored) && Supported(Stored(given)) && Clean(stored) && Encode(stored) == Encode(Stored(given))
  }

  predicate SensitiveTrue(s: Option<Sensitive>, f: Option<Fields>) {
    && (s.Some? <==> f.Some?)
    && (s.Some? ==>
      && s.value.body.modelName == f.value.modelName && s.value.body.modelVersion == f.value.modelVersion
      && StillSays(s.value.body.hardware, Else(f.value.hardware, Obj([])))
      && StillSays(s.value.body.stack, Else(f.value.stack, Obj([]))))
  }

  ghost predicate TrueTo(st: Store, p: Profile) {
    && Named(st.chain, p)
    && st.detail.Some? && st.detail.value.body.protocols == p.protocols
    && StillSays(st.detail.value.body.operator, Else(p.operator, Null))
    && SensitiveTrue(st.sensitive, p.sensitive)
  }

  lemma {:induction false} StillSaysStored(v: Value, given: Value)
    requires StillSays(v, given)
    ensures StillSays(Stored(v), given)
  {
    StoredKeepsText(v);
    StoredIsClean(v);
    StoredIsSupported(v);
  }

  lemma {:induction false} FirstSays(given: Value)
    requires Supported(given)
    ensures StillSays(Stored(given), given)
  {
    StoredIsClean(given);
    StoredIsSupported(given);
  }

  lemma {:induction false} AddedIsNamed(before: Store, after: Store, t: Transition, key: AgentIdentity, now: int, p: Profile)
    requires before.chain != [] && Named(before.chain, p) && EpochAdded(before, after, t, key, now)
    ensures Named(after.chain, p)
  {
    var n := |before.chain|;
    forall i | 0 <= i < |after.chain| ensures after.chain[i].body.displayName == p.displayName && after.chain[i].body.purpose == p.purpose {
      assert i < n ==> after.chain[..n][i] == after.chain[i];
    }
  }

  lemma {:induction false} CarriedIsTrue(a: Option<Sensitive>, b: Option<Sensitive>, key: AgentIdentity, number: nat, f: Option<Fields>)
    requires SensitiveTrue(a, f) && SensitiveCarried(a, b, key, number)
    ensures SensitiveTrue(b, f)
  {
    if a.Some? {
      StillSaysStored(a.value.body.hardware, Else(f.value.hardware, Obj([])));
      StillSaysStored(a.value.body.stack, Else(f.value.stack, Obj([])));
    }
  }

  lemma {:induction false} UpdateIsTrue(h: Digest, st: Store, capabilities: seq<Text>, limitations: seq<Text>, now: int, p: Profile)
    requires Bootstrapped(h, st) && TrueTo(st, p)
    ensures var r := UpdateCapabilities(h, st, capabilities, limitations, now); r.Ok? && TrueTo(r.value, p)
  {
    UpdateWrites(h, st, capabilities, limitations, now);
    var after := UpdateCapabilities(h, st, capabilities, limitations, now).value;
    AddedIsNamed(st, after, CapabilityUpdate, st.identity.value, now, p);
    StillSaysStored(st.detail.value.body.operator, Else(p.operator, Null));
    CarriedIsTrue(st.sensitive, after.sensitive, st.identity.value, Last(st.chain).body.number + 1, p.sensitive);
  }

  lemma {:induction false} RotateIsTrue(h: Digest, st: Store, next: AgentIdentity, now: int, p: Profile)
    requires Bootstrapped(h, st) && TrueTo(st, p)
    ensures var r := RotateKey(h, st, next, now); r.Ok? && TrueTo(r.value, p)
  {
    RotateWrites(h, st, next, now);
    var after := RotateKey(h, st, next, now).value;
    AddedIsNamed(st, after, KeyRotation, next, now, p);
    StillSaysStored(st.detail.value.body.operator, Else(p.operator, Null));
    CarriedIsTrue(st.sensitive, after.sensitive, next, Last(st.chain).body.number + 1, p.sensitive);
  }

  lemma {:induction false} SameTiersAreTrue(st: Store, after: Store, p: Profile)
    requires TrueTo(st, p) && SameTiers(st, after)
    ensures TrueTo(after, p)
  {
  }

  lemma {:induction false} RenewIsTrue(h: Digest, st: Store, validity: int, now: int, p: Profile)
    requires Bootstrapped(h, st) && TrueTo(st, p)
    ensures TrueTo(Perform(h, st, DoRenew(validity, now)), p) && TrueTo(Perform(h, st, DoEnsureLive(validity, now)), p)
  {
    RenewKeeps(h, st, validity, now);
    EnsureLiveKeeps(h, st, validity, now);
    SameTiersAreTrue(st, Perform(h, st, DoRenew(validity, now)), p);
    SameTiersAreTrue(st, Perform(h, st, DoEnsureLive(validity, now)), p);
  }

  /** Reconciliation leaves the tiers, or those of an update. */
  lemma {:induction false} ReconcileTiers(h: Digest, st: Store, live: Option<seq<Text>>, apply: bool, now: int, updated: Store)
    requires st.detail.Some?
    requires var (events, report) := Reconciliation(st, live);
      UpdateCapabilities(h, st.(events := events), report.capabilities, report.limitations, now) == Ok(updated)
    ensures var after := Perform(h, st, DoReconcile(live, apply, now)); SameTiers(st, after) || SameTiers(updated, after)
  {
  }

  lemma {:induction false} ReconcileIsTrue(h: Digest, st: Store, live: Option<seq<Text>>, apply: bool, now: int, p: Profile)
    requires Bootstrapped(h, st) && TrueTo(st, p)
    ensures TrueTo(Perform(h, st, DoReconcile(live, apply, now)), p)
  {
    var (events, report) := Reconciliation(st, live);
    LoggedIsTrue(h, st, events, p);
    UpdateIsTrue(h, st.(events := events), report.capabilities, report.limitations, now, p);
    var updated := UpdateCapabilities(h, st.(events := events), report.capabilities, report.limitations, now).value;
    var after := Perform(h, st, DoReconcile(live, apply, now));
    ReconcileTiers(h, st, live, apply, now, updated);
    if SameTiers(st, after) {
      SameTiersAreTrue(st, after, p);
    } else {
      SameTiersAreTrue(updated, after, p);
    }
  }

  lemma {:induction false} LoggedIsTrue(h: Digest, st: Store, events: seq<Event>, p: Profile)
    requires Bootstrapped(h, st) && TrueTo(st, p)
    ensures Bootstrapped(h, st.(events := events)) && TrueTo(st.(events := events), p)
  {
  }

  lemma {:induction false} OperationIsTrue(h: Digest, st: Store, op: Op, p: Profile)
    requires Bootstrapped(h, st) && TrueTo(st, p)
    ensures TrueTo(Perform(h, st, op), p)
  {
    match op
    case DoBootstrap(_, _, _) =>
    case DoUpdate(capabilities, limitations, now) => UpdateIsTrue(h, st, capabilities, limitations, now, p);
    case DoRotate(key, now) => RotateIsTrue(h, st, key, now, p);
    case DoRenew(validity, now) => RenewIsTrue(h, st, validity, now, p);
    case DoEnsureLive(validity, now) => RenewIsTrue(h, st, validity, now, p);
    case DoReconcile(live, apply, now) => ReconcileIsTrue(h, st, live, apply, now, p);
    case DoLog(_) =>
  }

  lemma {:induction false} BootstrapIsTrue(h: Digest, st: Store, key: AgentIdentity, p: Profile, now: int)
    requires Untouched(st) && Encodable(p)
    ensures var r := Bootstrap(h, st, key, p, now); r.Ok? && TrueTo(r.value, p)
  {
    BootstrapWrites(h, st, key, p, now);
    FirstSays(Else(p.operator, Null));
    if p.sensitive.Some? {
      FirstSays(Else(p.sensitive.value.hardware, Obj([])));
      FirstSays(Else(p.sensitive.value.stack, Obj([])));
    }
  }

  lemma {:induction false} LifeIsTrue(h: Digest, st: Store, ops: seq<Op>, p: Profile)
    requires Bootstrapped(h, st) && TrueTo(st, p)
    ensures TrueTo(Life(h, st, ops), p)
    decreases |ops|
  {
    if ops != [] {
      OperationIsTrue(h, st, ops[0], p);
      PerformMoves(h, st, ops[0]);
      LifeIsTrue(h, Perform(h, st, ops[0]), ops[1..], p);
    }
  }

  /**
   * What stays: after any operations at all, every epoch bears the founding profile's names,
   * and the stored tiers have its protocols, model and version, and the texts that its
   * operator, hardware and software stack had when they were first written.
   */
  lemma {:induction false} FoundingStays(h: Digest, st: Store, ops: seq<Op>)
    requires Untouched(st) && Founding(ops).Some?
    ensures TrueTo(Life(h, st, ops), Founding(ops).value)
    decreases |ops|
  {
    PerformUntouched(h, st, ops[0]);
    if ops[0].DoBootstrap? && Encodable(ops[0].profile) {
      BootstrapIsTrue(h, st, ops[0].key, ops[0].profile, ops[0].now);
      LifeIsTrue(h, Perform(h, st, ops[0]), ops[1..], ops[0].profile);
    } else {
      FoundingStays(h, Perform(h, st, ops[0]), ops[1..]);
    }
  }
}
