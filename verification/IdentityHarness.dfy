/**
 * The life of one agent identity (bridge_core/harness.ts): bootstrap, capability updates,
 * key rotations, renewals and log-driven reconciliation over the stored files.
 */
module IdentityHarness {
  import opened Common
  import opened Canonical
  import opened Stringify
  import opened Texts
  import opened Identity

  datatype EventKind = CapabilityDiscovered | CapabilityLost | LimitationDiscovered | LimitationResolved | OtherEvent

  /** A log entry as reconciliation reads it; an empty value stands for a missing one. */
  datatype Event = Event(kind: EventKind, value: Text)

  datatype Store = Store(
    identity: Option<AgentIdentity>, chain: seq<Epoch>, detail: Option<Detail>,
    sensitive: Option<Sensitive>, renewal: Option<Renewal>, events: seq<Event>)

  const PRISTINE := Store(None, [], None, None, None, [])

  // ---------------------------------------------------------------------------------
  // Replaying the log onto a baseline.

  function ReplayStep(s: seq<Text>, e: Event, add: EventKind, remove: EventKind): seq<Text> {
    if e.value == [] then s
    else if e.kind == add then Add(s, e.value)
    else if e.kind == remove then Remove(s, e.value)
    else s
  }

  function Replay(events: seq<Event>, add: EventKind, remove: EventKind, s: seq<Text>): seq<Text>
    decreases |events|
  {
    if events == [] then s
    else ReplayStep(Replay(events[..|events| - 1], add, remove, s), events[|events| - 1], add, remove)
  }

  /** `replaySet`. */
  function ReplaySet(events: seq<Event>, add: EventKind, remove: EventKind, baseline: seq<Text>): seq<Text> {
    SortTexts(Replay(events, add, remove, Unique(baseline)))
  }

  method ReplayLoop(events: seq<Event>, add: EventKind, remove: EventKind, baseline: seq<Text>) returns (r: seq<Text>)
    ensures r == ReplaySet(events, add, remove, baseline)
  {
    var s := Unique(baseline);
    for k := 0 to |events|
      invariant s == Replay(events[..k], add, remove, Unique(baseline))
    {
      assert events[..k + 1][..k] == events[..k];
      var e := events[k];
      if e.value != [] {
        if e.kind == add {
          s := Add(s, e.value);
        } else if e.kind == remove {
          s := Remove(s, e.value);
        }
      }
    }
    assert events[..|events|] == events;
    r := SortTexts(s);
  }

  function SameSorted(a: seq<Text>, b: seq<Text>): bool { SortTexts(a) == SortTexts(b) }

  /** What the log last said about a value. */
  datatype Verdict = Present | Absent | Silent

  function LastWord(events: seq<Event>, add: EventKind, remove: EventKind, v: Text): Verdict
    decreases |events|
  {
    if events == [] || v == [] then Silent else
    var e := events[|events| - 1];
    if e.value == v && e.kind == add then Present
    else if e.value == v && e.kind == remove then Absent
    else LastWord(events[..|events| - 1], add, remove, v)
  }

  lemma {:induction false} ReplayFollowsLastWord(events: seq<Event>, add: EventKind, remove: EventKind, s: seq<Text>, v: Text)
    ensures v in Replay(events, add, remove, s) <==>
      LastWord(events, add, remove, v) == Present || (LastWord(events, add, remove, v) == Silent && v in s)
    decreases |events|
  {
    if events != [] {
      ReplayFollowsLastWord(events[..|events| - 1], add, remove, s, v);
    }
  }

  /** Replay decides every value by the last thing the log said about it, and else by the baseline. */
  lemma {:induction false} ReplaySetIsExact(events: seq<Event>, add: EventKind, remove: EventKind, baseline: seq<Text>, v: Text)
    ensures v in ReplaySet(events, add, remove, baseline) <==>
      LastWord(events, add, remove, v) == Present || (LastWord(events, add, remove, v) == Silent && v in baseline)
  {
    var s := Replay(events, add, remove, Unique(baseline));
    SortedMembers(s);
    ReplayFollowsLastWord(events, add, remove, Unique(baseline), v);
  }

  // ---------------------------------------------------------------------------------
  // Operations on the stored files.

  /** Tier 3 fields as a caller gives them. */
  datatype Fields = Fields(modelName: Text, modelVersion: Text, hardware: Value, stack: Value)

  /** What `bootstrap` is given. */
  datatype Profile = Profile(
    displayName: Text, purpose: Text, capabilities: seq<Text>, operator: Value, protocols: seq<Text>,
    limitations: seq<Text>, sensitive: Option<Fields>)

  function FirstDetail(key: AgentIdentity, p: Profile, now: int): DetailBody<Value> {
    DetailBody(key.AgentId(), 0, p.capabilities, Given(p.operator, Null), p.protocols, p.limitations, now)
  }

  function FirstSensitive(key: AgentIdentity, f: Fields, now: int): SensitiveBody<Value> {
    SensitiveBody(key.AgentId(), 0, f.modelName, f.modelVersion, Given(f.hardware, Obj([])), Given(f.stack, Obj([])), now)
  }

  /** The encoder accepts the profile's free-form fields; otherwise bootstrap throws before it writes anything. */
  predicate Encodable(p: Profile) {
    && Supported(Given(p.operator, Null))
    && (p.sensitive.Some? ==>
          Supported(Given(p.sensitive.value.hardware, Obj([]))) && Supported(Given(p.sensitive.value.stack, Obj([]))))
  }

  function ResignDetail(b: DetailBody<Value>, number: nat, key: AgentIdentity): Detail
    requires DetailSupported(b)
  {
    SignDetail(b.(number := number), key)
  }

  function ResignSensitive(s: Option<Sensitive>, number: nat, key: AgentIdentity): Option<Sensitive>
    requires s.Some? ==> SensitiveSupported(s.value.body)
  {
    if s.None? then None else Some(SignSensitive(s.value.body.(number := number), key))
  }

  function Last(chain: seq<Epoch>): Epoch
    requires chain != []
  {
    chain[|chain| - 1]
  }

  function FileOf(s: Option<Sensitive>): Option<Sensitive> { if s.None? then None else Some(SensitiveFile(s.value)) }

  function Bootstrap(h: Digest, st: Store, key: AgentIdentity, p: Profile, now: int): Result<Store, AicError> {
    if st.identity.Some? then Err(AlreadyBootstrapped)
    else if !Encodable(p) then Err(Unsupported)
    else
      var d := SignDetail(FirstDetail(key, p, now), key);
      var s := if p.sensitive.None? then None else Some(SignSensitive(FirstSensitive(key, p.sensitive.value, now), key));
      var genesis := CreateGenesis(h, key, p.displayName, p.purpose, d, s, now);
      match Renew(h, genesis, key, DEFAULT_VALIDITY_MS, now)
      case Err(e) => Err(e)
      case Ok(r) =>
        Ok(Store(Some(key), [genesis], Some(DetailFile(d)), if s.Some? then FileOf(s) else st.sensitive, Some(r), st.events))
  }

  /** `commitNewEpoch`. */
  function Commit(h: Digest, st: Store, e: Epoch, d: Detail, s: Option<Sensitive>, active: AgentIdentity, now: int): Result<Store, AicError> {
    match Renew(h, e, active, DEFAULT_VALIDITY_MS, now)
    case Err(err) => Err(err)
    case Ok(r) =>
      Ok(st.(chain := st.chain + [e], detail := Some(DetailFile(d)),
             sensitive := if s.Some? then FileOf(s) else st.sensitive, renewal := Some(r)))
  }

  /** There is an identity, a chain and a detail, and the encoder accepts what the tier files hold. */
  predicate Loadable(st: Store) {
    && st.identity.Some? && st.chain != [] && st.detail.Some? && DetailSupported(st.detail.value.body)
    && (st.sensitive.Some? ==> SensitiveSupported(st.sensitive.value.body))
  }

  function NextDetail(st: Store, capabilities: seq<Text>, limitations: seq<Text>, now: int): DetailBody<Value>
    requires Loadable(st)
  {
    var prior, before := Last(st.chain).body, st.detail.value.body;
    DetailBody(prior.agentId, prior.number + 1, capabilities, before.operator, before.protocols, limitations, now)
  }

  function UpdateCapabilities(h: Digest, st: Store, capabilities: seq<Text>, limitations: seq<Text>, now: int): Result<Store, AicError> {
    if !Loadable(st) then Err(NotBootstrapped) else
    var key, prior := st.identity.value, Last(st.chain);
    var d := SignDetail(NextDetail(st, capabilities, limitations, now), key);
    var s := ResignSensitive(st.sensitive, prior.body.number + 1, key);
    match CreateSuccessor(h, prior, key, None, d, s, now)
    case Err(e) => Err(e)
    case Ok(e) => Commit(h, st, e, d, s, key, now)
  }

  function RotateKey(h: Digest, st: Store, next: AgentIdentity, now: int): Result<Store, AicError> {
    if !Loadable(st) then Err(NotBootstrapped) else
    var key, prior := st.identity.value, Last(st.chain);
    var number := prior.body.number + 1;
    var d := ResignDetail(st.detail.value.body, number, next);
    var s := ResignSensitive(st.sensitive, number, next);
    match CreateSuccessor(h, prior, key, Some(next), d, s, now)
    case Err(e) => Err(e)
    case Ok(e) => Commit(h, st.(identity := Some(next)), e, d, s, next, now)
  }

  function RenewCurrent(h: Digest, st: Store, validity: int, now: int): Result<Store, AicError> {
    if st.identity.None? || st.chain == [] then Err(NotBootstrapped) else
    match Renew(h, Last(st.chain), st.identity.value, validity, now)
    case Err(e) => Err(e)
    case Ok(r) => Ok(st.(renewal := Some(r)))
  }

  function EnsureLive(h: Digest, st: Store, validity: int, now: int): Result<Store, AicError> {
    if st.chain == [] then Err(NotBootstrapped)
    else if st.renewal.Some? && VerifyRenewal(h, st.renewal.value, Last(st.chain), now) then Ok(st)
    else RenewCurrent(h, st, validity, now)
  }

  function Events(kind: EventKind, values: seq<Text>): seq<Event> {
    seq(|values|, i requires 0 <= i < |values| => Event(kind, values[i]))
  }

  function Missing(xs: seq<Text>, ys: seq<Text>): (r: seq<Text>)
    ensures forall x :: x in r <==> x in xs && x !in ys
  {
    if xs == [] then [] else (if xs[0] in ys then [] else [xs[0]]) + Missing(xs[1..], ys)
  }

  /** What comparing an adapter's live capabilities with the declared ones adds to the log. */
  function AdapterEvents(live: Option<seq<Text>>, declared: seq<Text>): seq<Event> {
    if live.None? then []
    else Events(CapabilityDiscovered, SortTexts(Missing(Unique(live.value), declared)))
         + Events(CapabilityLost, SortTexts(Missing(declared, Unique(live.value))))
  }

  datatype Report = Report(changed: bool, capabilities: seq<Text>, limitations: seq<Text>)

  function Reconciliation(st: Store, live: Option<seq<Text>>): (seq<Event>, Report)
    requires st.detail.Some?
  {
    var before := st.detail.value.body;
    var events := st.events + AdapterEvents(live, before.capabilities);
    var capabilities := ReplaySet(events, CapabilityDiscovered, CapabilityLost, before.capabilities);
    var limitations := ReplaySet(events, LimitationDiscovered, LimitationResolved, before.limitations);
    (events, Report(!SameSorted(before.capabilities, capabilities) || !SameSorted(before.limitations, limitations),
                    capabilities, limitations))
  }

  function Reconcile(h: Digest, st: Store, live: Option<seq<Text>>, apply: bool, now: int): Result<Store, AicError> {
    if st.detail.None? then Err(NotBootstrapped) else
    var (events, report) := Reconciliation(st, live);
    if report.changed && apply then
      match UpdateCapabilities(h, st.(events := events), report.capabilities, report.limitations, now)
      case Err(e) => Err(e)
      case Ok(st') => Ok(st'.(events := st'.events + [Event(OtherEvent, [])]))
    else Ok(st.(events := events))
  }

  // ---------------------------------------------------------------------------------
  // The invariant.

  /** Everything but the tiers' signatures: what every later operation relies on. */
  ghost predicate Bootstrapped(h: Digest, st: Store) {
    && ChainVerifies(h, st.chain) && st.chain[0].body.agentId == st.chain[0].body.publicKey
    && st.identity.Some? && st.identity.value.PublicB64() == Last(st.chain).body.publicKey
    && Loadable(st) && st.detail.value.body.agentId == Last(st.chain).body.agentId && DetailClean(st.detail.value.body)
    && (st.sensitive.Some? ==>
          st.sensitive.value.body.agentId == Last(st.chain).body.agentId && SensitiveClean(st.sensitive.value.body))
    && (st.sensitive.None? ==> Last(st.chain).body.sensitiveDigest == None)
    && st.renewal.Some? && RenewalBound(h, st.renewal.value, Last(st.chain))
  }

  /** The tier files verify against the last epoch. */
  predicate TiersVerify(h: Digest, st: Store)
    requires st.chain != [] && st.detail.Some?
  {
    && VerifyDetail(h, st.detail.value, Last(st.chain))
    && (st.sensitive.Some? ==> VerifySensitive(h, st.sensitive.value, Last(st.chain)))
  }

  ghost predicate Untouched(st: Store) {
    st.identity.None? && st.chain == [] && st.detail.None? && st.sensitive.None? && st.renewal.None?
  }

  ghost predicate StoreInv(h: Digest, st: Store) { Untouched(st) || Bootstrapped(h, st) }

  lemma {:induction false} CategoriesJoinAlike(capabilities: seq<Text>)
    ensures SortTexts(DeriveCategories(capabilities)) == DeriveCategories(capabilities)
  {
    SortTextsTwice(Unique(CategoriesOf(capabilities)));
  }

  lemma {:induction false} LastVerifies(h: Digest, chain: seq<Epoch>)
    requires ChainVerifies(h, chain)
    ensures Verifies(Last(chain).signature, Last(chain).body, Last(chain).body.publicKey)
  {
    if |chain| > 1 {
      assert Linked(h, chain, |chain| - 1);
    }
  }

  lemma {:induction false} ExtendChain(h: Digest, chain: seq<Epoch>, e: Epoch)
    requires ChainVerifies(h, chain) && VerifySuccessor(h, e, Last(chain))
    ensures ChainVerifies(h, chain + [e])
  {
    var longer := chain + [e];
    forall i | 0 < i < |longer| ensures Linked(h, longer, i) {
      if i < |chain| {
        assert Linked(h, chain, i);
      }
    }
  }

  ghost predicate ProfileClean(p: Profile) {
    && Clean(Given(p.operator, Null))
    && (p.sensitive.Some? ==>
          Clean(Given(p.sensitive.value.hardware, Obj([]))) && Clean(Given(p.sensitive.value.stack, Obj([]))))
  }

  ghost predicate ProfileInDomain(p: Profile) {
    && InDomain(Given(p.operator, Null))
    && (p.sensitive.Some? ==>
          InDomain(Given(p.sensitive.value.hardware, Obj([]))) && InDomain(Given(p.sensitive.value.stack, Obj([]))))
  }

  /** The genesis epoch verifies both tiers as they were signed, before they are written. */
  lemma {:induction false} GenesisBinds(h: Digest, key: AgentIdentity, p: Profile, d: Detail, s: Option<Sensitive>, now: int)
    requires Encodable(p) && d == SignDetail(FirstDetail(key, p, now), key)
    requires s == if p.sensitive.None? then None else Some(SignSensitive(FirstSensitive(key, p.sensitive.value, now), key))
    ensures var e := CreateGenesis(h, key, p.displayName, p.purpose, d, s, now);
      && ChainVerifies(h, [e]) && e.body.agentId == e.body.publicKey == key.PublicB64()
      && VerifyDetail(h, d, e) && (s.Some? ==> VerifySensitive(h, s.value, e))
  {
    CategoriesJoinAlike(p.capabilities);
  }

  lemma {:induction false} SensitiveFileIsClean(s: Sensitive)
    ensures SensitiveClean(SensitiveFile(s).body) && (SensitiveSupported(s.body) ==> SensitiveSupported(SensitiveFile(s).body))
  {
    FilesAreClean(Signed(DetailBody(PublicKey(0), 0, [], Null, [], [], 0), None, None), s);
  }

  lemma {:induction false} DetailFileIsClean(d: Detail)
    ensures DetailClean(DetailFile(d).body) && (DetailSupported(d.body) ==> DetailSupported(DetailFile(d).body))
  {
    FilesAreClean(d, Signed(SensitiveBody(PublicKey(0), 0, [], [], Null, Null, 0), None, None));
  }

  lemma {:induction false} BootstrapEstablishes(h: Digest, st: Store, key: AgentIdentity, p: Profile, now: int)
    requires Untouched(st)
    ensures var r := Bootstrap(h, st, key, p, now);
      && (r.Ok? <==> Encodable(p))
      && (r.Ok? ==> Bootstrapped(h, r.value) && |r.value.chain| == 1 && r.value.events == st.events)
  {
    if Encodable(p) {
      var d := SignDetail(FirstDetail(key, p, now), key);
      var s := if p.sensitive.None? then None else Some(SignSensitive(FirstSensitive(key, p.sensitive.value, now), key));
      GenesisBinds(h, key, p, d, s, now);
      DetailFileIsClean(d);
      if s.Some? {
        SensitiveFileIsClean(s.value);
      }
    }
  }

  /**
   * The tier files verify right after bootstrap when the given objects have no `undefined`
   * member, and in the encoder's domain only then: what was signed is not what was written.
   */
  lemma {:induction false} BootstrapVerifiesExactly(h: Digest, st: Store, key: AgentIdentity, p: Profile, now: int)
    requires Untouched(st) && Encodable(p)
    ensures var r := Bootstrap(h, st, key, p, now);
      && r.Ok? && r.value.chain != [] && r.value.detail.Some?
      && (ProfileClean(p) ==> TiersVerify(h, r.value))
      && (ProfileInDomain(p) ==> (TiersVerify(h, r.value) <==> ProfileClean(p)))
  {
    BootstrapEstablishes(h, st, key, p, now);
    var d := SignDetail(FirstDetail(key, p, now), key);
    var s := if p.sensitive.None? then None else Some(SignSensitive(FirstSensitive(key, p.sensitive.value, now), key));
    GenesisBinds(h, key, p, d, s, now);
    var e := CreateGenesis(h, key, p.displayName, p.purpose, d, s, now);
    DetailVerdict(h, d, e);
    if s.Some? {
      SensitiveVerdict(h, s.value, e);
    }
  }

  lemma {:induction false} DetailVerdict(h: Digest, d: Detail, e: Epoch)
    requires VerifyDetail(h, d, e)
    ensures DetailClean(d.body) ==> VerifyDetail(h, DetailFile(d), e)
    ensures InDomain(d.body.operator) ==> (VerifyDetail(h, DetailFile(d), e) <==> DetailClean(d.body))
  {
    if DetailClean(d.body) {
      CleanDetailSurvives(h, d, e);
    }
    if InDomain(d.body.operator) {
      DetailSurvivesExactly(h, d, e);
    }
  }

  lemma {:induction false} SensitiveVerdict(h: Digest, s: Sensitive, e: Epoch)
    requires VerifySensitive(h, s, e)
    ensures SensitiveClean(s.body) ==> VerifySensitive(h, SensitiveFile(s), e)
    ensures InDomain(s.body.hardware) && InDomain(s.body.stack) ==>
      (VerifySensitive(h, SensitiveFile(s), e) <==> SensitiveClean(s.body))
  {
    if SensitiveClean(s.body) {
      CleanSensitiveSurvives(h, s, e);
    }
    if InDomain(s.body.hardware) && InDomain(s.body.stack) {
      SensitiveSurvivesExactly(h, s, e);
    }
  }

  /** `bootstrap` with `operator: {contact: undefined}`: the detail file does not verify. */
  function Forgetful(): Profile { Profile([], [], [], Obj([Entry([0x63], Undefined)]), [], [], None) }

  lemma {:induction false} UndefinedMemberBreaksDetail(h: Digest, key: AgentIdentity, now: int)
    ensures var r := Bootstrap(h, PRISTINE, key, Forgetful(), now);
      && r.Ok? && r.value.chain != [] && r.value.detail.Some?
      && !VerifyDetail(h, r.value.detail.value, Last(r.value.chain))
  {
    var p := Forgetful();
    assert p.operator.members[0].value.Undefined?;
    assert !Clean(p.operator) && InDomain(p.operator) && Supported(p.operator);
    BootstrapVerifiesExactly(h, PRISTINE, key, p, now);
  }

  /** What an operation hands to the successor epoch: clean tiers, signed by the active key. */
  ghost predicate Prepared(h: Digest, st: Store, d: Detail, s: Option<Sensitive>, active: AgentIdentity)
    requires st.chain != []
  {
    var prior := Last(st.chain).body;
    && TiersSupported(d, s) && DetailClean(d.body) && (s.Some? ==> SensitiveClean(s.value.body))
    && d.body.agentId == prior.agentId && d.body.number == prior.number + 1
    && Verifies(d.signature, DetailText(d.body), active.PublicB64())
    && (s.Some? <==> st.sensitive.Some?)
    && (s.Some? ==> s.value.body.agentId == prior.agentId && s.value.body.number == prior.number + 1
                    && Verifies(s.value.signature, SensitiveText(s.value.body), active.PublicB64()))
  }

  lemma {:induction false} SuccessorBinds(h: Digest, st: Store, key: AgentIdentity, next: Option<AgentIdentity>, d: Detail, s: Option<Sensitive>, now: int)
    requires Bootstrapped(h, st) && key == st.identity.value
    requires Prepared(h, st, d, s, if next.Some? then next.value else key)
    ensures var r := CreateSuccessor(h, Last(st.chain), key, next, d, s, now);
      && r.Ok? && VerifySuccessor(h, r.value, Last(st.chain))
      && r.value.body.publicKey == (if next.Some? then next.value else key).PublicB64()
      && r.value.body.agentId == Last(st.chain).body.agentId && r.value.body.sensitiveDigest == SensitiveDigestOf(h, s)
      && VerifyDetail(h, d, r.value) && (s.Some? ==> VerifySensitive(h, s.value, r.value))
  {
    LastVerifies(h, st.chain);
    CategoriesJoinAlike(d.body.capabilities);
  }

  /** A successor built over the last epoch from prepared tiers leaves a store whose tier files verify. */
  lemma {:induction false} CommitKeeps(h: Digest, st: Store, key: AgentIdentity, next: Option<AgentIdentity>, d: Detail, s: Option<Sensitive>, now: int)
    requires Bootstrapped(h, st) && key == st.identity.value
    requires Prepared(h, st, d, s, if next.Some? then next.value else key)
    ensures var active := if next.Some? then next.value else key;
      var r := CreateSuccessor(h, Last(st.chain), key, next, d, s, now);
      && r.Ok?
      && var r2 := Commit(h, st.(identity := Some(active)), r.value, d, s, active, now);
         && r2.Ok? && Bootstrapped(h, r2.value) && TiersVerify(h, r2.value) && r2.value.events == st.events
         && r2.value.chain == st.chain + [r.value] && r2.value.detail == Some(DetailFile(d))
  {
    SuccessorBinds(h, st, key, next, d, s, now);
    var e := CreateSuccessor(h, Last(st.chain), key, next, d, s, now).value;
    ExtendChain(h, st.chain, e);
    assert (st.chain + [e])[0] == st.chain[0] && Last(st.chain + [e]) == e;
    PreparedFiles(h, st, d, s, if next.Some? then next.value else key, e);
  }

  lemma {:induction false} PreparedFiles(h: Digest, st: Store, d: Detail, s: Option<Sensitive>, active: AgentIdentity, e: Epoch)
    requires st.chain != [] && Prepared(h, st, d, s, active)
    requires VerifyDetail(h, d, e) && (s.Some? ==> VerifySensitive(h, s.value, e))
    ensures VerifyDetail(h, DetailFile(d), e) && DetailClean(DetailFile(d).body)
    ensures s.Some? ==> VerifySensitive(h, SensitiveFile(s.value), e) && SensitiveClean(SensitiveFile(s.value).body)
  {
    DetailFileIsClean(d);
    CleanDetailSurvives(h, d, e);
    if s.Some? {
      SensitiveFileIsClean(s.value);
      CleanSensitiveSurvives(h, s.value, e);
    }
  }

  lemma {:induction false} UpdateKeeps(h: Digest, st: Store, capabilities: seq<Text>, limitations: seq<Text>, now: int)
    requires Bootstrapped(h, st)
    ensures var r := UpdateCapabilities(h, st, capabilities, limitations, now);
      && r.Ok? && Bootstrapped(h, r.value) && TiersVerify(h, r.value) && r.value.events == st.events
      && r.value.detail.value.body.capabilities == capabilities && r.value.detail.value.body.limitations == limitations
      && r.value.identity == st.identity && |r.value.chain| == |st.chain| + 1
  {
    var key, number := st.identity.value, Last(st.chain).body.number + 1;
    var d := SignDetail(NextDetail(st, capabilities, limitations, now), key);
    CommitKeeps(h, st, key, None, d, ResignSensitive(st.sensitive, number, key), now);
    assert st.(identity := Some(key)) == st;
  }

  lemma {:induction false} RotateKeeps(h: Digest, st: Store, next: AgentIdentity, now: int)
    requires Bootstrapped(h, st)
    ensures var r := RotateKey(h, st, next, now);
      && r.Ok? && Bootstrapped(h, r.value) && TiersVerify(h, r.value) && r.value.events == st.events
      && r.value.identity == Some(next)
      && r.value.detail.value.body.capabilities == st.detail.value.body.capabilities
      && |r.value.chain| == |st.chain| + 1
  {
    var key, number := st.identity.value, Last(st.chain).body.number + 1;
    var d := ResignDetail(st.detail.value.body, number, next);
    CommitKeeps(h, st, key, Some(next), d, ResignSensitive(st.sensitive, number, next), now);
  }

  ghost predicate SameTiers(a: Store, b: Store) {
    a.chain == b.chain && a.detail == b.detail && a.sensitive == b.sensitive
  }

  lemma {:induction false} RenewKeeps(h: Digest, st: Store, validity: int, now: int)
    requires Bootstrapped(h, st)
    ensures var r := RenewCurrent(h, st, validity, now);
      && (r.Ok? <==> validity <= MAX_VALIDITY_MS)
      && (r.Ok? ==> Bootstrapped(h, r.value) && SameTiers(st, r.value) && r.value.events == st.events
                    && r.value.renewal.value.body.renewedAt == now && r.value.renewal.value.body.validUntil == now + validity)
  {
  }

  /** `ensureLive` with an acceptable validity always leaves a renewal that verifies now. */
  lemma {:induction false} EnsureLiveKeeps(h: Digest, st: Store, validity: int, now: int)
    requires Bootstrapped(h, st)
    ensures var r := EnsureLive(h, st, validity, now);
      && (r.Ok? ==> Bootstrapped(h, r.value) && SameTiers(st, r.value) && r.value.events == st.events)
      && (0 < validity <= MAX_VALIDITY_MS ==> r.Ok? && VerifyRenewal(h, r.value.renewal.value, Last(r.value.chain), now))
  {
    RenewKeeps(h, st, validity, now);
  }

  lemma {:induction false} ReconcileKeeps(h: Digest, st: Store, live: Option<seq<Text>>, apply: bool, now: int)
    requires Bootstrapped(h, st)
    ensures var r := Reconcile(h, st, live, apply, now);
      && r.Ok? && Bootstrapped(h, r.value)
      && (SameTiers(st, r.value) || (|r.value.chain| == |st.chain| + 1 && TiersVerify(h, r.value)))
      && (Reconciliation(st, live).1.changed && apply ==>
            && r.value.detail.value.body.capabilities == Reconciliation(st, live).1.capabilities
            && r.value.detail.value.body.limitations == Reconciliation(st, live).1.limitations)
  {
    var (events, report) := Reconciliation(st, live);
    UpdateKeeps(h, st.(events := events), report.capabilities, report.limitations, now);
  }

  // ---------------------------------------------------------------------------------
  // Whole lives.

  datatype Op =
    | DoBootstrap(key: AgentIdentity, profile: Profile, now: int)
    | DoUpdate(capabilities: seq<Text>, limitations: seq<Text>, now: int)
    | DoRotate(key: AgentIdentity, now: int)
    | DoRenew(validity: int, now: int)
    | DoEnsureLive(validity: int, now: int)
    | DoReconcile(live: Option<seq<Text>>, apply: bool, now: int)
    | DoLog(e: Event)

  function Attempt(h: Digest, st: Store, op: Op): Result<Store, AicError> {
    match op
    case DoBootstrap(key, profile, now) => Bootstrap(h, st, key, profile, now)
    case DoUpdate(capabilities, limitations, now) => UpdateCapabilities(h, st, capabilities, limitations, now)
    case DoRotate(key, now) => RotateKey(h, st, key, now)
    case DoRenew(validity, now) => RenewCurrent(h, st, validity, now)
    case DoEnsureLive(validity, now) => EnsureLive(h, st, validity, now)
    case DoReconcile(live, apply, now) => Reconcile(h, st, live, apply, now)
    case DoLog(e) => Ok(st.(events := st.events + [e]))
  }

  /** An operation that throws leaves the files as they were. */
  function Perform(h: Digest, st: Store, op: Op): Store {
    match Attempt(h, st, op)
    case Ok(st') => st'
    case Err(_) => st
  }

  function Life(h: Digest, st: Store, ops: seq<Op>): Store
    decreases |ops|
  {
    if ops == [] then st else Life(h, Perform(h, st, ops[0]), ops[1..])
  }

  /** The profile a life was founded on: the first one that `bootstrap` could encode. */
  function Founding(ops: seq<Op>): Option<Profile> {
    if ops == [] then None
    else if ops[0].DoBootstrap? && Encodable(ops[0].profile) then Some(ops[0].profile)
    else Founding(ops[1..])
  }

  /** The tier files verify after any later epoch, and before that exactly as far as the profile allows. */
  ghost predicate TiersFollow(h: Digest, st: Store, p: Profile)
    requires st.chain != [] && st.detail.Some?
  {
    && (|st.chain| > 1 || ProfileClean(p) ==> TiersVerify(h, st))
    && (ProfileInDomain(p) ==> (TiersVerify(h, st) <==> |st.chain| > 1 || ProfileClean(p)))
  }

  /** The tier files are as they were, or there is one more epoch over tier files that verify. */
  ghost predicate Moves(h: Digest, st: Store, after: Store) {
    && Bootstrapped(h, after)
    && (SameTiers(st, after) || (|after.chain| == |st.chain| + 1 && TiersVerify(h, after)))
  }

  lemma {:induction false} UpdateMoves(h: Digest, st: Store, capabilities: seq<Text>, limitations: seq<Text>, now: int)
    requires Bootstrapped(h, st)
    ensures Moves(h, st, Perform(h, st, DoUpdate(capabilities, limitations, now)))
  {
    UpdateKeeps(h, st, capabilities, limitations, now);
  }

  lemma {:induction false} RotateMoves(h: Digest, st: Store, key: AgentIdentity, now: int)
    requires Bootstrapped(h, st)
    ensures Moves(h, st, Perform(h, st, DoRotate(key, now)))
  {
    RotateKeeps(h, st, key, now);
  }

  lemma {:induction false} RenewMoves(h: Digest, st: Store, validity: int, now: int)
    requires Bootstrapped(h, st)
    ensures Moves(h, st, Perform(h, st, DoRenew(validity, now)))
    ensures Moves(h, st, Perform(h, st, DoEnsureLive(validity, now)))
  {
    RenewKeeps(h, st, validity, now);
    EnsureLiveKeeps(h, st, validity, now);
  }

  lemma {:induction false} ReconcileMoves(h: Digest, st: Store, live: Option<seq<Text>>, apply: bool, now: int)
    requires Bootstrapped(h, st)
    ensures Moves(h, st, Perform(h, st, DoReconcile(live, apply, now)))
  {
    ReconcileKeeps(h, st, live, apply, now);
  }

  /** Each operation leaves the tier files as they are, or adds an epoch over tier files that verify. */
  lemma {:induction false} PerformMoves(h: Digest, st: Store, op: Op)
    requires Bootstrapped(h, st)
    ensures Moves(h, st, Perform(h, st, op))
  {
    match op
    case DoBootstrap(_, _, _) =>
    case DoUpdate(capabilities, limitations, now) => UpdateMoves(h, st, capabilities, limitations, now);
    case DoRotate(key, now) => RotateMoves(h, st, key, now);
    case DoRenew(validity, now) => RenewMoves(h, st, validity, now);
    case DoEnsureLive(validity, now) => RenewMoves(h, st, validity, now);
    case DoReconcile(live, apply, now) => ReconcileMoves(h, st, live, apply, now);
    case DoLog(_) =>
  }

  lemma {:induction false} PerformKeeps(h: Digest, st: Store, op: Op, p: Profile)
    requires Bootstrapped(h, st) && TiersFollow(h, st, p)
    ensures Bootstrapped(h, Perform(h, st, op)) && TiersFollow(h, Perform(h, st, op), p)
  {
    PerformMoves(h, st, op);
  }

  lemma {:induction false} PerformUntouched(h: Digest, st: Store, op: Op)
    requires Untouched(st)
    ensures var after := Perform(h, st, op);
      if op.DoBootstrap? && Encodable(op.profile) then Bootstrapped(h, after) && TiersFollow(h, after, op.profile)
      else Untouched(after)
  {
    if op.DoBootstrap? {
      BootstrapEstablishes(h, st, op.key, op.profile, op.now);
      if Encodable(op.profile) {
        BootstrapVerifiesExactly(h, st, op.key, op.profile, op.now);
      }
    }
  }

  lemma {:induction false} LifeFrom(h: Digest, st: Store, ops: seq<Op>, p: Profile)
    requires Bootstrapped(h, st) && TiersFollow(h, st, p)
    ensures Bootstrapped(h, Life(h, st, ops)) && TiersFollow(h, Life(h, st, ops), p)
    decreases |ops|
  {
    if ops != [] {
      PerformKeeps(h, st, ops[0], p);
      LifeFrom(h, Perform(h, st, ops[0]), ops[1..], p);
    }
  }

  lemma {:induction false} LifeFromUntouched(h: Digest, st: Store, ops: seq<Op>)
    requires Untouched(st)
    ensures var after, p := Life(h, st, ops), Founding(ops);
      if p.None? then Untouched(after) else Bootstrapped(h, after) && TiersFollow(h, after, p.value)
    decreases |ops|
  {
    if ops != [] {
      PerformUntouched(h, st, ops[0]);
      var next := Perform(h, st, ops[0]);
      if ops[0].DoBootstrap? && Encodable(ops[0].profile) {
        LifeFrom(h, next, ops[1..], ops[0].profile);
      } else {
        LifeFromUntouched(h, next, ops[1..]);
      }
    }
  }

  /**
   * Identity theorem: after any sequence of operations there is an identity exactly when some
   * bootstrap could be encoded, and then the stored chain verifies under the id of its genesis
   * key, the stored private key is the last epoch's key, and the stored renewal verifies at
   * exactly the times between a minute before its issue and its expiry.
   */
  lemma {:induction false} IdentityTheorem(h: Digest, ops: seq<Op>)
    ensures var st := Life(h, PRISTINE, ops);
      && (st.identity.Some? <==> Founding(ops).Some?)
      && (st.identity.Some? ==>
        && ChainVerifies(h, st.chain) && st.chain[0].body.agentId == st.chain[0].body.publicKey
        && st.identity.value.PublicB64() == Last(st.chain).body.publicKey
        && st.detail.Some? && st.renewal.Some?
        && forall at :: VerifyRenewal(h, st.renewal.value, Last(st.chain), at) <==>
             st.renewal.value.body.renewedAt - 60_000 <= at < st.renewal.value.body.validUntil)
  {
    LifeFromUntouched(h, PRISTINE, ops);
  }

  /**
   * The tier files verify against the last epoch once there is a later epoch than the genesis,
   * because updates and rotations sign what they read back; until then they verify if the
   * founding profile has no `undefined` member, and in the encoder's domain only if.
   */
  lemma {:induction false} TierFilesVerifyExactly(h: Digest, ops: seq<Op>)
    requires Founding(ops).Some?
    ensures var st, p := Life(h, PRISTINE, ops), Founding(ops).value;
      && st.chain != [] && st.detail.Some?
      && (|st.chain| > 1 || ProfileClean(p) ==> TiersVerify(h, st))
      && (ProfileInDomain(p) ==> (TiersVerify(h, st) <==> |st.chain| > 1 || ProfileClean(p)))
  {
    LifeFromUntouched(h, PRISTINE, ops);
  }

  // ---------------------------------------------------------------------------------
  // Reconciliation settles.

  lemma {:induction false} LastWordAppend(events: seq<Event>, more: seq<Event>, add: EventKind, remove: EventKind, v: Text)
    ensures LastWord(events + more, add, remove, v)
            == if LastWord(more, add, remove, v) == Silent then LastWord(events, add, remove, v)
               else LastWord(more, add, remove, v)
    decreases |more|
  {
    if more == [] {
      assert events + more == events;
    } else {
      assert (events + more)[..|events + more| - 1] == events + more[..|more| - 1];
      LastWordAppend(events, more[..|more| - 1], add, remove, v);
    }
  }

  lemma {:induction false} ReplayHasNoRepeats(events: seq<Event>, add: EventKind, remove: EventKind, s: seq<Text>)
    requires NoRepeats(s)
    ensures NoRepeats(Replay(events, add, remove, s))
    decreases |events|
  {
    if events != [] {
      ReplayHasNoRepeats(events[..|events| - 1], add, remove, s);
      RemoveKeepsNoRepeats(Replay(events[..|events| - 1], add, remove, s), events[|events| - 1].value);
    }
  }

  lemma {:induction false} ReplaySetIsSorted(events: seq<Event>, add: EventKind, remove: EventKind, baseline: seq<Text>)
    ensures Increasing(ReplaySet(events, add, remove, baseline)) && NoRepeats(ReplaySet(events, add, remove, baseline))
  {
    UniqueHasNoRepeats(baseline);
    ReplayHasNoRepeats(events, add, remove, Unique(baseline));
    SortTextsKeeps(Replay(events, add, remove, Unique(baseline)));
    SortKeepsNoRepeats(Replay(events, add, remove, Unique(baseline)));
  }

  lemma {:induction false} SameSortedMembers(a: seq<Text>, b: seq<Text>)
    requires SameSorted(a, b)
    ensures forall v :: v in a <==> v in b
  {
    SortedMembers(a);
    SortedMembers(b);
  }

  /** Replaying the same log onto what it gave, with only irrelevant entries added, gives that again. */
  lemma {:induction false} ReplayAgain(
    events: seq<Event>, more: seq<Event>, add: EventKind, remove: EventKind, baseline: seq<Text>, again: seq<Text>)
    requires forall v :: LastWord(more, add, remove, v) == Silent
    requires SameSorted(again, ReplaySet(events, add, remove, baseline))
    ensures ReplaySet(events + more, add, remove, again) == ReplaySet(events, add, remove, baseline)
  {
    var once := ReplaySet(events, add, remove, baseline);
    var twice := ReplaySet(events + more, add, remove, again);
    SameSortedMembers(again, once);
    ReplaySetIsSorted(events, add, remove, baseline);
    ReplaySetIsSorted(events + more, add, remove, again);
    forall v ensures v in once <==> v in twice {
      LastWordAppend(events, more, add, remove, v);
      ReplaySetIsExact(events, add, remove, baseline, v);
      ReplaySetIsExact(events + more, add, remove, again, v);
    }
    SortedSetIsUnique(once, twice);
  }

  /** Replaying the same log onto its own result, however many irrelevant entries follow, gives that result. */
  lemma {:induction false} ReplayIsIdempotent(events: seq<Event>, more: seq<Event>, add: EventKind, remove: EventKind, baseline: seq<Text>)
    requires forall v :: LastWord(more, add, remove, v) == Silent
    ensures var once := ReplaySet(events, add, remove, baseline);
      ReplaySet(events + more, add, remove, once) == once
  {
    ReplayAgain(events, more, add, remove, baseline, ReplaySet(events, add, remove, baseline));
  }

  /** What an applied reconciliation leaves behind: the reported sets, and a log with at most a note added. */
  ghost predicate Settled(st: Store, live: Option<seq<Text>>, after: Store)
    requires st.detail.Some?
  {
    var (events, report) := Reconciliation(st, live);
    && after.detail.Some?
    && SameSorted(after.detail.value.body.capabilities, report.capabilities)
    && SameSorted(after.detail.value.body.limitations, report.limitations)
    && (after.events == events || after.events == events + [Event(OtherEvent, [])])
  }

  lemma {:induction false} ReconcileLeaves(h: Digest, st: Store, live: Option<seq<Text>>, now: int)
    requires Bootstrapped(h, st)
    ensures var r := Reconcile(h, st, live, true, now);
      r.Ok? && Bootstrapped(h, r.value) && Settled(st, live, r.value)
  {
    ReconcileKeeps(h, st, live, true, now);
    var (events, report) := Reconciliation(st, live);
    if report.changed {
      UpdateKeeps(h, st.(events := events), report.capabilities, report.limitations, now);
    }
  }

  lemma {:induction false} NoteSaysNothing(add: EventKind, remove: EventKind, v: Text)
    ensures LastWord([Event(OtherEvent, [])], add, remove, v) == Silent && LastWord([], add, remove, v) == Silent
  {
    assert [Event(OtherEvent, [])][..0] == [];
  }

  /** A note and further adapter entries add nothing to what the log says, if the adapter entries say nothing. */
  lemma {:induction false} NothingNew(note: seq<Event>, found: seq<Event>, add: EventKind, remove: EventKind)
    requires note == [] || note == [Event(OtherEvent, [])]
    requires forall v :: LastWord(found, add, remove, v) == Silent
    ensures forall v :: LastWord(note + found, add, remove, v) == Silent
  {
    forall v ensures LastWord(note + found, add, remove, v) == Silent {
      NoteSaysNothing(add, remove, v);
      LastWordAppend(note, found, add, remove, v);
    }
  }

  /** Once a further adapter comparison says nothing, nothing changes any more. */
  lemma {:induction false} SettledStays(st: Store, live: Option<seq<Text>>, after: Store, live': Option<seq<Text>>)
    requires st.detail.Some? && Settled(st, live, after)
    requires forall v :: LastWord(AdapterEvents(live', after.detail.value.body.capabilities),
                                  CapabilityDiscovered, CapabilityLost, v) == Silent
    ensures !Reconciliation(after, live').1.changed
  {
    var events, declared := Reconciliation(st, live).0, after.detail.value.body.capabilities;
    var note: seq<Event> := if after.events == events then [] else [Event(OtherEvent, [])];
    assert events + [] == events;
    var more := note + AdapterEvents(live', declared);
    SaysNothing(note, live', declared);
    SettledReplays(st.detail.value.body, after.detail.value.body, events, more);
    AppendsAssociate(events, note, AdapterEvents(live', declared));
  }

  lemma {:induction false} AppendsAssociate(a: seq<Event>, b: seq<Event>, c: seq<Event>)
    ensures (a + b) + c == a + (b + c)
  {
  }

  lemma {:induction false} SaysNothing(note: seq<Event>, live: Option<seq<Text>>, declared: seq<Text>)
    requires note == [] || note == [Event(OtherEvent, [])]
    requires forall v :: LastWord(AdapterEvents(live, declared), CapabilityDiscovered, CapabilityLost, v) == Silent
    ensures forall v :: LastWord(note + AdapterEvents(live, declared), CapabilityDiscovered, CapabilityLost, v) == Silent
    ensures forall v :: LastWord(note + AdapterEvents(live, declared), LimitationDiscovered, LimitationResolved, v) == Silent
  {
    var found := AdapterEvents(live, declared);
    NothingNew(note, found, CapabilityDiscovered, CapabilityLost);
    forall v ensures LastWord(found, LimitationDiscovered, LimitationResolved, v) == Silent {
      AdapterIsSilentOnLimitations(live, declared, v);
    }
    NothingNew(note, found, LimitationDiscovered, LimitationResolved);
  }

  lemma {:induction false} SettledReplays(before: DetailBody<Value>, after: DetailBody<Value>, events: seq<Event>, more: seq<Event>)
    requires forall v :: LastWord(more, CapabilityDiscovered, CapabilityLost, v) == Silent
    requires forall v :: LastWord(more, LimitationDiscovered, LimitationResolved, v) == Silent
    requires SameSorted(after.capabilities, ReplaySet(events, CapabilityDiscovered, CapabilityLost, before.capabilities))
    requires SameSorted(after.limitations, ReplaySet(events, LimitationDiscovered, LimitationResolved, before.limitations))
    ensures SameSorted(after.capabilities, ReplaySet(events + more, CapabilityDiscovered, CapabilityLost, after.capabilities))
    ensures SameSorted(after.limitations, ReplaySet(events + more, LimitationDiscovered, LimitationResolved, after.limitations))
  {
    ReplayAgain(events, more, CapabilityDiscovered, CapabilityLost, before.capabilities, after.capabilities);
    ReplayAgain(events, more, LimitationDiscovered, LimitationResolved, before.limitations, after.limitations);
  }

  lemma {:induction false} AdapterIsSilentOnLimitations(live: Option<seq<Text>>, declared: seq<Text>, v: Text)
    ensures LastWord(AdapterEvents(live, declared), LimitationDiscovered, LimitationResolved, v) == Silent
  {
    if live.Some? {
      var found, lost := SortTexts(Missing(Unique(live.value), declared)), SortTexts(Missing(declared, Unique(live.value)));
      EventsSay(CapabilityDiscovered, found, LimitationDiscovered, LimitationResolved, v);
      EventsSay(CapabilityLost, lost, LimitationDiscovered, LimitationResolved, v);
      LastWordAppend(
        Events(CapabilityDiscovered, found), Events(CapabilityLost, lost), LimitationDiscovered, LimitationResolved, v);
    }
  }

  /** Reconciling what was just reconciled, with nothing new in the log, changes nothing. */
  lemma {:induction false} ReconciliationSettles(h: Digest, st: Store, live: Option<seq<Text>>, now: int)
    requires Bootstrapped(h, st)
    ensures var r := Reconcile(h, st, live, true, now);
      r.Ok? && r.value.detail.Some? && !Reconciliation(r.value, None).1.changed
  {
    ReconcileLeaves(h, st, live, now);
    SettledStays(st, live, Reconcile(h, st, live, true, now).value, None);
  }

  // ---------------------------------------------------------------------------------
  // When an attached adapter has the last word.

  lemma {:induction false} EventsSay(kind: EventKind, values: seq<Text>, add: EventKind, remove: EventKind, v: Text)
    requires add != remove
    ensures LastWord(Events(kind, values), add, remove, v)
            == if v == [] || v !in values then Silent else if kind == add then Present else if kind == remove then Absent else Silent
    decreases |values|
  {
    if values != [] {
      var n := |values| - 1;
      assert Events(kind, values)[..n] == Events(kind, values[..n]);
      EventsSay(kind, values[..n], add, remove, v);
      assert v in values <==> v in values[..n] || v == values[n];
    }
  }

  lemma {:induction false} AdapterSays(live: seq<Text>, declared: seq<Text>, v: Text)
    ensures LastWord(AdapterEvents(Some(live), declared), CapabilityDiscovered, CapabilityLost, v)
            == if v == [] || (v in live <==> v in declared) then Silent else if v in live then Present else Absent
  {
    var found, lost := SortTexts(Missing(Unique(live), declared)), SortTexts(Missing(declared, Unique(live)));
    SortedMembers(Missing(Unique(live), declared));
    SortedMembers(Missing(declared, Unique(live)));
    EventsSay(CapabilityDiscovered, found, CapabilityDiscovered, CapabilityLost, v);
    EventsSay(CapabilityLost, lost, CapabilityDiscovered, CapabilityLost, v);
    LastWordAppend(Events(CapabilityDiscovered, found), Events(CapabilityLost, lost), CapabilityDiscovered, CapabilityLost, v);
  }

  /** The older log contradicts neither what the adapter and the card agree is there nor what they agree is not. */
  ghost predicate LogAgreesWithAdapter(events: seq<Event>, live: seq<Text>, declared: seq<Text>) {
    && ([] in live <==> [] in declared)
    && forall v | v != [] && (v in live <==> v in declared) ::
         LastWord(events, CapabilityDiscovered, CapabilityLost, v) != (if v in live then Absent else Present)
  }

  /**
   * Reconciling with an adapter yields exactly its live capabilities if and only if no older
   * log entry contradicts what adapter and declared capabilities already agree on.
   */
  lemma {:induction false} AdapterWinsExactly(st: Store, live: seq<Text>)
    requires st.detail.Some?
    ensures (forall v :: v in Reconciliation(st, Some(live)).1.capabilities <==> v in live)
            <==> LogAgreesWithAdapter(st.events, live, st.detail.value.body.capabilities)
  {
    var declared := st.detail.value.body.capabilities;
    var after := Reconciliation(st, Some(live)).1.capabilities;
    forall v
      ensures (v in after <==> v in live) <==>
        if v == [] then (v in declared <==> v in live)
        else (v in live <==> v in declared) ==>
               LastWord(st.events, CapabilityDiscovered, CapabilityLost, v) != (if v in live then Absent else Present)
    {
      AdapterSays(live, declared, v);
      LastWordAppend(st.events, AdapterEvents(Some(live), declared), CapabilityDiscovered, CapabilityLost, v);
      ReplaySetIsExact(st.events + AdapterEvents(Some(live), declared), CapabilityDiscovered, CapabilityLost, declared, v);
    }
    if forall v :: v in after <==> v in live {
      assert [] in after <==> [] in live;
      forall v | v != [] && (v in live <==> v in declared)
        ensures LastWord(st.events, CapabilityDiscovered, CapabilityLost, v) != (if v in live then Absent else Present)
      {
        assert v in after <==> v in live;
      }
    }
  }

  /** After a second round the log's last word on every capability is the adapter's, or is silent and agrees. */
  lemma {:induction false} SecondRoundAgrees(st: Store, live: seq<Text>, mid: Store, v: Text)
    requires st.detail.Some? && Settled(st, Some(live), mid) && v != []
    ensures v in Reconciliation(mid, Some(live)).1.capabilities <==> v in live
  {
    var events := Reconciliation(st, Some(live)).0;
    var declared := mid.detail.value.body.capabilities;
    var note := mid.events[|events|..];
    assert mid.events == events + note && (note == [] || note == [Event(OtherEvent, [])]);
    NoteSaysNothing(CapabilityDiscovered, CapabilityLost, v);
    LastWordAppend(events, note, CapabilityDiscovered, CapabilityLost, v);
    SameSortedMembers(declared, Reconciliation(st, Some(live)).1.capabilities);
    ReplaySetIsExact(events, CapabilityDiscovered, CapabilityLost, st.detail.value.body.capabilities, v);
    AdapterSays(live, declared, v);
    LastWordAppend(mid.events, AdapterEvents(Some(live), declared), CapabilityDiscovered, CapabilityLost, v);
    ReplaySetIsExact(
      mid.events + AdapterEvents(Some(live), declared), CapabilityDiscovered, CapabilityLost, declared, v);
  }

  /**
   * With an adapter whose live capabilities stay the same, two applied rounds are always
   * enough: the declared capabilities are then the live ones, whatever the log said before,
   * and a third round changes nothing.
   */
  lemma {:induction false} AdapterWinsInTwoRounds(h: Digest, st: Store, live: seq<Text>, now: int, later: int)
    requires Bootstrapped(h, st)
    ensures var first := Reconcile(h, st, Some(live), true, now);
      && first.Ok?
      && var second := Reconcile(h, first.value, Some(live), true, later);
         && second.Ok? && second.value.detail.Some?
         && (forall v :: v != [] ==> (v in second.value.detail.value.body.capabilities <==> v in live))
         && !Reconciliation(second.value, Some(live)).1.changed
  {
    ReconcileLeaves(h, st, Some(live), now);
    var mid := Reconcile(h, st, Some(live), true, now).value;
    ReconcileLeaves(h, mid, Some(live), later);
    var last := Reconcile(h, mid, Some(live), true, later).value;
    SecondRoundWins(st, live, mid, last);
    SettledStays(mid, Some(live), last, Some(live));
  }

  lemma {:induction false} SecondRoundWins(st: Store, live: seq<Text>, mid: Store, last: Store)
    requires st.detail.Some? && Settled(st, Some(live), mid) && Settled(mid, Some(live), last)
    ensures var declared := last.detail.value.body.capabilities;
      && (forall v :: v != [] ==> (v in declared <==> v in live))
      && (forall v :: LastWord(AdapterEvents(Some(live), declared), CapabilityDiscovered, CapabilityLost, v) == Silent)
  {
    var declared := last.detail.value.body.capabilities;
    SameSortedMembers(declared, Reconciliation(mid, Some(live)).1.capabilities);
    forall v
      ensures v != [] ==> (v in declared <==> v in live)
      ensures LastWord(AdapterEvents(Some(live), declared), CapabilityDiscovered, CapabilityLost, v) == Silent
    {
      AdapterSays(live, declared, v);
      if v != [] {
        SecondRoundAgrees(st, live, mid, v);
      }
    }
  }

  // ---------------------------------------------------------------------------------
  // What each operation writes, field by field.

  /** A detail signed by `key` under epoch `number` with these contents, the operator as it was written before. */
  predicate DetailIs(
    d: Detail, key: AgentIdentity, id: PublicKey, number: nat, capabilities: seq<Text>, operator: Value,
    protocols: seq<Text>, limitations: seq<Text>, issuedAt: int)
  {
    && d.body.agentId == id && d.body.number == number && d.body.capabilities == capabilities
    && d.body.operator == Stored(operator) && d.body.protocols == protocols && d.body.limitations == limitations
    && d.body.issuedAt == issuedAt && d.signature.Some? && d.signature.value.signer == PublicKey(key.secret)
  }

  predicate SensitiveIs(
    s: Option<Sensitive>, key: AgentIdentity, id: PublicKey, number: nat, modelName: Text, modelVersion: Text,
    hardware: Value, stack: Value, issuedAt: int)
  {
    && s.Some? && s.value.body.agentId == id && s.value.body.number == number
    && s.value.body.modelName == modelName && s.value.body.modelVersion == modelVersion
    && s.value.body.hardware == Stored(hardware) && s.value.body.stack == Stored(stack)
    && s.value.body.issuedAt == issuedAt && s.value.signature.Some? && s.value.signature.value.signer == PublicKey(key.secret)
  }

  /** Tier 3 is carried over under the next number, or still missing. */
  predicate SensitiveCarried(before: Option<Sensitive>, after: Option<Sensitive>, key: AgentIdentity, number: nat) {
    if before.None? then after.None? else
    var b := before.value.body;
    SensitiveIs(after, key, b.agentId, number, b.modelName, b.modelVersion, b.hardware, b.stack, b.issuedAt)
  }

  predicate EpochIs(
    e: EpochBody, id: PublicKey, number: nat, transition: Transition, key: AgentIdentity, displayName: Text, purpose: Text, issuedAt: int)
  {
    && e.agentId == id && e.number == number && e.transition == transition && e.publicKey == PublicKey(key.secret)
    && e.displayName == displayName && e.purpose == purpose && e.issuedAt == issuedAt
  }

  /** One epoch more, with the names of the last one, and a renewal of a day for it. */
  predicate EpochAdded(before: Store, after: Store, transition: Transition, key: AgentIdentity, now: int)
    requires before.chain != []
  {
    var prior := before.chain[|before.chain| - 1].body;
    && |after.chain| == |before.chain| + 1 && after.chain[..|before.chain|] == before.chain
    && EpochIs(after.chain[|before.chain|].body, prior.agentId, prior.number + 1, transition, key, prior.displayName, prior.purpose, now)
    && after.identity == Some(key) && after.events == before.events
    && after.renewal.Some? && after.renewal.value.body.renewedAt == now
    && after.renewal.value.body.validUntil == now + 86_400_000
  }

  /** A rotation: the tiers as they were, under the next number and the new key. */
  predicate Rotated(before: Store, after: Store, next: AgentIdentity, now: int)
    requires Loadable(before)
  {
    var b, number := before.detail.value.body, Last(before.chain).body.number + 1;
    && EpochAdded(before, after, KeyRotation, next, now) && after.detail.Some?
    && DetailIs(after.detail.value, next, b.agentId, number, b.capabilities, b.operator, b.protocols, b.limitations, b.issuedAt)
    && SensitiveCarried(before.sensitive, after.sensitive, next, number)
  }

  /** An update: the given capabilities and limitations, dated now; everything else as it was. */
  predicate Updated(before: Store, after: Store, capabilities: seq<Text>, limitations: seq<Text>, now: int)
    requires Loadable(before)
  {
    var b, key, number := before.detail.value.body, before.identity.value, Last(before.chain).body.number + 1;
    && EpochAdded(before, after, CapabilityUpdate, key, now) && after.detail.Some?
    && DetailIs(after.detail.value, key, b.agentId, number, capabilities, b.operator, b.protocols, limitations, now)
    && SensitiveCarried(before.sensitive, after.sensitive, key, number)
  }

  lemma {:induction false} SuccessorAdds(
    h: Digest, st: Store, key: AgentIdentity, next: Option<AgentIdentity>, d: Detail, s: Option<Sensitive>, now: int)
    requires Bootstrapped(h, st) && key == st.identity.value
    requires Prepared(h, st, d, s, if next.Some? then next.value else key)
    ensures var active := if next.Some? then next.value else key;
      var r := CreateSuccessor(h, Last(st.chain), key, next, d, s, now);
      && r.Ok?
      && var r2 := Commit(h, st.(identity := Some(active)), r.value, d, s, active, now);
         && r2.Ok? && EpochAdded(st, r2.value, if next.Some? then KeyRotation else CapabilityUpdate, active, now)
         && r2.value.detail == Some(DetailFile(d)) && r2.value.sensitive == FileOf(s)
  {
    CommitKeeps(h, st, key, next, d, s, now);
    var e := CreateSuccessor(h, Last(st.chain), key, next, d, s, now).value;
    assert (st.chain + [e])[..|st.chain|] == st.chain && (st.chain + [e])[|st.chain|] == e;
  }

  lemma {:induction false} RotateWrites(h: Digest, st: Store, next: AgentIdentity, now: int)
    requires Bootstrapped(h, st)
    ensures var r := RotateKey(h, st, next, now); r.Ok? && Rotated(st, r.value, next, now)
  {
    var key, number := st.identity.value, Last(st.chain).body.number + 1;
    var d := ResignDetail(st.detail.value.body, number, next);
    SuccessorAdds(h, st, key, Some(next), d, ResignSensitive(st.sensitive, number, next), now);
  }

  lemma {:induction false} UpdateWrites(h: Digest, st: Store, capabilities: seq<Text>, limitations: seq<Text>, now: int)
    requires Bootstrapped(h, st)
    ensures var r := UpdateCapabilities(h, st, capabilities, limitations, now);
      r.Ok? && Updated(st, r.value, capabilities, limitations, now)
  {
    var key, number := st.identity.value, Last(st.chain).body.number + 1;
    var d := SignDetail(NextDetail(st, capabilities, limitations, now), key);
    SuccessorAdds(h, st, key, None, d, ResignSensitive(st.sensitive, number, key), now);
    assert st.(identity := Some(key)) == st;
  }

  /** What `x ?? y` gives for an object: null or nothing at all stand for `y`. */
  function Else(v: Value, fallback: Value): Value {
    match v
    case Undefined => fallback
    case Null => fallback
    case _ => v
  }

  /** The first epoch and tiers, as the profile gives them. */
  predicate Founded(after: Store, key: AgentIdentity, p: Profile, now: int) {
    var id := PublicKey(key.secret);
    && after.identity == Some(key) && |after.chain| == 1
    && EpochIs(after.chain[0].body, id, 0, Genesis, key, p.displayName, p.purpose, now) && after.detail.Some?
    && DetailIs(after.detail.value, key, id, 0, p.capabilities, Else(p.operator, Null), p.protocols, p.limitations, now)
    && (if p.sensitive.None? then after.sensitive.None? else
        var f := p.sensitive.value;
        SensitiveIs(after.sensitive, key, id, 0, f.modelName, f.modelVersion,
                    Else(f.hardware, Obj([])), Else(f.stack, Obj([])), now))
    && after.renewal.Some? && after.renewal.value.body.renewedAt == now
    && after.renewal.value.body.validUntil == now + 86_400_000
  }

  lemma {:induction false} BootstrapWrites(h: Digest, st: Store, key: AgentIdentity, p: Profile, now: int)
    requires Untouched(st) && Encodable(p)
    ensures var r := Bootstrap(h, st, key, p, now); r.Ok? && Founded(r.value, key, p, now)
  {
  }

  /** When bootstrap refuses, and what it leaves alone, on any store. */
  lemma {:induction false} BootstrapRefuses(h: Digest, st: Store, key: AgentIdentity, p: Profile, now: int)
    ensures var r := Bootstrap(h, st, key, p, now);
      && (r == Err(AlreadyBootstrapped) <==> st.identity.Some?)
      && (r == Err(Unsupported) <==> st.identity.None? && !Encodable(p))
      && (r.Ok? <==> st.identity.None? && Encodable(p))
      && (r.Ok? ==> r.value.events == st.events && (p.sensitive.None? ==> r.value.sensitive == st.sensitive))
  {
  }

  /** Committing an epoch under its own key adds it, renews it for a day and keeps the tier 3 file unless it is given one. */
  lemma {:induction false} CommitWrites(
    h: Digest, st: Store, e: Epoch, d: Detail, s: Option<Sensitive>, active: AgentIdentity, now: int)
    ensures var r := Commit(h, st, e, d, s, active, now);
      && (r.Ok? <==> PublicKey(active.secret) == e.body.publicKey)
      && (r.Ok? ==>
        var after := r.value;
        && after.chain == st.chain + [e] && after.identity == st.identity && after.events == st.events
        && after.detail == Some(DetailFile(d))
        && (s.None? ==> after.sensitive == st.sensitive)
        && (s.Some? ==> after.sensitive == Some(SensitiveFile(s.value)))
        && after.renewal.Some? && VerifyRenewal(h, after.renewal.value, e, now)
        && after.renewal.value.body.validUntil == now + 86_400_000)
  {
  }

  // ---------------------------------------------------------------------------------
  // The object: every method overwrites the files in the order of the original.

  class AgentHarness {
    const h: Digest
    var identity: Option<AgentIdentity>
    var chain: seq<Epoch>
    var detail: Option<Detail>
    var sensitive: Option<Sensitive>
    var renewal: Option<Renewal>
    var log: seq<Event>

    function View(): Store
      reads this
    {
      Store(identity, chain, detail, sensitive, renewal, log)
    }

    constructor (h: Digest)
      ensures this.h == h && View() == PRISTINE
    {
      this.h := h;
      identity, chain, detail, sensitive, renewal, log := None, [], None, None, None, [];
    }

    /** `generateIdentity` supplies `key`. */
    method BootstrapIdentity(key: AgentIdentity, p: Profile, now: int) returns (r: Result<Epoch, AicError>)
      requires StoreInv(h, View())
      modifies this
      ensures StoreInv(h, View())
      ensures r.Err? <==> old(identity).Some? || !Encodable(p)
      ensures r.Err? ==> View() == old(View()) && r.error == (if identity.Some? then AlreadyBootstrapped else Unsupported)
      ensures r.Ok? ==> Bootstrap(h, old(View()), key, p, now) == Ok(View()) && chain == [r.value]
      ensures r.Ok? ==> Founded(View(), key, p, now) && log == old(log)
    {
      if identity.Some? { return Err(AlreadyBootstrapped); }
      if !Encodable(p) { return Err(Unsupported); }
      BootstrapEstablishes(h, View(), key, p, now);
      BootstrapWrites(h, View(), key, p, now);
      var d := SignDetail(FirstDetail(key, p, now), key);
      var s: Option<Sensitive> := None;
      if p.sensitive.Some? {
        s := Some(SignSensitive(FirstSensitive(key, p.sensitive.value, now), key));
      }
      var genesis := CreateGenesis(h, key, p.displayName, p.purpose, d, s, now);
      identity := Some(key);
      chain := [genesis];
      detail := Some(DetailFile(d));
      if s.Some? { sensitive := Some(SensitiveFile(s.value)); }
      renewal := Some(Renew(h, genesis, key, DEFAULT_VALIDITY_MS, now).value);
      return Ok(genesis);
    }

    method CommitNewEpoch(e: Epoch, d: Detail, s: Option<Sensitive>, active: AgentIdentity, now: int)
      requires Commit(h, View(), e, d, s, active, now).Ok?
      modifies this
      ensures Ok(View()) == Commit(h, old(View()), e, d, s, active, now)
      ensures chain == old(chain) + [e] && identity == old(identity) && log == old(log)
      ensures sensitive == if s.Some? then Some(SensitiveFile(s.value)) else old(sensitive)
    {
      chain := chain + [e];
      detail := Some(DetailFile(d));
      if s.Some? { sensitive := Some(SensitiveFile(s.value)); }
      renewal := Some(Renew(h, e, active, DEFAULT_VALIDITY_MS, now).value);
    }

    method UpdateDeclared(capabilities: seq<Text>, limitations: seq<Text>, now: int) returns (e: Epoch)
      requires Bootstrapped(h, View())
      modifies this
      ensures Ok(View()) == UpdateCapabilities(h, old(View()), capabilities, limitations, now)
      ensures Bootstrapped(h, View()) && TiersVerify(h, View()) && chain == old(chain) + [e]
      ensures Updated(old(View()), View(), capabilities, limitations, now)
    {
      UpdateKeeps(h, View(), capabilities, limitations, now);
      UpdateWrites(h, View(), capabilities, limitations, now);
      var key, prior, before := identity.value, Last(chain), detail.value.body;
      var number := prior.body.number + 1;
      var body := DetailBody(prior.body.agentId, number, capabilities, before.operator, before.protocols, limitations, now);
      var d := SignDetail(body, key);
      var s := ResignSensitive(sensitive, number, key);
      e := CreateSuccessor(h, prior, key, None, d, s, now).value;
      CommitNewEpoch(e, d, s, key, now);
    }

    method Rotate(next: AgentIdentity, now: int) returns (e: Epoch)
      requires Bootstrapped(h, View())
      modifies this
      ensures Ok(View()) == RotateKey(h, old(View()), next, now)
      ensures Bootstrapped(h, View()) && TiersVerify(h, View()) && chain == old(chain) + [e]
      ensures identity == Some(next) && Rotated(old(View()), View(), next, now)
    {
      RotateKeeps(h, View(), next, now);
      var key, prior := identity.value, Last(chain);
      var number := prior.body.number + 1;
      var d := ResignDetail(detail.value.body, number, next);
      var s := ResignSensitive(sensitive, number, next);
      e := CreateSuccessor(h, prior, key, Some(next), d, s, now).value;
      identity := Some(next);
      CommitNewEpoch(e, d, s, next, now);
      assert Rotated(old(View()), View(), next, now) by {
        RotateWrites(h, old(View()), next, now);
      }
    }

    method KeepLive(validity: int, now: int) returns (r: Result<Renewal, AicError>)
      requires Bootstrapped(h, View())
      modifies this
      ensures Bootstrapped(h, View())
      ensures r.Ok? ==> Ok(View()) == EnsureLive(h, old(View()), validity, now) && renewal == Some(r.value)
      ensures r.Err? ==> View() == old(View()) && validity > MAX_VALIDITY_MS && r.error == ValidityTooLong
      ensures VerifyRenewal(h, old(renewal).value, Last(old(chain)), now) ==> View() == old(View())
      ensures 0 < validity <= MAX_VALIDITY_MS ==> r.Ok? && VerifyRenewal(h, r.value, Last(chain), now)
    {
      EnsureLiveKeeps(h, View(), validity, now);
      RenewKeeps(h, View(), validity, now);
      if VerifyRenewal(h, renewal.value, Last(chain), now) { return Ok(renewal.value); }
      var renewed := Renew(h, Last(chain), identity.value, validity, now);
      if renewed.Err? { return Err(ValidityTooLong); }
      renewal := Some(renewed.value);
      return Ok(renewed.value);
    }

    method LogAdapter(live: Option<seq<Text>>, declared: seq<Text>)
      modifies this`log
      ensures log == old(log) + AdapterEvents(live, declared)
    {
      if live.Some? {
        var current := Unique(live.value);
        log := log + Events(CapabilityDiscovered, SortTexts(Missing(current, declared)));
        log := log + Events(CapabilityLost, SortTexts(Missing(declared, current)));
      }
    }

    method ReconcileLog(live: Option<seq<Text>>, apply: bool, now: int) returns (report: Report)
      requires Bootstrapped(h, View())
      modifies this
      ensures report == Reconciliation(old(View()), live).1
      ensures Ok(View()) == Reconcile(h, old(View()), live, apply, now) && Bootstrapped(h, View())
    {
      ReconcileKeeps(h, View(), live, apply, now);
      var before := detail.value.body;
      LogAdapter(live, before.capabilities);
      var capabilities := ReplayLoop(log, CapabilityDiscovered, CapabilityLost, before.capabilities);
      var limitations := ReplayLoop(log, LimitationDiscovered, LimitationResolved, before.limitations);
      var changed := !SameSorted(before.capabilities, capabilities) || !SameSorted(before.limitations, limitations);
      report := Report(changed, capabilities, limitations);
      if changed && apply {
        var e := UpdateDeclared(capabilities, limitations, now);
        log := log + [Event(OtherEvent, [])];
      }
    }
  }
}
