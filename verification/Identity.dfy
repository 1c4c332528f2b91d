/**
 * The agent identity records (bridge_core/epoch.ts, tiers.ts, renewal.ts and the signing
 * half of crypto.ts) over ideal signatures: a signature names its key and what it was taken
 * over, and verifies exactly for those.  Signatures and digests are taken over canonical
 * text, so the free-form fields of the tiers enter them as their texts; the digest of a
 * whole record is a parameter.
 */
module Identity {
  import opened Common
  import opened Canonical
  import opened CanonicalTheory
  import opened Stringify
  import opened Texts

  /** A key pair is its secret; the public half determines it. */
  datatype PublicKey = PublicKey(secret: nat)

  datatype AgentIdentity = AgentIdentity(secret: nat) {
    function PublicB64(): PublicKey { PublicKey(secret) }
    function AgentId(): PublicKey { PublicKey(secret) }
  }

  /** `payload` is the canonical form of the record that was signed. */
  datatype Signature<P> = Signature(signer: PublicKey, payload: P)

  /** A record: its unsigned fields, and the signature fields that `unsigned` strips. */
  datatype Signed<T, P> = Signed(body: T, signature: Option<Signature<P>>, predecessor: Option<Signature<P>>)

  function Sign<T, P>(body: T, payload: P, key: AgentIdentity): Signed<T, P> {
    Signed(body, Some(Signature(key.PublicB64(), payload)), None)
  }

  function SignPredecessor(e: Epoch, key: AgentIdentity): Epoch {
    e.(predecessor := Some(Signature(key.PublicB64(), e.body)))
  }

  predicate Verifies<P(==)>(signature: Option<Signature<P>>, payload: P, key: PublicKey) {
    signature == Some(Signature(key, payload))
  }

  datatype Transition = Genesis | CapabilityUpdate | KeyRotation

  datatype EpochBody = EpochBody(
    agentId: PublicKey, number: nat, transition: Transition, prior: Option<string>, publicKey: PublicKey,
    displayName: Text, purpose: Text, categories: seq<Text>,
    detailedDigest: string, sensitiveDigest: Option<string>, issuedAt: int)

  /** Tier 2; the operator is an arbitrary object, or its canonical text. */
  datatype DetailBody<V> = DetailBody(
    agentId: PublicKey, number: nat, capabilities: seq<Text>, operator: V, protocols: seq<Text>,
    limitations: seq<Text>, issuedAt: int)

  /** Tier 3; hardware and software stack likewise. */
  datatype SensitiveBody<V> = SensitiveBody(
    agentId: PublicKey, number: nat, modelName: Text, modelVersion: Text, hardware: V, stack: V, issuedAt: int)

  datatype RenewalBody = RenewalBody(agentId: PublicKey, epochDigest: string, renewedAt: int, validUntil: int)

  type Epoch = Signed<EpochBody, EpochBody>
  type Detail = Signed<DetailBody<Value>, DetailBody<Text>>
  type Sensitive = Signed<SensitiveBody<Value>, SensitiveBody<Text>>
  type Renewal = Signed<RenewalBody, RenewalBody>

  /** Anything whose digest is taken, in canonical form, signatures included. */
  datatype Record =
    | OfEpoch(e: Epoch)
    | OfDetail(d: Signed<DetailBody<Text>, DetailBody<Text>>)
    | OfSensitive(s: Signed<SensitiveBody<Text>, SensitiveBody<Text>>)

  type Digest = Record -> string

  datatype AicError = NotBootstrapped | AlreadyBootstrapped | BadSignature | WrongKey | Mismatch | ValidityTooLong | Unsupported

  // ---------------------------------------------------------------------------------
  // Tiers.

  const DOT: Unit := 0x2E

  /** `capability.split(".", 1)[0]`. */
  function Category(capability: Text): Text {
    if capability == [] || capability[0] == DOT then [] else [capability[0]] + Category(capability[1..])
  }

  function CategoriesOf(capabilities: seq<Text>): (r: seq<Text>)
    ensures forall c :: c in r <==> exists i :: 0 <= i < |capabilities| && capabilities[i] != [] && Category(capabilities[i]) == c
  {
    if capabilities == [] then [] else
    var rest := CategoriesOf(capabilities[1..]);
    var r := (if capabilities[0] == [] then [] else [Category(capabilities[0])]) + rest;
    assert forall i :: 0 < i < |capabilities| ==> capabilities[i] == capabilities[1..][i - 1];
    assert forall i :: 0 <= i < |capabilities[1..]| ==> capabilities[1..][i] == capabilities[i + 1];
    r
  }

  function DeriveCategories(capabilities: seq<Text>): seq<Text> {
    SortTexts(Unique(CategoriesOf(capabilities)))
  }

  /** The category of a capability is what precedes its first dot, or all of it. */
  lemma {:induction false} CategoryIsFirstSegment(capability: Text)
    ensures var c := Category(capability);
      && c <= capability && 0x2E !in c && (|c| < |capability| ==> capability[|c|] == 0x2E)
  {
    if capability != [] && capability[0] != DOT {
      CategoryIsFirstSegment(capability[1..]);
      assert capability == [capability[0]] + capability[1..];
    }
  }

  /**
   * The derived categories are in the order of their code units, without repetition, and are
   * exactly those some declared capability falls in.
   */
  lemma {:induction false} CategoriesAreExact(capabilities: seq<Text>)
    ensures var cs := DeriveCategories(capabilities);
      && (forall i, j :: 0 <= i < j < |cs| ==> Before(cs[i], cs[j]) && cs[i] != cs[j])
      && forall c :: c in cs <==> exists i :: 0 <= i < |capabilities| && capabilities[i] != [] && Category(capabilities[i]) == c
  {
    var found := Unique(CategoriesOf(capabilities));
    SortTextsByUnits(found);
    SortedMembers(found);
    UniqueHasNoRepeats(CategoriesOf(capabilities));
    SortKeepsNoRepeats(found);
  }

  /** `value ?? fallback`. */
  function Given(v: Value, fallback: Value): Value { if v.Undefined? || v.Null? then fallback else v }

  predicate DetailSupported(b: DetailBody<Value>) { Supported(b.operator) }

  predicate SensitiveSupported(b: SensitiveBody<Value>) { Supported(b.hardware) && Supported(b.stack) }

  function DetailText(b: DetailBody<Value>): DetailBody<Text>
    requires DetailSupported(b)
  {
    DetailBody(b.agentId, b.number, b.capabilities, Encode(b.operator), b.protocols, b.limitations, b.issuedAt)
  }

  function SensitiveText(b: SensitiveBody<Value>): SensitiveBody<Text>
    requires SensitiveSupported(b)
  {
    SensitiveBody(b.agentId, b.number, b.modelName, b.modelVersion, Encode(b.hardware), Encode(b.stack), b.issuedAt)
  }

  function DetailDigest(h: Digest, d: Detail): string
    requires DetailSupported(d.body)
  {
    h(OfDetail(Signed(DetailText(d.body), d.signature, d.predecessor)))
  }

  function SensitiveDigest(h: Digest, s: Sensitive): string
    requires SensitiveSupported(s.body)
  {
    h(OfSensitive(Signed(SensitiveText(s.body), s.signature, s.predecessor)))
  }

  function SignDetail(b: DetailBody<Value>, key: AgentIdentity): Detail
    requires DetailSupported(b)
  {
    Sign(b, DetailText(b), key)
  }

  function SignSensitive(b: SensitiveBody<Value>, key: AgentIdentity): Sensitive
    requires SensitiveSupported(b)
  {
    Sign(b, SensitiveText(b), key)
  }

  predicate VerifyDetail(h: Digest, d: Detail, e: Epoch) {
    && d.body.agentId == e.body.agentId && d.body.number == e.body.number
    && DetailSupported(d.body) && e.body.detailedDigest == DetailDigest(h, d)
    && Verifies(d.signature, DetailText(d.body), e.body.publicKey)
    && Join(DeriveCategories(d.body.capabilities)) == Join(SortTexts(e.body.categories))
  }

  predicate VerifySensitive(h: Digest, s: Sensitive, e: Epoch) {
    && s.body.agentId == e.body.agentId && s.body.number == e.body.number
    && SensitiveSupported(s.body) && e.body.sensitiveDigest == Some(SensitiveDigest(h, s))
    && Verifies(s.signature, SensitiveText(s.body), e.body.publicKey)
  }

  // ---------------------------------------------------------------------------------
  // Tiers as their files hold them.

  predicate DetailClean(b: DetailBody<Value>) { Clean(b.operator) }

  predicate SensitiveClean(b: SensitiveBody<Value>) { Clean(b.hardware) && Clean(b.stack) }

  function DetailFile(d: Detail): Detail { d.(body := d.body.(operator := Stored(d.body.operator))) }

  function SensitiveFile(s: Sensitive): Sensitive {
    s.(body := s.body.(hardware := Stored(s.body.hardware), stack := Stored(s.body.stack)))
  }

  lemma {:induction false} FilesAreClean(d: Detail, s: Sensitive)
    ensures DetailClean(DetailFile(d).body) && SensitiveClean(SensitiveFile(s).body)
    ensures DetailSupported(d.body) ==> DetailSupported(DetailFile(d).body)
    ensures SensitiveSupported(s.body) ==> SensitiveSupported(SensitiveFile(s).body)
  {
    StoredIsClean(d.body.operator);
    StoredIsClean(s.body.hardware);
    StoredIsClean(s.body.stack);
    if DetailSupported(d.body) {
      StoredIsSupported(d.body.operator);
    }
    if SensitiveSupported(s.body) {
      StoredIsSupported(s.body.hardware);
      StoredIsSupported(s.body.stack);
    }
  }

  /** A clean detail reads back with the text it was signed over. */
  lemma {:induction false} CleanDetailSurvives(h: Digest, d: Detail, e: Epoch)
    requires VerifyDetail(h, d, e) && DetailClean(d.body)
    ensures VerifyDetail(h, DetailFile(d), e)
  {
    StoredKeepsText(d.body.operator);
    assert DetailText(DetailFile(d).body) == DetailText(d.body);
  }

  lemma {:induction false} CleanSensitiveSurvives(h: Digest, s: Sensitive, e: Epoch)
    requires VerifySensitive(h, s, e) && SensitiveClean(s.body)
    ensures VerifySensitive(h, SensitiveFile(s), e)
  {
    StoredKeepsText(s.body.hardware);
    StoredKeepsText(s.body.stack);
    assert SensitiveText(SensitiveFile(s).body) == SensitiveText(s.body);
  }

  /** A verifying detail still verifies after it was written and read back exactly when its operator is clean. */
  lemma {:induction false} DetailSurvivesExactly(h: Digest, d: Detail, e: Epoch)
    requires VerifyDetail(h, d, e) && InDomain(d.body.operator)
    ensures VerifyDetail(h, DetailFile(d), e) <==> DetailClean(d.body)
  {
    StoredKeepsTextExactly(d.body.operator);
    if DetailClean(d.body) {
      CleanDetailSurvives(h, d, e);
    }
  }

  lemma {:induction false} SensitiveSurvivesExactly(h: Digest, s: Sensitive, e: Epoch)
    requires VerifySensitive(h, s, e) && InDomain(s.body.hardware) && InDomain(s.body.stack)
    ensures VerifySensitive(h, SensitiveFile(s), e) <==> SensitiveClean(s.body)
  {
    StoredKeepsTextExactly(s.body.hardware);
    StoredKeepsTextExactly(s.body.stack);
    if SensitiveClean(s.body) {
      CleanSensitiveSurvives(h, s, e);
    }
  }

  // ---------------------------------------------------------------------------------
  // Epochs.

  predicate TiersSupported(d: Detail, s: Option<Sensitive>) {
    DetailSupported(d.body) && (s.Some? ==> SensitiveSupported(s.value.body))
  }

  function SensitiveDigestOf(h: Digest, s: Option<Sensitive>): Option<string>
    requires s.Some? ==> SensitiveSupported(s.value.body)
  {
    if s.Some? then Some(SensitiveDigest(h, s.value)) else None
  }

  function CreateGenesis(h: Digest, key: AgentIdentity, displayName: Text, purpose: Text,
                         d: Detail, s: Option<Sensitive>, now: int): Epoch
    requires TiersSupported(d, s)
  {
    var body := EpochBody(key.AgentId(), 0, Genesis, None, key.PublicB64(), displayName, purpose,
                          DeriveCategories(d.body.capabilities), DetailDigest(h, d), SensitiveDigestOf(h, s), now);
    Sign(body, body, key)
  }

  /** `next` is the new identity of a key rotation; without it the transition is a capability update. */
  function CreateSuccessor(h: Digest, prior: Epoch, current: AgentIdentity, next: Option<AgentIdentity>,
                           d: Detail, s: Option<Sensitive>, now: int): Result<Epoch, AicError>
    requires TiersSupported(d, s)
  {
    if !Verifies(prior.signature, prior.body, prior.body.publicKey) then Err(BadSignature)
    else if current.PublicB64() != prior.body.publicKey then Err(WrongKey)
    else if d.body.number != prior.body.number + 1 || d.body.agentId != prior.body.agentId then Err(Mismatch)
    else if s.Some? && (s.value.body.number != prior.body.number + 1 || s.value.body.agentId != prior.body.agentId)
    then Err(Mismatch)
    else
      var active := if next.Some? then next.value else current;
      var body := EpochBody(prior.body.agentId, prior.body.number + 1,
                            if next.Some? then KeyRotation else CapabilityUpdate,
                            Some(h(OfEpoch(prior))), active.PublicB64(), prior.body.displayName, prior.body.purpose,
                            DeriveCategories(d.body.capabilities), DetailDigest(h, d), SensitiveDigestOf(h, s), now);
      var signed := Sign(body, body, active);
      Ok(if next.Some? then SignPredecessor(signed, current) else signed)
  }

  predicate VerifyGenesis(e: Epoch) {
    && Verifies(e.signature, e.body, e.body.publicKey)
    && e.body.number == 0 && e.body.transition == Genesis && e.body.prior == None
  }

  predicate VerifySuccessor(h: Digest, e: Epoch, prior: Epoch) {
    && Verifies(e.signature, e.body, e.body.publicKey)
    && e.body.number == prior.body.number + 1
    && e.body.agentId == prior.body.agentId
    && e.body.prior == Some(h(OfEpoch(prior)))
    && (if e.body.transition == KeyRotation then Verifies(e.predecessor, e.body, prior.body.publicKey)
        else e.body.publicKey == prior.body.publicKey)
  }

  ghost predicate ChainVerifies(h: Digest, chain: seq<Epoch>) {
    && chain != [] && VerifyGenesis(chain[0])
    && forall i :: 0 < i < |chain| ==> Linked(h, chain, i)
  }

  ghost predicate Linked(h: Digest, chain: seq<Epoch>, i: int)
    requires 0 < i < |chain|
  {
    VerifySuccessor(h, chain[i], chain[i - 1])
  }

  /** `verifyChain`. */
  method VerifyChain(h: Digest, chain: seq<Epoch>) returns (ok: bool)
    ensures ok <==> ChainVerifies(h, chain)
  {
    if chain == [] { return false; }
    if !VerifyGenesis(chain[0]) { return false; }
    for i := 1 to |chain|
      invariant forall j :: 0 < j < i ==> Linked(h, chain, j)
    {
      assert Linked(h, chain, i) <==> VerifySuccessor(h, chain[i], chain[i - 1]);
      if !VerifySuccessor(h, chain[i], chain[i - 1]) { return false; }
    }
    return true;
  }

  // ---------------------------------------------------------------------------------
  // Renewals.  Times are milliseconds.

  const DEFAULT_VALIDITY_MS := 24 * 60 * 60 * 1000
  const MAX_VALIDITY_MS := 7 * 24 * 60 * 60 * 1000

  function Renew(h: Digest, e: Epoch, key: AgentIdentity, validity: int, now: int): Result<Renewal, AicError> {
    if key.PublicB64() != e.body.publicKey then Err(WrongKey)
    else if validity > MAX_VALIDITY_MS then Err(ValidityTooLong)
    else
      var body := RenewalBody(e.body.agentId, h(OfEpoch(e)), now, now + validity);
      Ok(Sign(body, body, key))
  }

  /** The part of `verifyRenewal` that does not look at the clock. */
  predicate RenewalBound(h: Digest, r: Renewal, e: Epoch) {
    && r.body.agentId == e.body.agentId && r.body.epochDigest == h(OfEpoch(e))
    && Verifies(r.signature, r.body, e.body.publicKey)
  }

  predicate VerifyRenewal(h: Digest, r: Renewal, e: Epoch, at: int) {
    RenewalBound(h, r, e) && r.body.validUntil > at && r.body.renewedAt <= at + 60_000
  }

  // ---------------------------------------------------------------------------------
  // A chain is tamper-evident.

  ghost predicate CollisionFree(h: Digest) {
    forall a, b :: h(a) == h(b) ==> a == b
  }

  lemma {:induction false} ChainPrefix(h: Digest, chain: seq<Epoch>, n: nat)
    requires ChainVerifies(h, chain) && 0 < n <= |chain|
    ensures ChainVerifies(h, chain[..n])
  {
    forall i | 0 < i < n ensures Linked(h, chain[..n], i) {
      assert Linked(h, chain, i);
    }
  }

  lemma {:induction false} ChainNumbers(h: Digest, chain: seq<Epoch>, i: nat)
    requires ChainVerifies(h, chain) && i < |chain|
    ensures chain[i].body.number == i && chain[i].body.agentId == chain[0].body.agentId
  {
    if i > 0 {
      ChainNumbers(h, chain, i - 1);
      assert Linked(h, chain, i);
    }
  }

  /** Under a collision-free digest, the last epoch determines the whole verifying chain. */
  lemma {:induction false} LastEpochDeterminesChain(h: Digest, a: seq<Epoch>, b: seq<Epoch>)
    requires CollisionFree(h) && ChainVerifies(h, a) && ChainVerifies(h, b)
    requires a[|a| - 1] == b[|b| - 1]
    ensures a == b
    decreases |a|
  {
    var m, n := |a| - 1, |b| - 1;
    ChainNumbers(h, a, m);
    ChainNumbers(h, b, n);
    assert m == n;
    if m > 0 {
      assert Linked(h, a, m) && Linked(h, b, n);
      assert OfEpoch(a[m - 1]) == OfEpoch(b[n - 1]);
      ChainPrefix(h, a, m);
      ChainPrefix(h, b, n);
      LastEpochDeterminesChain(h, a[..m], b[..n]);
      assert a == a[..m] + [a[m]] && b == b[..n] + [b[n]];
    }
  }

  // ---------------------------------------------------------------------------------
  // Custody of the key.

  /** The rotations among the first `n` epochs. */
  function Handovers(chain: seq<Epoch>, n: nat): seq<Epoch>
    requires 0 < n <= |chain|
  {
    if n == 1 then [] else
    Handovers(chain, n - 1) + (if chain[n - 1].body.transition == KeyRotation then [chain[n - 1]] else [])
  }

  /** The genesis key, and the key of each rotation. */
  function Holders(genesis: PublicKey, handovers: seq<Epoch>): seq<PublicKey> {
    if handovers == [] then [genesis]
    else Holders(genesis, handovers[..|handovers| - 1]) + [handovers[|handovers| - 1].body.publicKey]
  }

  /** Each handover is signed by the key before it and by the key it introduces. */
  ghost predicate InCustody(genesis: PublicKey, handovers: seq<Epoch>)
    decreases |handovers|
  {
    handovers == [] ||
      var rest, last := handovers[..|handovers| - 1], handovers[|handovers| - 1];
      && InCustody(genesis, rest)
      && |Holders(genesis, rest)| == |handovers|
      && last.body.transition == KeyRotation
      && last.predecessor == Some(Signature(Holders(genesis, rest)[|rest|], last.body))
      && last.signature == Some(Signature(last.body.publicKey, last.body))
  }

  /**
   * Chain of custody: in a verifying chain the key of every epoch is reached from the genesis
   * key by the rotations up to it, each signed by the key before and by the new key.
   */
  lemma {:induction false} KeyIsInCustody(h: Digest, chain: seq<Epoch>, n: nat)
    requires ChainVerifies(h, chain) && 0 < n <= |chain|
    ensures var genesis, handovers := chain[0].body.publicKey, Handovers(chain, n);
      && InCustody(genesis, handovers)
      && |Holders(genesis, handovers)| == |handovers| + 1
      && Holders(genesis, handovers)[|handovers|] == chain[n - 1].body.publicKey
  {
    if n > 1 {
      KeyIsInCustody(h, chain, n - 1);
      assert Linked(h, chain, n - 1);
      if chain[n - 1].body.transition == KeyRotation {
        CustodyPasses(chain[0].body.publicKey, Handovers(chain, n - 1), chain[n - 1]);
      } else {
        assert Handovers(chain, n) == Handovers(chain, n - 1);
      }
    }
  }

  lemma {:induction false} CustodyPasses(genesis: PublicKey, before: seq<Epoch>, last: Epoch)
    requires InCustody(genesis, before) && |Holders(genesis, before)| == |before| + 1
    requires last.body.transition == KeyRotation && Verifies(last.signature, last.body, last.body.publicKey)
    requires Verifies(last.predecessor, last.body, Holders(genesis, before)[|before|])
    ensures var after := before + [last];
      && InCustody(genesis, after) && |Holders(genesis, after)| == |after| + 1
      && Holders(genesis, after)[|after|] == last.body.publicKey
  {
    var after := before + [last];
    assert after[..|after| - 1] == before && after[|after| - 1] == last;
  }

  /** `verifyChain` does not compare the agent id with the genesis key: any id verifies over any key. */
  lemma {:induction false} ForeignAgentIdVerifies(h: Digest, key: AgentIdentity, id: PublicKey)
    ensures exists chain: seq<Epoch> :: ChainVerifies(h, chain) && chain[0].body.publicKey == key.PublicB64() && chain[0].body.agentId == id
  {
    var body := EpochBody(id, 0, Genesis, None, key.PublicB64(), [], [], [], "", None, 0);
    var chain := [Sign(body, body, key)];
    assert ChainVerifies(h, chain);
  }
}
