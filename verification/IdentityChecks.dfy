/**
 * What the verifiers of the identity records check and what the makers of epochs and renewals
 * refuse (bridge_core/epoch.ts, tiers.ts, renewal.ts), field by field.
 */
module IdentityChecks {
  import opened Common
  import opened Canonical
  import opened Texts
  import opened Identity

  predicate SignedBy<P(==)>(s: Option<Signature<P>>, key: PublicKey, payload: P) {
    s.Some? && s.value.signer == key && s.value.payload == payload
  }

  /** A verifying detail names the epoch, is signed and digested over its own text, and falls in the epoch's categories. */
  lemma {:induction false} VerifiedDetailSays(h: Digest, d: Detail, e: Epoch)
    requires VerifyDetail(h, d, e)
    ensures d.body.agentId == e.body.agentId && d.body.number == e.body.number && Supported(d.body.operator)
    ensures var b := d.body;
      var text := DetailBody(b.agentId, b.number, b.capabilities, Encode(b.operator), b.protocols, b.limitations, b.issuedAt);
      SignedBy(d.signature, e.body.publicKey, text)
      && e.body.detailedDigest == h(OfDetail(Signed(text, d.signature, d.predecessor)))
    ensures Join(DeriveCategories(d.body.capabilities)) == Join(SortTexts(e.body.categories))
  {
  }

  lemma {:induction false} VerifiedSensitiveSays(h: Digest, s: Sensitive, e: Epoch)
    requires VerifySensitive(h, s, e)
    ensures s.body.agentId == e.body.agentId && s.body.number == e.body.number
    ensures Supported(s.body.hardware) && Supported(s.body.stack)
    ensures var b := s.body;
      var text := SensitiveBody(b.agentId, b.number, b.modelName, b.modelVersion, Encode(b.hardware), Encode(b.stack), b.issuedAt);
      SignedBy(s.signature, e.body.publicKey, text)
      && e.body.sensitiveDigest == Some(h(OfSensitive(Signed(text, s.signature, s.predecessor))))
  {
  }

  /** The first epoch of a chain, and each next one: signed by its own key, linked, and a new key only by the old one's leave. */
  lemma {:induction false} VerifiedEpochSays(h: Digest, chain: seq<Epoch>, i: nat)
    requires ChainVerifies(h, chain) && i < |chain|
    ensures var e := chain[i].body;
      && SignedBy(chain[i].signature, e.publicKey, e)
      && (i == 0 ==> e.number == 0 && e.transition == Genesis && e.prior == None)
      && (i > 0 ==>
        var p := chain[i - 1];
        && e.number == p.body.number + 1 && e.agentId == p.body.agentId && e.prior == Some(h(OfEpoch(p)))
        && (e.publicKey != p.body.publicKey ==> e.transition == KeyRotation)
        && (e.transition == KeyRotation ==> SignedBy(chain[i].predecessor, p.body.publicKey, e)))
  {
    if i > 0 {
      assert Linked(h, chain, i);
    }
  }

  /** A renewal verifies for its own epoch and agent, from a minute before its issue until it runs out. */
  lemma {:induction false} RenewalVerifiesExactly(h: Digest, r: Renewal, e: Epoch, at: int)
    ensures VerifyRenewal(h, r, e, at) <==>
      && r.body.agentId == e.body.agentId && r.body.epochDigest == h(OfEpoch(e))
      && SignedBy(r.signature, e.body.publicKey, r.body)
      && r.body.renewedAt - 60_000 <= at < r.body.validUntil
  {
  }

  /** A renewal is made by the epoch's key for at most seven days. */
  lemma {:induction false} RenewExactly(h: Digest, e: Epoch, key: AgentIdentity, validity: int, now: int)
    ensures var r := Renew(h, e, key, validity, now);
      && (r == Err(WrongKey) <==> PublicKey(key.secret) != e.body.publicKey)
      && (r == Err(ValidityTooLong) <==> PublicKey(key.secret) == e.body.publicKey && validity > 604_800_000)
      && (r.Ok? <==> PublicKey(key.secret) == e.body.publicKey && validity <= 604_800_000)
      && (r.Ok? ==> r.value.body.renewedAt == now && r.value.body.validUntil == now + validity && RenewalBound(h, r.value, e))
  {
  }

  predicate Follows(number: nat, agent: PublicKey, prior: EpochBody) { number == prior.number + 1 && agent == prior.agentId }

  /** What a successor epoch is refused for, in order. */
  lemma {:induction false} SuccessorRefusals(
    h: Digest, prior: Epoch, current: AgentIdentity, next: Option<AgentIdentity>, d: Detail, s: Option<Sensitive>, now: int)
    requires TiersSupported(d, s)
    ensures var r := CreateSuccessor(h, prior, current, next, d, s, now);
      var signed := SignedBy(prior.signature, prior.body.publicKey, prior.body);
      var own := PublicKey(current.secret) == prior.body.publicKey;
      var fits := Follows(d.body.number, d.body.agentId, prior.body)
                  && (s.Some? ==> Follows(s.value.body.number, s.value.body.agentId, prior.body));
      && (r == Err(BadSignature) <==> !signed)
      && (r == Err(WrongKey) <==> signed && !own)
      && (r == Err(Mismatch) <==> signed && own && !fits)
      && (r.Ok? <==> signed && own && fits)
  {
  }

  /**
   * A successor epoch carries the names of the one before, the digests of its own tiers and its
   * own key's signature; the key before signs too if and only if it hands over.
   */
  lemma {:induction false} SuccessorSays(
    h: Digest, prior: Epoch, current: AgentIdentity, next: Option<AgentIdentity>, d: Detail, s: Option<Sensitive>, now: int)
    requires TiersSupported(d, s) && CreateSuccessor(h, prior, current, next, d, s, now).Ok?
    ensures var e := CreateSuccessor(h, prior, current, next, d, s, now).value;
      var active := PublicKey((if next.Some? then next.value else current).secret);
      && e.body.publicKey == active && SignedBy(e.signature, active, e.body)
      && (if next.Some? then e.body.transition == KeyRotation && SignedBy(e.predecessor, prior.body.publicKey, e.body)
          else e.body.transition == CapabilityUpdate && e.predecessor == None)
      && e.body.prior == Some(h(OfEpoch(prior))) && e.body.issuedAt == now
      && e.body.displayName == prior.body.displayName && e.body.purpose == prior.body.purpose
      && e.body.categories == DeriveCategories(d.body.capabilities)
      && e.body.detailedDigest == DetailDigest(h, d)
      && e.body.sensitiveDigest == (if s.Some? then Some(SensitiveDigest(h, s.value)) else None)
  {
    SuccessorRefusals(h, prior, current, next, d, s, now);
  }
}
