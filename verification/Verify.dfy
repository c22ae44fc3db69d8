/** Response verification, and the whole login from issue to acceptance. */
module Verify {
  import opened Basics
  import opened Cbor
  import opened Keys
  import opened Challenge
  import opened NonceStore

  datatype VerifyPolicy = PqOptional | PqRequiredPolicy

  datatype Verified = Verified(
    fingerprint: bytes, publicKey: ClassicalPublicKey, pqPublicKey: Option<PqPublicKey>)

  /** u64 addition as a release build performs it. */
  function WrappingAdd(a: nat, b: nat): nat {
    (a + b) % U64
  }

  function Fingerprint(c: Crypto, k: ClassicalPublicKey): bytes {
    c.blake3(FingerprintPreimage(k))
  }

  function CheckChallenge(chal: Challenge, audience: bytes, now: nat, skew: nat): Res<()> {
    if chal.version != VERSION then Err(Version(chal.version))
    else if chal.audience != audience then Err(Audience)
    else if |chal.nonce| < MIN_NONCE_LEN then Err(NonceTooShort)
    else if WrappingAdd(now, skew) < chal.issuedAt || now > WrappingAdd(chal.expiresAt, skew) then Err(TimeWindow)
    else Ok(())
  }

  function CheckPq(c: Crypto, pq: Option<(PqPublicKey, PqSignature)>, payload: bytes,
                   policy: VerifyPolicy): Res<Option<PqPublicKey>>
  {
    if pq.Some? then
      var _ :- c.verifyPq(pq.value.0, payload, pq.value.1);
      Ok(Some(pq.value.0))
    else if policy == PqRequiredPolicy then Err(PqRequired)
    else Ok(None)
  }

  /** Everything that is checked before the nonce is touched. */
  function CheckResponse(c: Crypto, resp: SignedBody, audience: bytes, now: nat, skew: nat,
                         policy: VerifyPolicy): Res<(bytes, Verified)>
  {
    var chal :- ChallengeFromBytes(resp.body);
    var _ :- CheckChallenge(chal, audience, now, skew);
    var payload := SigningPayload(resp.body);
    var _ :- c.verifyClassical(resp.publicKey, payload, resp.signature);
    var pq :- CheckPq(c, resp.pq, payload, policy);
    Ok((chal.nonce, Verified(Fingerprint(c, resp.publicKey), resp.publicKey, pq)))
  }

  /** The verdict and the store afterwards. */
  function VerifyResponse(c: Crypto, resp: SignedBody, audience: bytes, now: nat, skew: nat,
                          policy: VerifyPolicy, s: Store): (Res<Verified>, Store)
  {
    match CheckResponse(c, resp, audience, now, skew, policy)
    case Err(e) => (Err(e), s)
    case Ok((nonce, who)) =>
      match Consumed(s, nonce, now)
      case Err(e) => (Err(e), s)
      case Ok(next) => (Ok(who), next)
  }

  /** The source's sequence of guards ending in the burn of the nonce. */
  method RunVerification(c: Crypto, resp: SignedBody, audience: bytes, now: nat, skew: nat,
                         policy: VerifyPolicy, store: InMemoryNonceStore) returns (r: Res<Verified>)
    modifies store
    ensures (r, store.issued) == VerifyResponse(c, resp, audience, now, skew, policy, old(store.issued))
    ensures r.Err? ==> store.issued == old(store.issued)
  {
    var parsed := ChallengeFromBytes(resp.body);
    hide ChallengeFromBytes, SigningPayload;
    if parsed.Err? {
      return Err(parsed.error);
    }
    var chal := parsed.value;
    if chal.version != VERSION {
      return Err(Version(chal.version));
    }
    if chal.audience != audience {
      return Err(Audience);
    }
    if |chal.nonce| < MIN_NONCE_LEN {
      return Err(NonceTooShort);
    }
    if WrappingAdd(now, skew) < chal.issuedAt || now > WrappingAdd(chal.expiresAt, skew) {
      return Err(TimeWindow);
    }
    var payload := SigningPayload(resp.body);
    var classical := c.verifyClassical(resp.publicKey, payload, resp.signature);
    if classical.Err? {
      return Err(classical.error);
    }
    var pqPublicKey: Option<PqPublicKey> := None;
    if resp.pq.Some? {
      var pq := c.verifyPq(resp.pq.value.0, payload, resp.pq.value.1);
      if pq.Err? {
        return Err(pq.error);
      }
      pqPublicKey := Some(resp.pq.value.0);
    } else if policy == PqRequiredPolicy {
      return Err(PqRequired);
    }
    var burned := store.Consume(chal.nonce, now);
    if burned.Err? {
      return Err(burned.error);
    }
    r := Ok(Verified(Fingerprint(c, resp.publicKey), resp.publicKey, pqPublicKey));
  }

  // ---- what a verdict means ----

  /** The conditions under which a response is accepted. */
  ghost predicate Acceptable(c: Crypto, resp: SignedBody, audience: bytes, now: nat, skew: nat,
                             policy: VerifyPolicy, s: Store)
  {
    ChallengeFromBytes(resp.body).Ok? &&
    var chal := ChallengeFromBytes(resp.body).value;
    chal.version == 1 && chal.audience == audience && |chal.nonce| >= 16 &&
    chal.issuedAt <= WrappingAdd(now, skew) && now <= WrappingAdd(chal.expiresAt, skew) &&
    c.verifyClassical(resp.publicKey, SigningPayload(resp.body), resp.signature).Ok? &&
    (resp.pq.Some? ==> c.verifyPq(resp.pq.value.0, SigningPayload(resp.body), resp.pq.value.1).Ok?) &&
    (policy == PqRequiredPolicy ==> resp.pq.Some?) &&
    chal.nonce in s && !s[chal.nonce].used && now <= s[chal.nonce].expiresAt
  }

  /** Acceptance is exactly that, burns exactly that nonce and names exactly that key; a rejection
      changes nothing. In particular no skew and no embedded expiry admits a response after the
      expiry recorded at issue, and a present post-quantum signature is never skipped. */
  lemma VerdictExactly(c: Crypto, resp: SignedBody, audience: bytes, now: nat, skew: nat,
                       policy: VerifyPolicy, s: Store)
    ensures var (r, after) := VerifyResponse(c, resp, audience, now, skew, policy, s);
            (r.Ok? <==> Acceptable(c, resp, audience, now, skew, policy, s)) &&
            (r.Err? ==> after == s) &&
            (r.Ok? ==>
              var n := ChallengeFromBytes(resp.body).value.nonce;
              after == s[n := Entry(s[n].expiresAt, true)] && Spent(after, n) &&
              r.value == Verified(c.blake3(FingerprintPreimage(resp.publicKey)), resp.publicKey,
                                  if resp.pq.Some? then Some(resp.pq.value.0) else None))
  {
    hide ChallengeFromBytes, SigningPayload, FingerprintPreimage, WrappingAdd;
  }

  // ---- issuing and answering ----

  function IssueChallenge(s: Store, audience: bytes, ttl: nat, now: nat, nonce: bytes): (Challenge, Store) {
    (Challenge(VERSION, audience, nonce, now, now + ttl), Recorded(s, nonce, now + ttl))
  }

  /** The issuer: a version 1 challenge for the audience, valid from now for ttl seconds, whose nonce is
      recorded as unused until then. */
  method Issue(store: InMemoryNonceStore, audience: bytes, ttl: nat, now: nat, nonce: bytes) returns (chal: Challenge)
    modifies store
    ensures (chal, store.issued) == IssueChallenge(old(store.issued), audience, ttl, now, nonce)
    ensures chal.version == 1 && chal.audience == audience && chal.nonce == nonce
    ensures chal.issuedAt == now && chal.expiresAt == now + ttl
    ensures store.issued == old(store.issued)[nonce := Entry(now + ttl, false)]
  {
    var exp := now + ttl;
    store.RecordIssued(nonce, exp);
    chal := Challenge(VERSION, audience, nonce, now, exp);
  }

  datatype Signer = Signer(
    publicKey: ClassicalPublicKey,
    sign: bytes -> Res<ClassicalSignature>,
    pqPublicKey: Option<PqPublicKey>,
    signPq: bytes -> Res<Option<PqSignature>>)

  function Respond(signer: Signer, chal: Challenge): Res<SignedBody> {
    var body := ChallengeToBytes(chal);
    var payload := SigningPayload(body);
    var signature :- signer.sign(payload);
    var pqSig :- signer.signPq(payload);
    var pq := if signer.pqPublicKey.Some? && pqSig.Some?
              then Some((signer.pqPublicKey.value, pqSig.value)) else None;
    Ok(SignedBody(body, signer.publicKey, signature, pq))
  }

  /** A signer whose signatures verify under the keys it announces. */
  ghost predicate CorrectSigner(c: Crypto, g: Signer) {
    |g.publicKey.raw| < U64 && (g.pqPublicKey.Some? ==> |g.pqPublicKey.value.raw| < U64) &&
    forall p: bytes {:trigger g.sign(p)} ::
      g.sign(p).Ok? && |g.sign(p).value.raw| < U64 &&
      c.verifyClassical(g.publicKey, p, g.sign(p).value).Ok? &&
      g.signPq(p).Ok? &&
      (g.pqPublicKey.Some? && g.signPq(p).value.Some? ==>
        |g.signPq(p).value.value.raw| < U64 &&
        c.verifyPq(g.pqPublicKey.value, p, g.signPq(p).value.value).Ok?)
  }

  ghost predicate SignsPq(g: Signer) {
    g.pqPublicKey.Some? && forall p: bytes :: g.signPq(p).Ok? ==> g.signPq(p).value.Some?
  }

  lemma RespondProps(c: Crypto, g: Signer, chal: Challenge)
    requires CorrectSigner(c, g) && ChallengeFits(chal) && |ChallengeToBytes(chal)| < U64
    ensures Respond(g, chal).Ok?
    ensures var resp := Respond(g, chal).value;
            SignedFits(resp) && resp.body == ChallengeToBytes(chal) && resp.publicKey == g.publicKey &&
            c.verifyClassical(resp.publicKey, SigningPayload(resp.body), resp.signature).Ok? &&
            (resp.pq.Some? ==> c.verifyPq(resp.pq.value.0, SigningPayload(resp.body), resp.pq.value.1).Ok?) &&
            (SignsPq(g) ==> resp.pq.Some?)
  {
    hide ChallengeToBytes, SigningPayload;
    var p := SigningPayload(ChallengeToBytes(chal));
    assert g.sign(p).Ok?;
  }

  /** The answer after a trip over the wire. */
  ghost function Received(resp: SignedBody): SignedBody {
    match SignedFromBytes(CHAL, SignedToBytes(CHAL, resp))
    case Ok(r) => r
    case Err(_) => resp
  }

  /** An issued challenge, answered by a correct signer and sent over the wire, is accepted at
      every time in its window, whatever other traffic the store saw in between, failed attempts on
      its own nonce included (an attempt that fails before the nonce is looked up leaves no trace
      in the store at all). */
  lemma LoginSucceeds(c: Crypto, g: Signer, s: Store, audience: bytes, ttl: nat, issuedAt: nat, nonce: bytes,
                      between: seq<Op>, now: nat, skew: nat, policy: VerifyPolicy)
    requires CorrectSigner(c, g) && (policy == PqRequiredPolicy ==> SignsPq(g))
    requires IsText(audience) && |nonce| == MIN_NONCE_LEN
    requires issuedAt <= now <= issuedAt + ttl && issuedAt + ttl + skew < U64
    requires LeavesAlone(IssueChallenge(s, audience, ttl, issuedAt, nonce).1, between, nonce, now)
    requires |ChallengeToBytes(IssueChallenge(s, audience, ttl, issuedAt, nonce).0)| < U64
    ensures var (chal, s1) := IssueChallenge(s, audience, ttl, issuedAt, nonce);
            Respond(g, chal).Ok? &&
            var resp := Respond(g, chal).value;
            SignedFromBytes(CHAL, SignedToBytes(CHAL, resp)) == Ok(resp) &&
            var (r, after) := VerifyResponse(c, Received(resp), audience, now, skew, policy, RunStore(s1, between));
            r.Ok? && r.value.publicKey == g.publicKey && Spent(after, nonce)
  {
    hide ChallengeToBytes, ChallengeFromBytes, SigningPayload, RunStore, SignedToBytes, SignedFromBytes,
         CorrectSigner, SignsPq, Respond, VerifyResponse, LeavesAlone, IsText;
    var (chal, s1) := IssueChallenge(s, audience, ttl, issuedAt, nonce);
    assert ChallengeFits(chal);
    RespondProps(c, g, chal);
    var resp := Respond(g, chal).value;
    SignedRoundTrip(CHAL, resp);
    ChallengeRoundTrip(chal);
    EntrySurvives(s1, between, nonce, now);
    VerdictExactly(c, resp, audience, now, skew, policy, RunStore(s1, between));
  }

  /** Accepted once, never again: until the nonce is re-issued, no response that carries it is
      accepted, whoever signed it, at any time, skew or policy. */
  lemma AcceptedOnce(c: Crypto, first: SignedBody, audience: bytes, now: nat, skew: nat, policy: VerifyPolicy,
                     s: Store, later: seq<Op>,
                     second: SignedBody, audience': bytes, now': nat, skew': nat, policy': VerifyPolicy)
    requires VerifyResponse(c, first, audience, now, skew, policy, s).0.Ok?
    requires NeverIssues(later, ChallengeFromBytes(first.body).value.nonce)
    requires ChallengeFromBytes(second.body).Ok?
    requires ChallengeFromBytes(second.body).value.nonce == ChallengeFromBytes(first.body).value.nonce
    ensures var after := VerifyResponse(c, first, audience, now, skew, policy, s).1;
            VerifyResponse(c, second, audience', now', skew', policy', RunStore(after, later)).0.Err?
  {
    hide ChallengeFromBytes, SigningPayload, RunStore, VerifyResponse, NeverIssues;
    VerdictExactly(c, first, audience, now, skew, policy, s);
    var n := ChallengeFromBytes(first.body).value.nonce;
    var after := VerifyResponse(c, first, audience, now, skew, policy, s).1;
    SpentStaysSpent(after, later, n);
    VerdictExactly(c, second, audience', now', skew', policy', RunStore(after, later));
  }

  // ---- node attestations ----

  function VerifyNodeAttestation(c: Crypto, att: SignedBody, policy: VerifyPolicy): Res<bytes> {
    var payload := NodeSigningPayload(att.body);
    var _ :- c.verifyClassical(att.publicKey, payload, att.signature);
    var _ :- CheckPq(c, att.pq, payload, policy);
    Ok(Fingerprint(c, att.publicKey))
  }

  function AttestNodeId(g: Signer, nodeId: bytes): Res<SignedBody> {
    var payload := NodeSigningPayload(nodeId);
    var signature :- g.sign(payload);
    var pqSig :- g.signPq(payload);
    var pq := if g.pqPublicKey.Some? && pqSig.Some? then Some((g.pqPublicKey.value, pqSig.value)) else None;
    Ok(SignedBody(nodeId, g.publicKey, signature, pq))
  }

  /** Every verdict on every attestation: accepted exactly when the classical signature verifies, a
      post-quantum one too where there is one, and there is one where it is required; the answer is
      the fingerprint of the key. */
  lemma AttestationVerdictExactly(c: Crypto, att: SignedBody, policy: VerifyPolicy, f: bytes)
    ensures VerifyNodeAttestation(c, att, policy) == Ok(f) <==>
            c.verifyClassical(att.publicKey, NodeSigningPayload(att.body), att.signature).Ok?
            && (att.pq.Some? ==> c.verifyPq(att.pq.value.0, NodeSigningPayload(att.body), att.pq.value.1).Ok?)
            && (policy == PqRequiredPolicy ==> att.pq.Some?)
            && f == c.blake3(FingerprintPreimage(att.publicKey))
  {
    hide NodeSigningPayload, FingerprintPreimage;
  }

  /** A correct signer's attestation survives the wire and verifies as its own fingerprint. */
  lemma AttestationRoundTrip(c: Crypto, g: Signer, nodeId: bytes, policy: VerifyPolicy)
    requires CorrectSigner(c, g) && |nodeId| < U64 && (policy == PqRequiredPolicy ==> SignsPq(g))
    ensures AttestNodeId(g, nodeId).Ok?
    ensures var att := AttestNodeId(g, nodeId).value;
            SignedFromBytes(NODE, SignedToBytes(NODE, att)) == Ok(att) &&
            VerifyNodeAttestation(c, att, policy) == Ok(Fingerprint(c, g.publicKey))
  {
    hide NodeSigningPayload, SignedFromBytes, SignedToBytes, Fingerprint;
    var p := NodeSigningPayload(nodeId);
    assert g.sign(p).Ok?;
    SignedRoundTrip(NODE, AttestNodeId(g, nodeId).value);
  }
}
