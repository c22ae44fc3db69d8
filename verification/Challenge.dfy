/** Challenge, response and node attestation on the wire, and what they sign. */
module Challenge {
  import opened Basics
  import opened Cbor
  import opened CborProofs
  import opened CborMaps
  import opened Keys
  import StateRecordProofs
  import StateChain

  const VERSION: nat := 1
  const CONTEXT: bytes := Ascii("identikey-auth/v1")
  const PURPOSE_CHALLENGE: bytes := Ascii("challenge")
  const PURPOSE_NODE: bytes := Ascii("node-attestation")
  const MIN_NONCE_LEN: nat := 16

  // ---- challenges ----

  datatype Challenge = Challenge(
    version: nat, audience: bytes, nonce: bytes, issuedAt: nat, expiresAt: nat)

  ghost predicate ChallengeFits(c: Challenge) {
    c.version < U64 && IsText(c.audience) && |c.nonce| < U64 && c.issuedAt < U64 && c.expiresAt < U64
  }

  function ChallengeEntries(c: Challenge): Entries {
    [Keyed(V, Uint(c.version)), Keyed(AUD, Text(c.audience)), Keyed(NONCE, Bytes(c.nonce)),
     Keyed(IAT, Uint(c.issuedAt)), Keyed(EXP, Uint(c.expiresAt))]
  }

  function ChallengeToBytes(c: Challenge): bytes {
    Encode(Map(ChallengeEntries(c)))
  }

  function ReadChallenge(v: Value): Res<Challenge> {
    var version :- GetUint(v, V);
    var audience :- GetText(v, AUD);
    var nonce :- GetBytes(v, NONCE);
    var issuedAt :- GetUint(v, IAT);
    var expiresAt :- GetUint(v, EXP);
    Ok(Challenge(version, audience, nonce, issuedAt, expiresAt))
  }

  function ChallengeFromBytes(b: bytes): Res<Challenge> {
    var v :- FromBytes(b);
    ReadChallenge(v)
  }

  ghost function ChallengeLookup(c: Challenge, x: bytes): Option<Value> {
    if x == V then Some(Uint(c.version))
    else if x == AUD then Some(Text(c.audience))
    else if x == NONCE then Some(Bytes(c.nonce))
    else if x == IAT then Some(Uint(c.issuedAt))
    else if x == EXP then Some(Uint(c.expiresAt))
    else None
  }

  const CHALLENGE_KEYS: set<bytes> := {V, AUD, NONCE, IAT, EXP}

  /** The decoder reads exactly the five known fields. */
  lemma ReadChallengeLookups(es: Entries, c: Challenge)
    ensures ReadChallenge(Map(es)) == Ok(c) <==>
            forall x :: x in CHALLENGE_KEYS ==> Lookup(es, x) == ChallengeLookup(c, x)
  {
    hide Lookup;
    Names();
    if forall x :: x in CHALLENGE_KEYS ==> Lookup(es, x) == ChallengeLookup(c, x) {
      assert Lookup(es, V) == ChallengeLookup(c, V);
      assert Lookup(es, AUD) == ChallengeLookup(c, AUD);
      assert Lookup(es, NONCE) == ChallengeLookup(c, NONCE);
      assert Lookup(es, IAT) == ChallengeLookup(c, IAT);
      assert Lookup(es, EXP) == ChallengeLookup(c, EXP);
    }
  }

  lemma ChallengeEntriesProps(c: Challenge)
    ensures Distinct(ChallengeEntries(c)) && TextKeys(ChallengeEntries(c))
    ensures forall x :: Lookup(ChallengeEntries(c), x) == ChallengeLookup(c, x)
    ensures forall e :: e in ChallengeEntries(c) ==> IsText(e.key)
  {
    hide IsText, Distinct, Lookup;
    Names();
    NamesAreText();
    var es := ChallengeEntries(c);
    DistinctByIndex(es);
    assert forall e :: e in es <==> e == es[0] || e == es[1] || e == es[2] || e == es[3] || e == es[4];
    forall x
      ensures Lookup(es, x) == ChallengeLookup(c, x)
    {
      StateRecordProofs.EntriesLookup(es, x, ChallengeLookup(c, x));
    }
  }

  lemma ChallengeWell(c: Challenge)
    requires ChallengeFits(c)
    ensures Representable(Map(ChallengeEntries(c))) && NoRepeats(Map(ChallengeEntries(c)))
  {
    hide Distinct, IsText, Lookup;
    ChallengeEntriesProps(c);
  }

  /** A challenge survives the wire. */
  lemma ChallengeRoundTrip(c: Challenge)
    requires ChallengeFits(c)
    ensures ChallengeFromBytes(ChallengeToBytes(c)) == Ok(c)
  {
    hide Encode, ReadChallenge, Lookup, ChallengeEntries, FromBytes, Representable, NoRepeats;
    var es := ChallengeEntries(c);
    ChallengeWell(c);
    ChallengeEntriesProps(c);
    EncodeThenDecode(Map(es));
    forall x
      ensures Lookup(Canon(Map(es)).entries, x) == ChallengeLookup(c, x)
    {
      LookupCanon(es, x);
    }
    ReadChallengeLookups(Canon(Map(es)).entries, c);
  }

  lemma {:induction false} KeySetSize(es: Entries)
    ensures |set e | e in es :: e.key| <= |es|
  {
    if es != [] {
      KeySetSize(es[1..]);
      var rest := set e | e in es[1..] :: e.key;
      assert (set e | e in es :: e.key) == rest + {es[0].key};
    }
  }

  lemma SubsetOfSameSize<T>(a: set<T>, b: set<T>)
    requires a <= b && |b| <= |a|
    ensures a == b
  {
    if x :| x in b && x !in a {
      SubsetSize(a, b - {x});
    }
  }

  lemma SubsetSize<T>(a: set<T>, b: set<T>)
    requires a <= b
    ensures |a| <= |b|
  {
    assert b == a + (b - a);
  }

  lemma FiveKeys()
    ensures |CHALLENGE_KEYS| == 5
  {
    Names();
    assert CHALLENGE_KEYS == {V} + {AUD} + {NONCE} + {IAT} + {EXP};
  }

  lemma OnlyKnownKeys(es: Entries, c: Challenge)
    requires |es| == 5 && ReadChallenge(Map(es)) == Ok(c)
    ensures forall x :: Lookup(es, x) == ChallengeLookup(c, x)
  {
    hide Lookup, ReadChallenge;
    Names();
    ReadChallengeLookups(es, c);
    var keys := set e | e in es :: e.key;
    forall x | x in CHALLENGE_KEYS
      ensures x in keys
    {
      assert Lookup(es, x) == ChallengeLookup(c, x);
      LookupFound(es, x);
    }
    KeySetSize(es);
    FiveKeys();
    SubsetOfSameSize(CHALLENGE_KEYS, keys);
    forall x
      ensures Lookup(es, x) == ChallengeLookup(c, x)
    {
      if x !in CHALLENGE_KEYS && Lookup(es, x).Some? {
        LookupFound(es, x);
      }
    }
  }

  /** Unlike a state record, a challenge tolerates unknown fields: an accepted input re-encodes to
      itself exactly when its map has five entries. */
  lemma ChallengeStrictIff(b: bytes, c: Challenge)
    requires ChallengeFromBytes(b) == Ok(c)
    ensures FromBytes(b).Ok? && FromBytes(b).value.Map?
    ensures ChallengeToBytes(c) == b <==> |FromBytes(b).value.entries| == 5
  {
    hide Encode, Lookup, FromBytes, Representable, NoRepeats, ChallengeEntries, CanonOption;
    var v := FromBytes(b).value;
    hide ReadChallenge;
    ReadChallengeMap(v, c);
    Strictness(b);
    StateRecordProofs.FromBytesWell(b);
    var es := ChallengeEntries(c);
    ChallengeEntriesProps(c);
    ChallengeFitsIfRead(v, c);
    ChallengeWell(c);
    EncodeCanon(Map(es));
    if |v.entries| == 5 {
      OnlyKnownKeys(v.entries, c);
      forall x
        ensures Lookup(v.entries, x) == CanonOption(Lookup(es, x))
      {
        ChallengeLeaf(c, x);
      }
      CanonByLookups(es, v.entries);
    } else if ChallengeToBytes(c) == b {
      EncodeThenDecode(Map(es));
      CanonSize(es);
      ChallengeSize(c);
    }
  }

  lemma ChallengeSize(c: Challenge)
    ensures |ChallengeEntries(c)| == 5
  {
  }

  lemma ChallengeLeaf(c: Challenge, x: bytes)
    ensures CanonOption(ChallengeLookup(c, x)) == ChallengeLookup(c, x)
  {
  }

  lemma ReadChallengeMap(v: Value, c: Challenge)
    requires ReadChallenge(v) == Ok(c)
    ensures v.Map?
  {
  }

  lemma ChallengeFitsIfRead(v: Value, c: Challenge)
    requires Well(v) && v.Map? && ReadChallenge(v) == Ok(c)
    ensures ChallengeFits(c)
  {
    hide Lookup, ReadChallenge, IsText, Canonical;
    Names();
    ReadChallengeLookups(v.entries, c);
    forall x | x in CHALLENGE_KEYS
      ensures Representable(ChallengeLookup(c, x).value)
    {
      assert Lookup(v.entries, x) == ChallengeLookup(c, x);
      StateRecordProofs.LookupWell(v.entries, x);
    }
    assert Representable(ChallengeLookup(c, V).value) && Representable(ChallengeLookup(c, AUD).value);
    assert Representable(ChallengeLookup(c, NONCE).value) && Representable(ChallengeLookup(c, IAT).value);
    assert Representable(ChallengeLookup(c, EXP).value);
  }

  lemma ExtraFieldWell(c: Challenge)
    requires ChallengeFits(c)
    ensures var es := [Keyed(KEY, Uint(0))] + ChallengeEntries(c);
            Distinct(es) && Representable(Map(es)) && NoRepeats(Map(es))
  {
    hide Lookup, IsText, ChallengeEntries;
    Names();
    NamesAreText();
    var base := ChallengeEntries(c);
    var es := [Keyed(KEY, Uint(0))] + base;
    ChallengeEntriesProps(c);
    ChallengeWell(c);
    LookupHas(base, KEY);
    assert es[1..] == base;
    assert forall e :: e in es <==> e == es[0] || e in base;
    ChallengeSize(c);
  }

  /** Every challenge has a second accepted encoding, with one field more. */
  lemma ChallengeNotUnique(c: Challenge) returns (b: bytes)
    requires ChallengeFits(c)
    ensures ChallengeFromBytes(b) == Ok(c) && b != ChallengeToBytes(c)
  {
    hide Encode, Lookup, FromBytes, ReadChallenge, Representable, NoRepeats, ChallengeEntries, Distinct;
    Names();
    var base := ChallengeEntries(c);
    var es := [Keyed(KEY, Uint(0))] + base;
    ExtraFieldWell(c);
    ChallengeEntriesProps(c);
    assert es[1..] == base;
    b := Encode(Map(es));
    EncodeThenDecode(Map(es));
    forall x | x in CHALLENGE_KEYS
      ensures Lookup(Canon(Map(es)).entries, x) == ChallengeLookup(c, x)
    {
      LookupCanon(es, x);
      LookupTail(es, x);
      ChallengeLeaf(c, x);
    }
    ReadChallengeLookups(Canon(Map(es)).entries, c);
    CanonSize(es);
    ChallengeSize(c);
    ChallengeStrictIff(b, c);
  }

  lemma LookupTail(es: Entries, x: bytes)
    requires es != [] && es[0].key != x
    ensures Lookup(es, x) == Lookup(es[1..], x)
  {
  }

  // ---- responses and node attestations: a body, the keys that signed it, the signatures ----

  datatype SignedBody = SignedBody(
    body: bytes, publicKey: ClassicalPublicKey, signature: ClassicalSignature,
    pq: Option<(PqPublicKey, PqSignature)>)

  ghost predicate SignedFits(s: SignedBody) {
    |s.body| < U64 && |s.publicKey.raw| < U64 && |s.signature.raw| < U64 &&
    (s.pq.Some? ==> |s.pq.value.0.raw| < U64 && |s.pq.value.1.raw| < U64)
  }

  /** A response carries its challenge under "chal", an attestation its node id under "node". */
  function SignedEntries(field: bytes, s: SignedBody): Entries {
    [Keyed(field, Bytes(s.body)), Keyed(PUB, ClassicalKeyValue(s.publicKey)),
     Keyed(SIG, ClassicalSigValue(s.signature))]
    + if s.pq.Some? then
        [Keyed(PQPUB, PqKeyValue(s.pq.value.0)), Keyed(PQSIG, PqSigValue(s.pq.value.1))]
      else []
  }

  function SignedToBytes(field: bytes, s: SignedBody): bytes {
    Encode(Map(SignedEntries(field, s)))
  }

  function ReadPqPair(v: Value): Res<Option<(PqPublicKey, PqSignature)>> {
    var key :- GetOpt(v, PQPUB);
    var sig :- GetOpt(v, PQSIG);
    if key.Some? && sig.Some? then
      var k :- ReadPqKey(key.value);
      var s :- ReadPqSig(sig.value);
      Ok(Some((k, s)))
    else if key.None? && sig.None? then Ok(None)
    else Err(PqDangling)
  }

  function ReadSigned(field: bytes, v: Value): Res<SignedBody> {
    var body :- GetBytes(v, field);
    var p :- Get(v, PUB);
    var publicKey :- ReadClassicalKey(p);
    var s :- Get(v, SIG);
    var signature :- ReadClassicalSig(s);
    var pq :- ReadPqPair(v);
    Ok(SignedBody(body, publicKey, signature, pq))
  }

  function SignedFromBytes(field: bytes, b: bytes): Res<SignedBody> {
    var v :- FromBytes(b);
    ReadSigned(field, v)
  }

  ghost function SignedLookup(field: bytes, s: SignedBody, x: bytes): Option<Value> {
    if x == field then Some(Bytes(s.body))
    else if x == PUB then Some(ClassicalKeyValue(s.publicKey))
    else if x == SIG then Some(ClassicalSigValue(s.signature))
    else if x == PQPUB && s.pq.Some? then Some(PqKeyValue(s.pq.value.0))
    else if x == PQSIG && s.pq.Some? then Some(PqSigValue(s.pq.value.1))
    else None
  }

  lemma SignedDistinct(field: bytes, s: SignedBody)
    requires field == CHAL || field == NODE
    ensures Distinct(SignedEntries(field, s)) && TextKeys(SignedEntries(field, s))
    ensures forall e :: e in SignedEntries(field, s) ==> IsText(e.key)
    ensures |SignedEntries(field, s)| <= 5
  {
    hide IsText, Distinct, ClassicalKeyValue, ClassicalSigValue, PqKeyValue, PqSigValue;
    Names();
    NamesAreText();
    var es := SignedEntries(field, s);
    DistinctByIndex(es);
    assert TextKeys(es);
  }

  lemma SignedMembers(field: bytes, s: SignedBody)
    requires field == CHAL || field == NODE
    ensures forall e :: e in SignedEntries(field, s) <==> SignedLookup(field, s, e.key) == Some(e.val)
  {
    hide ClassicalKeyValue, ClassicalSigValue, PqKeyValue, PqSigValue;
    Names();
    var es := SignedEntries(field, s);
    var base := es[..3];
    assert es == base + es[3..];
    assert forall e :: e in base <==> e == es[0] || e == es[1] || e == es[2];
    if s.pq.Some? {
      assert forall e :: e in es[3..] <==> e == es[3] || e == es[4];
    } else {
      assert es[3..] == [];
    }
    assert forall e :: e in es <==> e in base || e in es[3..];
  }

  lemma PqValuesWell(pk: PqPublicKey, ps: PqSignature)
    requires |pk.raw| < U64 && |ps.raw| < U64
    ensures Representable(PqKeyValue(pk)) && NoRepeats(PqKeyValue(pk))
    ensures Representable(PqSigValue(ps)) && NoRepeats(PqSigValue(ps))
  {
    hide Described, PqTag, Representable, NoRepeats, IsText;
    TagRoundTrip(P256, pk.alg);
    TagRoundTrip(P256, ps.alg);
    DescribedCanon(PqTag(pk.alg), KEY, pk.raw);
    DescribedCanon(PqTag(ps.alg), SIG, ps.raw);
  }

  lemma ClassicalValuesWell(k: ClassicalPublicKey, c: ClassicalSignature)
    requires |k.raw| < U64 && |c.raw| < U64
    ensures Representable(ClassicalKeyValue(k)) && NoRepeats(ClassicalKeyValue(k))
    ensures Representable(ClassicalSigValue(c)) && NoRepeats(ClassicalSigValue(c))
  {
    hide Described, ClassicalTag, Representable, NoRepeats, IsText;
    TagRoundTrip(k.alg, MlDsa44);
    TagRoundTrip(c.alg, MlDsa44);
    DescribedCanon(ClassicalTag(k.alg), KEY, k.raw);
    DescribedCanon(ClassicalTag(c.alg), SIG, c.raw);
  }

  lemma SignedWell(field: bytes, s: SignedBody)
    requires (field == CHAL || field == NODE) && SignedFits(s)
    ensures Representable(Map(SignedEntries(field, s))) && NoRepeats(Map(SignedEntries(field, s)))
  {
    hide Distinct, IsText, SignedEntries, ClassicalKeyValue, ClassicalSigValue, PqKeyValue, PqSigValue;
    SignedDistinct(field, s);
    SignedMembers(field, s);
    ClassicalValuesWell(s.publicKey, s.signature);
    if s.pq.Some? {
      PqValuesWell(s.pq.value.0, s.pq.value.1);
    }
    forall e | e in SignedEntries(field, s)
      ensures Representable(e.val) && NoRepeats(e.val)
    {
    }
  }

  lemma SignedReads(field: bytes, s: SignedBody, es: Entries)
    requires (field == CHAL || field == NODE) && SignedFits(s)
    requires forall x :: Lookup(es, x) == CanonOption(SignedLookup(field, s, x))
    ensures ReadSigned(field, Map(es)) == Ok(s)
  {
    hide Lookup, Described, ClassicalTag, PqTag, CanonValues, Sort,
         ReadClassicalKey, ReadClassicalSig, ReadPqKey, ReadPqSig,
         ClassicalKeyValue, ClassicalSigValue, PqKeyValue, PqSigValue;
    Names();
    var pk := if s.pq.Some? then s.pq.value.0 else PqPublicKey(MlDsa44, []);
    var ps := if s.pq.Some? then s.pq.value.1 else PqSignature(MlDsa44, []);
    KeyRoundTrip(s.publicKey, s.signature, pk, ps);
    assert Lookup(es, field) == CanonOption(SignedLookup(field, s, field));
    assert Lookup(es, PUB) == CanonOption(SignedLookup(field, s, PUB));
    assert Lookup(es, SIG) == CanonOption(SignedLookup(field, s, SIG));
    assert Lookup(es, PQPUB) == CanonOption(SignedLookup(field, s, PQPUB));
    assert Lookup(es, PQSIG) == CanonOption(SignedLookup(field, s, PQSIG));
  }

  /** The post-quantum part of a map: absent as a whole, or both halves described. */
  ghost predicate DescribesPq(es: Entries, pq: Option<(PqPublicKey, PqSignature)>) {
    match pq
    case None => Lookup(es, PQPUB) == None && Lookup(es, PQSIG) == None
    case Some((k, s)) =>
      Lookup(es, PQPUB).Some? && Describes(Lookup(es, PQPUB).value, PqTag(k.alg), KEY, k.raw)
      && Lookup(es, PQSIG).Some? && Describes(Lookup(es, PQSIG).value, PqTag(s.alg), SIG, s.raw)
  }

  lemma PqPairExactly(es: Entries, pq: Option<(PqPublicKey, PqSignature)>)
    ensures ReadPqPair(Map(es)) == Ok(pq) <==> DescribesPq(es, pq)
    ensures Lookup(es, PQPUB).Some? != Lookup(es, PQSIG).Some? ==> ReadPqPair(Map(es)) == Err(PqDangling)
  {
    hide Lookup, Describes, ReadPqKey, ReadPqSig;
    var noKey, noSig := ClassicalPublicKey(P256, []), ClassicalSignature(P256, []);
    if Lookup(es, PQPUB).Some? && Lookup(es, PQSIG).Some? && pq.Some? {
      KeysReadExactly(Lookup(es, PQPUB).value, noKey, noSig, pq.value.0, pq.value.1);
      KeysReadExactly(Lookup(es, PQSIG).value, noKey, noSig, pq.value.0, pq.value.1);
    }
  }

  /** Which maps are read as a response or attestation, and as what. */
  lemma SignedReadsExactly(field: bytes, es: Entries, s: SignedBody)
    ensures ReadSigned(field, Map(es)) == Ok(s) <==>
            Lookup(es, field) == Some(Bytes(s.body))
            && Lookup(es, PUB).Some? && Describes(Lookup(es, PUB).value, ClassicalTag(s.publicKey.alg), KEY, s.publicKey.raw)
            && Lookup(es, SIG).Some? && Describes(Lookup(es, SIG).value, ClassicalTag(s.signature.alg), SIG, s.signature.raw)
            && DescribesPq(es, s.pq)
  {
    hide Lookup, Describes, ReadClassicalKey, ReadClassicalSig, ReadPqPair, DescribesPq;
    var noKey, noSig := PqPublicKey(MlDsa44, []), PqSignature(MlDsa44, []);
    PqPairExactly(es, s.pq);
    if Lookup(es, PUB).Some? {
      KeysReadExactly(Lookup(es, PUB).value, s.publicKey, s.signature, noKey, noSig);
    }
    if Lookup(es, SIG).Some? {
      KeysReadExactly(Lookup(es, SIG).value, s.publicKey, s.signature, noKey, noSig);
    }
  }

  /** Responses (field "chal") and attestations (field "node") survive the wire, with and without
      a post-quantum pair. */
  lemma SignedRoundTrip(field: bytes, s: SignedBody)
    requires (field == CHAL || field == NODE) && SignedFits(s)
    ensures SignedFromBytes(field, SignedToBytes(field, s)) == Ok(s)
  {
    hide Encode, FromBytes, ReadSigned, Lookup, SignedEntries, SignedLookup, Representable, NoRepeats, CanonOption;
    var es := SignedEntries(field, s);
    SignedDistinct(field, s);
    SignedMembers(field, s);
    SignedWell(field, s);
    EncodeThenDecode(Map(es));
    forall x
      ensures Lookup(Canon(Map(es)).entries, x) == CanonOption(SignedLookup(field, s, x))
    {
      LookupCanon(es, x);
      StateRecordProofs.EntriesLookup(es, x, SignedLookup(field, s, x));
    }
    SignedReads(field, s, Canon(Map(es)).entries);
  }

  // ---- signed payloads ----

  function SigningPayload(challengeBytes: bytes): bytes {
    Encode(Array([Text(CONTEXT), Text(PURPOSE_CHALLENGE), Bytes(challengeBytes)]))
  }

  function NodeSigningPayload(nodeId: bytes): bytes {
    Encode(Array([Text(CONTEXT), Text(PURPOSE_NODE), Bytes(nodeId)]))
  }

  lemma PayloadsDecode(x: bytes)
    requires |x| < U64
    ensures FromBytes(SigningPayload(x))
            == Ok(Array([Text(Ascii("identikey-auth/v1")), Text(Ascii("challenge")), Bytes(x)]))
    ensures FromBytes(NodeSigningPayload(x))
            == Ok(Array([Text(Ascii("identikey-auth/v1")), Text(Ascii("node-attestation")), Bytes(x)]))
    ensures FromBytes(StateChain.StateSigningPayload(x))
            == Ok(Array([Text(Ascii("identikey-pq-state/v1")), Bytes(x)]))
  {
    hide ValidUtf8, Encode, FromBytes;
    LiteralIsText("identikey-auth/v1");
    LiteralIsText("challenge");
    LiteralIsText("node-attestation");
    LiteralIsText("identikey-pq-state/v1");
    LeafArray([Text(CONTEXT), Text(PURPOSE_CHALLENGE), Bytes(x)]);
    LeafArray([Text(CONTEXT), Text(PURPOSE_NODE), Bytes(x)]);
    LeafArray([Text(StateChain.STATE_DOMAIN), Bytes(x)]);
  }

  lemma LeafArray(items: seq<Value>)
    requires |items| < U64 && forall v :: v in items ==> Representable(v) && !v.Array? && !v.Map?
    ensures FromBytes(Encode(Array(items))) == Ok(Array(items))
  {
    hide Encode, FromBytes;
    assert Canonical(Array(items));
    CanonicalIsFixed(Array(items));
    EncodeThenDecode(Array(items));
  }

  /** Domain separation: no two of the three payload kinds ever coincide, whatever they carry,
      and each determines what it carries. */
  lemma DomainSeparation(x: bytes, y: bytes)
    requires |x| < U64 && |y| < U64
    ensures SigningPayload(x) != NodeSigningPayload(y)
    ensures SigningPayload(x) != StateChain.StateSigningPayload(y)
    ensures NodeSigningPayload(x) != StateChain.StateSigningPayload(y)
    ensures SigningPayload(x) == SigningPayload(y) <==> x == y
    ensures NodeSigningPayload(x) == NodeSigningPayload(y) <==> x == y
    ensures StateChain.StateSigningPayload(x) == StateChain.StateSigningPayload(y) <==> x == y
  {
    hide FromBytes, Encode;
    PayloadsDecode(x);
    PayloadsDecode(y);
    assert |PURPOSE_CHALLENGE| != |PURPOSE_NODE|;
    var a, b := [Text(CONTEXT), Text(PURPOSE_CHALLENGE), Bytes(x)], [Text(CONTEXT), Text(PURPOSE_NODE), Bytes(y)];
    assert a[1] != b[1];
    assert [Text(CONTEXT), Text(PURPOSE_CHALLENGE), Bytes(x)][2] == Bytes(x);
    assert [Text(CONTEXT), Text(PURPOSE_CHALLENGE), Bytes(y)][2] == Bytes(y);
    assert [Text(CONTEXT), Text(PURPOSE_NODE), Bytes(x)][2] == Bytes(x);
    assert b[2] == Bytes(y);
    assert [Text(StateChain.STATE_DOMAIN), Bytes(x)][1] == Bytes(x);
    assert [Text(StateChain.STATE_DOMAIN), Bytes(y)][1] == Bytes(y);
  }
}
