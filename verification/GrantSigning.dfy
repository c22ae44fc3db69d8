/** Grants: what they sign, that they verify on their own share, and on which others. */
module GrantSigning {
  import opened Basics
  import opened Cbor
  import opened CborProofs
  import opened CborMaps
  import opened Dcbor
  import opened Keys
  import StateRecordProofs
  import StateChain
  import Challenge
  import S = Share
  import R = ShareRuns
  import opened Grant

  datatype AccessMode = DirectMode | RecryptMode | EitherMode
  datatype PqPolicy = PqOptionalGrant | PqRequiredGrant

  datatype AccessGrant = AccessGrant(
    content: bytes, commitment: bytes, epoch: nat, mode: AccessMode, signer: bytes,
    pqAlg: Option<PqAlg>, pqPk: Option<bytes>, edSig: bytes, mlDsaSig: Option<bytes>)

  /** Blake3, Unicode normalization and the two signature checks, left open. */
  datatype GrantCrypto = GrantCrypto(
    blake3: bytes -> bytes,
    nfc: Nfc,
    verifyEd: (bytes, bytes, bytes) -> bool,
    verifyPq: (PqAlg, bytes, bytes, bytes) -> bool)

  datatype GrantPq = GrantPq(alg: PqAlg, pk: bytes, sign: bytes -> GrantRes<bytes>)
  datatype GrantKeys = GrantKeys(edPublic: bytes, signEd: bytes -> bytes, pq: Option<GrantPq>)

  const CONTENT: bytes := Ascii("content")
  const COMMITMENT: bytes := Ascii("commitment")
  const EPOCH: bytes := Ascii("epoch")
  const MODE: bytes := Ascii("mode")
  const SIGNER: bytes := Ascii("signer")
  const PQ_ALG: bytes := Ascii("pq-alg")
  const PQ_PK: bytes := Ascii("pq-pk")
  const MODE_DIRECT: bytes := Ascii("direct")
  const MODE_RECRYPT: bytes := Ascii("recrypt")
  const MODE_EITHER: bytes := Ascii("either")

  function ModeTag(m: AccessMode): bytes {
    match m
    case DirectMode => MODE_DIRECT
    case RecryptMode => MODE_RECRYPT
    case EitherMode => MODE_EITHER
  }

  lemma SigningNames()
    ensures |CONTENT| == 7 && |COMMITMENT| == 10 && |MODE| == 4
    ensures |EPOCH| == 5 && EPOCH[0] == 101 && |PQ_PK| == 5 && PQ_PK[0] == 112
    ensures |SIGNER| == 6 && SIGNER[0] == 115 && |PQ_ALG| == 6 && PQ_ALG[0] == 112
    ensures |MODE_DIRECT| == 6 && MODE_DIRECT[0] == 100 && |MODE_RECRYPT| == 7
    ensures |MODE_EITHER| == 6 && MODE_EITHER[0] == 101
    ensures IsText(CONTENT) && IsText(COMMITMENT) && IsText(MODE) && IsText(EPOCH) && IsText(PQ_PK)
    ensures IsText(SIGNER) && IsText(PQ_ALG) && IsText(MODE_DIRECT) && IsText(MODE_RECRYPT) && IsText(MODE_EITHER)
  {
    hide IsText;
    LiteralIsText("content");
    LiteralIsText("commitment");
    LiteralIsText("epoch");
    LiteralIsText("mode");
    LiteralIsText("signer");
    LiteralIsText("pq-alg");
    LiteralIsText("pq-pk");
    LiteralIsText("direct");
    LiteralIsText("recrypt");
    LiteralIsText("either");
  }

  // ---- the signed message ----

  function SignedMap(g: AccessGrant): Entries {
    [Keyed(V, Uint(1)), Keyed(CONTENT, Bytes(g.content)), Keyed(COMMITMENT, Bytes(g.commitment)),
     Keyed(EPOCH, Uint(g.epoch)), Keyed(MODE, Text(ModeTag(g.mode))), Keyed(SIGNER, Bytes(g.signer))]
    + if g.pqAlg.Some? && g.pqPk.Some? then
        [Keyed(PQ_ALG, Text(PqTag(g.pqAlg.value))), Keyed(PQ_PK, Bytes(g.pqPk.value))]
      else []
  }

  function Message(g: AccessGrant): bytes {
    GRANT_DOMAIN + Encode(Map(SignedMap(g)))
  }

  /** Every text of a grant is one of the crate's own ASCII names, so the dcbor printer leaves it alone. */
  lemma MessageIsPrinted(c: GrantCrypto, g: AccessGrant)
    requires Normalizes(c.nfc)
    ensures Message(g) == GRANT_DOMAIN + Print(c.nfc, Map(SignedMap(g)))
  {
    hide Normalizes, Encode, NormalEntries, SignedMap, SignedLookup;
    PlainMap(g);
    PlainEntriesStay(c.nfc, SignedMap(g));
    assert Normal(c.nfc, Map(SignedMap(g))) == Map(SignedMap(g));
  }

  lemma PlainMap(g: AccessGrant)
    ensures forall e :: e in SignedMap(g) ==> e.val.Uint? || e.val.Bytes? || (e.val.Text? && IsAscii(e.val.s))
  {
    hide SignedMap, ModeTag, PqTag, IsAscii;
    NamesAreAscii(g);
    SignedMapMembers(g);
  }

  lemma NamesAreAscii(g: AccessGrant)
    ensures IsAscii(ModeTag(g.mode)) && (g.pqAlg.Some? ==> IsAscii(PqTag(g.pqAlg.value)))
  {
  }

  ghost predicate GrantFits(g: AccessGrant) {
    |g.content| < U64 && |g.commitment| < U64 && g.epoch < U64 && |g.signer| < U64 &&
    (g.pqPk.Some? ==> |g.pqPk.value| < U64) && (g.pqAlg.Some? <==> g.pqPk.Some?)
  }

  /** Two grants that make the same statement, signatures aside. */
  ghost predicate SameStatement(a: AccessGrant, b: AccessGrant) {
    a.content == b.content && a.commitment == b.commitment && a.epoch == b.epoch && a.mode == b.mode &&
    a.signer == b.signer && a.pqAlg == b.pqAlg && a.pqPk == b.pqPk
  }

  ghost function SignedLookup(g: AccessGrant, x: bytes): Option<Value> {
    if x == V then Some(Uint(1))
    else if x == CONTENT then Some(Bytes(g.content))
    else if x == COMMITMENT then Some(Bytes(g.commitment))
    else if x == EPOCH then Some(Uint(g.epoch))
    else if x == MODE then Some(Text(ModeTag(g.mode)))
    else if x == SIGNER then Some(Bytes(g.signer))
    else if x == PQ_ALG && g.pqAlg.Some? && g.pqPk.Some? then Some(Text(PqTag(g.pqAlg.value)))
    else if x == PQ_PK && g.pqAlg.Some? && g.pqPk.Some? then Some(Bytes(g.pqPk.value))
    else None
  }

  lemma SignedMapDistinct(g: AccessGrant)
    ensures Distinct(SignedMap(g)) && |SignedMap(g)| <= 8
    ensures forall e :: e in SignedMap(g) ==> IsText(e.key)
  {
    hide IsText, Distinct, ModeTag, PqTag;
    Names();
    NamesAreText();
    SigningNames();
    DistinctByIndex(SignedMap(g));
  }

  lemma SignedMapMembers(g: AccessGrant)
    ensures forall e :: e in SignedMap(g) <==> SignedLookup(g, e.key) == Some(e.val)
  {
    hide ModeTag, PqTag, IsText;
    Names();
    SigningNames();
    var es := SignedMap(g);
    var base := es[..6];
    assert es == base + es[6..];
    assert forall e :: e in base <==>
      e == es[0] || e == es[1] || e == es[2] || e == es[3] || e == es[4] || e == es[5];
    if g.pqAlg.Some? && g.pqPk.Some? {
      assert forall e :: e in es[6..] <==> e == es[6] || e == es[7];
    } else {
      assert es[6..] == [];
    }
    assert forall e :: e in es <==> e in base || e in es[6..];
  }

  lemma SignedMapWell(g: AccessGrant)
    requires GrantFits(g)
    ensures Representable(Map(SignedMap(g))) && NoRepeats(Map(SignedMap(g)))
  {
    hide Distinct, IsText, SignedMap, PqTag;
    SignedMapDistinct(g);
    SignedMapMembers(g);
    SigningNames();
    if g.pqAlg.Some? {
      TagRoundTrip(P256, g.pqAlg.value);
    }
    forall e | e in SignedMap(g)
      ensures Representable(e.val) && NoRepeats(e.val)
    {
    }
  }

  lemma SignedMapLookup(g: AccessGrant, x: bytes)
    requires GrantFits(g)
    ensures Lookup(Canon(Map(SignedMap(g))).entries, x) == SignedLookup(g, x)
  {
    hide Distinct, Lookup, SignedMap;
    SignedMapDistinct(g);
    SignedMapMembers(g);
    EntriesAre(g, x);
    LookupCanon(SignedMap(g), x);
  }

  lemma EntriesAre(g: AccessGrant, x: bytes)
    requires Distinct(SignedMap(g))
    ensures Lookup(SignedMap(g), x) == SignedLookup(g, x)
  {
    hide Distinct, Lookup, SignedMap, SignedLookup;
    SignedMapMembers(g);
    StateRecordProofs.EntriesLookup(SignedMap(g), x, SignedLookup(g, x));
  }

  /** The signed message determines the whole statement, and nothing but the statement. */
  lemma MessageExactly(a: AccessGrant, b: AccessGrant)
    requires GrantFits(a) && GrantFits(b)
    ensures Message(a) == Message(b) <==> SameStatement(a, b)
  {
    hide SignedMap, Encode, SignedLookup, Lookup, Representable, NoRepeats;
    if Message(a) == Message(b) {
      var x, y := Encode(Map(SignedMap(a))), Encode(Map(SignedMap(b)));
      assert x == Message(a)[|GRANT_DOMAIN|..] && y == Message(b)[|GRANT_DOMAIN|..];
      SignedMapWell(a);
      SignedMapWell(b);
      EncodeThenDecode(Map(SignedMap(a)));
      EncodeThenDecode(Map(SignedMap(b)));
      forall k
        ensures SignedLookup(a, k) == SignedLookup(b, k)
      {
        SignedMapLookup(a, k);
        SignedMapLookup(b, k);
      }
      LookupsGiveStatement(a, b);
    }
    if SameStatement(a, b) {
      StatementGivesMap(a, b);
    }
  }

  lemma StatementGivesMap(a: AccessGrant, b: AccessGrant)
    requires SameStatement(a, b)
    ensures SignedMap(a) == SignedMap(b)
  {
  }

  lemma LookupsGiveStatement(a: AccessGrant, b: AccessGrant)
    requires GrantFits(a) && GrantFits(b) && forall k :: SignedLookup(a, k) == SignedLookup(b, k)
    ensures SameStatement(a, b)
  {
    hide IsText, PqTag, PqFromTag;
    Names();
    SigningNames();
    assert SignedLookup(a, CONTENT) == SignedLookup(b, CONTENT);
    assert SignedLookup(a, COMMITMENT) == SignedLookup(b, COMMITMENT);
    assert SignedLookup(a, EPOCH) == SignedLookup(b, EPOCH);
    assert SignedLookup(a, MODE) == SignedLookup(b, MODE);
    assert SignedLookup(a, SIGNER) == SignedLookup(b, SIGNER);
    assert SignedLookup(a, PQ_ALG) == SignedLookup(b, PQ_ALG);
    assert SignedLookup(a, PQ_PK) == SignedLookup(b, PQ_PK);
    if a.pqAlg.Some? && b.pqAlg.Some? {
      TagRoundTrip(P256, a.pqAlg.value);
      TagRoundTrip(P256, b.pqAlg.value);
    }
  }

  /** A grant message is never a login, attestation or state payload, so one Ed25519 key can serve
      both protocols. */
  lemma GrantDomainSeparation(g: AccessGrant, x: bytes)
    ensures Message(g) != Challenge.SigningPayload(x)
    ensures Message(g) != Challenge.NodeSigningPayload(x)
    ensures Message(g) != StateChain.StateSigningPayload(x)
  {
    hide EncodeItems;
    assert Message(g)[0] == GRANT_DOMAIN[0] == 105;
    assert Challenge.SigningPayload(x)[0] == 131;
    assert Challenge.NodeSigningPayload(x)[0] == 131;
    assert StateChain.StateSigningPayload(x)[0] == 130;
  }

  // ---- granting and verifying ----

  function ContentId(c: GrantCrypto, share: S.Share): bytes {
    c.blake3(ContentMaterial(share))
  }

  function AccessCommitment(c: GrantCrypto, share: S.Share): bytes {
    c.blake3(ShareMaterial(c.nfc, share))
  }

  predicate ModeMatches(mode: AccessMode, share: S.Share) {
    match mode
    case DirectMode => share.targets != [] && share.recrypt == []
    case RecryptMode => share.targets == [] && share.recrypt != []
    case EitherMode => share.targets != [] && share.recrypt != []
  }

  function GrantAccess(c: GrantCrypto, share: S.Share, keys: GrantKeys, mode: AccessMode): GrantRes<AccessGrant> {
    if !ModeMatches(mode, share) then Err(S.BadMode)
    else
      var pqSig :- SignPqHalf(c, share, keys, mode);
      var unsigned := AccessGrant(
        ContentId(c, share), AccessCommitment(c, share), share.epoch, mode, keys.edPublic,
        if keys.pq.Some? then Some(keys.pq.value.alg) else None,
        if keys.pq.Some? then Some(keys.pq.value.pk) else None, [], pqSig);
      Ok(unsigned.(edSig := keys.signEd(Message(unsigned))))
  }

  function SignPqHalf(c: GrantCrypto, share: S.Share, keys: GrantKeys, mode: AccessMode): GrantRes<Option<bytes>> {
    if keys.pq.None? then Ok(None)
    else
      var unsigned := AccessGrant(
        ContentId(c, share), AccessCommitment(c, share), share.epoch, mode, keys.edPublic,
        Some(keys.pq.value.alg), Some(keys.pq.value.pk), [], None);
      var sig :- keys.pq.value.sign(Message(unsigned));
      Ok(Some(sig))
  }

  function VerifyGrant(c: GrantCrypto, g: AccessGrant, share: S.Share, policy: PqPolicy): GrantRes<()> {
    if g.content != ContentId(c, share) || g.commitment != AccessCommitment(c, share) || g.epoch != share.epoch then
      Err(S.GrantMismatch)
    else if !ModeMatches(g.mode, share) then Err(S.BadMode)
    else if !c.verifyEd(g.signer, Message(g), g.edSig) then Err(S.BadGrantSignature)
    else if g.mlDsaSig.None? && g.pqAlg.None? && g.pqPk.None? then
      if policy == PqRequiredGrant then Err(S.PqGrantRequired) else Ok(())
    else if g.mlDsaSig.Some? && g.pqAlg.Some? && g.pqPk.Some? then
      if c.verifyPq(g.pqAlg.value, g.pqPk.value, Message(g), g.mlDsaSig.value) then Ok(())
      else Err(S.BadGrantSignature)
    else Err(S.BadGrantSignature)
  }

  /** Granting fails exactly on a mode the share does not have, or with the post-quantum signer; what it
      makes commits to the share, in that mode, under the signer's own keys. */
  lemma GrantAccessExactly(c: GrantCrypto, share: S.Share, keys: GrantKeys, mode: AccessMode)
    ensures var r := GrantAccess(c, share, keys, mode);
            var fits := (share.targets != [] <==> mode != RecryptMode) && (share.recrypt != [] <==> mode != DirectMode);
            (!fits ==> r == Err(S.BadMode))
            && (fits && keys.pq.None? ==> r.Ok?)
            && (fits && keys.pq.Some? ==>
                exists m :: if keys.pq.value.sign(m).Ok? then r.Ok? else r == Err(keys.pq.value.sign(m).error))
            && (r.Ok? ==>
                r.value.content == c.blake3(ContentMaterial(share))
                && r.value.commitment == c.blake3(ShareMaterial(c.nfc, share))
                && r.value.epoch == share.epoch && r.value.mode == mode && r.value.signer == keys.edPublic
                && r.value.pqAlg == (if keys.pq.Some? then Some(keys.pq.value.alg) else None)
                && r.value.pqPk == (if keys.pq.Some? then Some(keys.pq.value.pk) else None))
  {
    hide Message, ContentMaterial, ShareMaterial;
    if keys.pq.Some? {
      var m := Message(AccessGrant(
        ContentId(c, share), AccessCommitment(c, share), share.epoch, mode, keys.edPublic,
        Some(keys.pq.value.alg), Some(keys.pq.value.pk), [], None));
      assert keys.pq.value.sign(m) == keys.pq.value.sign(m);
    }
  }

  function ModeFromTag(t: bytes): GrantRes<AccessMode> {
    if t == Ascii("direct") then Ok(DirectMode)
    else if t == Ascii("recrypt") then Ok(RecryptMode)
    else if t == Ascii("either") then Ok(EitherMode)
    else Err(S.BadMode)
  }

  /** A text names a mode exactly when it is that mode's tag. */
  lemma ModesExactly(t: bytes, m: AccessMode)
    ensures ModeFromTag(t) == Ok(m) <==> t == ModeTag(m)
  {
    hide IsText;
    SigningNames();
  }

  /** Keys whose signatures verify under the public halves they announce. */
  ghost predicate CorrectKeys(c: GrantCrypto, keys: GrantKeys) {
    (forall m: bytes {:trigger keys.signEd(m)} :: c.verifyEd(keys.edPublic, m, keys.signEd(m))) &&
    (keys.pq.Some? ==>
      forall m: bytes {:trigger keys.pq.value.sign(m)} ::
        keys.pq.value.sign(m).Ok? ==>
          c.verifyPq(keys.pq.value.alg, keys.pq.value.pk, m, keys.pq.value.sign(m).value))
  }

  /** A fresh grant verifies on its own share, both halves signing one message; it meets the
      post-quantum policy exactly when the signer has a post-quantum key. */
  lemma GrantVerifies(c: GrantCrypto, share: S.Share, keys: GrantKeys, mode: AccessMode, policy: PqPolicy)
    requires CorrectKeys(c, keys) && GrantAccess(c, share, keys, mode).Ok?
    ensures var g := GrantAccess(c, share, keys, mode).value;
            g.edSig == keys.signEd(Message(g)) &&
            (keys.pq.Some? ==> g.mlDsaSig.Some? && keys.pq.value.sign(Message(g)) == Ok(g.mlDsaSig.value)) &&
            VerifyGrant(c, g, share, policy)
            == if policy == PqRequiredGrant && keys.pq.None? then Err(S.PqGrantRequired) else Ok(())
  {
    hide ContentId, AccessCommitment, Encode, ModeMatches, SignedMap;
    var g := GrantAccess(c, share, keys, mode).value;
    var unsigned := g.(edSig := []);
    StatementGivesMap(g, unsigned);
    if keys.pq.Some? {
      StatementGivesMap(g, unsigned.(mlDsaSig := None));
    }
  }

  // ---- what a verdict means ----

  ghost predicate Commits(c: GrantCrypto, g: AccessGrant, share: S.Share) {
    g.content == c.blake3(ContentMaterial(share)) && g.commitment == c.blake3(ShareMaterial(c.nfc, share))
    && g.epoch == share.epoch
  }

  ghost predicate NamesMode(g: AccessGrant, share: S.Share) {
    (share.targets != [] <==> g.mode != RecryptMode) && (share.recrypt != [] <==> g.mode != DirectMode)
  }

  ghost predicate PqAbsent(g: AccessGrant) {
    g.mlDsaSig == None && g.pqAlg == None && g.pqPk == None
  }

  ghost predicate PqSigns(c: GrantCrypto, g: AccessGrant) {
    g.mlDsaSig.Some? && g.pqAlg.Some? && g.pqPk.Some?
    && c.verifyPq(g.pqAlg.value, g.pqPk.value, Message(g), g.mlDsaSig.value)
  }

  /** Every verdict on every grant: accepted exactly when it commits to the share, names its mode, the
      Ed25519 signature verifies, and the post-quantum part verifies or is wholly absent where that
      is allowed; each refusal names the first of these that fails. */
  lemma GrantVerdictExactly(c: GrantCrypto, g: AccessGrant, share: S.Share, policy: PqPolicy)
    ensures var r := VerifyGrant(c, g, share, policy);
            var signed := Commits(c, g, share) && NamesMode(g, share) && c.verifyEd(g.signer, Message(g), g.edSig);
            (r.Ok? <==> signed && ((PqAbsent(g) && policy == PqOptionalGrant) || PqSigns(c, g)))
            && (r == Err(S.GrantMismatch) <==> !Commits(c, g, share))
            && (r == Err(S.BadMode) <==> Commits(c, g, share) && !NamesMode(g, share))
            && (r == Err(S.PqGrantRequired) <==> signed && PqAbsent(g) && policy == PqRequiredGrant)
            && (r == Err(S.BadGrantSignature) <==>
                Commits(c, g, share) && NamesMode(g, share)
                && (!c.verifyEd(g.signer, Message(g), g.edSig) || (!PqAbsent(g) && !PqSigns(c, g))))
  {
    hide ContentMaterial, ShareMaterial, Message;
  }

  /** The signer's Ed25519 signature on this grant was not forged: what it signs is what the signer
      signed for one of the shares in `granted`. */
  ghost predicate UnforgedGrant(c: GrantCrypto, g: AccessGrant, keys: GrantKeys, granted: set<(S.Share, AccessMode)>) {
    c.verifyEd(g.signer, Message(g), g.edSig) ==>
      exists made :: made in granted && GrantAccess(c, made.0, keys, made.1).Ok?
        && Message(g) == Message(GrantAccess(c, made.0, keys, made.1).value)
  }

  /** A grant that verifies on a share was made by its signer for a share with that content id, epoch
      and access set, in that mode. */
  lemma VerifiedWasGranted(c: GrantCrypto, g: AccessGrant, share: S.Share, policy: PqPolicy, keys: GrantKeys,
                           granted: set<(S.Share, AccessMode)>)
    returns (made: (S.Share, AccessMode))
    requires VerifyGrant(c, g, share, policy).Ok? && UnforgedGrant(c, g, keys, granted) && GrantFits(g)
    requires forall m :: m in granted && GrantAccess(c, m.0, keys, m.1).Ok? ==>
               GrantFits(GrantAccess(c, m.0, keys, m.1).value) && Comparable(c, m.0, share)
    ensures made in granted && g.mode == made.1 && g.signer == keys.edPublic
    ensures ContentId(c, made.0) == ContentId(c, share) && made.0.epoch == share.epoch
    ensures SameAccess(c.nfc, made.0, share)
  {
    hide Message, ContentMaterial, ShareMaterial, ShareFits, Normalizes, GrantFits, SameAccess, ModeMatches;
    GrantVerdictExactly(c, g, share, policy);
    made :| made in granted && GrantAccess(c, made.0, keys, made.1).Ok?
            && Message(g) == Message(GrantAccess(c, made.0, keys, made.1).value);
    MessageExactly(g, GrantAccess(c, made.0, keys, made.1).value);
    AccessMaterialExactly(c.nfc, made.0, share);
  }

  /** What is hashed for contents, for access sets and signed for grants never coincides. */
  lemma MaterialsDiffer(c: GrantCrypto, a: S.Share, b: S.Share, g: AccessGrant)
    ensures ContentMaterial(a) != ShareMaterial(c.nfc, b) && ContentMaterial(a) != Message(g)
    ensures ShareMaterial(c.nfc, b) != Message(g)
  {
    hide Parts, Parties, Framed, Encode, SignedMap, ToBE;
    assert ContentMaterial(a)[19] == CONTENT_DOMAIN[19] == 'c' as int;
    assert ShareMaterial(c.nfc, b)[19] == ACCESS_DOMAIN[19] == 'a' as int;
    assert Message(g)[19] == GRANT_DOMAIN[19] == 'g' as int;
  }

  ghost predicate NoCollision(c: GrantCrypto, x: bytes, y: bytes) {
    c.blake3(x) == c.blake3(y) ==> x == y
  }

  lemma ModeFromAccess(c: GrantCrypto, mode: AccessMode, a: S.Share, b: S.Share)
    requires SameAccess(c.nfc, a, b)
    ensures ModeMatches(mode, a) <==> ModeMatches(mode, b)
  {
    hide NormalCapsules;
    var x, y := NormalCapsules(c.nfc, a.recrypt), NormalCapsules(c.nfc, b.recrypt);
    assert |multiset(a.targets)| == |multiset(b.targets)| && |multiset(x)| == |multiset(y)|;
  }

  /** A grant valid for one share is valid for another exactly when content id and epoch agree and so
      do the multisets of direct targets and of capsules, the latter up to the normalization of
      their backend names. */
  lemma GrantBinding(c: GrantCrypto, g: AccessGrant, a: S.Share, b: S.Share, policy: PqPolicy)
    requires Normalizes(c.nfc) && ShareFits(c.nfc, a) && ShareFits(c.nfc, b)
    requires VerifyGrant(c, g, a, policy).Ok? && NoCollision(c, ShareMaterial(c.nfc, a), ShareMaterial(c.nfc, b))
    ensures VerifyGrant(c, g, b, policy).Ok? <==>
            ContentId(c, a) == ContentId(c, b) && a.epoch == b.epoch && SameAccess(c.nfc, a, b)
  {
    hide ContentId, ShareMaterial, Message, ShareFits, ModeMatches, SameAccess, Normalizes;
    AccessMaterialExactly(c.nfc, a, b);
    if SameAccess(c.nfc, a, b) {
      ModeFromAccess(c, g.mode, a, b);
    }
  }

  /** With backend names in form C already, that is equality of the multisets. */
  lemma SameAccessExactly(nfc: Nfc, a: S.Share, b: S.Share)
    requires forall x :: x in a.recrypt || x in b.recrypt ==> nfc(x.backend) == x.backend
    ensures SameAccess(nfc, a, b) <==>
            multiset(a.targets) == multiset(b.targets) && multiset(a.recrypt) == multiset(b.recrypt)
  {
    hide NormalCapsules;
    NormalBackends(nfc, a.recrypt);
    NormalBackends(nfc, b.recrypt);
  }

  lemma {:induction false} NormalBackends(nfc: Nfc, cs: seq<S.RecryptCapsule>)
    requires forall x :: x in cs ==> nfc(x.backend) == x.backend
    ensures NormalCapsules(nfc, cs) == cs
  {
    if cs != [] {
      NormalBackends(nfc, cs[1..]);
      assert cs == [cs[0]] + cs[1..];
    }
  }

  function OneCapsule(share: S.Share, backend: bytes, recipient: bytes, ciphertext: bytes): S.Share {
    share.(recrypt := [S.RecryptCapsule(backend, recipient, ciphertext)])
  }

  /** The failing input: one letter written in two ways names two backends, and every grant on one of
      the two shares is a grant on the other. */
  lemma TwoBackendsOneGrant(c: GrantCrypto, g: AccessGrant, share: S.Share, recipient: bytes, ciphertext: bytes,
                            policy: PqPolicy)
    requires Normalizes(c.nfc) && c.nfc(E_COMBINED) == E_ACUTE
    ensures var a, b := OneCapsule(share, E_ACUTE, recipient, ciphertext), OneCapsule(share, E_COMBINED, recipient, ciphertext);
            multiset(a.recrypt) != multiset(b.recrypt) && VerifyGrant(c, g, a, policy) == VerifyGrant(c, g, b, policy)
  {
    hide VerifyGrant, Normalizes, Parts, Parties, RawParts, AccessMaterial;
    var a, b := OneCapsule(share, E_ACUTE, recipient, ciphertext), OneCapsule(share, E_COMBINED, recipient, ciphertext);
    assert b.recrypt[0].backend != a.recrypt[0].backend;
    assert a.recrypt[0] in multiset(a.recrypt) && a.recrypt[0] !in multiset(b.recrypt);
    Idempotent(c.nfc, E_COMBINED);
    assert NormalCapsules(c.nfc, a.recrypt) == NormalCapsules(c.nfc, b.recrypt);
    SharePartsNormal(c.nfc, a);
    SharePartsNormal(c.nfc, b);
    SameMaterialSameVerdict(c, g, a, b, policy);
  }

  lemma SameMaterialSameVerdict(c: GrantCrypto, g: AccessGrant, a: S.Share, b: S.Share, policy: PqPolicy)
    requires a.nonce == b.nonce && a.ciphertext == b.ciphertext && a.epoch == b.epoch && a.targets == b.targets
    requires (a.recrypt == [] <==> b.recrypt == []) && ShareMaterial(c.nfc, a) == ShareMaterial(c.nfc, b)
    ensures VerifyGrant(c, g, a, policy) == VerifyGrant(c, g, b, policy)
  {
    hide ShareMaterial, Message;
    assert ContentMaterial(a) == ContentMaterial(b);
  }

  /** Adding a recipient always voids the grant. */
  lemma AddVoidsGrant(c: GrantCrypto, g: AccessGrant, p: S.Primitives, share: S.Share,
                      opener: S.WrapSecret, recipient: S.WrapPublic, coins: bytes, policy: PqPolicy)
    requires S.AddRecipient(p, share, opener, recipient, coins).Ok?
    requires var next := S.AddRecipient(p, share, opener, recipient, coins).value;
             Comparable(c, share, next) && VerifyGrant(c, g, share, policy).Ok?
    ensures VerifyGrant(c, g, S.AddRecipient(p, share, opener, recipient, coins).value, policy).Err?
  {
    hide VerifyGrant, ShareFits, ShareMaterial, Normalizes, NormalCapsules;
    var next := S.AddRecipient(p, share, opener, recipient, coins).value;
    GrantBinding(c, g, share, next, policy);
    assert |multiset(next.targets)| == |multiset(share.targets)| + 1;
  }

  /** Shares that fit in memory and whose commitments do not collide. */
  ghost predicate Comparable(c: GrantCrypto, a: S.Share, b: S.Share) {
    Normalizes(c.nfc) && ShareFits(c.nfc, a) && ShareFits(c.nfc, b)
    && NoCollision(c, ShareMaterial(c.nfc, a), ShareMaterial(c.nfc, b))
  }

  /** After a rotation the old grant still verifies exactly when epoch and recipients are the old
      ones again, in any order. */
  lemma RotationVoidsGrantUnless(c: GrantCrypto, g: AccessGrant, p: S.Primitives, share: S.Share,
                                 opener: S.WrapSecret, recipients: seq<S.WrapPublic>, epoch: nat,
                                 coins: nat -> bytes, policy: PqPolicy)
    requires S.Rotate(p, share, opener, recipients, epoch, coins).Ok?
    requires var next := S.Rotate(p, share, opener, recipients, epoch, coins).value;
             Comparable(c, share, next) && VerifyGrant(c, g, share, policy).Ok?
    ensures VerifyGrant(c, g, S.Rotate(p, share, opener, recipients, epoch, coins).value, policy).Ok? <==>
            epoch == share.epoch && multiset(recipients) == multiset(share.targets)
  {
    hide VerifyGrant, ShareFits, ShareMaterial, Normalizes, S.SealAll, S.OpenDek, S.RejectDuplicateDirect;
    var next := S.Rotate(p, share, opener, recipients, epoch, coins).value;
    GrantBinding(c, g, share, next, policy);
    assert ContentMaterial(next) == ContentMaterial(share);
  }

  /** The failing input: any current target can rewrap a share to its own recipients at its own epoch,
      and every grant on it stays exactly as good as it was. */
  lemma RewrapKeepsGrant(c: GrantCrypto, g: AccessGrant, p: S.Primitives, owns: R.Owns, share: S.Share,
                         dek: bytes, plaintext: bytes, opener: S.WrapSecret, coins: nat -> bytes, policy: PqPolicy)
    requires R.Holds(p, owns, share, dek, plaintext) && share.recrypt == [] && R.IsTarget(p, share, opener)
    requires S.SealAll(p, share.targets, |share.targets|, dek, share.epoch, coins).Ok?
    ensures S.Rotate(p, share, opener, share.targets, share.epoch, coins).Ok?
    ensures VerifyGrant(c, g, S.Rotate(p, share, opener, share.targets, share.epoch, coins).value, policy)
         == VerifyGrant(c, g, share, policy)
  {
    hide S.SealAll, S.OpenDek, S.RejectDuplicateDirect, S.FindWrap, R.WrapOpens, R.CapsuleOpens, Message, Parts, Parties;
    R.OpenDekExactly(p, owns, share, dek, plaintext, opener);
    assert R.AllDistinct(p, share.targets);
    R.DirectCheckExactly(p, share.targets);
    var next := S.Rotate(p, share, opener, share.targets, share.epoch, coins).value;
    assert ContentMaterial(next) == ContentMaterial(share);
    SameParties(share, next);
  }

  lemma SameParties(a: S.Share, b: S.Share)
    requires a.targets == b.targets && a.recrypt == b.recrypt
    ensures Parties(a) == Parties(b)
  {
  }

  /** The content id never changes, whatever is done to a share and whatever the primitives do. */
  lemma {:induction false} ContentIdIsStable(c: GrantCrypto, p: S.Primitives, share: S.Share, ops: seq<R.ShareOp>)
    ensures ContentId(c, R.RunShare(p, share, ops)) == ContentId(c, share)
  {
    hide ContentId, S.OpenDek, S.SealAll, S.RejectDuplicateDirect, S.FindWrap, S.FindCapsule;
    if ops != [] {
      var front, op := ops[..|ops| - 1], ops[|ops| - 1];
      ContentIdIsStable(c, p, share, front);
      var before := R.RunShare(p, share, front);
      if R.Attempt(p, before, op).Ok? {
        SamePayload(c, before, R.Attempt(p, before, op).value);
      }
    }
  }

  lemma SamePayload(c: GrantCrypto, a: S.Share, b: S.Share)
    requires a.nonce == b.nonce && a.ciphertext == b.ciphertext
    ensures ContentId(c, a) == ContentId(c, b)
  {
  }

  /** Over a whole run: a grant on the share as it was is a grant on the share as it is exactly when
      the run ended at the same epoch with the same recipients and, up to the normalization of their
      backend names, the same capsules. */
  lemma GrantOverRuns(c: GrantCrypto, g: AccessGrant, p: S.Primitives, share: S.Share, ops: seq<R.ShareOp>,
                      policy: PqPolicy)
    requires Comparable(c, share, R.RunShare(p, share, ops)) && VerifyGrant(c, g, share, policy).Ok?
    ensures var now := R.RunShare(p, share, ops);
            VerifyGrant(c, g, now, policy).Ok? <==> share.epoch == now.epoch && SameAccess(c.nfc, share, now)
  {
    hide VerifyGrant, ShareFits, ShareMaterial, R.RunShare, ContentId, SameAccess, Normalizes;
    GrantBinding(c, g, share, R.RunShare(p, share, ops), policy);
    ContentIdIsStable(c, p, share, ops);
  }
}
