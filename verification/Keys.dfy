/** Field names, algorithm tags, and the self-describing keys and signatures. */
module Keys {
  import opened Basics
  import opened Cbor
  import opened CborProofs
  import opened CborMaps

  // ---- field names ----

  const V: bytes := Ascii("v")
  const ALG: bytes := Ascii("alg")
  const AUD: bytes := Ascii("aud")
  const EXP: bytes := Ascii("exp")
  const IAT: bytes := Ascii("iat")
  const KEY: bytes := Ascii("key")
  const PUB: bytes := Ascii("pub")
  const SEQ: bytes := Ascii("seq")
  const SIG: bytes := Ascii("sig")
  const XID: bytes := Ascii("xid")
  const CHAL: bytes := Ascii("chal")
  const NODE: bytes := Ascii("node")
  const PREV: bytes := Ascii("prev")
  const NONCE: bytes := Ascii("nonce")
  const PQPUB: bytes := Ascii("pqpub")
  const PQSIG: bytes := Ascii("pqsig")
  const CONTROL: bytes := Ascii("control")
  const NOT_AFTER: bytes := Ascii("not_after")
  const THRESHOLD: bytes := Ascii("threshold")
  const NOT_BEFORE: bytes := Ascii("not_before")
  const PRIVILEGES: bytes := Ascii("privileges")
  const OPERATIONAL: bytes := Ascii("operational")

  /** Enough of each name to tell any two apart. */
  lemma Names()
    ensures |V| == 1
    ensures |ALG| == 3 && ALG[0] == 97 && ALG[1] == 108
    ensures |AUD| == 3 && AUD[0] == 97 && AUD[1] == 117
    ensures |EXP| == 3 && EXP[0] == 101
    ensures |IAT| == 3 && IAT[0] == 105
    ensures |KEY| == 3 && KEY[0] == 107
    ensures |PUB| == 3 && PUB[0] == 112
    ensures |SEQ| == 3 && SEQ[0] == 115 && SEQ[1] == 101
    ensures |SIG| == 3 && SIG[0] == 115 && SIG[1] == 105
    ensures |XID| == 3 && XID[0] == 120
    ensures |CHAL| == 4 && CHAL[0] == 99
    ensures |NODE| == 4 && NODE[0] == 110
    ensures |PREV| == 4 && PREV[0] == 112
    ensures |NONCE| == 5 && NONCE[0] == 110
    ensures |PQPUB| == 5 && PQPUB[0] == 112 && PQPUB[2] == 112
    ensures |PQSIG| == 5 && PQSIG[0] == 112 && PQSIG[2] == 115
    ensures |CONTROL| == 7
    ensures |NOT_AFTER| == 9 && NOT_AFTER[0] == 110
    ensures |THRESHOLD| == 9 && THRESHOLD[0] == 116
    ensures |NOT_BEFORE| == 10 && NOT_BEFORE[0] == 110
    ensures |PRIVILEGES| == 10 && PRIVILEGES[0] == 112
    ensures |OPERATIONAL| == 11
  {
  }

  lemma NamesAreText()
    ensures IsText(V) && IsText(ALG) && IsText(AUD) && IsText(EXP) && IsText(IAT) && IsText(KEY)
    ensures IsText(PUB) && IsText(SEQ) && IsText(SIG) && IsText(XID) && IsText(CHAL) && IsText(NODE)
    ensures IsText(PREV) && IsText(NONCE) && IsText(PQPUB) && IsText(PQSIG) && IsText(CONTROL)
    ensures IsText(NOT_AFTER) && IsText(THRESHOLD) && IsText(NOT_BEFORE) && IsText(PRIVILEGES)
    ensures IsText(OPERATIONAL)
  {
    hide ValidUtf8;
    LiteralIsText("v");
    LiteralIsText("alg");
    LiteralIsText("aud");
    LiteralIsText("exp");
    LiteralIsText("iat");
    LiteralIsText("key");
    LiteralIsText("pub");
    LiteralIsText("seq");
    LiteralIsText("sig");
    LiteralIsText("xid");
    LiteralIsText("chal");
    LiteralIsText("node");
    LiteralIsText("prev");
    LiteralIsText("nonce");
    LiteralIsText("pqpub");
    LiteralIsText("pqsig");
    LiteralIsText("control");
    LiteralIsText("not_after");
    LiteralIsText("threshold");
    LiteralIsText("not_before");
    LiteralIsText("privileges");
    LiteralIsText("operational");
  }

  lemma LiteralIsText(s: string)
    requires |s| < 64 && forall i :: 0 <= i < |s| ==> s[i] < 128 as char
    ensures IsText(Ascii(s))
  {
    AsciiIsUtf8(Ascii(s));
  }

  // ---- algorithm tags ----

  datatype ClassicalAlg = Ed25519 | P256
  datatype PqAlg = MlDsa44 | MlDsa65 | MlDsa87

  function ClassicalTag(a: ClassicalAlg): bytes {
    match a
    case Ed25519 => Ascii("ed25519")
    case P256 => Ascii("p256")
  }

  function ClassicalFromTag(t: bytes): Res<ClassicalAlg> {
    if t == Ascii("ed25519") then Ok(Ed25519)
    else if t == Ascii("p256") then Ok(P256)
    else Err(UnknownAlg)
  }

  function PqTag(a: PqAlg): bytes {
    match a
    case MlDsa44 => Ascii("ml-dsa-44")
    case MlDsa65 => Ascii("ml-dsa-65")
    case MlDsa87 => Ascii("ml-dsa-87")
  }

  function PqFromTag(t: bytes): Res<PqAlg> {
    if t == Ascii("ml-dsa-44") then Ok(MlDsa44)
    else if t == Ascii("ml-dsa-65") then Ok(MlDsa65)
    else if t == Ascii("ml-dsa-87") then Ok(MlDsa87)
    else Err(UnknownAlg)
  }

  /** Tags name algorithms one to one. */
  lemma TagRoundTrip(c: ClassicalAlg, p: PqAlg)
    ensures ClassicalFromTag(ClassicalTag(c)) == Ok(c) && IsText(ClassicalTag(c))
    ensures PqFromTag(PqTag(p)) == Ok(p) && IsText(PqTag(p))
  {
    hide ValidUtf8;
    LiteralIsText("ed25519");
    LiteralIsText("p256");
    LiteralIsText("ml-dsa-44");
    LiteralIsText("ml-dsa-65");
    LiteralIsText("ml-dsa-87");
    assert |Ascii("p256")| == 4 && |Ascii("ed25519")| == 7;
    assert Ascii("ml-dsa-44")[7] == '4' as int;
    assert Ascii("ml-dsa-65")[7] == '6' as int;
    assert Ascii("ml-dsa-87")[7] == '8' as int;
  }

  /** A text names an algorithm exactly when it is that algorithm's tag. */
  lemma TagsExactly(t: bytes, c: ClassicalAlg, p: PqAlg)
    ensures ClassicalFromTag(t) == Ok(c) <==> t == ClassicalTag(c)
    ensures PqFromTag(t) == Ok(p) <==> t == PqTag(p)
  {
    hide IsText;
    TagRoundTrip(c, p);
  }

  // ---- keys and signatures ----

  datatype ClassicalPublicKey = ClassicalPublicKey(alg: ClassicalAlg, raw: bytes)
  datatype ClassicalSignature = ClassicalSignature(alg: ClassicalAlg, raw: bytes)
  datatype PqPublicKey = PqPublicKey(alg: PqAlg, raw: bytes)
  datatype PqSignature = PqSignature(alg: PqAlg, raw: bytes)

  /** The primitives the protocol is built on, left open: digests and signature checks. */
  datatype Crypto = Crypto(
    sha256: bytes -> bytes,
    blake3: bytes -> bytes,
    verifyPq: (PqPublicKey, bytes, PqSignature) -> Res<()>,
    verifyClassical: (ClassicalPublicKey, bytes, ClassicalSignature) -> Res<()>)

  function Described(tag: bytes, field: bytes, raw: bytes): Value {
    Map([Keyed(ALG, Text(tag)), Keyed(field, Bytes(raw))])
  }

  function ClassicalKeyValue(k: ClassicalPublicKey): Value {
    Described(ClassicalTag(k.alg), KEY, k.raw)
  }

  function ClassicalSigValue(s: ClassicalSignature): Value {
    Described(ClassicalTag(s.alg), SIG, s.raw)
  }

  function PqKeyValue(k: PqPublicKey): Value {
    Described(PqTag(k.alg), KEY, k.raw)
  }

  function PqSigValue(s: PqSignature): Value {
    Described(PqTag(s.alg), SIG, s.raw)
  }

  function GetText(v: Value, k: bytes): Res<bytes> {
    var x :- Get(v, k);
    AsText(x)
  }

  function GetBytes(v: Value, k: bytes): Res<bytes> {
    var x :- Get(v, k);
    AsBytes(x)
  }

  function GetUint(v: Value, k: bytes): Res<nat> {
    var x :- Get(v, k);
    AsUint(x)
  }

  function ReadClassicalKey(v: Value): Res<ClassicalPublicKey> {
    var tag :- GetText(v, ALG);
    var alg :- ClassicalFromTag(tag);
    var raw :- GetBytes(v, KEY);
    Ok(ClassicalPublicKey(alg, raw))
  }

  function ReadClassicalSig(v: Value): Res<ClassicalSignature> {
    var tag :- GetText(v, ALG);
    var alg :- ClassicalFromTag(tag);
    var raw :- GetBytes(v, SIG);
    Ok(ClassicalSignature(alg, raw))
  }

  function ReadPqKey(v: Value): Res<PqPublicKey> {
    var tag :- GetText(v, ALG);
    var alg :- PqFromTag(tag);
    var raw :- GetBytes(v, KEY);
    Ok(PqPublicKey(alg, raw))
  }

  function ReadPqSig(v: Value): Res<PqSignature> {
    var tag :- GetText(v, ALG);
    var alg :- PqFromTag(tag);
    var raw :- GetBytes(v, SIG);
    Ok(PqSignature(alg, raw))
  }

  lemma DescribedWell(tag: bytes, field: bytes, raw: bytes)
    requires IsText(tag) && (field == KEY || field == SIG) && |raw| < U64
    ensures var v := Described(tag, field, raw);
            Representable(v) && NoRepeats(v) && Distinct(v.entries)
  {
    hide ValidUtf8;
    Names();
    NamesAreText();
    DistinctByIndex(Described(tag, field, raw).entries);
  }

  /** A described key or signature, after canonicalisation, still holds its two fields. */
  lemma DescribedCanon(tag: bytes, field: bytes, raw: bytes)
    requires IsText(tag) && (field == KEY || field == SIG) && |raw| < U64
    ensures var v := Described(tag, field, raw);
            Representable(v) && NoRepeats(v) && Canon(v).Map? &&
            GetText(Canon(v), ALG) == Ok(tag) && GetBytes(Canon(v), field) == Ok(raw)
  {
    hide IsText, Distinct, Representable, NoRepeats, Lookup;
    DescribedWell(tag, field, raw);
    var es := Described(tag, field, raw).entries;
    assert es[0] in es && es[1] in es;
    LookupEntry(es, es[0]);
    LookupEntry(es, es[1]);
    LookupCanon(es, ALG);
    LookupCanon(es, field);
  }

  /** Keys and signatures survive a trip through their canonical map. */
  lemma KeyRoundTrip(k: ClassicalPublicKey, s: ClassicalSignature, pk: PqPublicKey, ps: PqSignature)
    requires |k.raw| < U64 && |s.raw| < U64 && |pk.raw| < U64 && |ps.raw| < U64
    ensures ReadClassicalKey(Canon(ClassicalKeyValue(k))) == Ok(k)
    ensures ReadClassicalSig(Canon(ClassicalSigValue(s))) == Ok(s)
    ensures ReadPqKey(Canon(PqKeyValue(pk))) == Ok(pk)
    ensures ReadPqSig(Canon(PqSigValue(ps))) == Ok(ps)
  {
    hide GetText, GetBytes, Described, ClassicalTag, PqTag, ClassicalFromTag, PqFromTag, IsText, Canon;
    TagRoundTrip(k.alg, pk.alg);
    TagRoundTrip(s.alg, ps.alg);
    DescribedCanon(ClassicalTag(k.alg), KEY, k.raw);
    DescribedCanon(ClassicalTag(s.alg), SIG, s.raw);
    DescribedCanon(PqTag(pk.alg), KEY, pk.raw);
    DescribedCanon(PqTag(ps.alg), SIG, ps.raw);
  }

  /** The bytes hashed into a fingerprint. */
  function FingerprintPreimage(k: ClassicalPublicKey): bytes {
    Encode(ClassicalKeyValue(k))
  }

  /** The bytes hashed into the XID of a new post-quantum identity. */
  function XidPreimage(k: PqPublicKey): bytes {
    Encode(PqKeyValue(k))
  }

  /** Fingerprint and XID preimages commit to algorithm and key together. */
  lemma PreimagesCommit(a: ClassicalPublicKey, b: ClassicalPublicKey, p: PqPublicKey, q: PqPublicKey)
    requires |a.raw| < U64 && |b.raw| < U64 && |p.raw| < U64 && |q.raw| < U64
    ensures FingerprintPreimage(a) == FingerprintPreimage(b) <==> a == b
    ensures XidPreimage(p) == XidPreimage(q) <==> p == q
    ensures FingerprintPreimage(a) != XidPreimage(p)
  {
    hide Described, Encode, Canon, ClassicalTag, PqTag, ReadClassicalKey, ReadPqKey;
    var s, t := ClassicalSignature(a.alg, a.raw), PqSignature(p.alg, p.raw);
    KeyRoundTrip(a, s, p, t);
    KeyRoundTrip(b, s, q, t);
    KeyValueWell(a, p);
    KeyValueWell(b, q);
    EncodeThenDecode(ClassicalKeyValue(a));
    EncodeThenDecode(ClassicalKeyValue(b));
    EncodeThenDecode(PqKeyValue(p));
    EncodeThenDecode(PqKeyValue(q));
    KindsDiffer(a, p);
  }

  lemma KeyValueWell(k: ClassicalPublicKey, p: PqPublicKey)
    requires |k.raw| < U64 && |p.raw| < U64
    ensures Representable(ClassicalKeyValue(k)) && NoRepeats(ClassicalKeyValue(k))
    ensures Representable(PqKeyValue(p)) && NoRepeats(PqKeyValue(p))
  {
    hide Described, ClassicalTag, PqTag, Representable, NoRepeats;
    TagRoundTrip(k.alg, p.alg);
    DescribedCanon(ClassicalTag(k.alg), KEY, k.raw);
    DescribedCanon(PqTag(p.alg), KEY, p.raw);
  }

  /** No post-quantum tag names a classical algorithm. */
  lemma KindsDiffer(k: ClassicalPublicKey, p: PqPublicKey)
    requires |k.raw| < U64 && |p.raw| < U64
    ensures Canon(ClassicalKeyValue(k)) != Canon(PqKeyValue(p))
  {
    hide Described, Canon, GetText, GetBytes, IsText;
    TagRoundTrip(k.alg, p.alg);
    DescribedCanon(ClassicalTag(k.alg), KEY, k.raw);
    DescribedCanon(PqTag(p.alg), KEY, p.raw);
  }

  /** A map that gives an algorithm by its tag and raw bytes under a field. */
  ghost predicate Describes(v: Value, tag: bytes, field: bytes, raw: bytes) {
    v.Map? && Lookup(v.entries, ALG) == Some(Text(tag)) && Lookup(v.entries, field) == Some(Bytes(raw))
  }

  /** Which values are read as keys and signatures: exactly the maps that describe them. */
  lemma KeysReadExactly(v: Value, k: ClassicalPublicKey, s: ClassicalSignature, pk: PqPublicKey, ps: PqSignature)
    ensures ReadClassicalKey(v) == Ok(k) <==> Describes(v, ClassicalTag(k.alg), KEY, k.raw)
    ensures ReadClassicalSig(v) == Ok(s) <==> Describes(v, ClassicalTag(s.alg), SIG, s.raw)
    ensures ReadPqKey(v) == Ok(pk) <==> Describes(v, PqTag(pk.alg), KEY, pk.raw)
    ensures ReadPqSig(v) == Ok(ps) <==> Describes(v, PqTag(ps.alg), SIG, ps.raw)
  {
    hide Lookup, ClassicalTag, PqTag, ClassicalFromTag, PqFromTag;
    if GetText(v, ALG).Ok? {
      var t := GetText(v, ALG).value;
      TagsExactly(t, k.alg, pk.alg);
      TagsExactly(t, s.alg, ps.alg);
    }
  }
}
