/** Commitments over a share's access set, and the grants that sign them. */
module Grant {
  import opened Basics
  import opened LexSort
  import opened Cbor
  import opened CborProofs
  import opened CborMaps
  import opened Dcbor
  import opened Keys
  import S = Share

  type GrantRes<+T> = Result<T, S.ShareError>

  const CONTENT_DOMAIN: bytes := Ascii("identikey-share-v1-content") + [10]
  const ACCESS_DOMAIN: bytes := Ascii("identikey-share-v1-access") + [10]
  const GRANT_DOMAIN: bytes := Ascii("identikey-share-v1-grant") + [10]

  const TAG_X25519: bytes := Ascii("x25519")
  const TAG_ED25519: bytes := Ascii("ed25519")
  const TAG_P256: bytes := Ascii("p256")
  const TAG_RECRYPT: bytes := Ascii("recrypt-pre")

  const BACKEND: bytes := Ascii("backend")
  const RECIPIENT: bytes := Ascii("recipient")
  const CIPHERTEXT: bytes := Ascii("ciphertext")

  // ---- parts: one per direct target, one per capsule ----

  datatype Party = Direct(target: S.WrapPublic) | Capsule(capsule: S.RecryptCapsule)

  function WrapTag(t: S.WrapPublic): bytes {
    match t
    case X25519(_) => TAG_X25519
    case Ed25519(_) => TAG_ED25519
    case P256(_) => TAG_P256
  }

  function PartEntries(x: Party): Entries {
    match x
    case Direct(t) => [Keyed(ALG, Text(WrapTag(t))), Keyed(KEY, Bytes(t.raw))]
    case Capsule(c) =>
      [Keyed(ALG, Text(TAG_RECRYPT)), Keyed(BACKEND, Text(c.backend)),
       Keyed(RECIPIENT, Bytes(c.recipient)), Keyed(CIPHERTEXT, Bytes(c.ciphertext))]
  }

  function RawPart(x: Party): bytes {
    Encode(Map(PartEntries(x)))
  }

  /** A part as the dcbor printer writes it. */
  function Part(nfc: Nfc, x: Party): bytes {
    Print(nfc, Map(PartEntries(x)))
  }

  function NormalCapsule(nfc: Nfc, c: S.RecryptCapsule): S.RecryptCapsule {
    c.(backend := nfc(c.backend))
  }

  function NormalParty(nfc: Nfc, x: Party): Party {
    if x.Capsule? then Capsule(NormalCapsule(nfc, x.capsule)) else x
  }

  function NormalCapsules(nfc: Nfc, cs: seq<S.RecryptCapsule>): (r: seq<S.RecryptCapsule>)
    ensures |r| == |cs|
  {
    if cs == [] then [] else [NormalCapsule(nfc, cs[0])] + NormalCapsules(nfc, cs[1..])
  }

  /** The share with every backend name in form C. */
  function NormalShare(nfc: Nfc, share: S.Share): S.Share {
    share.(recrypt := NormalCapsules(nfc, share.recrypt))
  }

  function Directs(ts: seq<S.WrapPublic>): seq<Party> {
    if ts == [] then [] else [Direct(ts[0])] + Directs(ts[1..])
  }

  function CapsulesOf(cs: seq<S.RecryptCapsule>): seq<Party> {
    if cs == [] then [] else [Capsule(cs[0])] + CapsulesOf(cs[1..])
  }

  /** Everyone with access: the direct targets, then the capsules. */
  function Parties(share: S.Share): seq<Party> {
    Directs(share.targets) + CapsulesOf(share.recrypt)
  }

  lemma {:induction false} DirectsCount(ts: seq<S.WrapPublic>, x: Party)
    ensures multiset(Directs(ts))[x] == if x.Direct? then multiset(ts)[x.target] else 0
  {
    if ts != [] {
      DirectsCount(ts[1..], x);
      assert ts == [ts[0]] + ts[1..];
    }
  }

  lemma {:induction false} CapsulesCount(cs: seq<S.RecryptCapsule>, x: Party)
    ensures multiset(CapsulesOf(cs))[x] == if x.Capsule? then multiset(cs)[x.capsule] else 0
  {
    if cs != [] {
      CapsulesCount(cs[1..], x);
      assert cs == [cs[0]] + cs[1..];
    }
  }

  lemma PartiesCount(share: S.Share, x: Party)
    ensures multiset(Parties(share))[x]
            == if x.Direct? then multiset(share.targets)[x.target] else multiset(share.recrypt)[x.capsule]
  {
    DirectsCount(share.targets, x);
    CapsulesCount(share.recrypt, x);
  }

  /** The multiset of parties is the multiset of targets together with that of capsules. */
  lemma PartiesExactly(a: S.Share, b: S.Share)
    ensures multiset(Parties(a)) == multiset(Parties(b)) <==>
            multiset(a.targets) == multiset(b.targets) && multiset(a.recrypt) == multiset(b.recrypt)
  {
    hide Parties;
    forall x
      ensures multiset(Parties(a))[x] == if x.Direct? then multiset(a.targets)[x.target] else multiset(a.recrypt)[x.capsule]
      ensures multiset(Parties(b))[x] == if x.Direct? then multiset(b.targets)[x.target] else multiset(b.recrypt)[x.capsule]
    {
      PartiesCount(a, x);
      PartiesCount(b, x);
    }
    if multiset(Parties(a)) == multiset(Parties(b)) {
      forall t
        ensures multiset(a.targets)[t] == multiset(b.targets)[t]
      {
        assert multiset(Parties(a))[Direct(t)] == multiset(Parties(b))[Direct(t)];
      }
      forall c
        ensures multiset(a.recrypt)[c] == multiset(b.recrypt)[c]
      {
        assert multiset(Parties(a))[Capsule(c)] == multiset(Parties(b))[Capsule(c)];
      }
    }
  }

  function RawParts(xs: seq<Party>): seq<bytes> {
    if xs == [] then [] else [RawPart(xs[0])] + RawParts(xs[1..])
  }

  ghost predicate PartyFits(x: Party) {
    match x
    case Direct(t) => |t.raw| < U64
    case Capsule(c) => IsText(c.backend) && |c.recipient| < U64 && |c.ciphertext| < U64
  }

  ghost predicate RawShareFits(share: S.Share) {
    |Parties(share)| < U64 && (forall x :: x in Parties(share) ==> PartyFits(x) && |RawPart(x)| < U64) &&
    |share.nonce| == 24 && |share.ciphertext| < U64 && share.epoch < U64
  }

  /** What the Rust types guarantee, of the share as it prints. */
  ghost predicate ShareFits(nfc: Nfc, share: S.Share) {
    RawShareFits(NormalShare(nfc, share))
  }

  function Parts(nfc: Nfc, xs: seq<Party>): seq<bytes> {
    if xs == [] then [] else [Part(nfc, xs[0])] + Parts(nfc, xs[1..])
  }

  /** Of a part only the backend name is text of the caller's choosing. */
  lemma PartNormal(nfc: Nfc, x: Party)
    requires Normalizes(nfc)
    ensures Part(nfc, x) == RawPart(NormalParty(nfc, x))
  {
    hide Normalizes, Encode, Ascii;
    TagsStay(nfc);
    hide Normal;
    var es, ns := PartEntries(x), PartEntries(NormalParty(nfc, x));
    PartValuesNormal(nfc, x);
    forall i | 0 <= i < |es|
      ensures NormalEntries(nfc, es)[i] == ns[i]
    {
      NormalEntriesAt(nfc, es, i);
    }
    assert NormalEntries(nfc, es) == ns;
    NormalMap(nfc, es);
  }

  lemma NormalMap(nfc: Nfc, es: Entries)
    ensures Normal(nfc, Map(es)) == Map(NormalEntries(nfc, es))
  {
  }

  lemma TagsStay(nfc: Nfc)
    requires Normalizes(nfc)
    ensures nfc(TAG_X25519) == TAG_X25519 && nfc(TAG_ED25519) == TAG_ED25519
    ensures nfc(TAG_P256) == TAG_P256 && nfc(TAG_RECRYPT) == TAG_RECRYPT
  {
    assert IsAscii(TAG_X25519) && IsAscii(TAG_ED25519) && IsAscii(TAG_P256) && IsAscii(TAG_RECRYPT);
  }

  lemma PartValuesNormal(nfc: Nfc, x: Party)
    requires Normalizes(nfc)
    ensures forall i :: 0 <= i < |PartEntries(x)| ==>
              Normal(nfc, PartEntries(x)[i].val) == PartEntries(NormalParty(nfc, x))[i].val
  {
    TagsStay(nfc);
    hide Normalizes, Ascii;
  }

  lemma {:induction false} PartsNormal(nfc: Nfc, cs: seq<S.RecryptCapsule>)
    requires Normalizes(nfc)
    ensures Parts(nfc, CapsulesOf(cs)) == RawParts(CapsulesOf(NormalCapsules(nfc, cs)))
  {
    hide Part, RawPart, Normalizes;
    if cs != [] {
      PartNormal(nfc, Capsule(cs[0]));
      PartsNormal(nfc, cs[1..]);
      assert CapsulesOf(cs)[1..] == CapsulesOf(cs[1..]);
      var ns := NormalCapsules(nfc, cs);
      assert ns[1..] == NormalCapsules(nfc, cs[1..]) && CapsulesOf(ns)[1..] == CapsulesOf(ns[1..]);
    }
  }

  lemma {:induction false} DirectPartsNormal(nfc: Nfc, ts: seq<S.WrapPublic>, xs: seq<Party>, ys: seq<Party>)
    requires Normalizes(nfc) && Parts(nfc, xs) == RawParts(ys)
    ensures Parts(nfc, Directs(ts) + xs) == RawParts(Directs(ts) + ys)
  {
    hide Part, RawPart, Normalizes, Parts, RawParts, Directs;
    DirectsCons(ts, xs);
    DirectsCons(ts, ys);
    if ts != [] {
      var d := Direct(ts[0]);
      PartNormal(nfc, d);
      DirectPartsNormal(nfc, ts[1..], xs, ys);
      PartsCons(nfc, d, Directs(ts[1..]) + xs);
      RawPartsCons(d, Directs(ts[1..]) + ys);
    }
  }

  lemma DirectsCons(ts: seq<S.WrapPublic>, xs: seq<Party>)
    ensures Directs(ts) + xs == if ts == [] then xs else [Direct(ts[0])] + (Directs(ts[1..]) + xs)
  {
  }

  lemma PartsCons(nfc: Nfc, x: Party, xs: seq<Party>)
    ensures Parts(nfc, [x] + xs) == [Part(nfc, x)] + Parts(nfc, xs)
  {
    hide Part;
    assert ([x] + xs)[1..] == xs;
  }

  lemma RawPartsCons(x: Party, xs: seq<Party>)
    ensures RawParts([x] + xs) == [RawPart(x)] + RawParts(xs)
  {
    hide RawPart;
    assert ([x] + xs)[1..] == xs;
  }

  /** The parts of a share are those of the share in form C. */
  lemma SharePartsNormal(nfc: Nfc, share: S.Share)
    requires Normalizes(nfc)
    ensures Parts(nfc, Parties(share)) == RawParts(Parties(NormalShare(nfc, share)))
  {
    hide Normalizes, Parts, RawParts;
    PartsNormal(nfc, share.recrypt);
    DirectPartsNormal(nfc, share.targets, CapsulesOf(share.recrypt), CapsulesOf(NormalCapsules(nfc, share.recrypt)));
  }

  // ---- length-prefixed framing ----

  function Framed(parts: seq<bytes>): bytes {
    if parts == [] then [] else ToBE(|parts[0]|, 8) + (parts[0] + Framed(parts[1..]))
  }

  lemma BE8Injective(m: nat, n: nat)
    requires m < U64 && n < U64 && ToBE(m, 8) == ToBE(n, 8)
    ensures m == n
  {
    Pow256Widths();
    FromToBE(m, 8);
    FromToBE(n, 8);
  }

  lemma MaterialSplit(d: bytes, m: nat, a: bytes, n: nat, b: bytes)
    requires m < U64 && n < U64 && d + ToBE(m, 8) + a == d + ToBE(n, 8) + b
    ensures m == n && a == b
  {
    hide ToBE;
    var x, y := d + ToBE(m, 8) + a, d + ToBE(n, 8) + b;
    assert x[|d|..|d| + 8] == ToBE(m, 8) && y[|d|..|d| + 8] == ToBE(n, 8);
    assert a == x[|d| + 8..] && b == y[|d| + 8..];
    BE8Injective(m, n);
  }

  lemma SplitEqual(x: bytes, r: bytes, y: bytes, s: bytes)
    requires |x| == |y| && x + r == y + s
    ensures x == y && r == s
  {
    assert x == (x + r)[..|x|] && y == (y + s)[..|y|];
    assert r == (x + r)[|x|..] && s == (y + s)[|y|..];
  }

  lemma FrameSplit(x: bytes, r: bytes, y: bytes, s: bytes)
    requires |x| < U64 && |y| < U64
    requires ToBE(|x|, 8) + (x + r) == ToBE(|y|, 8) + (y + s)
    ensures x == y && r == s
  {
    hide ToBE;
    SplitEqual(ToBE(|x|, 8), x + r, ToBE(|y|, 8), y + s);
    BE8Injective(|x|, |y|);
    SplitEqual(x, r, y, s);
  }

  lemma {:induction false} FramedInjective(a: seq<bytes>, b: seq<bytes>)
    requires |a| == |b| && Framed(a) == Framed(b)
    requires (forall x :: x in a ==> |x| < U64) && forall x :: x in b ==> |x| < U64
    ensures a == b
  {
    hide ToBE;
    if a != [] {
      FrameSplit(a[0], Framed(a[1..]), b[0], Framed(b[1..]));
      FramedInjective(a[1..], b[1..]);
      assert a == [a[0]] + a[1..] && b == [b[0]] + b[1..];
    }
  }

  // ---- commitment ----

  function AccessMaterial(parts: seq<bytes>): bytes {
    var sorted := SortLex(parts);
    ACCESS_DOMAIN + ToBE(|sorted|, 8) + Framed(sorted)
  }

  function ContentMaterial(share: S.Share): bytes {
    CONTENT_DOMAIN + share.nonce + ToBE(|share.ciphertext|, 8) + share.ciphertext
  }

  /** The commitment preimage is a function of the multiset of parts, and an injective one. */
  lemma MaterialExactly(a: seq<bytes>, b: seq<bytes>)
    requires |a| < U64 && |b| < U64
    requires (forall x :: x in a ==> |x| < U64) && forall x :: x in b ==> |x| < U64
    ensures AccessMaterial(a) == AccessMaterial(b) <==> multiset(a) == multiset(b)
  {
    hide ToBE, Framed, SortLex, SortedLex;
    SortLexProps(a);
    SortLexProps(b);
    var sa, sb := SortLex(a), SortLex(b);
    assert |multiset(sa)| == |multiset(a)| && |multiset(sb)| == |multiset(b)|;
    if multiset(a) == multiset(b) {
      SortedUnique(sa, sb);
    } else if AccessMaterial(a) == AccessMaterial(b) {
      MaterialSplit(ACCESS_DOMAIN, |sa|, Framed(sa), |sb|, Framed(sb));
      assert forall x :: x in sa ==> x in multiset(a);
      assert forall x :: x in sb ==> x in multiset(b);
      FramedInjective(sa, sb);
    }
  }

  /** The content preimage determines payload nonce and ciphertext. */
  lemma ContentMaterialInjective(a: S.Share, b: S.Share)
    requires |a.nonce| == 24 && |b.nonce| == 24 && |a.ciphertext| < U64 && |b.ciphertext| < U64
    ensures ContentMaterial(a) == ContentMaterial(b) <==> a.nonce == b.nonce && a.ciphertext == b.ciphertext
  {
    hide ToBE;
    var x, y := ContentMaterial(a), ContentMaterial(b);
    if x == y {
      var d := |CONTENT_DOMAIN|;
      assert a.nonce == x[d..d + 24] && b.nonce == y[d..d + 24];
      MaterialSplit(CONTENT_DOMAIN + a.nonce, |a.ciphertext|, a.ciphertext, |b.ciphertext|, b.ciphertext);
    }
  }

  // ---- parts determine parties ----

  lemma GrantNames()
    ensures |BACKEND| == 7 && |RECIPIENT| == 9 && |CIPHERTEXT| == 10
    ensures |TAG_X25519| == 6 && |TAG_ED25519| == 7 && |TAG_P256| == 4 && |TAG_RECRYPT| == 11
    ensures IsText(BACKEND) && IsText(RECIPIENT) && IsText(CIPHERTEXT)
    ensures IsText(TAG_X25519) && IsText(TAG_ED25519) && IsText(TAG_P256) && IsText(TAG_RECRYPT)
  {
    hide IsText;
    LiteralIsText("backend");
    LiteralIsText("recipient");
    LiteralIsText("ciphertext");
    LiteralIsText("x25519");
    LiteralIsText("ed25519");
    LiteralIsText("p256");
    LiteralIsText("recrypt-pre");
  }

  lemma PartWell(x: Party)
    requires PartyFits(x)
    ensures Distinct(PartEntries(x))
    ensures Representable(Map(PartEntries(x))) && NoRepeats(Map(PartEntries(x)))
  {
    hide ValidUtf8, Distinct;
    Names();
    NamesAreText();
    GrantNames();
    DistinctByIndex(PartEntries(x));
  }

  /** What a part says under a name. */
  ghost function PartLookup(x: Party, k: bytes): Option<Value> {
    Lookup(PartEntries(x), k)
  }

  lemma PartLookups(x: Party)
    requires PartyFits(x)
    ensures x.Direct? ==>
              PartLookup(x, ALG) == Some(Text(WrapTag(x.target))) && PartLookup(x, KEY) == Some(Bytes(x.target.raw))
    ensures x.Capsule? ==>
              PartLookup(x, ALG) == Some(Text(TAG_RECRYPT)) &&
              PartLookup(x, BACKEND) == Some(Text(x.capsule.backend)) &&
              PartLookup(x, RECIPIENT) == Some(Bytes(x.capsule.recipient)) &&
              PartLookup(x, CIPHERTEXT) == Some(Bytes(x.capsule.ciphertext))
  {
    hide Lookup, Distinct, IsText;
    PartWell(x);
    var es := PartEntries(x);
    assert es[0] in es && es[1] in es;
    LookupEntry(es, es[0]);
    LookupEntry(es, es[1]);
    if x.Capsule? {
      assert es[2] in es && es[3] in es;
      LookupEntry(es, es[2]);
      LookupEntry(es, es[3]);
    }
  }

  lemma SamePartSameLookups(x: Party, y: Party, k: bytes)
    requires PartyFits(x) && PartyFits(y) && RawPart(x) == RawPart(y)
    ensures CanonOption(PartLookup(x, k)) == CanonOption(PartLookup(y, k))
  {
    hide Encode, PartEntries, Lookup, Distinct, Representable, NoRepeats, PartyFits, CanonOption;
    PartWell(x);
    PartWell(y);
    EncodeThenDecode(Map(PartEntries(x)));
    EncodeThenDecode(Map(PartEntries(y)));
    LookupCanon(PartEntries(x), k);
    LookupCanon(PartEntries(y), k);
  }

  /** Targets and capsules in form C are told apart by their parts. */
  lemma RawPartInjective(x: Party, y: Party)
    requires PartyFits(x) && PartyFits(y) && RawPart(x) == RawPart(y)
    ensures x == y
  {
    hide RawPart, PartLookup, PartyFits, IsText, CanonItems, CanonValues;
    PartLookups(x);
    PartLookups(y);
    GrantNames();
    SamePartSameLookups(x, y, ALG);
    SamePartSameLookups(x, y, KEY);
    SamePartSameLookups(x, y, BACKEND);
    SamePartSameLookups(x, y, RECIPIENT);
    SamePartSameLookups(x, y, CIPHERTEXT);
  }

  lemma {:induction false} PartsCount(xs: seq<Party>, x: Party)
    requires PartyFits(x) && forall y :: y in xs ==> PartyFits(y)
    ensures multiset(RawParts(xs))[RawPart(x)] == multiset(xs)[x]
  {
    hide RawPart, PartyFits;
    if xs != [] {
      PartsCount(xs[1..], x);
      assert xs == [xs[0]] + xs[1..];
      if RawPart(xs[0]) == RawPart(x) {
        RawPartInjective(xs[0], x);
      }
    }
  }

  lemma {:induction false} PartsMembers(xs: seq<Party>)
    requires forall x :: x in xs ==> |RawPart(x)| < U64
    ensures |RawParts(xs)| == |xs| && (forall p :: p in RawParts(xs) ==> |p| < U64)
    ensures forall p :: p in RawParts(xs) ==> exists x :: x in xs && RawPart(x) == p
  {
    hide RawPart;
    if xs != [] {
      PartsMembers(xs[1..]);
      assert forall p :: p in RawParts(xs) <==> p == RawPart(xs[0]) || p in RawParts(xs[1..]);
      assert xs[0] in xs;
    }
  }

  lemma PartsExactly(xs: seq<Party>, ys: seq<Party>)
    requires forall x :: x in xs ==> PartyFits(x) && |RawPart(x)| < U64
    requires forall y :: y in ys ==> PartyFits(y) && |RawPart(y)| < U64
    ensures multiset(RawParts(xs)) == multiset(RawParts(ys)) <==> multiset(xs) == multiset(ys)
  {
    hide RawPart, PartyFits, RawParts;
    if multiset(RawParts(xs)) == multiset(RawParts(ys)) {
      forall x
        ensures multiset(xs)[x] == multiset(ys)[x]
      {
        if x in xs || x in ys {
          PartsCount(xs, x);
          PartsCount(ys, x);
        }
      }
      assert multiset(xs) == multiset(ys);
    }
    if multiset(xs) == multiset(ys) {
      PartsMembers(xs);
      PartsMembers(ys);
      forall p
        ensures multiset(RawParts(xs))[p] == multiset(RawParts(ys))[p]
      {
        if p in RawParts(xs) {
          var x :| x in xs && RawPart(x) == p;
          PartsCount(xs, x);
          assert x in multiset(ys);
          PartsCount(ys, x);
        } else if p in RawParts(ys) {
          var y :| y in ys && RawPart(y) == p;
          PartsCount(ys, y);
          assert y in multiset(xs);
          PartsCount(xs, y);
        }
      }
      assert multiset(RawParts(xs)) == multiset(RawParts(ys));
    }
  }

  /** Parts agree exactly up to the normalization of the backend name. */
  lemma PartsAgreeExactly(nfc: Nfc, x: Party, y: Party)
    requires Normalizes(nfc) && PartyFits(NormalParty(nfc, x)) && PartyFits(NormalParty(nfc, y))
    ensures Part(nfc, x) == Part(nfc, y) <==> NormalParty(nfc, x) == NormalParty(nfc, y)
  {
    hide Part, RawPart, PartyFits, Normalizes;
    PartNormal(nfc, x);
    PartNormal(nfc, y);
    if Part(nfc, x) == Part(nfc, y) {
      RawPartInjective(NormalParty(nfc, x), NormalParty(nfc, y));
    }
  }

  // ---- parts read back ----

  /** Keys by algorithm name and length; the curve checks on the key itself are left open. */
  function TargetOf(accepts: S.WrapPublic -> bool, alg: bytes, key: bytes): GrantRes<S.WrapPublic> {
    if alg == Ascii("x25519") && |key| == 32 then Accepted(accepts, S.X25519(key))
    else if alg == Ascii("ed25519") && |key| == 32 then Accepted(accepts, S.Ed25519(key))
    else if alg == Ascii("p256") && |key| == 33 then Accepted(accepts, S.P256(key))
    else Err(S.BadPayload)
  }

  function Accepted(accepts: S.WrapPublic -> bool, t: S.WrapPublic): GrantRes<S.WrapPublic> {
    if accepts(t) then Ok(t) else Err(S.RejectedKey)
  }

  function ParseTarget(accepts: S.WrapPublic -> bool, v: Value): GrantRes<S.WrapPublic> {
    if !v.Map? || |v.entries| != 2 then Err(S.BadPayload)
    else
      match (Lookup(v.entries, ALG), Lookup(v.entries, KEY))
      case (Some(Text(alg)), Some(Bytes(key))) => TargetOf(accepts, alg, key)
      case _ => Err(S.BadPayload)
  }

  function ParseCapsule(v: Value): GrantRes<S.RecryptCapsule> {
    if !v.Map? || |v.entries| != 4 || Lookup(v.entries, ALG) != Some(Text(Ascii("recrypt-pre"))) then
      Err(S.BadRecrypt)
    else
      match (Lookup(v.entries, BACKEND), Lookup(v.entries, RECIPIENT), Lookup(v.entries, CIPHERTEXT))
      case (Some(Text(backend)), Some(Bytes(recipient)), Some(Bytes(ciphertext))) =>
        if backend == [] || recipient == [] || ciphertext == [] then Err(S.BadRecrypt)
        else Ok(S.RecryptCapsule(backend, recipient, ciphertext))
      case _ => Err(S.BadRecrypt)
  }

  /** A part's bytes parse back: a target to itself, a capsule to itself with its backend normalized. */
  lemma PartsParse(nfc: Nfc, accepts: S.WrapPublic -> bool, x: Party)
    requires Normalizes(nfc) && PartyFits(NormalParty(nfc, x))
    requires x.Direct? ==> accepts(x.target) && |x.target.raw| == if x.target.P256? then 33 else 32
    requires x.Capsule? ==> x.capsule.backend != [] && x.capsule.recipient != [] && x.capsule.ciphertext != []
    ensures FromBytes(Part(nfc, x)).Ok?
    ensures x.Direct? ==> ParseTarget(accepts, FromBytes(Part(nfc, x)).value) == Ok(x.target)
    ensures x.Capsule? ==> ParseCapsule(FromBytes(Part(nfc, x)).value) == Ok(NormalCapsule(nfc, x.capsule))
  {
    hide Part, Encode, PartLookup, PartyFits, Normalizes, IsText, FromBytes, CanonValues, Sort, PartEntries, Ascii, TargetOf;
    var y := NormalParty(nfc, x);
    PartNormal(nfc, x);
    PartWell(y);
    PartLookups(y);
    EncodeThenDecode(Map(PartEntries(y)));
    PartSize(y);
    CanonSize(PartEntries(y));
    LookupsOfPart(y, ALG);
    LookupsOfPart(y, KEY);
    LookupsOfPart(y, BACKEND);
    LookupsOfPart(y, RECIPIENT);
    LookupsOfPart(y, CIPHERTEXT);
    if x.Direct? {
      TagsRead(accepts, x.target);
    } else {
      NotEmptied(nfc, x.capsule.backend);
    }
  }

  lemma NotEmptied(nfc: Nfc, s: bytes)
    requires Normalizes(nfc) && s != []
    ensures nfc(s) != []
  {
  }

  lemma TagsRead(accepts: S.WrapPublic -> bool, t: S.WrapPublic)
    requires accepts(t) && |t.raw| == if t.P256? then 33 else 32
    ensures TargetOf(accepts, WrapTag(t), t.raw) == Ok(t)
  {
    hide IsText;
    GrantNames();
  }

  lemma PartSize(x: Party)
    ensures |PartEntries(x)| == if x.Direct? then 2 else 4
  {
  }

  lemma LookupsOfPart(x: Party, k: bytes)
    requires PartyFits(x)
    ensures Lookup(Canon(Map(PartEntries(x))).entries, k) == CanonOption(PartLookup(x, k))
  {
    hide PartEntries, Lookup, Distinct, Representable, NoRepeats, PartyFits, CanonOption;
    PartWell(x);
    LookupCanon(PartEntries(x), k);
  }

  /** The preimage hashed into a share's commitment. */
  function ShareMaterial(nfc: Nfc, share: S.Share): bytes {
    AccessMaterial(Parts(nfc, Parties(share)))
  }

  ghost predicate SameAccess(nfc: Nfc, a: S.Share, b: S.Share) {
    multiset(a.targets) == multiset(b.targets)
    && multiset(NormalCapsules(nfc, a.recrypt)) == multiset(NormalCapsules(nfc, b.recrypt))
  }

  /** The access preimage ignores the order of recipients and determines, as multisets, the direct
      targets and the capsules, the latter up to the normalization of their backend names. */
  lemma AccessMaterialExactly(nfc: Nfc, a: S.Share, b: S.Share)
    requires Normalizes(nfc) && ShareFits(nfc, a) && ShareFits(nfc, b)
    ensures ShareMaterial(nfc, a) == ShareMaterial(nfc, b) <==> SameAccess(nfc, a, b)
  {
    var x, y := NormalShare(nfc, a), NormalShare(nfc, b);
    PartiesExactly(x, y);
    hide Parties, RawPart, PartyFits, AccessMaterial, RawParts, Parts, Normalizes, NormalCapsules;
    SharePartsNormal(nfc, a);
    SharePartsNormal(nfc, b);
    PartsMembers(Parties(x));
    PartsMembers(Parties(y));
    MaterialExactly(RawParts(Parties(x)), RawParts(Parties(y)));
    PartsExactly(Parties(x), Parties(y));
  }

  method PushParts(nfc: Nfc, xs: seq<Party>) returns (parts: seq<bytes>)
    ensures parts == Parts(nfc, xs)
  {
    hide Part;
    parts := [];
    var i := 0;
    assert xs[0..] == xs;
    while i < |xs|
      invariant 0 <= i <= |xs| && parts + Parts(nfc, xs[i..]) == Parts(nfc, xs)
    {
      assert xs[i..][1..] == xs[i + 1..];
      parts := parts + [Part(nfc, xs[i])];
      i := i + 1;
    }
    assert parts + [] == parts;
  }

  method AppendFramed(start: bytes, parts: seq<bytes>) returns (material: bytes)
    ensures material == start + Framed(parts)
  {
    hide ToBE;
    material := start;
    var j := 0;
    assert parts[0..] == parts;
    while j < |parts|
      invariant 0 <= j <= |parts| && material + Framed(parts[j..]) == start + Framed(parts)
    {
      assert parts[j..][1..] == parts[j + 1..];
      material := material + ToBE(|parts[j]|, 8) + parts[j];
      j := j + 1;
    }
    assert material + [] == material;
  }

  /** The source's loops: push a part per target and per capsule, sort in place, then frame. */
  method BuildAccessMaterial(nfc: Nfc, share: S.Share) returns (material: bytes)
    ensures material == ShareMaterial(nfc, share)
  {
    hide Parties, Parts, Framed, SortLex, ToBE;
    var parts := PushParts(nfc, Parties(share));
    var sorted := SortLex(parts);
    material := AppendFramed(ACCESS_DOMAIN + ToBE(|sorted|, 8), sorted);
  }
}
