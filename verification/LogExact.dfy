/** Exactly when an envelope under an authored digest shows the authored op, and exactly when two ops
    share a digest. */
module LogExact {
  import opened Basics
  import opened Cbor
  import opened Dcbor
  import opened LexSort
  import opened Envelopes
  import opened LogOps
  import opened LogReading
  import opened LogCore
  import opened LogAuthored
  import opened LogVisible
  import opened LogShown

  function WithKind(op: Op, kind: bytes): Op {
    op.(kind := kind)
  }

  /** `seen` reads as the op without the hidden claims: the same kind up to normalization, every
      other field shown as the author put it, every one missing counted. */
  ghost predicate ShowsElision(k: Codec, op: Op, hidden: set<Claim>, seen: Envelope)
    requires ReadInner(k, seen).Ok?
  {
    var r := ReadInner(k, seen).value;
    k.hash.nfc(r.op.kind) == k.hash.nfc(op.kind) && ReadsWithout(WithKind(op, r.op.kind), hidden, r)
    && r.elided == |set c | c in ClaimList(op) && c in hidden|
  }

  /** What the theorems below suppose of an authored op and an envelope seen under its digest. */
  ghost predicate SeenUnder(k: Codec, op: Op, s: set<bytes>, seen: Envelope) {
    Regular(k.hash) && CollisionFree(k.hash, s) && OpFits(k.hash, op) && ToEnvelope(k, op).Ok?
    && CoversOp(k.hash, s, op) && Covered(k.hash, s, ToEnvelope(k, op).value)
    && WellFormed(k.hash, seen) && Covered(k.hash, s, seen) && ReadInner(k, seen).Ok?
    && Digest(k.hash, seen) == Digest(k.hash, ToEnvelope(k, op).value)
  }

  ghost predicate SameShape(op: Op, seen: Envelope) {
    seen.Node? <==> ClaimList(op) != []
  }

  lemma ReadingOf(k: Codec, seen: Envelope) returns (es: seq<Keyed<Value>>, core: Op, cs: seq<Claim>)
    requires ReadInner(k, seen).Ok?
    ensures Subject(seen) == Leaf(Plain(Map(es))) && ReadCore(k, es) == Ok(core)
    ensures Claims(Assertions(seen)) == Ok(cs) && |cs| == |Assertions(seen)|
    ensures ReadInner(k, seen) == Ok(Tidied(WithClaims(Reading(core, 0), cs)))
  {
    hide ReadCore, ReadAssertions, Claims, Tidied, WithClaims;
    es := SubjectEntries(seen).value;
    core := ReadCore(k, es).value;
    ReadByClaims(Assertions(seen), Reading(core, 0));
    cs := Claims(Assertions(seen)).value;
    ClaimsPointwise(Assertions(seen), cs);
  }

  lemma SameClaims(op: Op, kind: bytes, c: Claim)
    ensures Claimed(WithKind(op, kind), c) <==> Claimed(op, c)
  {
  }

  /** Whatever reads as an op under the digest of an authored op, and has its shape, reads as an
      elision of it. */
  lemma VisibleIsElision(k: Codec, op: Op, s: set<bytes>, seen: Envelope) returns (hidden: set<Claim>)
    requires SeenUnder(k, op, s, seen) && SameShape(op, seen)
    ensures ShowsElision(k, op, hidden, seen)
  {
    hide CollisionFree, ToEnvelope, CoversOp, Mask, Once, Ordered, ReadCore, ReadInner, OpFits, ReadsWithout, ClaimList,
      Covered, Digest, WellFormed, CoreLeaf, Claims, WithClaims, Tidied, Claimed, WithKind, Regular, Shows, NormalItem;
    var inner, ds := Authored(k, op, s);
    ShapeOfAuthored(op, ds);
    RegularNormalizes(k.hash);
    AuthoredWellFormed(k.hash, op, inner, ds);
    CoreIsLeaf(op);
    var es, core, cs := ReadingOf(k, seen);
    SameSkeleton(k.hash, s, inner, seen);
    MembersOf(k.hash, s, inner);
    MembersOf(k.hash, s, seen);
    hidden := VisibleClaims(k.hash, s, Assertions(inner), ds, Assertions(seen), cs);
    KindShown(k, op, es, core);
    FinishElision(op, core, ds, hidden);
    assert (set c | c in ds && c in hidden) == (set c | c in ClaimList(op) && c in hidden);
  }

  lemma RegularNormalizes(h: Digester)
    requires Regular(h)
    ensures Normalizes(h.nfc)
  {
  }

  lemma ShapeOfAuthored(op: Op, ds: seq<Claim>)
    requires forall c :: c in ds <==> Claimed(op, c)
    ensures ds != [] <==> ClaimList(op) != []
    ensures forall c :: c in ds <==> c in ClaimList(op)
  {
    hide ClaimList, Claimed;
    forall c
      ensures c in ds <==> c in ClaimList(op)
    {
      ClaimListMembers(op, c);
    }
    assert ds != [] ==> ds[0] in ds;
    assert ClaimList(op) != [] ==> ClaimList(op)[0] in ClaimList(op);
  }

  lemma KindShown(k: Codec, op: Op, es: seq<Keyed<Value>>, core: Op)
    requires Normalizes(k.hash.nfc) && OpFits(k.hash, op) && ReadCore(k, es) == Ok(core)
    requires NormalItem(k.hash, CoreLeaf(op).item) == NormalItem(k.hash, Plain(Map(es)))
    ensures k.hash.nfc(core.kind) == k.hash.nfc(op.kind) && core == Core(WithKind(op, core.kind))
  {
    hide ReadCore, Lookup, CoreEntries, NormalEntries, Normalizes, HashValues, IsText;
    CoreInverse(k, es);
    CoreLookups(op);
    CoreShown(k.hash, CoreEntries(op), op, es, core);
  }

  lemma FinishElision(op: Op, core: Op, ds: seq<Claim>, hidden: set<Claim>)
    requires Once(ds) && (forall c :: c in ds <==> Claimed(op, c)) && core == Core(WithKind(op, core.kind))
    ensures var r := Tidied(WithClaims(Reading(core, 0), Mask(ds, hidden)));
            r.op.kind == core.kind && ReadsWithout(WithKind(op, core.kind), hidden, r)
            && r.elided == |set c | c in ds && c in hidden|
  {
    hide Mask, Once, SortLex, ReadsWithout, Claimed, DepsOf, NacksOf, TargetOf, StampOf;
    forall c
      ensures Claimed(WithKind(op, core.kind), c) <==> Claimed(op, c)
    {
      SameClaims(op, core.kind, c);
    }
    MaskedReading(WithKind(op, core.kind), ds, hidden);
  }

  // ---- and of the other shape, never ----

  lemma {:induction false} TargetIsShown(o: Option<bytes>, cs: seq<Claim>, b: bytes)
    requires o.Some? || Target(b) in cs
    ensures TargetOf(o, cs).Some?
    decreases |cs|
  {
    if cs != [] {
      TargetIsShown(if cs[0].Target? then Some(cs[0].hash) else o, cs[1..], b);
    }
  }

  lemma {:induction false} StampIsShown(o: Option<nat>, cs: seq<Claim>, n: nat)
    requires o.Some? || Stamp(n) in cs
    ensures StampOf(o, cs).Some?
    decreases |cs|
  {
    if cs != [] {
      StampIsShown(if cs[0].Stamp? then Some(cs[0].secs) else o, cs[1..], n);
    }
  }

  ghost predicate Empty(r: Reading) {
    r.op.deps == [] && r.op.nacks == [] && r.op.target == None && r.op.timestamp == None && r.elided == 0
  }

  /** A reading shows or counts something exactly when there was an assertion to read. */
  lemma EmptyExactly(core: Op, cs: seq<Claim>)
    requires core == Core(core)
    ensures Empty(Tidied(WithClaims(Reading(core, 0), cs))) <==> cs == []
  {
    hide DepsOf, NacksOf, TargetOf, StampOf, SortLex, WithClaims, Tidied;
    TidiedReading(core, cs);
    SortLexProps(DepsOf(cs));
    SortLexProps(NacksOf(cs));
    if cs == [] {
      NothingRead();
    } else {
      var c := cs[0];
      assert c in multiset(cs);
      match c
      case Hidden =>
      case Dep(b) =>
        DepsCount(cs, b);
        assert multiset(SortLex(DepsOf(cs)))[b] > 0;
      case Nack(b) =>
        NacksCount(cs, b);
        assert multiset(SortLex(NacksOf(cs)))[b] > 0;
      case Target(b) => TargetIsShown(None, cs, b);
      case Stamp(n) => StampIsShown(None, cs, n);
    }
  }

  lemma NothingRead()
    ensures SortLex(DepsOf([])) == [] && SortLex(NacksOf([])) == []
    ensures TargetOf(None, []) == None && StampOf(None, []) == None
  {
  }

  /** An elision of an op shows or counts something exactly when the op has a claim. */
  lemma ElisionIsEmptyExactly(op: Op, hidden: set<Claim>, r: Reading)
    requires ReadsWithout(op, hidden, r) && r.elided == |set c | c in ClaimList(op) && c in hidden|
    ensures Empty(r) <==> ClaimList(op) == []
  {
    hide ClaimList, StrictLex;
    forall c
      ensures c in ClaimList(op) <==> Claimed(op, c)
    {
      ClaimListMembers(op, c);
    }
    var gone := set c | c in ClaimList(op) && c in hidden;
    if ClaimList(op) == [] {
      assert gone == {};
      assert forall b :: b !in r.op.deps && b !in r.op.nacks by {
        assert forall b :: !Claimed(op, Dep(b)) && !Claimed(op, Nack(b));
      }
      NoMembers(r.op.deps);
      NoMembers(r.op.nacks);
      assert !Claimed(op, Target(if op.target.Some? then op.target.value else []));
      assert !Claimed(op, Stamp(if op.timestamp.Some? then op.timestamp.value else 0));
    } else {
      var c := ClaimList(op)[0];
      if c in hidden {
        assert c in gone;
      } else {
        assert Claimed(op, c);
      }
    }
  }

  lemma NoMembers(xs: seq<bytes>)
    requires forall b :: b !in xs
    ensures xs == []
  {
    HeadIsIn(xs);
  }

  lemma HeadIsIn(xs: seq<bytes>)
    ensures xs == [] || exists b :: b in xs
  {
    assert xs == [] || xs[0] in xs;
  }

  lemma ClaimsIgnoreKind(op: Op, kind: bytes)
    ensures ClaimList(WithKind(op, kind)) == ClaimList(op)
  {
  }

  lemma ElisionHasShape(k: Codec, op: Op, s: set<bytes>, seen: Envelope, hidden: set<Claim>)
    requires SeenUnder(k, op, s, seen) && ShowsElision(k, op, hidden, seen)
    ensures SameShape(op, seen)
  {
    hide CollisionFree, ToEnvelope, CoversOp, Covered, Digest, OpFits, ReadInner, ReadCore, ReadsWithout, ClaimList,
      WithClaims, Tidied, Claims, WithKind, Regular, Empty, Core;
    var es, core, cs := ReadingOf(k, seen);
    CoreInverse(k, es);
    EmptyExactly(core, cs);
    var r := ReadInner(k, seen).value;
    ClaimsIgnoreKind(op, r.op.kind);
    ElisionIsEmptyExactly(WithKind(op, r.op.kind), hidden, r);
    NodesHaveAssertions(k.hash, seen);
  }

  lemma NodesHaveAssertions(h: Digester, e: Envelope)
    requires WellFormed(h, e)
    ensures e.Node? <==> Assertions(e) != []
  {
  }

  /** The exact condition: under an authored digest an envelope shows an elision of the authored op if
      and only if it is a node exactly when the op has assertions. */
  lemma VisibleExactly(k: Codec, op: Op, s: set<bytes>, seen: Envelope)
    requires SeenUnder(k, op, s, seen)
    ensures (exists hidden :: ShowsElision(k, op, hidden, seen)) <==> SameShape(op, seen)
  {
    hide ShowsElision, SameShape, ReadInner, Digest, WellFormed, CollisionFree, Covered, ToEnvelope;
    if SameShape(op, seen) {
      var hidden := VisibleIsElision(k, op, s, seen);
    }
    if hidden :| ShowsElision(k, op, hidden, seen) {
      ElisionHasShape(k, op, s, seen, hidden);
    }
  }

  // ---- both ways the shapes can differ ----

  /** 32-byte pieces as elided elements. */
  function Pieces(b: bytes): seq<Envelope>
    requires |b| % 32 == 0
  {
    if b == [] then [] else [Elided(b[..32])] + Pieces(b[32..])
  }

  lemma {:induction false} PiecesProps(h: Digester, b: bytes)
    requires |b| % 32 == 0
    ensures Digests(h, Pieces(b)) == b && |Pieces(b)| == |b| / 32
    ensures forall i :: 0 <= i < |Pieces(b)| ==> Pieces(b)[i].Elided? && |Pieces(b)[i].digest| == 32
  {
    if b != [] {
      PiecesProps(h, b[32..]);
      assert Pieces(b)[1..] == Pieces(b[32..]);
      assert b == b[..32] + b[32..];
    }
  }

  /** A leaf's bytes are the digests of a node over another core map exactly when they start with that
      map's digest and are a whole number of digests, more than one. */
  lemma LeafReadsAsNodeExactly(h: Digester, b: bytes, other: Envelope)
    requires Regular(h) && WellFormed(h, other)
    ensures (exists seen: Envelope :: seen.Node? && seen.subject == other && WellFormed(h, seen) && Preimage(h, seen) == b)
            <==> |b| % 32 == 0 && |b| > 32 && Digest(h, other) <= b
  {
    hide Digest, WellFormed, Digests;
    if seen: Envelope :| seen.Node? && seen.subject == other && WellFormed(h, seen) && Preimage(h, seen) == b {
      NodeParts(h, seen);
      DigestLength(h, other);
      DigestsLength(h, seen.assertions);
      assert b[..32] == Digest(h, other);
    }
    if |b| % 32 == 0 && |b| > 32 && Digest(h, other) <= b {
      DigestLength(h, other);
      var xs := Pieces(b[32..]);
      PiecesProps(h, b[32..]);
      var seen := Node(other, xs);
      PiecesNode(h, other, xs);
      assert b == b[..32] + b[32..];
      assert Preimage(h, seen) == b;
    }
  }

  lemma NodeParts(h: Digester, e: Envelope)
    requires WellFormed(h, e) && e.Node?
    ensures e.assertions != [] && forall x :: x in e.assertions ==> WellFormed(h, x)
  {
  }

  lemma PiecesNode(h: Digester, subject: Envelope, xs: seq<Envelope>)
    requires WellFormed(h, subject) && xs != []
    requires forall i :: 0 <= i < |xs| ==> xs[i].Elided? && |xs[i].digest| == 32
    ensures WellFormed(h, Node(subject, xs))
  {
  }

  lemma {:induction false} DigestsLength(h: Digester, xs: seq<Envelope>)
    requires Regular(h) && forall x :: x in xs ==> WellFormed(h, x)
    ensures |Digests(h, xs)| == 32 * |xs|
  {
    hide Digest, WellFormed;
    if xs != [] {
      DigestLength(h, xs[0]);
      DigestsLength(h, xs[1..]);
    }
  }

  /** The first shape is possible: when the core map of an op without assertions is a list of digests
      that starts with another op's core, an envelope with the first op's digest reads as the
      second op. */
  lemma LeafMisreads(k: Codec, op: Op, other: Op) returns (seen: Envelope)
    requires Regular(k.hash) && OpFits(k.hash, op) && OpFits(k.hash, other)
    requires ToEnvelope(k, op).Ok? && ToEnvelope(k, other).Ok? && ClaimList(op) == []
    requires var b := ItemBytes(k.hash, CoreLeaf(op).item);
             |b| % 32 == 0 && |b| > 32 && Digest(k.hash, CoreLeaf(other)) <= b
    ensures WellFormed(k.hash, seen) && Digest(k.hash, seen) == Digest(k.hash, ToEnvelope(k, op).value)
    ensures !SameShape(op, seen)
    ensures ReadInner(k, seen) == Ok(Reading(Core(other), |Assertions(seen)|))
  {
    hide CoreEntries, ItemBytes, ReadInner, RawFits, Regular, ToEnvelope, ClaimList;
    BareOp(k, op);
    RegularNormalizes(k.hash);
    var b := ItemBytes(k.hash, CoreLeaf(op).item);
    CoreWellFormed(k.hash, other);
    DigestLength(k.hash, CoreLeaf(other));
    var xs := Pieces(b[32..]);
    PiecesProps(k.hash, b[32..]);
    seen := Node(CoreLeaf(other), xs);
    PiecesNode(k.hash, CoreLeaf(other), xs);
    PlainRead(k, other, xs);
    assert b == b[..32] + b[32..];
    assert Digest(k.hash, CoreLeaf(other)) == b[..32];
  }

  lemma BareOp(k: Codec, op: Op)
    requires ToEnvelope(k, op).Ok? && ClaimList(op) == []
    ensures ToEnvelope(k, op) == Ok(CoreLeaf(op))
  {
    hide CoreEntries, ClaimList;
  }

  lemma PlainRead(k: Codec, other: Op, xs: seq<Envelope>)
    requires RawFits(other) && ToEnvelope(k, other).Ok?
    requires forall i :: 0 <= i < |xs| ==> xs[i].Elided?
    ensures ReadInner(k, Node(CoreLeaf(other), xs)) == Ok(Reading(Core(other), |xs|))
    ensures ReadInner(k, CoreLeaf(other)) == Ok(Reading(Core(other), 0))
  {
    hide ReadCore, WithClaims, Claims, CoreEntries, Tidied, RawFits, ToEnvelope, ReadAssertions;
    CoreReads(k, other);
    var hidden := seq(|xs|, i requires 0 <= i < |xs| => Hidden);
    ClaimsPointwise(xs, hidden);
    ClaimsPointwise([], []);
    ReadByClaims(xs, Reading(Core(other), 0));
    ReadByClaims([], Reading(Core(other), 0));
    HiddenRead(Core(other), hidden);
    HiddenRead(Core(other), []);
  }

  lemma {:induction false} AllHidden(cs: seq<Claim>)
    requires forall i :: 0 <= i < |cs| ==> cs[i].Hidden?
    ensures multiset(cs)[Hidden] == |cs|
  {
    if cs != [] {
      AllHidden(cs[1..]);
      assert cs == [cs[0]] + cs[1..];
    }
  }

  lemma HiddenRead(op: Op, cs: seq<Claim>)
    requires op == Core(op) && forall i :: 0 <= i < |cs| ==> cs[i].Hidden?
    ensures Tidied(WithClaims(Reading(op, 0), cs)) == Reading(op, |cs|)
  {
    hide DepsOf, NacksOf, TargetOf, StampOf, SortLex, WithClaims, Tidied;
    TidiedReading(op, cs);
    AllHidden(cs);
    TargetIs(None, cs, []);
    StampIs(None, cs, 0);
    forall b
      ensures b !in DepsOf(cs) && b !in NacksOf(cs)
    {
      DepsCount(cs, b);
      NacksCount(cs, b);
      assert Dep(b) !in cs && Nack(b) !in cs;
      assert b in DepsOf(cs) <==> b in multiset(DepsOf(cs));
      assert b in NacksOf(cs) <==> b in multiset(NacksOf(cs));
    }
    NoMembers(DepsOf(cs));
    NoMembers(NacksOf(cs));
    SortNothing();
    assert op.deps == [] && op.nacks == [] && op.target == None && op.timestamp == None;
  }

  lemma SortNothing()
    ensures SortLex([]) == []
  {
  }

  /** So is the second: when another op's core map prints as the digests of an op with assertions, its
      bare leaf has that op's digest and reads as the other op. */
  lemma NodeMisreads(k: Codec, op: Op, other: Op)
    requires Regular(k.hash) && OpFits(k.hash, other) && ToEnvelope(k, op).Ok? && ToEnvelope(k, other).Ok?
    requires ClaimList(op) != [] && ItemBytes(k.hash, CoreLeaf(other).item) == Preimage(k.hash, ToEnvelope(k, op).value)
    ensures var seen := CoreLeaf(other);
            WellFormed(k.hash, seen) && Digest(k.hash, seen) == Digest(k.hash, ToEnvelope(k, op).value)
            && !SameShape(op, seen) && ReadInner(k, seen) == Ok(Reading(Core(other), 0))
  {
    hide ItemBytes, ReadInner, RawFits, Regular, ClaimList, CoreEntries;
    RegularNormalizes(k.hash);
    CoreWellFormed(k.hash, other);
    PlainRead(k, other, []);
    NodeIsNode(k, op);
  }

  lemma NodeIsNode(k: Codec, op: Op)
    requires ToEnvelope(k, op).Ok? && ClaimList(op) != []
    ensures ToEnvelope(k, op).value.Node?
  {
    hide ClaimList, AddAssertion, CoreEntries;
    StaysNode(k.hash, CoreLeaf(op), ClaimList(op));
  }

  lemma {:induction false} StaysNode(h: Digester, e: Envelope, cs: seq<Claim>)
    requires (forall c :: c in cs ==> !c.Hidden?) && (e.Node? || cs != [])
    ensures AddClaims(h, e, cs).Node?
    decreases |cs|
  {
    hide SortByDigest, Digest;
    if cs != [] {
      StaysNode(h, AddAssertion(h, e, ClaimEnvelope(cs[0])), cs[1..]);
    }
  }

  // ---- which ops share a digest ----

  /** The assertions built do not depend on the subject. */
  lemma {:induction false} SameAssertions(h: Digester, x: Envelope, y: Envelope, cs: seq<Claim>)
    requires (forall c :: c in cs ==> !c.Hidden?) && Assertions(x) == Assertions(y) && (x.Node? <==> y.Node?)
    ensures var p, q := AddClaims(h, x, cs), AddClaims(h, y, cs);
            Assertions(p) == Assertions(q) && (p.Node? <==> q.Node?)
            && Subject(p) == Subject(x) && Subject(q) == Subject(y)
    decreases |cs|
  {
    hide SortByDigest, Digest, Carries;
    if cs != [] {
      var a := ClaimEnvelope(cs[0]);
      SameAssertions(h, AddAssertion(h, x, a), AddAssertion(h, y, a), cs[1..]);
    }
  }

  /** Ops that differ only in the normalization of their kind have one digest, whatever the hash. */
  lemma KindsShareDigest(k: Codec, op: Op, kind: bytes)
    requires Normalizes(k.hash.nfc) && ToEnvelope(k, op).Ok? && ToEnvelope(k, WithKind(op, kind)).Ok?
    requires k.hash.nfc(kind) == k.hash.nfc(op.kind)
    ensures Digest(k.hash, ToEnvelope(k, WithKind(op, kind)).value) == Digest(k.hash, ToEnvelope(k, op).value)
  {
    hide ClaimList, AddClaims, CoreEntries, Normalizes, NormalEntries;
    var other := WithKind(op, kind);
    ClaimsIgnoreKind(op, kind);
    CoreNormal(k.hash, op);
    CoreNormal(k.hash, other);
    SameCoreSameLeaf(Normalized(k.hash, op), Normalized(k.hash, other));
    SameAssertions(k.hash, CoreLeaf(op), CoreLeaf(other), ClaimList(op));
    assert Digest(k.hash, CoreLeaf(op)) == Digest(k.hash, CoreLeaf(other));
  }

  /** A letter written in one code point or in two: different kinds, one digest to sign. */
  lemma TwoKindsOneDigest(k: Codec, op: Op)
    requires Normalizes(k.hash.nfc) && k.hash.nfc(E_COMBINED) == E_ACUTE
    requires op.body.Some? ==> k.canonicalBody(op.body.value)
    ensures var a, b := ToEnvelope(k, WithKind(op, E_ACUTE)), ToEnvelope(k, WithKind(op, E_COMBINED));
            WithKind(op, E_ACUTE) != WithKind(op, E_COMBINED) && a.Ok? && b.Ok?
            && Digest(k.hash, a.value) == Digest(k.hash, b.value)
  {
    hide ToEnvelope, Digest, Normalizes;
    var a, b := WithKind(op, E_ACUTE), WithKind(op, E_COMBINED);
    assert a.kind == E_ACUTE && b.kind == E_COMBINED && |E_ACUTE| != |E_COMBINED|;
    assert k.hash.nfc(E_ACUTE) == E_ACUTE by {
      Idempotent(k.hash.nfc, E_COMBINED);
    }
    Encodable(k, a);
    Encodable(k, b);
    assert WithKind(a, E_COMBINED) == b;
    KindsShareDigest(k, a, E_COMBINED);
  }

  /** Two authored ops of one shape share a digest exactly when they make the same claims and have the
      same core up to the normalization of the kind. */
  lemma DigestsAgreeExactly(k: Codec, a: Op, b: Op, s: set<bytes>)
    requires Regular(k.hash) && CollisionFree(k.hash, s) && OpFits(k.hash, a) && OpFits(k.hash, b)
    requires ToEnvelope(k, a).Ok? && ToEnvelope(k, b).Ok? && CoversOp(k.hash, s, a) && CoversOp(k.hash, s, b)
    requires Covered(k.hash, s, ToEnvelope(k, a).value) && Covered(k.hash, s, ToEnvelope(k, b).value)
    requires ClaimList(a) != [] <==> ClaimList(b) != []
    ensures Digest(k.hash, ToEnvelope(k, a).value) == Digest(k.hash, ToEnvelope(k, b).value) <==>
            SameButKind(k.hash, a, b) && forall c :: Claimed(a, c) <==> Claimed(b, c)
  {
    hide ToEnvelope, Digest, CollisionFree, Covered, CoversOp, OpFits, ClaimList, Claimed, SameButKind;
    if Digest(k.hash, ToEnvelope(k, a).value) == Digest(k.hash, ToEnvelope(k, b).value) {
      OneDigestOneOp(k, a, b, s);
    }
    if SameButKind(k.hash, a, b) && forall c :: Claimed(a, c) <==> Claimed(b, c) {
      OneOpOneDigest(k, a, b, s);
    }
  }

  lemma OneOpOneDigest(k: Codec, a: Op, b: Op, s: set<bytes>)
    requires Regular(k.hash) && CollisionFree(k.hash, s) && OpFits(k.hash, a) && OpFits(k.hash, b)
    requires ToEnvelope(k, a).Ok? && ToEnvelope(k, b).Ok? && CoversOp(k.hash, s, a) && CoversOp(k.hash, s, b)
    requires SameButKind(k.hash, a, b) && forall c :: Claimed(a, c) <==> Claimed(b, c)
    ensures Digest(k.hash, ToEnvelope(k, a).value) == Digest(k.hash, ToEnvelope(k, b).value)
  {
    hide ToEnvelope, Digest, CollisionFree, Covered, CoversOp, ClaimList, Claimed, Normalizes, RawFits;
    var c := WithKind(a, b.kind);
    KindCarriesOver(k, a, b);
    forall x
      ensures Claimed(c, x) <==> Claimed(b, x)
    {
      SameClaims(a, b.kind, x);
    }
    CoversSame(k.hash, s, b, c);
    OrderDoesNotMatter(k, c, b, s);
    KindsShareDigest(k, a, b.kind);
  }

  lemma KindCarriesOver(k: Codec, a: Op, b: Op)
    requires OpFits(k.hash, a) && OpFits(k.hash, b) && SameButKind(k.hash, a, b)
    requires ToEnvelope(k, a).Ok? && ToEnvelope(k, b).Ok?
    ensures OpFits(k.hash, WithKind(a, b.kind)) && ToEnvelope(k, WithKind(a, b.kind)).Ok?
    ensures Core(WithKind(a, b.kind)) == Core(b)
  {
    hide ToEnvelope, IsText;
    Encodable(k, a);
    Encodable(k, b);
    Encodable(k, WithKind(a, b.kind));
  }

  lemma OneDigestOneOp(k: Codec, a: Op, b: Op, s: set<bytes>)
    requires Regular(k.hash) && CollisionFree(k.hash, s) && OpFits(k.hash, a) && OpFits(k.hash, b)
    requires ToEnvelope(k, a).Ok? && ToEnvelope(k, b).Ok? && CoversOp(k.hash, s, a) && CoversOp(k.hash, s, b)
    requires Covered(k.hash, s, ToEnvelope(k, a).value) && Covered(k.hash, s, ToEnvelope(k, b).value)
    requires ClaimList(a) != [] <==> ClaimList(b) != []
    requires Digest(k.hash, ToEnvelope(k, a).value) == Digest(k.hash, ToEnvelope(k, b).value)
    ensures SameButKind(k.hash, a, b) && forall c :: Claimed(a, c) <==> Claimed(b, c)
  {
    hide ToEnvelope, Digest, CollisionFree, Covered, CoversOp, OpFits, ClaimList, Claimed, SameButKind, Regular,
      Shows, Once, Ordered, CoreLeaf, NormalItem, WellFormed, ClaimFits;
    var x, cs := Authored(k, a, s);
    var y, ds := Authored(k, b, s);
    ShapeOfAuthored(a, cs);
    ShapeOfAuthored(b, ds);
    RegularNormalizes(k.hash);
    AuthoredWellFormed(k.hash, a, x, cs);
    AuthoredWellFormed(k.hash, b, y, ds);
    CoreIsLeaf(a);
    CoreIsLeaf(b);
    SameSkeleton(k.hash, s, x, y);
    CoresAgree(k.hash, a, b);
    MembersOf(k.hash, s, x);
    MembersOf(k.hash, s, y);
    ClaimsAgree(k.hash, s, Assertions(x), cs, Assertions(y), ds);
  }

  lemma CoresAgree(h: Digester, a: Op, b: Op)
    requires Normalizes(h.nfc) && OpFits(h, a) && OpFits(h, b)
    requires NormalItem(h, CoreLeaf(a).item) == NormalItem(h, CoreLeaf(b).item)
    ensures SameButKind(h, a, b)
  {
    hide Normalizes, NormalEntries, CoreEntries, Lookup, HashValues, IsText, SameButKind;
    CoreLookups(a);
    CoreLookups(b);
    CoreShown(h, CoreEntries(a), a, CoreEntries(b), b);
  }

  lemma ClaimsAgree(h: Digester, s: set<bytes>, xs: seq<Envelope>, cs: seq<Claim>, ys: seq<Envelope>, ds: seq<Claim>)
    requires Regular(h) && CollisionFree(h, s) && Shows(xs, cs) && Shows(ys, ds) && |xs| == |ys|
    requires (forall x :: x in xs ==> Covered(h, s, x)) && forall y :: y in ys ==> Covered(h, s, y)
    requires forall i :: 0 <= i < |xs| ==> Digest(h, xs[i]) == Digest(h, ys[i])
    ensures cs == ds
  {
    hide Digest, CollisionFree, Covered, Regular, ClaimEnvelope;
    forall i | 0 <= i < |cs|
      ensures cs[i] == ds[i]
    {
      assert xs[i] in xs && ys[i] in ys;
      ClaimDigestInjective(h, s, cs[i], ds[i]);
    }
  }

  // ---- over the wire ----

  /** The envelope as its bytes decode: every leaf in form C. */
  function Received(h: Digester, e: Envelope): Envelope
    decreases e, 1
  {
    match e
    case Leaf(c) => Leaf(NormalItem(h, c))
    case Node(s, xs) => Node(Received(h, s), ReceivedAll(h, xs))
    case Assertion(p, o) => Assertion(Received(h, p), Received(h, o))
    case Wrapped(x) => Wrapped(Received(h, x))
    case _ => e
  }

  function ReceivedAll(h: Digester, xs: seq<Envelope>): seq<Envelope>
    decreases xs, 0
  {
    if xs == [] then [] else [Received(h, xs[0])] + ReceivedAll(h, xs[1..])
  }

  /** The wire changes no digest, so every signature stands. */
  lemma {:induction false} WireKeepsDigest(h: Digester, e: Envelope)
    requires Normalizes(h.nfc)
    ensures Digest(h, Received(h, e)) == Digest(h, e)
    decreases e, 1
  {
    hide Normal, Normalizes;
    match e
    case Leaf(c) => PrintIsStable(h.nfc, c.v);
    case Node(s, xs) =>
      WireKeepsDigest(h, s);
      WireKeepsDigests(h, xs);
    case Assertion(p, o) =>
      WireKeepsDigest(h, p);
      WireKeepsDigest(h, o);
    case Wrapped(x) => WireKeepsDigest(h, x);
    case _ =>
  }

  lemma {:induction false} WireKeepsDigests(h: Digester, xs: seq<Envelope>)
    requires Normalizes(h.nfc)
    ensures Digests(h, ReceivedAll(h, xs)) == Digests(h, xs)
    decreases xs, 0
  {
    hide Normalizes;
    if xs != [] {
      WireKeepsDigest(h, xs[0]);
      WireKeepsDigests(h, xs[1..]);
      assert ReceivedAll(h, xs)[1..] == ReceivedAll(h, xs[1..]);
    }
  }

  lemma {:induction false} ClaimsTravel(h: Digester, xs: seq<Envelope>, cs: seq<Claim>)
    requires Normalizes(h.nfc) && Shows(xs, cs)
    ensures ReceivedAll(h, xs) == xs
  {
    hide Normalizes, ClaimFits, NormalItem;
    if xs != [] {
      ClaimTravels(h, cs[0]);
      ClaimsTravel(h, xs[1..], cs[1..]);
      assert xs == [xs[0]] + xs[1..];
    }
  }

  lemma ClaimTravels(h: Digester, c: Claim)
    requires Normalizes(h.nfc) && ClaimFits(c)
    ensures Received(h, ClaimEnvelope(c)) == ClaimEnvelope(c)
  {
    hide Normalizes, NormalItem, WellFormed;
    LabelProps(h, c);
    ClaimWellFormed(h, c);
  }

  /** What arrives is the envelope of the op with its kind normalized. */
  lemma OpTravels(k: Codec, op: Op, s: set<bytes>)
    requires OpFits(k.hash, op) && ToEnvelope(k, op).Ok? && Regular(k.hash) && CollisionFree(k.hash, s)
    requires CoversOp(k.hash, s, op)
    ensures ToEnvelope(k, Normalized(k.hash, op)) == Ok(Received(k.hash, ToEnvelope(k, op).value))
  {
    hide CollisionFree, CoversOp, RawFits, Once, Ordered, Claimed, Regular, IsText, AddClaims, ClaimList, CoreEntries,
      NormalEntries, Normalizes;
    var h, other := k.hash, Normalized(k.hash, op);
    var inner, ds := Authored(k, op, s);
    RegularNormalizes(h);
    ClaimsTravel(h, Assertions(inner), ds);
    CoreNormal(h, op);
    KindStays(h, op.kind);
    assert other == WithKind(op, h.nfc(op.kind));
    ClaimsIgnoreKind(op, h.nfc(op.kind));
    SameAssertions(h, CoreLeaf(op), CoreLeaf(other), ClaimList(op));
    NodeSplits(AddClaims(h, CoreLeaf(other), ClaimList(op)));
    NodeSplits(inner);
  }

  lemma KindStays(h: Digester, kind: bytes)
    requires Normalizes(h.nfc) && kind != []
    ensures h.nfc(kind) != []
  {
  }

  lemma NodeSplits(e: Envelope)
    ensures e == if e.Node? then Node(Subject(e), Assertions(e)) else Subject(e)
  {
  }

  /** Over the wire an op comes back with its lists as increasing sets and its kind normalized; so as
      itself exactly when the lists were strictly increasing and the kind was in form C. */
  lemma WireRoundTripExactly(k: Codec, op: Op, s: set<bytes>) returns (r: Reading)
    requires OpFits(k.hash, op) && ToEnvelope(k, op).Ok? && Regular(k.hash) && CollisionFree(k.hash, s)
    requires CoversOp(k.hash, s, op)
    ensures ReadInner(k, Received(k.hash, ToEnvelope(k, op).value)) == Ok(r)
    ensures r.elided == 0 && ReadsWithout(Normalized(k.hash, op), {}, r)
    ensures r.op == op <==> StrictLex(op.deps) && StrictLex(op.nacks) && k.hash.nfc(op.kind) == op.kind
  {
    hide CollisionFree, CoversOp, ToEnvelope, ReadInner, Received, Regular, StrictLex, IsText, ReadsWithout;
    var other := Normalized(k.hash, op);
    RegularNormalizes(k.hash);
    OpTravels(k, op, s);
    assert OpFits(k.hash, other) by {
      Idempotent(k.hash.nfc, op.kind);
    }
    forall c
      ensures Claimed(op, c) <==> Claimed(other, c)
    {
    }
    CoversSame(k.hash, s, op, other);
    r := RoundTripExactly(k, other, s);
    assert r.op.kind == k.hash.nfc(op.kind) by {
      ReadsSameKind(other, r);
    }
    if k.hash.nfc(op.kind) == op.kind {
      assert other == op;
    }
  }

  lemma ReadsSameKind(op: Op, r: Reading)
    requires ReadsWithout(op, {}, r)
    ensures r.op.kind == op.kind
  {
    hide StrictLex;
    assert Core(r.op).kind == r.op.kind && Core(op).kind == op.kind;
  }
}
