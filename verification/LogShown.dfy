/** The converse of elision: what reads under an authored digest is an elision of what was authored,
    and exactly when it is. */
module LogShown {
  import opened Basics
  import opened Cbor
  import opened Dcbor
  import opened Envelopes
  import opened LogOps
  import opened LogReading
  import opened LogCore
  import opened LogAuthored

  // ---- one digest, one skeleton ----

  /** Under one digest two readable unsigned envelopes of one shape have one core map, up to
      normalization, and assertion lists with the same digests. */
  lemma SameSkeleton(h: Digester, s: set<bytes>, x: Envelope, y: Envelope)
    requires Regular(h) && CollisionFree(h, s) && Covered(h, s, x) && Covered(h, s, y)
    requires WellFormed(h, x) && WellFormed(h, y) && Subject(x).Leaf? && Subject(y).Leaf?
    requires (x.Node? <==> y.Node?) && Digest(h, x) == Digest(h, y)
    ensures NormalItem(h, Subject(x).item) == NormalItem(h, Subject(y).item)
    ensures |Assertions(x)| == |Assertions(y)|
    ensures forall i :: 0 <= i < |Assertions(x)| ==>
              Digest(h, Assertions(x)[i]) == Digest(h, Assertions(y)[i])
  {
    hide CollisionFree, ItemBytes, NormalItem;
    SamePreimage(h, s, x, y);
    DigestLength(h, Subject(x));
    DigestLength(h, Subject(y));
    if x.Node? {
      var p := Preimage(h, x);
      assert Digest(h, x.subject) == p[..32] == Digest(h, y.subject);
      assert Digests(h, x.assertions) == p[32..] == Digests(h, y.assertions);
      SamePreimage(h, s, x.subject, y.subject);
      DigestsInjective(h, x.assertions, y.assertions);
    }
    ItemsAgreeExactly(h, Subject(x).item, Subject(y).item);
  }

  lemma {:induction false} AuthoredWellFormed(h: Digester, op: Op, inner: Envelope, ds: seq<Claim>)
    requires Normalizes(h.nfc) && OpFits(h, op) && Subject(inner) == CoreLeaf(op) && Shows(Assertions(inner), ds)
    requires inner.Node? ==> ds != []
    ensures WellFormed(h, inner)
  {
    hide OpFits, CoreLeaf, ClaimEnvelope, Normalizes;
    CoreWellFormed(h, op);
    forall a | a in Assertions(inner)
      ensures WellFormed(h, a)
    {
      var c := ShownClaims(Assertions(inner), a, ds);
      ClaimWellFormed(h, c);
    }
  }

  // ---- the core map shown ----

  ghost predicate SameButKind(h: Digester, a: Op, b: Op) {
    h.nfc(a.kind) == h.nfc(b.kind) && a.body == b.body && a.hlc == b.hlc && a.actor == b.actor
    && a.parents == b.parents
  }

  /** What the reader of a core map found, field by field. */
  ghost predicate ReadsAs(es: seq<Keyed<Value>>, op: Op) {
    Lookup(es, KIND) == Some(Text(op.kind))
    && Lookup(es, HLC) == Some(Array([Uint(op.hlc.l), Uint(op.hlc.c)]))
    && Lookup(es, ACTOR) == Some(Bytes(op.actor))
    && Lookup(es, PARENTS) == Some(Array(HashValues(op.parents)))
    && Lookup(es, BODY) == if op.body.Some? then Some(Bytes(op.body.value)) else None
  }

  lemma {:induction false} HashesInverse(vs: seq<Value>)
    requires ReadHashes(vs).Ok?
    ensures vs == HashValues(ReadHashes(vs).value)
    ensures forall b :: b in ReadHashes(vs).value ==> |b| == 32
  {
    if vs != [] {
      HashesInverse(vs[1..]);
      var bs := ReadHashes(vs).value;
      assert bs[1..] == ReadHashes(vs[1..]).value;
      assert vs == [vs[0]] + vs[1..];
    }
  }

  lemma HeadInverse(k: Codec, es: seq<Keyed<Value>>) returns (kind: bytes)
    requires ReadCore(k, es).Ok?
    ensures Lookup(es, KIND) == Some(Text(kind)) && ReadCore(k, es) == ReadRest(k, es, kind)
  {
    hide Lookup, Ascii, ReadRest;
    kind := Lookup(es, KIND).value.s;
  }

  lemma RestInverse(k: Codec, es: seq<Keyed<Value>>, kind: bytes)
    requires Lookup(es, KIND) == Some(Text(kind)) && ReadRest(k, es, kind).Ok?
    ensures var op := ReadRest(k, es, kind).value;
            ReadsAs(es, op) && op == Core(op) && forall b :: b in op.parents ==> |b| == 32
  {
    hide Lookup, Ascii, ReadHashes, HashValues, HashOf;
    HashesInverse(Lookup(es, PARENTS).value.items);
    var hlc := Lookup(es, HLC).value.items;
    assert hlc == [hlc[0], hlc[1]];
    ActorInverse(Lookup(es, ACTOR).value);
  }

  lemma ActorInverse(v: Value)
    ensures IntoHash(v).Ok? ==> v == Bytes(IntoHash(v).value)
  {
  }

  lemma CoreInverse(k: Codec, es: seq<Keyed<Value>>)
    requires ReadCore(k, es).Ok?
    ensures var op := ReadCore(k, es).value;
            ReadsAs(es, op) && op == Core(op) && forall b :: b in op.parents ==> |b| == 32
  {
    hide Lookup, ReadCore, ReadRest, ReadsAs, Core;
    var kind := HeadInverse(k, es);
    RestInverse(k, es, kind);
  }

  /** Which core maps are accepted, and as what: the version and the type are the profile's own, the kind
      is not empty, the body is canonical, every hash has 32 bytes, and nothing else is looked at. */
  lemma CoreReadsExactly(k: Codec, es: seq<Keyed<Value>>, op: Op)
    ensures ReadCore(k, es) == Ok(op) <==>
            Lookup(es, FORMAT) == Some(Uint(4)) && Lookup(es, TYPE) == Some(Text(Ascii("ball.action")))
            && ReadsAs(es, op) && op == Core(op) && op.kind != [] && |op.actor| == 32
            && (op.body.Some? ==> k.canonicalBody(op.body.value)) && forall b :: b in op.parents ==> |b| == 32
  {
    hide Lookup, ReadsAs, ReadCore, Core, Ascii, HashValues, ReadHashes;
    if ReadCore(k, es) == Ok(op) {
      CoreInverse(k, es);
      CoreGuards(k, es);
    }
    if Lookup(es, FORMAT) == Some(Uint(4)) && Lookup(es, TYPE) == Some(Text(Ascii("ball.action")))
       && ReadsAs(es, op) && op == Core(op) && op.kind != [] && |op.actor| == 32
       && (op.body.Some? ==> k.canonicalBody(op.body.value)) && forall b :: b in op.parents ==> |b| == 32 {
      HashValuesProps(op.parents);
      KindOf(es, op);
      HeadReads(k, op, es);
      ReadsRest(k, es, op);
    }
  }

  lemma KindOf(es: seq<Keyed<Value>>, op: Op)
    requires ReadsAs(es, op)
    ensures Lookup(es, KIND) == Some(Text(op.kind))
  {
    hide Lookup, Ascii;
  }

  lemma ReadsRest(k: Codec, es: seq<Keyed<Value>>, op: Op)
    requires ReadsAs(es, op) && |op.actor| == 32 && (op.body.Some? ==> k.canonicalBody(op.body.value))
    requires ReadHashes(HashValues(op.parents)) == Ok(op.parents)
    ensures ReadRest(k, es, op.kind) == Ok(Core(op))
  {
    hide Lookup, Ascii, HashValues, ReadHashes, ReadRest;
    RestReads(k, op, es);
  }

  lemma CoreGuards(k: Codec, es: seq<Keyed<Value>>)
    requires ReadCore(k, es).Ok?
    ensures Lookup(es, FORMAT) == Some(Uint(4)) && Lookup(es, TYPE) == Some(Text(Ascii("ball.action")))
    ensures ReadCore(k, es).value.kind != [] && |ReadCore(k, es).value.actor| == 32
    ensures ReadCore(k, es).value.body.Some? ==> k.canonicalBody(ReadCore(k, es).value.body.value)
  {
    hide Lookup, Ascii, ReadHashes, HashOf, ReadRest;
    var kind := HeadInverse(k, es);
    RestGuards(k, es, kind);
  }

  lemma RestGuards(k: Codec, es: seq<Keyed<Value>>, kind: bytes)
    requires ReadRest(k, es, kind).Ok?
    ensures var op := ReadRest(k, es, kind).value;
            op.kind == kind && |op.actor| == 32 && (op.body.Some? ==> k.canonicalBody(op.body.value))
  {
    hide Lookup, Ascii, ReadHashes;
  }

  lemma CoreShown(h: Digester, a: seq<Keyed<Value>>, op: Op, b: seq<Keyed<Value>>, other: Op)
    requires Normalizes(h.nfc) && NormalEntries(h.nfc, a) == NormalEntries(h.nfc, b)
    requires ReadsAs(a, op) && ReadsAs(b, other)
    requires (forall x :: x in op.parents ==> |x| == 32) && forall x :: x in other.parents ==> |x| == 32
    ensures SameButKind(h, op, other)
  {
    hide Lookup, NormalEntries, HashValues, Ascii, Normalizes;
    NormalLookup(h.nfc, a, KIND);
    NormalLookup(h.nfc, b, KIND);
    NormalLookup(h.nfc, a, HLC);
    NormalLookup(h.nfc, b, HLC);
    NormalLookup(h.nfc, a, ACTOR);
    NormalLookup(h.nfc, b, ACTOR);
    NormalLookup(h.nfc, a, PARENTS);
    NormalLookup(h.nfc, b, PARENTS);
    NormalLookup(h.nfc, a, BODY);
    NormalLookup(h.nfc, b, BODY);
    CoreValuesNormal(h, op);
    CoreValuesNormal(h, other);
    HashValuesProps(op.parents);
    HashValuesProps(other.parents);
    hide Normal;
    var p, q := [Uint(op.hlc.l), Uint(op.hlc.c)], [Uint(other.hlc.l), Uint(other.hlc.c)];
    assert p == q ==> p[0] == q[0] && p[1] == q[1];
  }

  lemma VisibleClaims(h: Digester, s: set<bytes>, xs: seq<Envelope>, ds: seq<Claim>, ys: seq<Envelope>,
                      cs: seq<Claim>)
    returns (hidden: set<Claim>)
    requires Regular(h) && CollisionFree(h, s) && Shows(xs, ds) && Once(ds) && Claims(ys) == Ok(cs)
    requires forall x :: x in xs ==> Covered(h, s, x)
    requires forall y :: y in ys ==> WellFormed(h, y) && Covered(h, s, y)
    requires |xs| == |ys| && forall i :: 0 <= i < |xs| ==> Digest(h, xs[i]) == Digest(h, ys[i])
    ensures cs == Mask(ds, hidden)
  {
    hide CollisionFree, Covered, WellFormed, Digest, ReadClaim, ClaimEnvelope, Once;
    ClaimsPointwise(ys, cs);
    forall i | 0 <= i < |ds|
      ensures cs[i] == ds[i] || cs[i] == Hidden
    {
      assert xs[i] in xs && ys[i] in ys;
      if cs[i] != Hidden {
        VisibleClaim(h, s, ds[i], ys[i]);
      }
    }
    hidden := set i | 0 <= i < |ds| && cs[i] == Hidden :: ds[i];
    forall i | 0 <= i < |ds|
      ensures cs[i] == Mask(ds, hidden)[i]
    {
      if cs[i] != Hidden && ds[i] in hidden {
        var j :| 0 <= j < |ds| && cs[j] == Hidden && ds[j] == ds[i];
        OnceDistinct(ds, i, j);
      }
    }
  }

  lemma OnceDistinct(ds: seq<Claim>, i: nat, j: nat)
    requires Once(ds) && i < |ds| && j < |ds| && ds[i] == ds[j]
    ensures i == j
  {
    if i < j {
      TwiceInSeq(ds, i, j);
    } else if j < i {
      TwiceInSeq(ds, j, i);
    }
  }

  lemma MembersOf(h: Digester, s: set<bytes>, e: Envelope)
    requires Covered(h, s, e)
    ensures forall a :: a in Assertions(e) ==> Covered(h, s, a)
    ensures WellFormed(h, e) ==> forall a :: a in Assertions(e) ==> WellFormed(h, a)
  {
  }
}
