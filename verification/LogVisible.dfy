/** Consequences for authored ops: the round trip, and independence of order. */
module LogVisible {
  import opened Basics
  import opened Cbor
  import opened LexSort
  import opened Envelopes
  import opened LogOps
  import opened LogCore
  import opened LogAuthored

  lemma NothingHidden(h: Digester, inner: Envelope)
    ensures RedactInner(h, {}, inner) == inner
  {
    hide ReadClaim, Digest;
    if inner.Node? {
      assert RedactAll(h, {}, inner.assertions) == inner.assertions;
    }
  }

  /** Reading back returns the op with its lists as sets in increasing order; so it returns the
      very op exactly when the lists were strictly increasing to begin with. */
  lemma RoundTripExactly(k: Codec, op: Op, s: set<bytes>) returns (r: Reading)
    requires OpFits(k.hash, op) && ToEnvelope(k, op).Ok? && Regular(k.hash) && CollisionFree(k.hash, s)
    requires CoversOp(k.hash, s, op)
    ensures ReadInner(k, ToEnvelope(k, op).value) == Ok(r) && r.elided == 0 && ReadsWithout(op, {}, r)
    ensures r.op == op <==> StrictLex(op.deps) && StrictLex(op.nacks)
  {
    hide CoversOp, CollisionFree, ToEnvelope, ReadInner, ClaimList, RedactInner, OpFits, StrictLex, Digest;
    r := AuthoredElision(k, op, s, {});
    NothingHidden(k.hash, ToEnvelope(k, op).value);
    assert (set c | c in ClaimList(op) && c in {}) == {};
    if StrictLex(op.deps) && StrictLex(op.nacks) {
      StrictUnique(r.op.deps, op.deps);
      StrictUnique(r.op.nacks, op.nacks);
    }
  }

  /** The envelope depends on the lists only as sets. */
  lemma OrderDoesNotMatter(k: Codec, a: Op, b: Op, s: set<bytes>)
    requires OpFits(k.hash, a) && OpFits(k.hash, b) && ToEnvelope(k, a).Ok? && ToEnvelope(k, b).Ok?
    requires Core(a) == Core(b) && forall c :: Claimed(a, c) <==> Claimed(b, c)
    requires Regular(k.hash) && CollisionFree(k.hash, s)
    requires CoversOp(k.hash, s, a) && CoversOp(k.hash, s, b)
    ensures ToEnvelope(k, a) == ToEnvelope(k, b)
  {
    hide CoversOp, CollisionFree, ToEnvelope, Once, Ordered, OpFits, ClaimEnvelope, Claimed, CoreLeaf;
    var x, cs := Authored(k, a, s);
    var y, ds := Authored(k, b, s);
    SameCoreSameLeaf(a, b);
    SameMembers(Assertions(x), cs, Assertions(y), ds);
    OrderedUnique(k.hash, Assertions(x), Assertions(y));
  }

  lemma SameCoreSameLeaf(a: Op, b: Op)
    requires Core(a) == Core(b)
    ensures CoreLeaf(a) == CoreLeaf(b)
  {
    assert Core(a).kind == a.kind && Core(a).body == a.body && Core(a).parents == a.parents;
    assert Core(b).kind == b.kind && Core(b).body == b.body && Core(b).parents == b.parents;
    assert Core(a).hlc == a.hlc && Core(a).actor == a.actor && Core(b).hlc == b.hlc && Core(b).actor == b.actor;
  }

  lemma SameMembers(xs: seq<Envelope>, cs: seq<Claim>, ys: seq<Envelope>, ds: seq<Claim>)
    requires Shows(xs, cs) && Shows(ys, ds) && forall c :: c in cs <==> c in ds
    ensures forall x :: x in xs <==> x in ys
  {
    hide ClaimEnvelope;
    forall x | x in xs
      ensures x in ys
    {
      var c := ShownClaims(xs, x, cs);
      var j :| 0 <= j < |ds| && ds[j] == c;
      assert ys[j] == x;
    }
    forall y | y in ys
      ensures y in xs
    {
      var c := ShownClaims(ys, y, ds);
      var j :| 0 <= j < |cs| && cs[j] == c;
      assert xs[j] == y;
    }
  }

  /** Encoding what was read gives the same envelope again. */
  lemma ReencodeStable(k: Codec, op: Op, s: set<bytes>)
    requires OpFits(k.hash, op) && ToEnvelope(k, op).Ok? && Regular(k.hash) && CollisionFree(k.hash, s)
    requires CoversOp(k.hash, s, op)
    ensures ReadInner(k, ToEnvelope(k, op).value).Ok?
    ensures ToEnvelope(k, ReadInner(k, ToEnvelope(k, op).value).value.op) == ToEnvelope(k, op)
  {
    hide CoversOp, CollisionFree, ToEnvelope, ReadInner, ClaimList, StrictLex, Digest, Covered;
    var r := RoundTripExactly(k, op, s);
    Encodable(k, op);
    Encodable(k, r.op);
    assert Core(r.op).kind == r.op.kind && Core(r.op).body == r.op.body;
    ReadFits(k.hash, op, r);
    CoversSame(k.hash, s, op, r.op);
    OrderDoesNotMatter(k, op, r.op, s);
  }

  lemma ReadFits(h: Digester, op: Op, r: Reading)
    requires OpFits(h, op) && ReadsWithout(op, {}, r)
    ensures OpFits(h, r.op)
  {
    hide StrictLex, IsText;
    assert r.op == op.(deps := r.op.deps, nacks := r.op.nacks);
    StrictNoLonger(r.op.deps, op.deps);
    StrictNoLonger(r.op.nacks, op.nacks);
  }

  lemma StrictNoLonger(a: seq<bytes>, b: seq<bytes>)
    requires StrictLex(a) && forall x :: x in a ==> x in b
    ensures |a| <= |b|
  {
    hide StrictLex, SortedLex;
    StrictExactly(a);
    forall x
      ensures multiset(a)[x] <= multiset(b)[x]
    {
      assert x in a <==> x in multiset(a);
      assert x in b <==> x in multiset(b);
    }
    assert multiset(a) <= multiset(b);
    assert |multiset(a)| <= |multiset(b)| by {
      assert multiset(b) == multiset(a) + (multiset(b) - multiset(a));
    }
  }

  lemma CoversSame(h: Digester, s: set<bytes>, a: Op, b: Op)
    requires CoversOp(h, s, a) && forall c :: Claimed(a, c) <==> Claimed(b, c)
    ensures CoversOp(h, s, b)
  {
    hide Covered, ClaimList, ClaimEnvelope, Claimed;
    forall c | c in ClaimList(b)
      ensures Covered(h, s, ClaimEnvelope(c))
    {
      ClaimListMembers(a, c);
      ClaimListMembers(b, c);
    }
  }
}
