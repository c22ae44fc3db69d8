/** Signed ops as envelopes and back: the signatures form a set, and the two verifiers agree. */
module LogWire {
  import opened Basics
  import opened Envelopes
  import opened LogOps
  import opened LogReading
  import opened LogCore
  import opened LogAuthored
  import opened LogVisible
  import opened LogSigning

  /** The signature's own CBOR form reads back, holds no text out of form C, and what is hashed for it
      lies in s. */
  ghost predicate SignatureFits(k: Codec, s: set<bytes>, sig: Signature) {
    k.itemSignature(k.signatureItem(sig)) == Some(sig) && WellFormed(k.hash, Leaf(k.signatureItem(sig)))
    && NormalItem(k.hash, k.signatureItem(sig)) == k.signatureItem(sig)
    && Covered(k.hash, s, SignedAssertion(k, sig))
  }

  ghost predicate SignaturesFit(k: Codec, s: set<bytes>, sigs: seq<Signature>) {
    forall sig :: sig in sigs ==> SignatureFits(k, s, sig)
  }

  ghost predicate Attests(k: Codec, sigs: seq<Signature>, x: Envelope) {
    exists sig :: sig in sigs && x == SignedAssertion(k, sig)
  }

  lemma SignatureInjective(k: Codec, s: set<bytes>, a: Signature, b: Signature)
    requires Regular(k.hash) && CollisionFree(k.hash, s) && SignatureFits(k, s, a) && SignatureFits(k, s, b)
    requires Digest(k.hash, SignedAssertion(k, a)) == Digest(k.hash, SignedAssertion(k, b))
    ensures a == b
  {
    hide CollisionFree, ItemBytes, KnownBytes;
    var h := k.hash;
    var x, y := SignedAssertion(k, a), SignedAssertion(k, b);
    SamePreimage(h, s, x, y);
    var p, q := Digest(h, Known(SIGNED)), Digest(h, x.obj);
    assert p + q == p + Digest(h, y.obj);
    assert q == (p + q)[|p|..] == Digest(h, y.obj);
    SamePreimage(h, s, x.obj, y.obj);
    ItemsAgreeExactly(h, x.obj.item, y.obj.item);
  }

  lemma {:induction false} BuildSignatures(k: Codec, s: set<bytes>, e: Envelope, done: seq<Signature>,
                                           todo: seq<Signature>)
    requires Regular(k.hash) && CollisionFree(k.hash, s)
    requires SignaturesFit(k, s, done) && SignaturesFit(k, s, todo)
    requires Ordered(k.hash, Assertions(e)) && forall x :: x in Assertions(e) <==> Attests(k, done, x)
    ensures var r := AddSignatures(k, e, todo);
            Subject(r) == Subject(e) && Ordered(k.hash, Assertions(r))
            && (forall x :: x in Assertions(r) <==> Attests(k, done + todo, x))
            && (r.Node? <==> e.Node? || todo != [])
    decreases |todo|
  {
    hide Ordered, CollisionFree, AddAssertion, SignatureFits, SignedAssertion, Attests;
    if todo == [] {
      assert done + todo == done;
    } else {
      var a := SignedAssertion(k, todo[0]);
      AddKeepsOrder(k.hash, e, a);
      AddSignature(k, s, e, done, todo[0]);
      BuildSignatures(k, s, AddAssertion(k.hash, e, a), done + [todo[0]], todo[1..]);
      assert done + [todo[0]] + todo[1..] == done + todo;
    }
  }

  lemma AddSignature(k: Codec, s: set<bytes>, e: Envelope, done: seq<Signature>, sig: Signature)
    requires Regular(k.hash) && CollisionFree(k.hash, s)
    requires SignaturesFit(k, s, done) && SignatureFits(k, s, sig)
    requires Ordered(k.hash, Assertions(e)) && forall x :: x in Assertions(e) <==> Attests(k, done, x)
    ensures forall x :: x in Assertions(AddAssertion(k.hash, e, SignedAssertion(k, sig)))
                        <==> Attests(k, done + [sig], x)
  {
    hide Ordered, CollisionFree, AddAssertion, SignatureFits, SignedAssertion, Digest;
    var a := SignedAssertion(k, sig);
    AddKeepsOrder(k.hash, e, a);
    AttestsMore(k, done, sig);
    var xs := Assertions(e);
    if Carries(k.hash, xs, Digest(k.hash, a)) {
      var i :| 0 <= i < |xs| && Digest(k.hash, xs[i]) == Digest(k.hash, a);
      assert Attests(k, done, xs[i]);
      var other :| other in done && xs[i] == SignedAssertion(k, other);
      SignatureInjective(k, s, other, sig);
      assert a in xs;
    }
  }

  lemma AttestsMore(k: Codec, done: seq<Signature>, sig: Signature)
    ensures forall x :: Attests(k, done + [sig], x) <==> Attests(k, done, x) || x == SignedAssertion(k, sig)
  {
    hide SignedAssertion;
    assert sig in done + [sig];
    forall x
      ensures Attests(k, done + [sig], x) <==> Attests(k, done, x) || x == SignedAssertion(k, sig)
    {
      if Attests(k, done, x) {
        var y :| y in done && x == SignedAssertion(k, y);
        assert y in done + [sig];
      }
    }
  }

  /** Reading the assertions of a built wrapper returns each signature. */
  lemma {:induction false} ReadAttested(k: Codec, s: set<bytes>, sigs: seq<Signature>, xs: seq<Envelope>)
    returns (ss: seq<Signature>)
    requires SignaturesFit(k, s, sigs) && forall x :: x in xs ==> Attests(k, sigs, x)
    ensures SignaturesIn(k, xs) == Ok((ss, 0)) && |ss| == |xs|
    ensures forall i :: 0 <= i < |xs| ==> ss[i] in sigs && xs[i] == SignedAssertion(k, ss[i])
  {
    hide ReadSignature, SignedAssertion;
    if xs == [] {
      ss := [];
    } else {
      assert Attests(k, sigs, xs[0]);
      var sig :| sig in sigs && xs[0] == SignedAssertion(k, sig);
      SignatureReads(k, s, sig);
      var t := ReadAttested(k, s, sigs, xs[1..]);
      ss := [sig] + t;
    }
  }

  lemma SignatureReads(k: Codec, s: set<bytes>, sig: Signature)
    requires SignatureFits(k, s, sig)
    ensures ReadSignature(k, SignedAssertion(k, sig)) == Ok(Some(sig))
  {
  }

  ghost predicate SameMembersAs(a: seq<Signature>, b: seq<Signature>) {
    forall sig :: sig in a <==> sig in b
  }

  /** A wrapper shows its author's signatures as a set: each of them, none twice. */
  lemma WrapperShows(k: Codec, s: set<bytes>, inner: Envelope, sigs: seq<Signature>) returns (ss: seq<Signature>)
    requires Regular(k.hash) && CollisionFree(k.hash, s) && SignaturesFit(k, s, sigs) && sigs != []
    ensures var e := AddSignatures(k, Wrapped(inner), sigs);
            e.Node? && e.subject == Wrapped(inner) && SignaturesIn(k, e.assertions) == Ok((ss, 0))
    ensures SameMembersAs(ss, sigs) && forall i, j :: 0 <= i < j < |ss| ==> ss[i] != ss[j]
  {
    hide CollisionFree, Ordered, SignatureFits, SignedAssertion, SignaturesIn, AddSignatures;
    NothingOrdered(k.hash);
    BuildSignatures(k, s, Wrapped(inner), [], sigs);
    assert [] + sigs == sigs;
    var xs := AddSignatures(k, Wrapped(inner), sigs).assertions;
    ss := ReadAttested(k, s, sigs, xs);
    forall i, j | 0 <= i < j < |ss|
      ensures ss[i] != ss[j]
    {
      OrderedDistinct(k.hash, xs, i, j);
    }
    forall sig | sig in sigs
      ensures sig in ss
    {
      Found(k, s, sigs, sig, xs, ss);
    }
  }

  lemma Found(k: Codec, s: set<bytes>, sigs: seq<Signature>, sig: Signature, xs: seq<Envelope>, ss: seq<Signature>)
    requires SignaturesFit(k, s, sigs) && sig in sigs && |ss| == |xs|
    requires forall i :: 0 <= i < |xs| ==> ss[i] in sigs && xs[i] == SignedAssertion(k, ss[i])
    requires forall x :: x in xs <==> Attests(k, sigs, x)
    ensures sig in ss
  {
    hide ReadSignature, SignedAssertion;
    assert Attests(k, sigs, SignedAssertion(k, sig));
    var i :| 0 <= i < |xs| && xs[i] == SignedAssertion(k, sig);
    SignatureReads(k, s, sig);
    SignatureReads(k, s, ss[i]);
  }

  /** Encoding a signed op and reading it back: the op with its lists in increasing order, all its
      signatures, nothing elided. */
  lemma SignedRoundTrip(k: Codec, t: SignedOp, s: set<bytes>) returns (e: Envelope, r: SignedOp)
    requires OpFits(k.hash, t.op) && ToEnvelope(k, t.op).Ok? && Regular(k.hash) && CollisionFree(k.hash, s)
    requires CoversOp(k.hash, s, t.op) && SignaturesFit(k, s, t.signatures)
    ensures ToSignedEnvelope(k, t) == Ok(e) && FromEnvelope(k, e) == Ok(r)
    ensures r.elided == 0 && ReadsWithout(t.op, {}, Reading(r.op, 0)) && SameMembersAs(r.signatures, t.signatures)
    ensures forall i, j :: 0 <= i < j < |r.signatures| ==> r.signatures[i] != r.signatures[j]
    ensures t.signatures != [] ==> Digest(k.hash, Subject(e)) == SignedDigest(k, t.op)
  {
    hide CollisionFree, ToEnvelope, CoversOp, OpFits, ReadInner, ReadSignatures, SignaturesIn, AddSignatures,
      SignaturesFit, ReadsWithout, SameMembersAs, Digest, Ordered, Shows, Once;
    var read := RoundTripExactly(k, t.op, s);
    var inner, ds := Authored(k, t.op, s);
    CoreIsLeaf(t.op);
    assert read.elided == 0 && read == Reading(read.op, 0);
    e := ToSignedEnvelope(k, t).value;
    if t.signatures == [] {
      ReadBySignatures(k, [], SignedOp(read.op, [], 0));
      NoSignatures(k);
      NoneShared();
      assert e == inner && InnerOf(e) == inner && OuterOf(e) == [];
      r := SignedOp(read.op, [], 0);
      assert r.signatures + [] == r.signatures;
      assert FromEnvelope(k, e) == ReadSignatures(k, [], r);
    } else {
      var ss := WrapperShows(k, s, inner, t.signatures);
      ReadBySignatures(k, e.assertions, SignedOp(read.op, [], 0));
      assert [] + ss == ss;
      assert InnerOf(e) == inner && OuterOf(e) == e.assertions;
      r := SignedOp(read.op, ss, 0);
      assert FromEnvelope(k, e) == ReadSignatures(k, e.assertions, SignedOp(read.op, [], 0));
    }
  }

  lemma NoneShared()
    ensures SameMembersAs([], [])
  {
  }

  lemma HeadIsShown(ss: seq<Signature>)
    ensures ss == [] || exists sig :: sig in ss
  {
    assert ss == [] || ss[0] in ss;
  }

  /** Verifying the logical op and verifying its envelope accept the same signed ops. */
  lemma VerifiersAgree(k: Codec, g: Scheme, t: SignedOp, s: set<bytes>, pq: Option<PublicKey>)
    requires OpFits(k.hash, t.op) && ToEnvelope(k, t.op).Ok? && Regular(k.hash) && CollisionFree(k.hash, s)
    requires CoversOp(k.hash, s, t.op) && SignaturesFit(k, s, t.signatures)
    ensures ToSignedEnvelope(k, t).Ok?
    ensures VerifyEnvelope(k, g, ToSignedEnvelope(k, t).value, t.op.actor, pq).Ok?
            <==> VerifyOp(k, g, t, pq).Ok?
  {
    hide CollisionFree, ToEnvelope, CoversOp, OpFits, FromEnvelope, ToSignedEnvelope, SignaturesFit,
      ReadsWithout, Digest, VerifyAll, Passes;
    var e, r := SignedRoundTrip(k, t, s);
    if t.signatures == [] {
      HeadIsShown(r.signatures);
    } else {
      assert t.signatures[0] in r.signatures;
      var m := SignedDigest(k, t.op);
      VerifyAllExactly(g, t.signatures, m, t.op.actor, pq);
      VerifyAllExactly(g, r.signatures, m, t.op.actor, pq);
    }
  }

  /** The hypothesis on forgery is met by the author's own envelopes, with keys that sign anything. */
  lemma OwnEnvelopeIsUnforged(k: Codec, g: Scheme, seed: bytes, op: Op, s: set<bytes>, pq: Option<PublicKey>)
    returns (e: Envelope)
    requires Signs(g) && op.actor == g.actorOf(seed)
    requires OpFits(k.hash, op) && ToEnvelope(k, op).Ok? && Regular(k.hash) && CollisionFree(k.hash, s)
    requires CoversOp(k.hash, s, op) && SignatureFits(k, s, g.sign(seed, SignedDigest(k, op)))
    ensures Sign(k, g, seed, op).Ok? && ToSignedEnvelope(k, Sign(k, g, seed, op).value) == Ok(e)
    ensures VerifyEnvelope(k, g, e, op.actor, pq).Ok? && Unforged(k, g, e, op.actor, pq, {op})
  {
    hide CollisionFree, ToEnvelope, CoversOp, OpFits, FromEnvelope, ToSignedEnvelope, SignatureFits, ReadsWithout,
      Digest, VerifyAll, Passes, Signs, Regular, SameMembersAs, SignedDigest;
    var t := Sign(k, g, seed, op).value;
    OneSignature(k, g, seed, op, s, t);
    var r;
    e, r := SignedRoundTrip(k, t, s);
    assert ToldApart(g, op.actor, seed, SignedDigest(k, op));
    SignThenVerify(k, g, seed, op, pq);
    VerifiersAgree(k, g, t, s, pq);
    assert op in {op} && WasSigned(k, {op}, Digest(k.hash, Subject(e)));
  }

  lemma OneSignature(k: Codec, g: Scheme, seed: bytes, op: Op, s: set<bytes>, t: SignedOp)
    requires ToEnvelope(k, op).Ok? && Sign(k, g, seed, op) == Ok(t)
    requires SignatureFits(k, s, g.sign(seed, SignedDigest(k, op)))
    ensures t.op == op && t.signatures != [] && SignaturesFit(k, s, t.signatures)
  {
    hide ToEnvelope, SignatureFits, Digest;
  }

  // ---- eliding signatures ----

  lemma {:induction false} RedactedSignatures(k: Codec, xs: seq<Envelope>, ys: seq<Envelope>)
    requires Redacts(k.hash, xs, ys) && SignaturesIn(k, xs).Ok?
    ensures SignaturesIn(k, ys).Ok?
    ensures forall sig :: sig in SignaturesIn(k, ys).value.0 ==> sig in SignaturesIn(k, xs).value.0
    ensures |SignaturesIn(k, ys).value.0| + SignaturesIn(k, ys).value.1 == |xs|
    ensures |SignaturesIn(k, xs).value.0| + SignaturesIn(k, xs).value.1 == |xs|
  {
    hide Digest;
    if xs != [] {
      var xs', ys' := xs[1..], ys[1..];
      assert forall i :: 0 <= i < |xs'| ==> xs'[i] == xs[i + 1] && ys'[i] == ys[i + 1];
      RedactedSignatures(k, xs', ys');
    }
  }

  /** Eliding signatures from a verified envelope leaves it verified while one is left; with none
      left it counts as unsigned. */
  lemma SignatureElision(k: Codec, g: Scheme, core: Envelope, xs: seq<Envelope>, outer: seq<Envelope>,
                         rest: seq<Envelope>, actor: bytes, pq: Option<PublicKey>)
    requires Redacts(k.hash, outer, rest)
    requires VerifyEnvelope(k, g, SignedForm(core, xs, outer), actor, pq).Ok?
    ensures Digest(k.hash, SignedForm(core, xs, rest)) == Digest(k.hash, SignedForm(core, xs, outer))
    ensures SignaturesIn(k, rest).Ok?
    ensures var r := VerifyEnvelope(k, g, SignedForm(core, xs, rest), actor, pq);
            if SignaturesIn(k, rest).value.0 == [] then r == Err(Unsigned) else r.Ok?
  {
    hide FromEnvelope, SignaturesIn, ReadInner, VerifyAll, Passes, Redacts;
    FromSignedForm(k, core, xs, outer);
    FromSignedForm(k, core, xs, rest);
    RedactedDigests(k.hash, outer, rest);
    RedactedSignatures(k, outer, rest);
    var m := Digest(k.hash, Wrapped(Node(core, xs)));
    VerifyAllExactly(g, SignaturesIn(k, outer).value.0, m, actor, pq);
    VerifyAllExactly(g, SignaturesIn(k, rest).value.0, m, actor, pq);
  }
}
