/** Signing log ops over the digest tree, and verification of whole and redacted envelopes. */
module LogSigning {
  import opened Basics
  import opened Envelopes
  import opened LexSort
  import opened LogOps
  import opened LogReading
  import opened LogCore
  import opened LogAuthored
  import opened LogExact

  datatype PublicKey = MlDsaKey(raw: bytes) | OtherKey(raw: bytes)

  /** Ed25519 by seed and public key, and the ML-DSA-87 check, left open. */
  datatype Scheme = Scheme(
    actorOf: bytes -> bytes,
    sign: (bytes, bytes) -> Signature,
    verifyActor: (bytes, Signature, bytes) -> bool,
    verifyMlDsa: (bytes, bytes, bytes) -> bool)

  /** An author's signature is classical and verifies under the author's own key. */
  ghost predicate Signs(g: Scheme) {
    forall seed, m :: g.sign(seed, m).Classical? && g.verifyActor(g.actorOf(seed), g.sign(seed, m), m)
  }

  // ---- signing ----

  function RawSign(k: Codec, g: Scheme, seed: bytes, unsigned: Envelope): Signature {
    g.sign(seed, Digest(k.hash, Wrapped(unsigned)))
  }

  function Sign(k: Codec, g: Scheme, seed: bytes, op: Op): LogRes<SignedOp> {
    var e :- ToEnvelope(k, op);
    Ok(SignedOp(op, [RawSign(k, g, seed, e)], 0))
  }

  function CounterSign(k: Codec, g: Scheme, seed: bytes, s: SignedOp): LogRes<SignedOp> {
    var e :- ToEnvelope(k, s.op);
    Ok(s.(signatures := s.signatures + [RawSign(k, g, seed, e)]))
  }

  // ---- verifying ----

  function VerifyOne(g: Scheme, sig: Signature, digest: bytes, actor: bytes, pq: Option<PublicKey>): LogRes<()> {
    if sig.MlDsa? then
      if pq.None? then Err(PqDangling)
      else if !pq.value.MlDsaKey? then Err(InvalidKey)
      else if sig.level != Mldsa87 then Err(PqUnsupportedLevel(sig.level))
      else if g.verifyMlDsa(pq.value.raw, digest, sig.raw) then Ok(())
      else Err(BadSignature)
    else if g.verifyActor(actor, sig, digest) then Ok(())
    else Err(BadSignature)
  }

  function VerifyAll(g: Scheme, sigs: seq<Signature>, digest: bytes, actor: bytes, pq: Option<PublicKey>)
    : LogRes<()>
  {
    if sigs == [] then Ok(())
    else
      var _ :- VerifyOne(g, sigs[0], digest, actor, pq);
      VerifyAll(g, sigs[1..], digest, actor, pq)
  }

  method VerifySignatures(g: Scheme, sigs: seq<Signature>, digest: bytes, actor: bytes, pq: Option<PublicKey>)
    returns (r: LogRes<()>)
    ensures r == VerifyAll(g, sigs, digest, actor, pq)
    ensures r.Ok? <==> forall sig :: sig in sigs ==> Passes(g, sig, digest, actor, pq)
  {
    hide VerifyOne, Passes;
    VerifyAllExactly(g, sigs, digest, actor, pq);
    var i := 0;
    assert sigs[0..] == sigs;
    while i < |sigs|
      invariant 0 <= i <= |sigs|
      invariant VerifyAll(g, sigs[i..], digest, actor, pq) == VerifyAll(g, sigs, digest, actor, pq)
    {
      assert sigs[i..][1..] == sigs[i + 1..];
      var one := VerifyOne(g, sigs[i], digest, actor, pq);
      if one.Err? {
        return one;
      }
      i := i + 1;
    }
    r := Ok(());
  }

  function VerifyOp(k: Codec, g: Scheme, s: SignedOp, pq: Option<PublicKey>): LogRes<()> {
    if s.signatures == [] then Err(Unsigned)
    else
      var e :- ToEnvelope(k, s.op);
      VerifyAll(g, s.signatures, Digest(k.hash, Wrapped(e)), s.op.actor, pq)
  }

  function VerifyEnvelope(k: Codec, g: Scheme, e: Envelope, actor: bytes, pq: Option<PublicKey>): LogRes<()> {
    var s :- FromEnvelope(k, e);
    if s.signatures == [] then Err(Unsigned)
    else VerifyAll(g, s.signatures, Digest(k.hash, Subject(e)), actor, pq)
  }

  /** A signature counts when the primitive for its kind accepts it: an ML-DSA-87 one under the
      post-quantum key supplied, any other under the actor's key. */
  ghost predicate Passes(g: Scheme, sig: Signature, digest: bytes, actor: bytes, pq: Option<PublicKey>) {
    match sig
    case MlDsa(level, raw) =>
      level == Mldsa87 && pq.Some? && pq.value.MlDsaKey? && g.verifyMlDsa(pq.value.raw, digest, raw)
    case Classical(_, _) => g.verifyActor(actor, sig, digest)
  }

  /** What a signature that does not count is refused for. */
  ghost function Fault(sig: Signature, pq: Option<PublicKey>): LogError {
    if sig.Classical? then BadSignature
    else if pq == None then PqDangling
    else if pq.value.OtherKey? then InvalidKey
    else if sig.level != Mldsa87 then PqUnsupportedLevel(sig.level)
    else BadSignature
  }

  lemma VerifyOneExactly(g: Scheme, sig: Signature, digest: bytes, actor: bytes, pq: Option<PublicKey>)
    ensures VerifyOne(g, sig, digest, actor, pq)
            == if Passes(g, sig, digest, actor, pq) then Ok(()) else Err(Fault(sig, pq))
  {
  }

  /** Signature i is the first that does not count. */
  ghost predicate FirstFault(g: Scheme, sigs: seq<Signature>, digest: bytes, actor: bytes, pq: Option<PublicKey>, i: nat)
  {
    i < |sigs| && !Passes(g, sigs[i], digest, actor, pq)
    && forall j :: 0 <= j < i ==> Passes(g, sigs[j], digest, actor, pq)
  }

  /** Accepted exactly when every signature counts; otherwise refused for the first that does not. A
      post-quantum signature without a key to check it is never a pass. */
  lemma {:induction false} VerifyAllExactly(g: Scheme, sigs: seq<Signature>, digest: bytes, actor: bytes,
                                            pq: Option<PublicKey>)
    ensures VerifyAll(g, sigs, digest, actor, pq).Ok? <==>
            forall sig :: sig in sigs ==> Passes(g, sig, digest, actor, pq)
    ensures forall i: nat :: FirstFault(g, sigs, digest, actor, pq, i) ==>
              VerifyAll(g, sigs, digest, actor, pq) == Err(Fault(sigs[i], pq))
  {
    hide VerifyOne, Passes, Fault;
    if sigs != [] {
      var t := sigs[1..];
      VerifyAllExactly(g, t, digest, actor, pq);
      VerifyOneExactly(g, sigs[0], digest, actor, pq);
      assert sigs == [sigs[0]] + t;
      forall i: nat | FirstFault(g, sigs, digest, actor, pq, i)
        ensures VerifyAll(g, sigs, digest, actor, pq) == Err(Fault(sigs[i], pq))
      {
        if i > 0 {
          assert FirstFault(g, t, digest, actor, pq, i - 1) by {
            assert forall j :: 0 <= j < i - 1 ==> t[j] == sigs[j + 1];
          }
        }
      }
    }
  }

  /** Both verifiers, in full: something must be signed, all of it must count, and over the digest of the
      wrapper. */
  lemma VerdictsExactly(k: Codec, g: Scheme, s: SignedOp, e: Envelope, actor: bytes, pq: Option<PublicKey>)
    ensures VerifyOp(k, g, s, pq).Ok? <==>
            ToEnvelope(k, s.op).Ok? && s.signatures != []
            && forall sig :: sig in s.signatures ==>
                 Passes(g, sig, Digest(k.hash, Wrapped(ToEnvelope(k, s.op).value)), s.op.actor, pq)
    ensures VerifyEnvelope(k, g, e, actor, pq).Ok? <==>
            FromEnvelope(k, e).Ok? && FromEnvelope(k, e).value.signatures != []
            && forall sig :: sig in FromEnvelope(k, e).value.signatures ==>
                 Passes(g, sig, Digest(k.hash, Subject(e)), actor, pq)
    ensures VerifyOp(k, g, s, pq) == Err(Unsigned) <==> s.signatures == []
  {
    hide ToEnvelope, FromEnvelope, Digest, VerifyAll, Passes;
    if ToEnvelope(k, s.op).Ok? {
      var m := Digest(k.hash, Wrapped(ToEnvelope(k, s.op).value));
      VerifyAllExactly(g, s.signatures, m, s.op.actor, pq);
      FaultIsNotUnsigned(g, s.signatures, m, s.op.actor, pq);
    }
    NoEnvelopeErrors(k, s.op);
    if FromEnvelope(k, e).Ok? {
      VerifyAllExactly(g, FromEnvelope(k, e).value.signatures, Digest(k.hash, Subject(e)), actor, pq);
    }
  }

  lemma NoEnvelopeErrors(k: Codec, op: Op)
    ensures ToEnvelope(k, op) != Err(Unsigned)
  {
    hide AddClaims, ClaimList;
  }

  lemma {:induction false} FaultIsNotUnsigned(g: Scheme, sigs: seq<Signature>, digest: bytes, actor: bytes,
                                              pq: Option<PublicKey>)
    ensures VerifyAll(g, sigs, digest, actor, pq) != Err(Unsigned)
  {
    if sigs != [] {
      FaultIsNotUnsigned(g, sigs[1..], digest, actor, pq);
    }
  }

  // ---- the signatures of a wrapper ----

  /** The signatures shown and the number of elided assertions. */
  function SignaturesIn(k: Codec, xs: seq<Envelope>): LogRes<(seq<Signature>, nat)> {
    if xs == [] then Ok(([], 0))
    else
      var sig :- ReadSignature(k, xs[0]);
      var (sigs, n) :- SignaturesIn(k, xs[1..]);
      Ok(if sig.Some? then ([sig.value] + sigs, n) else (sigs, n + 1))
  }

  lemma {:induction false} ReadBySignatures(k: Codec, xs: seq<Envelope>, s: SignedOp)
    ensures ReadSignatures(k, xs, s) ==
            (var r := SignaturesIn(k, xs);
             if r.Err? then Err(r.error)
             else Ok(SignedOp(s.op, s.signatures + r.value.0, s.elided + r.value.1)))
    decreases |xs|
  {
    hide ReadSignature;
    if xs == [] {
      assert s.signatures + [] == s.signatures;
    } else if ReadSignature(k, xs[0]).Ok? {
      var sig := ReadSignature(k, xs[0]).value;
      if sig.Some? {
        ReadBySignatures(k, xs[1..], s.(signatures := s.signatures + [sig.value]));
        if SignaturesIn(k, xs[1..]).Ok? {
          var sigs := SignaturesIn(k, xs[1..]).value.0;
          assert s.signatures + [sig.value] + sigs == s.signatures + ([sig.value] + sigs);
        }
      } else {
        ReadBySignatures(k, xs[1..], s.(elided := s.elided + 1));
      }
    }
  }

  // ---- elision ----

  function SignedForm(core: Envelope, xs: seq<Envelope>, outer: seq<Envelope>): Envelope {
    Node(Wrapped(Node(core, xs)), outer)
  }

  lemma FromSignedForm(k: Codec, core: Envelope, xs: seq<Envelope>, outer: seq<Envelope>)
    ensures FromEnvelope(k, SignedForm(core, xs, outer)) ==
            (var r, t := ReadInner(k, Node(core, xs)), SignaturesIn(k, outer);
             if r.Err? then Err(r.error)
             else if t.Err? then Err(t.error)
             else Ok(SignedOp(r.value.op, t.value.0, r.value.elided + t.value.1)))
  {
    hide ReadInner, ReadSignatures, SignaturesIn;
    var r := ReadInner(k, Node(core, xs));
    if r.Ok? {
      ReadBySignatures(k, outer, SignedOp(r.value.op, [], r.value.elided));
      if SignaturesIn(k, outer).Ok? {
        var sigs := SignaturesIn(k, outer).value.0;
        assert [] + sigs == sigs;
      }
    }
  }

  ghost predicate SignedLostExactly(s: SignedOp, s': SignedOp, cs: seq<Claim>, ds: seq<Claim>)
    requires |cs| == |ds|
  {
    s'.signatures == s.signatures
    && LostExactly(Reading(s.op, s.elided), Reading(s'.op, s'.elided), cs, ds)
  }

  /** Eliding any inner assertions of a readable signed op keeps its digest, its signatures and
      the verdict for every actor and key; the reader loses exactly the elided claims, and
      counts them. */
  lemma ElisionKeepsVerdict(k: Codec, core: Envelope, xs: seq<Envelope>, ys: seq<Envelope>, outer: seq<Envelope>)
    returns (cs: seq<Claim>, ds: seq<Claim>)
    requires Redacts(k.hash, xs, ys) && FromEnvelope(k, SignedForm(core, xs, outer)).Ok?
    ensures Digest(k.hash, SignedForm(core, ys, outer)) == Digest(k.hash, SignedForm(core, xs, outer))
    ensures forall g: Scheme, actor: bytes, pq: Option<PublicKey> ::
              VerifyEnvelope(k, g, SignedForm(core, ys, outer), actor, pq)
              == VerifyEnvelope(k, g, SignedForm(core, xs, outer), actor, pq)
    ensures Claims(xs) == Ok(cs) && |cs| == |ds| == |xs|
    ensures forall i :: 0 <= i < |xs| ==> ds[i] == if ys[i] == xs[i] then cs[i] else Hidden
    ensures FromEnvelope(k, SignedForm(core, ys, outer)).Ok?
    ensures SignedLostExactly(FromEnvelope(k, SignedForm(core, xs, outer)).value,
                              FromEnvelope(k, SignedForm(core, ys, outer)).value, cs, ds)
  {
    hide ReadInner, FromEnvelope, SignaturesIn, Claims, Dropped, DepsOf, NacksOf, TargetOf, StampOf,
      Redacts, SortedLex, VerifyAll;
    FromSignedForm(k, core, xs, outer);
    FromSignedForm(k, core, ys, outer);
    cs, ds := RedactedInner(k, core, xs, ys);
  }

  lemma ArrangedParts(h: Digester, core: Envelope, xs: seq<Envelope>, outer: seq<Envelope>)
    requires Arranged(h, SignedForm(core, xs, outer))
    ensures Arranged(h, core) && Sorted(h, xs) && Sorted(h, outer)
    ensures (forall x :: x in xs ==> Arranged(h, x)) && forall a :: a in outer ==> Arranged(h, a)
  {
    hide Sorted;
    assert Arranged(h, Wrapped(Node(core, xs)));
    assert Arranged(h, Node(core, xs));
  }

  lemma ElideInner(h: Digester, targets: set<bytes>, core: Envelope, xs: seq<Envelope>)
    returns (ys: seq<Envelope>)
    requires Arranged(h, core) && Sorted(h, xs) && forall x :: x in xs ==> Arranged(h, x)
    requires Digest(h, Node(core, xs)) !in targets && Untouched(h, targets, core)
    requires forall x :: x in xs ==> Digest(h, x) in targets || Untouched(h, targets, x)
    ensures Elide(h, targets, Node(core, xs)) == Node(core, ys) && |ys| == |xs|
    ensures forall i :: 0 <= i < |xs| ==>
              ys[i] == if Digest(h, xs[i]) in targets then Elided(Digest(h, xs[i])) else xs[i]
  {
    hide Sorted, SortByDigest, ElideAll, Arranged, Untouched;
    ElideUntouched(h, targets, core);
    ys := ElideAll(h, targets, xs);
    ElideAllAt(h, targets, xs);
    forall i | 0 <= i < |xs|
      ensures ys[i] == if Digest(h, xs[i]) in targets then Elided(Digest(h, xs[i])) else xs[i]
    {
      if Digest(h, xs[i]) !in targets {
        ElideUntouched(h, targets, xs[i]);
      }
    }
    SortedByDigests(h, xs, ys);
    SortOfSorted(h, ys);
  }

  /** Which is what the library's set-based elision does, when its targets are inner
      assertions and nothing else. */
  lemma ElideIsRedaction(h: Digester, targets: set<bytes>, core: Envelope, xs: seq<Envelope>, outer: seq<Envelope>)
    returns (ys: seq<Envelope>)
    requires var e := SignedForm(core, xs, outer);
             Arranged(h, e) && Digest(h, e) !in targets && Digest(h, e.subject) !in targets
             && Digest(h, e.subject.inner) !in targets
    requires Untouched(h, targets, core) && forall a :: a in outer ==> Untouched(h, targets, a)
    requires forall x :: x in xs ==> Digest(h, x) in targets || Untouched(h, targets, x)
    ensures Elide(h, targets, SignedForm(core, xs, outer)) == SignedForm(core, ys, outer)
    ensures Redacts(h, xs, ys)
    ensures forall i :: 0 <= i < |xs| ==>
              ys[i] == if Digest(h, xs[i]) in targets then Elided(Digest(h, xs[i])) else xs[i]
  {
    hide Sorted, SortByDigest, ElideAll, Arranged, Untouched, Digest;
    ArrangedParts(h, core, xs, outer);
    ys := ElideInner(h, targets, core, xs);
    ElideOuter(h, targets, outer);
    assert Elide(h, targets, Wrapped(Node(core, xs))) == Wrapped(Node(core, ys));
  }

  lemma ElideOuter(h: Digester, targets: set<bytes>, outer: seq<Envelope>)
    requires Sorted(h, outer) && forall a :: a in outer ==> Arranged(h, a) && Untouched(h, targets, a)
    ensures SortByDigest(h, ElideAll(h, targets, outer)) == outer
  {
    hide SortByDigest, Sorted;
    forall i | 0 <= i < |outer|
      ensures Elide(h, targets, outer[i]) == outer[i]
    {
      ElideUntouched(h, targets, outer[i]);
    }
    ElideAllAt(h, targets, outer);
    assert ElideAll(h, targets, outer) == outer;
    SortOfSorted(h, outer);
  }

  // ---- what a verified envelope shows ----

  /** The digest an author signs for an op. */
  function SignedDigest(k: Codec, op: Op): bytes
    requires ToEnvelope(k, op).Ok?
  {
    Digest(k.hash, Wrapped(ToEnvelope(k, op).value))
  }

  ghost predicate WasSigned(k: Codec, signed: set<Op>, digest: bytes) {
    exists op :: op in signed && ToEnvelope(k, op).Ok? && digest == SignedDigest(k, op)
  }

  /** No signature on this envelope that passes is forged: the digest it passes on is one of an op in
      `signed`. Nothing is supposed of signatures or messages not presented. */
  ghost predicate Unforged(k: Codec, g: Scheme, e: Envelope, actor: bytes, pq: Option<PublicKey>, signed: set<Op>)
    requires FromEnvelope(k, e).Ok?
  {
    forall sig :: sig in FromEnvelope(k, e).value.signatures
      && Passes(g, sig, Digest(k.hash, Subject(e)), actor, pq)
      ==> WasSigned(k, signed, Digest(k.hash, Subject(e)))
  }

  /** What is hashed for an op's signature lies in s. */
  ghost predicate CoversSigned(k: Codec, s: set<bytes>, op: Op) {
    ToEnvelope(k, op).Ok? ==>
      OpFits(k.hash, op) && CoversOp(k.hash, s, op) && Covered(k.hash, s, Wrapped(ToEnvelope(k, op).value))
  }

  /** An envelope that verifies, under the actor's key or a post-quantum one, was made from an op that
      was signed; and it shows that op, whole or elided up to the normalization of its kind, if and
      only if it is a node exactly when the op has assertions. */
  lemma VerifiedShowsSigned(k: Codec, g: Scheme, actor: bytes, pq: Option<PublicKey>, signed: set<Op>,
                            s: set<bytes>, e: Envelope)
    returns (op: Op)
    requires Regular(k.hash) && CollisionFree(k.hash, s)
    requires WellFormed(k.hash, Subject(e)) && Covered(k.hash, s, Subject(e))
    requires forall o :: o in signed ==> CoversSigned(k, s, o)
    requires VerifyEnvelope(k, g, e, actor, pq).Ok? && Unforged(k, g, e, actor, pq, signed)
    ensures op in signed && SeenUnder(k, op, s, InnerOf(e))
    ensures FromEnvelope(k, e).value.op == ReadInner(k, InnerOf(e)).value.op
    ensures (exists hidden :: ShowsElision(k, op, hidden, InnerOf(e))) <==> SameShape(op, InnerOf(e))
  {
    hide ReadInner, CollisionFree, Covered, WellFormed, VerifyAll, Passes, ToEnvelope, ShowsElision, SameShape,
      ReadSignatures, Digest, CoversOp, OpFits, Regular;
    var t := FromEnvelope(k, e).value;
    var r := ReadInner(k, InnerOf(e)).value;
    ReadBySignatures(k, OuterOf(e), SignedOp(r.op, [], r.elided));
    NoSignatures(k);
    var seen := InnerOf(e);
    assert Subject(e) == Wrapped(seen);
    VerifyAllExactly(g, t.signatures, Digest(k.hash, Subject(e)), actor, pq);
    assert t.signatures[0] in t.signatures;
    assert WasSigned(k, signed, Digest(k.hash, Subject(e)));
    op :| op in signed && ToEnvelope(k, op).Ok? && Digest(k.hash, Subject(e)) == SignedDigest(k, op);
    Unwraps(k.hash, s, ToEnvelope(k, op).value, seen);
    VisibleExactly(k, op, s, seen);
  }

  lemma NoSignatures(k: Codec)
    ensures SignaturesIn(k, []) == Ok(([], 0))
  {
  }

  lemma Unwraps(h: Digester, s: set<bytes>, x: Envelope, y: Envelope)
    requires CollisionFree(h, s) && Covered(h, s, Wrapped(x)) && Covered(h, s, Wrapped(y))
    requires Digest(h, Wrapped(x)) == Digest(h, Wrapped(y))
    ensures Digest(h, x) == Digest(h, y) && Covered(h, s, x) && Covered(h, s, y)
    ensures WellFormed(h, Wrapped(y)) ==> WellFormed(h, y)
  {
    hide CollisionFree;
    SamePreimage(h, s, Wrapped(x), Wrapped(y));
  }

  // ---- signing and counter-signing ----

  lemma JustOne(g: Scheme, sig: Signature, digest: bytes, actor: bytes, pq: Option<PublicKey>)
    ensures VerifyAll(g, [sig], digest, actor, pq) == VerifyOne(g, sig, digest, actor, pq)
  {
    assert [sig][1..] == [];
    assert VerifyAll(g, [sig][1..], digest, actor, pq) == Ok(());
  }

  lemma {:induction false} VerifyAllAppend(g: Scheme, sigs: seq<Signature>, sig: Signature, digest: bytes,
                                           actor: bytes, pq: Option<PublicKey>)
    ensures VerifyAll(g, sigs + [sig], digest, actor, pq) ==
            (var r := VerifyAll(g, sigs, digest, actor, pq);
             if r.Err? then r else VerifyOne(g, sig, digest, actor, pq))
  {
    if sigs == [] {
      assert sigs + [sig] == [sig];
      JustOne(g, sig, digest, actor, pq);
    } else {
      VerifyAllAppend(g, sigs[1..], sig, digest, actor, pq);
      assert (sigs + [sig])[0] == sigs[0] && (sigs + [sig])[1..] == sigs[1..] + [sig];
    }
  }

  /** The actor's key does not take this other author's signature for its own. */
  ghost predicate ToldApart(g: Scheme, actor: bytes, seed: bytes, m: bytes) {
    g.actorOf(seed) != actor ==> !g.verifyActor(actor, g.sign(seed, m), m)
  }

  lemma OwnSignaturePasses(g: Scheme, actor: bytes, seed: bytes, m: bytes, pq: Option<PublicKey>)
    requires Signs(g) && ToldApart(g, actor, seed, m)
    ensures VerifyOne(g, g.sign(seed, m), m, actor, pq)
            == if g.actorOf(seed) == actor then Ok(()) else Err(BadSignature)
  {
  }

  /** A signed op verifies exactly when its signer is its actor. */
  lemma SignThenVerify(k: Codec, g: Scheme, seed: bytes, op: Op, pq: Option<PublicKey>)
    requires Signs(g) && ToEnvelope(k, op).Ok? && ToldApart(g, op.actor, seed, SignedDigest(k, op))
    ensures Sign(k, g, seed, op).Ok?
    ensures VerifyOp(k, g, Sign(k, g, seed, op).value, pq)
            == if g.actorOf(seed) == op.actor then Ok(()) else Err(BadSignature)
  {
    hide ToEnvelope, Digest, VerifyOne, ToldApart, Signs;
    var m := SignedDigest(k, op);
    OwnSignaturePasses(g, op.actor, seed, m, pq);
    JustOne(g, g.sign(seed, m), m, op.actor, pq);
  }

  /** Counter-signing leaves the op, its digest and the earlier signatures alone. The result verifies
      exactly when what was there verified and the new signer is the op's actor. */
  lemma CounterSignExactly(k: Codec, g: Scheme, seed: bytes, s: SignedOp, pq: Option<PublicKey>)
    requires Signs(g) && ToEnvelope(k, s.op).Ok? && ToldApart(g, s.op.actor, seed, SignedDigest(k, s.op))
    ensures CounterSign(k, g, seed, s).Ok?
    ensures var t := CounterSign(k, g, seed, s).value;
            t.op == s.op && t.elided == s.elided && s.signatures <= t.signatures
            && |t.signatures| == |s.signatures| + 1
            && VerifyOp(k, g, t, pq) ==
               if s.signatures != [] && VerifyOp(k, g, s, pq).Err? then VerifyOp(k, g, s, pq)
               else if g.actorOf(seed) == s.op.actor then Ok(())
               else Err(BadSignature)
  {
    hide ToEnvelope, Digest, VerifyOne, ToldApart, Signs;
    var m := SignedDigest(k, s.op);
    OwnSignaturePasses(g, s.op.actor, seed, m, pq);
    VerifyAllAppend(g, s.signatures, g.sign(seed, m), m, s.op.actor, pq);
  }

  /** A scheme in which the key is the seed and a signature is the key and the message. */
  function NamedScheme(): Scheme {
    Scheme((seed: bytes) => seed,
           (seed: bytes, m: bytes) => Classical(0, seed + m),
           (actor: bytes, sig: Signature, m: bytes) => sig == Classical(0, actor + m),
           (key: bytes, m: bytes, sig: bytes) => false)
  }

  lemma NamedSchemeSigns(actor: bytes, seed: bytes, m: bytes)
    ensures Signs(NamedScheme()) && ToldApart(NamedScheme(), actor, seed, m)
  {
    if seed + m == actor + m {
      assert |seed| == |actor|;
      assert seed == (seed + m)[..|seed|] && actor == (actor + m)[..|actor|];
    }
  }

  /** A second author's counter-signature, over the very same digest, makes a verified op fail. */
  lemma SecondAuthorFails(k: Codec, op: Op, other: bytes, pq: Option<PublicKey>)
    requires ToEnvelope(k, op).Ok? && other != op.actor
    ensures var g := NamedScheme();
            var s := Sign(k, g, op.actor, op);
            s.Ok? && VerifyOp(k, g, s.value, pq).Ok?
            && CounterSign(k, g, other, s.value).Ok?
            && VerifyOp(k, g, CounterSign(k, g, other, s.value).value, pq) == Err(BadSignature)
  {
    hide ToEnvelope, Digest, VerifyAll, ToldApart, Signs;
    var g := NamedScheme();
    var m := SignedDigest(k, op);
    NamedSchemeSigns(op.actor, op.actor, m);
    NamedSchemeSigns(op.actor, other, m);
    SignThenVerify(k, g, op.actor, op, pq);
    CounterSignExactly(k, g, other, Sign(k, g, op.actor, op).value, pq);
  }
}
