/** Authored ops: what any elision of one reads as, and that nothing else reads under its digest. */
module LogAuthored {
  import opened Basics
  import opened LexSort
  import opened Envelopes
  import opened LogOps
  import opened LogReading
  import opened LogCore

  // ---- the assertions of a built envelope ----

  /** xs are the envelopes of the claims cs, one for one. */
  ghost predicate Shows(xs: seq<Envelope>, cs: seq<Claim>) {
    |xs| == |cs| && forall i :: 0 <= i < |xs| ==> ClaimFits(cs[i]) && xs[i] == ClaimEnvelope(cs[i])
  }

  lemma ShownClaims(xs: seq<Envelope>, x: Envelope, cs: seq<Claim>) returns (c: Claim)
    requires Shows(xs, cs) && x in xs
    ensures c in cs && ClaimFits(c) && x == ClaimEnvelope(c)
  {
    var i :| 0 <= i < |xs| && xs[i] == x;
    c := cs[i];
  }

  lemma AddClaim(h: Digester, s: set<bytes>, e: Envelope, cs: seq<Claim>, c: Claim) returns (ds: seq<Claim>)
    requires Regular(h) && CollisionFree(h, s)
    requires Ordered(h, Assertions(e)) && Shows(Assertions(e), cs)
    requires CoversClaims(h, s, cs) && ClaimFits(c) && Covered(h, s, ClaimEnvelope(c))
    ensures var r := AddAssertion(h, e, ClaimEnvelope(c));
            r.Node? && r.subject == Subject(e) && Ordered(h, r.assertions) && Shows(r.assertions, ds)
    ensures forall x :: x in ds <==> x in cs || x == c
  {
    hide Digest, ReadClaim, ClaimEnvelope, Ordered, Covered, CollisionFree, AddAssertion;
    var a := ClaimEnvelope(c);
    var xs := Assertions(e);
    AddKeepsOrder(h, e, a);
    if Carries(h, xs, Digest(h, a)) {
      var i :| 0 <= i < |xs| && Digest(h, xs[i]) == Digest(h, a);
      ClaimDigestInjective(h, s, cs[i], c);
      ds := cs;
    } else {
      var ys := AddAssertion(h, e, a).assertions;
      ds := Recovered(xs, cs, a, c, ys);
    }
  }

  ghost predicate Drawn(y: Envelope, pool: seq<Claim>) {
    exists d :: d in pool && ClaimFits(d) && y == ClaimEnvelope(d)
  }

  lemma Recovered(xs: seq<Envelope>, cs: seq<Claim>, a: Envelope, c: Claim, ys: seq<Envelope>)
    returns (ds: seq<Claim>)
    requires Shows(xs, cs) && ClaimFits(c) && a == ClaimEnvelope(c)
    requires forall y :: y in ys <==> y in xs || y == a
    ensures Shows(ys, ds) && forall x :: x in ds <==> x in cs || x == c
  {
    hide ReadClaim, ClaimEnvelope;
    var pool := cs + [c];
    forall y | y in ys
      ensures Drawn(y, pool)
    {
      if y != a {
        var d := ShownClaims(xs, y, cs);
        assert d in pool;
      } else {
        assert c in pool;
      }
    }
    ds := Matching(ys, pool);
    forall x | x in cs || x == c
      ensures x in ds
    {
      if x in cs {
        var i :| 0 <= i < |cs| && cs[i] == x;
        assert xs[i] in xs;
      }
      assert ClaimFits(x) && ClaimEnvelope(x) in ys;
      var j :| 0 <= j < |ys| && ys[j] == ClaimEnvelope(x);
      ClaimReads(x);
      ClaimReads(ds[j]);
      assert ds[j] in ds;
    }
  }

  lemma {:induction false} Matching(ys: seq<Envelope>, pool: seq<Claim>) returns (ds: seq<Claim>)
    requires forall y :: y in ys ==> Drawn(y, pool)
    ensures Shows(ys, ds) && forall d :: d in ds ==> d in pool
  {
    hide ClaimEnvelope;
    if ys == [] {
      ds := [];
    } else {
      assert Drawn(ys[0], pool);
      var d :| d in pool && ClaimFits(d) && ys[0] == ClaimEnvelope(d);
      var t := Matching(ys[1..], pool);
      ds := [d] + t;
    }
  }

  lemma {:induction false} BuildClaims(h: Digester, s: set<bytes>, e: Envelope, cs: seq<Claim>, todo: seq<Claim>)
    returns (ds: seq<Claim>)
    requires Regular(h) && CollisionFree(h, s)
    requires Ordered(h, Assertions(e)) && Shows(Assertions(e), cs)
    requires CoversClaims(h, s, cs) && CoversClaims(h, s, todo)
    ensures var r := AddClaims(h, e, todo);
            Subject(r) == Subject(e) && Ordered(h, Assertions(r)) && Shows(Assertions(r), ds)
            && (r.Node? <==> e.Node? || todo != [])
    ensures forall x :: x in ds <==> x in cs || x in todo
    decreases |todo|
  {
    hide Ordered, Shows, Covered, CollisionFree, AddAssertion, ClaimEnvelope;
    if todo == [] {
      ds := cs;
    } else {
      var ms := AddClaim(h, s, e, cs, todo[0]);
      ds := BuildClaims(h, s, AddAssertion(h, e, ClaimEnvelope(todo[0])), ms, todo[1..]);
      assert todo == [todo[0]] + todo[1..];
    }
  }

  lemma {:induction false} DepClaimsMembers(hs: seq<bytes>)
    ensures forall b :: Dep(b) in DepClaims(hs) <==> b in hs
  {
    if hs != [] {
      DepClaimsMembers(hs[1..]);
      assert hs == [hs[0]] + hs[1..];
    }
  }

  lemma {:induction false} NackClaimsMembers(hs: seq<bytes>)
    ensures forall b :: Nack(b) in NackClaims(hs) <==> b in hs
  {
    if hs != [] {
      NackClaimsMembers(hs[1..]);
      assert hs == [hs[0]] + hs[1..];
    }
  }

  ghost predicate Claimed(op: Op, c: Claim) {
    match c
    case Hidden => false
    case Dep(b) => b in op.deps
    case Nack(b) => b in op.nacks
    case Target(b) => op.target == Some(b)
    case Stamp(n) => op.timestamp == Some(n)
  }

  lemma ClaimListMembers(op: Op, c: Claim)
    ensures c in ClaimList(op) <==> Claimed(op, c)
  {
    DepClaimsMembers(op.deps);
    NackClaimsMembers(op.nacks);
  }

  ghost predicate Once(cs: seq<Claim>) {
    forall c :: multiset(cs)[c] <= 1
  }

  lemma {:induction false} OnceByIndex(cs: seq<Claim>)
    requires forall i, j :: 0 <= i < j < |cs| ==> cs[i] != cs[j]
    ensures Once(cs)
  {
    if cs != [] {
      var t := cs[1..];
      assert forall i :: 0 <= i < |t| ==> t[i] == cs[i + 1];
      OnceByIndex(t);
      assert cs == [cs[0]] + t;
      assert cs[0] !in t;
    }
  }

  /** What is hashed for the op's assertions lies in s. */
  ghost predicate CoversOp(h: Digester, s: set<bytes>, op: Op) {
    forall c :: c in ClaimList(op) ==> Covered(h, s, ClaimEnvelope(c))
  }

  /** An authored envelope lists each of the op's claims exactly once, in digest order. */
  lemma Authored(k: Codec, op: Op, s: set<bytes>) returns (inner: Envelope, ds: seq<Claim>)
    requires OpFits(k.hash, op) && ToEnvelope(k, op).Ok? && Regular(k.hash) && CollisionFree(k.hash, s)
    requires CoversOp(k.hash, s, op)
    ensures ToEnvelope(k, op) == Ok(inner) && Subject(inner) == CoreLeaf(op)
    ensures Ordered(k.hash, Assertions(inner)) && Shows(Assertions(inner), ds) && Once(ds)
    ensures forall c :: c in ds <==> Claimed(op, c)
    ensures inner == if ds == [] then CoreLeaf(op) else Node(CoreLeaf(op), Assertions(inner))
  {
    hide Covered, CollisionFree, AddClaims, ClaimEnvelope, CoreLeaf, Ordered, ClaimList, Once;
    inner := ToEnvelope(k, op).value;
    forall c
      ensures c in ClaimList(op) <==> Claimed(op, c)
    {
      ClaimListMembers(op, c);
    }
    assert CoversClaims(k.hash, s, ClaimList(op));
    assert CoreLeaf(op).Leaf? by {
      CoreIsLeaf(op);
    }
    NothingOrdered(k.hash);
    ds := BuildClaims(k.hash, s, CoreLeaf(op), [], ClaimList(op));
    var xs := Assertions(inner);
    forall i, j | 0 <= i < j < |ds|
      ensures ds[i] != ds[j]
    {
      OrderedDistinct(k.hash, xs, i, j);
    }
    OnceByIndex(ds);
    assert ds != [] ==> ds[0] in ds;
    assert ClaimList(op) != [] ==> ClaimList(op)[0] in ClaimList(op);
  }

  lemma CoreIsLeaf(op: Op)
    ensures CoreLeaf(op).Leaf?
  {
  }

  lemma NothingOrdered(h: Digester)
    ensures Ordered(h, [])
  {
  }

  // ---- eliding chosen claims ----

  function RedactOne(h: Digester, hidden: set<Claim>, a: Envelope): Envelope {
    if ReadClaim(a).Ok? && ReadClaim(a).value in hidden then Elided(Digest(h, a)) else a
  }

  function RedactAll(h: Digester, hidden: set<Claim>, xs: seq<Envelope>): (ys: seq<Envelope>)
    ensures |ys| == |xs|
  {
    seq(|xs|, i requires 0 <= i < |xs| => RedactOne(h, hidden, xs[i]))
  }

  /** Replace the assertions that make the chosen claims by their digests. */
  function RedactInner(h: Digester, hidden: set<Claim>, inner: Envelope): Envelope {
    if inner.Node? then Node(inner.subject, RedactAll(h, hidden, inner.assertions)) else inner
  }

  function Mask(cs: seq<Claim>, hidden: set<Claim>): (ms: seq<Claim>)
    ensures |ms| == |cs|
  {
    seq(|cs|, i requires 0 <= i < |cs| => if cs[i] in hidden then Hidden else cs[i])
  }

  lemma RedactedAllClaims(h: Digester, hidden: set<Claim>, xs: seq<Envelope>, cs: seq<Claim>)
    requires Shows(xs, cs)
    ensures Claims(RedactAll(h, hidden, xs)) == Ok(Mask(cs, hidden))
    ensures Redacts(h, xs, RedactAll(h, hidden, xs))
  {
    hide ReadClaim, Digest, ClaimFits, ClaimEnvelope;
    var ys := RedactAll(h, hidden, xs);
    forall i | 0 <= i < |ys|
      ensures ReadClaim(ys[i]) == Ok(Mask(cs, hidden)[i])
    {
      ClaimReads(cs[i]);
      ElidedIsHidden(Digest(h, xs[i]));
    }
    ClaimsPointwise(ys, Mask(cs, hidden));
  }

  lemma ElidedIsHidden(d: bytes)
    ensures ReadClaim(Elided(d)) == Ok(Hidden)
  {
  }

  lemma {:induction false} MaskCount(cs: seq<Claim>, hidden: set<Claim>, c: Claim)
    requires c != Hidden
    ensures multiset(Mask(cs, hidden))[c] == if c in hidden then 0 else multiset(cs)[c]
  {
    if cs != [] {
      MaskCount(cs[1..], hidden, c);
      MaskCons(cs, hidden);
    }
  }

  lemma MaskCons(cs: seq<Claim>, hidden: set<Claim>)
    requires cs != []
    ensures cs == [cs[0]] + cs[1..]
    ensures Mask(cs, hidden) == [if cs[0] in hidden then Hidden else cs[0]] + Mask(cs[1..], hidden)
  {
  }

  /** Each hidden claim is counted once. */
  lemma {:induction false} HiddenCount(cs: seq<Claim>, hidden: set<Claim>)
    requires Once(cs) && Hidden !in cs
    ensures multiset(Mask(cs, hidden))[Hidden] == |set c | c in cs && c in hidden|
  {
    if cs != [] {
      MaskCons(cs, hidden);
      var t := cs[1..];
      assert forall c :: multiset(cs)[c] == multiset([cs[0]])[c] + multiset(t)[c];
      assert Once(t);
      HiddenCount(t, hidden);
      assert cs[0] !in t by {
        assert multiset(t)[cs[0]] == 0;
      }
      var a, b := set c | c in cs && c in hidden, set c | c in t && c in hidden;
      assert a == if cs[0] in hidden then b + {cs[0]} else b;
    }
  }

  /** r is the op read with exactly the hidden claims missing, and counted. */
  ghost predicate ReadsWithout(op: Op, hidden: set<Claim>, r: Reading) {
    StrictLex(r.op.deps) && (forall b :: b in r.op.deps <==> b in op.deps && Dep(b) !in hidden)
    && StrictLex(r.op.nacks) && (forall b :: b in r.op.nacks <==> b in op.nacks && Nack(b) !in hidden)
    && r.op.target == (if op.target.Some? && Target(op.target.value) in hidden then None else op.target)
    && r.op.timestamp
       == (if op.timestamp.Some? && Stamp(op.timestamp.value) in hidden then None else op.timestamp)
    && Core(r.op) == Core(op)
  }

  lemma MaskedReading(op: Op, ds: seq<Claim>, hidden: set<Claim>)
    requires Once(ds) && forall c :: c in ds <==> Claimed(op, c)
    ensures var r := WithClaims(Reading(Core(op), 0), Mask(ds, hidden));
            ReadsWithout(op, hidden, Reading(SortLists(r.op), r.elided))
            && r.elided == |set c | c in ds && c in hidden|
  {
    hide SortLex, StrictLex, DepsOf, NacksOf, TargetOf, StampOf, Mask;
    var ms := Mask(ds, hidden);
    HiddenCount(ds, hidden);
    forall b
      ensures multiset(DepsOf(ms))[b] == if b in op.deps && Dep(b) !in hidden then 1 else 0
      ensures multiset(NacksOf(ms))[b] == if b in op.nacks && Nack(b) !in hidden then 1 else 0
    {
      DepsCount(ms, b);
      NacksCount(ms, b);
      MaskCount(ds, hidden, Dep(b));
      MaskCount(ds, hidden, Nack(b));
      CountOnce(ds, Dep(b));
      CountOnce(ds, Nack(b));
    }
    SortedOnce(DepsOf(ms));
    SortedOnce(NacksOf(ms));
    MaskedSingles(op, ds, hidden);
    assert [] + DepsOf(ms) == DepsOf(ms) && [] + NacksOf(ms) == NacksOf(ms);
  }

  lemma CountOnce(ds: seq<Claim>, c: Claim)
    requires Once(ds)
    ensures multiset(ds)[c] == if c in ds then 1 else 0
  {
    assert c in ds <==> c in multiset(ds);
  }

  lemma SortedOnce(xs: seq<bytes>)
    requires AllOnce(xs)
    ensures StrictLex(SortLex(xs)) && forall b :: b in SortLex(xs) <==> multiset(xs)[b] > 0
  {
    hide SortLex, StrictLex, SortedLex;
    SortLexProps(xs);
    StrictExactly(SortLex(xs));
    assert forall b :: b in SortLex(xs) <==> b in multiset(SortLex(xs));
  }

  lemma MaskedMember(ds: seq<Claim>, hidden: set<Claim>, c: Claim)
    requires c != Hidden
    ensures c in Mask(ds, hidden) <==> c in ds && c !in hidden
  {
    hide Mask;
    MaskCount(ds, hidden, c);
    assert c in Mask(ds, hidden) <==> c in multiset(Mask(ds, hidden));
    assert c in ds <==> c in multiset(ds);
  }

  lemma MaskedSingles(op: Op, ds: seq<Claim>, hidden: set<Claim>)
    requires forall c :: c in ds <==> Claimed(op, c)
    ensures var ms := Mask(ds, hidden);
            TargetOf(None, ms)
            == (if op.target.Some? && Target(op.target.value) in hidden then None else op.target)
            && StampOf(None, ms)
            == (if op.timestamp.Some? && Stamp(op.timestamp.value) in hidden then None else op.timestamp)
  {
    hide Mask, TargetOf, StampOf;
    var ms := Mask(ds, hidden);
    forall c | c != Hidden
      ensures c in ms <==> Claimed(op, c) && c !in hidden
    {
      MaskedMember(ds, hidden, c);
    }
    var b := if op.target.Some? then op.target.value else [];
    var n := if op.timestamp.Some? then op.timestamp.value else 0;
    TargetIs(None, ms, b);
    StampIs(None, ms, n);
  }

  /** Whichever claims of an authored op are elided, the reader gets the op without them: no
      other field changes, and the count of elided assertions is the number of claims hidden.
      With nothing hidden this is the round trip. */
  lemma AuthoredElision(k: Codec, op: Op, s: set<bytes>, hidden: set<Claim>) returns (r: Reading)
    requires OpFits(k.hash, op) && ToEnvelope(k, op).Ok? && Regular(k.hash) && CollisionFree(k.hash, s)
    requires CoversOp(k.hash, s, op)
    ensures var inner := ToEnvelope(k, op).value;
            ReadInner(k, RedactInner(k.hash, hidden, inner)) == Ok(r)
            && Digest(k.hash, RedactInner(k.hash, hidden, inner)) == Digest(k.hash, inner)
    ensures ReadsWithout(op, hidden, r)
    ensures r.elided == |set c | c in ClaimList(op) && c in hidden|
  {
    hide CoversOp, CollisionFree, ToEnvelope, ClaimList, Mask, RedactAll, Once, Ordered, WithClaims, ReadCore, RawFits;
    var inner, ds := Authored(k, op, s);
    CoreReads(k, op);
    MaskedReading(op, ds, hidden);
    var xs := Assertions(inner);
    RedactedAllClaims(k.hash, hidden, xs, ds);
    RedactedDigests(k.hash, xs, RedactAll(k.hash, hidden, xs));
    var inner' := RedactInner(k.hash, hidden, inner);
    var start := Reading(Core(op), 0);
    NothingRedacted(k.hash, hidden);
    assert Assertions(inner') == RedactAll(k.hash, hidden, xs);
    ReadByClaims(Assertions(inner'), start);
    assert SubjectEntries(inner') == Ok(CoreEntries(op));
    var w := WithClaims(start, Mask(ds, hidden));
    r := Reading(SortLists(w.op), w.elided);
    forall c
      ensures c in ds <==> c in ClaimList(op)
    {
      ClaimListMembers(op, c);
    }
    assert (set c | c in ds && c in hidden) == (set c | c in ClaimList(op) && c in hidden);
  }

  lemma NothingRedacted(h: Digester, hidden: set<Claim>)
    ensures RedactAll(h, hidden, []) == []
  {
  }
}
