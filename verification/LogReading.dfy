/** Reading an envelope in terms of what its assertions claim, and reading redacted ones. */
module LogReading {
  import opened Basics
  import opened Cbor
  import opened LexSort
  import opened Envelopes
  import opened LogOps

  // ---- a reader-independent account: the list of claims ----

  function Claims(xs: seq<Envelope>): LogRes<seq<Claim>> {
    if xs == [] then Ok([])
    else
      var c :- ReadClaim(xs[0]);
      var cs :- Claims(xs[1..]);
      Ok([c] + cs)
  }

  function DepsOf(cs: seq<Claim>): seq<bytes> {
    if cs == [] then [] else (if cs[0].Dep? then [cs[0].hash] else []) + DepsOf(cs[1..])
  }

  function NacksOf(cs: seq<Claim>): seq<bytes> {
    if cs == [] then [] else (if cs[0].Nack? then [cs[0].hash] else []) + NacksOf(cs[1..])
  }

  /** The last target claimed, or o. */
  function TargetOf(o: Option<bytes>, cs: seq<Claim>): Option<bytes>
    decreases |cs|
  {
    if cs == [] then o else TargetOf(if cs[0].Target? then Some(cs[0].hash) else o, cs[1..])
  }

  function StampOf(o: Option<nat>, cs: seq<Claim>): Option<nat>
    decreases |cs|
  {
    if cs == [] then o else StampOf(if cs[0].Stamp? then Some(cs[0].secs) else o, cs[1..])
  }

  function WithClaims(r: Reading, cs: seq<Claim>): Reading {
    Reading(r.op.(deps := r.op.deps + DepsOf(cs), nacks := r.op.nacks + NacksOf(cs),
                  target := TargetOf(r.op.target, cs), timestamp := StampOf(r.op.timestamp, cs)),
            r.elided + multiset(cs)[Hidden])
  }

  /** The reading loop fails exactly when some assertion is malformed, with the first such
      error, and otherwise collects the claims. */
  lemma {:induction false} ReadByClaims(xs: seq<Envelope>, r: Reading)
    ensures ReadAssertions(xs, r) ==
            (var cs := Claims(xs); if cs.Err? then Err(cs.error) else Ok(WithClaims(r, cs.value)))
  {
    hide ReadClaim, DepsOf, NacksOf, WithClaims;
    if xs == [] {
      NoClaims(r);
    } else if ReadClaim(xs[0]).Ok? {
      var c := ReadClaim(xs[0]).value;
      var r' := ReadAssertion(xs[0], r).value;
      ReadByClaims(xs[1..], r');
      if Claims(xs[1..]).Ok? {
        WithClaimsStep(r, c, Claims(xs[1..]).value);
      }
    }
  }

  lemma NoClaims(r: Reading)
    ensures WithClaims(r, []) == r
  {
  }

  lemma WithClaimsStep(r: Reading, c: Claim, cs: seq<Claim>)
    ensures WithClaims(r, [c] + cs) == WithClaims(Told(r, c), cs)
  {
    assert ([c] + cs)[1..] == cs;
  }

  lemma {:induction false} ClaimsPointwise(xs: seq<Envelope>, cs: seq<Claim>)
    ensures Claims(xs) == Ok(cs) <==>
            |cs| == |xs| && forall i :: 0 <= i < |xs| ==> ReadClaim(xs[i]) == Ok(cs[i])
  {
    hide ReadClaim;
    if xs != [] {
      if cs != [] {
        ClaimsPointwise(xs[1..], cs[1..]);
        assert cs == [cs[0]] + cs[1..];
        if ReadClaim(xs[0]) == Ok(cs[0]) && Claims(xs[1..]) != Ok(cs[1..]) && |cs| == |xs| {
          var i :| 0 <= i < |xs| - 1 && ReadClaim(xs[1..][i]) != Ok(cs[1..][i]);
          assert ReadClaim(xs[i + 1]) != Ok(cs[i + 1]);
        }
      }
    }
  }

  // ---- counting claims ----

  lemma {:induction false} DepsCount(cs: seq<Claim>, b: bytes)
    ensures multiset(DepsOf(cs))[b] == multiset(cs)[Dep(b)]
  {
    if cs != [] {
      DepsCount(cs[1..], b);
      assert cs == [cs[0]] + cs[1..];
    }
  }

  lemma {:induction false} NacksCount(cs: seq<Claim>, b: bytes)
    ensures multiset(NacksOf(cs))[b] == multiset(cs)[Nack(b)]
  {
    if cs != [] {
      NacksCount(cs[1..], b);
      assert cs == [cs[0]] + cs[1..];
    }
  }

  /** When all target claims agree, the last one is any of them. */
  lemma {:induction false} TargetIs(o: Option<bytes>, cs: seq<Claim>, b: bytes)
    requires forall c :: c in cs && c.Target? ==> c.hash == b
    ensures TargetOf(o, cs) == if Target(b) in cs then Some(b) else o
    decreases |cs|
  {
    if cs != [] {
      TargetIs(if cs[0].Target? then Some(cs[0].hash) else o, cs[1..], b);
      assert cs == [cs[0]] + cs[1..];
    }
  }

  lemma {:induction false} StampIs(o: Option<nat>, cs: seq<Claim>, n: nat)
    requires forall c :: c in cs && c.Stamp? ==> c.secs == n
    ensures StampOf(o, cs) == if Stamp(n) in cs then Some(n) else o
    decreases |cs|
  {
    if cs != [] {
      StampIs(if cs[0].Stamp? then Some(cs[0].secs) else o, cs[1..], n);
      assert cs == [cs[0]] + cs[1..];
    }
  }

  // ---- redaction ----

  /** ys is xs with some elements replaced by their digests. */
  ghost predicate Redacts(h: Digester, xs: seq<Envelope>, ys: seq<Envelope>) {
    |ys| == |xs| && forall i :: 0 <= i < |xs| ==> ys[i] == xs[i] || ys[i] == Elided(Digest(h, xs[i]))
  }

  /** The claims that differ between a list and its redaction. */
  function Dropped(cs: seq<Claim>, ds: seq<Claim>): seq<Claim>
    requires |cs| == |ds|
  {
    if cs == [] then []
    else (if cs[0] == ds[0] then [] else [cs[0]]) + Dropped(cs[1..], ds[1..])
  }

  lemma {:induction false} DroppedCount(cs: seq<Claim>, ds: seq<Claim>, c: Claim)
    requires |cs| == |ds| && forall i :: 0 <= i < |cs| ==> ds[i] == cs[i] || ds[i] == Hidden
    ensures if c == Hidden then multiset(ds)[c] == multiset(cs)[c] + |Dropped(cs, ds)|
            else multiset(cs)[c] == multiset(ds)[c] + multiset(Dropped(cs, ds))[c]
  {
    if cs != [] {
      DroppedCount(cs[1..], ds[1..], c);
      assert cs == [cs[0]] + cs[1..] && ds == [ds[0]] + ds[1..];
    }
  }

  lemma {:induction false} RedactedDigests(h: Digester, xs: seq<Envelope>, ys: seq<Envelope>)
    requires Redacts(h, xs, ys)
    ensures Digests(h, ys) == Digests(h, xs)
  {
    SortedByDigests(h, xs, ys);
  }

  /** Redacting a readable list hides the redacted claims and touches no other. */
  lemma RedactedClaims(h: Digester, xs: seq<Envelope>, ys: seq<Envelope>, cs: seq<Claim>)
    returns (ds: seq<Claim>)
    requires Redacts(h, xs, ys) && Claims(xs) == Ok(cs)
    ensures Claims(ys) == Ok(ds) && |ds| == |cs| == |xs|
    ensures forall i :: 0 <= i < |xs| ==> ds[i] == if ys[i] == xs[i] then cs[i] else Hidden
  {
    hide Digest;
    ClaimsPointwise(xs, cs);
    ds := seq(|xs|, i requires 0 <= i < |xs| => if ys[i] == xs[i] then cs[i] else Hidden);
    ClaimsPointwise(ys, ds);
  }

  ghost predicate SameCore(a: Op, b: Op) {
    a.kind == b.kind && a.body == b.body && a.hlc == b.hlc && a.actor == b.actor && a.parents == b.parents
  }

  /** r' is r without the claims of cs that ds hides: they are gone, they are counted, and the rest
      is as it was. */
  ghost predicate LostExactly(r: Reading, r': Reading, cs: seq<Claim>, ds: seq<Claim>)
    requires |cs| == |ds|
  {
    r'.elided == r.elided + |Dropped(cs, ds)| && SameCore(r.op, r'.op)
    && multiset(r.op.deps) == multiset(r'.op.deps) + multiset(DepsOf(Dropped(cs, ds)))
    && multiset(r.op.nacks) == multiset(r'.op.nacks) + multiset(NacksOf(Dropped(cs, ds)))
    && SortedLex(r'.op.deps) && SortedLex(r'.op.nacks)
    && r.op.target == TargetOf(None, cs) && r'.op.target == TargetOf(None, ds)
    && r.op.timestamp == StampOf(None, cs) && r'.op.timestamp == StampOf(None, ds)
  }

  /** The unsigned part with redacted assertions: same digest, same core, the redacted
      claims gone and counted, nothing else changed. */
  lemma RedactedInner(k: Codec, core: Envelope, xs: seq<Envelope>, ys: seq<Envelope>)
    returns (cs: seq<Claim>, ds: seq<Claim>)
    requires Redacts(k.hash, xs, ys) && ReadInner(k, Node(core, xs)).Ok?
    ensures Digest(k.hash, Node(core, ys)) == Digest(k.hash, Node(core, xs))
    ensures Claims(xs) == Ok(cs) && Claims(ys) == Ok(ds) && |cs| == |ds| == |xs|
    ensures forall i :: 0 <= i < |xs| ==> ds[i] == if ys[i] == xs[i] then cs[i] else Hidden
    ensures ReadInner(k, Node(core, ys)).Ok?
    ensures LostExactly(ReadInner(k, Node(core, xs)).value, ReadInner(k, Node(core, ys)).value, cs, ds)
  {
    hide ReadCore, ReadAssertions, SortLists, Claims, LostExactly, WithClaims;
    RedactedDigests(k.hash, xs, ys);
    var op := ReadCore(k, SubjectEntries(Node(core, xs)).value).value;
    CoreHasNoClaims(k, SubjectEntries(Node(core, xs)).value);
    ReadByClaims(xs, Reading(op, 0));
    ReadByClaims(ys, Reading(op, 0));
    cs := Claims(xs).value;
    ds := RedactedClaims(k.hash, xs, ys, cs);
    ReadingsLost(op, cs, ds);
  }

  lemma ReadingsLost(op: Op, cs: seq<Claim>, ds: seq<Claim>)
    requires op.deps == [] && op.nacks == [] && op.target == None && op.timestamp == None
    requires |cs| == |ds| && forall i :: 0 <= i < |cs| ==> ds[i] == cs[i] || ds[i] == Hidden
    ensures LostExactly(Tidied(WithClaims(Reading(op, 0), cs)), Tidied(WithClaims(Reading(op, 0), ds)), cs, ds)
  {
    hide SortLex, SortedLex, Dropped, DepsOf, NacksOf, TargetOf, StampOf, WithClaims, Tidied;
    ReadingsCompare(cs, ds);
    TidiedReading(op, cs);
    TidiedReading(op, ds);
    SortLexProps(DepsOf(cs));
    SortLexProps(DepsOf(ds));
    SortLexProps(NacksOf(cs));
    SortLexProps(NacksOf(ds));
  }

  lemma TidiedReading(op: Op, cs: seq<Claim>)
    requires op.deps == [] && op.nacks == [] && op.target == None && op.timestamp == None
    ensures var r := Tidied(WithClaims(Reading(op, 0), cs));
            r.op.deps == SortLex(DepsOf(cs)) && r.op.nacks == SortLex(NacksOf(cs)) && SameCore(r.op, op)
            && r.op.target == TargetOf(None, cs) && r.op.timestamp == StampOf(None, cs)
            && r.elided == multiset(cs)[Hidden]
  {
    hide SortLex, DepsOf, NacksOf, TargetOf, StampOf;
    assert [] + DepsOf(cs) == DepsOf(cs) && [] + NacksOf(cs) == NacksOf(cs);
  }

  lemma CoreHasNoClaims(k: Codec, es: seq<Keyed<Value>>)
    ensures ReadCore(k, es).Ok? ==>
            var op := ReadCore(k, es).value;
            op.deps == [] && op.nacks == [] && op.target == None && op.timestamp == None
  {
    hide Lookup, ReadHashes;
  }

  lemma ReadingsCompare(cs: seq<Claim>, ds: seq<Claim>)
    requires |cs| == |ds| && forall i :: 0 <= i < |cs| ==> ds[i] == cs[i] || ds[i] == Hidden
    ensures var dropped := Dropped(cs, ds);
            multiset(ds)[Hidden] == multiset(cs)[Hidden] + |dropped|
            && multiset(DepsOf(cs)) == multiset(DepsOf(ds)) + multiset(DepsOf(dropped))
            && multiset(NacksOf(cs)) == multiset(NacksOf(ds)) + multiset(NacksOf(dropped))
  {
    hide DepsOf, NacksOf, Dropped;
    var dropped := Dropped(cs, ds);
    DroppedCount(cs, ds, Hidden);
    forall b
      ensures multiset(DepsOf(cs))[b] == multiset(DepsOf(ds))[b] + multiset(DepsOf(dropped))[b]
      ensures multiset(NacksOf(cs))[b] == multiset(NacksOf(ds))[b] + multiset(NacksOf(dropped))[b]
    {
      DepsCount(cs, b);
      DepsCount(ds, b);
      DepsCount(dropped, b);
      NacksCount(cs, b);
      NacksCount(ds, b);
      NacksCount(dropped, b);
      DroppedCount(cs, ds, Dep(b));
      DroppedCount(cs, ds, Nack(b));
    }
  }

  // ---- what is readable, exactly ----

  /** A claim on the wire: the text of its predicate and its value. */
  ghost function Wire(c: Claim): (bytes, Item)
    requires !c.Hidden?
  {
    match c
    case Dep(b) => (Ascii("deps"), Plain(Bytes(b)))
    case Nack(b) => (Ascii("nacks"), Plain(Bytes(b)))
    case Target(b) => (Ascii("target-fp"), Plain(Bytes(b)))
    case Stamp(n) => (Ascii("timestamp"), Tagged(1, Uint(n)))
  }

  /** An assertion reads as a claim exactly when it is that claim's label and value; whatever shows no
      assertion reads as hidden; everything else is an error. */
  lemma ClaimReadsExactly(a: Envelope, c: Claim)
    ensures ReadClaim(a) == Ok(c) <==>
            if c.Hidden? then !Subject(a).Assertion?
            else Subject(a).Assertion? && Subject(Subject(a).pred) == Leaf(Plain(Text(Wire(c).0)))
                 && Subject(a).obj == Leaf(Wire(c).1) && (c.Stamp? || |c.hash| == 32)
  {
    var x := Subject(a);
    if x.Assertion? && Subject(x.pred).Leaf? && x.obj.Leaf? {
      LabelsApart();
    }
  }

  lemma LabelsApart()
    ensures DEPS != NACKS && DEPS != TARGET_FP && DEPS != TIMESTAMP
    ensures NACKS != TARGET_FP && NACKS != TIMESTAMP && TARGET_FP != TIMESTAMP
  {
    assert TARGET_FP[1] != TIMESTAMP[1];
  }

  /** A wrapper's assertion yields a signature exactly when it is labelled as one and holds one. */
  lemma SignatureReadsExactly(k: Codec, a: Envelope, sig: Option<Signature>)
    ensures ReadSignature(k, a) == Ok(sig) <==>
            if sig == None then !Subject(a).Assertion?
            else Subject(a).Assertion? && Subject(Subject(a).pred) == Known(3)
                 && Subject(Subject(a).obj).Leaf? && k.itemSignature(Subject(Subject(a).obj).item) == sig
  {
  }
}
