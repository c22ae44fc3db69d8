/** Log ops as envelopes: building, reading, and the two against each other. */
module LogOps {
  import opened Basics
  import opened Cbor
  import opened LexSort
  import opened Envelopes
  import opened HybridClock

  datatype LogError =
    | EnvelopeError
    | MissingField(name: bytes)
    | InvalidValue
    | UnsupportedFormatVersion(found: nat)
    | WrongType(name: bytes)
    | WrongTag(expected: nat, got: nat)
    | EmptyKind
    | BadLength(expected: nat, got: nat)
    | NonCanonicalBody
    | UnknownPredicate(name: bytes)
    | InvalidKey
    | BadSignature
    | Unsigned
    | PqDangling
    | PqUnavailable
    | PqUnsupportedLevel(level: Level)

  type LogRes<+T> = Result<T, LogError>

  datatype Op = Op(
    kind: bytes,
    body: Option<bytes>,
    hlc: Hlc,
    actor: bytes,
    parents: seq<bytes>,
    deps: seq<bytes>,
    nacks: seq<bytes>,
    target: Option<bytes>,
    timestamp: Option<nat>)

  datatype Level = Mldsa44 | Mldsa65 | Mldsa87

  /** A tagged, self-describing signature: ML-DSA at some level, or a classical scheme. */
  datatype Signature = MlDsa(level: Level, raw: bytes) | Classical(scheme: nat, raw: bytes)

  datatype SignedOp = SignedOp(op: Op, signatures: seq<Signature>, elided: nat)

  /** What the codec takes from outside: the digest function, the check that body bytes are
      canonical CBOR, and the CBOR form of a signature. */
  datatype Codec = Codec(
    hash: Digester,
    canonicalBody: bytes -> bool,
    signatureItem: Signature -> Item,
    itemSignature: Item -> Option<Signature>)

  const HLC: bytes := Ascii("hlc")
  const BODY: bytes := Ascii("body")
  const KIND: bytes := Ascii("kind")
  const TYPE: bytes := Ascii("type")
  const ACTOR: bytes := Ascii("actor")
  const PARENTS: bytes := Ascii("parent-hashes")
  const FORMAT: bytes := Ascii("format-version")
  const OP_TYPE: bytes := Ascii("ball.action")
  const FORMAT_VERSION: nat := 4
  const TAG_EPOCH_TIME: nat := 1
  const TAG_MLDSA_SIGNATURE: nat := 40105
  const SIGNED: nat := 3

  const DEPS: bytes := Ascii("deps")
  const NACKS: bytes := Ascii("nacks")
  const TARGET_FP: bytes := Ascii("target-fp")
  const TIMESTAMP: bytes := Ascii("timestamp")

  // ---- what one inner assertion says ----

  datatype Claim = Hidden | Dep(hash: bytes) | Nack(hash: bytes) | Target(hash: bytes) | Stamp(secs: nat)

  function Label(c: Claim): bytes
    requires !c.Hidden?
  {
    match c
    case Dep(_) => DEPS
    case Nack(_) => NACKS
    case Target(_) => TARGET_FP
    case Stamp(_) => TIMESTAMP
  }

  function ClaimItem(c: Claim): Item
    requires !c.Hidden?
  {
    if c.Stamp? then Tagged(TAG_EPOCH_TIME, Uint(c.secs)) else Plain(Bytes(c.hash))
  }

  function ClaimEnvelope(c: Claim): Envelope
    requires !c.Hidden?
  {
    Assertion(Leaf(Plain(Text(Label(c)))), Leaf(ClaimItem(c)))
  }

  function HashOf(c: Item): LogRes<bytes> {
    if !(c.Plain? && c.v.Bytes?) then Err(InvalidValue)
    else if |c.v.b| != 32 then Err(BadLength(32, |c.v.b|))
    else Ok(c.v.b)
  }

  function SecondsOf(c: Item): LogRes<nat> {
    if !c.Tagged? then Err(InvalidValue)
    else if c.tag != TAG_EPOCH_TIME then Err(WrongTag(TAG_EPOCH_TIME, c.tag))
    else if !c.v.Uint? then Err(InvalidValue)
    else Ok(c.v.n)
  }

  /** An element with no predicate to show is counted, not rejected. */
  function ReadClaim(a: Envelope): LogRes<Claim> {
    var x := Subject(a);
    if !x.Assertion? then Ok(Hidden)
    else
      var p := Subject(x.pred);
      if !(p.Leaf? && p.item.Plain? && p.item.v.Text?) then Err(InvalidValue)
      else if !x.obj.Leaf? then Err(EnvelopeError)
      else ReadLabelled(p.item.v.s, x.obj.item)
  }

  function ReadLabelled(name: bytes, value: Item): LogRes<Claim> {
    if name == DEPS then var b :- HashOf(value); Ok(Dep(b))
    else if name == NACKS then var b :- HashOf(value); Ok(Nack(b))
    else if name == TARGET_FP then var b :- HashOf(value); Ok(Target(b))
    else if name == TIMESTAMP then var n :- SecondsOf(value); Ok(Stamp(n))
    else Err(UnknownPredicate(name))
  }

  // ---- encode ----

  function HashValues(hs: seq<bytes>): seq<Value> {
    if hs == [] then [] else [Bytes(hs[0])] + HashValues(hs[1..])
  }

  function CoreEntries(op: Op): seq<Keyed<Value>> {
    [Keyed(HLC, Array([Uint(op.hlc.l), Uint(op.hlc.c)]))]
    + (if op.body.Some? then [Keyed(BODY, Bytes(op.body.value))] else [])
    + [Keyed(KIND, Text(op.kind)), Keyed(TYPE, Text(OP_TYPE)), Keyed(ACTOR, Bytes(op.actor)),
       Keyed(PARENTS, Array(HashValues(op.parents))), Keyed(FORMAT, Uint(FORMAT_VERSION))]
  }

  function CoreLeaf(op: Op): Envelope {
    Leaf(Plain(Map(CoreEntries(op))))
  }

  function DepClaims(hs: seq<bytes>): (cs: seq<Claim>)
    ensures forall c :: c in cs ==> c.Dep?
  {
    if hs == [] then [] else [Dep(hs[0])] + DepClaims(hs[1..])
  }

  function NackClaims(hs: seq<bytes>): (cs: seq<Claim>)
    ensures forall c :: c in cs ==> c.Nack?
  {
    if hs == [] then [] else [Nack(hs[0])] + NackClaims(hs[1..])
  }

  function TailClaims(op: Op): (cs: seq<Claim>)
    ensures forall c :: c in cs ==> !c.Hidden?
  {
    (if op.target.Some? then [Target(op.target.value)] else [])
    + (if op.timestamp.Some? then [Stamp(op.timestamp.value)] else [])
  }

  /** The assertions of an op, in the order they are added. */
  function ClaimList(op: Op): (cs: seq<Claim>)
    ensures forall c :: c in cs ==> !c.Hidden?
  {
    DepClaims(op.deps) + NackClaims(op.nacks) + TailClaims(op)
  }

  function AddClaims(h: Digester, e: Envelope, cs: seq<Claim>): Envelope
    requires forall c :: c in cs ==> !c.Hidden?
    decreases |cs|
  {
    if cs == [] then e else AddClaims(h, AddAssertion(h, e, ClaimEnvelope(cs[0])), cs[1..])
  }

  function ToEnvelope(k: Codec, op: Op): LogRes<Envelope> {
    if op.kind == [] then Err(EmptyKind)
    else if op.body.Some? && !k.canonicalBody(op.body.value) then Err(NonCanonicalBody)
    else Ok(AddClaims(k.hash, CoreLeaf(op), ClaimList(op)))
  }

  function SignedAssertion(k: Codec, sig: Signature): Envelope {
    Assertion(Known(SIGNED), Leaf(k.signatureItem(sig)))
  }

  function AddSignatures(k: Codec, e: Envelope, sigs: seq<Signature>): Envelope
    decreases |sigs|
  {
    if sigs == [] then e
    else AddSignatures(k, AddAssertion(k.hash, e, SignedAssertion(k, sigs[0])), sigs[1..])
  }

  function ToSignedEnvelope(k: Codec, s: SignedOp): LogRes<Envelope> {
    var inner :- ToEnvelope(k, s.op);
    Ok(if s.signatures == [] then inner else AddSignatures(k, Wrapped(inner), s.signatures))
  }

  // ---- decode ----

  function Field(es: seq<Keyed<Value>>, name: bytes): LogRes<Value> {
    var v := Lookup(es, name);
    if v.Some? then Ok(v.value) else Err(LogError.MissingField(name))
  }

  function IntoUint(v: Value): LogRes<nat> {
    if v.Uint? then Ok(v.n) else Err(InvalidValue)
  }

  function IntoText(v: Value): LogRes<bytes> {
    if v.Text? then Ok(v.s) else Err(InvalidValue)
  }

  function IntoBytes(v: Value): LogRes<bytes> {
    if v.Bytes? then Ok(v.b) else Err(InvalidValue)
  }

  function IntoArray(v: Value): LogRes<seq<Value>> {
    if v.Array? then Ok(v.items) else Err(InvalidValue)
  }

  function IntoHash(v: Value): LogRes<bytes> {
    HashOf(Plain(v))
  }

  function ReadHashes(vs: seq<Value>): LogRes<seq<bytes>> {
    if vs == [] then Ok([])
    else
      var b :- IntoHash(vs[0]);
      var bs :- ReadHashes(vs[1..]);
      Ok([b] + bs)
  }

  function ReadBody(k: Codec, v: Option<Value>): LogRes<Option<bytes>> {
    if v == None then Ok(None)
    else
      var b :- IntoBytes(v.value);
      if k.canonicalBody(b) then Ok(Some(b)) else Err(NonCanonicalBody)
  }

  /** The core map; the version is looked at before anything else. */
  function ReadCore(k: Codec, es: seq<Keyed<Value>>): LogRes<Op> {
    var version' :- Field(es, FORMAT);
    var version :- IntoUint(version');
    if version != FORMAT_VERSION then Err(UnsupportedFormatVersion(version))
    else
      var type' :- Field(es, TYPE);
      var ty :- IntoText(type');
      if ty != OP_TYPE then Err(WrongType(ty))
      else
        var kind' :- Field(es, KIND);
        var kind :- IntoText(kind');
        if kind == [] then Err(EmptyKind)
        else ReadRest(k, es, kind)
  }

  function ReadRest(k: Codec, es: seq<Keyed<Value>>, kind: bytes): LogRes<Op> {
    var hlc' :- Field(es, HLC);
    var hlc :- IntoArray(hlc');
    if |hlc| != 2 then Err(InvalidValue)
    else
      var body :- ReadBody(k, Lookup(es, BODY));
      var l :- IntoUint(hlc[0]);
      var c :- IntoUint(hlc[1]);
      var actor' :- Field(es, ACTOR);
      var actor :- IntoHash(actor');
      var parents' :- Field(es, PARENTS);
      var parents'' :- IntoArray(parents');
      var parents :- ReadHashes(parents'');
      Ok(Op(kind, body, Hlc(l, c), actor, parents, [], [], None, None))
  }

  /** The op under construction and the running count of elided assertions. */
  datatype Reading = Reading(op: Op, elided: nat)

  function Told(r: Reading, c: Claim): Reading {
    match c
    case Hidden => r.(elided := r.elided + 1)
    case Dep(b) => r.(op := r.op.(deps := r.op.deps + [b]))
    case Nack(b) => r.(op := r.op.(nacks := r.op.nacks + [b]))
    case Target(b) => r.(op := r.op.(target := Some(b)))
    case Stamp(n) => r.(op := r.op.(timestamp := Some(n)))
  }

  function ReadAssertion(a: Envelope, r: Reading): LogRes<Reading> {
    var claim :- ReadClaim(a);
    Ok(Told(r, claim))
  }

  function ReadAssertions(xs: seq<Envelope>, r: Reading): LogRes<Reading> {
    if xs == [] then Ok(r)
    else
      var r' :- ReadAssertion(xs[0], r);
      ReadAssertions(xs[1..], r')
  }

  /** The signature a wrapper's assertion carries, or None for an elided one. */
  function ReadSignature(k: Codec, a: Envelope): LogRes<Option<Signature>> {
    var x := Subject(a);
    if !x.Assertion? then Ok(None)
    else if Subject(x.pred) != Known(SIGNED) then Err(UnknownPredicate([]))
    else
      var o := Subject(x.obj);
      if o.Leaf? && k.itemSignature(o.item).Some? then Ok(k.itemSignature(o.item))
      else if o.Leaf? && o.item.Tagged? && o.item.tag == TAG_MLDSA_SIGNATURE then Err(PqUnavailable)
      else Err(InvalidValue)
  }

  function ReadSignatures(k: Codec, xs: seq<Envelope>, s: SignedOp): LogRes<SignedOp> {
    if xs == [] then Ok(s)
    else
      var sig :- ReadSignature(k, xs[0]);
      ReadSignatures(k, xs[1..],
        if sig.Some? then s.(signatures := s.signatures + [sig.value]) else s.(elided := s.elided + 1))
  }

  function InnerOf(e: Envelope): Envelope {
    if Subject(e).Wrapped? then Subject(e).inner else e
  }

  function OuterOf(e: Envelope): seq<Envelope> {
    if Subject(e).Wrapped? then Assertions(e) else []
  }

  function SubjectEntries(inner: Envelope): LogRes<seq<Keyed<Value>>> {
    var x := Subject(inner);
    if !x.Leaf? then Err(EnvelopeError)
    else if x.item.Plain? && x.item.v.Map? then Ok(x.item.v.entries)
    else Err(InvalidValue)
  }

  function SortLists(op: Op): Op {
    op.(deps := SortLex(op.deps), nacks := SortLex(op.nacks))
  }

  function Tidied(r: Reading): Reading {
    Reading(SortLists(r.op), r.elided)
  }

  /** The unsigned part: core map and inner assertions, the repeatable lists sorted. */
  function ReadInner(k: Codec, inner: Envelope): LogRes<Reading> {
    var es :- SubjectEntries(inner);
    var core :- ReadCore(k, es);
    var r :- ReadAssertions(Assertions(inner), Reading(core, 0));
    Ok(Tidied(r))
  }

  function FromEnvelope(k: Codec, e: Envelope): LogRes<SignedOp> {
    var r :- ReadInner(k, InnerOf(e));
    ReadSignatures(k, OuterOf(e), SignedOp(r.op, [], r.elided))
  }

  // ---- the same, as the source's loops ----

  method BuildEnvelope(k: Codec, op: Op) returns (r: LogRes<Envelope>)
    ensures r == ToEnvelope(k, op)
  {
    hide AddAssertion, CoreEntries;
    if op.kind == [] {
      return Err(EmptyKind);
    }
    if op.body.Some? && !k.canonicalBody(op.body.value) {
      return Err(NonCanonicalBody);
    }
    var e := CoreLeaf(op);
    ghost var rest := NackClaims(op.nacks) + TailClaims(op);
    assert DepClaims(op.deps) + rest == ClaimList(op);
    e := AddDeps(k.hash, e, op.deps, rest);
    e := AddNacks(k.hash, e, op.nacks, TailClaims(op));
    e := AddTail(k.hash, e, op);
    r := Ok(e);
  }

  method AddDeps(h: Digester, e0: Envelope, deps: seq<bytes>, ghost rest: seq<Claim>)
    returns (e: Envelope)
    requires forall c :: c in rest ==> !c.Hidden?
    ensures AddClaims(h, e, rest) == AddClaims(h, e0, DepClaims(deps) + rest)
  {
    hide AddAssertion;
    e := e0;
    var i := 0;
    assert deps[0..] == deps;
    while i < |deps|
      invariant 0 <= i <= |deps|
      invariant AddClaims(h, e, DepClaims(deps[i..]) + rest) == AddClaims(h, e0, DepClaims(deps) + rest)
    {
      assert deps[i..][1..] == deps[i + 1..];
      assert (DepClaims(deps[i..]) + rest)[1..] == DepClaims(deps[i + 1..]) + rest;
      e := AddAssertion(h, e, ClaimEnvelope(Dep(deps[i])));
      i := i + 1;
    }
    assert DepClaims(deps[i..]) + rest == rest;
  }

  method AddNacks(h: Digester, e0: Envelope, nacks: seq<bytes>, ghost rest: seq<Claim>)
    returns (e: Envelope)
    requires forall c :: c in rest ==> !c.Hidden?
    ensures AddClaims(h, e, rest) == AddClaims(h, e0, NackClaims(nacks) + rest)
  {
    hide AddAssertion;
    e := e0;
    var i := 0;
    assert nacks[0..] == nacks;
    while i < |nacks|
      invariant 0 <= i <= |nacks|
      invariant AddClaims(h, e, NackClaims(nacks[i..]) + rest) == AddClaims(h, e0, NackClaims(nacks) + rest)
    {
      assert nacks[i..][1..] == nacks[i + 1..];
      assert (NackClaims(nacks[i..]) + rest)[1..] == NackClaims(nacks[i + 1..]) + rest;
      e := AddAssertion(h, e, ClaimEnvelope(Nack(nacks[i])));
      i := i + 1;
    }
    assert NackClaims(nacks[i..]) + rest == rest;
  }

  method AddTail(h: Digester, e0: Envelope, op: Op) returns (e: Envelope)
    ensures e == AddClaims(h, e0, TailClaims(op))
  {
    hide AddAssertion;
    e := e0;
    var cs := TailClaims(op);
    if op.target.Some? {
      e := AddAssertion(h, e, ClaimEnvelope(Target(op.target.value)));
      assert AddClaims(h, e0, cs) == AddClaims(h, e, cs[1..]);
    }
    if op.timestamp.Some? {
      ghost var was := e;
      e := AddAssertion(h, e, ClaimEnvelope(Stamp(op.timestamp.value)));
      assert AddClaims(h, was, [Stamp(op.timestamp.value)]) == AddClaims(h, e, []);
    }
  }

  method BuildSignedEnvelope(k: Codec, s: SignedOp) returns (r: LogRes<Envelope>)
    ensures r == ToSignedEnvelope(k, s)
  {
    hide AddAssertion, SignedAssertion, ToEnvelope;
    var built := BuildEnvelope(k, s.op);
    if built.Err? {
      return Err(built.error);
    }
    if s.signatures == [] {
      return built;
    }
    var e := Wrapped(built.value);
    var i := 0;
    assert s.signatures[0..] == s.signatures;
    while i < |s.signatures|
      invariant 0 <= i <= |s.signatures|
      invariant AddSignatures(k, e, s.signatures[i..]) == AddSignatures(k, Wrapped(built.value), s.signatures)
    {
      assert s.signatures[i..][1..] == s.signatures[i + 1..];
      e := AddAssertion(k.hash, e, SignedAssertion(k, s.signatures[i]));
      i := i + 1;
    }
    r := Ok(e);
  }

  method ParseEnvelope(k: Codec, e: Envelope) returns (r: LogRes<SignedOp>)
    ensures r == FromEnvelope(k, e)
  {
    hide ReadCore, ReadAssertion, ReadSignature, SortLex;
    var inner := InnerOf(e);
    var entries := SubjectEntries(inner);
    if entries.Err? {
      return Err(entries.error);
    }
    var core := ReadCore(k, entries.value);
    if core.Err? {
      return Err(core.error);
    }
    var xs := Assertions(inner);
    var op, elided := core.value, 0;
    var i := 0;
    assert xs[0..] == xs;
    while i < |xs|
      invariant 0 <= i <= |xs|
      invariant ReadAssertions(xs[i..], Reading(op, elided)) == ReadAssertions(xs, Reading(core.value, 0))
    {
      assert xs[i..][1..] == xs[i + 1..];
      var step := ReadAssertion(xs[i], Reading(op, elided));
      if step.Err? {
        return Err(step.error);
      }
      op, elided := step.value.op, step.value.elided;
      i := i + 1;
    }
    r := ParseSignatures(k, OuterOf(e), SortLists(op), elided);
  }

  method ParseSignatures(k: Codec, xs: seq<Envelope>, op: Op, hidden: nat) returns (r: LogRes<SignedOp>)
    ensures r == ReadSignatures(k, xs, SignedOp(op, [], hidden))
  {
    hide ReadSignature;
    var signatures, elided := [], hidden;
    var i := 0;
    assert xs[0..] == xs;
    while i < |xs|
      invariant 0 <= i <= |xs|
      invariant ReadSignatures(k, xs[i..], SignedOp(op, signatures, elided))
             == ReadSignatures(k, xs, SignedOp(op, [], hidden))
    {
      assert xs[i..][1..] == xs[i + 1..];
      var sig := ReadSignature(k, xs[i]);
      if sig.Err? {
        return Err(sig.error);
      }
      if sig.value.Some? {
        signatures := signatures + [sig.value.value];
      } else {
        elided := elided + 1;
      }
      i := i + 1;
    }
    r := Ok(SignedOp(op, signatures, elided));
  }
}
