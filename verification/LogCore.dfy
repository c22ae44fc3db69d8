/** The core map and the single claims of an op, read back as they were written. */
module LogCore {
  import opened Basics
  import opened Cbor
  import opened CborProofs
  import opened CborMaps
  import opened Dcbor
  import opened Envelopes
  import opened LogOps
  import opened LogReading
  import Keys

  /** What the Rust types guarantee of an op: 64-bit numbers and lengths, 32-byte hashes, UTF-8. */
  ghost predicate RawFits(op: Op) {
    IsText(op.kind) && (op.body.Some? ==> |op.body.value| < U64)
    && op.hlc.l < U64 && op.hlc.c < U64 && |op.actor| == 32
    && HashesFit(op.parents) && HashesFit(op.deps) && HashesFit(op.nacks)
    && (op.target.Some? ==> |op.target.value| == 32)
    && (op.timestamp.Some? ==> op.timestamp.value < U64)
  }

  ghost predicate OpFits(h: Digester, op: Op) {
    RawFits(op) && IsText(h.nfc(op.kind))
  }

  /** The op as it comes back from its bytes. */
  function Normalized(h: Digester, op: Op): Op {
    op.(kind := h.nfc(op.kind))
  }

  ghost predicate HashesFit(hs: seq<bytes>) {
    |hs| < U64 && forall b :: b in hs ==> |b| == 32
  }

  ghost predicate ClaimFits(c: Claim) {
    !c.Hidden? && if c.Stamp? then c.secs < U64 else |c.hash| == 32
  }

  function Core(op: Op): Op {
    op.(deps := [], nacks := [], target := None, timestamp := None)
  }

  // ---- the core map ----

  lemma NamesInOrder()
    ensures KeyLess(HLC, BODY) && KeyLess(HLC, KIND) && KeyLess(BODY, KIND) && KeyLess(KIND, TYPE)
    ensures KeyLess(TYPE, ACTOR) && KeyLess(ACTOR, PARENTS) && KeyLess(PARENTS, FORMAT)
    ensures BODY !in {HLC, KIND, TYPE, ACTOR, PARENTS, FORMAT}
  {
    hide KeyLess;
    assert BODY[0] != KIND[0] && BODY[0] != TYPE[0];
    CborProofs.KeyOrder(HLC, BODY);
    CborProofs.KeyOrder(HLC, KIND);
    CborProofs.KeyOrder(BODY, KIND);
    CborProofs.KeyOrder(KIND, TYPE);
    CborProofs.KeyOrder(TYPE, ACTOR);
    CborProofs.KeyOrder(ACTOR, PARENTS);
    CborProofs.KeyOrder(PARENTS, FORMAT);
  }

  lemma CoreNamesAreText()
    ensures IsText(HLC) && IsText(BODY) && IsText(KIND) && IsText(TYPE) && IsText(ACTOR)
    ensures IsText(PARENTS) && IsText(FORMAT) && IsText(OP_TYPE)
  {
    hide ValidUtf8;
    Keys.LiteralIsText("hlc");
    Keys.LiteralIsText("body");
    Keys.LiteralIsText("kind");
    Keys.LiteralIsText("type");
    Keys.LiteralIsText("actor");
    Keys.LiteralIsText("parent-hashes");
    Keys.LiteralIsText("format-version");
    Keys.LiteralIsText("ball.action");
  }

  lemma {:induction false} StrictByIndex(es: seq<Keyed<Value>>)
    requires forall i :: 0 <= i < |es| - 1 ==> KeyLess(es[i].key, es[i + 1].key)
    ensures StrictlySorted(es)
  {
    hide KeyLess;
    if |es| >= 2 {
      var t := es[1..];
      forall i | 0 <= i < |t| - 1
        ensures KeyLess(t[i].key, t[i + 1].key)
      {
        assert KeyLess(es[i + 1].key, es[i + 1 + 1].key);
      }
      StrictByIndex(t);
    }
  }

  /** The insertion order of the core map is its canonical order. */
  lemma CoreSorted(op: Op)
    ensures StrictlySorted(CoreEntries(op))
  {
    NamesInOrder();
    hide KeyLess, StrictlySorted, HashValues;
    StrictByIndex(CoreEntries(op));
  }

  lemma {:induction false} HashValuesProps(hs: seq<bytes>)
    requires forall b :: b in hs ==> |b| == 32
    ensures |HashValues(hs)| == |hs| && ReadHashes(HashValues(hs)) == Ok(hs)
    ensures forall v :: v in HashValues(hs) ==> ValueFits(v)
  {
    if hs != [] {
      HashValuesProps(hs[1..]);
      var vs := HashValues(hs);
      assert vs[0] == Bytes(hs[0]) && vs[1..] == HashValues(hs[1..]);
      assert [hs[0]] + hs[1..] == hs;
    }
  }

  lemma MapFits(es: seq<Keyed<Value>>)
    requires |es| < U64 && StrictlySorted(es)
    requires forall e :: e in es ==> IsText(e.key) && Representable(e.val) && Canonical(e.val)
    ensures ValueFits(Map(es))
  {
    hide StrictlySorted, IsText;
  }

  function BodyEntry(op: Op): seq<Keyed<Value>> {
    if op.body.Some? then [Keyed(BODY, Bytes(op.body.value))] else []
  }

  lemma CoreFits(op: Op)
    requires RawFits(op)
    ensures ValueFits(Map(CoreEntries(op)))
  {
    hide StrictlySorted, Canonical, Representable, IsText, RawFits, HashValues, Ascii;
    CoreSorted(op);
    CoreValuesFit(op);
    CoreNamesAreText();
    ListMembers(Keyed(HLC, Array([Uint(op.hlc.l), Uint(op.hlc.c)])), BodyEntry(op),
      Keyed(KIND, Text(op.kind)), Keyed(TYPE, Text(OP_TYPE)), Keyed(ACTOR, Bytes(op.actor)),
      Keyed(PARENTS, Array(HashValues(op.parents))), Keyed(FORMAT, Uint(FORMAT_VERSION)));
    MapFits(CoreEntries(op));
  }

  /** Of a core map only the kind is text of the author's choosing. */
  lemma CoreNormal(h: Digester, op: Op)
    requires Normalizes(h.nfc)
    ensures NormalEntries(h.nfc, CoreEntries(op)) == CoreEntries(Normalized(h, op))
  {
    hide Normalizes, NormalEntries, HashValues, Ascii;
    var es, ns := CoreEntries(op), CoreEntries(Normalized(h, op));
    CoreValuesNormal(h, op);
    hide Normal;
    assert |es| == |ns|;
    forall i | 0 <= i < |es|
      ensures NormalEntries(h.nfc, es)[i] == ns[i]
    {
      NormalEntriesAt(h.nfc, es, i);
    }
  }

  lemma CoreValuesNormal(h: Digester, op: Op)
    requires Normalizes(h.nfc)
    ensures Normal(h.nfc, Array([Uint(op.hlc.l), Uint(op.hlc.c)])) == Array([Uint(op.hlc.l), Uint(op.hlc.c)])
    ensures op.body.Some? ==> Normal(h.nfc, Bytes(op.body.value)) == Bytes(op.body.value)
    ensures Normal(h.nfc, Text(op.kind)) == Text(Normalized(h, op).kind)
    ensures Normal(h.nfc, Text(OP_TYPE)) == Text(OP_TYPE) && Normal(h.nfc, Bytes(op.actor)) == Bytes(op.actor)
    ensures Normal(h.nfc, Array(HashValues(op.parents))) == Array(HashValues(op.parents))
    ensures Normal(h.nfc, Uint(FORMAT_VERSION)) == Uint(FORMAT_VERSION)
  {
    hide HashValues;
    assert IsAscii(OP_TYPE);
    HashValuesAreBytes(op.parents);
    PlainItemsStay(h.nfc, HashValues(op.parents));
    PlainItemsStay(h.nfc, [Uint(op.hlc.l), Uint(op.hlc.c)]);
  }

  lemma {:induction false} HashValuesAreBytes(hs: seq<bytes>)
    ensures forall v :: v in HashValues(hs) ==> v.Bytes?
  {
    if hs != [] {
      HashValuesAreBytes(hs[1..]);
    }
  }

  lemma CoreWellFormed(h: Digester, op: Op)
    requires Normalizes(h.nfc) && OpFits(h, op)
    ensures WellFormed(h, CoreLeaf(op))
  {
    hide CoreEntries, Canonical, Representable, IsText, NormalEntries;
    CoreFits(op);
    CoreFits(Normalized(h, op));
    CoreNormal(h, op);
  }

  ghost predicate ValueFits(v: Value) {
    Representable(v) && Canonical(v)
  }

  lemma CoreValuesFit(op: Op)
    requires RawFits(op)
    ensures ValueFits(Array([Uint(op.hlc.l), Uint(op.hlc.c)])) && ValueFits(Text(op.kind))
    ensures ValueFits(Text(OP_TYPE)) && ValueFits(Bytes(op.actor)) && ValueFits(Uint(FORMAT_VERSION))
    ensures ValueFits(Array(HashValues(op.parents)))
    ensures op.body.Some? ==> ValueFits(Bytes(op.body.value))
  {
    CoreNamesAreText();
    HashValuesProps(op.parents);
    hide IsText, HashValues, Ascii, ValueFits;
    ScalarFits(Text(op.kind));
    ScalarFits(Text(OP_TYPE));
    ScalarFits(Bytes(op.actor));
    ScalarFits(Uint(FORMAT_VERSION));
    ScalarFits(Uint(op.hlc.l));
    ScalarFits(Uint(op.hlc.c));
    ArrayFits([Uint(op.hlc.l), Uint(op.hlc.c)]);
    ArrayFits(HashValues(op.parents));
    if op.body.Some? {
      ScalarFits(Bytes(op.body.value));
    }
  }

  lemma ScalarFits(v: Value)
    requires match v
             case Uint(n) => n < U64
             case Bytes(b) => |b| < U64
             case Text(s) => IsText(s)
             case _ => false
    ensures ValueFits(v)
  {
    hide IsText;
  }

  lemma ArrayFits(items: seq<Value>)
    requires |items| < U64 && forall x :: x in items ==> ValueFits(x)
    ensures ValueFits(Array(items))
  {
  }

  lemma ListMembers(p: Keyed<Value>, opt: seq<Keyed<Value>>, a: Keyed<Value>, b: Keyed<Value>,
                    c: Keyed<Value>, d: Keyed<Value>, e: Keyed<Value>)
    ensures var es := [p] + opt + [a, b, c, d, e];
            forall x :: x in es <==> x == p || x in opt || x == a || x == b || x == c || x == d || x == e
  {
  }

  lemma ListLookups(p: Keyed<Value>, opt: seq<Keyed<Value>>, a: Keyed<Value>, b: Keyed<Value>,
                    c: Keyed<Value>, d: Keyed<Value>, e: Keyed<Value>)
    requires StrictlySorted([p] + opt + [a, b, c, d, e])
    ensures var es := [p] + opt + [a, b, c, d, e];
            Lookup(es, p.key) == Some(p.val) && Lookup(es, a.key) == Some(a.val)
            && Lookup(es, b.key) == Some(b.val) && Lookup(es, c.key) == Some(c.val)
            && Lookup(es, d.key) == Some(d.val) && Lookup(es, e.key) == Some(e.val)
            && forall x :: x in opt ==> Lookup(es, x.key) == Some(x.val)
  {
    hide Lookup, StrictlySorted, Distinct, CborProofs.Sorted;
    var es := [p] + opt + [a, b, c, d, e];
    StrictIsSortedDistinct(es);
    ListMembers(p, opt, a, b, c, d, e);
    forall x | x in es
      ensures Lookup(es, x.key) == Some(x.val)
    {
      LookupEntry(es, x);
    }
  }

  lemma CoreLookups(op: Op)
    ensures var es := CoreEntries(op);
            Lookup(es, FORMAT) == Some(Uint(FORMAT_VERSION)) && Lookup(es, TYPE) == Some(Text(OP_TYPE))
            && Lookup(es, KIND) == Some(Text(op.kind))
            && Lookup(es, HLC) == Some(Array([Uint(op.hlc.l), Uint(op.hlc.c)]))
            && Lookup(es, ACTOR) == Some(Bytes(op.actor))
            && Lookup(es, PARENTS) == Some(Array(HashValues(op.parents)))
            && Lookup(es, BODY) == if op.body.Some? then Some(Bytes(op.body.value)) else None
  {
    hide Lookup, StrictlySorted, HashValues, Ascii, KeyLess;
    CoreSorted(op);
    NamesInOrder();
    var p, a, b := Keyed(HLC, Array([Uint(op.hlc.l), Uint(op.hlc.c)])), Keyed(KIND, Text(op.kind)),
                   Keyed(TYPE, Text(OP_TYPE));
    var c, d, e := Keyed(ACTOR, Bytes(op.actor)), Keyed(PARENTS, Array(HashValues(op.parents))),
                   Keyed(FORMAT, Uint(FORMAT_VERSION));
    ListLookups(p, BodyEntry(op), a, b, c, d, e);
    if op.body.Some? {
      assert BodyEntry(op)[0] in BodyEntry(op);
    } else {
      ListMembers(p, BodyEntry(op), a, b, c, d, e);
      LookupAbsent(CoreEntries(op), BODY);
    }
  }

  /** The core map of an op that encodes reads back as the op's own core. */
  lemma CoreReads(k: Codec, op: Op)
    requires RawFits(op) && ToEnvelope(k, op).Ok?
    ensures ReadCore(k, CoreEntries(op)) == Ok(Core(op))
  {
    CoreLookups(op);
    HashValuesProps(op.parents);
    Encodable(k, op);
    hide Lookup, CoreEntries, ToEnvelope, HashValues, ReadHashes, Ascii, IsText, ReadCore, ReadRest;
    RestReads(k, op, CoreEntries(op));
    HeadReads(k, op, CoreEntries(op));
  }

  lemma HeadReads(k: Codec, op: Op, es: seq<Keyed<Value>>)
    requires Lookup(es, FORMAT) == Some(Uint(FORMAT_VERSION)) && Lookup(es, TYPE) == Some(Text(OP_TYPE))
    requires Lookup(es, KIND) == Some(Text(op.kind)) && op.kind != []
    ensures ReadCore(k, es) == ReadRest(k, es, op.kind)
  {
    hide Lookup, Ascii, ReadRest;
  }

  lemma Encodable(k: Codec, op: Op)
    ensures ToEnvelope(k, op).Ok? <==> op.kind != [] && (op.body.Some? ==> k.canonicalBody(op.body.value))
  {
    hide AddClaims, ClaimList, CoreLeaf;
  }

  lemma RestReads(k: Codec, op: Op, es: seq<Keyed<Value>>)
    requires |op.actor| == 32 && (op.body.Some? ==> k.canonicalBody(op.body.value))
    requires Lookup(es, HLC) == Some(Array([Uint(op.hlc.l), Uint(op.hlc.c)]))
    requires Lookup(es, ACTOR) == Some(Bytes(op.actor))
    requires Lookup(es, PARENTS) == Some(Array(HashValues(op.parents)))
    requires Lookup(es, BODY) == if op.body.Some? then Some(Bytes(op.body.value)) else None
    requires ReadHashes(HashValues(op.parents)) == Ok(op.parents)
    ensures ReadRest(k, es, op.kind) == Ok(Core(op))
  {
    hide Lookup, HashValues, ReadHashes, Ascii;
    assert ReadBody(k, Lookup(es, BODY)) == Ok(op.body);
  }

  // ---- single claims ----

  lemma ClaimReads(c: Claim)
    requires ClaimFits(c)
    ensures ReadClaim(ClaimEnvelope(c)) == Ok(c)
  {
    LabelsApart();
  }

  lemma LabelIsText(c: Claim)
    requires !c.Hidden?
    ensures IsText(Label(c)) && |Label(c)| < 10 && IsAscii(Label(c))
  {
    hide ValidUtf8;
    match c
    case Dep(_) => Keys.LiteralIsText("deps");
    case Nack(_) => Keys.LiteralIsText("nacks");
    case Target(_) => Keys.LiteralIsText("target-fp");
    case Stamp(_) => Keys.LiteralIsText("timestamp");
  }

  function LabelLeaf(c: Claim): Envelope
    requires !c.Hidden?
  {
    Leaf(Plain(Text(Label(c))))
  }

  /** A label's leaf is too short to be mistaken for digests, and in form C already. */
  lemma LabelProps(h: Digester, c: Claim)
    requires !c.Hidden? && Normalizes(h.nfc)
    ensures WellFormed(h, LabelLeaf(c)) && |ItemBytes(h, LabelLeaf(c).item)| < 32
    ensures NormalItem(h, LabelLeaf(c).item) == LabelLeaf(c).item
  {
    hide IsText, Label, WellFormed, ItemBytes, IsAscii;
    LabelIsText(c);
    ShortText(h, Label(c));
  }

  lemma ShortText(h: Digester, s: bytes)
    requires Normalizes(h.nfc) && IsText(s) && |s| < 10 && IsAscii(s)
    ensures WellFormed(h, Leaf(Plain(Text(s)))) && |ItemBytes(h, Plain(Text(s)))| < 32
    ensures NormalItem(h, Plain(Text(s))) == Plain(Text(s))
  {
    hide IsText, ToBE;
  }

  lemma ClaimWellFormed(h: Digester, c: Claim)
    requires ClaimFits(c) && Normalizes(h.nfc)
    ensures WellFormed(h, ClaimEnvelope(c)) && NormalItem(h, ClaimItem(c)) == ClaimItem(c)
  {
    hide Label, ItemBytes, Representable, Canonical, Normalizes;
    LabelProps(h, c);
    ClaimItemFits(h, c);
    PairWellFormed(h, LabelLeaf(c), Leaf(ClaimItem(c)));
  }

  lemma PairWellFormed(h: Digester, p: Envelope, o: Envelope)
    requires WellFormed(h, p) && WellFormed(h, o)
    ensures WellFormed(h, Assertion(p, o))
  {
    hide Representable, Canonical;
  }

  lemma ClaimItemFits(h: Digester, c: Claim)
    requires ClaimFits(c)
    ensures WellFormed(h, Leaf(ClaimItem(c))) && NormalItem(h, ClaimItem(c)) == ClaimItem(c)
  {
    ScalarFits(ClaimItem(c).v);
    hide Representable, Canonical;
  }

  ghost predicate CoversClaims(h: Digester, s: set<bytes>, cs: seq<Claim>) {
    forall c :: c in cs ==> ClaimFits(c) && Covered(h, s, ClaimEnvelope(c))
  }

  /** An element that shows a claim under the digest of a written claim shows that claim. */
  lemma VisibleClaim(h: Digester, s: set<bytes>, c: Claim, y: Envelope)
    requires Regular(h) && CollisionFree(h, s)
    requires ClaimFits(c) && Covered(h, s, ClaimEnvelope(c)) && WellFormed(h, y) && Covered(h, s, y)
    requires Digest(h, y) == Digest(h, ClaimEnvelope(c)) && ReadClaim(y).Ok? && ReadClaim(y) != Ok(Hidden)
    ensures ReadClaim(y) == Ok(c)
  {
    hide Encode, Head, ReadLabelled, CollisionFree, Normal;
    var x := ClaimEnvelope(c);
    ClaimWellFormed(h, c);
    LabelProps(h, c);
    SamePreimage(h, s, x, y);
    DigestLength(h, x.pred);
    if y.Node? {
      DigestLength(h, y.subject);
      assert Digest(h, y.subject) == Preimage(h, y)[..32] == Preimage(h, x)[..32] == Digest(h, x.pred);
      SamePreimage(h, s, x.pred, y.subject);
      DigestLength(h, y.subject.pred);
      assert false;
    } else {
      DigestLength(h, y.pred);
      assert Digest(h, y.pred) == Preimage(h, y)[..32] == Preimage(h, x)[..32] == Digest(h, x.pred);
      assert Digest(h, y.obj) == Preimage(h, y)[32..] == Preimage(h, x)[32..] == Digest(h, x.obj);
      VisibleLabel(h, s, c, y.pred);
      SamePreimage(h, s, x.obj, y.obj);
      ItemsAgreeExactly(h, x.obj.item, y.obj.item);
      SameScalar(h, x.obj.item, y.obj.item);
      OnlyOwnLabel(h, c, y.pred.item, y.obj.item);
      ClaimReads(c);
    }
  }

  /** The predicate is a leaf whose text normalizes to the label. */
  lemma VisibleLabel(h: Digester, s: set<bytes>, c: Claim, p: Envelope)
    requires Regular(h) && CollisionFree(h, s) && !c.Hidden? && WellFormed(h, p) && Covered(h, s, p)
    requires Subject(p).Leaf? && Covered(h, s, LabelLeaf(c))
    requires Digest(h, p) == Digest(h, LabelLeaf(c))
    ensures p.Leaf? && NormalItem(h, p.item) == LabelLeaf(c).item
  {
    hide Encode, Head, CollisionFree, Normal;
    var l := LabelLeaf(c);
    LabelProps(h, c);
    DigestLength(h, Subject(p));
    SamePreimage(h, s, l, p);
    if p.Leaf? {
      ItemsAgreeExactly(h, l.item, p.item);
    }
  }

  lemma SameScalar(h: Digester, a: Item, b: Item)
    requires NormalItem(h, a) == NormalItem(h, b) && (a.v.Uint? || a.v.Bytes?)
    ensures a == b
  {
  }

  /** A text that normalizes to one label is not another label. */
  lemma OnlyOwnLabel(h: Digester, c: Claim, name: Item, value: Item)
    requires !c.Hidden? && Normalizes(h.nfc) && NormalItem(h, name) == LabelLeaf(c).item
    requires name.v.Text? && ReadLabelled(name.v.s, value).Ok?
    ensures name == LabelLeaf(c).item
  {
    var d := ReadLabelled(name.v.s, value).value;
    LabelIsText(d);
    hide IsText;
    assert name.v.s == Label(d);
  }

  lemma ClaimDigestInjective(h: Digester, s: set<bytes>, c: Claim, d: Claim)
    requires Regular(h) && CollisionFree(h, s)
    requires ClaimFits(c) && Covered(h, s, ClaimEnvelope(c)) && ClaimFits(d) && Covered(h, s, ClaimEnvelope(d))
    requires Digest(h, ClaimEnvelope(c)) == Digest(h, ClaimEnvelope(d))
    ensures c == d
  {
    hide Digest, ReadClaim, CollisionFree, Covered;
    ClaimReads(c);
    ClaimReads(d);
    ClaimWellFormed(h, d);
    VisibleClaim(h, s, c, ClaimEnvelope(d));
  }
}
