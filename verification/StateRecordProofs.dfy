/** The record decoder accepts exactly what the record printer writes for valid records. */
module StateRecordProofs {
  import opened Basics
  import opened Cbor
  import opened CborProofs
  import opened CborMaps
  import opened Keys
  import opened StateRecord

  // ---- lists of text ----

  lemma {:induction false} TextsExact(items: seq<Value>, ts: seq<bytes>)
    ensures ReadTexts(items) == Ok(ts) <==> items == Texts(ts)
  {
    if items != [] && ts != [] {
      TextsExact(items[1..], ts[1..]);
      assert items == [items[0]] + items[1..] && ts == [ts[0]] + ts[1..];
      assert Texts(ts)[1..] == Texts(ts[1..]);
    }
  }

  lemma {:induction false} TextsAreLeaves(ts: seq<bytes>)
    ensures |Texts(ts)| == |ts|
    ensures Canonical(Array(Texts(ts)))
    ensures forall t :: t in ts ==> Text(t) in Texts(ts)
    ensures forall v :: v in Texts(ts) ==> v.Text? && v.s in ts
  {
    if ts != [] {
      TextsAreLeaves(ts[1..]);
    }
  }

  // ---- allowed keys ----

  lemma AllowedLookups(es: Entries, allowed: set<bytes>, unknown: string)
    ensures MapEntries(Map(es), allowed, unknown).Ok? <==>
            forall x :: Lookup(es, x).Some? ==> x in allowed
    ensures MapEntries(Map(es), allowed, unknown).Ok? ==>
              MapEntries(Map(es), allowed, unknown) == Ok(es)
  {
    if e :| e in es && e.key !in allowed {
      if Lookup(es, e.key).None? {
        LookupHas(es, e.key);
        HasMember(es, e);
      }
    }
    forall x | Lookup(es, x).Some?
      ensures exists e :: e in es && e.key == x
    {
      LookupFound(es, x);
    }
  }

  lemma {:induction false} HasMember(es: Entries, e: Keyed<Value>)
    requires e in es
    ensures Has(es, e.key)
  {
    if es[0] != e {
      HasMember(es[1..], e);
    }
  }

  /** A looked-up value of a well-formed map is well-formed. */
  lemma LookupWell(es: Entries, k: bytes)
    requires Well(Map(es)) && Lookup(es, k).Some?
    ensures Well(Lookup(es, k).value)
  {
    LookupFound(es, k);
  }

  /** A repeat-free list looks up exactly its members. */
  lemma EntriesLookup(es: Entries, x: bytes, found: Option<Value>)
    requires Distinct(es)
    requires forall v :: Keyed(x, v) in es <==> found == Some(v)
    ensures Lookup(es, x) == found
  {
    if found.Some? {
      LookupEntry(es, Keyed(x, found.value));
    } else {
      forall e | e in es
        ensures e.key != x
      {
        assert e == Keyed(e.key, e.val);
      }
      LookupAbsent(es, x);
    }
  }

  // ---- operational keys ----

  ghost function OptionalValue(t: Option<nat>): Option<Value> {
    if t.Some? then Some(Uint(t.value)) else None
  }

  ghost function OpLookup(k: OperationalKey, x: bytes): Option<Value> {
    if x == ALG then Some(Text(k.alg))
    else if x == KEY then Some(Bytes(k.key))
    else if x == PRIVILEGES then Some(Array(Texts(k.privileges)))
    else if x == NOT_BEFORE then OptionalValue(k.notBefore)
    else if x == NOT_AFTER then OptionalValue(k.notAfter)
    else None
  }

  lemma OpEntriesDistinct(k: OperationalKey)
    ensures Distinct(OpEntries(k)) && TextKeys(OpEntries(k))
    ensures forall e :: e in OpEntries(k) ==> e.key in OP_KEYS && IsText(e.key)
  {
    hide IsText, Distinct;
    Names();
    NamesAreText();
    DistinctByIndex(OpEntries(k));
    assert TextKeys(OpEntries(k));
  }

  lemma OpMembers(k: OperationalKey)
    ensures forall e :: e in OpEntries(k) <==> OpLookup(k, e.key) == Some(e.val)
  {
    Names();
    var base := [Keyed(ALG, Text(k.alg)), Keyed(KEY, Bytes(k.key)),
                 Keyed(PRIVILEGES, Array(Texts(k.privileges)))];
    assert forall e :: e in base <==> e == base[0] || e == base[1] || e == base[2];
    var more := base + Optional(NOT_BEFORE, k.notBefore);
    assert forall e :: e in more <==> e in base || e in Optional(NOT_BEFORE, k.notBefore);
    assert forall e :: e in OpEntries(k) <==> e in more || e in Optional(NOT_AFTER, k.notAfter);
  }

  lemma OpEntriesLookup(k: OperationalKey, x: bytes)
    ensures Lookup(OpEntries(k), x) == OpLookup(k, x)
  {
    hide Distinct, Lookup, OpEntries, OpLookup;
    OpEntriesDistinct(k);
    OpMembers(k);
    EntriesLookup(OpEntries(k), x, OpLookup(k, x));
  }

  /** Decoding an operational entry reads nothing but its lookups. */
  lemma OpReadsLookups(es: Entries, k: OperationalKey)
    ensures ReadOp(Map(es)) == Ok(k) <==> forall x :: Lookup(es, x) == OpLookup(k, x)
  {
    hide Lookup, ReadTexts, Texts, MapEntries;
    Names();
    AllowedLookups(es, OP_KEYS, "unknown key in operational entry");
    var p := Lookup(es, PRIVILEGES);
    if p.Some? && p.value.Array? {
      TextsExact(p.value.items, k.privileges);
    }
    if ReadOp(Map(es)) == Ok(k) {
      forall x
        ensures Lookup(es, x) == OpLookup(k, x)
      {
      }
    }
    if forall x :: Lookup(es, x) == OpLookup(k, x) {
      assert Lookup(es, ALG) == OpLookup(k, ALG) && Lookup(es, KEY) == OpLookup(k, KEY);
      assert p == OpLookup(k, PRIVILEGES);
      assert Lookup(es, NOT_BEFORE) == OpLookup(k, NOT_BEFORE);
      assert Lookup(es, NOT_AFTER) == OpLookup(k, NOT_AFTER);
    }
  }

  lemma OpLookupCanonical(k: OperationalKey, x: bytes)
    ensures CanonOption(OpLookup(k, x)) == OpLookup(k, x)
  {
    if x == PRIVILEGES {
      TextsAreLeaves(k.privileges);
      CanonicalIsFixed(Array(Texts(k.privileges)));
    }
  }

  lemma OpExact(v: Value, k: OperationalKey)
    requires Well(v)
    ensures ReadOp(v) == Ok(k) <==> v == Canon(Map(OpEntries(k)))
  {
    hide ReadOp, OpEntries, Lookup, OpLookup;
    if v.Map? {
      OpReadsLookups(v.entries, k);
      OpEntriesDistinct(k);
      var es := OpEntries(k);
      forall x
        ensures CanonOption(Lookup(es, x)) == OpLookup(k, x)
        ensures Lookup(Canon(Map(es)).entries, x) == OpLookup(k, x)
      {
        OpEntriesLookup(k, x);
        OpLookupCanonical(k, x);
        LookupCanon(es, x);
      }
      if ReadOp(v) == Ok(k) {
        CanonByLookups(es, v.entries);
      }
    } else {
      OpNeedsMap(v, k);
    }
  }

  lemma OpNeedsMap(v: Value, k: OperationalKey)
    requires !v.Map?
    ensures ReadOp(v) != Ok(k) && v != Canon(Map(OpEntries(k)))
  {
  }

  lemma OpWell(k: OperationalKey)
    requires OpFits(k)
    ensures Representable(Map(OpEntries(k))) && NoRepeats(Map(OpEntries(k)))
  {
    hide Distinct, IsText, OpEntries, Texts;
    OpEntriesDistinct(k);
    TextsAreLeaves(k.privileges);
    OpMembers(k);
    CanonicalIsFixed(Array(Texts(k.privileges)));
    assert Representable(Array(Texts(k.privileges)));
    assert |OpEntries(k)| < U64 by {
      OpCount(k);
    }
    forall e | e in OpEntries(k)
      ensures Representable(e.val) && NoRepeats(e.val)
    {
    }
  }

  lemma OpCount(k: OperationalKey)
    ensures |OpEntries(k)| <= 5
  {
  }

  lemma OpFitsIfWell(v: Value, k: OperationalKey)
    requires Well(v) && ReadOp(v) == Ok(k)
    ensures OpFits(k)
  {
    hide Lookup, ReadOp, Canonical, IsText;
    assert v.Map? by {
      OpNeedsMapIfRead(v, k);
    }
    OpReadsLookups(v.entries, k);
    TextsAreLeaves(k.privileges);
    forall x | OpLookup(k, x).Some?
      ensures Representable(OpLookup(k, x).value)
    {
      assert Lookup(v.entries, x) == OpLookup(k, x);
      LookupWell(v.entries, x);
    }
    Names();
    assert Representable(OpLookup(k, ALG).value) && Representable(OpLookup(k, KEY).value);
    assert Representable(OpLookup(k, PRIVILEGES).value);
    assert k.notBefore.Some? ==> Representable(OpLookup(k, NOT_BEFORE).value);
    assert k.notAfter.Some? ==> Representable(OpLookup(k, NOT_AFTER).value);
    forall p | p in k.privileges
      ensures IsText(p)
    {
      assert Text(p) in Texts(k.privileges);
      assert Representable(Text(p));
    }
  }

  lemma OpNeedsMapIfRead(v: Value, k: OperationalKey)
    requires ReadOp(v) == Ok(k)
    ensures v.Map?
  {
  }

  lemma {:induction false} OpsExact(items: seq<Value>, ks: seq<OperationalKey>)
    requires forall v :: v in items ==> Well(v)
    ensures ReadOps(items) == Ok(ks) <==> items == CanonItems(OpValues(ks))
    ensures ReadOps(items) == Ok(ks) ==> forall k :: k in ks ==> OpFits(k)
  {
    hide Well, ReadOp, OpEntries, OpFits;
    if items != [] && ks != [] {
      OpExact(items[0], ks[0]);
      if ReadOp(items[0]) == Ok(ks[0]) {
        OpFitsIfWell(items[0], ks[0]);
      }
      OpsExact(items[1..], ks[1..]);
      assert items == [items[0]] + items[1..] && ks == [ks[0]] + ks[1..];
      assert OpValues(ks)[1..] == OpValues(ks[1..]);
      assert CanonItems(OpValues(ks))[1..] == CanonItems(OpValues(ks[1..]));
    }
  }

  lemma {:induction false} OpsWell(ks: seq<OperationalKey>)
    requires forall k :: k in ks ==> OpFits(k)
    ensures |OpValues(ks)| == |ks|
    ensures forall v :: v in OpValues(ks) ==> Representable(v) && NoRepeats(v)
  {
    hide OpFits, Representable, NoRepeats, OpEntries;
    if ks != [] {
      OpWell(ks[0]);
      OpsWell(ks[1..]);
    }
  }

  // ---- control key ----

  ghost function ControlLookup(k: PqPublicKey, x: bytes): Option<Value> {
    if x == ALG then Some(Text(PqTag(k.alg)))
    else if x == KEY then Some(Bytes(k.raw))
    else if x == THRESHOLD then Some(Uint(1))
    else None
  }

  lemma ControlEntriesLookup(k: PqPublicKey, x: bytes)
    ensures Distinct(ControlEntries(k)) && TextKeys(ControlEntries(k))
    ensures forall e :: e in ControlEntries(k) ==> IsText(e.key)
    ensures Lookup(ControlEntries(k), x) == ControlLookup(k, x)
  {
    hide IsText, Distinct, Lookup;
    Names();
    NamesAreText();
    var es := ControlEntries(k);
    DistinctByIndex(es);
    if e :| e in es && e.key == x {
      LookupEntry(es, e);
    } else {
      LookupAbsent(es, x);
      assert es[0] in es && es[1] in es && es[2] in es;
    }
  }

  lemma ControlReadsLookups(es: Entries, k: PqPublicKey)
    ensures ParseControl(Map(es)) == Ok(k) <==>
            ControlValid(k) && forall x :: Lookup(es, x) == ControlLookup(k, x)
  {
    hide Lookup, MapEntries, PqTag;
    Names();
    AllowedLookups(es, CONTROL_KEYS, "unknown key in control");
    if ControlValid(k) && forall x :: Lookup(es, x) == ControlLookup(k, x) {
      assert Lookup(es, ALG) == ControlLookup(k, ALG) && Lookup(es, KEY) == ControlLookup(k, KEY);
      assert Lookup(es, THRESHOLD) == ControlLookup(k, THRESHOLD);
    }
  }

  lemma ControlExact(v: Value, k: PqPublicKey)
    requires Well(v)
    ensures ParseControl(v) == Ok(k) <==> ControlValid(k) && v == Canon(Map(ControlEntries(k)))
  {
    hide ControlEntries, Lookup, ControlLookup, ControlValid;
    if v.Map? {
      ControlReadsLookups(v.entries, k);
      var es := ControlEntries(k);
      forall x
        ensures Distinct(es) && TextKeys(es)
        ensures CanonOption(Lookup(es, x)) == ControlLookup(k, x)
        ensures Lookup(Canon(Map(es)).entries, x) == ControlLookup(k, x)
      {
        ControlEntriesLookup(k, x);
        ControlLookupCanonical(k, x);
        LookupCanon(es, x);
      }
      assert CanonOption(Lookup(es, V)) == ControlLookup(k, V);
      if ParseControl(v) == Ok(k) {
        CanonByLookups(es, v.entries);
      }
    }
  }

  lemma ControlLookupCanonical(k: PqPublicKey, x: bytes)
    ensures CanonOption(ControlLookup(k, x)) == ControlLookup(k, x)
  {
  }

  // ---- the whole record ----

  ghost function RecordLookup(r: StateRecord, x: bytes): Option<Value> {
    if x == V then Some(Uint(STATE_VERSION))
    else if x == XID then Some(Bytes(r.xid))
    else if x == SEQ then Some(Uint(r.seqno))
    else if x == CONTROL then Some(Map(ControlEntries(r.control)))
    else if x == OPERATIONAL then Some(Array(OpValues(r.operational)))
    else if x == PREV && r.prev.Some? then Some(Bytes(r.prev.value))
    else None
  }

  lemma RecordMembers(r: StateRecord)
    ensures forall e :: e in RecordEntries(r) <==> RecordLookup(r, e.key) == Some(e.val)
  {
    hide ControlEntries, OpValues;
    Names();
    var es := RecordEntries(r);
    var base := es[..5];
    assert es == base + es[5..];
    assert forall e :: e in base <==>
      e == es[0] || e == es[1] || e == es[2] || e == es[3] || e == es[4];
    assert forall e :: e in es <==> e in base || e in es[5..];
    assert forall e :: e in es[5..] <==> r.prev.Some? && e == Keyed(PREV, Bytes(r.prev.value));
  }

  lemma RecordEntriesDistinct(r: StateRecord)
    ensures Distinct(RecordEntries(r)) && TextKeys(RecordEntries(r))
    ensures forall e :: e in RecordEntries(r) ==> IsText(e.key)
    ensures |RecordEntries(r)| <= 6
  {
    hide IsText, Distinct, ControlEntries, OpValues;
    Names();
    NamesAreText();
    var es := RecordEntries(r);
    DistinctByIndex(es);
    assert TextKeys(es);
  }

  lemma RecordEntriesLookup(r: StateRecord, x: bytes)
    ensures Lookup(RecordEntries(r), x) == RecordLookup(r, x)
  {
    hide Distinct, Lookup, RecordEntries, RecordLookup;
    RecordEntriesDistinct(r);
    RecordMembers(r);
    EntriesLookup(RecordEntries(r), x, RecordLookup(r, x));
  }

  /** What the two decoding stages establish, field by field. */
  ghost predicate FieldsMatch(es: Entries, r: StateRecord) {
    Lookup(es, V) == Some(Uint(1)) &&
    Lookup(es, XID) == Some(Bytes(r.xid)) && |r.xid| == 32 &&
    Lookup(es, SEQ) == Some(Uint(r.seqno)) &&
    Lookup(es, PREV) == (if r.prev.Some? then Some(Bytes(r.prev.value)) else None) &&
    (r.prev.Some? ==> |r.prev.value| == 32) &&
    r.seqno >= 1 && (r.seqno == 1 <==> r.prev.None?) &&
    Lookup(es, CONTROL).Some? && ParseControl(Lookup(es, CONTROL).value) == Ok(r.control) &&
    Lookup(es, OPERATIONAL).Some? && ReadOperational(Lookup(es, OPERATIONAL).value) == Ok(r.operational) &&
    forall x :: Lookup(es, x).Some? ==> x in RECORD_KEYS
  }

  ghost predicate Decodes(v: Value, r: StateRecord) {
    ReadVersion(v) == Ok(STATE_VERSION) && ReadFields(v) == Ok(r)
  }

  lemma DecodeByFields(es: Entries, r: StateRecord)
    ensures Decodes(Map(es), r) <==> FieldsMatch(es, r)
  {
    hide Lookup, MapEntries, ParseControl, ReadOperational;
    AllowedLookups(es, RECORD_KEYS, "unknown key in state record");
  }

  lemma MatchGivesLookups(es: Entries, r: StateRecord)
    requires Well(Map(es)) && FieldsMatch(es, r)
    ensures RecordValid(r) && RecordFits(r)
    ensures forall x :: Lookup(es, x) == CanonOption(RecordLookup(r, x))
  {
    hide Lookup, ParseControl, ReadOps, ControlEntries, OpValues, CanonItems, CanonValues, Well, OpFits, Sort;
    Names();
    LookupWell(es, CONTROL);
    LookupWell(es, OPERATIONAL);
    LookupWell(es, SEQ);
    WellParts(Lookup(es, OPERATIONAL).value, Lookup(es, SEQ).value);
    ControlExact(Lookup(es, CONTROL).value, r.control);
    OpsExact(Lookup(es, OPERATIONAL).value.items, r.operational);
    OpsLength(r.operational);
    forall x
      ensures Lookup(es, x) == CanonOption(RecordLookup(r, x))
    {
    }
  }

  lemma WellParts(a: Value, n: Value)
    requires Well(a) && Well(n)
    ensures a.Array? ==> |a.items| < U64 && forall v :: v in a.items ==> Well(v)
    ensures n.Uint? ==> n.n < U64
  {
  }

  lemma {:induction false} OpsLength(ks: seq<OperationalKey>)
    ensures |CanonItems(OpValues(ks))| == |ks|
  {
    if ks != [] {
      OpsLength(ks[1..]);
      assert OpValues(ks)[1..] == OpValues(ks[1..]);
    }
  }

  lemma LookupsGiveMatch(es: Entries, r: StateRecord)
    requires Well(Map(es)) && RecordValid(r) && RecordFits(r)
    requires forall x :: Lookup(es, x) == CanonOption(RecordLookup(r, x))
    ensures FieldsMatch(es, r)
  {
    hide Lookup, ParseControl, ReadOps, ControlEntries, OpValues, CanonItems, CanonValues, Well, OpFits, Sort;
    Names();
    assert Lookup(es, V) == CanonOption(RecordLookup(r, V));
    assert Lookup(es, XID) == CanonOption(RecordLookup(r, XID));
    assert Lookup(es, SEQ) == CanonOption(RecordLookup(r, SEQ));
    assert Lookup(es, PREV) == CanonOption(RecordLookup(r, PREV));
    assert Lookup(es, CONTROL) == CanonOption(RecordLookup(r, CONTROL));
    assert Lookup(es, OPERATIONAL) == CanonOption(RecordLookup(r, OPERATIONAL));
    LookupWell(es, CONTROL);
    LookupWell(es, OPERATIONAL);
    LookupWell(es, SEQ);
    WellParts(Lookup(es, OPERATIONAL).value, Lookup(es, SEQ).value);
    ControlExact(Lookup(es, CONTROL).value, r.control);
    OpsExact(Lookup(es, OPERATIONAL).value.items, r.operational);
  }

  /** For a well-formed value: it decodes to `r` exactly when it is the canonical form of `r`. */
  lemma RecordExactValue(v: Value, r: StateRecord)
    requires Well(v)
    ensures Decodes(v, r) <==> RecordValid(r) && RecordFits(r) && v == Canon(Map(RecordEntries(r)))
  {
    hide RecordEntries, Lookup, RecordLookup, FieldsMatch, Decodes, RecordValid, RecordFits, CanonOption;
    if v.Map? {
      var es := RecordEntries(r);
      RecordEntriesDistinct(r);
      forall x
        ensures CanonOption(Lookup(es, x)) == CanonOption(RecordLookup(r, x))
        ensures Lookup(Canon(Map(es)).entries, x) == CanonOption(RecordLookup(r, x))
      {
        RecordEntriesLookup(r, x);
        LookupCanon(es, x);
      }
      DecodeByFields(v.entries, r);
      if Decodes(v, r) {
        MatchGivesLookups(v.entries, r);
        CanonByLookups(es, v.entries);
      } else if RecordValid(r) && RecordFits(r) && v == Canon(Map(es)) {
        LookupsGiveMatch(v.entries, r);
      }
    } else {
      RecordNeedsMap(v, r);
    }
  }

  lemma RecordNeedsMap(v: Value, r: StateRecord)
    requires !v.Map?
    ensures !Decodes(v, r)
  {
  }

  lemma RecordWell(r: StateRecord)
    requires RecordFits(r)
    ensures Representable(Map(RecordEntries(r))) && NoRepeats(Map(RecordEntries(r)))
  {
    hide Distinct, IsText, RecordEntries, ControlEntries, OpValues, OpFits;
    RecordEntriesDistinct(r);
    RecordMembers(r);
    ControlWell(r.control);
    OpsWell(r.operational);
    forall e | e in RecordEntries(r)
      ensures Representable(e.val) && NoRepeats(e.val)
    {
    }
  }

  lemma ControlWell(k: PqPublicKey)
    requires |k.raw| < U64
    ensures Representable(Map(ControlEntries(k))) && NoRepeats(Map(ControlEntries(k)))
  {
    hide Distinct, IsText, PqTag;
    TagRoundTrip(P256, k.alg);
    ControlEntriesLookup(k, V);
  }

  /** The record decoder accepts exactly the bytes the printer writes for valid records, and
      returns the record that was printed. */
  lemma RecordBijection(b: bytes, r: StateRecord)
    ensures RecordFromBytes(b) == Ok(r) <==> RecordValid(r) && RecordFits(r) && b == RecordToBytes(r)
  {
    hide RecordEntries, ReadVersion, ReadFields, RecordValid, RecordFits, Canon, Encode, Representable, NoRepeats, ReadValue;
    if RecordFromBytes(b) == Ok(r) {
      var v := FromBytes(b).value;
      Strictness(b);
      FromBytesWell(b);
      assert Decodes(v, r);
      RecordExactValue(v, r);
      RecordWell(r);
      EncodeCanon(Map(RecordEntries(r)));
    } else if RecordValid(r) && RecordFits(r) && b == RecordToBytes(r) {
      var v := Map(RecordEntries(r));
      RecordWell(r);
      EncodeThenDecode(v);
      EncodeCanon(v);
      FromBytesWell(b);
      RecordExactValue(Canon(v), r);
    }
  }

  lemma FromBytesWell(b: bytes)
    requires FromBytes(b).Ok?
    ensures Well(FromBytes(b).value)
  {
    hide ReadValue, Well;
    var v := FromBytes(b).value;
    assert Reads(b, v, []);
    StrictValue(b, v, []);
  }

  /** The explicit re-encode check never rejects on its own: without it the decoder answers the
      same on every input. */
  lemma ReencodeCheckIsRedundant(b: bytes)
    ensures RecordFromBytes(b) == var v :- FromBytes(b); ReadRecord(v)
  {
    hide ReadValue, Encode, ReadRecord;
    if FromBytes(b).Ok? {
      Strictness(b);
    }
  }
}
