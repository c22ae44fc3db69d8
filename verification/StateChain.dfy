/** The caller-held trust and the `observe` step of the post-quantum state chain. */
module StateChain {
  import opened Basics
  import opened Cbor
  import opened Keys
  import opened StateRecord

  const STATE_DOMAIN: bytes := Ascii("identikey-pq-state/v1")

  function StateSigningPayload(unsigned: bytes): bytes {
    Encode(Array([Text(STATE_DOMAIN), Bytes(unsigned)]))
  }

  function XidForControlKey(c: Crypto, k: PqPublicKey): bytes {
    c.sha256(XidPreimage(k))
  }

  datatype StateSignatures = StateSignatures(pq: seq<PqSignature>, classical: Option<ClassicalSignature>)

  datatype Head = Head(digest: bytes, record: StateRecord)

  datatype Parent = Parent(control: PqPublicKey, prev: bytes, seqno: nat)

  datatype Trust = Trust(anchor: Option<bytes>, head: Option<Head>, parent: Option<Parent>, forked: bool) {
    function Authority(): Option<Head> {
      if forked then None else head
    }

    /** Only the accepted head resolves, and nothing does after a fork. */
    function Resolve(digest: bytes): Option<Head> {
      if Authority().Some? && Authority().value.digest == digest then Authority() else None
    }
  }

  function NewTrust(): Trust {
    Trust(None, None, None, false)
  }

  function WithAnchor(anchor: bytes): Trust {
    Trust(Some(anchor), None, None, false)
  }

  predicate PqSigned(c: Crypto, key: PqPublicKey, payload: bytes, sigs: seq<PqSignature>) {
    exists s :: s in sigs && c.verifyPq(key, payload, s).Ok?
  }

  function CheckRotation(c: Crypto, rec: StateRecord, xid: bytes, prevControl: PqPublicKey,
                         payload: bytes, sigs: StateSignatures): Res<()>
  {
    if rec.xid != xid then Err(State("xid changed"))
    else if !PqSigned(c, prevControl, payload, sigs.pq) then Err(BadSignature)
    else if rec.control != prevControl && !PqSigned(c, rec.control, payload, sigs.pq) then Err(BadSignature)
    else Ok(())
  }

  function CheckMigrationSigs(c: Crypto, rec: StateRecord, payload: bytes, sigs: StateSignatures,
                              elect: Option<ClassicalPublicKey>): Res<()>
  {
    if elect.None? || sigs.classical.None? then
      Err(State("migration needs an elect key and its signature"))
    else
      var _ :- c.verifyClassical(elect.value, payload, sigs.classical.value);
      if !PqSigned(c, rec.control, payload, sigs.pq) then Err(BadSignature) else Ok(())
  }

  function Successor(c: Crypto, trust: Trust, head: Head, rec: StateRecord, digest: bytes,
                     payload: bytes, sigs: StateSignatures): Res<Trust>
  {
    if rec.prev == Some(head.digest) && head.record.seqno + 1 < U64 && rec.seqno == head.record.seqno + 1 then
      var _ :- CheckRotation(c, rec, head.record.xid, head.record.control, payload, sigs);
      Ok(Trust(trust.anchor, Some(Head(digest, rec)),
               Some(Parent(head.record.control, head.digest, rec.seqno)), false))
    else if trust.parent.Some? && rec.prev == Some(trust.parent.value.prev)
            && rec.seqno == trust.parent.value.seqno then
      var _ :- CheckRotation(c, rec, head.record.xid, trust.parent.value.control, payload, sigs);
      Ok(trust.(forked := true))
    else Err(State("record does not extend the accepted head"))
  }

  function FirstRecord(c: Crypto, trust: Trust, rec: StateRecord, digest: bytes, payload: bytes,
                       sigs: StateSignatures, elect: Option<ClassicalPublicKey>, classicalSound: bool): Res<Trust>
  {
    var accepted := trust.(head := Some(Head(digest, rec)));
    if trust.anchor.Some? then
      if trust.anchor.value != digest then Err(State("first record is not the stored anchor"))
      else
        var _ :- CheckMigrationSigs(c, rec, payload, sigs, elect);
        Ok(accepted)
    else if rec.xid == XidForControlKey(c, rec.control) then
      if !PqSigned(c, rec.control, payload, sigs.pq) then Err(BadSignature) else Ok(accepted)
    else
      var _ :- CheckMigrationSigs(c, rec, payload, sigs, elect);
      if !classicalSound then Err(State("classical signatures are not sound and no anchor is stored"))
      else Ok(accepted.(anchor := Some(digest)))
  }

  /** One call of `observe`: the record bytes, their detached signatures, the Elect key, and
      whether this verifier still trusts classical signatures. */
  datatype Input = Input(record: bytes, sigs: StateSignatures, elect: Option<ClassicalPublicKey>, classicalSound: bool)

  function Observe(c: Crypto, trust: Trust, input: Input): Res<Trust> {
    if trust.forked then Err(State("duplicity recorded for this xid"))
    else
      var rec :- RecordFromBytes(input.record);
      var digest := c.sha256(input.record);
      var payload := StateSigningPayload(input.record);
      if trust.head.Some? then
        if trust.head.value.digest == digest then Ok(trust)
        else if rec.seqno == 1 then
          if trust.anchor == Some(digest) then Ok(trust) else Err(State("chain already established"))
        else Successor(c, trust, trust.head.value, rec, digest, payload, input.sigs)
      else if rec.seqno != 1 then Err(State("no accepted head"))
      else FirstRecord(c, trust, rec, digest, payload, input.sigs, input.elect, input.classicalSound)
  }

  // ---- runs: a rejected record leaves the caller's trust as it was ----

  function Step(c: Crypto, trust: Trust, input: Input): Trust {
    match Observe(c, trust, input)
    case Ok(next) => next
    case Err(_) => trust
  }

  function Run(c: Crypto, trust: Trust, inputs: seq<Input>): Trust {
    if inputs == [] then trust
    else Step(c, Run(c, trust, inputs[..|inputs| - 1]), inputs[|inputs| - 1])
  }

  /** The record bytes that became the head, in order. */
  ghost function History(c: Crypto, trust: Trust, inputs: seq<Input>): seq<bytes> {
    if inputs == [] then []
    else
      var front, last := inputs[..|inputs| - 1], inputs[|inputs| - 1];
      var before := Run(c, trust, front);
      History(c, trust, front)
      + if Step(c, before, last).head != before.head then [last.record] else []
  }
}
