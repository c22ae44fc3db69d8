/** What every run of the state chain keeps, from any fresh trust and any stream of inputs. */
module StateRuns {
  import opened Basics
  import opened Cbor
  import opened Keys
  import opened StateRecord
  import StateRecordProofs
  import opened StateChain

  predicate Decodable(b: bytes) {
    RecordFromBytes(b).Ok?
  }

  function Rec(b: bytes): StateRecord
    requires Decodable(b)
  {
    RecordFromBytes(b).value
  }

  /** `b` is the next record after `a`, signatures aside. */
  ghost predicate Link(c: Crypto, a: bytes, b: bytes) {
    Decodable(a) && Decodable(b) &&
    Rec(b).prev == Some(c.sha256(a)) && Rec(b).seqno == Rec(a).seqno + 1 && Rec(b).xid == Rec(a).xid
  }

  /** Hash-linked, numbered from 1, one xid. */
  ghost predicate ValidChain(c: Crypto, h: seq<bytes>) {
    (forall i :: 0 <= i < |h| ==> Decodable(h[i]) && Rec(h[i]).seqno == i + 1) &&
    (forall i :: 0 < i < |h| ==> Link(c, h[i - 1], h[i]))
  }

  /** One of the detached signatures is a valid one by this key over the record's payload. */
  ghost predicate SignedBy(c: Crypto, key: PqPublicKey, record: bytes, input: Input) {
    exists s :: s in input.sigs.pq && c.verifyPq(key, StateSigningPayload(record), s).Ok?
  }

  /** These signatures came with record `b` and authorise it after `a`: one is by a's control key and,
      where b changes the key, one is by the new key. */
  ghost predicate Authorises(c: Crypto, a: bytes, b: bytes, input: Input) {
    Decodable(a) && Decodable(b) && input.record == b &&
    SignedBy(c, Rec(a).control, b, input) &&
    (Rec(b).control != Rec(a).control ==> SignedBy(c, Rec(b).control, b, input))
  }

  /** These signatures came with first record `b`: its own control key signed it and, where the verifier
      holds an anchor or the xid is not the key's own, so did the elect classical key, which
      without an anchor the verifier must still trust. */
  ghost predicate Opens(c: Crypto, anchored: bool, b: bytes, input: Input) {
    Decodable(b) && input.record == b &&
    SignedBy(c, Rec(b).control, b, input) &&
    (anchored || Rec(b).xid != c.sha256(XidPreimage(Rec(b).control)) ==>
      input.elect.Some? && input.sigs.classical.Some? &&
      c.verifyClassical(input.elect.value, StateSigningPayload(b), input.sigs.classical.value).Ok?) &&
    (!anchored && Rec(b).xid != c.sha256(XidPreimage(Rec(b).control)) ==> input.classicalSound)
  }

  /** Input j is the delivery that made h[i] the head. */
  ghost predicate Delivers(c: Crypto, start: Trust, inputs: seq<Input>, h: seq<bytes>, i: nat, j: nat)
    requires i < |h|
  {
    j < |inputs| &&
    if i == 0 then Opens(c, start.anchor.Some?, h[0], inputs[j]) else Authorises(c, h[i - 1], h[i], inputs[j])
  }

  ghost predicate HasDelivery(c: Crypto, start: Trust, inputs: seq<Input>, h: seq<bytes>, i: nat)
    requires i < |h|
  {
    exists j: nat :: Delivers(c, start, inputs, h, i, j)
  }

  /** Every accepted record came in with signatures that authorise it. */
  ghost predicate AllDelivered(c: Crypto, start: Trust, inputs: seq<Input>, h: seq<bytes>) {
    forall i :: 0 <= i < |h| ==> HasDelivery(c, start, inputs, h, i)
  }

  ghost predicate Fresh(t: Trust) {
    t.head.None? && t.parent.None? && !t.forked
  }

  ghost function ParentOf(c: Crypto, h: seq<bytes>): Option<Parent>
    requires forall b :: b in h ==> Decodable(b)
  {
    if |h| < 2 then None
    else Some(Parent(Rec(h[|h| - 2]).control, c.sha256(h[|h| - 2]), |h|))
  }

  /** The trust is exactly what the accepted history says, and the history what the inputs say. */
  ghost predicate Describes(c: Crypto, start: Trust, inputs: seq<Input>, t: Trust, h: seq<bytes>) {
    ValidChain(c, h) && AllDelivered(c, start, inputs, h) && (forall b :: b in h ==> Decodable(b)) &&
    t.head == (if h == [] then None else Some(Head(c.sha256(h[|h| - 1]), Rec(h[|h| - 1])))) &&
    t.parent == ParentOf(c, h) &&
    (start.anchor.Some? || h == [] ==> t.anchor == start.anchor) &&
    (t.anchor.Some? && h != [] ==> t.anchor.value == c.sha256(h[0])) &&
    (t.forked ==> |h| >= 2)
  }

  ghost function Extend(h: seq<bytes>, t: Trust, next: Trust, record: bytes): seq<bytes> {
    h + if next.head != t.head then [record] else []
  }

  lemma ChainSnoc(c: Crypto, h: seq<bytes>, b: bytes)
    requires ValidChain(c, h) && Decodable(b) && Rec(b).seqno == |h| + 1
    requires h != [] ==> Link(c, h[|h| - 1], b)
    ensures ValidChain(c, h + [b])
  {
    hide Link, RecordFromBytes;
    var g := h + [b];
    forall i | 0 < i < |g|
      ensures Link(c, g[i - 1], g[i])
    {
      if i < |h| {
        assert g[i - 1] == h[i - 1] && g[i] == h[i];
      }
    }
  }

  /** Deliveries stay deliveries as inputs and history grow; a new head brings its own. */
  lemma DeliveredSnoc(c: Crypto, start: Trust, inputs: seq<Input>, h: seq<bytes>, input: Input, more: seq<bytes>)
    requires AllDelivered(c, start, inputs, h) && (more == [] || more == [input.record])
    requires more != [] ==>
               if h == [] then Opens(c, start.anchor.Some?, input.record, input)
               else Authorises(c, h[|h| - 1], input.record, input)
    ensures AllDelivered(c, start, inputs + [input], h + more)
  {
    hide Opens, Authorises;
    var all, g := inputs + [input], h + more;
    forall i | 0 <= i < |g|
      ensures HasDelivery(c, start, all, g, i)
    {
      if i < |h| {
        assert HasDelivery(c, start, inputs, h, i);
        var j: nat :| Delivers(c, start, inputs, h, i, j);
        assert all[j] == inputs[j] && g[i] == h[i] && (i > 0 ==> g[i - 1] == h[i - 1]);
        assert Delivers(c, start, all, g, i, j);
      } else {
        assert Delivers(c, start, all, g, i, |inputs|);
      }
    }
  }

  lemma SignedExactly(c: Crypto, key: PqPublicKey, input: Input)
    ensures PqSigned(c, key, StateSigningPayload(input.record), input.sigs.pq) <==> SignedBy(c, key, input.record, input)
  {
  }

  /** The rotation check passes exactly for a record of the same xid that the signatures authorise. */
  lemma RotationExactly(c: Crypto, a: bytes, input: Input)
    requires Decodable(a) && Decodable(input.record)
    ensures var r := CheckRotation(c, Rec(input.record), Rec(a).xid, Rec(a).control,
                                   StateSigningPayload(input.record), input.sigs);
            (r.Ok? <==> Rec(input.record).xid == Rec(a).xid && Authorises(c, a, input.record, input))
            && (r.Err? && Rec(input.record).xid == Rec(a).xid ==> r == Err(BadSignature))
  {
    hide RecordFromBytes, StateSigningPayload, PqSigned, SignedBy;
    SignedExactly(c, Rec(a).control, input);
    SignedExactly(c, Rec(input.record).control, input);
  }

  /** The trust after accepting a first record: an anchor is kept, an inception needs none, and a
      migration pins its own record. */
  ghost function Opened(c: Crypto, t: Trust, b: bytes): Trust
    requires Decodable(b)
  {
    Trust(if t.anchor.None? && Rec(b).xid != c.sha256(XidPreimage(Rec(b).control)) then Some(c.sha256(b)) else t.anchor,
          Some(Head(c.sha256(b), Rec(b))), None, false)
  }

  /** Which records a fresh verifier accepts, and what it then holds. */
  lemma FirstExactly(c: Crypto, t: Trust, input: Input)
    requires Fresh(t)
    ensures Observe(c, t, input).Ok? <==>
            Decodable(input.record) && Rec(input.record).seqno == 1
            && (t.anchor.Some? ==> t.anchor.value == c.sha256(input.record))
            && Opens(c, t.anchor.Some?, input.record, input)
    ensures Observe(c, t, input).Ok? ==> Observe(c, t, input) == Ok(Opened(c, t, input.record))
  {
    hide RecordFromBytes, StateSigningPayload, PqSigned, XidPreimage, SignedBy;
    if Decodable(input.record) {
      SignedExactly(c, Rec(input.record).control, input);
    }
  }

  lemma FirstStep(c: Crypto, start: Trust, inputs: seq<Input>, t: Trust, input: Input)
    requires Describes(c, start, inputs, t, []) && !t.forked
    ensures var next := Step(c, t, input);
            Describes(c, start, inputs + [input], next, Extend([], t, next, input.record))
  {
    hide RecordFromBytes, StateSigningPayload, Opens, Observe, AllDelivered, XidPreimage;
    FirstExactly(c, t, input);
    if Observe(c, t, input).Ok? {
      var b := input.record;
      ChainSnoc(c, [], b);
      DeliveredSnoc(c, start, inputs, [], input, [b]);
      assert [] + [b] == [b];
    } else {
      var none: seq<bytes> := [];
      DeliveredSnoc(c, start, inputs, none, input, none);
      assert none + none == none;
    }
  }

  /** The record is the accepted head again, or the anchored first record. */
  ghost predicate Known(c: Crypto, t: Trust, b: bytes) {
    Decodable(b) && t.head.Some?
    && (t.head.value.digest == c.sha256(b) || (Rec(b).seqno == 1 && t.anchor == Some(c.sha256(b))))
  }

  /** The record follows the head of the history, and its signatures authorise that. */
  ghost predicate Follows(c: Crypto, h: seq<bytes>, input: Input) {
    h != [] && Link(c, h[|h| - 1], input.record) && Authorises(c, h[|h| - 1], input.record, input)
  }

  /** The record follows the one before the head, and its signatures authorise that. */
  ghost predicate Rivals(c: Crypto, h: seq<bytes>, input: Input) {
    |h| >= 2 && Link(c, h[|h| - 2], input.record) && Authorises(c, h[|h| - 2], input.record, input)
  }

  ghost function Advanced(c: Crypto, t: Trust, last: bytes, b: bytes): Trust
    requires Decodable(last) && Decodable(b)
  {
    Trust(t.anchor, Some(Head(c.sha256(b), Rec(b))), Some(Parent(Rec(last).control, c.sha256(last), Rec(b).seqno)), false)
  }

  /** What an established verifier does with any record: one it knows changes nothing, an authorised
      successor becomes the head, an authorised rival of the head forks, all else is refused. */
  lemma LaterExactly(c: Crypto, start: Trust, inputs: seq<Input>, t: Trust, h: seq<bytes>, input: Input)
    requires Describes(c, start, inputs, t, h) && !t.forked && h != []
    ensures Observe(c, t, input).Ok? <==> Known(c, t, input.record) || Follows(c, h, input) || Rivals(c, h, input)
    ensures Known(c, t, input.record) ==> Observe(c, t, input) == Ok(t)
    ensures !Known(c, t, input.record) && Follows(c, h, input) ==>
              Observe(c, t, input) == Ok(Advanced(c, t, h[|h| - 1], input.record))
    ensures !Known(c, t, input.record) && Rivals(c, h, input) ==> Observe(c, t, input) == Ok(t.(forked := true))
  {
    hide RecordFromBytes, StateSigningPayload, CheckRotation, Authorises, AllDelivered, ValidChain;
    if Decodable(input.record) {
      LastOfChain(c, h);
      RecordsAreSmall(input.record);
      RotationExactly(c, h[|h| - 1], input);
      if |h| >= 2 {
        RotationExactly(c, h[|h| - 2], input);
      }
    }
  }

  /** A record in the right place with the wrong signatures is refused for them. */
  lemma UnsignedSuccessor(c: Crypto, start: Trust, inputs: seq<Input>, t: Trust, h: seq<bytes>, input: Input)
    requires Describes(c, start, inputs, t, h) && !t.forked && h != [] && !Known(c, t, input.record)
    requires Link(c, h[|h| - 1], input.record) && !Authorises(c, h[|h| - 1], input.record, input)
    ensures Observe(c, t, input) == Err(BadSignature)
  {
    hide RecordFromBytes, StateSigningPayload, CheckRotation, Authorises, AllDelivered, ValidChain;
    LastOfChain(c, h);
    RecordsAreSmall(input.record);
    RotationExactly(c, h[|h| - 1], input);
  }

  lemma LastOfChain(c: Crypto, h: seq<bytes>)
    requires ValidChain(c, h) && h != []
    ensures Decodable(h[|h| - 1]) && Rec(h[|h| - 1]).seqno == |h|
    ensures |h| >= 2 ==> Decodable(h[|h| - 2]) && Rec(h[|h| - 2]).seqno == |h| - 1
                         && Rec(h[|h| - 2]).xid == Rec(h[|h| - 1]).xid
  {
    hide RecordFromBytes;
    if |h| >= 2 {
      assert Link(c, h[|h| - 2], h[|h| - 1]);
    }
  }

  lemma LaterStep(c: Crypto, start: Trust, inputs: seq<Input>, t: Trust, h: seq<bytes>, input: Input)
    requires Describes(c, start, inputs, t, h) && !t.forked && h != []
    ensures var next := Step(c, t, input);
            Describes(c, start, inputs + [input], next, Extend(h, t, next, input.record))
  {
    hide RecordFromBytes, Observe, Link, AllDelivered, Authorises;
    LaterExactly(c, start, inputs, t, h, input);
    LastOfChain(c, h);
    var b, next := input.record, Step(c, t, input);
    BothDecode(c, h, input);
    if next.head != t.head {
      var a := h[|h| - 1];
      ChainSnoc(c, h, b);
      DeliveredSnoc(c, start, inputs, h, input, [b]);
      var g := h + [b];
      assert g[|g| - 1] == b && g[|g| - 2] == a && g[0] == h[0];
    } else {
      DeliveredSnoc(c, start, inputs, h, input, []);
      assert h + [] == h;
    }
  }

  lemma BothDecode(c: Crypto, h: seq<bytes>, input: Input)
    ensures Follows(c, h, input) ==>
              Decodable(input.record) && Decodable(h[|h| - 1]) && Rec(input.record).seqno == Rec(h[|h| - 1]).seqno + 1
    ensures Rivals(c, h, input) ==> Decodable(input.record)
  {
    hide Authorises, RecordFromBytes;
  }

  lemma StepKeepsInvariant(c: Crypto, start: Trust, inputs: seq<Input>, t: Trust, h: seq<bytes>, input: Input)
    requires Describes(c, start, inputs, t, h)
    ensures var next := Step(c, t, input);
            Describes(c, start, inputs + [input], next, Extend(h, t, next, input.record))
  {
    hide RecordFromBytes, StateSigningPayload, AllDelivered, ValidChain;
    if t.forked {
      DeliveredSnoc(c, start, inputs, h, input, []);
      assert h + [] == h;
    } else if h == [] {
      FirstStep(c, start, inputs, t, input);
    } else {
      LaterStep(c, start, inputs, t, h, input);
    }
  }

  lemma NothingDescribes(c: Crypto, start: Trust)
    requires Fresh(start)
    ensures Describes(c, start, [], start, [])
  {
  }

  /** In every reachable trust the accepted heads form one valid chain, each of them came in with
      signatures that authorise it, and the trust's head, parent and anchor are the ones that
      chain dictates. */
  lemma {:induction false} ChainInvariant(c: Crypto, start: Trust, inputs: seq<Input>)
    requires Fresh(start)
    ensures Describes(c, start, inputs, Run(c, start, inputs), History(c, start, inputs))
  {
    hide Describes, Step;
    if inputs == [] {
      NothingDescribes(c, start);
    } else {
      var front, last := inputs[..|inputs| - 1], inputs[|inputs| - 1];
      ChainInvariant(c, start, front);
      StepKeepsInvariant(c, start, front, Run(c, start, front), History(c, start, front), last);
      assert front + [last] == inputs;
    }
  }

  lemma {:induction false} RunAppend(c: Crypto, t: Trust, a: seq<Input>, b: seq<Input>)
    ensures Run(c, t, a + b) == Run(c, Run(c, t, a), b)
  {
    if b == [] {
      assert a + b == a;
    } else {
      var f := b[..|b| - 1];
      RunAppend(c, t, a, f);
      assert (a + b)[..|a + b| - 1] == a + f;
    }
  }

  lemma StepKeepsAnchor(c: Crypto, t: Trust, input: Input)
    requires t.anchor.Some?
    ensures Step(c, t, input).anchor == t.anchor
  {
    hide RecordFromBytes, StateSigningPayload, CheckRotation, CheckMigrationSigs, PqSigned;
  }

  /** An anchor, once set, never changes. */
  lemma {:induction false} AnchorIsPermanent(c: Crypto, t: Trust, inputs: seq<Input>)
    requires t.anchor.Some?
    ensures Run(c, t, inputs).anchor == t.anchor
  {
    if inputs != [] {
      AnchorIsPermanent(c, t, inputs[..|inputs| - 1]);
      StepKeepsAnchor(c, Run(c, t, inputs[..|inputs| - 1]), inputs[|inputs| - 1]);
    }
  }

  /** Over any continuation of a run: a set anchor stays, a fork stays, and the accepted history
      only grows at its end. */
  lemma {:induction false} RunsOnlyExtend(c: Crypto, start: Trust, a: seq<Input>, b: seq<Input>)
    ensures Run(c, start, a).anchor.Some? ==> Run(c, start, a + b).anchor == Run(c, start, a).anchor
    ensures Run(c, start, a).forked ==> Run(c, start, a + b) == Run(c, start, a)
    ensures History(c, start, a) <= History(c, start, a + b)
  {
    hide Step;
    RunAppend(c, start, a, b);
    if Run(c, start, a).anchor.Some? {
      AnchorIsPermanent(c, Run(c, start, a), b);
    }
    if Run(c, start, a).forked {
      ForkIsFinal(c, Run(c, start, a), b, []);
    }
    if b == [] {
      assert a + b == a;
    } else {
      RunsOnlyExtend(c, start, a, b[..|b| - 1]);
      assert (a + b)[..|a + b| - 1] == a + b[..|b| - 1];
    }
  }

  /** The digest kept for the head is the digest of the record it decoded to; and of every decodable
      input, the payload whose signatures are checked is the record's own. */
  lemma HeadDigestIsRecordDigest(c: Crypto, start: Trust, inputs: seq<Input>)
    requires Fresh(start) && Run(c, start, inputs).head.Some?
    ensures var head := Run(c, start, inputs).head.value;
            head.digest == c.sha256(RecordToBytes(head.record))
    ensures forall input :: input in inputs && Decodable(input.record) ==>
              RecordToBytes(Rec(input.record)) == input.record
              && StateSigningPayload(RecordToBytes(Rec(input.record))) == StateSigningPayload(input.record)
  {
    hide Run, History, RecordFromBytes, RecordToBytes, StateSigningPayload, AllDelivered;
    ChainInvariant(c, start, inputs);
    var h := History(c, start, inputs);
    StateRecordProofs.RecordBijection(h[|h| - 1], Rec(h[|h| - 1]));
    forall input | input in inputs && Decodable(input.record)
      ensures RecordToBytes(Rec(input.record)) == input.record
    {
      StateRecordProofs.RecordBijection(input.record, Rec(input.record));
    }
  }

  /** The library's two starting trusts are fresh. */
  lemma StartsFresh(anchor: bytes)
    ensures Fresh(NewTrust()) && Fresh(WithAnchor(anchor))
  {
  }

  // ---- duplicity ----

  /** A second successor of the record before the head. */
  ghost predicate Sibling(c: Crypto, h: seq<bytes>, s: bytes) {
    |h| >= 2 && c.sha256(s) != c.sha256(h[|h| - 1]) && Link(c, h[|h| - 2], s)
  }

  lemma ForkStep(c: Crypto, start: Trust, inputs: seq<Input>, t: Trust, h: seq<bytes>, input: Input)
    requires Describes(c, start, inputs, t, h) && !t.forked && Step(c, t, input).forked
    ensures Sibling(c, h, input.record) && Authorises(c, h[|h| - 2], input.record, input)
    ensures Step(c, t, input) == t.(forked := true)
  {
    hide RecordFromBytes, Observe, Link, Authorises, AllDelivered, ValidChain;
    if h == [] {
      FirstExactly(c, t, input);
    } else {
      LaterExactly(c, start, inputs, t, h, input);
      BothDecode(c, h, input);
    }
  }

  /** A forked trust always has two signed successors of one record behind it, with different digests:
      input i brought the accepted head and input j its sibling, each with signatures that
      authorise it. */
  lemma {:induction false} ForkHasEvidence(c: Crypto, start: Trust, inputs: seq<Input>) returns (i: nat, j: nat)
    requires Fresh(start) && Run(c, start, inputs).forked
    ensures i < |inputs| && j < |inputs| && Sibling(c, History(c, start, inputs), inputs[j].record)
    ensures var h := History(c, start, inputs);
            Link(c, h[|h| - 2], h[|h| - 1]) && Authorises(c, h[|h| - 2], h[|h| - 1], inputs[i])
            && Authorises(c, h[|h| - 2], inputs[j].record, inputs[j])
  {
    hide Sibling, Link, Observe, Authorises, ValidChain;
    var front, last := inputs[..|inputs| - 1], inputs[|inputs| - 1];
    var t, h := Run(c, start, front), History(c, start, front);
    if t.forked {
      i, j := ForkHasEvidence(c, start, front);
      StuckAfterFork(c, t, last);
      assert h + [] == h;
    } else {
      ChainInvariant(c, start, front);
      ForkStep(c, start, front, t, h, last);
      assert h + [] == h;
      i := HeadDelivery(c, start, front, h, last.record);
      j := |inputs| - 1;
    }
  }

  lemma DeliveryOf(c: Crypto, start: Trust, inputs: seq<Input>, h: seq<bytes>, i: nat) returns (j: nat)
    requires AllDelivered(c, start, inputs, h) && 0 < i < |h|
    ensures j < |inputs| && Authorises(c, h[i - 1], h[i], inputs[j])
  {
    hide Authorises, Opens;
    assert HasDelivery(c, start, inputs, h, i);
    j :| Delivers(c, start, inputs, h, i, j);
  }

  lemma HeadDelivery(c: Crypto, start: Trust, inputs: seq<Input>, h: seq<bytes>, s: bytes) returns (i: nat)
    requires ValidChain(c, h) && AllDelivered(c, start, inputs, h) && Sibling(c, h, s)
    ensures Link(c, h[|h| - 2], h[|h| - 1])
    ensures i < |inputs| && Authorises(c, h[|h| - 2], h[|h| - 1], inputs[i])
  {
    hide Link, Authorises, Opens, RecordFromBytes;
    i := DeliveryOf(c, start, inputs, h, |h| - 1);
  }

  lemma StuckAfterFork(c: Crypto, t: Trust, input: Input)
    requires t.forked
    ensures Step(c, t, input) == t
  {
  }

  /** What a trust vouches for: its head, unforked, under the head's own digest and no other. */
  lemma ResolveExactly(t: Trust, digest: bytes, head: Head)
    ensures t.Resolve(digest) == Some(head) <==> !t.forked && t.head == Some(head) && head.digest == digest
    ensures t.Authority() == Some(head) <==> !t.forked && t.head == Some(head)
  {
  }

  /** After a fork nothing restores authority. */
  lemma {:induction false} ForkIsFinal(c: Crypto, t: Trust, inputs: seq<Input>, digest: bytes)
    requires t.forked
    ensures Run(c, t, inputs) == t
    ensures Run(c, t, inputs).Authority() == None && Run(c, t, inputs).Resolve(digest) == None
  {
    if inputs != [] {
      ForkIsFinal(c, t, inputs[..|inputs| - 1], digest);
      StuckAfterFork(c, t, inputs[|inputs| - 1]);
    }
  }

  /** A record that follows t's head, with signatures that authorise it. */
  ghost predicate ValidSuccessor(c: Crypto, t: Trust, input: Input) {
    t.head.Some? && Decodable(input.record) && c.sha256(input.record) != t.head.value.digest &&
    var r, head := Rec(input.record), t.head.value;
    r.prev == Some(head.digest) && r.seqno == head.record.seqno + 1 && r.seqno > 1 && r.xid == head.record.xid &&
    SignedBy(c, head.record.control, input.record, input) &&
    (r.control != head.record.control ==> SignedBy(c, r.control, input.record, input))
  }

  lemma SuccessorIsAccepted(c: Crypto, t: Trust, a: Input)
    requires !t.forked && ValidSuccessor(c, t, a)
    ensures Step(c, t, a)
            == Trust(t.anchor, Some(Head(c.sha256(a.record), Rec(a.record))),
                     Some(Parent(t.head.value.record.control, t.head.value.digest, Rec(a.record).seqno)), false)
  {
    hide RecordFromBytes, StateSigningPayload, PqSigned, SignedBy;
    RecordsAreSmall(a.record);
    SignedExactly(c, t.head.value.record.control, a);
    SignedExactly(c, Rec(a.record).control, a);
  }

  lemma RivalForks(c: Crypto, t: Trust, a: Input, b: Input)
    requires !t.forked && ValidSuccessor(c, t, a) && ValidSuccessor(c, t, b)
    requires c.sha256(a.record) != c.sha256(b.record)
    ensures Step(c, Step(c, t, a), b) == Step(c, t, a).(forked := true)
  {
    hide RecordFromBytes, StateSigningPayload, PqSigned, SignedBy;
    SuccessorIsAccepted(c, t, a);
    SignedExactly(c, t.head.value.record.control, b);
    SignedExactly(c, Rec(b.record).control, b);
  }

  /** Two distinct valid successors of one head fork the trust, whichever comes first. */
  lemma DuplicityForks(c: Crypto, t: Trust, a: Input, b: Input)
    requires !t.forked && ValidSuccessor(c, t, a) && ValidSuccessor(c, t, b)
    requires c.sha256(a.record) != c.sha256(b.record)
    ensures Run(c, t, [a, b]).forked && Run(c, t, [b, a]).forked
  {
    hide ValidSuccessor, Observe;
    RivalForks(c, t, a, b);
    RivalForks(c, t, b, a);
    RunTwo(c, t, a, b);
    RunTwo(c, t, b, a);
  }

  lemma RunTwo(c: Crypto, t: Trust, a: Input, b: Input)
    ensures Run(c, t, [a, b]) == Step(c, Step(c, t, a), b)
  {
    assert [a, b][..1] == [a] && [a][..0] == [];
    assert Run(c, t, [a]) == Step(c, t, a);
  }

  /** Which single inputs fork an unforked reachable trust: exactly the signed siblings of the
      head. A sibling that arrives after the head has moved on is not among them. */
  lemma ForkExactly(c: Crypto, start: Trust, inputs: seq<Input>, t: Trust, h: seq<bytes>, input: Input)
    requires Describes(c, start, inputs, t, h) && !t.forked
    ensures Step(c, t, input).forked <==>
            Sibling(c, h, input.record) && Authorises(c, h[|h| - 2], input.record, input)
  {
    hide RecordFromBytes, Observe, Authorises, AllDelivered, ValidChain;
    if h == [] {
      FirstExactly(c, t, input);
    } else {
      LaterExactly(c, start, inputs, t, h, input);
      LastOfChain(c, h);
    }
  }

  // ---- two verifiers ----

  ghost predicate CollisionFree(c: Crypto, s: seq<bytes>) {
    forall a, b :: a in s && b in s && c.sha256(a) == c.sha256(b) ==> a == b
  }

  lemma {:induction false} FirstDifference(a: seq<bytes>, b: seq<bytes>) returns (i: nat)
    requires !(a <= b) && !(b <= a)
    ensures i < |a| && i < |b| && a[..i] == b[..i] && a[i] != b[i]
  {
    i := 0;
    while i < |a| && i < |b| && a[i] == b[i]
      invariant i <= |a| && i <= |b| && a[..i] == b[..i]
    {
      i := i + 1;
    }
  }

  /** Accountability: two verifiers that accepted the same first record and then went separate ways
      hold two different successors of one record, and each received, with its own, signatures
      by that record's control key. */
  lemma Accountability(c: Crypto, start1: Trust, inputs1: seq<Input>, start2: Trust, inputs2: seq<Input>)
    returns (i: nat, j1: nat, j2: nat)
    requires Fresh(start1) && Fresh(start2)
    requires History(c, start1, inputs1) != [] && History(c, start2, inputs2) != []
    requires History(c, start1, inputs1)[0] == History(c, start2, inputs2)[0]
    requires !(History(c, start1, inputs1) <= History(c, start2, inputs2))
    requires !(History(c, start2, inputs2) <= History(c, start1, inputs1))
    ensures Diverge(c, History(c, start1, inputs1), History(c, start2, inputs2), i)
    ensures j1 < |inputs1| && j2 < |inputs2|
    ensures var h1, h2 := History(c, start1, inputs1), History(c, start2, inputs2);
            Authorises(c, h1[i - 1], h1[i], inputs1[j1]) && Authorises(c, h1[i - 1], h2[i], inputs2[j2])
  {
    hide Run, History, RecordFromBytes, Authorises, AllDelivered;
    var h1, h2 := History(c, start1, inputs1), History(c, start2, inputs2);
    ChainInvariant(c, start1, inputs1);
    ChainInvariant(c, start2, inputs2);
    i := FirstDifference(h1, h2);
    assert i > 0;
    assert h1[i - 1] == h1[..i][i - 1] && h2[i - 1] == h2[..i][i - 1];
    assert Link(c, h1[i - 1], h1[i]) && Link(c, h2[i - 1], h2[i]);
    j1 := DeliveryOf(c, start1, inputs1, h1, i);
    j2 := DeliveryOf(c, start2, inputs2, h2, i);
  }

  /** Two histories part at i: the same before, two different records there with the same predecessor,
      number and xid. */
  ghost predicate Diverge(c: Crypto, h1: seq<bytes>, h2: seq<bytes>, i: nat) {
    0 < i < |h1| && i < |h2| && h1[..i] == h2[..i] && h1[i] != h2[i] &&
    Link(c, h1[i - 1], h1[i]) && Link(c, h1[i - 1], h2[i]) &&
    Rec(h1[i]).prev == Rec(h2[i]).prev && Rec(h1[i]).seqno == Rec(h2[i]).seqno && Rec(h1[i]).xid == Rec(h2[i]).xid
  }

  lemma SameLastSamePrevious(c: Crypto, h1: seq<bytes>, h2: seq<bytes>)
    requires ValidChain(c, h1) && ValidChain(c, h2) && h1 != [] && h2 != []
    requires h1[|h1| - 1] == h2[|h2| - 1]
    requires CollisionFree(c, h1 + h2)
    ensures |h1| == |h2|
    ensures |h1| > 1 ==> h1[|h1| - 2] == h2[|h1| - 2]
  {
    hide RecordFromBytes;
    var n := |h1|;
    assert Rec(h1[n - 1]).seqno == n && Rec(h2[|h2| - 1]).seqno == |h2|;
    if n > 1 {
      assert Link(c, h1[n - 2], h1[n - 1]) && Link(c, h2[n - 2], h2[n - 1]);
      assert h1[n - 2] in h1 && h2[n - 2] in h2;
    }
  }

  lemma {:induction false} SameLastSameChain(c: Crypto, h1: seq<bytes>, h2: seq<bytes>)
    requires ValidChain(c, h1) && ValidChain(c, h2) && h1 != [] && h2 != []
    requires h1[|h1| - 1] == h2[|h2| - 1]
    requires CollisionFree(c, h1 + h2)
    ensures h1 == h2
    decreases |h1|
  {
    hide ValidChain, CollisionFree;
    SameLastSamePrevious(c, h1, h2);
    var n := |h1|;
    var g1, g2 := h1[..n - 1], h2[..n - 1];
    if n > 1 {
      ChainPrefix(c, h1);
      ChainPrefix(c, h2);
      FewerRecords(c, h1, h2);
      SameLastSameChain(c, g1, g2);
    } else {
      assert g1 == g2 == [];
    }
    assert h1 == g1 + [h1[n - 1]] && h2 == g2 + [h2[n - 1]];
  }

  lemma FewerRecords(c: Crypto, h1: seq<bytes>, h2: seq<bytes>)
    requires h1 != [] && h2 != [] && CollisionFree(c, h1 + h2)
    ensures CollisionFree(c, h1[..|h1| - 1] + h2[..|h2| - 1])
  {
    assert forall b :: b in h1[..|h1| - 1] + h2[..|h2| - 1] ==> b in h1 + h2;
  }

  lemma ChainPrefix(c: Crypto, h: seq<bytes>)
    requires ValidChain(c, h) && h != []
    ensures ValidChain(c, h[..|h| - 1])
  {
    hide Link, RecordFromBytes;
    var g := h[..|h| - 1];
    forall i | 0 < i < |g|
      ensures Link(c, g[i - 1], g[i])
    {
      assert g[i - 1] == h[i - 1] && g[i] == h[i];
    }
  }

  /** With no digest collision among the accepted records, equal head digests mean equal histories. */
  lemma EqualHeadsEqualHistories(c: Crypto, start1: Trust, inputs1: seq<Input>, start2: Trust, inputs2: seq<Input>)
    requires Fresh(start1) && Fresh(start2)
    requires Run(c, start1, inputs1).head.Some? && Run(c, start2, inputs2).head.Some?
    requires Run(c, start1, inputs1).head.value.digest == Run(c, start2, inputs2).head.value.digest
    requires CollisionFree(c, History(c, start1, inputs1) + History(c, start2, inputs2))
    ensures History(c, start1, inputs1) == History(c, start2, inputs2)
  {
    hide Run, History, RecordFromBytes, ValidChain;
    var h1, h2 := History(c, start1, inputs1), History(c, start2, inputs2);
    ChainInvariant(c, start1, inputs1);
    ChainInvariant(c, start2, inputs2);
    assert h1[|h1| - 1] in h1 && h2[|h2| - 1] in h2;
    SameLastSameChain(c, h1, h2);
  }

  // ---- convergence on one chain ----

  /** The records of one chain, signatures aside. */
  ghost predicate SoundChain(c: Crypto, ch: seq<bytes>) {
    (forall i :: 0 <= i < |ch| ==> Decodable(ch[i]) && Rec(ch[i]).seqno == i + 1) &&
    (forall i :: 0 < i < |ch| ==> Rec(ch[i]).prev == Some(c.sha256(ch[i - 1])))
  }

  /** Index in the chain of the current head; -1 before the first record. */
  function Position(t: Trust): int {
    if t.head.None? then -1 else t.head.value.record.seqno - 1
  }

  ghost predicate OnChain(c: Crypto, ch: seq<bytes>, start: Trust, t: Trust)
    requires SoundChain(c, ch)
  {
    var k := Position(t);
    !t.forked && -1 <= k < |ch| &&
    (k == -1 ==> t == start) &&
    (k >= 0 ==> t.head == Some(Head(c.sha256(ch[k]), Rec(ch[k])))) &&
    (k <= 0 ==> t.parent.None?) &&
    (k > 0 ==> t.parent == Some(Parent(Rec(ch[k - 1]).control, c.sha256(ch[k - 1]), k + 1)))
  }

  lemma OnChainStep(c: Crypto, ch: seq<bytes>, start: Trust, t: Trust, input: Input)
    requires SoundChain(c, ch) && Fresh(start) && OnChain(c, ch, start, t) && input.record in ch
    ensures OnChain(c, ch, start, Step(c, t, input))
    ensures Position(t) <= Position(Step(c, t, input)) <= Position(t) + 1
  {
    hide RecordFromBytes, StateSigningPayload, CheckRotation, CheckMigrationSigs, PqSigned, XidForControlKey;
    var j :| 0 <= j < |ch| && ch[j] == input.record;
    var next := Step(c, t, input);
    if next != t && Position(t) >= 0 {
      assert j == Position(t) + 1 || j == Position(t);
    }
  }

  /** Any duplication, reordering or replay of one chain's records: no fork, no step back. */
  lemma {:induction false} NeverForksOnOneChain(c: Crypto, ch: seq<bytes>, start: Trust, inputs: seq<Input>)
    requires SoundChain(c, ch) && Fresh(start)
    requires forall i :: 0 <= i < |inputs| ==> inputs[i].record in ch
    ensures OnChain(c, ch, start, Run(c, start, inputs))
    ensures inputs != [] ==> Position(Run(c, start, inputs[..|inputs| - 1])) <= Position(Run(c, start, inputs))
  {
    hide Observe, SoundChain, OnChain, Position;
    if inputs == [] {
      EmptyOnChain(c, ch, start);
    } else {
      var front := inputs[..|inputs| - 1];
      NeverForksOnOneChain(c, ch, start, front);
      OnChainStep(c, ch, start, Run(c, start, front), inputs[|inputs| - 1]);
    }
  }

  lemma EmptyOnChain(c: Crypto, ch: seq<bytes>, start: Trust)
    requires SoundChain(c, ch) && Fresh(start)
    ensures OnChain(c, ch, start, start)
  {
  }

  /** The input delivers record `i` of the chain with signatures that authorise it. */
  ghost predicate Delivery(c: Crypto, ch: seq<bytes>, start: Trust, i: nat, input: Input)
    requires SoundChain(c, ch) && i < |ch|
  {
    if i == 0 then
      Opens(c, start.anchor.Some?, ch[0], input) && (start.anchor.Some? ==> start.anchor.value == c.sha256(ch[0]))
    else Link(c, ch[i - 1], ch[i]) && Authorises(c, ch[i - 1], ch[i], input)
  }

  /** The first n records of the chain occur in order, properly signed, among the inputs. */
  ghost predicate Delivered(c: Crypto, ch: seq<bytes>, start: Trust, inputs: seq<Input>, n: nat)
    requires SoundChain(c, ch) && n <= |ch|
  {
    n == 0 ||
    (inputs != [] &&
     var front, last := inputs[..|inputs| - 1], inputs[|inputs| - 1];
     (Delivered(c, ch, start, front, n) ||
      (Delivery(c, ch, start, n - 1, last) && Delivered(c, ch, start, front, n - 1))))
  }

  lemma RecordsAreSmall(b: bytes)
    requires Decodable(b)
    ensures Rec(b).seqno < U64
  {
    StateRecordProofs.RecordBijection(b, Rec(b));
  }

  lemma DeliveryAdvances(c: Crypto, ch: seq<bytes>, start: Trust, t: Trust, input: Input)
    requires SoundChain(c, ch) && Fresh(start) && CollisionFree(c, ch)
    requires OnChain(c, ch, start, t) && Position(t) + 1 < |ch|
    requires Delivery(c, ch, start, Position(t) + 1, input)
    ensures Position(Step(c, t, input)) == Position(t) + 1
  {
    hide RecordFromBytes, StateSigningPayload, CheckRotation, PqSigned, XidForControlKey, FirstRecord;
    var k := Position(t) + 1;
    RecordsAreSmall(ch[k]);
    if k == 0 {
      FirstExactly(c, t, input);
    } else {
      RotationExactly(c, ch[k - 1], input);
      assert Rec(ch[k]).seqno != Rec(ch[k - 1]).seqno;
      assert c.sha256(ch[k]) != c.sha256(ch[k - 1]);
    }
  }

  /** Convergence: once the chain has been delivered in order, whatever else came in between,
      the head is the chain's last record. */
  lemma {:induction false} Convergence(c: Crypto, ch: seq<bytes>, start: Trust, inputs: seq<Input>, n: nat)
    requires SoundChain(c, ch) && Fresh(start) && CollisionFree(c, ch) && n <= |ch|
    requires forall i :: 0 <= i < |inputs| ==> inputs[i].record in ch
    requires Delivered(c, ch, start, inputs, n)
    ensures Position(Run(c, start, inputs)) >= n - 1
    ensures n == |ch| > 0 ==>
              Run(c, start, inputs).Authority() == Some(Head(c.sha256(ch[n - 1]), Rec(ch[n - 1])))
  {
    hide Observe, SoundChain, Delivery, RecordFromBytes;
    NeverForksOnOneChain(c, ch, start, inputs);
    if n > 0 {
      var front, last := inputs[..|inputs| - 1], inputs[|inputs| - 1];
      var t := Run(c, start, front);
      NeverForksOnOneChain(c, ch, start, front);
      if Delivered(c, ch, start, front, n) {
        Convergence(c, ch, start, front, n);
      } else {
        Convergence(c, ch, start, front, n - 1);
        if Position(t) == n - 2 {
          DeliveryAdvances(c, ch, start, t, last);
        }
      }
    }
  }
}
