/** Exactly when each share operation succeeds, what it leaves, and who has access after any run. */
module ShareExact {
  import opened Basics
  import opened Share
  import opened ShareRuns

  // ---- who has access ----

  /** The access set: direct targets in order, capsule holders as (backend, recipient), the epoch. */
  datatype Access = Access(targets: seq<WrapPublic>, holders: multiset<(bytes, bytes)>, epoch: nat)

  function Holder(c: RecryptCapsule): (bytes, bytes) {
    (c.backend, c.recipient)
  }

  function HolderList(cs: seq<RecryptCapsule>): seq<(bytes, bytes)> {
    seq(|cs|, i requires 0 <= i < |cs| => Holder(cs[i]))
  }

  function Holders(cs: seq<RecryptCapsule>): multiset<(bytes, bytes)> {
    multiset(HolderList(cs))
  }

  function RequestedList(rs: seq<RecryptPublic>): seq<(bytes, bytes)> {
    seq(|rs|, i requires 0 <= i < |rs| => (rs[i].backend, rs[i].key))
  }

  function Requested(rs: seq<RecryptPublic>): multiset<(bytes, bytes)> {
    multiset(RequestedList(rs))
  }

  function AccessOf(share: Share): Access {
    Access(share.targets, Holders(share.recrypt), share.epoch)
  }

  // ---- sealing ----

  lemma {:induction false} SealAllExactly(p: Primitives, rs: seq<WrapPublic>, n: nat, dek: bytes, epoch: nat,
                                          coins: nat -> bytes)
    requires n <= |rs|
    ensures SealAll(p, rs, n, dek, epoch, coins).Ok? <==>
            forall i :: 0 <= i < n ==> p.sealDek(rs[i], dek, epoch, coins(i)).Ok?
    ensures SealAll(p, rs, n, dek, epoch, coins).Ok? ==>
            var ws := SealAll(p, rs, n, dek, epoch, coins).value;
            |ws| == n && forall i :: 0 <= i < n ==> p.sealDek(rs[i], dek, epoch, coins(i)) == Ok(ws[i])
  {
    if n > 0 {
      SealAllExactly(p, rs, n - 1, dek, epoch, coins);
    }
  }

  ghost predicate Encapsulates(p: Primitives, r: RecryptPublic, dek: bytes) {
    p.encapsulate(r.backend, r.key, dek).Ok? && p.encapsulate(r.backend, r.key, dek).value != []
  }

  lemma {:induction false} EncapsulateAllExactly(p: Primitives, rs: seq<RecryptPublic>, n: nat, dek: bytes)
    requires n <= |rs|
    ensures EncapsulateAll(p, rs, n, dek).Ok? <==> forall i :: 0 <= i < n ==> Encapsulates(p, rs[i], dek)
    ensures EncapsulateAll(p, rs, n, dek).Ok? ==>
            var cs := EncapsulateAll(p, rs, n, dek).value;
            |cs| == n &&
            forall i :: 0 <= i < n ==>
              cs[i] == RecryptCapsule(rs[i].backend, rs[i].key, p.encapsulate(rs[i].backend, rs[i].key, dek).value)
  {
    if n > 0 {
      EncapsulateAllExactly(p, rs, n - 1, dek);
    }
  }

  /** Sealing succeeds exactly when someone is named, no one twice, and every primitive succeeds. */
  lemma SealSucceedsExactly(p: Primitives, plaintext: bytes, recipients: seq<WrapPublic>, recrypt: seq<RecryptPublic>,
                            epoch: nat, dek: bytes, nonce: bytes, coins: nat -> bytes)
    ensures SealMixed(p, plaintext, recipients, recrypt, epoch, dek, nonce, coins).Ok? <==>
            (recipients != [] || recrypt != []) && AllDistinct(p, recipients)
            && (forall i, j :: 0 <= i < j < |recrypt| ==> recrypt[i] != recrypt[j])
            && p.encrypt(dek, nonce, plaintext).Ok?
            && (forall i :: 0 <= i < |recipients| ==> p.sealDek(recipients[i], dek, epoch, coins(i)).Ok?)
            && (forall i :: 0 <= i < |recrypt| ==> Encapsulates(p, recrypt[i], dek))
  {
    hide RejectDuplicateDirect, RejectDuplicateRecrypt, SealAll, EncapsulateAll, AllDistinct, Encapsulates;
    DirectCheckExactly(p, recipients);
    RecryptCheckExactly(recrypt);
    SealAllExactly(p, recipients, |recipients|, dek, epoch, coins);
    EncapsulateAllExactly(p, recrypt, |recrypt|, dek);
  }

  /** What is sealed: the given epoch and nonce, the plaintext under the given key, a wrap of that key
      per recipient in order, a capsule of it per re-encryption recipient, and access for exactly the
      requested ones. */
  lemma SealedExactly(p: Primitives, plaintext: bytes, recipients: seq<WrapPublic>, recrypt: seq<RecryptPublic>,
                      epoch: nat, dek: bytes, nonce: bytes, coins: nat -> bytes)
    requires SealMixed(p, plaintext, recipients, recrypt, epoch, dek, nonce, coins).Ok?
    ensures var s := SealMixed(p, plaintext, recipients, recrypt, epoch, dek, nonce, coins).value;
            s.nonce == nonce && p.encrypt(dek, nonce, plaintext) == Ok(s.ciphertext)
            && AccessOf(s) == Access(recipients, Requested(recrypt), epoch)
            && |s.wraps| == |recipients|
            && forall i :: 0 <= i < |recipients| ==> p.sealDek(recipients[i], dek, epoch, coins(i)) == Ok(s.wraps[i])
  {
    hide RejectDuplicateDirect, RejectDuplicateRecrypt, SealAll, EncapsulateAll, Encapsulates, Holders, Requested;
    SealAllExactly(p, recipients, |recipients|, dek, epoch, coins);
    EncapsulateAllExactly(p, recrypt, |recrypt|, dek);
    HoldersAreRequested(SealMixed(p, plaintext, recipients, recrypt, epoch, dek, nonce, coins).value.recrypt, recrypt);
  }

  lemma HoldersAreRequested(cs: seq<RecryptCapsule>, rs: seq<RecryptPublic>)
    requires |cs| == |rs| && forall i :: 0 <= i < |cs| ==> cs[i].backend == rs[i].backend && cs[i].recipient == rs[i].key
    ensures Holders(cs) == Requested(rs)
  {
    assert HolderList(cs) == RequestedList(rs);
  }

  // ---- adding and rotating ----

  /** Adding succeeds exactly for a new recipient whose key no wrap answers to, by an opener, if the seal
      succeeds; it adds that one wrap and target and touches nothing else. */
  lemma AddExactly(p: Primitives, owns: Owns, share: Share, dek: bytes, plaintext: bytes,
                   opener: WrapSecret, recipient: WrapPublic, coins: bytes)
    requires Holds(p, owns, share, dek, plaintext)
    ensures AddRecipient(p, share, opener, recipient, coins).Ok? <==>
            recipient !in share.targets && p.encapsulation(recipient).Ok?
            && (forall w :: w in share.wraps ==> w.recipient != p.encapsulation(recipient).value)
            && IsTarget(p, share, opener) && p.sealDek(recipient, dek, share.epoch, coins).Ok?
    ensures AddRecipient(p, share, opener, recipient, coins).Ok? ==>
            var next := AddRecipient(p, share, opener, recipient, coins).value;
            |next.wraps| == |share.wraps| + 1 && share.wraps <= next.wraps
            && p.sealDek(recipient, dek, share.epoch, coins) == Ok(next.wraps[|share.wraps|])
            && AccessOf(next) == AccessOf(share).(targets := share.targets + [recipient])
            && next.recrypt == share.recrypt && next.nonce == share.nonce && next.ciphertext == share.ciphertext
  {
    hide Holds, OpenDek, IsTarget, FindWrap, Expected;
    OpenDekExactly(p, owns, share, dek, plaintext, opener);
    if p.encapsulation(recipient).Ok? {
      FindWrapProps(share.wraps, p.encapsulation(recipient).value);
    }
  }

  /** Rotating succeeds exactly without capsules, for distinct recipients, by an opener, if the seals
      succeed; it leaves exactly the new recipients at the new epoch, and the payload alone. */
  lemma RotateExactly(p: Primitives, owns: Owns, share: Share, dek: bytes, plaintext: bytes,
                      opener: WrapSecret, recipients: seq<WrapPublic>, epoch: nat, coins: nat -> bytes)
    requires Holds(p, owns, share, dek, plaintext)
    ensures Rotate(p, share, opener, recipients, epoch, coins).Ok? <==>
            share.recrypt == [] && recipients != [] && AllDistinct(p, recipients) && IsTarget(p, share, opener)
            && forall i :: 0 <= i < |recipients| ==> p.sealDek(recipients[i], dek, epoch, coins(i)).Ok?
    ensures Rotate(p, share, opener, recipients, epoch, coins).Ok? ==>
            var next := Rotate(p, share, opener, recipients, epoch, coins).value;
            AccessOf(next) == Access(recipients, multiset{}, epoch) && |next.wraps| == |recipients|
            && (forall i :: 0 <= i < |recipients| ==> p.sealDek(recipients[i], dek, epoch, coins(i)) == Ok(next.wraps[i]))
            && next.nonce == share.nonce && next.ciphertext == share.ciphertext
  {
    hide Holds, OpenDek, IsTarget, Expected, SealAll, RejectDuplicateDirect, AllDistinct;
    OpenDekExactly(p, owns, share, dek, plaintext, opener);
    DirectCheckExactly(p, recipients);
    SealAllExactly(p, recipients, |recipients|, dek, epoch, coins);
  }

  // ---- transforming ----

  ghost predicate Listed(share: Share, backend: bytes, recipient: bytes) {
    exists c :: c in share.recrypt && c.backend == backend && c.recipient == recipient
  }

  lemma UpdateMultiset<T>(xs: seq<T>, i: nat, x: T)
    requires i < |xs|
    ensures multiset(xs[i := x]) == multiset(xs) - multiset{xs[i]} + multiset{x}
  {
    assert xs == xs[..i] + [xs[i]] + xs[i + 1..];
    assert xs[i := x] == xs[..i] + [x] + xs[i + 1..];
  }

  lemma HoldersUpdate(cs: seq<RecryptCapsule>, i: nat, c: RecryptCapsule)
    requires i < |cs|
    ensures Holder(cs[i]) in Holders(cs)
    ensures Holders(cs[i := c]) == Holders(cs) - multiset{Holder(cs[i])} + multiset{Holder(c)}
  {
    var hs := HolderList(cs);
    assert HolderList(cs[i := c]) == hs[i := Holder(c)];
    assert hs[i] == Holder(cs[i]);
    UpdateMultiset(hs, i, Holder(c));
  }

  lemma HoldersListed(cs: seq<RecryptCapsule>, backend: bytes, recipient: bytes)
    ensures (backend, recipient) in Holders(cs) <==> exists c :: c in cs && c.backend == backend && c.recipient == recipient
  {
    var hs := HolderList(cs);
    assert (backend, recipient) in Holders(cs) <==> (backend, recipient) in hs;
    if c :| c in cs && c.backend == backend && c.recipient == recipient {
      var i :| 0 <= i < |cs| && cs[i] == c;
      assert hs[i] == (backend, recipient);
    }
    if (backend, recipient) in hs {
      var i :| 0 <= i < |hs| && hs[i] == (backend, recipient);
      assert cs[i] in cs;
    }
  }

  /** A transform replaces one capsule of (backend, from) by one of (backend, to) that carries the
      transformed ciphertext, and touches nothing else. */
  lemma TransformExactly(p: Primitives, share: Share, backend: bytes, from: bytes, to: RecryptPublic, key: bytes)
    returns (was: RecryptCapsule)
    requires TransformRecrypt(p, share, backend, from, to, key).Ok?
    ensures var next := TransformRecrypt(p, share, backend, from, to, key).value;
            was in share.recrypt && was.backend == backend && was.recipient == from && to.backend == backend
            && p.transform(backend, key, was.ciphertext).Ok?
            && multiset(next.recrypt) == multiset(share.recrypt) - multiset{was}
                 + multiset{RecryptCapsule(backend, to.key, p.transform(backend, key, was.ciphertext).value)}
            && AccessOf(next) == AccessOf(share).(holders := Holders(share.recrypt) - multiset{(backend, from)} + multiset{(backend, to.key)})
            && next == share.(recrypt := next.recrypt)
  {
    hide FindCapsule, Holders;
    FindCapsuleProps(share.recrypt, backend, from);
    var i := FindCapsule(share.recrypt, backend, from).value;
    was := share.recrypt[i];
    var made := RecryptCapsule(backend, to.key, p.transform(backend, key, was.ciphertext).value);
    HoldersUpdate(share.recrypt, i, made);
    UpdateMultiset(share.recrypt, i, made);
  }

  /** And it succeeds exactly within one backend, from a listed to an unlisted recipient, when the backend
      yields a ciphertext for the first capsule of the old one. */
  lemma TransformSucceedsExactly(p: Primitives, share: Share, backend: bytes, from: bytes, to: RecryptPublic, key: bytes)
    ensures TransformRecrypt(p, share, backend, from, to, key).Ok? <==>
            to.backend == backend && !Listed(share, backend, to.key) &&
            exists i :: 0 <= i < |share.recrypt| && Holder(share.recrypt[i]) == (backend, from)
              && (forall j :: 0 <= j < i ==> Holder(share.recrypt[j]) != (backend, from))
              && p.transform(backend, key, share.recrypt[i].ciphertext).Ok?
              && p.transform(backend, key, share.recrypt[i].ciphertext).value != []
  {
    hide FindCapsule;
    FindCapsuleProps(share.recrypt, backend, from);
    FindCapsuleProps(share.recrypt, backend, to.key);
    FindsFirst(share.recrypt, backend, from);
    var i := FindCapsule(share.recrypt, backend, from);
    if FindCapsule(share.recrypt, backend, to.key).Some? {
      assert share.recrypt[FindCapsule(share.recrypt, backend, to.key).value] in share.recrypt;
    }
    if i.Some? {
      assert Holder(share.recrypt[i.value]) == (backend, from);
    } else {
      assert forall k :: 0 <= k < |share.recrypt| ==> share.recrypt[k] in share.recrypt;
    }
  }

  lemma {:induction false} FindsFirst(cs: seq<RecryptCapsule>, backend: bytes, recipient: bytes)
    ensures FindCapsule(cs, backend, recipient).Some? ==>
            var i := FindCapsule(cs, backend, recipient).value;
            i < |cs| && forall j :: 0 <= j < i ==> Holder(cs[j]) != (backend, recipient)
  {
    if cs != [] {
      FindsFirst(cs[1..], backend, recipient);
    }
  }

  /** So afterwards the new recipient reads the plaintext, and the old one finds no capsule. */
  lemma TransformMoves(p: Primitives, owns: Owns, share: Share, dek: bytes, plaintext: bytes,
                       backend: bytes, from: bytes, to: RecryptPublic, key: bytes, newSecret: bytes, oldSecret: bytes)
    requires Holds(p, owns, share, dek, plaintext) && TransformLeads(p, owns, backend, from, to.key, key)
    requires TransformRecrypt(p, share, backend, from, to, key).Ok? && owns(backend, to.key, newSecret)
    ensures var next := TransformRecrypt(p, share, backend, from, to, key).value;
            OpenRecrypt(p, next, backend, to.key, newSecret) == Ok(plaintext)
            && OpenRecrypt(p, next, backend, from, oldSecret) == Err(NoMatchingWrap)
  {
    hide OpenRecrypt, Holds, TransformLeads, TransformRecrypt, Holders;
    var next := TransformRecrypt(p, share, backend, from, to, key).value;
    TransformHolds(p, owns, share, dek, plaintext, backend, from, to, key);
    var was := TransformExactly(p, share, backend, from, to, key);
    var fresh' := RecryptCapsule(backend, to.key, p.transform(backend, key, was.ciphertext).value);
    assert fresh' in multiset(next.recrypt);
    OldIsGone(p, owns, share, dek, plaintext, next, was, fresh');
    NewIsNotOld(p, share, backend, from, to, key);
    OpenRecryptExactly(p, owns, next, dek, plaintext, backend, to.key, newSecret);
    OpenRecryptExactly(p, owns, next, dek, plaintext, backend, from, oldSecret);
  }

  lemma NewIsNotOld(p: Primitives, share: Share, backend: bytes, from: bytes, to: RecryptPublic, key: bytes)
    requires TransformRecrypt(p, share, backend, from, to, key).Ok?
    ensures from != to.key
  {
    hide FindCapsule;
  }

  /** With holders distinct, taking one capsule away leaves no other of the same holder. */
  lemma OldIsGone(p: Primitives, owns: Owns, share: Share, dek: bytes, plaintext: bytes, next: Share,
                  was: RecryptCapsule, made: RecryptCapsule)
    requires Holds(p, owns, share, dek, plaintext) && was in share.recrypt
    requires multiset(next.recrypt) == multiset(share.recrypt) - multiset{was} + multiset{made}
    ensures forall c :: c in next.recrypt && Holder(c) == Holder(was) ==> c == made
  {
    hide Direct, CapsuleOpens;
    var cs := share.recrypt;
    var i :| 0 <= i < |cs| && cs[i] == was;
    OnlyOnce(cs, i);
    forall c | c in next.recrypt && Holder(c) == Holder(was)
      ensures c == made
    {
      assert c in multiset(next.recrypt);
      if c in cs {
        OneOfHolder(cs, i, c);
      }
    }
  }

  lemma OneOfHolder(cs: seq<RecryptCapsule>, i: nat, c: RecryptCapsule)
    requires i < |cs| && c in cs && Holder(c) == Holder(cs[i])
    requires forall a, b :: 0 <= a < b < |cs| ==> Holder(cs[a]) != Holder(cs[b])
    ensures c == cs[i]
  {
    var j :| 0 <= j < |cs| && cs[j] == c;
  }

  lemma OnlyOnce(cs: seq<RecryptCapsule>, i: nat)
    requires i < |cs| && forall a, b :: 0 <= a < b < |cs| ==> Holder(cs[a]) != Holder(cs[b])
    ensures multiset(cs)[cs[i]] == 1
  {
    var a, b := cs[..i], cs[i + 1..];
    assert cs == a + [cs[i]] + b;
    assert multiset(a)[cs[i]] == 0 && multiset(b)[cs[i]] == 0;
  }

  // ---- access over runs ----

  /** The access set an operation asks for. */
  function Asked(access: Access, op: ShareOp): Access {
    match op
    case Add(_, recipient, _) => access.(targets := access.targets + [recipient])
    case RotateTo(_, recipients, epoch, _) => Access(recipients, multiset{}, epoch)
    case Transform(backend, from, to, _) =>
      access.(holders := access.holders - multiset{(backend, from)} + multiset{(backend, to.key)})
  }

  /** The access set after a run: each operation that succeeds does what it asks, the others nothing. */
  function AccessAfter(p: Primitives, share: Share, ops: seq<ShareOp>): Access {
    if ops == [] then AccessOf(share)
    else
      var front, op := ops[..|ops| - 1], ops[|ops| - 1];
      var before := AccessAfter(p, share, front);
      if Attempt(p, RunShare(p, share, front), op).Ok? then Asked(before, op) else before
  }

  lemma AttemptGrants(p: Primitives, share: Share, op: ShareOp)
    requires Attempt(p, share, op).Ok?
    ensures AccessOf(Attempt(p, share, op).value) == Asked(AccessOf(share), op)
  {
    hide OpenDek, SealAll, RejectDuplicateDirect, FindWrap;
    match op
    case Transform(backend, from, to, key) =>
      var was := TransformExactly(p, share, backend, from, to, key);
    case _ =>
  }

  /** After every run the share's access set is exactly what its successful operations asked for. */
  lemma {:induction false} RunGrants(p: Primitives, share: Share, ops: seq<ShareOp>)
    ensures AccessOf(RunShare(p, share, ops)) == AccessAfter(p, share, ops)
  {
    hide Attempt, Asked, AccessOf;
    if ops != [] {
      var front, op := ops[..|ops| - 1], ops[|ops| - 1];
      RunGrants(p, share, front);
      if Attempt(p, RunShare(p, share, front), op).Ok? {
        AttemptGrants(p, RunShare(p, share, front), op);
      }
    }
  }

  /** The access law: seal, then any run. Whoever the requests and the successful operations leave with
      access reads the original plaintext, and anyone else is told there is no matching wrap. */
  lemma AccessLaw(p: Primitives, owns: Owns, plaintext: bytes, recipients: seq<WrapPublic>, recrypt: seq<RecryptPublic>,
                  epoch: nat, dek: bytes, nonce: bytes, coins: nat -> bytes, ops: seq<ShareOp>,
                  secret: WrapSecret, backend: bytes, recipient: bytes, preSecret: bytes)
    requires Correct(p, owns) && HonestTransforms(p, owns, ops)
    requires SealMixed(p, plaintext, recipients, recrypt, epoch, dek, nonce, coins).Ok?
    ensures var sealed := SealMixed(p, plaintext, recipients, recrypt, epoch, dek, nonce, coins).value;
            var share, access := RunShare(p, sealed, ops), AccessAfter(p, sealed, ops);
            Open(p, share, secret)
            == (if Expected(p, secret).Err? then Err(Expected(p, secret).error)
                else if exists t :: t in access.targets && p.encapsulation(t) == Expected(p, secret) then Ok(plaintext)
                else Err(NoMatchingWrap))
            && ((backend, recipient) !in access.holders ==>
                OpenRecrypt(p, share, backend, recipient, preSecret) == Err(NoMatchingWrap))
            && ((backend, recipient) in access.holders && owns(backend, recipient, preSecret) ==>
                OpenRecrypt(p, share, backend, recipient, preSecret) == Ok(plaintext))
  {
    hide SealMixed, RunShare, AccessAfter, Correct, HonestTransforms, Open, OpenRecrypt, Expected, Holds, Holders;
    var sealed := SealMixed(p, plaintext, recipients, recrypt, epoch, dek, nonce, coins).value;
    SealHolds(p, owns, plaintext, recipients, recrypt, epoch, dek, nonce, coins);
    RunHolds(p, owns, sealed, dek, plaintext, ops);
    RunGrants(p, sealed, ops);
    var share := RunShare(p, sealed, ops);
    OpenExactly(p, owns, share, dek, plaintext, secret);
    HoldersListed(share.recrypt, backend, recipient);
    OpenRecryptExactly(p, owns, share, dek, plaintext, backend, recipient, preSecret);
  }
}
