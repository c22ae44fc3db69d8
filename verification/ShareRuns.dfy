/** What every run of a share keeps: one DEK, aligned wraps, and the same plaintext for exactly
    the current recipients. */
module ShareRuns {
  import opened Basics
  import opened Share

  /** Which secret belongs to which public key of a re-encryption backend. */
  type Owns = (bytes, bytes, bytes) -> bool

  // ---- contracts of the primitives ----

  ghost predicate WrapOpens(p: Primitives, w: Wrap, dek: bytes) {
    forall s: WrapSecret :: Expected(p, s) == Ok(w.recipient) ==> p.openDek(s, w) == Ok(dek)
  }

  ghost predicate CapsuleOpens(p: Primitives, owns: Owns, backend: bytes, recipient: bytes, dek: bytes, ct: bytes) {
    forall s: bytes :: owns(backend, recipient, s) ==> p.decapsulate(backend, s, ct) == Ok(dek)
  }

  /** A wrap opens for its recipient, the payload cipher inverts, a fresh capsule opens. */
  ghost predicate Correct(p: Primitives, owns: Owns) {
    (forall r, dek, epoch, coins {:trigger p.sealDek(r, dek, epoch, coins)} ::
       p.sealDek(r, dek, epoch, coins).Ok? ==>
         var w := p.sealDek(r, dek, epoch, coins).value;
         p.encapsulation(r) == Ok(w.recipient) && w.epoch == epoch && WrapOpens(p, w, dek)) &&
    (forall dek, nonce, m {:trigger p.encrypt(dek, nonce, m)} ::
       p.encrypt(dek, nonce, m).Ok? ==> p.decrypt(dek, nonce, p.encrypt(dek, nonce, m).value) == Ok(m)) &&
    (forall backend, recipient, dek {:trigger p.encapsulate(backend, recipient, dek)} ::
       p.encapsulate(backend, recipient, dek).Ok? ==>
         CapsuleOpens(p, owns, backend, recipient, dek, p.encapsulate(backend, recipient, dek).value))
  }

  /** A transform key that really leads from one recipient to the other. */
  ghost predicate TransformLeads(p: Primitives, owns: Owns, backend: bytes, from: bytes, to: bytes, key: bytes) {
    forall dek, ct {:trigger CapsuleOpens(p, owns, backend, from, dek, ct)} ::
      CapsuleOpens(p, owns, backend, from, dek, ct) && p.transform(backend, key, ct).Ok? ==>
        CapsuleOpens(p, owns, backend, to, dek, p.transform(backend, key, ct).value)
  }

  // ---- the invariant ----

  ghost predicate Direct(p: Primitives, share: Share, dek: bytes) {
    |share.wraps| == |share.targets| &&
    (forall i :: 0 <= i < |share.wraps| ==>
       p.encapsulation(share.targets[i]) == Ok(share.wraps[i].recipient) &&
       share.wraps[i].epoch == share.epoch && WrapOpens(p, share.wraps[i], dek)) &&
    (forall i, j :: 0 <= i < j < |share.wraps| ==> share.wraps[i].recipient != share.wraps[j].recipient)
  }

  ghost predicate Capsules(p: Primitives, owns: Owns, share: Share, dek: bytes) {
    (forall i :: 0 <= i < |share.recrypt| ==>
       share.recrypt[i].ciphertext != [] &&
       CapsuleOpens(p, owns, share.recrypt[i].backend, share.recrypt[i].recipient, dek, share.recrypt[i].ciphertext)) &&
    (forall i, j :: 0 <= i < j < |share.recrypt| ==>
       !(share.recrypt[i].backend == share.recrypt[j].backend && share.recrypt[i].recipient == share.recrypt[j].recipient))
  }

  ghost predicate Holds(p: Primitives, owns: Owns, share: Share, dek: bytes, plaintext: bytes) {
    Direct(p, share, dek) && Capsules(p, owns, share, dek) &&
    p.decrypt(dek, share.nonce, share.ciphertext) == Ok(plaintext) &&
    (share.wraps != [] || share.recrypt != [])
  }

  // ---- duplicate checks, exactly ----

  ghost predicate AllDistinct(p: Primitives, rs: seq<WrapPublic>) {
    (forall i :: 0 <= i < |rs| ==> p.encapsulation(rs[i]).Ok?) &&
    (forall i, j :: 0 <= i < j < |rs| ==> p.encapsulation(rs[i]) != p.encapsulation(rs[j]))
  }

  ghost predicate Seen(p: Primitives, rs: seq<WrapPublic>, i: nat, seen: seq<bytes>)
    requires i <= |rs|
  {
    |seen| == i && forall j :: 0 <= j < i ==> p.encapsulation(rs[j]) == Ok(seen[j])
  }

  lemma {:induction false} RejectDirectExactly(p: Primitives, rs: seq<WrapPublic>, i: nat, seen: seq<bytes>)
    requires i <= |rs| && Seen(p, rs, i, seen)
    requires forall j, k :: 0 <= j < k < i ==> p.encapsulation(rs[j]) != p.encapsulation(rs[k])
    ensures RejectDirectFrom(p, rs, i, seen).Ok? <==> AllDistinct(p, rs)
    decreases |rs| - i
  {
    if i < |rs| && p.encapsulation(rs[i]).Ok? {
      var enc := p.encapsulation(rs[i]).value;
      if enc in seen {
        var j :| 0 <= j < |seen| && seen[j] == enc;
        assert p.encapsulation(rs[j]) == p.encapsulation(rs[i]);
      } else if multiset(rs)[rs[i]] > 1 {
        var a, b := TwiceMeansTwoIndices(rs, rs[i]);
        assert p.encapsulation(rs[a]) == p.encapsulation(rs[b]);
      } else {
        RejectDirectExactly(p, rs, i + 1, seen + [enc]);
      }
    }
  }

  lemma {:induction false} TwiceMeansTwoIndices<T>(s: seq<T>, x: T) returns (a: nat, b: nat)
    requires multiset(s)[x] > 1
    ensures a < b < |s| && s[a] == x && s[b] == x
  {
    assert s == [s[0]] + s[1..];
    if s[0] == x {
      assert x in multiset(s[1..]);
      assert x in s[1..];
      b :| 0 < b < |s| && s[b] == x;
      a := 0;
    } else {
      a, b := TwiceMeansTwoIndices(s[1..], x);
      a, b := a + 1, b + 1;
    }
  }

  /** The direct check passes exactly when every key encapsulates and no two share an
      encapsulation key. */
  lemma DirectCheckExactly(p: Primitives, rs: seq<WrapPublic>)
    ensures RejectDuplicateDirect(p, rs).Ok? <==> AllDistinct(p, rs)
  {
    RejectDirectExactly(p, rs, 0, []);
  }

  lemma {:induction false} RecryptCheckExactly(rs: seq<RecryptPublic>)
    ensures RejectDuplicateRecrypt(rs).Ok? <==> forall i, j :: 0 <= i < j < |rs| ==> rs[i] != rs[j]
  {
    if rs != [] {
      var t := rs[1..];
      RecryptCheckExactly(t);
      assert forall i :: 0 <= i < |t| ==> t[i] == rs[i + 1];
      if rs[0] in t {
        var j :| 0 <= j < |t| && t[j] == rs[0];
        assert rs[0] == rs[j + 1];
      } else if forall i, j :: 0 <= i < j < |t| ==> t[i] != t[j] {
        forall i, j | 0 <= i < j < |rs|
          ensures rs[i] != rs[j]
        {
          if i == 0 {
            assert rs[j] == t[j - 1];
          } else {
            assert rs[i] == t[i - 1] && rs[j] == t[j - 1];
          }
        }
      } else {
        var i, j :| 0 <= i < j < |t| && t[i] == t[j];
        assert rs[i + 1] == rs[j + 1];
      }
    }
  }

  // ---- sealing establishes the invariant ----

  lemma {:induction false} SealAllProps(p: Primitives, owns: Owns, rs: seq<WrapPublic>, n: nat, dek: bytes, epoch: nat,
                                        coins: nat -> bytes)
    requires Correct(p, owns) && n <= |rs| && SealAll(p, rs, n, dek, epoch, coins).Ok?
    ensures var ws := SealAll(p, rs, n, dek, epoch, coins).value;
            |ws| == n &&
            forall i :: 0 <= i < n ==>
              p.encapsulation(rs[i]) == Ok(ws[i].recipient) && ws[i].epoch == epoch && WrapOpens(p, ws[i], dek)
  {
    hide WrapOpens;
    if n > 0 {
      SealAllProps(p, owns, rs, n - 1, dek, epoch, coins);
      assert p.sealDek(rs[n - 1], dek, epoch, coins(n - 1)).Ok?;
    }
  }

  lemma {:induction false} EncapsulateAllProps(p: Primitives, owns: Owns, rs: seq<RecryptPublic>, n: nat, dek: bytes)
    requires Correct(p, owns) && n <= |rs| && EncapsulateAll(p, rs, n, dek).Ok?
    ensures var cs := EncapsulateAll(p, rs, n, dek).value;
            |cs| == n &&
            forall i :: 0 <= i < n ==>
              cs[i].backend == rs[i].backend && cs[i].recipient == rs[i].key && cs[i].ciphertext != [] &&
              CapsuleOpens(p, owns, cs[i].backend, cs[i].recipient, dek, cs[i].ciphertext)
  {
    hide WrapOpens, CapsuleOpens;
    if n > 0 {
      EncapsulateAllProps(p, owns, rs, n - 1, dek);
      assert p.encapsulate(rs[n - 1].backend, rs[n - 1].key, dek).Ok?;
    }
  }

  lemma DirectAfterSealAll(p: Primitives, owns: Owns, share: Share, dek: bytes, coins: nat -> bytes)
    requires Correct(p, owns) && RejectDuplicateDirect(p, share.targets).Ok?
    requires SealAll(p, share.targets, |share.targets|, dek, share.epoch, coins) == Ok(share.wraps)
    ensures Direct(p, share, dek)
  {
    hide Correct, WrapOpens, RejectDuplicateDirect;
    DirectCheckExactly(p, share.targets);
    SealAllProps(p, owns, share.targets, |share.targets|, dek, share.epoch, coins);
    forall i, j | 0 <= i < j < |share.wraps|
      ensures share.wraps[i].recipient != share.wraps[j].recipient
    {
      assert p.encapsulation(share.targets[i]) != p.encapsulation(share.targets[j]);
    }
  }

  lemma CapsulesAfterEncapsulate(p: Primitives, owns: Owns, share: Share, dek: bytes, rs: seq<RecryptPublic>)
    requires Correct(p, owns) && RejectDuplicateRecrypt(rs).Ok?
    requires EncapsulateAll(p, rs, |rs|, dek) == Ok(share.recrypt)
    ensures Capsules(p, owns, share, dek)
  {
    hide Correct, CapsuleOpens, RejectDuplicateRecrypt;
    RecryptCheckExactly(rs);
    EncapsulateAllProps(p, owns, rs, |rs|, dek);
    forall i, j | 0 <= i < j < |share.recrypt|
      ensures !(share.recrypt[i].backend == share.recrypt[j].backend && share.recrypt[i].recipient == share.recrypt[j].recipient)
    {
      assert rs[i] != rs[j];
    }
  }

  lemma SealHolds(p: Primitives, owns: Owns, plaintext: bytes, recipients: seq<WrapPublic>, recrypt: seq<RecryptPublic>,
                  epoch: nat, dek: bytes, nonce: bytes, coins: nat -> bytes)
    requires Correct(p, owns)
    requires SealMixed(p, plaintext, recipients, recrypt, epoch, dek, nonce, coins).Ok?
    ensures Holds(p, owns, SealMixed(p, plaintext, recipients, recrypt, epoch, dek, nonce, coins).value, dek, plaintext)
  {
    hide Direct, Capsules, RejectDuplicateDirect, RejectDuplicateRecrypt, SealAll, EncapsulateAll, WrapOpens, CapsuleOpens;
    var share := SealMixed(p, plaintext, recipients, recrypt, epoch, dek, nonce, coins).value;
    assert p.encrypt(dek, nonce, plaintext).Ok?;
    DirectAfterSealAll(p, owns, share, dek, coins);
    CapsulesAfterEncapsulate(p, owns, share, dek, recrypt);
    SealNonEmpty(p, owns, share, dek, recipients, recrypt, coins);
  }

  lemma SealNonEmpty(p: Primitives, owns: Owns, share: Share, dek: bytes, recipients: seq<WrapPublic>,
                     recrypt: seq<RecryptPublic>, coins: nat -> bytes)
    requires Correct(p, owns) && (recipients != [] || recrypt != [])
    requires SealAll(p, recipients, |recipients|, dek, share.epoch, coins) == Ok(share.wraps)
    requires EncapsulateAll(p, recrypt, |recrypt|, dek) == Ok(share.recrypt)
    ensures share.wraps != [] || share.recrypt != []
  {
    hide Correct, WrapOpens, CapsuleOpens;
    SealAllProps(p, owns, recipients, |recipients|, dek, share.epoch, coins);
    EncapsulateAllProps(p, owns, recrypt, |recrypt|, dek);
  }

  // ---- who can open ----

  lemma {:induction false} FindWrapProps(ws: seq<Wrap>, recipient: bytes)
    ensures FindWrap(ws, recipient).Some? ==> FindWrap(ws, recipient).value in ws && FindWrap(ws, recipient).value.recipient == recipient
    ensures FindWrap(ws, recipient).None? ==> forall w :: w in ws ==> w.recipient != recipient
  {
    if ws != [] {
      FindWrapProps(ws[1..], recipient);
    }
  }

  /** The secret answers to the encapsulation key of a current target. */
  ghost predicate IsTarget(p: Primitives, share: Share, secret: WrapSecret) {
    Expected(p, secret).Ok? &&
    exists i :: 0 <= i < |share.targets| && p.encapsulation(share.targets[i]) == Expected(p, secret)
  }

  lemma OpenDekExactly(p: Primitives, owns: Owns, share: Share, dek: bytes, plaintext: bytes, secret: WrapSecret)
    requires Holds(p, owns, share, dek, plaintext)
    ensures IsTarget(p, share, secret) ==> OpenDek(p, share, secret) == Ok(dek)
    ensures Expected(p, secret).Ok? && !IsTarget(p, share, secret) ==> OpenDek(p, share, secret) == Err(NoMatchingWrap)
    ensures Expected(p, secret).Err? ==> OpenDek(p, share, secret) == Err(Expected(p, secret).error)
  {
    hide Capsules, FindWrap, Expected;
    if Expected(p, secret).Ok? {
      var want := Expected(p, secret).value;
      FindWrapProps(share.wraps, want);
      var found := FindWrap(share.wraps, want);
      if found.Some? {
        var i :| 0 <= i < |share.wraps| && share.wraps[i] == found.value;
        assert WrapOpens(p, share.wraps[i], dek);
        assert p.encapsulation(share.targets[i]) == Ok(want);
      } else {
        forall i | 0 <= i < |share.targets|
          ensures p.encapsulation(share.targets[i]) != Ok(want)
        {
          assert share.wraps[i] in share.wraps;
        }
      }
    }
  }

  /** Current targets, and only they, recover the plaintext; anyone else is told there is no
      matching wrap. */
  lemma OpenExactly(p: Primitives, owns: Owns, share: Share, dek: bytes, plaintext: bytes, secret: WrapSecret)
    requires Holds(p, owns, share, dek, plaintext)
    ensures Open(p, share, secret)
            == if Expected(p, secret).Err? then Err(Expected(p, secret).error)
               else if IsTarget(p, share, secret) then Ok(plaintext)
               else Err(NoMatchingWrap)
  {
    hide OpenDek, IsTarget, Expected, Direct, Capsules;
    OpenDekExactly(p, owns, share, dek, plaintext, secret);
  }

  /** The owner of a current capsule recovers the plaintext; no capsule, no opening. */
  lemma OpenRecryptExactly(p: Primitives, owns: Owns, share: Share, dek: bytes, plaintext: bytes,
                           backend: bytes, recipient: bytes, secret: bytes)
    requires Holds(p, owns, share, dek, plaintext)
    ensures (exists c :: c in share.recrypt && c.backend == backend && c.recipient == recipient)
            && owns(backend, recipient, secret)
            ==> OpenRecrypt(p, share, backend, recipient, secret) == Ok(plaintext)
    ensures !(exists c :: c in share.recrypt && c.backend == backend && c.recipient == recipient)
            ==> OpenRecrypt(p, share, backend, recipient, secret) == Err(NoMatchingWrap)
  {
    hide Direct, FindCapsule;
    FindCapsuleProps(share.recrypt, backend, recipient);
    var i := FindCapsule(share.recrypt, backend, recipient);
    if i.Some? {
      assert share.recrypt[i.value] in share.recrypt;
      assert CapsuleOpens(p, owns, backend, recipient, dek, share.recrypt[i.value].ciphertext);
    }
  }

  // ---- every step keeps the invariant ----

  lemma AddHolds(p: Primitives, owns: Owns, share: Share, dek: bytes, plaintext: bytes,
                 opener: WrapSecret, recipient: WrapPublic, coins: bytes)
    requires Correct(p, owns) && Holds(p, owns, share, dek, plaintext)
    requires AddRecipient(p, share, opener, recipient, coins).Ok?
    ensures Holds(p, owns, AddRecipient(p, share, opener, recipient, coins).value, dek, plaintext)
  {
    hide WrapOpens, CapsuleOpens, FindWrap, OpenDek, Expected;
    var next := AddRecipient(p, share, opener, recipient, coins).value;
    OpenDekExactly(p, owns, share, dek, plaintext, opener);
    var enc := p.encapsulation(recipient).value;
    FindWrapProps(share.wraps, enc);
    assert p.sealDek(recipient, dek, share.epoch, coins).Ok?;
    assert Direct(p, next, dek) by {
      forall i | 0 <= i < |next.wraps|
        ensures p.encapsulation(next.targets[i]) == Ok(next.wraps[i].recipient) &&
                next.wraps[i].epoch == next.epoch && WrapOpens(p, next.wraps[i], dek)
      {
        if i < |share.wraps| {
          assert next.wraps[i] == share.wraps[i] && next.targets[i] == share.targets[i];
        }
      }
      forall i, j | 0 <= i < j < |next.wraps|
        ensures next.wraps[i].recipient != next.wraps[j].recipient
      {
        assert next.wraps[i] == share.wraps[i] && share.wraps[i] in share.wraps;
        if j < |share.wraps| {
          assert next.wraps[j] == share.wraps[j];
        }
      }
    }
  }

  lemma RotateHolds(p: Primitives, owns: Owns, share: Share, dek: bytes, plaintext: bytes,
                    opener: WrapSecret, recipients: seq<WrapPublic>, epoch: nat, coins: nat -> bytes)
    requires Correct(p, owns) && Holds(p, owns, share, dek, plaintext)
    requires Rotate(p, share, opener, recipients, epoch, coins).Ok?
    ensures Holds(p, owns, Rotate(p, share, opener, recipients, epoch, coins).value, dek, plaintext)
  {
    hide Correct, Direct, WrapOpens, CapsuleOpens, OpenDek, SealAll, RejectDuplicateDirect, Expected;
    var next := Rotate(p, share, opener, recipients, epoch, coins).value;
    OpenDekExactly(p, owns, share, dek, plaintext, opener);
    DirectAfterSealAll(p, owns, next, dek, coins);
    SealAllProps(p, owns, recipients, |recipients|, dek, epoch, coins);
  }

  lemma TransformHolds(p: Primitives, owns: Owns, share: Share, dek: bytes, plaintext: bytes,
                       backend: bytes, from: bytes, to: RecryptPublic, key: bytes)
    requires Holds(p, owns, share, dek, plaintext) && TransformLeads(p, owns, backend, from, to.key, key)
    requires TransformRecrypt(p, share, backend, from, to, key).Ok?
    ensures Holds(p, owns, TransformRecrypt(p, share, backend, from, to, key).value, dek, plaintext)
  {
    hide Direct, CapsuleOpens, FindCapsule;
    var next := TransformRecrypt(p, share, backend, from, to, key).value;
    FindCapsuleProps(share.recrypt, backend, from);
    FindCapsuleProps(share.recrypt, backend, to.key);
    var k := FindCapsule(share.recrypt, backend, from).value;
    assert CapsuleOpens(p, owns, backend, from, dek, share.recrypt[k].ciphertext);
    SameDirect(p, share, next, dek);
    forall i, j | 0 <= i < j < |next.recrypt|
      ensures !(next.recrypt[i].backend == next.recrypt[j].backend && next.recrypt[i].recipient == next.recrypt[j].recipient)
    {
      assert share.recrypt[i] in share.recrypt && share.recrypt[j] in share.recrypt;
    }
  }

  lemma SameDirect(p: Primitives, a: Share, b: Share, dek: bytes)
    requires Direct(p, a, dek) && a.wraps == b.wraps && a.targets == b.targets && a.epoch == b.epoch
    ensures Direct(p, b, dek)
  {
  }

  // ---- runs ----

  datatype ShareOp =
    | Add(opener: WrapSecret, recipient: WrapPublic, sealCoins: bytes)
    | RotateTo(opener: WrapSecret, recipients: seq<WrapPublic>, epoch: nat, coins: nat -> bytes)
    | Transform(backend: bytes, from: bytes, to: RecryptPublic, key: bytes)

  function Attempt(p: Primitives, share: Share, op: ShareOp): Res<Share> {
    match op
    case Add(opener, recipient, sealCoins) => AddRecipient(p, share, opener, recipient, sealCoins)
    case RotateTo(opener, recipients, epoch, coins) => Rotate(p, share, opener, recipients, epoch, coins)
    case Transform(backend, from, to, key) => TransformRecrypt(p, share, backend, from, to, key)
  }

  function RunShare(p: Primitives, share: Share, ops: seq<ShareOp>): Share {
    if ops == [] then share
    else
      var before := RunShare(p, share, ops[..|ops| - 1]);
      match Attempt(p, before, ops[|ops| - 1])
      case Ok(next) => next
      case Err(_) => before
  }

  /** Transforms use transform keys that lead where they claim; nothing is asked of other steps. */
  ghost predicate HonestTransforms(p: Primitives, owns: Owns, ops: seq<ShareOp>) {
    forall i :: 0 <= i < |ops| ==>
      match ops[i]
      case Transform(backend, from, to, key) => TransformLeads(p, owns, backend, from, to.key, key)
      case _ => true
  }

  lemma StepHolds(p: Primitives, owns: Owns, share: Share, dek: bytes, plaintext: bytes, op: ShareOp)
    requires Correct(p, owns) && Holds(p, owns, share, dek, plaintext) && HonestTransforms(p, owns, [op])
    requires Attempt(p, share, op).Ok?
    ensures Holds(p, owns, Attempt(p, share, op).value, dek, plaintext)
    ensures var next := Attempt(p, share, op).value; next.nonce == share.nonce && next.ciphertext == share.ciphertext
  {
    hide Holds, Correct, TransformLeads, OpenDek, SealAll, FindWrap, FindCapsule, RejectDuplicateDirect;
    match op
    case Add(opener, recipient, sealCoins) => AddHolds(p, owns, share, dek, plaintext, opener, recipient, sealCoins);
    case RotateTo(opener, recipients, epoch, coins) =>
      RotateHolds(p, owns, share, dek, plaintext, opener, recipients, epoch, coins);
    case Transform(backend, from, to, key) =>
      assert [op][0] == op;
      TransformHolds(p, owns, share, dek, plaintext, backend, from, to, key);
  }

  /** After sealing and any sequence of add, rotate and transform, the share still holds the one
      DEK and plaintext it was sealed with, and its payload bytes have not moved. */
  lemma {:induction false} RunHolds(p: Primitives, owns: Owns, share: Share, dek: bytes, plaintext: bytes, ops: seq<ShareOp>)
    requires Correct(p, owns) && Holds(p, owns, share, dek, plaintext) && HonestTransforms(p, owns, ops)
    ensures Holds(p, owns, RunShare(p, share, ops), dek, plaintext)
    ensures RunShare(p, share, ops).nonce == share.nonce && RunShare(p, share, ops).ciphertext == share.ciphertext
  {
    hide Holds, Correct, TransformLeads, Attempt;
    if ops != [] {
      var front, op := ops[..|ops| - 1], ops[|ops| - 1];
      RunHolds(p, owns, share, dek, plaintext, front);
      var before := RunShare(p, share, front);
      if Attempt(p, before, op).Ok? {
        StepHolds(p, owns, before, dek, plaintext, op);
      }
    }
  }

  /** The share law: seal, then any run; every current target and capsule owner reads the original
      plaintext, every other secret is refused, wraps and targets stay aligned at the share's epoch. */
  lemma ShareLaw(p: Primitives, owns: Owns, plaintext: bytes, recipients: seq<WrapPublic>, recrypt: seq<RecryptPublic>,
                 epoch: nat, dek: bytes, nonce: bytes, coins: nat -> bytes, ops: seq<ShareOp>,
                 secret: WrapSecret, backend: bytes, recipient: bytes, preSecret: bytes)
    requires Correct(p, owns) && HonestTransforms(p, owns, ops)
    requires SealMixed(p, plaintext, recipients, recrypt, epoch, dek, nonce, coins).Ok?
    ensures var share := RunShare(p, SealMixed(p, plaintext, recipients, recrypt, epoch, dek, nonce, coins).value, ops);
            Open(p, share, secret)
            == (if Expected(p, secret).Err? then Err(Expected(p, secret).error)
                else if IsTarget(p, share, secret) then Ok(plaintext) else Err(NoMatchingWrap)) &&
            ((exists c :: c in share.recrypt && c.backend == backend && c.recipient == recipient)
             && owns(backend, recipient, preSecret)
             ==> OpenRecrypt(p, share, backend, recipient, preSecret) == Ok(plaintext)) &&
            Direct(p, share, dek)
  {
    hide SealMixed, RunShare, Correct, HonestTransforms, Open, OpenRecrypt, IsTarget, Expected, Direct, Capsules;
    var sealed := SealMixed(p, plaintext, recipients, recrypt, epoch, dek, nonce, coins).value;
    SealHolds(p, owns, plaintext, recipients, recrypt, epoch, dek, nonce, coins);
    RunHolds(p, owns, sealed, dek, plaintext, ops);
    var share := RunShare(p, sealed, ops);
    OpenExactly(p, owns, share, dek, plaintext, secret);
    OpenRecryptExactly(p, owns, share, dek, plaintext, backend, recipient, preSecret);
  }
}
