/** One payload under one DEK, with a wrap per direct recipient and a capsule per proxy
    re-encryption recipient: the operations, as functions of explicit randomness. */
module Share {
  import opened Basics

  datatype ShareError =
    | RejectedKey | BadWrap | BadPayload | EmptyRecipients | NoMatchingWrap | DuplicateRecipient
    | BadMode | GrantMismatch | BadGrantSignature | PqGrantRequired | BadRecrypt

  type Res<+T> = Result<T, ShareError>

  datatype WrapPublic = X25519(raw: bytes) | Ed25519(raw: bytes) | P256(raw: bytes)
  datatype WrapSecret = X25519Scalar(raw: bytes) | Ed25519Seed(raw: bytes) | P256Scalar(raw: bytes)

  /** One sealed DEK; `sealed` stands for ephemeral key, nonce and ciphertext. */
  datatype Wrap = Wrap(recipient: bytes, epoch: nat, sealed: bytes)

  datatype RecryptPublic = RecryptPublic(backend: bytes, key: bytes)
  datatype RecryptCapsule = RecryptCapsule(backend: bytes, recipient: bytes, ciphertext: bytes)

  datatype Share = Share(
    epoch: nat, nonce: bytes, ciphertext: bytes,
    wraps: seq<Wrap>, targets: seq<WrapPublic>, recrypt: seq<RecryptCapsule>)

  /** The primitives of wrap.rs, the payload cipher and the re-encryption backend, left open.
      `coins` is the randomness a seal draws. */
  datatype Primitives = Primitives(
    encapsulation: WrapPublic -> Res<bytes>,
    publicOf: WrapSecret -> Res<WrapPublic>,
    sealDek: (WrapPublic, bytes, nat, bytes) -> Res<Wrap>,
    openDek: (WrapSecret, Wrap) -> Res<bytes>,
    encrypt: (bytes, bytes, bytes) -> Res<bytes>,
    decrypt: (bytes, bytes, bytes) -> Res<bytes>,
    encapsulate: (bytes, bytes, bytes) -> Res<bytes>,
    decapsulate: (bytes, bytes, bytes) -> Res<bytes>,
    transform: (bytes, bytes, bytes) -> Res<bytes>)

  // ---- duplicate checks ----

  function RejectDirectFrom(p: Primitives, rs: seq<WrapPublic>, i: nat, seen: seq<bytes>): Res<()>
    requires i <= |rs|
    decreases |rs| - i
  {
    if i == |rs| then Ok(())
    else
      var enc :- p.encapsulation(rs[i]);
      if enc in seen || multiset(rs)[rs[i]] > 1 then Err(DuplicateRecipient)
      else RejectDirectFrom(p, rs, i + 1, seen + [enc])
  }

  function RejectDuplicateDirect(p: Primitives, rs: seq<WrapPublic>): Res<()> {
    RejectDirectFrom(p, rs, 0, [])
  }

  function RejectDuplicateRecrypt(rs: seq<RecryptPublic>): Res<()> {
    if rs == [] then Ok(())
    else if rs[0] in rs[1..] then Err(DuplicateRecipient)
    else RejectDuplicateRecrypt(rs[1..])
  }

  // ---- sealing ----

  /** Wraps for the first n recipients. */
  function SealAll(p: Primitives, rs: seq<WrapPublic>, n: nat, dek: bytes, epoch: nat, coins: nat -> bytes): Res<seq<Wrap>>
    requires n <= |rs|
  {
    if n == 0 then Ok([])
    else
      var ws :- SealAll(p, rs, n - 1, dek, epoch, coins);
      var w :- p.sealDek(rs[n - 1], dek, epoch, coins(n - 1));
      Ok(ws + [w])
  }

  function EncapsulateAll(p: Primitives, rs: seq<RecryptPublic>, n: nat, dek: bytes): Res<seq<RecryptCapsule>>
    requires n <= |rs|
  {
    if n == 0 then Ok([])
    else
      var cs :- EncapsulateAll(p, rs, n - 1, dek);
      var ct :- p.encapsulate(rs[n - 1].backend, rs[n - 1].key, dek);
      if ct == [] then Err(BadRecrypt)
      else Ok(cs + [RecryptCapsule(rs[n - 1].backend, rs[n - 1].key, ct)])
  }

  function SealMixed(p: Primitives, plaintext: bytes, recipients: seq<WrapPublic>, recrypt: seq<RecryptPublic>,
                     epoch: nat, dek: bytes, nonce: bytes, coins: nat -> bytes): Res<Share>
  {
    if recipients == [] && recrypt == [] then Err(EmptyRecipients)
    else
      var _ :- RejectDuplicateDirect(p, recipients);
      var _ :- RejectDuplicateRecrypt(recrypt);
      var ciphertext :- p.encrypt(dek, nonce, plaintext);
      var wraps :- SealAll(p, recipients, |recipients|, dek, epoch, coins);
      var capsules :- EncapsulateAll(p, recrypt, |recrypt|, dek);
      Ok(Share(epoch, nonce, ciphertext, wraps, recipients, capsules))
  }

  // ---- opening ----

  /** The encapsulation key a secret answers to. */
  function Expected(p: Primitives, secret: WrapSecret): Res<bytes> {
    var pub :- p.publicOf(secret);
    p.encapsulation(pub)
  }

  function FindWrap(ws: seq<Wrap>, recipient: bytes): Option<Wrap> {
    if ws == [] then None
    else if ws[0].recipient == recipient then Some(ws[0])
    else FindWrap(ws[1..], recipient)
  }

  function OpenDek(p: Primitives, share: Share, secret: WrapSecret): Res<bytes> {
    var expected :- Expected(p, secret);
    var found := FindWrap(share.wraps, expected);
    if found.None? then Err(NoMatchingWrap) else p.openDek(secret, found.value)
  }

  function Open(p: Primitives, share: Share, secret: WrapSecret): Res<bytes> {
    var dek :- OpenDek(p, share, secret);
    p.decrypt(dek, share.nonce, share.ciphertext)
  }

  function FindCapsule(cs: seq<RecryptCapsule>, backend: bytes, recipient: bytes): Option<nat> {
    if cs == [] then None
    else if cs[0].backend == backend && cs[0].recipient == recipient then Some(0)
    else
      match FindCapsule(cs[1..], backend, recipient)
      case None => None
      case Some(i) => Some(i + 1)
  }

  lemma {:induction false} FindCapsuleProps(cs: seq<RecryptCapsule>, backend: bytes, recipient: bytes)
    ensures FindCapsule(cs, backend, recipient).Some? ==>
              var i := FindCapsule(cs, backend, recipient).value;
              i < |cs| && cs[i].backend == backend && cs[i].recipient == recipient
    ensures FindCapsule(cs, backend, recipient).None? ==>
              forall c :: c in cs ==> !(c.backend == backend && c.recipient == recipient)
  {
    if cs != [] {
      FindCapsuleProps(cs[1..], backend, recipient);
    }
  }

  function OpenRecrypt(p: Primitives, share: Share, backend: bytes, recipient: bytes, secret: bytes): Res<bytes> {
    FindCapsuleProps(share.recrypt, backend, recipient);
    var i := FindCapsule(share.recrypt, backend, recipient);
    if i.None? then Err(NoMatchingWrap)
    else
      var dek :- p.decapsulate(backend, secret, share.recrypt[i.value].ciphertext);
      p.decrypt(dek, share.nonce, share.ciphertext)
  }

  // ---- changing the access set ----

  function AddRecipient(p: Primitives, share: Share, opener: WrapSecret, recipient: WrapPublic, coins: bytes): Res<Share> {
    if recipient in share.targets then Err(DuplicateRecipient)
    else
      var enc :- p.encapsulation(recipient);
      if FindWrap(share.wraps, enc).Some? then Err(DuplicateRecipient)
      else
        var dek :- OpenDek(p, share, opener);
        var wrap :- p.sealDek(recipient, dek, share.epoch, coins);
        Ok(share.(wraps := share.wraps + [wrap], targets := share.targets + [recipient]))
  }

  function Rotate(p: Primitives, share: Share, opener: WrapSecret, recipients: seq<WrapPublic>, epoch: nat,
                  coins: nat -> bytes): Res<Share>
  {
    if share.recrypt != [] then Err(BadMode)
    else if recipients == [] then Err(EmptyRecipients)
    else
      var _ :- RejectDuplicateDirect(p, recipients);
      var dek :- OpenDek(p, share, opener);
      var wraps :- SealAll(p, recipients, |recipients|, dek, epoch, coins);
      Ok(Share(epoch, share.nonce, share.ciphertext, wraps, recipients, []))
  }

  function TransformRecrypt(p: Primitives, share: Share, backend: bytes, from: bytes, to: RecryptPublic,
                            transformKey: bytes): Res<Share>
  {
    if to.backend != backend then Err(BadRecrypt)
    else if FindCapsule(share.recrypt, backend, to.key).Some? then Err(DuplicateRecipient)
    else
      FindCapsuleProps(share.recrypt, backend, from);
      var i := FindCapsule(share.recrypt, backend, from);
      if i.None? then Err(NoMatchingWrap)
      else
        var ct :- p.transform(backend, transformKey, share.recrypt[i.value].ciphertext);
        if ct == [] then Err(BadRecrypt)
        else Ok(share.(recrypt := share.recrypt[i.value := RecryptCapsule(backend, to.key, ct)]))
  }

  // ---- the source's loops ----

  method RejectDuplicateDirectLoop(p: Primitives, rs: seq<WrapPublic>) returns (r: Res<()>)
    ensures r == RejectDuplicateDirect(p, rs)
  {
    var seen: seq<bytes> := [];
    var i := 0;
    while i < |rs|
      invariant 0 <= i <= |rs|
      invariant RejectDirectFrom(p, rs, i, seen) == RejectDuplicateDirect(p, rs)
    {
      var enc := p.encapsulation(rs[i]);
      if enc.Err? {
        return Err(enc.error);
      }
      if enc.value in seen || multiset(rs)[rs[i]] > 1 {
        return Err(DuplicateRecipient);
      }
      seen := seen + [enc.value];
      i := i + 1;
    }
    r := Ok(());
  }

  method SealAllLoop(p: Primitives, rs: seq<WrapPublic>, dek: bytes, epoch: nat, coins: nat -> bytes)
    returns (r: Res<seq<Wrap>>)
    ensures r == SealAll(p, rs, |rs|, dek, epoch, coins)
  {
    var wraps: seq<Wrap> := [];
    var i := 0;
    while i < |rs|
      invariant 0 <= i <= |rs| && SealAll(p, rs, i, dek, epoch, coins) == Ok(wraps)
    {
      var w := p.sealDek(rs[i], dek, epoch, coins(i));
      if w.Err? {
        SealError(p, rs, i + 1, |rs|, dek, epoch, coins);
        return Err(w.error);
      }
      wraps := wraps + [w.value];
      i := i + 1;
    }
    r := Ok(wraps);
  }

  /** An error on a shorter list is the error on the whole list. */
  lemma {:induction false} SealError(p: Primitives, rs: seq<WrapPublic>, m: nat, n: nat, dek: bytes, epoch: nat,
                                     coins: nat -> bytes)
    requires m <= n <= |rs| && SealAll(p, rs, m, dek, epoch, coins).Err?
    ensures SealAll(p, rs, n, dek, epoch, coins) == SealAll(p, rs, m, dek, epoch, coins)
    decreases n
  {
    if m < n {
      SealError(p, rs, m, n - 1, dek, epoch, coins);
    }
  }

  method EncapsulateAllLoop(p: Primitives, rs: seq<RecryptPublic>, dek: bytes) returns (r: Res<seq<RecryptCapsule>>)
    ensures r == EncapsulateAll(p, rs, |rs|, dek)
  {
    var capsules: seq<RecryptCapsule> := [];
    var i := 0;
    while i < |rs|
      invariant 0 <= i <= |rs| && EncapsulateAll(p, rs, i, dek) == Ok(capsules)
    {
      var ct := p.encapsulate(rs[i].backend, rs[i].key, dek);
      if ct.Err? || ct.value == [] {
        EncapsulateError(p, rs, i + 1, |rs|, dek);
        return Err(if ct.Err? then ct.error else BadRecrypt);
      }
      capsules := capsules + [RecryptCapsule(rs[i].backend, rs[i].key, ct.value)];
      i := i + 1;
    }
    r := Ok(capsules);
  }

  lemma {:induction false} EncapsulateError(p: Primitives, rs: seq<RecryptPublic>, m: nat, n: nat, dek: bytes)
    requires m <= n <= |rs| && EncapsulateAll(p, rs, m, dek).Err?
    ensures EncapsulateAll(p, rs, n, dek) == EncapsulateAll(p, rs, m, dek)
    decreases n
  {
    if m < n {
      EncapsulateError(p, rs, m, n - 1, dek);
    }
  }

  method SealShare(p: Primitives, plaintext: bytes, recipients: seq<WrapPublic>, recrypt: seq<RecryptPublic>,
                   epoch: nat, dek: bytes, nonce: bytes, coins: nat -> bytes) returns (r: Res<Share>)
    ensures r == SealMixed(p, plaintext, recipients, recrypt, epoch, dek, nonce, coins)
  {
    if recipients == [] && recrypt == [] {
      return Err(EmptyRecipients);
    }
    var direct := RejectDuplicateDirectLoop(p, recipients);
    if direct.Err? {
      return Err(direct.error);
    }
    var capsuleCheck := RejectDuplicateRecrypt(recrypt);
    if capsuleCheck.Err? {
      return Err(capsuleCheck.error);
    }
    var ciphertext := p.encrypt(dek, nonce, plaintext);
    if ciphertext.Err? {
      return Err(ciphertext.error);
    }
    var wraps := SealAllLoop(p, recipients, dek, epoch, coins);
    if wraps.Err? {
      return Err(wraps.error);
    }
    var capsules := EncapsulateAllLoop(p, recrypt, dek);
    if capsules.Err? {
      return Err(capsules.error);
    }
    r := Ok(Share(epoch, nonce, ciphertext.value, wraps.value, recipients, capsules.value));
  }
}
