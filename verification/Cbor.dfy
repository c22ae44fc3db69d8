/** The canonical CBOR subset of identikey-auth (section 4.2.1 of RFC 8949):
    the printer and the strict parser, as functions on byte strings. */
module Cbor {
  import opened Basics

  datatype CborFault =
    | Truncated | NonMinimal | Reserved | InvalidUtf8 | KeyNotText | KeyOrder
    | UnsupportedMajor | TrailingBytes | WrongKind | NonCanonical

  datatype AuthError =
    | CborError(fault: CborFault)
    | MissingField
    | Version(found: nat)
    | UnknownAlg
    | InvalidKey
    | InvalidSig
    | BadSignature
    | Audience
    | NonceTooShort
    | NonceReplay
    | TimeWindow
    | PqRequired
    | PqDangling
    | State(reason: string)
    | Backend

  type Res<+T> = Result<T, AuthError>

  /** A keyed item; map entries keep the order they were inserted in. */
  datatype Keyed<+T> = Keyed(key: bytes, val: T)

  datatype Value =
    | Uint(n: nat)
    | Bytes(b: bytes)
    | Text(s: bytes)
    | Array(items: seq<Value>)
    | Map(entries: seq<Keyed<Value>>)

  /** What the Rust types already guarantee of a value: 64-bit integers and lengths,
      and text (keys included) that is UTF-8. */
  predicate Representable(v: Value) {
    match v
    case Uint(n) => n < U64
    case Bytes(b) => |b| < U64
    case Text(s) => IsText(s)
    case Array(items) => |items| < U64 && forall x :: x in items ==> Representable(x)
    case Map(es) => |es| < U64 && forall e :: e in es ==> IsText(e.key) && Representable(e.val)
  }

  predicate IsText(s: bytes) {
    |s| < U64 && ValidUtf8(s)
  }

  // ---- printer ----

  function Head(major: nat, n: nat): bytes
    requires major < 8
  {
    [32 * major + Info(n)] + ToBE(n, Width(Info(n)))
  }

  /** The low five bits of a head: the argument itself, or the code of its width. */
  function Info(n: nat): (info: nat)
    ensures info < 28 && (info < 24 <==> n < 24) && (n < 24 ==> info == n)
  {
    if n < 24 then n
    else if n < 0x100 then 24
    else if n < 0x1_0000 then 25
    else if n < 0x1_0000_0000 then 26
    else 27
  }

  /** How many argument bytes follow. */
  function Width(info: nat): nat {
    if info < 24 then 0 else if info == 24 then 1 else if info == 25 then 2
    else if info == 26 then 4 else 8
  }

  /** The least argument that needs this width. */
  function Least(info: nat): nat {
    if info <= 24 then 24 else if info == 25 then 0x100
    else if info == 26 then 0x1_0000 else 0x1_0000_0000
  }

  function EncodeKey(k: bytes): bytes {
    Head(3, |k|) + k
  }

  predicate KeyLess(a: bytes, b: bytes) {
    LexLess(EncodeKey(a), EncodeKey(b))
  }

  /** Stable sort by encoded key. */
  function Sort<T>(es: seq<Keyed<T>>): seq<Keyed<T>> {
    if es == [] then [] else Insert(es[0], Sort(es[1..]))
  }

  function Insert<T>(e: Keyed<T>, es: seq<Keyed<T>>): seq<Keyed<T>> {
    if es == [] then [e]
    else if KeyLess(es[0].key, e.key) then [es[0]] + Insert(e, es[1..])
    else [e] + es
  }

  function Encode(v: Value): bytes
    decreases v, 1
  {
    match v
    case Uint(n) => Head(0, n)
    case Bytes(b) => Head(2, |b|) + b
    case Text(s) => EncodeKey(s)
    case Array(items) => Head(4, |items|) + EncodeItems(items)
    case Map(es) => Head(5, |es|) + Flatten(Sort(EncodeValues(es)))
  }

  function EncodeItems(items: seq<Value>): bytes
    decreases items, 0
  {
    if items == [] then [] else Encode(items[0]) + EncodeItems(items[1..])
  }

  function EncodeValues(es: seq<Keyed<Value>>): seq<Keyed<bytes>>
    decreases es, 0
  {
    if es == [] then [] else [Keyed(es[0].key, Encode(es[0].val))] + EncodeValues(es[1..])
  }

  function Flatten(es: seq<Keyed<bytes>>): bytes {
    if es == [] then [] else EncodeKey(es[0].key) + es[0].val + Flatten(es[1..])
  }

  // ---- strict parser: the value at the front and the bytes after it ----

  function Take(b: bytes, n: nat): Res<(bytes, bytes)> {
    if n > |b| then Err(CborError(Truncated)) else Ok((b[..n], b[n..]))
  }

  function ReadHead(b: bytes): (r: Res<(nat, nat, bytes)>)
    ensures r.Ok? ==> |r.value.2| < |b|
  {
    if |b| == 0 then Err(CborError(Truncated))
    else
      var major, info := b[0] / 32, b[0] % 32;
      if info < 24 then Ok((major, info, b[1..]))
      else if info > 27 then Err(CborError(Reserved))
      else
        var (arg, rest) :- Take(b[1..], Width(info));
        if FromBE(arg) < Least(info) then Err(CborError(NonMinimal))
        else Ok((major, FromBE(arg), rest))
  }

  function ReadText(b: bytes, n: nat): Res<(bytes, bytes)> {
    var (s, rest) :- Take(b, n);
    if ValidUtf8(s) then Ok((s, rest)) else Err(CborError(InvalidUtf8))
  }

  function ReadKey(b: bytes): (r: Res<(bytes, bytes)>)
    ensures r.Ok? ==> |r.value.1| < |b|
  {
    var (major, n, rest) :- ReadHead(b);
    if major != 3 then Err(CborError(KeyNotText)) else ReadText(rest, n)
  }

  function ReadValue(b: bytes): (r: Res<(Value, bytes)>)
    ensures r.Ok? ==> |r.value.1| < |b|
    decreases |b|, 0
  {
    var (major, n, rest) :- ReadHead(b);
    match major
    case 0 => Ok((Uint(n), rest))
    case 2 => var (s, rest') :- Take(rest, n); Ok((Bytes(s), rest'))
    case 3 => var (s, rest') :- ReadText(rest, n); Ok((Text(s), rest'))
    case 4 => var (items, rest') :- ReadItems(rest, n); Ok((Array(items), rest'))
    case 5 => var (es, rest') :- ReadEntries(rest, n, None); Ok((Map(es), rest'))
    case _ => Err(CborError(UnsupportedMajor))
  }

  function ReadItems(b: bytes, n: nat): (r: Res<(seq<Value>, bytes)>)
    ensures r.Ok? ==> |r.value.1| <= |b|
    decreases |b|, 1
  {
    if n == 0 then Ok(([], b))
    else
      var (v, rest) :- ReadValue(b);
      var (vs, rest') :- ReadItems(rest, n - 1);
      Ok(([v] + vs, rest'))
  }

  /** n entries whose keys lie above `prev` and strictly increase in encoded order. */
  function ReadEntries(b: bytes, n: nat, prev: Option<bytes>): (r: Res<(seq<Keyed<Value>>, bytes)>)
    ensures r.Ok? ==> |r.value.1| <= |b|
    decreases |b|, 1
  {
    if n == 0 then Ok(([], b))
    else
      var (k, rest) :- ReadKey(b);
      if prev.Some? && !KeyLess(prev.value, k) then Err(CborError(KeyOrder))
      else
        var (v, rest') :- ReadValue(rest);
        var (es, rest'') :- ReadEntries(rest', n - 1, Some(k));
        Ok(([Keyed(k, v)] + es, rest''))
  }

  function FromBytes(b: bytes): Res<Value> {
    var (v, rest) :- ReadValue(b);
    if rest != [] then Err(CborError(TrailingBytes)) else Ok(v)
  }

  // ---- accessors ----

  function AsUint(v: Value): Res<nat> {
    if v.Uint? then Ok(v.n) else Err(CborError(WrongKind))
  }

  function AsBytes(v: Value): Res<bytes> {
    if v.Bytes? then Ok(v.b) else Err(CborError(WrongKind))
  }

  function AsText(v: Value): Res<bytes> {
    if v.Text? then Ok(v.s) else Err(CborError(WrongKind))
  }

  /** The first entry with this key. */
  function Lookup(es: seq<Keyed<Value>>, k: bytes): Option<Value> {
    if es == [] then None
    else if es[0].key == k then Some(es[0].val)
    else Lookup(es[1..], k)
  }

  function GetOpt(v: Value, k: bytes): Res<Option<Value>> {
    if v.Map? then Ok(Lookup(v.entries, k)) else Err(CborError(WrongKind))
  }

  function Get(v: Value, k: bytes): Res<Value> {
    var found :- GetOpt(v, k);
    if found.Some? then Ok(found.value) else Err(MissingField)
  }
}
