/** The printer of the dcbor crate on the values used here: that of `Cbor`, after every text has been
    put in Unicode normalization form C. Which texts are equal in that form is left open. */
module Dcbor {
  import opened Basics
  import opened Cbor
  import opened CborProofs
  import opened CborMaps

  type Nfc = bytes -> bytes

  predicate IsAscii(s: bytes) {
    forall i :: 0 <= i < |s| ==> s[i] < 128
  }

  /** Form C is a projection that leaves ASCII alone and loses no text altogether. */
  ghost predicate Normalizes(nfc: Nfc) {
    (forall s :: nfc(nfc(s)) == nfc(s)) && (forall s :: IsAscii(s) ==> nfc(s) == s)
    && forall s :: nfc(s) == [] ==> s == []
  }

  /** A map is filed under the printed, hence normalized, form of its keys, so only values change. */
  function Normal(nfc: Nfc, v: Value): Value
    decreases v, 1
  {
    match v
    case Text(s) => Text(nfc(s))
    case Array(items) => Array(NormalItems(nfc, items))
    case Map(es) => Map(NormalEntries(nfc, es))
    case _ => v
  }

  function NormalItems(nfc: Nfc, items: seq<Value>): (r: seq<Value>)
    ensures |r| == |items|
    decreases items, 0
  {
    if items == [] then [] else [Normal(nfc, items[0])] + NormalItems(nfc, items[1..])
  }

  function NormalEntries(nfc: Nfc, es: Entries): (r: Entries)
    ensures |r| == |es|
    decreases es, 0
  {
    if es == [] then [] else [Keyed(es[0].key, Normal(nfc, es[0].val))] + NormalEntries(nfc, es[1..])
  }

  function Print(nfc: Nfc, v: Value): bytes {
    Encode(Normal(nfc, v))
  }

  function NormalOption(nfc: Nfc, v: Option<Value>): Option<Value> {
    if v.Some? then Some(Normal(nfc, v.value)) else None
  }

  lemma {:induction false} NormalLookup(nfc: Nfc, es: Entries, k: bytes)
    ensures Lookup(NormalEntries(nfc, es), k) == NormalOption(nfc, Lookup(es, k))
  {
    if es != [] {
      NormalLookup(nfc, es[1..], k);
      assert NormalEntries(nfc, es)[1..] == NormalEntries(nfc, es[1..]);
    }
  }

  lemma {:induction false} NormalEntriesSorted(nfc: Nfc, es: Entries)
    ensures StrictlySorted(NormalEntries(nfc, es)) <==> StrictlySorted(es)
  {
    hide KeyLess;
    if |es| >= 2 {
      NormalEntriesSorted(nfc, es[1..]);
      assert NormalEntries(nfc, es)[1..] == NormalEntries(nfc, es[1..]);
    }
  }

  /** Normalizing keeps the order of entries, so canonical values stay canonical. */
  lemma {:induction false} NormalKeepsCanonical(nfc: Nfc, v: Value)
    requires Canonical(v)
    ensures Canonical(Normal(nfc, v))
    decreases v, 1
  {
    match v
    case Array(items) => NormalItemsCanonical(nfc, items);
    case Map(es) =>
      hide StrictlySorted;
      NormalEntriesSorted(nfc, es);
      NormalValuesCanonical(nfc, es);
    case _ =>
  }

  lemma {:induction false} NormalItemsCanonical(nfc: Nfc, items: seq<Value>)
    requires forall x :: x in items ==> Canonical(x)
    ensures forall x :: x in NormalItems(nfc, items) ==> Canonical(x)
    decreases items, 0
  {
    if items != [] {
      NormalKeepsCanonical(nfc, items[0]);
      NormalItemsCanonical(nfc, items[1..]);
    }
  }

  lemma {:induction false} NormalValuesCanonical(nfc: Nfc, es: Entries)
    requires forall e :: e in es ==> Canonical(e.val)
    ensures forall e :: e in NormalEntries(nfc, es) ==> Canonical(e.val)
    decreases es, 0
  {
    if es != [] {
      NormalKeepsCanonical(nfc, es[0].val);
      NormalValuesCanonical(nfc, es[1..]);
    }
  }

  lemma {:induction false} NormalIsStable(nfc: Nfc, v: Value)
    requires Normalizes(nfc)
    ensures Normal(nfc, Normal(nfc, v)) == Normal(nfc, v)
    decreases v, 1
  {
    match v
    case Array(items) => NormalItemsStable(nfc, items);
    case Map(es) => NormalEntriesStable(nfc, es);
    case _ =>
  }

  lemma {:induction false} NormalItemsStable(nfc: Nfc, items: seq<Value>)
    requires Normalizes(nfc)
    ensures NormalItems(nfc, NormalItems(nfc, items)) == NormalItems(nfc, items)
    decreases items, 0
  {
    if items != [] {
      NormalIsStable(nfc, items[0]);
      NormalItemsStable(nfc, items[1..]);
      assert NormalItems(nfc, items)[1..] == NormalItems(nfc, items[1..]);
    }
  }

  lemma {:induction false} NormalEntriesStable(nfc: Nfc, es: Entries)
    requires Normalizes(nfc)
    ensures NormalEntries(nfc, NormalEntries(nfc, es)) == NormalEntries(nfc, es)
    decreases es, 0
  {
    if es != [] {
      NormalIsStable(nfc, es[0].val);
      NormalEntriesStable(nfc, es[1..]);
      assert NormalEntries(nfc, es)[1..] == NormalEntries(nfc, es[1..]);
    }
  }

  /** A printed value is in form C already: printing what a print reads back as changes nothing. */
  lemma PrintIsStable(nfc: Nfc, v: Value)
    requires Normalizes(nfc)
    ensures Print(nfc, Normal(nfc, v)) == Print(nfc, v)
  {
    NormalIsStable(nfc, v);
  }

  /** Prints agree exactly up to normalization. */
  lemma PrintExactly(nfc: Nfc, u: Value, v: Value)
    requires Canonical(u) && Canonical(v) && Representable(Normal(nfc, u)) && Representable(Normal(nfc, v))
    ensures Print(nfc, u) == Print(nfc, v) <==> Normal(nfc, u) == Normal(nfc, v)
  {
    hide Canonical, Representable, Encode, Canon, NoRepeats, Normal;
    NormalKeepsCanonical(nfc, u);
    NormalKeepsCanonical(nfc, v);
    CanonicalIsFixed(Normal(nfc, u));
    CanonicalIsFixed(Normal(nfc, v));
    EncodeThenDecode(Normal(nfc, u));
    EncodeThenDecode(Normal(nfc, v));
  }

  /** A list of entries whose values are scalars, texts among them ASCII, is left alone. */
  lemma {:induction false} PlainEntriesStay(nfc: Nfc, es: Entries)
    requires Normalizes(nfc)
    requires forall e :: e in es ==> e.val.Uint? || e.val.Bytes? || (e.val.Text? && IsAscii(e.val.s))
    ensures NormalEntries(nfc, es) == es
  {
    if es != [] {
      PlainEntriesStay(nfc, es[1..]);
      assert es == [es[0]] + es[1..];
    }
  }

  lemma {:induction false} NormalEntriesAt(nfc: Nfc, es: Entries, i: nat)
    requires i < |es|
    ensures NormalEntries(nfc, es)[i] == Keyed(es[i].key, Normal(nfc, es[i].val))
  {
    hide Normal;
    if i > 0 {
      NormalEntriesAt(nfc, es[1..], i - 1);
    }
  }

  lemma {:induction false} PlainItemsStay(nfc: Nfc, items: seq<Value>)
    requires forall x :: x in items ==> x.Uint? || x.Bytes?
    ensures NormalItems(nfc, items) == items
  {
    if items != [] {
      PlainItemsStay(nfc, items[1..]);
      assert items == [items[0]] + items[1..];
    }
  }

  /** A letter in one code point, and the same letter as base and combining accent. */
  const E_ACUTE: bytes := [0xC3, 0xA9]
  const E_COMBINED: bytes := [0x65, 0xCC, 0x81]

  lemma Idempotent(nfc: Nfc, s: bytes)
    requires Normalizes(nfc)
    ensures nfc(nfc(s)) == nfc(s)
  {
  }
}
