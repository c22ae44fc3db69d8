/** Printer and parser undo each other, in both directions, for every value. */
module CborProofs {
  import opened Basics
  import opened Cbor

  // ---- heads ----

  /** Each width holds exactly the arguments from its least one up to the next width's. */
  lemma InfoOfArgument(info: nat, n: nat)
    requires 24 <= info < 28
    ensures Least(info) <= n < Pow256(Width(info)) <==> Info(n) == info && n < U64
  {
    Pow256Widths();
  }

  lemma ReadHeadOfHead(major: nat, n: nat, r: bytes)
    requires major < 8 && n < U64
    ensures ReadHead(Head(major, n) + r) == Ok((major, n, r))
  {
    hide ToBE, FromBE, Pow256, Info, Least;
    var b, info := Head(major, n) + r, Info(n);
    var w := Width(info);
    assert b[1..] == ToBE(n, w) + r;
    if info >= 24 {
      InfoOfArgument(info, n);
      FromToBE(n, w);
      assert b[1..][..w] == ToBE(n, w) && b[1..][w..] == r;
    }
  }

  lemma HeadOfReadHead(b: bytes)
    requires ReadHead(b).Ok?
    ensures var (major, n, r) := ReadHead(b).value;
            major < 8 && n < U64 && b == Head(major, n) + r
  {
    hide ToBE, FromBE, Pow256, Info;
    var (major, n, r) := ReadHead(b).value;
    var info := b[0] % 32;
    assert b == [32 * major + info] + b[1..];
    if info >= 24 {
      var w := Width(info);
      InfoOfArgument(info, n);
      ToFromBE(b[1..][..w]);
      assert b[1..] == ToBE(n, w) + r;
    }
  }

  /** Smaller arguments print to smaller heads, across all five widths. */
  lemma HeadOrder(major: nat, m: nat, n: nat, a: bytes, b: bytes)
    requires major < 8 && m < n < U64
    ensures LexLess(Head(major, m) + a, Head(major, n) + b)
  {
    var p, q := Head(major, m), Head(major, n);
    if p[0] == q[0] {
      var w := Width(Info(n));
      InfoOfArgument(Info(n), n);
      LexBE(m, n, w);
      LexSamePrefix([q[0]], ToBE(m, w), ToBE(n, w));
      LexPrefixDecides(p, q, a, b);
    }
  }

  /** Encoded-byte key order is "shorter first, then bytewise". */
  lemma KeyOrder(a: bytes, b: bytes)
    requires |a| < U64 && |b| < U64
    ensures KeyLess(a, b) <==> |a| < |b| || (|a| == |b| && LexLess(a, b))
  {
    if |a| < |b| {
      HeadOrder(3, |a|, |b|, a, b);
    } else if |a| == |b| {
      LexSamePrefix(Head(3, |a|), a, b);
    } else {
      HeadOrder(3, |b|, |a|, b, a);
      LexAsymmetric(EncodeKey(b), EncodeKey(a));
    }
  }

  lemma KeyTotal(a: bytes, b: bytes)
    requires |a| < U64 && |b| < U64 && a != b
    ensures KeyLess(a, b) || KeyLess(b, a)
  {
    KeyOrder(a, b);
    KeyOrder(b, a);
    LexTotal(a, b);
  }

  // ---- sorting ----

  predicate Sorted<T>(es: seq<Keyed<T>>) {
    |es| < 2 || (!KeyLess(es[1].key, es[0].key) && Sorted(es[1..]))
  }

  predicate StrictlySorted<T>(es: seq<Keyed<T>>) {
    |es| < 2 || (KeyLess(es[0].key, es[1].key) && StrictlySorted(es[1..]))
  }

  ghost predicate TextKeys<T>(es: seq<Keyed<T>>) {
    forall e :: e in es ==> |e.key| < U64
  }

  predicate Has<T>(es: seq<Keyed<T>>, k: bytes) {
    es != [] && (es[0].key == k || Has(es[1..], k))
  }

  /** No key occurs twice. */
  predicate Distinct<T>(es: seq<Keyed<T>>) {
    es == [] || (!Has(es[1..], es[0].key) && Distinct(es[1..]))
  }

  lemma {:induction false} InsertSorted<T>(e: Keyed<T>, es: seq<Keyed<T>>)
    requires Sorted(es)
    ensures Sorted(Insert(e, es))
    ensures Insert(e, es)[0] == e || (es != [] && Insert(e, es)[0] == es[0])
  {
    if es != [] && KeyLess(es[0].key, e.key) {
      InsertSorted(e, es[1..]);
      LexAsymmetric(EncodeKey(es[0].key), EncodeKey(e.key));
      assert Insert(e, es)[1..] == Insert(e, es[1..]);
    } else {
      assert Insert(e, es)[1..] == es;
    }
  }

  lemma {:induction false} InsertMultiset<T>(e: Keyed<T>, es: seq<Keyed<T>>)
    ensures multiset(Insert(e, es)) == multiset([e]) + multiset(es)
  {
    if es != [] && KeyLess(es[0].key, e.key) {
      InsertMultiset(e, es[1..]);
      assert es == [es[0]] + es[1..];
    }
  }

  lemma {:induction false} InsertHas<T>(e: Keyed<T>, es: seq<Keyed<T>>, k: bytes)
    ensures Has(Insert(e, es), k) <==> e.key == k || Has(es, k)
  {
    if es != [] && KeyLess(es[0].key, e.key) {
      InsertHas(e, es[1..], k);
      assert Insert(e, es)[1..] == Insert(e, es[1..]);
    } else {
      assert Insert(e, es)[1..] == es;
    }
  }

  lemma {:induction false} InsertDistinct<T>(e: Keyed<T>, es: seq<Keyed<T>>)
    ensures Distinct(Insert(e, es)) <==> !Has(es, e.key) && Distinct(es)
  {
    if es != [] && KeyLess(es[0].key, e.key) {
      LexIrreflexive(EncodeKey(e.key));
      InsertDistinct(e, es[1..]);
      InsertHas(e, es[1..], es[0].key);
      assert Insert(e, es)[1..] == Insert(e, es[1..]);
    } else {
      assert Insert(e, es)[1..] == es;
    }
  }

  /** Sorting orders the keys and keeps the entries, so it keeps (non-)duplication too. */
  lemma {:induction false} SortProps<T>(es: seq<Keyed<T>>)
    ensures Sorted(Sort(es))
    ensures multiset(Sort(es)) == multiset(es)
    ensures Distinct(Sort(es)) <==> Distinct(es)
    ensures forall k :: Has(Sort(es), k) <==> Has(es, k)
  {
    hide KeyLess, Insert;
    if es != [] {
      var t := Sort(es[1..]);
      SortProps(es[1..]);
      InsertSorted(es[0], t);
      InsertMultiset(es[0], t);
      InsertDistinct(es[0], t);
      assert es == [es[0]] + es[1..];
      forall k
        ensures Has(Sort(es), k) <==> Has(es, k)
      {
        InsertHas(es[0], t, k);
      }
    }
  }

  lemma SortLength<T>(es: seq<Keyed<T>>)
    ensures |Sort(es)| == |es|
  {
    SortProps(es);
    assert |multiset(Sort(es))| == |multiset(es)|;
  }

  lemma SortMember<T>(es: seq<Keyed<T>>, i: nat) returns (j: nat)
    requires i < |Sort(es)|
    ensures j < |es| && es[j] == Sort(es)[i]
  {
    SortProps(es);
    assert Sort(es)[i] in multiset(Sort(es));
    assert Sort(es)[i] in es;
    j :| j < |es| && es[j] == Sort(es)[i];
  }

  lemma {:induction false} SortOfSorted<T>(es: seq<Keyed<T>>)
    requires Sorted(es)
    ensures Sort(es) == es
  {
    if es != [] {
      SortOfSorted(es[1..]);
      assert es == [es[0]] + es[1..];
    }
  }

  lemma {:induction false} StrictAbove<T>(es: seq<Keyed<T>>, k: bytes, x: bytes)
    requires StrictlySorted(es) && es != [] && KeyLess(k, es[0].key) && Has(es, x)
    ensures KeyLess(k, x) && k != x
  {
    if es[0].key != x {
      LexTransitive(EncodeKey(k), EncodeKey(es[0].key), EncodeKey(es[1].key));
      StrictAbove(es[1..], k, x);
    }
    LexIrreflexive(EncodeKey(k));
  }

  lemma {:induction false} StrictIsSortedDistinct<T>(es: seq<Keyed<T>>)
    requires StrictlySorted(es)
    ensures Sorted(es) && Distinct(es)
  {
    if |es| >= 2 {
      LexAsymmetric(EncodeKey(es[0].key), EncodeKey(es[1].key));
      StrictIsSortedDistinct(es[1..]);
      if Has(es[1..], es[0].key) {
        StrictAbove(es[1..], es[0].key, es[0].key);
      }
    }
  }

  lemma {:induction false} SortedDistinctIsStrict<T>(es: seq<Keyed<T>>)
    requires Sorted(es) && TextKeys(es) && Distinct(es)
    ensures StrictlySorted(es)
  {
    if |es| >= 2 {
      assert es[1..][0] == es[1];
      KeyTotal(es[0].key, es[1].key);
      SortedDistinctIsStrict(es[1..]);
    }
  }

  // ---- canonical form ----

  /** The value with the entries of every map, at every depth, in encoded-key order. */
  function Canon(v: Value): Value
    decreases v, 1
  {
    match v
    case Array(items) => Array(CanonItems(items))
    case Map(es) => Map(Sort(CanonValues(es)))
    case _ => v
  }

  function CanonItems(items: seq<Value>): seq<Value>
    decreases items, 0
  {
    if items == [] then [] else [Canon(items[0])] + CanonItems(items[1..])
  }

  function CanonValues(es: seq<Keyed<Value>>): seq<Keyed<Value>>
    decreases es, 0
  {
    if es == [] then [] else [Keyed(es[0].key, Canon(es[0].val))] + CanonValues(es[1..])
  }

  /** No map, at any depth, repeats a key. */
  predicate NoRepeats(v: Value) {
    match v
    case Array(items) => forall x :: x in items ==> NoRepeats(x)
    case Map(es) => Distinct(es) && forall e :: e in es ==> NoRepeats(e.val)
    case _ => true
  }

  predicate NoRepeatsInItems(items: seq<Value>) {
    forall x :: x in items ==> NoRepeats(x)
  }

  predicate NoRepeatsInValues(es: seq<Keyed<Value>>) {
    forall e :: e in es ==> NoRepeats(e.val)
  }

  lemma {:induction false} EncodeValuesInsert(e: Keyed<Value>, es: seq<Keyed<Value>>)
    ensures EncodeValues(Insert(e, es)) == Insert(Keyed(e.key, Encode(e.val)), EncodeValues(es))
  {
    if es != [] && KeyLess(es[0].key, e.key) {
      EncodeValuesInsert(e, es[1..]);
      assert Insert(e, es)[1..] == Insert(e, es[1..]);
      assert EncodeValues(es)[1..] == EncodeValues(es[1..]);
    } else {
      assert Insert(e, es)[1..] == es;
    }
  }

  lemma {:induction false} EncodeValuesSort(es: seq<Keyed<Value>>)
    ensures EncodeValues(Sort(es)) == Sort(EncodeValues(es))
  {
    if es != [] {
      EncodeValuesSort(es[1..]);
      EncodeValuesInsert(es[0], Sort(es[1..]));
      assert EncodeValues(es)[1..] == EncodeValues(es[1..]);
    }
  }

  lemma {:induction false} CanonValuesInsert(e: Keyed<Value>, es: seq<Keyed<Value>>)
    ensures CanonValues(Insert(e, es)) == Insert(Keyed(e.key, Canon(e.val)), CanonValues(es))
  {
    if es != [] && KeyLess(es[0].key, e.key) {
      CanonValuesInsert(e, es[1..]);
      assert Insert(e, es)[1..] == Insert(e, es[1..]);
      assert CanonValues(es)[1..] == CanonValues(es[1..]);
    } else {
      assert Insert(e, es)[1..] == es;
    }
  }

  lemma {:induction false} CanonValuesSort(es: seq<Keyed<Value>>)
    ensures CanonValues(Sort(es)) == Sort(CanonValues(es))
  {
    if es != [] {
      CanonValuesSort(es[1..]);
      CanonValuesInsert(es[0], Sort(es[1..]));
      assert CanonValues(es)[1..] == CanonValues(es[1..]);
    }
  }

  // ---- parsing what was printed ----

  const REPEATED: AuthError := CborError(CborFault.KeyOrder)

  /** Printed and read back, with anything after it: the canonical form, or a key-order
      rejection exactly when some map repeats a key. */
  ghost predicate RoundTrips(v: Value) {
    forall r: bytes ::
      ReadValue(Encode(v) + r) == if NoRepeats(v) then Ok((Canon(v), r)) else Err(REPEATED)
  }

  lemma {:induction false} RoundTripItems(items: seq<Value>, r: bytes)
    requires forall x :: x in items ==> RoundTrips(x)
    ensures ReadItems(EncodeItems(items) + r, |items|)
            == if NoRepeatsInItems(items) then Ok((CanonItems(items), r)) else Err(REPEATED)
  {
    hide ReadValue, Encode;
    if items != [] {
      var x, t := items[0], items[1..];
      assert items == [x] + t;
      var rest := EncodeItems(t) + r;
      assert EncodeItems(items) + r == Encode(x) + rest;
      assert x in items && RoundTrips(x);
      RoundTripItems(t, r);
      assert NoRepeatsInItems(items) <==> NoRepeats(x) && NoRepeatsInItems(t);
    } else {
      assert EncodeItems(items) + r == r;
    }
  }

  predicate StrictAfter(prev: Option<bytes>, es: seq<Keyed<Value>>) {
    (prev.Some? && es != [] ==> KeyLess(prev.value, es[0].key)) && StrictlySorted(es)
  }

  lemma ReadKeyOfKey(k: bytes, r: bytes)
    requires IsText(k)
    ensures ReadKey(EncodeKey(k) + r) == Ok((k, r))
  {
    hide ReadHead, Head;
    ReadHeadOfHead(3, |k|, k + r);
    assert EncodeKey(k) + r == Head(3, |k|) + (k + r);
    assert (k + r)[..|k|] == k && (k + r)[|k|..] == r;
  }

  lemma FlattenCons(es: seq<Keyed<Value>>, r: bytes)
    requires es != []
    ensures Flatten(EncodeValues(es)) + r
            == EncodeKey(es[0].key) + (Encode(es[0].val) + (Flatten(EncodeValues(es[1..])) + r))
  {
    var t := EncodeValues(es[1..]);
    assert EncodeValues(es) == [Keyed(es[0].key, Encode(es[0].val))] + t;
    assert EncodeValues(es)[1..] == t;
    Concat4(EncodeKey(es[0].key), Encode(es[0].val), Flatten(t), r);
  }

  lemma Concat4(a: bytes, b: bytes, c: bytes, d: bytes)
    ensures (a + b + c) + d == a + (b + (c + d))
  {
  }

  /** One turn of the entry loop on a printed key. */
  lemma ReadEntriesCons(k: bytes, b: bytes, n: nat, prev: Option<bytes>)
    requires IsText(k)
    ensures prev.Some? && !KeyLess(prev.value, k) ==>
              ReadEntries(EncodeKey(k) + b, n + 1, prev) == Err(REPEATED)
    ensures !(prev.Some? && !KeyLess(prev.value, k)) ==>
              ReadEntries(EncodeKey(k) + b, n + 1, prev)
              == var (v, r) :- ReadValue(b);
                 var (es, r') :- ReadEntries(r, n, Some(k));
                 Ok(([Keyed(k, v)] + es, r'))
  {
    hide ReadValue, ReadKey, KeyLess, EncodeKey;
    ReadKeyOfKey(k, b);
  }

  lemma {:induction false} RoundTripEntries(es: seq<Keyed<Value>>, prev: Option<bytes>, r: bytes)
    requires forall e :: e in es ==> IsText(e.key) && RoundTrips(e.val)
    ensures ReadEntries(Flatten(EncodeValues(es)) + r, |es|, prev)
            == if StrictAfter(prev, es) && NoRepeatsInValues(es) then Ok((CanonValues(es), r))
               else Err(REPEATED)
  {
    if es == [] {
      assert Flatten(EncodeValues(es)) + r == r;
    } else {
      var e, t := es[0], es[1..];
      assert e in es;
      assert forall x :: x in es <==> x == e || x in t by {
        assert es == [e] + t;
      }
      RoundTripEntries(t, Some(e.key), r);
      RoundTripEntryStep(e, t, prev, r);
      FlattenCons(es, r);
      assert NoRepeatsInValues(es) <==> NoRepeats(e.val) && NoRepeatsInValues(t);
      assert StrictAfter(prev, es) <==>
        (prev.Some? ==> KeyLess(prev.value, e.key)) && StrictAfter(Some(e.key), t);
    }
  }

  lemma RoundTripEntryStep(e: Keyed<Value>, t: seq<Keyed<Value>>, prev: Option<bytes>, r: bytes)
    requires IsText(e.key) && RoundTrips(e.val)
    ensures ReadEntries(EncodeKey(e.key) + (Encode(e.val) + (Flatten(EncodeValues(t)) + r)), |t| + 1, prev)
            == if prev.Some? && !KeyLess(prev.value, e.key) then Err(REPEATED)
               else if !NoRepeats(e.val) then Err(REPEATED)
               else
                 var (es, r') :- ReadEntries(Flatten(EncodeValues(t)) + r, |t|, Some(e.key));
                 Ok(([Keyed(e.key, Canon(e.val))] + es, r'))
  {
    hide ReadValue, ReadEntries, KeyLess, EncodeKey;
    var rest := Flatten(EncodeValues(t)) + r;
    ReadEntriesCons(e.key, Encode(e.val) + rest, |t|, prev);
  }

  lemma SortKeepsMembers(es: seq<Keyed<Value>>)
    ensures forall e :: e in Sort(es) <==> e in es
  {
    SortProps(es);
    assert forall e :: e in Sort(es) <==> e in multiset(Sort(es));
  }

  lemma SortStrictIffDistinct(es: seq<Keyed<Value>>)
    requires TextKeys(es)
    ensures StrictlySorted(Sort(es)) <==> Distinct(es)
  {
    SortProps(es);
    SortKeepsMembers(es);
    if Distinct(es) {
      SortedDistinctIsStrict(Sort(es));
    } else if StrictlySorted(Sort(es)) {
      StrictIsSortedDistinct(Sort(es));
    }
  }

  lemma RoundTripMap(es: seq<Keyed<Value>>, r: bytes)
    requires |es| < U64
    requires forall e :: e in es ==> IsText(e.key) && RoundTrips(e.val)
    ensures ReadValue(Encode(Map(es)) + r)
            == if NoRepeats(Map(es)) then Ok((Canon(Map(es)), r)) else Err(REPEATED)
  {
    var s := Sort(es);
    SortKeepsMembers(es);
    SortLength(es);
    SortStrictIffDistinct(es);
    RoundTripEntries(s, None, r);
    assert NoRepeats(Map(es)) <==> StrictAfter(None, s) && NoRepeatsInValues(s);
    CanonValuesSort(es);
    EncodeMapSorted(es, r);
    ReadMap(|es|, Flatten(EncodeValues(s)) + r);
  }

  lemma EncodeMapSorted(es: seq<Keyed<Value>>, r: bytes)
    ensures Encode(Map(es)) + r == Head(5, |es|) + (Flatten(EncodeValues(Sort(es))) + r)
  {
    EncodeValuesSort(es);
  }

  lemma ReadMap(n: nat, b: bytes)
    requires n < U64
    ensures ReadValue(Head(5, n) + b)
            == var (es, r) :- ReadEntries(b, n, None); Ok((Map(es), r))
  {
    hide ReadHead, Head;
    ReadHeadOfHead(5, n, b);
  }

  lemma RoundTripLeaf(v: Value, r: bytes)
    requires Representable(v) && !v.Array? && !v.Map?
    ensures ReadValue(Encode(v) + r) == Ok((v, r))
  {
    hide ReadHead, Head;
    if v.Uint? {
      ReadHeadOfHead(0, v.n, r);
    } else {
      var major, s := if v.Bytes? then 2 else 3, if v.Bytes? then v.b else v.s;
      assert Encode(v) + r == Head(major, |s|) + (s + r);
      ReadHeadOfHead(major, |s|, s + r);
      assert (s + r)[..|s|] == s && (s + r)[|s|..] == r;
    }
  }

  lemma RoundTripArray(items: seq<Value>, r: bytes)
    requires |items| < U64 && forall x :: x in items ==> RoundTrips(x)
    ensures ReadValue(Encode(Array(items)) + r)
            == if NoRepeatsInItems(items) then Ok((Array(CanonItems(items)), r)) else Err(REPEATED)
  {
    hide ReadHead, Head;
    var b := EncodeItems(items) + r;
    RoundTripItems(items, r);
    ReadHeadOfHead(4, |items|, b);
    assert Encode(Array(items)) + r == Head(4, |items|) + b;
  }

  /** The printer is undone by the parser, for every value of the Rust type. */
  lemma {:induction false} RoundTrip(v: Value)
    requires Representable(v)
    ensures RoundTrips(v)
    decreases v
  {
    if v.Array? {
      forall x | x in v.items
        ensures RoundTrips(x)
      {
        RoundTrip(x);
      }
    } else if v.Map? {
      forall e | e in v.entries
        ensures RoundTrips(e.val)
      {
        RoundTrip(e.val);
      }
    }
    forall r: bytes
      ensures ReadValue(Encode(v) + r)
              == if NoRepeats(v) then Ok((Canon(v), r)) else Err(REPEATED)
    {
      if v.Array? {
        RoundTripArray(v.items, r);
      } else if v.Map? {
        RoundTripMap(v.entries, r);
      } else {
        RoundTripLeaf(v, r);
      }
    }
  }

  // ---- printing what was parsed ----

  /** Values the parser can return: every map strictly ordered by encoded key. */
  predicate Canonical(v: Value) {
    match v
    case Array(items) => forall x :: x in items ==> Canonical(x)
    case Map(es) => StrictlySorted(es) && forall e :: e in es ==> Canonical(e.val)
    case _ => true
  }

  lemma {:induction false} CanonicalIsFixed(v: Value)
    requires Canonical(v)
    ensures Canon(v) == v && NoRepeats(v)
    decreases v, 1
  {
    match v
    case Array(items) => CanonicalItemsFixed(items);
    case Map(es) =>
      CanonicalValuesFixed(es);
      StrictIsSortedDistinct(es);
      SortOfSorted(es);
    case _ =>
  }

  lemma {:induction false} CanonicalItemsFixed(items: seq<Value>)
    requires forall x :: x in items ==> Canonical(x)
    ensures CanonItems(items) == items && NoRepeatsInItems(items)
    decreases items, 0
  {
    if items != [] {
      CanonicalIsFixed(items[0]);
      CanonicalItemsFixed(items[1..]);
      assert items == [items[0]] + items[1..];
    }
  }

  lemma {:induction false} CanonicalValuesFixed(es: seq<Keyed<Value>>)
    requires forall e :: e in es ==> Canonical(e.val)
    ensures CanonValues(es) == es && NoRepeatsInValues(es)
    decreases es, 0
  {
    if es != [] {
      CanonicalIsFixed(es[0].val);
      CanonicalValuesFixed(es[1..]);
      assert es == [es[0]] + es[1..];
    }
  }

  ghost predicate Well(v: Value) {
    Representable(v) && Canonical(v)
  }

  lemma KeyOfReadKey(b: bytes, k: bytes, r: bytes)
    requires ReadKey(b) == Ok((k, r))
    ensures IsText(k) && b == EncodeKey(k) + r
  {
    hide ReadHead, Head;
    HeadOfReadHead(b);
    var (_, n, rest) := ReadHead(b).value;
    assert rest == rest[..n] + rest[n..];
  }

  lemma {:induction false} StrictItems(b: bytes, n: nat, vs: seq<Value>, r: bytes)
    requires ReadItems(b, n) == Ok((vs, r))
    ensures |vs| == n && b == EncodeItems(vs) + r && forall x :: x in vs ==> Well(x)
    decreases |b|, 1
  {
    hide ReadValue, Well;
    if n > 0 {
      var (v, rest) := ReadValue(b).value;
      StrictValue(b, v, rest);
      StrictItems(rest, n - 1, vs[1..], r);
    }
  }

  ghost predicate Entries(b: bytes, n: nat, prev: Option<bytes>, es: seq<Keyed<Value>>, r: bytes) {
    |es| == n && StrictAfter(prev, es) && b == Flatten(EncodeValues(es)) + r &&
    forall e :: e in es ==> IsText(e.key) && Well(e.val)
  }

  ghost predicate ReadsEntries(b: bytes, n: nat, prev: Option<bytes>, es: seq<Keyed<Value>>, r: bytes) {
    ReadEntries(b, n, prev) == Ok((es, r))
  }

  ghost predicate Reads(b: bytes, v: Value, r: bytes) {
    ReadValue(b) == Ok((v, r))
  }

  lemma {:induction false} StrictEntries(b: bytes, n: nat, prev: Option<bytes>,
                                         all: seq<Keyed<Value>>, r: bytes)
    requires ReadsEntries(b, n, prev, all, r)
    ensures Entries(b, n, prev, all, r)
    decreases |b|, 1
  {
    hide ReadEntries, ReadValue, ReadKey, Well;
    if n == 0 {
      NoEntries(b, prev, all, r);
    } else {
      var k, rest, v, rest', es := ReadEntriesInverse(b, n, prev, all, r);
      KeyOfReadKey(b, k, rest);
      StrictValue(rest, v, rest');
      StrictEntries(rest', n - 1, Some(k), es, r);
      EntriesCons(b, n, prev, k, rest, v, rest', es, r);
    }
  }

  lemma NoEntries(b: bytes, prev: Option<bytes>, es: seq<Keyed<Value>>, r: bytes)
    requires ReadsEntries(b, 0, prev, es, r)
    ensures Entries(b, 0, prev, es, r)
  {
  }

  lemma ReadEntriesInverse(b: bytes, n: nat, prev: Option<bytes>, all: seq<Keyed<Value>>, r: bytes)
    returns (k: bytes, rest: bytes, v: Value, rest': bytes, es: seq<Keyed<Value>>)
    requires n > 0 && ReadsEntries(b, n, prev, all, r)
    ensures ReadKey(b) == Ok((k, rest)) && Reads(rest, v, rest')
    ensures ReadsEntries(rest', n - 1, Some(k), es, r)
    ensures all == [Keyed(k, v)] + es
    ensures |rest'| < |rest| < |b| && (prev.Some? ==> KeyLess(prev.value, k))
  {
    hide ReadValue, ReadKey, KeyLess;
    k, rest := ReadKey(b).value.0, ReadKey(b).value.1;
    v, rest' := ReadValue(rest).value.0, ReadValue(rest).value.1;
    es := ReadEntries(rest', n - 1, Some(k)).value.0;
  }

  lemma EntriesCons(b: bytes, n: nat, prev: Option<bytes>,
                    k: bytes, rest: bytes, v: Value, rest': bytes, es: seq<Keyed<Value>>, r: bytes)
    requires n > 0 && b == EncodeKey(k) + rest && rest == Encode(v) + rest'
    requires IsText(k) && Well(v) && (prev.Some? ==> KeyLess(prev.value, k))
    requires Entries(rest', n - 1, Some(k), es, r)
    ensures Entries(b, n, prev, [Keyed(k, v)] + es, r)
  {
    hide Well, EncodeKey, Encode;
    StrictEntryStep(Keyed(k, v), es, prev, r);
  }

  lemma StrictEntryStep(e: Keyed<Value>, t: seq<Keyed<Value>>, prev: Option<bytes>, r: bytes)
    ensures var es := [e] + t;
            EncodeKey(e.key) + (Encode(e.val) + (Flatten(EncodeValues(t)) + r))
            == Flatten(EncodeValues(es)) + r &&
            (StrictAfter(prev, es) <==>
              (prev.Some? ==> KeyLess(prev.value, e.key)) && StrictAfter(Some(e.key), t)) &&
            forall x :: x in es <==> x == e || x in t
  {
    var es := [e] + t;
    assert es[1..] == t;
    FlattenCons(es, r);
  }

  lemma SortedMapBytes(es: seq<Keyed<Value>>, r: bytes)
    requires StrictlySorted(es)
    ensures Encode(Map(es)) + r == Head(5, |es|) + (Flatten(EncodeValues(es)) + r)
  {
    StrictIsSortedDistinct(es);
    SortOfSorted(es);
    EncodeMapSorted(es, r);
  }

  /** Whatever the parser accepts is exactly what the printer writes for the value it returns. */
  lemma {:induction false} StrictValue(b: bytes, v: Value, r: bytes)
    requires Reads(b, v, r)
    ensures Well(v) && b == Encode(v) + r
    decreases |b|, 0
  {
    hide ReadHead, Head;
    HeadOfReadHead(b);
    var (major, n, rest) := ReadHead(b).value;
    match major
    case 4 =>
      StrictItems(rest, n, v.items, r);
      assert Encode(v) + r == Head(4, n) + (EncodeItems(v.items) + r);
    case 5 =>
      StrictEntries(rest, n, None, v.entries, r);
      SortedMapBytes(v.entries, r);
    case _ =>
      StrictLeaf(b, v, r);
  }

  lemma StrictLeaf(b: bytes, v: Value, r: bytes)
    requires Reads(b, v, r) && !v.Array? && !v.Map?
    ensures Well(v) && b == Encode(v) + r
  {
    hide ReadHead, Head;
    HeadOfReadHead(b);
    var (major, n, rest) := ReadHead(b).value;
    if major != 0 {
      assert rest == rest[..n] + rest[n..];
    }
  }

  // ---- the codec laws ----

  /** Strictness: an accepted input is the one encoding of the value it yields. */
  lemma Strictness(b: bytes)
    requires FromBytes(b).Ok?
    ensures var v := FromBytes(b).value;
            Encode(v) == b && Representable(v) && NoRepeats(v) && Canon(v) == v
  {
    var v := FromBytes(b).value;
    StrictValue(b, v, []);
    CanonicalIsFixed(v);
    assert Encode(v) + [] == Encode(v);
  }

  /** Round trip, with its exact condition. */
  lemma EncodeThenDecode(v: Value)
    requires Representable(v)
    ensures FromBytes(Encode(v)) == if NoRepeats(v) then Ok(Canon(v)) else Err(REPEATED)
  {
    RoundTrip(v);
    assert Encode(v) + [] == Encode(v);
    assert ReadValue(Encode(v) + []) == if NoRepeats(v) then Ok((Canon(v), [])) else Err(REPEATED);
  }

  /** Encodings are prefix-free and injective up to the order of map entries. */
  lemma PrefixFree(u: Value, v: Value, r: bytes, s: bytes)
    requires Representable(u) && Representable(v) && NoRepeats(u) && NoRepeats(v)
    requires Encode(u) + r == Encode(v) + s
    ensures Canon(u) == Canon(v) && r == s
  {
    RoundTrip(u);
    RoundTrip(v);
    assert ReadValue(Encode(u) + r) == Ok((Canon(u), r));
    assert ReadValue(Encode(v) + s) == Ok((Canon(v), s));
  }

  /** The printer ignores the order in which distinct keys were inserted. */
  lemma EncodeCanon(v: Value)
    requires Representable(v) && NoRepeats(v)
    ensures Encode(Canon(v)) == Encode(v)
  {
    EncodeThenDecode(v);
    Strictness(Encode(v));
  }

  /** The accepted inputs are exactly the printer's outputs on repeat-free values. */
  lemma AcceptedIsImage(b: bytes)
    ensures FromBytes(b).Ok? <==> exists v :: Representable(v) && NoRepeats(v) && Encode(v) == b
  {
    if FromBytes(b).Ok? {
      Strictness(b);
    }
    if v :| Representable(v) && NoRepeats(v) && Encode(v) == b {
      EncodeThenDecode(v);
    }
  }
}
