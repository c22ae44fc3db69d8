/** Maps by what they look up: the canonical form of a map is determined by its lookups. */
module CborMaps {
  import opened Basics
  import opened Cbor
  import opened CborProofs

  type Entries = seq<Keyed<Value>>

  function CanonOption(v: Option<Value>): Option<Value> {
    if v.Some? then Some(Canon(v.value)) else None
  }

  lemma {:induction false} LookupHas(es: Entries, k: bytes)
    ensures Lookup(es, k).Some? <==> Has(es, k)
  {
    if es != [] {
      LookupHas(es[1..], k);
    }
  }

  /** In a list without repeats every entry is found. */
  lemma {:induction false} LookupEntry(es: Entries, e: Keyed<Value>)
    requires Distinct(es) && e in es
    ensures Lookup(es, e.key) == Some(e.val)
  {
    if es[0] != e {
      assert e in es[1..];
      LookupEntry(es[1..], e);
      LookupHas(es[1..], e.key);
    }
  }

  lemma {:induction false} LookupAbsent(es: Entries, k: bytes)
    requires forall e :: e in es ==> e.key != k
    ensures Lookup(es, k) == None
  {
    if es != [] {
      LookupAbsent(es[1..], k);
    }
  }

  /** Every looked-up value comes from an entry. */
  lemma {:induction false} LookupFound(es: Entries, k: bytes)
    requires Lookup(es, k).Some?
    ensures Keyed(k, Lookup(es, k).value) in es
  {
    if es[0].key != k {
      LookupFound(es[1..], k);
    }
  }

  lemma {:induction false} DistinctByIndex(es: Entries)
    requires forall i, j :: 0 <= i < j < |es| ==> es[i].key != es[j].key
    ensures Distinct(es)
  {
    if es != [] {
      var t := es[1..];
      assert forall i :: 0 <= i < |t| ==> t[i] == es[i + 1];
      DistinctByIndex(t);
      if Has(t, es[0].key) {
        LookupHas(t, es[0].key);
        LookupFound(t, es[0].key);
      }
    }
  }

  lemma {:induction false} LookupInsert(e: Keyed<Value>, es: Entries, k: bytes)
    requires !Has(es, e.key)
    ensures Lookup(Insert(e, es), k) == if k == e.key then Some(e.val) else Lookup(es, k)
  {
    if es != [] && KeyLess(es[0].key, e.key) {
      LookupInsert(e, es[1..], k);
      assert Insert(e, es)[1..] == Insert(e, es[1..]);
    } else {
      assert Insert(e, es)[1..] == es;
    }
  }

  lemma {:induction false} LookupSort(es: Entries, k: bytes)
    requires Distinct(es)
    ensures Lookup(Sort(es), k) == Lookup(es, k)
  {
    if es != [] {
      LookupSort(es[1..], k);
      SortProps(es[1..]);
      LookupInsert(es[0], Sort(es[1..]), k);
    }
  }

  lemma {:induction false} LookupCanonValues(es: Entries, k: bytes)
    ensures Lookup(CanonValues(es), k) == CanonOption(Lookup(es, k))
  {
    if es != [] {
      LookupCanonValues(es[1..], k);
      assert CanonValues(es)[1..] == CanonValues(es[1..]);
    }
  }

  lemma {:induction false} CanonValuesKeys(es: Entries)
    ensures Distinct(CanonValues(es)) <==> Distinct(es)
  {
    if es != [] {
      CanonValuesKeys(es[1..]);
      assert CanonValues(es)[1..] == CanonValues(es[1..]);
      LookupCanonValues(es[1..], es[0].key);
      LookupHas(es[1..], es[0].key);
      LookupHas(CanonValues(es[1..]), es[0].key);
    }
  }

  lemma LookupCanon(es: Entries, k: bytes)
    requires Distinct(es)
    ensures Lookup(Canon(Map(es)).entries, k) == CanonOption(Lookup(es, k))
  {
    CanonValuesKeys(es);
    LookupSort(CanonValues(es), k);
    LookupCanonValues(es, k);
  }

  lemma LookupAboveHead(es: Entries, k: bytes)
    requires StrictlySorted(es) && es != [] && Lookup(es, k).Some?
    ensures k == es[0].key || KeyLess(es[0].key, k)
  {
    if k != es[0].key {
      LookupHas(es[1..], k);
      StrictAbove(es[1..], es[0].key, k);
    }
  }

  /** Strictly ordered lists with the same lookups are the same list. */
  lemma {:induction false} SameLookups(a: Entries, b: Entries)
    requires StrictlySorted(a) && StrictlySorted(b)
    requires forall k :: Lookup(a, k) == Lookup(b, k)
    ensures a == b
  {
    if a == [] {
      if b != [] {
        assert Lookup(b, b[0].key).Some?;
      }
    } else {
      assert Lookup(a, a[0].key).Some?;
      assert b != [] && Lookup(b, b[0].key).Some?;
      LookupAboveHead(a, b[0].key);
      LookupAboveHead(b, a[0].key);
      if a[0].key != b[0].key {
        LexAsymmetric(EncodeKey(a[0].key), EncodeKey(b[0].key));
      }
      assert a[0] == b[0];
      SameLookupsTail(a, b);
      SameLookups(a[1..], b[1..]);
      assert a == [a[0]] + a[1..] && b == [b[0]] + b[1..];
    }
  }

  lemma SameLookupsTail(a: Entries, b: Entries)
    requires StrictlySorted(a) && StrictlySorted(b) && a != [] && b != [] && a[0].key == b[0].key
    requires forall k :: Lookup(a, k) == Lookup(b, k)
    ensures forall k :: Lookup(a[1..], k) == Lookup(b[1..], k)
  {
    StrictIsSortedDistinct(a);
    StrictIsSortedDistinct(b);
    LookupHas(a[1..], a[0].key);
    LookupHas(b[1..], a[0].key);
    forall k
      ensures Lookup(a[1..], k) == Lookup(b[1..], k)
    {
      assert Lookup(a, k) == Lookup(b, k);
    }
  }

  /** A canonical map with the (canonical) lookups of `es` is the canonical form of `es`. */
  lemma CanonByLookups(es: Entries, vs: Entries)
    requires Distinct(es) && TextKeys(es) && Canonical(Map(vs))
    requires forall k :: Lookup(vs, k) == CanonOption(Lookup(es, k))
    ensures Canon(Map(es)) == Map(vs)
  {
    var cs := Sort(CanonValues(es));
    forall k
      ensures Lookup(cs, k) == Lookup(vs, k)
    {
      LookupCanon(es, k);
    }
    CanonValuesKeys(es);
    CanonValuesText(es);
    SortStrictIffDistinct(CanonValues(es));
    SameLookups(cs, vs);
  }

  lemma {:induction false} CanonValuesText(es: Entries)
    requires TextKeys(es)
    ensures TextKeys(CanonValues(es))
  {
    if es != [] {
      CanonValuesText(es[1..]);
    }
  }

  lemma {:induction false} CanonValuesSize(es: Entries)
    ensures |CanonValues(es)| == |es|
  {
    if es != [] {
      CanonValuesSize(es[1..]);
    }
  }

  lemma CanonSize(es: Entries)
    ensures |Canon(Map(es)).entries| == |es|
  {
    CanonValuesSize(es);
    SortLength(CanonValues(es));
  }
}
