/** Gordian Envelope as far as the op log uses it: elements, the digest tree, elision. */
module Envelopes {
  import opened Basics
  import opened Cbor
  import opened CborProofs
  import opened Dcbor

  /** The digest function, and the normalization that leaves are printed in. */
  datatype Digester = Digester(sha: bytes -> bytes, nfc: Nfc)

  /** A leaf's CBOR item, with at most one tag around it. */
  datatype Item = Plain(v: Value) | Tagged(tag: nat, v: Value)

  function ItemBytes(h: Digester, c: Item): bytes {
    match c
    case Plain(v) => Print(h.nfc, v)
    case Tagged(t, v) => Head(6, t) + Print(h.nfc, v)
  }

  /** The item as a reader of its bytes gets it. */
  function NormalItem(h: Digester, c: Item): Item {
    c.(v := Normal(h.nfc, c.v))
  }

  /** `Elided` stands for every obscured element: all that is left is its digest. */
  datatype Envelope =
    | Leaf(item: Item)
    | Known(value: nat)
    | Node(subject: Envelope, assertions: seq<Envelope>)
    | Assertion(pred: Envelope, obj: Envelope)
    | Wrapped(inner: Envelope)
    | Elided(digest: bytes)

  const KNOWN_VALUE_TAG: nat := 40000

  function KnownBytes(n: nat): bytes {
    Head(6, KNOWN_VALUE_TAG) + Head(0, n)
  }

  function Subject(e: Envelope): Envelope {
    if e.Node? then e.subject else e
  }

  function Assertions(e: Envelope): seq<Envelope> {
    if e.Node? then e.assertions else []
  }

  // ---- the digest tree ----

  function Digest(h: Digester, e: Envelope): bytes
    decreases e, 1
  {
    match e
    case Leaf(c) => h.sha(ItemBytes(h, c))
    case Known(n) => h.sha(KnownBytes(n))
    case Node(s, xs) => h.sha(Digest(h, s) + Digests(h, xs))
    case Assertion(p, o) => h.sha(Digest(h, p) + Digest(h, o))
    case Wrapped(x) => h.sha(Digest(h, x))
    case Elided(d) => d
  }

  function Digests(h: Digester, xs: seq<Envelope>): bytes
    decreases xs, 0
  {
    if xs == [] then [] else Digest(h, xs[0]) + Digests(h, xs[1..])
  }

  /** What is hashed for an element that is not elided. */
  function Preimage(h: Digester, e: Envelope): bytes {
    match e
    case Leaf(c) => ItemBytes(h, c)
    case Known(n) => KnownBytes(n)
    case Node(s, xs) => Digest(h, s) + Digests(h, xs)
    case Assertion(p, o) => Digest(h, p) + Digest(h, o)
    case Wrapped(x) => Digest(h, x)
    case Elided(d) => []
  }

  // ---- building ----

  predicate Before(h: Digester, a: Envelope, b: Envelope) {
    LexLess(Digest(h, a), Digest(h, b))
  }

  /** Stable sort by digest. */
  function SortByDigest(h: Digester, xs: seq<Envelope>): seq<Envelope> {
    if xs == [] then [] else InsertByDigest(h, xs[0], SortByDigest(h, xs[1..]))
  }

  function InsertByDigest(h: Digester, x: Envelope, xs: seq<Envelope>): seq<Envelope> {
    if xs == [] then [x]
    else if Before(h, xs[0], x) then [xs[0]] + InsertByDigest(h, x, xs[1..])
    else [x] + xs
  }

  predicate Carries(h: Digester, xs: seq<Envelope>, d: bytes) {
    exists i :: 0 <= i < |xs| && Digest(h, xs[i]) == d
  }

  /** An assertion whose digest is already there is not added again. */
  function AddAssertion(h: Digester, e: Envelope, a: Envelope): Envelope {
    if e.Node? then
      if Carries(h, e.assertions, Digest(h, a)) then e
      else Node(e.subject, SortByDigest(h, e.assertions + [a]))
    else Node(e, SortByDigest(h, [a]))
  }

  /** Replace every element whose digest is in `targets` by that digest. */
  function Elide(h: Digester, targets: set<bytes>, e: Envelope): Envelope
    decreases e, 1
  {
    if Digest(h, e) in targets then Elided(Digest(h, e))
    else
      match e
      case Node(s, xs) => Node(Elide(h, targets, s), SortByDigest(h, ElideAll(h, targets, xs)))
      case Assertion(p, o) => Assertion(Elide(h, targets, p), Elide(h, targets, o))
      case Wrapped(x) => Wrapped(Elide(h, targets, x))
      case _ => e
  }

  function ElideAll(h: Digester, targets: set<bytes>, xs: seq<Envelope>): (r: seq<Envelope>)
    ensures |r| == |xs|
    decreases xs, 0
  {
    if xs == [] then [] else [Elide(h, targets, xs[0])] + ElideAll(h, targets, xs[1..])
  }

  // ---- digest order ----

  predicate Sorted(h: Digester, xs: seq<Envelope>) {
    |xs| < 2 || (!Before(h, xs[1], xs[0]) && Sorted(h, xs[1..]))
  }

  /** Strictly increasing digests: what building with `AddAssertion` keeps. */
  predicate Ordered(h: Digester, xs: seq<Envelope>) {
    |xs| < 2 || (Before(h, xs[0], xs[1]) && Ordered(h, xs[1..]))
  }

  lemma {:induction false} InsertProps(h: Digester, x: Envelope, xs: seq<Envelope>)
    requires Sorted(h, xs)
    ensures Sorted(h, InsertByDigest(h, x, xs))
    ensures multiset(InsertByDigest(h, x, xs)) == multiset([x]) + multiset(xs)
    ensures InsertByDigest(h, x, xs)[0] == x || (xs != [] && InsertByDigest(h, x, xs)[0] == xs[0])
  {
    hide LexLess, Digest;
    if xs != [] && Before(h, xs[0], x) {
      InsertProps(h, x, xs[1..]);
      LexAsymmetric(Digest(h, xs[0]), Digest(h, x));
      assert InsertByDigest(h, x, xs)[1..] == InsertByDigest(h, x, xs[1..]);
      assert xs == [xs[0]] + xs[1..];
    } else {
      assert InsertByDigest(h, x, xs)[1..] == xs;
    }
  }

  lemma {:induction false} SortByDigestProps(h: Digester, xs: seq<Envelope>)
    ensures Sorted(h, SortByDigest(h, xs)) && multiset(SortByDigest(h, xs)) == multiset(xs)
  {
    hide InsertByDigest, Before, Digest;
    if xs != [] {
      SortByDigestProps(h, xs[1..]);
      InsertProps(h, xs[0], SortByDigest(h, xs[1..]));
      assert xs == [xs[0]] + xs[1..];
    }
  }

  lemma {:induction false} SortOfSorted(h: Digester, xs: seq<Envelope>)
    requires Sorted(h, xs)
    ensures SortByDigest(h, xs) == xs
  {
    hide Digest, Before;
    if xs != [] {
      SortOfSorted(h, xs[1..]);
    }
  }

  /** Sorting looks at digests only. */
  lemma {:induction false} SortedByDigests(h: Digester, xs: seq<Envelope>, ys: seq<Envelope>)
    requires |xs| == |ys| && forall i :: 0 <= i < |xs| ==> Digest(h, xs[i]) == Digest(h, ys[i])
    ensures Sorted(h, xs) <==> Sorted(h, ys)
    ensures Digests(h, xs) == Digests(h, ys)
  {
    hide LexLess, Digest;
    if xs != [] {
      SortedByDigests(h, xs[1..], ys[1..]);
    }
  }

  lemma {:induction false} OrderedAbove(h: Digester, xs: seq<Envelope>, i: nat)
    requires Ordered(h, xs) && 0 < i < |xs|
    ensures Before(h, xs[0], xs[i])
  {
    hide LexLess, Digest;
    if i > 1 {
      OrderedAbove(h, xs[1..], i - 1);
      LexTransitive(Digest(h, xs[0]), Digest(h, xs[1]), Digest(h, xs[i]));
    }
  }

  /** Strict order means no digest, so no element, occurs twice. */
  lemma {:induction false} OrderedDistinct(h: Digester, xs: seq<Envelope>, i: nat, j: nat)
    requires Ordered(h, xs) && i < j < |xs|
    ensures xs[i] != xs[j] && Digest(h, xs[i]) != Digest(h, xs[j])
  {
    hide LexLess, Digest;
    if i == 0 {
      OrderedAbove(h, xs, j);
      LexAsymmetric(Digest(h, xs[0]), Digest(h, xs[j]));
    } else {
      OrderedDistinct(h, xs[1..], i - 1, j - 1);
    }
  }

  lemma {:induction false} SortedDistinctIsOrdered(h: Digester, xs: seq<Envelope>)
    requires Sorted(h, xs)
    requires forall i, j :: 0 <= i < j < |xs| ==> Digest(h, xs[i]) != Digest(h, xs[j])
    ensures Ordered(h, xs)
  {
    hide LexLess, Digest;
    if |xs| >= 2 {
      LexTotal(Digest(h, xs[0]), Digest(h, xs[1]));
      var t := xs[1..];
      assert forall i :: 0 <= i < |t| ==> t[i] == xs[i + 1];
      SortedDistinctIsOrdered(h, t);
    }
  }

  /** A set of elements has one strictly ordered list. */
  lemma {:induction false} OrderedUnique(h: Digester, xs: seq<Envelope>, ys: seq<Envelope>)
    requires Ordered(h, xs) && Ordered(h, ys) && forall x :: x in xs <==> x in ys
    ensures xs == ys
  {
    hide LexLess, Digest;
    if xs == [] {
      HeadIsMember(ys);
    } else {
      assert xs[0] in ys && ys[0] in xs;
      if xs[0] != ys[0] {
        OrderedLeast(h, xs, ys[0]);
        OrderedLeast(h, ys, xs[0]);
        LexAsymmetric(Digest(h, xs[0]), Digest(h, ys[0]));
      }
      OrderedTail(h, xs);
      OrderedTail(h, ys);
      OrderedUnique(h, xs[1..], ys[1..]);
      assert xs == [xs[0]] + xs[1..] && ys == [ys[0]] + ys[1..];
    }
  }

  lemma HeadIsMember(xs: seq<Envelope>)
    ensures xs == [] || exists x :: x in xs
  {
    assert xs == [] || xs[0] in xs;
  }

  lemma OrderedLeast(h: Digester, xs: seq<Envelope>, x: Envelope)
    requires Ordered(h, xs) && x in xs && x != xs[0]
    ensures Before(h, xs[0], x)
  {
    hide Ordered, Before;
    var i :| 0 <= i < |xs| && xs[i] == x;
    OrderedAbove(h, xs, i);
  }

  lemma OrderedTail(h: Digester, xs: seq<Envelope>)
    requires Ordered(h, xs) && xs != []
    ensures Ordered(h, xs[1..]) && forall x :: x in xs[1..] <==> x in xs && x != xs[0]
  {
    hide LexLess, Digest;
    assert xs == [xs[0]] + xs[1..];
    if xs[0] in xs[1..] {
      var i :| 0 <= i < |xs[1..]| && xs[1..][i] == xs[0];
      OrderedDistinct(h, xs, 0, i + 1);
    }
  }

  /** Adding keeps the strict order, and adds the element unless its digest was there. */
  lemma AddKeepsOrder(h: Digester, e: Envelope, a: Envelope)
    requires Ordered(h, Assertions(e))
    ensures var r := AddAssertion(h, e, a);
            r.Node? && r.subject == Subject(e) && Ordered(h, r.assertions)
            && (if Carries(h, Assertions(e), Digest(h, a)) then r == e
                else forall x :: x in r.assertions <==> x in Assertions(e) || x == a)
  {
    hide LexLess, Digest;
    var xs := Assertions(e);
    if Carries(h, xs, Digest(h, a)) {
      assert e.Node?;
    } else {
      var ys := xs + [a];
      assert !e.Node? ==> ys == [a];
      SortByDigestProps(h, ys);
      var zs := SortByDigest(h, ys);
      forall i, j | 0 <= i < j < |ys|
        ensures Digest(h, ys[i]) != Digest(h, ys[j])
      {
        if j < |xs| {
          OrderedDistinct(h, xs, i, j);
        }
      }
      DistinctByMultiset(h, ys, zs);
      SortedDistinctIsOrdered(h, zs);
      assert forall x :: x in zs <==> x in multiset(zs);
      assert forall x :: x in ys <==> x in multiset(ys);
    }
  }

  /** Rearranging a list keeps its digests apart. */
  lemma DistinctByMultiset(h: Digester, xs: seq<Envelope>, ys: seq<Envelope>)
    requires multiset(xs) == multiset(ys)
    requires forall i, j :: 0 <= i < j < |xs| ==> Digest(h, xs[i]) != Digest(h, xs[j])
    ensures forall i, j :: 0 <= i < j < |ys| ==> Digest(h, ys[i]) != Digest(h, ys[j])
  {
    hide Digest;
    forall i, j | 0 <= i < j < |ys|
      ensures Digest(h, ys[i]) != Digest(h, ys[j])
    {
      assert ys[i] in multiset(xs) && ys[j] in multiset(xs);
      var m :| 0 <= m < |xs| && xs[m] == ys[i];
      var n :| 0 <= n < |xs| && xs[n] == ys[j];
      if m == n {
        TwiceInSeq(ys, i, j);
        OnceInSeq(h, xs, m);
      }
    }
  }

  lemma TwiceInSeq<T>(xs: seq<T>, i: nat, j: nat)
    requires i < j < |xs| && xs[i] == xs[j]
    ensures multiset(xs)[xs[i]] >= 2
  {
    assert xs == xs[..i] + [xs[i]] + xs[i + 1..j] + [xs[j]] + xs[j + 1..];
  }

  lemma OnceInSeq(h: Digester, xs: seq<Envelope>, m: nat)
    requires m < |xs| && forall i, j :: 0 <= i < j < |xs| ==> Digest(h, xs[i]) != Digest(h, xs[j])
    ensures multiset(xs)[xs[m]] == 1
  {
    hide Digest;
    var a, b := xs[..m], xs[m + 1..];
    assert xs == a + [xs[m]] + b;
    assert multiset(a)[xs[m]] == 0 && multiset(b)[xs[m]] == 0;
  }

  // ---- elision keeps digests ----

  /** Every node lists its assertions in digest order, as every constructor leaves them. */
  ghost predicate Arranged(h: Digester, e: Envelope) {
    match e
    case Node(s, xs) => Arranged(h, s) && Sorted(h, xs) && forall x :: x in xs ==> Arranged(h, x)
    case Assertion(p, o) => Arranged(h, p) && Arranged(h, o)
    case Wrapped(x) => Arranged(h, x)
    case _ => true
  }

  /** Whatever is elided, at whatever depth, the digest stays the same. */
  lemma {:induction false} ElisionKeepsDigest(h: Digester, targets: set<bytes>, e: Envelope)
    requires Arranged(h, e)
    ensures Digest(h, Elide(h, targets, e)) == Digest(h, e)
    ensures Arranged(h, Elide(h, targets, e))
  {
    if Digest(h, e) !in targets {
      match e
      case Node(s, xs) =>
        ElisionKeepsDigest(h, targets, s);
        forall i | 0 <= i < |xs|
          ensures Digest(h, Elide(h, targets, xs[i])) == Digest(h, xs[i])
          ensures Arranged(h, Elide(h, targets, xs[i]))
        {
          ElisionKeepsDigest(h, targets, xs[i]);
        }
        ElideAllAt(h, targets, xs);
        var ys := ElideAll(h, targets, xs);
        hide Sorted, SortByDigest, ElideAll;
        SortedByDigests(h, xs, ys);
        SortOfSorted(h, ys);
      case Assertion(p, o) =>
        ElisionKeepsDigest(h, targets, p);
        ElisionKeepsDigest(h, targets, o);
      case Wrapped(x) => ElisionKeepsDigest(h, targets, x);
      case _ =>
    }
  }

  lemma {:induction false} ElideAllAt(h: Digester, targets: set<bytes>, xs: seq<Envelope>)
    ensures forall i :: 0 <= i < |xs| ==> ElideAll(h, targets, xs)[i] == Elide(h, targets, xs[i])
  {
    hide Elide;
    if xs != [] {
      ElideAllAt(h, targets, xs[1..]);
    }
  }

  /** No element of e, at any depth, is a target. */
  ghost predicate Untouched(h: Digester, targets: set<bytes>, e: Envelope) {
    Digest(h, e) !in targets &&
    match e
    case Node(s, xs) => Untouched(h, targets, s) && forall x :: x in xs ==> Untouched(h, targets, x)
    case Assertion(p, o) => Untouched(h, targets, p) && Untouched(h, targets, o)
    case Wrapped(x) => Untouched(h, targets, x)
    case _ => true
  }

  lemma {:induction false} ElideUntouched(h: Digester, targets: set<bytes>, e: Envelope)
    requires Arranged(h, e) && Untouched(h, targets, e)
    ensures Elide(h, targets, e) == e
  {
    match e
    case Node(s, xs) =>
      ElideUntouched(h, targets, s);
      forall i | 0 <= i < |xs|
        ensures Elide(h, targets, xs[i]) == xs[i]
      {
        ElideUntouched(h, targets, xs[i]);
      }
      ElideAllAt(h, targets, xs);
      assert ElideAll(h, targets, xs) == xs;
      SortOfSorted(h, xs);
    case Assertion(p, o) =>
      ElideUntouched(h, targets, p);
      ElideUntouched(h, targets, o);
    case Wrapped(x) => ElideUntouched(h, targets, x);
    case _ =>
  }

  // ---- what equal digests say ----

  /** 32-byte digests, and a normalization that is one. */
  ghost predicate Regular(h: Digester) {
    (forall x :: |h.sha(x)| == 32) && Normalizes(h.nfc)
  }

  ghost predicate CollisionFree(h: Digester, s: set<bytes>) {
    forall x, y :: x in s && y in s && h.sha(x) == h.sha(y) ==> x == y
  }

  /** Everything hashed on the way to e's digest is in s. */
  ghost predicate Covered(h: Digester, s: set<bytes>, e: Envelope) {
    (e.Elided? || Preimage(h, e) in s) &&
    match e
    case Node(x, xs) => Covered(h, s, x) && forall a :: a in xs ==> Covered(h, s, a)
    case Assertion(p, o) => Covered(h, s, p) && Covered(h, s, o)
    case Wrapped(x) => Covered(h, s, x)
    case _ => true
  }

  /** What the Rust types guarantee: leaves with their maps in order and prints that fit in memory,
      nodes with at least one assertion, 32-byte digests. */
  ghost predicate WellFormed(h: Digester, e: Envelope) {
    match e
    case Leaf(c) => Canonical(c.v) && Representable(Normal(h.nfc, c.v)) && (c.Tagged? ==> c.tag < U64)
    case Known(n) => n < U64
    case Node(s, xs) => WellFormed(h, s) && xs != [] && forall x :: x in xs ==> WellFormed(h, x)
    case Assertion(p, o) => WellFormed(h, p) && WellFormed(h, o)
    case Wrapped(x) => WellFormed(h, x)
    case Elided(d) => |d| == 32
  }

  lemma DigestLength(h: Digester, e: Envelope)
    requires Regular(h) && WellFormed(h, e)
    ensures |Digest(h, e)| == 32
  {
  }

  lemma SamePreimage(h: Digester, s: set<bytes>, a: Envelope, b: Envelope)
    requires CollisionFree(h, s) && Covered(h, s, a) && Covered(h, s, b) && !a.Elided? && !b.Elided?
    ensures Digest(h, a) == Digest(h, b) <==> Preimage(h, a) == Preimage(h, b)
  {
  }

  /** The concatenated digests of a list give back each digest. */
  lemma {:induction false} DigestsInjective(h: Digester, xs: seq<Envelope>, ys: seq<Envelope>)
    requires Regular(h) && (forall x :: x in xs ==> WellFormed(h, x)) && (forall y :: y in ys ==> WellFormed(h, y))
    requires Digests(h, xs) == Digests(h, ys)
    ensures |xs| == |ys| && forall i :: 0 <= i < |xs| ==> Digest(h, xs[i]) == Digest(h, ys[i])
  {
    hide Digest, WellFormed;
    if xs != [] {
      DigestLength(h, xs[0]);
    }
    if ys != [] {
      DigestLength(h, ys[0]);
    }
    if xs != [] && ys != [] {
      var a, b := Digest(h, xs[0]), Digest(h, ys[0]);
      assert a == Digests(h, xs)[..32] && b == Digests(h, ys)[..32];
      assert Digests(h, xs[1..]) == Digests(h, xs)[32..] && Digests(h, ys[1..]) == Digests(h, ys)[32..];
      DigestsInjective(h, xs[1..], ys[1..]);
    }
  }

  /** A canonical item is determined by its bytes up to normalization, tagged or not. */
  lemma ItemsAgreeExactly(h: Digester, a: Item, b: Item)
    requires WellFormed(h, Leaf(a)) && WellFormed(h, Leaf(b))
    ensures ItemBytes(h, a) == ItemBytes(h, b) <==> NormalItem(h, a) == NormalItem(h, b)
  {
    hide Representable, Canonical, Encode, Head, ReadHead, Normal;
    PrintExactly(h.nfc, a.v, b.v);
    if a.Tagged? && b.Tagged? {
      ReadHeadOfHead(6, a.tag, Print(h.nfc, a.v));
      ReadHeadOfHead(6, b.tag, Print(h.nfc, b.v));
    } else if a.Plain? && b.Tagged? {
      PlainIsNotTagged(h, a.v, b);
    } else if a.Tagged? && b.Plain? {
      PlainIsNotTagged(h, b.v, a);
    }
  }

  lemma PlainIsNotTagged(h: Digester, v: Value, b: Item)
    requires Canonical(v) && Representable(Normal(h.nfc, v)) && b.Tagged? && b.tag < U64
    ensures Print(h.nfc, v) != ItemBytes(h, b)
  {
    hide Representable, Canonical, Encode, Canon, NoRepeats, Head, ReadHead, Normal;
    NormalKeepsCanonical(h.nfc, v);
    CanonicalIsFixed(Normal(h.nfc, v));
    EncodeThenDecode(Normal(h.nfc, v));
    ReadHeadOfHead(6, b.tag, Print(h.nfc, b.v));
  }
}
