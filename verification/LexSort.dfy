/** Sorting byte strings: the sorted list of a multiset. */
module LexSort {
  import opened Basics

  function SortLex(xs: seq<bytes>): seq<bytes> {
    if xs == [] then [] else InsertLex(xs[0], SortLex(xs[1..]))
  }

  function InsertLex(x: bytes, xs: seq<bytes>): seq<bytes> {
    if xs == [] then [x]
    else if LexLess(xs[0], x) then [xs[0]] + InsertLex(x, xs[1..])
    else [x] + xs
  }

  predicate SortedLex(xs: seq<bytes>) {
    |xs| < 2 || (!LexLess(xs[1], xs[0]) && SortedLex(xs[1..]))
  }

  lemma {:induction false} InsertLexProps(x: bytes, xs: seq<bytes>)
    requires SortedLex(xs)
    ensures SortedLex(InsertLex(x, xs)) && multiset(InsertLex(x, xs)) == multiset([x]) + multiset(xs)
    ensures InsertLex(x, xs)[0] == x || (xs != [] && InsertLex(x, xs)[0] == xs[0])
  {
    if xs != [] && LexLess(xs[0], x) {
      InsertLexProps(x, xs[1..]);
      LexAsymmetric(xs[0], x);
      assert InsertLex(x, xs)[1..] == InsertLex(x, xs[1..]);
      assert xs == [xs[0]] + xs[1..];
    } else {
      assert InsertLex(x, xs)[1..] == xs;
    }
  }

  lemma {:induction false} SortLexProps(xs: seq<bytes>)
    ensures SortedLex(SortLex(xs)) && multiset(SortLex(xs)) == multiset(xs)
  {
    hide LexLess, SortedLex, InsertLex;
    if xs != [] {
      SortLexProps(xs[1..]);
      InsertLexProps(xs[0], SortLex(xs[1..]));
      assert xs == [xs[0]] + xs[1..];
    } else {
      EmptySorted();
    }
  }

  lemma EmptySorted()
    ensures SortedLex([])
  {
  }

  lemma {:induction false} HeadIsLeast(xs: seq<bytes>, y: bytes)
    requires SortedLex(xs) && y in xs
    ensures !LexLess(y, xs[0])
  {
    LexIrreflexive(xs[0]);
    if y != xs[0] {
      HeadIsLeast(xs[1..], y);
      if LexLess(y, xs[0]) {
        LexTotal(xs[0], xs[1]);
        if LexLess(xs[0], xs[1]) {
          LexTransitive(y, xs[0], xs[1]);
        }
      }
    }
  }

  /** A multiset has one sorted list. */
  lemma {:induction false} SortedUnique(a: seq<bytes>, b: seq<bytes>)
    requires SortedLex(a) && SortedLex(b) && multiset(a) == multiset(b)
    ensures a == b
  {
    hide LexLess;
    if a == [] {
      assert |multiset(b)| == 0;
    } else {
      assert a[0] in multiset(b) && |multiset(b)| > 0;
      assert b[0] in multiset(a);
      HeadIsLeast(a, b[0]);
      HeadIsLeast(b, a[0]);
      LexTotal(a[0], b[0]);
      assert a == [a[0]] + a[1..] && b == [b[0]] + b[1..];
      assert multiset(a[1..]) == multiset(a) - multiset([a[0]]);
      assert multiset(b[1..]) == multiset(b) - multiset([b[0]]);
      SortedUnique(a[1..], b[1..]);
    }
  }

  predicate StrictLex(xs: seq<bytes>) {
    |xs| < 2 || (LexLess(xs[0], xs[1]) && StrictLex(xs[1..]))
  }

  ghost predicate AllOnce(xs: seq<bytes>) {
    forall x :: multiset(xs)[x] <= 1
  }

  /** Strictly increasing is sorted without repeats. */
  lemma {:induction false} StrictExactly(xs: seq<bytes>)
    ensures StrictLex(xs) <==> SortedLex(xs) && AllOnce(xs)
  {
    hide LexLess;
    if |xs| >= 2 {
      StrictExactly(xs[1..]);
      assert xs == [xs[0]] + xs[1..];
      LexTotal(xs[0], xs[1]);
      if StrictLex(xs) {
        LexAsymmetric(xs[0], xs[1]);
        if xs[0] in xs[1..] {
          HeadIsLeast(xs[1..], xs[0]);
        }
      }
      assert forall x :: multiset(xs)[x] == multiset([xs[0]])[x] + multiset(xs[1..])[x];
      assert xs[1] in multiset(xs[1..]);
    }
  }

  /** A set has one strictly increasing list. */
  lemma StrictUnique(a: seq<bytes>, b: seq<bytes>)
    requires StrictLex(a) && StrictLex(b) && forall x :: x in a <==> x in b
    ensures a == b
  {
    hide StrictLex, SortedLex;
    StrictExactly(a);
    StrictExactly(b);
    forall x
      ensures multiset(a)[x] == multiset(b)[x]
    {
      assert x in a <==> x in multiset(a);
      assert x in b <==> x in multiset(b);
    }
    SortedUnique(a, b);
  }
}
