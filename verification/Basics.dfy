/** Shared vocabulary: bytes, results, big-endian integers, byte-string order, UTF-8. */
module Basics {

  type byte = x: int | 0 <= x < 256
  type bytes = seq<byte>

  /** One more than the largest u64; also the model's bound on usize. */
  const U64: int := 0x1_0000_0000_0000_0000

  datatype Option<+T> = None | Some(value: T)

  datatype Result<+T, +E> = Ok(value: T) | Err(error: E) {
    predicate IsFailure() {
      Err?
    }
    function PropagateFailure<U>(): Result<U, E>
      requires Err?
    {
      Err(error)
    }
    function Extract(): T
      requires Ok?
    {
      value
    }
  }

  /** The bytes of an ASCII literal. */
  function Ascii(s: string): (b: bytes)
    requires forall i :: 0 <= i < |s| ==> s[i] < 128 as char
    ensures |b| == |s|
    ensures forall i :: 0 <= i < |s| ==> b[i] == s[i] as int
  {
    seq(|s|, i requires 0 <= i < |s| => s[i] as int)
  }

  // ---- big-endian integers ----

  function Pow256(w: nat): (p: nat)
    ensures p > 0
  {
    if w == 0 then 1 else 256 * Pow256(w - 1)
  }

  lemma Pow256Widths()
    ensures Pow256(1) == 0x100 && Pow256(2) == 0x1_0000
    ensures Pow256(4) == 0x1_0000_0000 && Pow256(8) == U64
  {
    assert Pow256(3) == 0x100_0000;
    assert Pow256(6) == 0x1_0000_0000_0000;
  }

  /** The low w bytes of n, most significant first. */
  function ToBE(n: nat, w: nat): (b: bytes)
    ensures |b| == w
  {
    if w == 0 then [] else ToBE(n / 256, w - 1) + [n % 256]
  }

  function FromBE(b: bytes): (n: nat)
    ensures n < Pow256(|b|)
  {
    if |b| == 0 then 0 else 256 * FromBE(b[..|b| - 1]) + b[|b| - 1]
  }

  lemma {:induction false} FromToBE(n: nat, w: nat)
    requires n < Pow256(w)
    ensures FromBE(ToBE(n, w)) == n
  {
    if w > 0 {
      FromToBE(n / 256, w - 1);
      var b := ToBE(n, w);
      assert b[..w - 1] == ToBE(n / 256, w - 1);
    }
  }

  lemma {:induction false} ToFromBE(b: bytes)
    ensures ToBE(FromBE(b), |b|) == b
  {
    if |b| > 0 {
      var p := b[..|b| - 1];
      ToFromBE(p);
      assert FromBE(b) / 256 == FromBE(p) && FromBE(b) % 256 == b[|b| - 1];
      assert b == p + [b[|b| - 1]];
    }
  }

  // ---- byte strings in lexicographic order ----

  predicate LexLess(a: bytes, b: bytes) {
    if |b| == 0 then false
    else if |a| == 0 then true
    else a[0] < b[0] || (a[0] == b[0] && LexLess(a[1..], b[1..]))
  }

  lemma {:induction false} LexIrreflexive(a: bytes)
    ensures !LexLess(a, a)
  {
    if |a| > 0 {
      LexIrreflexive(a[1..]);
    }
  }

  lemma {:induction false} LexTransitive(a: bytes, b: bytes, c: bytes)
    requires LexLess(a, b) && LexLess(b, c)
    ensures LexLess(a, c)
  {
    if |a| > 0 && a[0] == b[0] == c[0] {
      LexTransitive(a[1..], b[1..], c[1..]);
    }
  }

  lemma {:induction false} LexTotal(a: bytes, b: bytes)
    ensures a == b || LexLess(a, b) || LexLess(b, a)
  {
    if |a| > 0 && |b| > 0 && a[0] == b[0] {
      LexTotal(a[1..], b[1..]);
      assert a == [a[0]] + a[1..] && b == [b[0]] + b[1..];
    }
  }

  lemma LexAsymmetric(a: bytes, b: bytes)
    requires LexLess(a, b)
    ensures !LexLess(b, a) && a != b
  {
    if LexLess(b, a) {
      LexTransitive(a, b, a);
    }
    LexIrreflexive(a);
  }

  /** A shared front does not matter. */
  lemma {:induction false} LexSamePrefix(p: bytes, a: bytes, b: bytes)
    ensures LexLess(p + a, p + b) <==> LexLess(a, b)
  {
    if |p| == 0 {
      assert p + a == a && p + b == b;
    } else {
      LexSamePrefix(p[1..], a, b);
      assert (p + a)[1..] == p[1..] + a && (p + b)[1..] == p[1..] + b;
    }
  }

  /** Different fronts of one length decide, whatever follows. */
  lemma {:induction false} LexPrefixDecides(p: bytes, q: bytes, a: bytes, b: bytes)
    requires |p| == |q| && LexLess(p, q)
    ensures LexLess(p + a, q + b)
  {
    assert (p + a)[1..] == p[1..] + a && (q + b)[1..] == q[1..] + b;
    if p[0] == q[0] {
      LexPrefixDecides(p[1..], q[1..], a, b);
    }
  }

  /** Big-endian integers of one width sort by value. */
  lemma {:induction false} LexBE(m: nat, n: nat, w: nat)
    requires m < n < Pow256(w)
    ensures LexLess(ToBE(m, w), ToBE(n, w))
  {
    if m / 256 == n / 256 {
      LexSamePrefix(ToBE(m / 256, w - 1), [m % 256], [n % 256]);
    } else {
      LexBE(m / 256, n / 256, w - 1);
      LexPrefixDecides(ToBE(m / 256, w - 1), ToBE(n / 256, w - 1), [m % 256], [n % 256]);
    }
  }

  // ---- UTF-8 (Unicode 15, table 3-7) ----

  predicate Continuation(x: byte) {
    0x80 <= x <= 0xBF
  }

  /** Length of the well-formed sequence at the front of b, or 0 when there is none. */
  function ScalarLength(b: bytes): (n: nat)
    ensures n <= |b|
  {
    if |b| == 0 then 0
    else if b[0] < 0x80 then 1
    else if 0xC2 <= b[0] <= 0xDF then
      if |b| >= 2 && Continuation(b[1]) then 2 else 0
    else if 0xE0 <= b[0] <= 0xEF then
      if |b| >= 3 && Continuation(b[1]) && Continuation(b[2])
         && (b[0] == 0xE0 ==> b[1] >= 0xA0) && (b[0] == 0xED ==> b[1] <= 0x9F)
      then 3 else 0
    else if 0xF0 <= b[0] <= 0xF4 then
      if |b| >= 4 && Continuation(b[1]) && Continuation(b[2]) && Continuation(b[3])
         && (b[0] == 0xF0 ==> b[1] >= 0x90) && (b[0] == 0xF4 ==> b[1] <= 0x8F)
      then 4 else 0
    else 0
  }

  predicate ValidUtf8(b: bytes)
    decreases |b|
  {
    b == [] || (ScalarLength(b) > 0 && ValidUtf8(b[ScalarLength(b)..]))
  }

  lemma {:induction false} AsciiIsUtf8(b: bytes)
    requires forall i :: 0 <= i < |b| ==> b[i] < 128
    ensures ValidUtf8(b)
  {
    if b != [] {
      AsciiIsUtf8(b[1..]);
    }
  }
}
