/** The local SHA-256: FIPS 180-4 as functions, and the in-place loops proved to compute them. */
module Sha256 {
  import opened Basics
  import opened Primes

  type u32 = x: int | 0 <= x < 0x1_0000_0000

  // ---- constants (sections 4.2.2 and 5.3.3 of FIPS 180-4) ----

  /** The sixty-four round constants, in rows of eight. */
  const K: seq<seq<u32>> := [
    [0x428a2f98, 0x71374491, 0xb5c0fbcf, 0xe9b5dba5, 0x3956c25b, 0x59f111f1, 0x923f82a4, 0xab1c5ed5],
    [0xd807aa98, 0x12835b01, 0x243185be, 0x550c7dc3, 0x72be5d74, 0x80deb1fe, 0x9bdc06a7, 0xc19bf174],
    [0xe49b69c1, 0xefbe4786, 0x0fc19dc6, 0x240ca1cc, 0x2de92c6f, 0x4a7484aa, 0x5cb0a9dc, 0x76f988da],
    [0x983e5152, 0xa831c66d, 0xb00327c8, 0xbf597fc7, 0xc6e00bf3, 0xd5a79147, 0x06ca6351, 0x14292967],
    [0x27b70a85, 0x2e1b2138, 0x4d2c6dfc, 0x53380d13, 0x650a7354, 0x766a0abb, 0x81c2c92e, 0x92722c85],
    [0xa2bfe8a1, 0xa81a664b, 0xc24b8b70, 0xc76c51a3, 0xd192e819, 0xd6990624, 0xf40e3585, 0x106aa070],
    [0x19a4c116, 0x1e376c08, 0x2748774c, 0x34b0bcb5, 0x391c0cb3, 0x4ed8aa4a, 0x5b9cca4f, 0x682e6ff3],
    [0x748f82ee, 0x78a5636f, 0x84c87814, 0x8cc70208, 0x90befffa, 0xa4506ceb, 0xbef9a3f7, 0xc67178f2]
  ]

  const H0: seq<u32> := [
    0x6a09e667, 0xbb67ae85, 0x3c6ef372, 0xa54ff53a, 0x510e527f, 0x9b05688c, 0x1f83d9ab, 0x5be0cd19
  ]

  // ---- words ----

  function FromInt(n: u32): bv32 {
    n as bv32
  }

  function ToInt(x: bv32): u32 {
    x as int
  }

  // ---- functions on words (section 4.1.2) ----

  function Rotr(x: bv32, n: bv6): bv32
    requires 0 < n < 32
  {
    Or(Shr(x, n), Shl(x, 32 - n))
  }

  function Shr(x: bv32, n: bv6): bv32
    requires n < 32
  {
    x >> n
  }

  function Shl(x: bv32, n: bv6): bv32
    requires n < 32
  {
    x << n
  }

  function Or(x: bv32, y: bv32): bv32 {
    x | y
  }

  function Xor(x: bv32, y: bv32): bv32 {
    x ^ y
  }

  function And(x: bv32, y: bv32): bv32 {
    x & y
  }

  function Not(x: bv32): bv32 {
    !x
  }

  /** Addition modulo 2^32. */
  function Plus(x: bv32, y: bv32): bv32 {
    x + y
  }

  function Ch(x: bv32, y: bv32, z: bv32): bv32 {
    Xor(And(x, y), And(Not(x), z))
  }

  function Maj(x: bv32, y: bv32, z: bv32): bv32 {
    Xor(Xor(And(x, y), And(x, z)), And(y, z))
  }

  function BigSigma0(x: bv32): bv32 {
    Xor(Xor(Rotr(x, 2), Rotr(x, 13)), Rotr(x, 22))
  }

  function BigSigma1(x: bv32): bv32 {
    Xor(Xor(Rotr(x, 6), Rotr(x, 11)), Rotr(x, 25))
  }

  function SmallSigma0(x: bv32): bv32 {
    Xor(Xor(Rotr(x, 7), Rotr(x, 18)), Shr(x, 3))
  }

  function SmallSigma1(x: bv32): bv32 {
    Xor(Xor(Rotr(x, 17), Rotr(x, 19)), Shr(x, 10))
  }

  // ---- preprocessing (section 5.1.1) ----

  function Zeros(n: nat): (z: bytes)
    ensures |z| == n
  {
    if n == 0 then [] else Zeros(n - 1) + [0]
  }

  /** The least number of zero bytes that leaves room for the length at a block's end. */
  function ZeroCount(length: nat): (z: nat)
    ensures z < 64 && (length + 1 + z) % 64 == 56
  {
    (55 - length) % 64
  }

  function Pad(m: bytes): bytes {
    m + [0x80] + Zeros(ZeroCount(|m|)) + ToBE(8 * |m| % U64, 8)
  }

  // ---- hash computation (section 6.2.2) ----

  function Word(b: bytes, t: nat): bv32
    requires 4 * t + 4 <= |b|
  {
    Pow256Widths();
    FromInt(FromBE(b[4 * t..4 * t + 4]))
  }

  function ScheduleSum(s1: bv32, w7: bv32, s0: bv32, w16: bv32): bv32 {
    s1 + w7 + s0 + w16
  }

  function Schedule(block: bytes, t: nat): bv32
    requires |block| == 64
  {
    if t < 16 then Word(block, t)
    else
      ScheduleSum(SmallSigma1(Schedule(block, t - 2)), Schedule(block, t - 7),
                  SmallSigma0(Schedule(block, t - 15)), Schedule(block, t - 16))
  }

  lemma Rows(r: nat)
    requires r < 8
    ensures |K| == 8 && |K[r]| == 8
  {
  }

  datatype Vars = Vars(a: bv32, b: bv32, c: bv32, d: bv32, e: bv32, f: bv32, g: bv32, h: bv32)

  function Constant(t: nat): bv32
    requires t < 64
  {
    Rows(t / 8);
    FromInt(K[t / 8][t % 8])
  }

  function Round(v: Vars, k: bv32, w: bv32): Vars {
    var t1 := Plus(Plus(Plus(Plus(v.h, BigSigma1(v.e)), Ch(v.e, v.f, v.g)), k), w);
    var t2 := Plus(BigSigma0(v.a), Maj(v.a, v.b, v.c));
    Vars(Plus(t1, t2), v.a, v.b, v.c, Plus(v.d, t1), v.e, v.f, v.g)
  }

  function Rounds(block: bytes, v: Vars, t: nat): Vars
    requires |block| == 64 && t <= 64
  {
    if t == 0 then v else Round(Rounds(block, v, t - 1), Constant(t - 1), Schedule(block, t - 1))
  }

  function Add(x: Vars, y: Vars): Vars {
    Vars(Plus(x.a, y.a), Plus(x.b, y.b), Plus(x.c, y.c), Plus(x.d, y.d),
         Plus(x.e, y.e), Plus(x.f, y.f), Plus(x.g, y.g), Plus(x.h, y.h))
  }

  const INITIAL: Vars := Vars(
    FromInt(H0[0]), FromInt(H0[1]), FromInt(H0[2]), FromInt(H0[3]),
    FromInt(H0[4]), FromInt(H0[5]), FromInt(H0[6]), FromInt(H0[7]))

  /** The hash value after the first n blocks. */
  function HashBlocks(msg: bytes, n: nat): Vars
    requires 64 * n <= |msg|
  {
    if n == 0 then INITIAL
    else
      var h := HashBlocks(msg, n - 1);
      Add(h, Rounds(msg[64 * (n - 1)..64 * n], h, 64))
  }

  function WordBytes(x: bv32): (b: bytes)
    ensures |b| == 4
  {
    ToBE(ToInt(x), 4)
  }

  function Output(v: Vars): (b: bytes)
    ensures |b| == 32
  {
    WordBytes(v.a) + WordBytes(v.b) + WordBytes(v.c) + WordBytes(v.d)
    + WordBytes(v.e) + WordBytes(v.f) + WordBytes(v.g) + WordBytes(v.h)
  }

  function Digest(data: bytes): (d: bytes)
    ensures |d| == 32
  {
    var msg := Pad(data);
    Output(HashBlocks(msg, |msg| / 64))
  }

  // ---- the constants are the ones the standard defines ----

  function CubeRoot(p: nat): nat {
    if p < 8 then 1 else if p < 27 then 2 else if p < 64 then 3
    else if p < 125 then 4 else if p < 216 then 5 else 6
  }

  function SquareRoot(p: nat): nat {
    if p < 4 then 1 else if p < 9 then 2 else if p < 16 then 3 else 4
  }

  /** k is the first thirty-two bits of the fractional part of the cube root of p. */
  predicate CubeRootBits(p: nat, k: int) {
    var x := 0x1_0000_0000 * CubeRoot(p) + k;
    0 <= k < 0x1_0000_0000 &&
    x * x * x <= p * 0x1_0000_0000_0000_0000_0000_0000 < (x + 1) * (x + 1) * (x + 1)
  }

  predicate SquareRootBits(p: nat, k: int) {
    var x := 0x1_0000_0000 * SquareRoot(p) + k;
    0 <= k < 0x1_0000_0000 && x * x <= p * 0x1_0000_0000_0000_0000 < (x + 1) * (x + 1)
  }

  ghost predicate CubeRootRow(ps: seq<nat>, ks: seq<u32>) {
    |ps| == 8 && |ks| == 8 && forall j :: 0 <= j < 8 ==> CubeRootBits(ps[j], ks[j])
  }

  lemma CubeRootRowByEntry(ps: seq<nat>, ks: seq<u32>)
    requires |ps| == 8 && |ks| == 8
    requires CubeRootBits(ps[0], ks[0]) && CubeRootBits(ps[1], ks[1])
    requires CubeRootBits(ps[2], ks[2]) && CubeRootBits(ps[3], ks[3])
    requires CubeRootBits(ps[4], ks[4]) && CubeRootBits(ps[5], ks[5])
    requires CubeRootBits(ps[6], ks[6]) && CubeRootBits(ps[7], ks[7])
    ensures CubeRootRow(ps, ks)
  {
    hide CubeRootBits;
  }

  /** Every round constant is the cube-root fraction of its prime, and every initial hash word
      the square-root fraction of its prime. */
  lemma ConstantsAreRoots()
    ensures |K| == |PRIMES| == 8 && forall r :: 0 <= r < 8 ==> CubeRootRow(PRIMES[r], K[r])
    ensures forall i :: 0 <= i < 8 ==> SquareRootBits(PRIMES[0][i], H0[i])
  {
    hide CubeRootRow, CubeRootBits, SquareRootBits;
    CubeRoots0();
    CubeRoots1();
    CubeRoots2();
    CubeRoots3();
    CubeRoots4();
    CubeRoots5();
    CubeRoots6();
    CubeRoots7();
    SquareRoots();
  }

  lemma SquareRoots()
    ensures forall i :: 0 <= i < 8 ==> SquareRootBits(PRIMES[0][i], H0[i])
  {
    assert SquareRootBits(2, 0x6a09e667);
    assert SquareRootBits(3, 0xbb67ae85);
    assert SquareRootBits(5, 0x3c6ef372);
    assert SquareRootBits(7, 0xa54ff53a);
    assert SquareRootBits(11, 0x510e527f);
    assert SquareRootBits(13, 0x9b05688c);
    assert SquareRootBits(17, 0x1f83d9ab);
    assert SquareRootBits(19, 0x5be0cd19);
    hide SquareRootBits;
  }

  lemma CubeRoots0()
    ensures CubeRootRow(PRIMES[0], K[0])
  {
    assert CubeRootBits(2, 0x428a2f98);
    assert CubeRootBits(3, 0x71374491);
    assert CubeRootBits(5, 0xb5c0fbcf);
    assert CubeRootBits(7, 0xe9b5dba5);
    assert CubeRootBits(11, 0x3956c25b);
    assert CubeRootBits(13, 0x59f111f1);
    assert CubeRootBits(17, 0x923f82a4);
    assert CubeRootBits(19, 0xab1c5ed5);
    hide CubeRootBits, CubeRootRow;
    CubeRootRowByEntry(PRIMES[0], K[0]);
  }

  lemma CubeRoots1()
    ensures CubeRootRow(PRIMES[1], K[1])
  {
    assert CubeRootBits(23, 0xd807aa98);
    assert CubeRootBits(29, 0x12835b01);
    assert CubeRootBits(31, 0x243185be);
    assert CubeRootBits(37, 0x550c7dc3);
    assert CubeRootBits(41, 0x72be5d74);
    assert CubeRootBits(43, 0x80deb1fe);
    assert CubeRootBits(47, 0x9bdc06a7);
    assert CubeRootBits(53, 0xc19bf174);
    hide CubeRootBits, CubeRootRow;
    CubeRootRowByEntry(PRIMES[1], K[1]);
  }

  lemma CubeRoots2()
    ensures CubeRootRow(PRIMES[2], K[2])
  {
    assert CubeRootBits(59, 0xe49b69c1);
    assert CubeRootBits(61, 0xefbe4786);
    assert CubeRootBits(67, 0x0fc19dc6);
    assert CubeRootBits(71, 0x240ca1cc);
    assert CubeRootBits(73, 0x2de92c6f);
    assert CubeRootBits(79, 0x4a7484aa);
    assert CubeRootBits(83, 0x5cb0a9dc);
    assert CubeRootBits(89, 0x76f988da);
    hide CubeRootBits, CubeRootRow;
    CubeRootRowByEntry(PRIMES[2], K[2]);
  }

  lemma CubeRoots3()
    ensures CubeRootRow(PRIMES[3], K[3])
  {
    assert CubeRootBits(97, 0x983e5152);
    assert CubeRootBits(101, 0xa831c66d);
    assert CubeRootBits(103, 0xb00327c8);
    assert CubeRootBits(107, 0xbf597fc7);
    assert CubeRootBits(109, 0xc6e00bf3);
    assert CubeRootBits(113, 0xd5a79147);
    assert CubeRootBits(127, 0x06ca6351);
    assert CubeRootBits(131, 0x14292967);
    hide CubeRootBits, CubeRootRow;
    CubeRootRowByEntry(PRIMES[3], K[3]);
  }

  lemma CubeRoots4()
    ensures CubeRootRow(PRIMES[4], K[4])
  {
    assert CubeRootBits(137, 0x27b70a85);
    assert CubeRootBits(139, 0x2e1b2138);
    assert CubeRootBits(149, 0x4d2c6dfc);
    assert CubeRootBits(151, 0x53380d13);
    assert CubeRootBits(157, 0x650a7354);
    assert CubeRootBits(163, 0x766a0abb);
    assert CubeRootBits(167, 0x81c2c92e);
    assert CubeRootBits(173, 0x92722c85);
    hide CubeRootBits, CubeRootRow;
    CubeRootRowByEntry(PRIMES[4], K[4]);
  }

  lemma CubeRoots5()
    ensures CubeRootRow(PRIMES[5], K[5])
  {
    assert CubeRootBits(179, 0xa2bfe8a1);
    assert CubeRootBits(181, 0xa81a664b);
    assert CubeRootBits(191, 0xc24b8b70);
    assert CubeRootBits(193, 0xc76c51a3);
    assert CubeRootBits(197, 0xd192e819);
    assert CubeRootBits(199, 0xd6990624);
    assert CubeRootBits(211, 0xf40e3585);
    assert CubeRootBits(223, 0x106aa070);
    hide CubeRootBits, CubeRootRow;
    CubeRootRowByEntry(PRIMES[5], K[5]);
  }

  lemma CubeRoots6()
    ensures CubeRootRow(PRIMES[6], K[6])
  {
    assert CubeRootBits(227, 0x19a4c116);
    assert CubeRootBits(229, 0x1e376c08);
    assert CubeRootBits(233, 0x2748774c);
    assert CubeRootBits(239, 0x34b0bcb5);
    assert CubeRootBits(241, 0x391c0cb3);
    assert CubeRootBits(251, 0x4ed8aa4a);
    assert CubeRootBits(257, 0x5b9cca4f);
    assert CubeRootBits(263, 0x682e6ff3);
    hide CubeRootBits, CubeRootRow;
    CubeRootRowByEntry(PRIMES[6], K[6]);
  }

  lemma CubeRoots7()
    ensures CubeRootRow(PRIMES[7], K[7])
  {
    assert CubeRootBits(269, 0x748f82ee);
    assert CubeRootBits(271, 0x78a5636f);
    assert CubeRootBits(277, 0x84c87814);
    assert CubeRootBits(281, 0x8cc70208);
    assert CubeRootBits(283, 0x90befffa);
    assert CubeRootBits(293, 0xa4506ceb);
    assert CubeRootBits(307, 0xbef9a3f7);
    assert CubeRootBits(311, 0xc67178f2);
    hide CubeRootBits, CubeRootRow;
    CubeRootRowByEntry(PRIMES[7], K[7]);
  }

  // ---- padding ----

  /** A padded message is a whole number of 64-byte blocks. */
  lemma PadLength(m: bytes)
    ensures |Pad(m)| == |m| + 9 + ZeroCount(|m|) && |Pad(m)| % 64 == 0
  {
    hide ToBE, Zeros;
  }

  /** Padding is injective below 2^61 bytes, where the bit length fits its field. */
  lemma PadInjective(a: bytes, b: bytes)
    requires 8 * |a| < U64 && 8 * |b| < U64 && Pad(a) == Pad(b)
    ensures a == b
  {
    hide ToBE, FromBE, Zeros, ZeroCount;
    Pow256Widths();
    var p, q := Pad(a), Pad(b);
    assert p[|p| - 8..] == ToBE(8 * |a|, 8) && q[|q| - 8..] == ToBE(8 * |b|, 8);
    FromToBE(8 * |a|, 8);
    FromToBE(8 * |b|, 8);
    assert a == p[..|a|] && b == q[..|b|];
  }

  // ---- the loops ----

  /** The source adds the four schedule terms in the opposite order. */
  function SourceSum(w16: bv32, s0: bv32, w7: bv32, s1: bv32): bv32 {
    w16 + s0 + w7 + s1
  }

  lemma SumsAgree(s1: bv32, w7: bv32, s0: bv32, w16: bv32)
    ensures SourceSum(w16, s0, w7, s1) == ScheduleSum(s1, w7, s0, w16)
  {
    assert w16 + s0 + w7 + s1 == s1 + w7 + s0 + w16;
  }

  method PadMessage(data: bytes) returns (msg: bytes)
    ensures msg == Pad(data)
  {
    hide ToBE, ZeroCount;
    msg := data + [0x80];
    ghost var k := 0;
    while |msg| % 64 != 56
      invariant 0 <= k <= ZeroCount(|data|)
      invariant msg == data + [0x80] + Zeros(k)
      decreases ZeroCount(|data|) - k
    {
      ZerosLeft(|data|, k);
      msg := msg + [0];
      k := k + 1;
    }
    ZerosDone(|data|, k);
    msg := msg + ToBE(8 * |data| % U64, 8);
  }

  lemma ZerosLeft(length: nat, k: nat)
    requires k <= ZeroCount(length) && (length + 1 + k) % 64 != 56
    ensures k < ZeroCount(length)
  {
  }

  lemma ZerosDone(length: nat, k: nat)
    requires k <= ZeroCount(length) && (length + 1 + k) % 64 == 56
    ensures k == ZeroCount(length)
  {
  }

  lemma SmallSigmasAre(x: bv32, y: bv32)
    ensures SmallSigma0(x) == Xor(Xor(Rotr(x, 7), Rotr(x, 18)), Shr(x, 3))
    ensures SmallSigma1(y) == Xor(Xor(Rotr(y, 17), Rotr(y, 19)), Shr(y, 10))
  {
    hide Xor, Rotr, Shr;
  }

  method FillSchedule(block: bytes) returns (w: array<bv32>)
    requires |block| == 64
    ensures fresh(w) && w.Length == 64
    ensures forall t :: 0 <= t < 64 ==> w[t] == Schedule(block, t)
  {
    hide Xor, Rotr, Shr, ScheduleSum, SourceSum, Word, SmallSigma0, SmallSigma1;
    w := new bv32[64];
    for i := 0 to 16
      invariant forall t :: 0 <= t < i ==> w[t] == Schedule(block, t)
    {
      w[i] := Word(block, i);
    }
    for i := 16 to 64
      invariant forall t :: 0 <= t < i ==> w[t] == Schedule(block, t)
    {
      var s0 := Xor(Xor(Rotr(w[i - 15], 7), Rotr(w[i - 15], 18)), Shr(w[i - 15], 3));
      var s1 := Xor(Xor(Rotr(w[i - 2], 17), Rotr(w[i - 2], 19)), Shr(w[i - 2], 10));
      SmallSigmasAre(w[i - 15], w[i - 2]);
      SumsAgree(s1, w[i - 7], s0, w[i - 16]);
      w[i] := SourceSum(w[i - 16], s0, w[i - 7], s1);
    }
  }

  ghost predicate Holds(h: array<bv32>, v: Vars)
    reads h
  {
    h.Length == 8 && h[0] == v.a && h[1] == v.b && h[2] == v.c && h[3] == v.d &&
    h[4] == v.e && h[5] == v.f && h[6] == v.g && h[7] == v.h
  }

  /** Sixty-four rounds on eight rolling variables. */
  method RunRounds(w: array<bv32>, ghost block: bytes, v: Vars) returns (r: Vars)
    requires |block| == 64 && w.Length == 64
    requires forall t :: 0 <= t < 64 ==> w[t] == Schedule(block, t)
    ensures r == Rounds(block, v, 64)
  {
    hide Xor, Rotr, And, Not, Schedule, Constant, Plus;
    var Vars(a, b, c, d, e, f, g, hh) := v;
    for i := 0 to 64
      invariant Vars(a, b, c, d, e, f, g, hh) == Rounds(block, v, i)
    {
      var s1 := Xor(Xor(Rotr(e, 6), Rotr(e, 11)), Rotr(e, 25));
      var ch := Xor(And(e, f), And(Not(e), g));
      var t1 := Plus(Plus(Plus(Plus(hh, s1), ch), Constant(i)), w[i]);
      var s0 := Xor(Xor(Rotr(a, 2), Rotr(a, 13)), Rotr(a, 22));
      var maj := Xor(Xor(And(a, b), And(a, c)), And(b, c));
      var t2 := Plus(s0, maj);
      hh := g;
      g := f;
      f := e;
      e := Plus(d, t1);
      d := c;
      c := b;
      b := a;
      a := Plus(t1, t2);
    }
    r := Vars(a, b, c, d, e, f, g, hh);
  }

  /** One block folded into the eight running words, in place. */
  method Compress(h: array<bv32>, block: bytes, ghost v: Vars)
    requires |block| == 64 && Holds(h, v)
    modifies h
    ensures Holds(h, Add(v, Rounds(block, v, 64)))
  {
    hide Rounds, Plus, Schedule, FromInt;
    var w := FillSchedule(block);
    var r := RunRounds(w, block, Vars(h[0], h[1], h[2], h[3], h[4], h[5], h[6], h[7]));
    h[0], h[1], h[2], h[3] := Plus(h[0], r.a), Plus(h[1], r.b), Plus(h[2], r.c), Plus(h[3], r.d);
    h[4], h[5], h[6], h[7] := Plus(h[4], r.e), Plus(h[5], r.f), Plus(h[6], r.g), Plus(h[7], r.h);
  }

  method Initialize() returns (h: array<bv32>)
    ensures fresh(h) && Holds(h, INITIAL)
  {
    var v := INITIAL;
    h := new bv32[8] [v.a, v.b, v.c, v.d, v.e, v.f, v.g, v.h];
  }

  lemma NoBlocks(msg: bytes)
    ensures HashBlocks(msg, 0) == INITIAL
  {
  }

  lemma NextBlock(msg: bytes, i: nat)
    requires 64 * (i + 1) <= |msg|
    ensures HashBlocks(msg, i + 1)
            == Add(HashBlocks(msg, i), Rounds(msg[64 * i..64 * (i + 1)], HashBlocks(msg, i), 64))
  {
    hide Rounds, Add;
  }

  method HashMessage(h: array<bv32>, msg: bytes)
    requires Holds(h, INITIAL)
    modifies h
    ensures Holds(h, HashBlocks(msg, |msg| / 64))
  {
    hide Rounds, Add, Holds, HashBlocks, FromInt;
    var n := |msg| / 64;
    NoBlocks(msg);
    for i := 0 to n
      invariant Holds(h, HashBlocks(msg, i))
    {
      NextBlock(msg, i);
      Compress(h, msg[64 * i..64 * (i + 1)], HashBlocks(msg, i));
    }
  }

  /** The source's routine computes FIPS 180-4 SHA-256 on every input. */
  method Sha256(data: bytes) returns (out: bytes)
    ensures out == Digest(data)
  {
    hide HashBlocks, Pad, Output, Holds;
    var h := Initialize();
    var msg := PadMessage(data);
    HashMessage(h, msg);
    out := Serialize(h, HashBlocks(msg, |msg| / 64));
  }

  method Serialize(h: array<bv32>, ghost v: Vars) returns (out: bytes)
    requires Holds(h, v)
    ensures out == Output(v)
  {
    hide WordBytes;
    out := [];
    out := out + WordBytes(h[0]);
    out := out + WordBytes(h[1]);
    out := out + WordBytes(h[2]);
    out := out + WordBytes(h[3]);
    out := out + WordBytes(h[4]);
    out := out + WordBytes(h[5]);
    out := out + WordBytes(h[6]);
    out := out + WordBytes(h[7]);
  }
}
