/** The first sixty-four primes, from which SHA-256 takes its constants. */
module Primes {

  predicate Divides(d: nat, n: nat)
    requires d > 0
  {
    n % d == 0
  }

  predicate Prime(n: nat) {
    n >= 2 && forall d :: 2 <= d < n ==> !Divides(d, n)
  }

  /** Below 18 * 18 it is enough to try the primes up to 17. */
  predicate Sifted(n: nat) {
    n in {2, 3, 5, 7, 11, 13, 17} ||
    (n > 17 && !HasSmallFactor(n))
  }

  predicate HasSmallFactor(n: nat) {
    n % 2 == 0 || n % 3 == 0 || n % 5 == 0 || n % 7 == 0 || n % 11 == 0 || n % 13 == 0 || n % 17 == 0
  }

  /** A factor below 18 brings in one of the seven primes. */
  lemma SmallFactor(n: nat, a: nat, q: nat)
    requires n == a * q && 2 <= a < 18
    ensures HasSmallFactor(n)
  {
    hide HasSmallFactor;
    if a % 2 == 0 {
      EvenTimes(a / 2, q, n);
    } else if a % 3 == 0 {
      ThriceTimes(a / 3, q, n);
    } else if a % 5 == 0 {
      FiveTimes(a / 5, q, n);
    } else {
      PrimeTimes(a, q, n);
    }
  }

  lemma Mod2(m: nat)
    ensures (2 * m) % 2 == 0 && (3 * m) % 3 == 0 && (5 * m) % 5 == 0
  {
  }

  lemma Mod7(m: nat)
    ensures (7 * m) % 7 == 0 && (11 * m) % 11 == 0 && (13 * m) % 13 == 0 && (17 * m) % 17 == 0
  {
  }

  lemma EvenTimes(k: nat, q: nat, n: nat)
    requires n == (2 * k) * q
    ensures HasSmallFactor(n)
  {
    Mod2(k * q);
    assert n == 2 * (k * q);
  }

  lemma ThriceTimes(k: nat, q: nat, n: nat)
    requires n == (3 * k) * q
    ensures HasSmallFactor(n)
  {
    Mod2(k * q);
    assert n == 3 * (k * q);
  }

  lemma FiveTimes(k: nat, q: nat, n: nat)
    requires n == (5 * k) * q
    ensures HasSmallFactor(n)
  {
    Mod2(k * q);
    assert n == 5 * (k * q);
  }

  lemma PrimeTimes(a: nat, q: nat, n: nat)
    requires n == a * q && a in {7, 11, 13, 17}
    ensures HasSmallFactor(n)
  {
    Mod7(q);
    assert n == 7 * q || n == 11 * q || n == 13 * q || n == 17 * q;
  }

  lemma Cofactor(n: nat, d: nat)
    requires d > 0 && n % d == 0
    ensures n == d * (n / d)
  {
  }

  lemma BothLarge(a: nat, b: nat)
    requires a >= 18 && b >= 18
    ensures a * b >= 324
  {
  }

  lemma NoLargeFactor(n: nat, d: nat)
    requires 17 < n < 324 && !HasSmallFactor(n) && 2 <= d < n
    ensures !Divides(d, n)
  {
    hide HasSmallFactor;
    if n % d == 0 {
      Cofactor(n, d);
      FactorIsSmall(n, d, n / d);
    }
  }

  lemma FactorIsSmall(n: nat, d: nat, q: nat)
    requires n == d * q && 1 < d < n < 324
    ensures HasSmallFactor(n)
  {
    hide HasSmallFactor;
    if d < 18 {
      SmallFactor(n, d, q);
    } else if q < 18 {
      ProperCofactor(n, d, q);
      SmallFactor(n, q, d);
    } else {
      BothLarge(d, q);
    }
  }

  lemma ProperCofactor(n: nat, d: nat, q: nat)
    requires n == d * q && 1 < d < n
    ensures q >= 2 && n == q * d
  {
    assert d * 1 == d && d * 0 == 0;
  }

  lemma SiftedIsPrime(n: nat)
    requires 17 < n < 324
    ensures Prime(n) <==> Sifted(n)
  {
    if Prime(n) {
      assert !Divides(2, n) && !Divides(3, n) && !Divides(5, n) && !Divides(7, n);
      assert !Divides(11, n) && !Divides(13, n) && !Divides(17, n);
    } else if Sifted(n) {
      var d :| 2 <= d < n && Divides(d, n);
      NoLargeFactor(n, d);
    }
  }

  lemma SmallPrimes(n: nat)
    requires n <= 17
    ensures Prime(n) <==> Sifted(n)
  {
    if n >= 4 && !Sifted(n) {
      assert Divides(2, n) || Divides(3, n);
    }
  }

  lemma PrimeExactly(n: nat)
    requires n < 324
    ensures Prime(n) <==> Sifted(n)
  {
    hide Prime, Sifted;
    if n <= 17 {
      SmallPrimes(n);
    } else {
      SiftedIsPrime(n);
    }
  }

  /** n numbers from lo on, none of them prime. */
  predicate Gap(lo: nat, n: nat)
    decreases n
  {
    n == 0 || (!Sifted(lo) && Gap(lo + 1, n - 1))
  }

  lemma {:induction false} NoPrimeIn(lo: nat, n: nat)
    requires Gap(lo, n) && lo + n <= 324
    ensures forall m :: lo <= m < lo + n ==> !Prime(m)
    decreases n
  {
    hide Prime, Sifted;
    if n > 0 {
      NoPrimeIn(lo + 1, n - 1);
      PrimeExactly(lo);
    }
  }

  /** p is the first prime from lo on. */
  ghost predicate NextPrime(lo: nat, p: nat) {
    lo <= p && Prime(p) && forall n :: lo <= n < p ==> !Prime(n)
  }

  lemma FindPrime(lo: nat, gap: nat, p: nat)
    requires p == lo + gap && p < 324 && Sifted(p) && Gap(lo, gap)
    ensures NextPrime(lo, p)
  {
    hide Prime, Sifted, Gap;
    NoPrimeIn(lo, gap);
    PrimeExactly(p);
  }

  // ---- the table ----

  /** The first sixty-four primes, in rows of eight. */
  const PRIMES: seq<seq<nat>> := [
    [2, 3, 5, 7, 11, 13, 17, 19],
    [23, 29, 31, 37, 41, 43, 47, 53],
    [59, 61, 67, 71, 73, 79, 83, 89],
    [97, 101, 103, 107, 109, 113, 127, 131],
    [137, 139, 149, 151, 157, 163, 167, 173],
    [179, 181, 191, 193, 197, 199, 211, 223],
    [227, 229, 233, 239, 241, 251, 257, 263],
    [269, 271, 277, 281, 283, 293, 307, 311]
  ]

  /** Each entry is the next prime, the first of them from lo on. */
  ghost predicate Consecutive(lo: nat, ps: seq<nat>)
    decreases |ps|
  {
    ps == [] || (NextPrime(lo, ps[0]) && Consecutive(ps[0] + 1, ps[1..]))
  }

  lemma {:induction false} Joined(lo: nat, a: seq<nat>, b: seq<nat>)
    requires a != [] && Consecutive(lo, a) && Consecutive(a[|a| - 1] + 1, b)
    ensures Consecutive(lo, a + b)
    decreases |a|
  {
    hide NextPrime;
    assert (a + b)[1..] == a[1..] + b;
    if |a| > 1 {
      Joined(a[0] + 1, a[1..], b);
    } else {
      assert a[1..] + b == b;
    }
  }

  /** The table lists the first sixty-four primes: it goes through the primes without a gap. */
  lemma TableIsThePrimes()
    ensures |PRIMES| == 8 && (forall r :: 0 <= r < 8 ==> |PRIMES[r]| == 8)
    ensures Consecutive(0, PRIMES[0] + PRIMES[1] + PRIMES[2] + PRIMES[3] + PRIMES[4] + PRIMES[5] + PRIMES[6] + PRIMES[7])
  {
    hide Consecutive;
    Rows01();
    Rows23();
    Rows45();
    Rows67();
    var a, b, c, d := PRIMES[0] + PRIMES[1], PRIMES[2] + PRIMES[3], PRIMES[4] + PRIMES[5], PRIMES[6] + PRIMES[7];
    Joined(0, a, b);
    Joined(0, a + b, c);
    Joined(0, a + b + c, d);
    assert a + b + c + d == PRIMES[0] + PRIMES[1] + PRIMES[2] + PRIMES[3] + PRIMES[4] + PRIMES[5] + PRIMES[6] + PRIMES[7];
  }

  lemma Rows01()
    ensures Consecutive(0, PRIMES[0] + PRIMES[1])
  {
    hide Consecutive;
    Fours0();
    Fours1();
    Fours2();
    Fours3();
    var a, b, c, d := [2, 3, 5, 7], [11, 13, 17, 19], [23, 29, 31, 37], [41, 43, 47, 53];
    Joined(0, a, b);
    Joined(0, a + b, c);
    Joined(0, a + b + c, d);
    assert a + b + c + d == PRIMES[0] + PRIMES[1];
  }

  lemma Rows23()
    ensures Consecutive(54, PRIMES[2] + PRIMES[3])
  {
    hide Consecutive;
    Fours4();
    Fours5();
    Fours6();
    Fours7();
    var a, b, c, d := [59, 61, 67, 71], [73, 79, 83, 89], [97, 101, 103, 107], [109, 113, 127, 131];
    Joined(54, a, b);
    Joined(54, a + b, c);
    Joined(54, a + b + c, d);
    assert a + b + c + d == PRIMES[2] + PRIMES[3];
  }

  lemma Rows45()
    ensures Consecutive(132, PRIMES[4] + PRIMES[5])
  {
    hide Consecutive;
    Fours8();
    Fours9();
    Fours10();
    Fours11();
    var a, b, c, d := [137, 139, 149, 151], [157, 163, 167, 173], [179, 181, 191, 193], [197, 199, 211, 223];
    Joined(132, a, b);
    Joined(132, a + b, c);
    Joined(132, a + b + c, d);
    assert a + b + c + d == PRIMES[4] + PRIMES[5];
  }

  lemma Rows67()
    ensures Consecutive(224, PRIMES[6] + PRIMES[7])
  {
    hide Consecutive;
    Fours12();
    Fours13();
    Fours14();
    Fours15();
    var a, b, c, d := [227, 229, 233, 239], [241, 251, 257, 263], [269, 271, 277, 281], [283, 293, 307, 311];
    Joined(224, a, b);
    Joined(224, a + b, c);
    Joined(224, a + b + c, d);
    assert a + b + c + d == PRIMES[6] + PRIMES[7];
  }

  lemma Fours0()
    ensures Consecutive(0, [2, 3, 5, 7])
  {
    hide NextPrime, Consecutive;
    FindPrime(0, 2, 2);
    FindPrime(3, 0, 3);
    FindPrime(4, 1, 5);
    FindPrime(6, 1, 7);
    FourInARow(0, 2, 3, 5, 7);
  }

  lemma Fours1()
    ensures Consecutive(8, [11, 13, 17, 19])
  {
    hide NextPrime, Consecutive;
    FindPrime(8, 3, 11);
    FindPrime(12, 1, 13);
    FindPrime(14, 3, 17);
    FindPrime(18, 1, 19);
    FourInARow(8, 11, 13, 17, 19);
  }

  lemma Fours2()
    ensures Consecutive(20, [23, 29, 31, 37])
  {
    hide NextPrime, Consecutive;
    FindPrime(20, 3, 23);
    FindPrime(24, 5, 29);
    FindPrime(30, 1, 31);
    FindPrime(32, 5, 37);
    FourInARow(20, 23, 29, 31, 37);
  }

  lemma Fours3()
    ensures Consecutive(38, [41, 43, 47, 53])
  {
    hide NextPrime, Consecutive;
    FindPrime(38, 3, 41);
    FindPrime(42, 1, 43);
    FindPrime(44, 3, 47);
    FindPrime(48, 5, 53);
    FourInARow(38, 41, 43, 47, 53);
  }

  lemma Fours4()
    ensures Consecutive(54, [59, 61, 67, 71])
  {
    hide NextPrime, Consecutive;
    FindPrime(54, 5, 59);
    FindPrime(60, 1, 61);
    FindPrime(62, 5, 67);
    FindPrime(68, 3, 71);
    FourInARow(54, 59, 61, 67, 71);
  }

  lemma Fours5()
    ensures Consecutive(72, [73, 79, 83, 89])
  {
    hide NextPrime, Consecutive;
    FindPrime(72, 1, 73);
    FindPrime(74, 5, 79);
    FindPrime(80, 3, 83);
    FindPrime(84, 5, 89);
    FourInARow(72, 73, 79, 83, 89);
  }

  lemma Fours6()
    ensures Consecutive(90, [97, 101, 103, 107])
  {
    hide NextPrime, Consecutive;
    FindPrime(90, 7, 97);
    FindPrime(98, 3, 101);
    FindPrime(102, 1, 103);
    FindPrime(104, 3, 107);
    FourInARow(90, 97, 101, 103, 107);
  }

  lemma Fours7()
    ensures Consecutive(108, [109, 113, 127, 131])
  {
    hide NextPrime, Consecutive;
    FindPrime(108, 1, 109);
    FindPrime(110, 3, 113);
    FindPrime(114, 13, 127);
    FindPrime(128, 3, 131);
    FourInARow(108, 109, 113, 127, 131);
  }

  lemma Fours8()
    ensures Consecutive(132, [137, 139, 149, 151])
  {
    hide NextPrime, Consecutive;
    FindPrime(132, 5, 137);
    FindPrime(138, 1, 139);
    FindPrime(140, 9, 149);
    FindPrime(150, 1, 151);
    FourInARow(132, 137, 139, 149, 151);
  }

  lemma Fours9()
    ensures Consecutive(152, [157, 163, 167, 173])
  {
    hide NextPrime, Consecutive;
    FindPrime(152, 5, 157);
    FindPrime(158, 5, 163);
    FindPrime(164, 3, 167);
    FindPrime(168, 5, 173);
    FourInARow(152, 157, 163, 167, 173);
  }

  lemma Fours10()
    ensures Consecutive(174, [179, 181, 191, 193])
  {
    hide NextPrime, Consecutive;
    FindPrime(174, 5, 179);
    FindPrime(180, 1, 181);
    FindPrime(182, 9, 191);
    FindPrime(192, 1, 193);
    FourInARow(174, 179, 181, 191, 193);
  }

  lemma Fours11()
    ensures Consecutive(194, [197, 199, 211, 223])
  {
    hide NextPrime, Consecutive;
    FindPrime(194, 3, 197);
    FindPrime(198, 1, 199);
    FindPrime(200, 11, 211);
    FindPrime(212, 11, 223);
    FourInARow(194, 197, 199, 211, 223);
  }

  lemma Fours12()
    ensures Consecutive(224, [227, 229, 233, 239])
  {
    hide NextPrime, Consecutive;
    FindPrime(224, 3, 227);
    FindPrime(228, 1, 229);
    FindPrime(230, 3, 233);
    FindPrime(234, 5, 239);
    FourInARow(224, 227, 229, 233, 239);
  }

  lemma Fours13()
    ensures Consecutive(240, [241, 251, 257, 263])
  {
    hide NextPrime, Consecutive;
    FindPrime(240, 1, 241);
    FindPrime(242, 9, 251);
    FindPrime(252, 5, 257);
    FindPrime(258, 5, 263);
    FourInARow(240, 241, 251, 257, 263);
  }

  lemma Fours14()
    ensures Consecutive(264, [269, 271, 277, 281])
  {
    hide NextPrime, Consecutive;
    FindPrime(264, 5, 269);
    FindPrime(270, 1, 271);
    FindPrime(272, 5, 277);
    FindPrime(278, 3, 281);
    FourInARow(264, 269, 271, 277, 281);
  }

  lemma Fours15()
    ensures Consecutive(282, [283, 293, 307, 311])
  {
    hide NextPrime, Consecutive;
    FindPrime(282, 1, 283);
    FindPrime(284, 9, 293);
    FindPrime(294, 13, 307);
    FindPrime(308, 3, 311);
    FourInARow(282, 283, 293, 307, 311);
  }

  lemma FourInARow(lo: nat, a: nat, b: nat, c: nat, d: nat)
    requires NextPrime(lo, a) && NextPrime(a + 1, b) && NextPrime(b + 1, c) && NextPrime(c + 1, d)
    ensures Consecutive(lo, [a, b, c, d])
  {
    hide NextPrime;
    var s := [a, b, c, d];
    assert s[1..] == [b, c, d] && s[1..][1..] == [c, d] && s[1..][1..][1..] == [d] && s[1..][1..][1..][1..] == [];
    assert Consecutive(d + 1, []);
    assert Consecutive(c + 1, [d]);
    assert Consecutive(b + 1, [c, d]);
  }
}
