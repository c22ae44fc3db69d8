/** Base58 of the wallet: the in-place digit loop, and a reference decoder that inverts it. */
module Base58 {
  import opened Basics

  const ALPHABET: string :=
    "123456789" + "ABCDEFGH" + "JKLMN" + "PQRSTUVWXYZ" + "abcdefghijk" + "mnopqrstuvwxyz"

  // ---- numbers in a base, least significant digit first ----

  function Value58(digits: seq<nat>): nat {
    if digits == [] then 0 else digits[0] + 58 * Value58(digits[1..])
  }

  predicate Digits58(digits: seq<nat>) {
    forall i :: 0 <= i < |digits| ==> digits[i] < 58
  }

  /** No superfluous leading zero: the top digit, if any, is not 0. */
  predicate Trimmed(digits: seq<nat>) {
    digits != [] ==> digits[|digits| - 1] != 0
  }

  // ---- the digit loops ----

  /** digits * 256 + carry, digit by digit: the new digits and the carry that is left. */
  function MulAdd(digits: seq<nat>, carry: nat): (seq<nat>, nat) {
    if digits == [] then ([], carry)
    else
      var x := carry + 256 * digits[0];
      var (rest, out) := MulAdd(digits[1..], x / 58);
      ([x % 58] + rest, out)
  }

  function Spill(carry: nat): seq<nat> {
    if carry == 0 then [] else [carry % 58] + Spill(carry / 58)
  }

  function PushByte(digits: seq<nat>, b: byte): seq<nat> {
    MulAdd(digits, b).0 + Spill(MulAdd(digits, b).1)
  }

  function DigitsOf(s: bytes): seq<nat> {
    if s == [] then [] else PushByte(DigitsOf(s[..|s| - 1]), s[|s| - 1])
  }

  // ---- what the loops preserve ----

  function Pow58(n: nat): (p: nat)
    ensures p > 0
  {
    if n == 0 then 1 else 58 * Pow58(n - 1)
  }

  lemma {:induction false} ValueAppend(a: seq<nat>, b: seq<nat>)
    ensures Value58(a + b) == Value58(a) + Pow58(|a|) * Value58(b)
  {
    if a == [] {
      assert a + b == b;
    } else {
      ValueAppend(a[1..], b);
      assert (a + b)[1..] == a[1..] + b;
      Distribute(Value58(a[1..]), Pow58(|a| - 1), Value58(b));
    }
  }

  lemma Distribute(v: nat, p: nat, w: nat)
    ensures 58 * (v + p * w) == 58 * v + (58 * p) * w
  {
  }

  lemma {:induction false} MulAddValue(digits: seq<nat>, carry: nat)
    requires Digits58(digits) && carry <= 255
    ensures var (out, c) := MulAdd(digits, carry);
            |out| == |digits| && Digits58(out) && c <= 255 &&
            Value58(out) + Pow58(|digits|) * c == 256 * Value58(digits) + carry
  {
    if digits != [] {
      var x := carry + 256 * digits[0];
      MulAddValue(digits[1..], x / 58);
      var (rest, c) := MulAdd(digits[1..], x / 58);
      var out := [x % 58] + rest;
      assert out[1..] == rest;
      Distribute(Value58(rest), Pow58(|digits| - 1), c);
    }
  }

  lemma {:induction false} SpillValue(carry: nat)
    ensures Value58(Spill(carry)) == carry && Digits58(Spill(carry)) && Trimmed(Spill(carry))
    ensures carry > 0 ==> Spill(carry) != []
  {
    if carry > 0 {
      SpillValue(carry / 58);
      var rest := Spill(carry / 58);
      assert ([carry % 58] + rest)[1..] == rest;
    }
  }

  lemma {:induction false} TrimmedLarge(digits: seq<nat>)
    requires Digits58(digits) && Trimmed(digits) && digits != []
    ensures Value58(digits) >= Pow58(|digits| - 1)
  {
    if |digits| == 1 {
      assert Value58(digits[1..]) == 0;
    } else {
      TrimmedLarge(digits[1..]);
    }
  }

  lemma {:induction false} ValueSmall(digits: seq<nat>)
    requires Digits58(digits)
    ensures Value58(digits) < Pow58(|digits|)
  {
    if digits != [] {
      ValueSmall(digits[1..]);
    }
  }

  /** A trimmed number times 256 plus a byte is trimmed again. */
  lemma PushByteProps(digits: seq<nat>, b: byte)
    requires Digits58(digits) && Trimmed(digits)
    ensures Digits58(PushByte(digits, b)) && Trimmed(PushByte(digits, b))
    ensures Value58(PushByte(digits, b)) == 256 * Value58(digits) + b
  {
    var (out, c) := MulAdd(digits, b);
    MulAddValue(digits, b);
    SpillValue(c);
    ValueAppend(out, Spill(c));
    if c == 0 {
      assert out + [] == out;
      if digits != [] {
        TrimmedLarge(digits);
        TopDigit(out, 256 * Value58(digits) + b);
      }
    }
  }

  lemma TopDigit(out: seq<nat>, v: nat)
    requires Digits58(out) && out != [] && Value58(out) == v >= Pow58(|out| - 1)
    ensures Trimmed(out)
  {
    var n := |out| - 1;
    if out[n] == 0 {
      var low := out[..n];
      assert out == low + [0];
      ValueAppend(low, [0]);
      assert Value58([0]) == 0;
      ValueSmall(low);
    }
  }

  lemma {:induction false} DigitsOfProps(s: bytes)
    ensures Digits58(DigitsOf(s)) && Trimmed(DigitsOf(s)) && Value58(DigitsOf(s)) == FromBE(s)
  {
    if s != [] {
      DigitsOfProps(s[..|s| - 1]);
      PushByteProps(DigitsOf(s[..|s| - 1]), s[|s| - 1]);
    }
  }

  // ---- capacity ----

  /** 58^ceil(11n/8) covers 256^n, so ceil(11n/8) base-58 digits are enough for n bytes. */
  lemma {:induction false} PowersCompare(n: nat)
    ensures Pow58((11 * n + 7) / 8) >= Pow256(n)
  {
    if n < 8 {
      PowersCompareSmall(n);
    } else {
      PowersCompare(n - 8);
      var m := (11 * (n - 8) + 7) / 8;
      assert (11 * n + 7) / 8 == m + 11;
      ElevenDigits(m);
      EightBytes(n - 8);
    }
  }

  lemma PowersCompareSmall(n: nat)
    requires n < 8
    ensures Pow58((11 * n + 7) / 8) >= Pow256(n)
  {
    assert Pow58(3) == 195112 && Pow58(5) == 656356768 && Pow58(7) == 2207984167552;
    assert Pow58(9) == 7427658739644928 && Pow58(10) == 430804206899405824;
    assert Pow58(2) == 3364 && Pow58(6) == 38068692544;
    assert Pow256(2) == 65536 && Pow256(4) == 4294967296 && Pow256(6) == 281474976710656;
    assert n == 0 || n == 1 || n == 2 || n == 3 || n == 4 || n == 5 || n == 6 || n == 7;
  }

  lemma ElevenDigits(m: nat)
    ensures Pow58(m + 11) == 24986644000165537792 * Pow58(m)
  {
    ThreeDigits(m);
    ThreeDigits(m + 3);
    ThreeDigits(m + 6);
    assert Pow58(m + 10) == 58 * Pow58(m + 9);
    assert Pow58(m + 11) == 58 * Pow58(m + 10);
  }

  lemma ThreeDigits(m: nat)
    ensures Pow58(m + 3) == 195112 * Pow58(m)
  {
    assert Pow58(m + 1) == 58 * Pow58(m);
    assert Pow58(m + 2) == 58 * Pow58(m + 1);
    assert Pow58(m + 3) == 58 * Pow58(m + 2);
  }

  lemma EightBytes(n: nat)
    ensures Pow256(n + 8) == 18446744073709551616 * Pow256(n)
  {
    FourBytes(n);
    FourBytes(n + 4);
  }

  lemma FourBytes(n: nat)
    ensures Pow256(n + 4) == 4294967296 * Pow256(n)
  {
    assert Pow256(n + 1) == 256 * Pow256(n);
    assert Pow256(n + 2) == 256 * Pow256(n + 1);
    assert Pow256(n + 3) == 256 * Pow256(n + 2);
    assert Pow256(n + 4) == 256 * Pow256(n + 3);
  }

  lemma {:induction false} Pow58Monotone(m: nat, n: nat)
    requires m <= n
    ensures Pow58(m) <= Pow58(n)
  {
    if m < n {
      Pow58Monotone(m, n - 1);
    }
  }

  /** The digit count never exceeds the preallocated capacity. */
  lemma DigitCount(s: bytes)
    ensures |DigitsOf(s)| <= |s| * 138 / 100 + 1
  {
    var d, n := |DigitsOf(s)|, |s|;
    DigitsOfProps(s);
    if d > n * 138 / 100 + 1 {
      TrimmedLarge(DigitsOf(s));
      var e := (11 * n + 7) / 8;
      assert e <= d - 1;
      Pow58Monotone(e, d - 1);
      PowersCompare(n);
      assert false;
    }
  }

  // ---- characters ----

  /** Reference digit of a character: ALPHABET read backwards. */
  function DigitOf(c: char): nat {
    if '1' <= c <= '9' then (c as int) - ('1' as int)
    else if 'A' <= c <= 'H' then (c as int) - ('A' as int) + 9
    else if 'J' <= c <= 'N' then (c as int) - ('J' as int) + 17
    else if 'P' <= c <= 'Z' then (c as int) - ('P' as int) + 22
    else if 'a' <= c <= 'k' then (c as int) - ('a' as int) + 33
    else if 'm' <= c <= 'z' then (c as int) - ('m' as int) + 44
    else 0
  }

  lemma AlphabetInverse(d: nat)
    requires d < 58
    ensures |ALPHABET| == 58 && DigitOf(ALPHABET[d]) == d && (ALPHABET[d] == '1' <==> d == 0)
  {
    assert forall i :: 0 <= i < 9 ==> ("123456789"[i] as int) == ('1' as int) + i;
    assert forall i :: 0 <= i < 8 ==> ("ABCDEFGH"[i] as int) == ('A' as int) + i;
    assert forall i :: 0 <= i < 5 ==> ("JKLMN"[i] as int) == ('J' as int) + i;
    assert forall i :: 0 <= i < 11 ==> ("PQRSTUVWXYZ"[i] as int) == ('P' as int) + i;
    assert forall i :: 0 <= i < 11 ==> ("abcdefghijk"[i] as int) == ('a' as int) + i;
    assert forall i :: 0 <= i < 14 ==> ("mnopqrstuvwxyz"[i] as int) == ('m' as int) + i;
  }

  // ---- whole strings ----

  function LeadingZeros(s: bytes): nat {
    if s != [] && s[0] == 0 then 1 + LeadingZeros(s[1..]) else 0
  }

  function Ones(n: nat): string {
    if n == 0 then "" else "1" + Ones(n - 1)
  }

  /** The digits from the most significant one down, as characters. */
  function Letters(digits: seq<nat>): string
    requires Digits58(digits)
  {
    if digits == [] then ""
    else
      assert |ALPHABET| == 58;
      Letters(digits[1..]) + [ALPHABET[digits[0]]]
  }

  function Encode58(s: bytes): string {
    DigitsOfProps(s);
    Ones(LeadingZeros(s)) + Letters(DigitsOf(s))
  }

  // ---- reference decoder ----

  function CountOnes(t: string): (n: nat)
    ensures n <= |t|
  {
    if t != "" && t[0] == '1' then 1 + CountOnes(t[1..]) else 0
  }

  function ValueOf(t: string): nat {
    if t == "" then 0 else 58 * ValueOf(t[..|t| - 1]) + DigitOf(t[|t| - 1])
  }

  function ZeroBytes(n: nat): bytes {
    if n == 0 then [] else [0] + ZeroBytes(n - 1)
  }

  /** The shortest big-endian form of n. */
  function MinimalBE(n: nat): bytes {
    if n == 0 then [] else MinimalBE(n / 256) + [n % 256]
  }

  function Decode58(t: string): bytes {
    ZeroBytes(CountOnes(t)) + MinimalBE(ValueOf(t[CountOnes(t)..]))
  }

  lemma {:induction false} LettersValue(digits: seq<nat>)
    requires Digits58(digits)
    ensures |Letters(digits)| == |digits| && ValueOf(Letters(digits)) == Value58(digits)
    ensures digits != [] && Trimmed(digits) ==> Letters(digits)[0] != '1'
  {
    hide DigitOf;
    if digits != [] {
      LettersValue(digits[1..]);
      AlphabetInverse(digits[0]);
      var t := Letters(digits);
      assert t[..|t| - 1] == Letters(digits[1..]);
    }
  }

  lemma {:induction false} CountOnesOnes(n: nat, t: string)
    requires t == "" || t[0] != '1'
    ensures CountOnes(Ones(n) + t) == n && |Ones(n)| == n && (Ones(n) + t)[n..] == t
  {
    if n == 0 {
      assert Ones(n) + t == t;
    } else {
      CountOnesOnes(n - 1, t);
      var u := Ones(n) + t;
      assert u == "1" + (Ones(n - 1) + t);
      assert u[1..] == Ones(n - 1) + t && u[n..] == u[1..][n - 1..];
    }
  }

  lemma {:induction false} SplitZeros(s: bytes) returns (rest: bytes)
    ensures s == ZeroBytes(LeadingZeros(s)) + rest && (rest == [] || rest[0] != 0)
    ensures FromBE(s) == FromBE(rest)
  {
    if s != [] && s[0] == 0 {
      rest := SplitZeros(s[1..]);
      assert s == [0] + s[1..];
      LeadingZero(s[1..]);
    } else {
      rest := s;
    }
  }

  lemma {:induction false} LeadingZero(s: bytes)
    ensures FromBE([0] + s) == FromBE(s)
  {
    if s != [] {
      var p := s[..|s| - 1];
      LeadingZero(p);
      assert ([0] + s)[..|s|] == [0] + p;
    }
  }

  lemma {:induction false} MinimalOf(s: bytes)
    requires s == [] || s[0] != 0
    ensures MinimalBE(FromBE(s)) == s && (s != [] ==> FromBE(s) > 0)
  {
    if s != [] {
      var p, b := s[..|s| - 1], s[|s| - 1];
      assert s == p + [b];
      MinimalOf(p);
      assert FromBE(s) / 256 == FromBE(p) && FromBE(s) % 256 == b;
    }
  }

  /** The reference decoder inverts the encoder on every byte string. */
  lemma DecodeEncode(s: bytes)
    ensures Decode58(Encode58(s)) == s
  {
    hide DigitOf;
    var digits := DigitsOf(s);
    DigitsOfProps(s);
    LettersValue(digits);
    CountOnesOnes(LeadingZeros(s), Letters(digits));
    var rest := SplitZeros(s);
    MinimalOf(rest);
  }

  /** Different fingerprints never print alike. */
  lemma EncodeInjective(a: bytes, b: bytes)
    requires Encode58(a) == Encode58(b)
    ensures a == b
  {
    hide Encode58, Decode58;
    DecodeEncode(a);
    DecodeEncode(b);
  }

  // ---- the source's loops ----

  method MulAddInPlace(start: seq<nat>, b: byte) returns (digits: seq<nat>, carry: nat)
    requires Digits58(start)
    ensures (digits, carry) == MulAdd(start, b) && carry <= 255
  {
    digits, carry := start, b;
    var j := 0;
    assert start[0..] == start;
    assert digits[..0] + MulAdd(start, b).0 == MulAdd(start, b).0;
    while j < |digits|
      invariant 0 <= j <= |digits| == |start| && carry <= 255
      invariant digits[j..] == start[j..]
      invariant MulAdd(start, b) == (digits[..j] + MulAdd(start[j..], carry).0, MulAdd(start[j..], carry).1)
    {
      ghost var was, c := digits, carry;
      ghost var rest := MulAdd(start[j + 1..], (carry + 256 * digits[j]) / 58);
      assert start[j..][1..] == start[j + 1..];
      carry := carry + 256 * digits[j];
      digits := digits[j := carry % 58];
      carry := carry / 58;
      assert MulAdd(start[j..], c) == ([digits[j]] + rest.0, rest.1);
      assert was[..j] + ([digits[j]] + rest.0) == digits[..j + 1] + rest.0;
      j := j + 1;
    }
    assert digits[..j] + [] == digits;
  }

  method PushByteInPlace(start: seq<nat>, b: byte) returns (digits: seq<nat>)
    requires Digits58(start)
    ensures digits == PushByte(start, b)
  {
    var carry;
    digits, carry := MulAddInPlace(start, b);
    hide MulAdd;
    while carry > 0
      invariant carry <= 255 && digits + Spill(carry) == PushByte(start, b)
    {
      assert Spill(carry) == [carry % 58] + Spill(carry / 58);
      assert digits + ([carry % 58] + Spill(carry / 58)) == digits + [carry % 58] + Spill(carry / 58);
      digits := digits + [carry % 58];
      carry := carry / 58;
    }
    assert digits + [] == digits;
  }

  method CountLeadingZeros(s: bytes) returns (n: nat)
    ensures n == LeadingZeros(s)
  {
    n := 0;
    assert s[0..] == s;
    while n < |s| && s[n] == 0
      invariant n <= |s| && LeadingZeros(s) == n + LeadingZeros(s[n..])
    {
      assert s[n..][1..] == s[n + 1..];
      n := n + 1;
    }
  }

  lemma {:induction false} LettersSnoc(digits: seq<nat>, i: nat)
    requires Digits58(digits) && i < |digits|
    ensures |ALPHABET| == 58 && Letters(digits[i..]) == Letters(digits[i + 1..]) + [ALPHABET[digits[i]]]
  {
    assert digits[i..][1..] == digits[i + 1..];
  }

  /** The source's encoder: in-place digits, then one '1' per leading zero byte and the digits
      from the top down. */
  method Bs58Encode(s: bytes) returns (out: string)
    ensures out == Encode58(s)
  {
    hide PushByte, Letters, LeadingZeros;
    var digits: seq<nat> := [];
    var i := 0;
    while i < |s|
      invariant 0 <= i <= |s| && digits == DigitsOf(s[..i])
    {
      DigitsOfProps(s[..i]);
      assert s[..i + 1][..i] == s[..i];
      digits := PushByteInPlace(digits, s[i]);
      i := i + 1;
    }
    assert s[..i] == s;
    DigitsOfProps(s);
    out := Render(s, digits);
  }

  method Render(s: bytes, digits: seq<nat>) returns (out: string)
    requires Digits58(digits)
    ensures out == Ones(LeadingZeros(s)) + Letters(digits)
  {
    var zeros := CountLeadingZeros(s);
    hide LeadingZeros;
    out := "";
    var k := 0;
    while k < zeros
      invariant 0 <= k <= zeros && out == Ones(k)
    {
      OnesSnoc(k);
      out := out + "1";
      k := k + 1;
    }
    var j := |digits|;
    assert digits[j..] == [];
    while j > 0
      invariant 0 <= j <= |digits| && out == Ones(zeros) + Letters(digits[j..])
    {
      j := j - 1;
      LettersSnoc(digits, j);
      out := out + [ALPHABET[digits[j]]];
    }
    assert digits[0..] == digits;
  }

  lemma {:induction false} OnesSnoc(k: nat)
    ensures Ones(k + 1) == Ones(k) + "1"
  {
    if k > 0 {
      OnesSnoc(k - 1);
    }
  }
}
