/** The routine's own test vector for "abc", worked through the functional definition word by word.
    Step numbers are offsets from z, which is 0. */
module Sha256Vectors {
  import opened Basics
  import opened Sha256

  const ABC: bytes := [0x61, 0x62, 0x63]

  /** The one padded block of "abc". */
  const BLOCK: bytes := ABC + [0x80] + seq(59, _ => 0) + [24]

  // ---- the message schedule ----

  ghost predicate NextWord(w2: bv32, w7: bv32, w15: bv32, w16: bv32, w: bv32) {
    ScheduleSum(SmallSigma1(w2), w7, SmallSigma0(w15), w16) == w
  }

  lemma ScheduleStep(t: nat, w2: bv32, w7: bv32, w15: bv32, w16: bv32, w: bv32)
    requires 16 <= t && NextWord(w2, w7, w15, w16, w)
    requires Schedule(BLOCK, t - 2) == w2 && Schedule(BLOCK, t - 7) == w7
    requires Schedule(BLOCK, t - 15) == w15 && Schedule(BLOCK, t - 16) == w16
    ensures Schedule(BLOCK, t) == w
  {
    hide ScheduleSum, SmallSigma0, SmallSigma1, Word;
  }

  lemma FourBytes(a: byte, b: byte, c: byte, d: byte)
    ensures FromBE([a, b, c, d]) == 0x1000000 * a + 0x10000 * b + 0x100 * c + d
  {
    assert [a, b, c, d][..3] == [a, b, c] && [a, b, c][..2] == [a, b] && [a, b][..1] == [a] && [a][..0] == [];
    assert FromBE([a]) == a;
    assert FromBE([a, b]) == 0x100 * a + b;
    assert FromBE([a, b, c]) == 0x10000 * a + 0x100 * b + c;
  }

  lemma Small()
    ensures FromInt(0x61626380) == 0x61626380 && FromInt(0) == 0 && FromInt(24) == 24
  {
  }

  lemma FirstWord(z: nat)
    requires z == 0
    ensures Schedule(BLOCK, z) == 0x61626380
  {
    hide FromBE, FromInt;
    Small();
    FourBytes(0x61, 0x62, 0x63, 0x80);
    assert BLOCK[4 * z..4 * z + 4] == [0x61, 0x62, 0x63, 0x80];
  }

  lemma MiddleWord(t: nat)
    requires 0 < t < 15
    ensures Schedule(BLOCK, t) == 0
  {
    hide FromBE, FromInt;
    Small();
    FourBytes(0, 0, 0, 0);
    assert BLOCK[4 * t..4 * t + 4] == [0, 0, 0, 0];
  }

  lemma LastWord(t: nat)
    requires t == 15
    ensures Schedule(BLOCK, t) == 24
  {
    hide FromBE, FromInt;
    Small();
    FourBytes(0, 0, 0, 24);
    assert BLOCK[4 * t..4 * t + 4] == [0, 0, 0, 24];
  }

  lemma NextWordIs(w2: bv32, s1: bv32, w7: bv32, w15: bv32, s0: bv32, w16: bv32, w: bv32)
    requires SmallSigma1(w2) == s1 && SmallSigma0(w15) == s0 && ScheduleSum(s1, w7, s0, w16) == w
    ensures NextWord(w2, w7, w15, w16, w)
  {
    hide SmallSigma1, SmallSigma0, ScheduleSum;
  }

  lemma Sums2()
    ensures NextWord(0x00000000, 0x00000000, 0x00000000, 0x61626380, 0x61626380)
    ensures NextWord(0x00000018, 0x00000000, 0x00000000, 0x00000000, 0x000f0000)
    ensures NextWord(0x61626380, 0x00000000, 0x00000000, 0x00000000, 0x7da86405)
    ensures NextWord(0x000f0000, 0x00000000, 0x00000000, 0x00000000, 0x600003c6)
    ensures NextWord(0x7da86405, 0x00000000, 0x00000000, 0x00000000, 0x3e9d7b78)
    ensures NextWord(0x600003c6, 0x00000000, 0x00000000, 0x00000000, 0x0183fc00)
    ensures NextWord(0x3e9d7b78, 0x00000018, 0x00000000, 0x00000000, 0x12dcbfdb)
    ensures NextWord(0x0183fc00, 0x61626380, 0x00000000, 0x00000000, 0xe2e2c38e)
  {
    hide NextWord, SmallSigma0, SmallSigma1, ScheduleSum;
    Parts2();
    NextWordIs(0x00000000, 0x00000000, 0x00000000, 0x00000000, 0x00000000, 0x61626380, 0x61626380);
    NextWordIs(0x00000018, 0x000f0000, 0x00000000, 0x00000000, 0x00000000, 0x00000000, 0x000f0000);
    NextWordIs(0x61626380, 0x7da86405, 0x00000000, 0x00000000, 0x00000000, 0x00000000, 0x7da86405);
    NextWordIs(0x000f0000, 0x600003c6, 0x00000000, 0x00000000, 0x00000000, 0x00000000, 0x600003c6);
    NextWordIs(0x7da86405, 0x3e9d7b78, 0x00000000, 0x00000000, 0x00000000, 0x00000000, 0x3e9d7b78);
    NextWordIs(0x600003c6, 0x0183fc00, 0x00000000, 0x00000000, 0x00000000, 0x00000000, 0x0183fc00);
    NextWordIs(0x3e9d7b78, 0x12dcbfc3, 0x00000018, 0x00000000, 0x00000000, 0x00000000, 0x12dcbfdb);
    NextWordIs(0x0183fc00, 0x8180600e, 0x61626380, 0x00000000, 0x00000000, 0x00000000, 0xe2e2c38e);
  }

  lemma Parts2()
    ensures SmallSigma1(0x00000000) == 0x00000000 && SmallSigma0(0x00000000) == 0x00000000
    ensures ScheduleSum(0x00000000, 0x00000000, 0x00000000, 0x61626380) == 0x61626380
    ensures SmallSigma1(0x00000018) == 0x000f0000 && SmallSigma0(0x00000000) == 0x00000000
    ensures ScheduleSum(0x000f0000, 0x00000000, 0x00000000, 0x00000000) == 0x000f0000
    ensures SmallSigma1(0x61626380) == 0x7da86405 && SmallSigma0(0x00000000) == 0x00000000
    ensures ScheduleSum(0x7da86405, 0x00000000, 0x00000000, 0x00000000) == 0x7da86405
    ensures SmallSigma1(0x000f0000) == 0x600003c6 && SmallSigma0(0x00000000) == 0x00000000
    ensures ScheduleSum(0x600003c6, 0x00000000, 0x00000000, 0x00000000) == 0x600003c6
    ensures SmallSigma1(0x7da86405) == 0x3e9d7b78 && SmallSigma0(0x00000000) == 0x00000000
    ensures ScheduleSum(0x3e9d7b78, 0x00000000, 0x00000000, 0x00000000) == 0x3e9d7b78
    ensures SmallSigma1(0x600003c6) == 0x0183fc00 && SmallSigma0(0x00000000) == 0x00000000
    ensures ScheduleSum(0x0183fc00, 0x00000000, 0x00000000, 0x00000000) == 0x0183fc00
    ensures SmallSigma1(0x3e9d7b78) == 0x12dcbfc3 && SmallSigma0(0x00000000) == 0x00000000
    ensures ScheduleSum(0x12dcbfc3, 0x00000018, 0x00000000, 0x00000000) == 0x12dcbfdb
    ensures SmallSigma1(0x0183fc00) == 0x8180600e && SmallSigma0(0x00000000) == 0x00000000
    ensures ScheduleSum(0x8180600e, 0x61626380, 0x00000000, 0x00000000) == 0xe2e2c38e
  {
  }

  lemma Sums3()
    ensures NextWord(0x12dcbfdb, 0x000f0000, 0x00000000, 0x00000000, 0xc8215c1a)
    ensures NextWord(0xe2e2c38e, 0x7da86405, 0x00000000, 0x00000000, 0xb73679a2)
    ensures NextWord(0xc8215c1a, 0x600003c6, 0x00000000, 0x00000000, 0xe5bc3909)
    ensures NextWord(0xb73679a2, 0x3e9d7b78, 0x00000000, 0x00000000, 0x32663c5b)
    ensures NextWord(0xe5bc3909, 0x0183fc00, 0x00000000, 0x00000000, 0x9d209d67)
    ensures NextWord(0x32663c5b, 0x12dcbfdb, 0x00000000, 0x00000000, 0xec8726cb)
    ensures NextWord(0x9d209d67, 0xe2e2c38e, 0x00000018, 0x00000000, 0x702138a4)
    ensures NextWord(0xec8726cb, 0xc8215c1a, 0x61626380, 0x00000018, 0xd3b7973b)
  {
    hide NextWord, SmallSigma0, SmallSigma1, ScheduleSum;
    Parts3();
    NextWordIs(0x12dcbfdb, 0xc8125c1a, 0x000f0000, 0x00000000, 0x00000000, 0x00000000, 0xc8215c1a);
    NextWordIs(0xe2e2c38e, 0x398e159d, 0x7da86405, 0x00000000, 0x00000000, 0x00000000, 0xb73679a2);
    NextWordIs(0xc8215c1a, 0x85bc3543, 0x600003c6, 0x00000000, 0x00000000, 0x00000000, 0xe5bc3909);
    NextWordIs(0xb73679a2, 0xf3c8c0e3, 0x3e9d7b78, 0x00000000, 0x00000000, 0x00000000, 0x32663c5b);
    NextWordIs(0xe5bc3909, 0x9b9ca167, 0x0183fc00, 0x00000000, 0x00000000, 0x00000000, 0x9d209d67);
    NextWordIs(0x32663c5b, 0xd9aa66f0, 0x12dcbfdb, 0x00000000, 0x00000000, 0x00000000, 0xec8726cb);
    NextWordIs(0x9d209d67, 0x5d387513, 0xe2e2c38e, 0x00000018, 0x30060003, 0x00000000, 0x702138a4);
    NextWordIs(0xec8726cb, 0x7787aa1a, 0xc8215c1a, 0x61626380, 0x940e90ef, 0x00000018, 0xd3b7973b);
  }

  lemma Parts3()
    ensures SmallSigma1(0x12dcbfdb) == 0xc8125c1a && SmallSigma0(0x00000000) == 0x00000000
    ensures ScheduleSum(0xc8125c1a, 0x000f0000, 0x00000000, 0x00000000) == 0xc8215c1a
    ensures SmallSigma1(0xe2e2c38e) == 0x398e159d && SmallSigma0(0x00000000) == 0x00000000
    ensures ScheduleSum(0x398e159d, 0x7da86405, 0x00000000, 0x00000000) == 0xb73679a2
    ensures SmallSigma1(0xc8215c1a) == 0x85bc3543 && SmallSigma0(0x00000000) == 0x00000000
    ensures ScheduleSum(0x85bc3543, 0x600003c6, 0x00000000, 0x00000000) == 0xe5bc3909
    ensures SmallSigma1(0xb73679a2) == 0xf3c8c0e3 && SmallSigma0(0x00000000) == 0x00000000
    ensures ScheduleSum(0xf3c8c0e3, 0x3e9d7b78, 0x00000000, 0x00000000) == 0x32663c5b
    ensures SmallSigma1(0xe5bc3909) == 0x9b9ca167 && SmallSigma0(0x00000000) == 0x00000000
    ensures ScheduleSum(0x9b9ca167, 0x0183fc00, 0x00000000, 0x00000000) == 0x9d209d67
    ensures SmallSigma1(0x32663c5b) == 0xd9aa66f0 && SmallSigma0(0x00000000) == 0x00000000
    ensures ScheduleSum(0xd9aa66f0, 0x12dcbfdb, 0x00000000, 0x00000000) == 0xec8726cb
    ensures SmallSigma1(0x9d209d67) == 0x5d387513 && SmallSigma0(0x00000018) == 0x30060003
    ensures ScheduleSum(0x5d387513, 0xe2e2c38e, 0x30060003, 0x00000000) == 0x702138a4
    ensures SmallSigma1(0xec8726cb) == 0x7787aa1a && SmallSigma0(0x61626380) == 0x940e90ef
    ensures ScheduleSum(0x7787aa1a, 0xc8215c1a, 0x940e90ef, 0x00000018) == 0xd3b7973b
  {
  }

  lemma Sums4()
    ensures NextWord(0x702138a4, 0xb73679a2, 0x000f0000, 0x61626380, 0x93f5997f)
    ensures NextWord(0xd3b7973b, 0xe5bc3909, 0x7da86405, 0x000f0000, 0x3b68ba73)
    ensures NextWord(0x93f5997f, 0x32663c5b, 0x600003c6, 0x7da86405, 0xaff4ffc1)
    ensures NextWord(0x3b68ba73, 0x9d209d67, 0x3e9d7b78, 0x600003c6, 0xf10a5c62)
    ensures NextWord(0xaff4ffc1, 0xec8726cb, 0x0183fc00, 0x3e9d7b78, 0x0a8b3996)
    ensures NextWord(0xf10a5c62, 0x702138a4, 0x12dcbfdb, 0x0183fc00, 0x72af830a)
    ensures NextWord(0x0a8b3996, 0xd3b7973b, 0xe2e2c38e, 0x12dcbfdb, 0x9409e33e)
    ensures NextWord(0x72af830a, 0x93f5997f, 0xc8215c1a, 0xe2e2c38e, 0x24641522)
  {
    hide NextWord, SmallSigma0, SmallSigma1, ScheduleSum;
    Parts4();
    NextWordIs(0x702138a4, 0xbb5abe5a, 0xb73679a2, 0x000f0000, 0xc001fe03, 0x61626380, 0x93f5997f);
    NextWordIs(0xd3b7973b, 0x394e7e48, 0xe5bc3909, 0x7da86405, 0x1c4f0322, 0x000f0000, 0x3b68ba73);
    NextWordIs(0x93f5997f, 0x7fb4c6e2, 0x32663c5b, 0x600003c6, 0x8031987f, 0x7da86405, 0xaff4ffc1);
    NextWordIs(0x3b68ba73, 0x4a7920f7, 0x9d209d67, 0x3e9d7b78, 0xa9709a3e, 0x600003c6, 0xf10a5c62);
    NextWordIs(0xaff4ffc1, 0xe0331f3b, 0xec8726cb, 0x0183fc00, 0xff337818, 0x3e9d7b78, 0x0a8b3996);
    NextWordIs(0xf10a5c62, 0x65816433, 0x702138a4, 0x12dcbfdb, 0x9b88ea33, 0x0183fc00, 0x72af830a);
    NextWordIs(0x0a8b3996, 0xfbfb66da, 0xd3b7973b, 0xe2e2c38e, 0xb17a254e, 0x12dcbfdb, 0x9409e33e);
    NextWordIs(0x72af830a, 0x31f8dce2, 0x93f5997f, 0xc8215c1a, 0x7b92db33, 0xe2e2c38e, 0x24641522);
  }

  lemma Parts4()
    ensures SmallSigma1(0x702138a4) == 0xbb5abe5a && SmallSigma0(0x000f0000) == 0xc001fe03
    ensures ScheduleSum(0xbb5abe5a, 0xb73679a2, 0xc001fe03, 0x61626380) == 0x93f5997f
    ensures SmallSigma1(0xd3b7973b) == 0x394e7e48 && SmallSigma0(0x7da86405) == 0x1c4f0322
    ensures ScheduleSum(0x394e7e48, 0xe5bc3909, 0x1c4f0322, 0x000f0000) == 0x3b68ba73
    ensures SmallSigma1(0x93f5997f) == 0x7fb4c6e2 && SmallSigma0(0x600003c6) == 0x8031987f
    ensures ScheduleSum(0x7fb4c6e2, 0x32663c5b, 0x8031987f, 0x7da86405) == 0xaff4ffc1
    ensures SmallSigma1(0x3b68ba73) == 0x4a7920f7 && SmallSigma0(0x3e9d7b78) == 0xa9709a3e
    ensures ScheduleSum(0x4a7920f7, 0x9d209d67, 0xa9709a3e, 0x600003c6) == 0xf10a5c62
    ensures SmallSigma1(0xaff4ffc1) == 0xe0331f3b && SmallSigma0(0x0183fc00) == 0xff337818
    ensures ScheduleSum(0xe0331f3b, 0xec8726cb, 0xff337818, 0x3e9d7b78) == 0x0a8b3996
    ensures SmallSigma1(0xf10a5c62) == 0x65816433 && SmallSigma0(0x12dcbfdb) == 0x9b88ea33
    ensures ScheduleSum(0x65816433, 0x702138a4, 0x9b88ea33, 0x0183fc00) == 0x72af830a
    ensures SmallSigma1(0x0a8b3996) == 0xfbfb66da && SmallSigma0(0xe2e2c38e) == 0xb17a254e
    ensures ScheduleSum(0xfbfb66da, 0xd3b7973b, 0xb17a254e, 0x12dcbfdb) == 0x9409e33e
    ensures SmallSigma1(0x72af830a) == 0x31f8dce2 && SmallSigma0(0xc8215c1a) == 0x7b92db33
    ensures ScheduleSum(0x31f8dce2, 0x93f5997f, 0x7b92db33, 0xe2e2c38e) == 0x24641522
  {
  }

  lemma Sums5()
    ensures NextWord(0x9409e33e, 0x3b68ba73, 0xb73679a2, 0xc8215c1a, 0x9f47bf94)
    ensures NextWord(0x24641522, 0xaff4ffc1, 0xe5bc3909, 0xb73679a2, 0xf0a64f5a)
    ensures NextWord(0x9f47bf94, 0xf10a5c62, 0x32663c5b, 0xe5bc3909, 0x3e246a79)
    ensures NextWord(0xf0a64f5a, 0x0a8b3996, 0x9d209d67, 0x32663c5b, 0x27333ba3)
    ensures NextWord(0x3e246a79, 0x72af830a, 0xec8726cb, 0x9d209d67, 0x0c4763f2)
    ensures NextWord(0x27333ba3, 0x9409e33e, 0x702138a4, 0xec8726cb, 0x840abf27)
    ensures NextWord(0x0c4763f2, 0x24641522, 0xd3b7973b, 0x702138a4, 0x7a290d5d)
    ensures NextWord(0x840abf27, 0x9f47bf94, 0x93f5997f, 0xd3b7973b, 0x065c43da)
  {
    hide NextWord, SmallSigma0, SmallSigma1, ScheduleSum;
    Parts5();
    NextWordIs(0x9409e33e, 0xcddd9afd, 0x3b68ba73, 0xb73679a2, 0xcde00e0a, 0xc8215c1a, 0x9f47bf94);
    NextWordIs(0x24641522, 0x883c4fbb, 0xaff4ffc1, 0xe5bc3909, 0x013e863c, 0xb73679a2, 0xf0a64f5a);
    NextWordIs(0x9f47bf94, 0x281f0da4, 0xf10a5c62, 0x32663c5b, 0x3f3ec76a, 0xe5bc3909, 0x3e246a79);
    NextWordIs(0xf0a64f5a, 0xee7a0fd4, 0x0a8b3996, 0x9d209d67, 0xfbc7b5de, 0x32663c5b, 0x27333ba3);
    NextWordIs(0x3e246a79, 0xb87c31cc, 0x72af830a, 0xec8726cb, 0x43fb11b5, 0x9d209d67, 0x0c4763f2);
    NextWordIs(0x27333ba3, 0xfaac3bb1, 0x9409e33e, 0x702138a4, 0x08cd796d, 0xec8726cb, 0x840abf27);
    NextWordIs(0x0c4763f2, 0x5d845673, 0x24641522, 0xd3b7973b, 0x881f6924, 0x702138a4, 0x7a290d5d);
    NextWordIs(0x840abf27, 0x0856302b, 0x9f47bf94, 0x93f5997f, 0x8b06bce0, 0xd3b7973b, 0x065c43da);
  }

  lemma Parts5()
    ensures SmallSigma1(0x9409e33e) == 0xcddd9afd && SmallSigma0(0xb73679a2) == 0xcde00e0a
    ensures ScheduleSum(0xcddd9afd, 0x3b68ba73, 0xcde00e0a, 0xc8215c1a) == 0x9f47bf94
    ensures SmallSigma1(0x24641522) == 0x883c4fbb && SmallSigma0(0xe5bc3909) == 0x013e863c
    ensures ScheduleSum(0x883c4fbb, 0xaff4ffc1, 0x013e863c, 0xb73679a2) == 0xf0a64f5a
    ensures SmallSigma1(0x9f47bf94) == 0x281f0da4 && SmallSigma0(0x32663c5b) == 0x3f3ec76a
    ensures ScheduleSum(0x281f0da4, 0xf10a5c62, 0x3f3ec76a, 0xe5bc3909) == 0x3e246a79
    ensures SmallSigma1(0xf0a64f5a) == 0xee7a0fd4 && SmallSigma0(0x9d209d67) == 0xfbc7b5de
    ensures ScheduleSum(0xee7a0fd4, 0x0a8b3996, 0xfbc7b5de, 0x32663c5b) == 0x27333ba3
    ensures SmallSigma1(0x3e246a79) == 0xb87c31cc && SmallSigma0(0xec8726cb) == 0x43fb11b5
    ensures ScheduleSum(0xb87c31cc, 0x72af830a, 0x43fb11b5, 0x9d209d67) == 0x0c4763f2
    ensures SmallSigma1(0x27333ba3) == 0xfaac3bb1 && SmallSigma0(0x702138a4) == 0x08cd796d
    ensures ScheduleSum(0xfaac3bb1, 0x9409e33e, 0x08cd796d, 0xec8726cb) == 0x840abf27
    ensures SmallSigma1(0x0c4763f2) == 0x5d845673 && SmallSigma0(0xd3b7973b) == 0x881f6924
    ensures ScheduleSum(0x5d845673, 0x24641522, 0x881f6924, 0x702138a4) == 0x7a290d5d
    ensures SmallSigma1(0x840abf27) == 0x0856302b && SmallSigma0(0x93f5997f) == 0x8b06bce0
    ensures ScheduleSum(0x0856302b, 0x9f47bf94, 0x8b06bce0, 0xd3b7973b) == 0x065c43da
  {
  }

  lemma Sums6()
    ensures NextWord(0x7a290d5d, 0xf0a64f5a, 0x3b68ba73, 0x93f5997f, 0xfb3e89cb)
    ensures NextWord(0x065c43da, 0x3e246a79, 0xaff4ffc1, 0x3b68ba73, 0xcc7617db)
    ensures NextWord(0xfb3e89cb, 0x27333ba3, 0xf10a5c62, 0xaff4ffc1, 0xb9e66c34)
    ensures NextWord(0xcc7617db, 0x0c4763f2, 0x0a8b3996, 0xf10a5c62, 0xa9993667)
    ensures NextWord(0xb9e66c34, 0x840abf27, 0x72af830a, 0x0a8b3996, 0x84badedd)
    ensures NextWord(0xa9993667, 0x7a290d5d, 0x9409e33e, 0x72af830a, 0xc21462bc)
    ensures NextWord(0x84badedd, 0x065c43da, 0x24641522, 0x9409e33e, 0x1487472c)
    ensures NextWord(0xc21462bc, 0xfb3e89cb, 0x9f47bf94, 0x24641522, 0xb20f7a99)
  {
    hide NextWord, SmallSigma0, SmallSigma1, ScheduleSum;
    Parts6();
    NextWordIs(0x7a290d5d, 0xa71b9812, 0xf0a64f5a, 0x3b68ba73, 0xcf8708e0, 0x93f5997f, 0xfb3e89cb);
    NextWordIs(0x065c43da, 0xa997d4f5, 0x3e246a79, 0xaff4ffc1, 0xa9511dfa, 0x3b68ba73, 0xcc7617db);
    NextWordIs(0xfb3e89cb, 0x95e24d5a, 0x27333ba3, 0xf10a5c62, 0x4cdbe376, 0xaff4ffc1, 0xb9e66c34);
    NextWordIs(0xcc7617db, 0xc9258230, 0x0c4763f2, 0x0a8b3996, 0xe321f3e3, 0xf10a5c62, 0xa9993667);
    NextWordIs(0xb9e66c34, 0xfbb2b254, 0x840abf27, 0x72af830a, 0xfa7233cc, 0x0a8b3996, 0x84badedd);
    NextWordIs(0xa9993667, 0xbdd547b2, 0x7a290d5d, 0x9409e33e, 0x17668aa3, 0x72af830a, 0xc21462bc);
    NextWordIs(0x84badedd, 0x34945c7d, 0x065c43da, 0x24641522, 0x458cc397, 0x9409e33e, 0x1487472c);
    NextWordIs(0xc21462bc, 0xbd397c50, 0xfb3e89cb, 0x9f47bf94, 0xd5335f5c, 0x24641522, 0xb20f7a99);
  }

  lemma Parts6()
    ensures SmallSigma1(0x7a290d5d) == 0xa71b9812 && SmallSigma0(0x3b68ba73) == 0xcf8708e0
    ensures ScheduleSum(0xa71b9812, 0xf0a64f5a, 0xcf8708e0, 0x93f5997f) == 0xfb3e89cb
    ensures SmallSigma1(0x065c43da) == 0xa997d4f5 && SmallSigma0(0xaff4ffc1) == 0xa9511dfa
    ensures ScheduleSum(0xa997d4f5, 0x3e246a79, 0xa9511dfa, 0x3b68ba73) == 0xcc7617db
    ensures SmallSigma1(0xfb3e89cb) == 0x95e24d5a && SmallSigma0(0xf10a5c62) == 0x4cdbe376
    ensures ScheduleSum(0x95e24d5a, 0x27333ba3, 0x4cdbe376, 0xaff4ffc1) == 0xb9e66c34
    ensures SmallSigma1(0xcc7617db) == 0xc9258230 && SmallSigma0(0x0a8b3996) == 0xe321f3e3
    ensures ScheduleSum(0xc9258230, 0x0c4763f2, 0xe321f3e3, 0xf10a5c62) == 0xa9993667
    ensures SmallSigma1(0xb9e66c34) == 0xfbb2b254 && SmallSigma0(0x72af830a) == 0xfa7233cc
    ensures ScheduleSum(0xfbb2b254, 0x840abf27, 0xfa7233cc, 0x0a8b3996) == 0x84badedd
    ensures SmallSigma1(0xa9993667) == 0xbdd547b2 && SmallSigma0(0x9409e33e) == 0x17668aa3
    ensures ScheduleSum(0xbdd547b2, 0x7a290d5d, 0x17668aa3, 0x72af830a) == 0xc21462bc
    ensures SmallSigma1(0x84badedd) == 0x34945c7d && SmallSigma0(0x24641522) == 0x458cc397
    ensures ScheduleSum(0x34945c7d, 0x065c43da, 0x458cc397, 0x9409e33e) == 0x1487472c
    ensures SmallSigma1(0xc21462bc) == 0xbd397c50 && SmallSigma0(0x9f47bf94) == 0xd5335f5c
    ensures ScheduleSum(0xbd397c50, 0xfb3e89cb, 0xd5335f5c, 0x24641522) == 0xb20f7a99
  {
  }

  lemma Sums7()
    ensures NextWord(0x1487472c, 0xcc7617db, 0xf0a64f5a, 0x9f47bf94, 0xef57b9cd)
    ensures NextWord(0xb20f7a99, 0xb9e66c34, 0x3e246a79, 0xf0a64f5a, 0xebe6b238)
    ensures NextWord(0xef57b9cd, 0xa9993667, 0x27333ba3, 0x3e246a79, 0x9fe3095e)
    ensures NextWord(0xebe6b238, 0x84badedd, 0x0c4763f2, 0x27333ba3, 0x78bc8d4b)
    ensures NextWord(0x9fe3095e, 0xc21462bc, 0x840abf27, 0x0c4763f2, 0xa43fcf15)
    ensures NextWord(0x78bc8d4b, 0x1487472c, 0x7a290d5d, 0x840abf27, 0x668b2ff8)
    ensures NextWord(0xa43fcf15, 0xb20f7a99, 0x065c43da, 0x7a290d5d, 0xeeaba2cc)
    ensures NextWord(0x668b2ff8, 0xef57b9cd, 0xfb3e89cb, 0x065c43da, 0x12b1edeb)
  {
    hide NextWord, SmallSigma0, SmallSigma1, ScheduleSum;
    Parts7();
    NextWordIs(0x1487472c, 0x4b76a902, 0xcc7617db, 0xf0a64f5a, 0x3823395c, 0x9f47bf94, 0xef57b9cd);
    NextWordIs(0xb20f7a99, 0x52336c98, 0xb9e66c34, 0x3e246a79, 0xef268a12, 0xf0a64f5a, 0xebe6b238);
    NextWordIs(0xef57b9cd, 0x2be49faf, 0xa9993667, 0x27333ba3, 0x8c40c8cf, 0x3e246a79, 0x9fe3095e);
    NextWordIs(0xebe6b238, 0x8f619123, 0x84badedd, 0x0c4763f2, 0x3d6ce1a8, 0x27333ba3, 0x78bc8d4b);
    NextWordIs(0x9fe3095e, 0xe5a364cf, 0xc21462bc, 0x840abf27, 0xf040a398, 0x0c4763f2, 0xa43fcf15);
    NextWordIs(0x78bc8d4b, 0xd712fc6a, 0x1487472c, 0x7a290d5d, 0xf6e62d3b, 0x840abf27, 0x668b2ff8);
    NextWordIs(0xa43fcf15, 0x1e41696b, 0xb20f7a99, 0x065c43da, 0xa431b16b, 0x7a290d5d, 0xeeaba2cc);
    NextWordIs(0x668b2ff8, 0xf21a9d5f, 0xef57b9cd, 0xfb3e89cb, 0x2ae352e5, 0x065c43da, 0x12b1edeb);
  }

  lemma Parts7()
    ensures SmallSigma1(0x1487472c) == 0x4b76a902 && SmallSigma0(0xf0a64f5a) == 0x3823395c
    ensures ScheduleSum(0x4b76a902, 0xcc7617db, 0x3823395c, 0x9f47bf94) == 0xef57b9cd
    ensures SmallSigma1(0xb20f7a99) == 0x52336c98 && SmallSigma0(0x3e246a79) == 0xef268a12
    ensures ScheduleSum(0x52336c98, 0xb9e66c34, 0xef268a12, 0xf0a64f5a) == 0xebe6b238
    ensures SmallSigma1(0xef57b9cd) == 0x2be49faf && SmallSigma0(0x27333ba3) == 0x8c40c8cf
    ensures ScheduleSum(0x2be49faf, 0xa9993667, 0x8c40c8cf, 0x3e246a79) == 0x9fe3095e
    ensures SmallSigma1(0xebe6b238) == 0x8f619123 && SmallSigma0(0x0c4763f2) == 0x3d6ce1a8
    ensures ScheduleSum(0x8f619123, 0x84badedd, 0x3d6ce1a8, 0x27333ba3) == 0x78bc8d4b
    ensures SmallSigma1(0x9fe3095e) == 0xe5a364cf && SmallSigma0(0x840abf27) == 0xf040a398
    ensures ScheduleSum(0xe5a364cf, 0xc21462bc, 0xf040a398, 0x0c4763f2) == 0xa43fcf15
    ensures SmallSigma1(0x78bc8d4b) == 0xd712fc6a && SmallSigma0(0x7a290d5d) == 0xf6e62d3b
    ensures ScheduleSum(0xd712fc6a, 0x1487472c, 0xf6e62d3b, 0x840abf27) == 0x668b2ff8
    ensures SmallSigma1(0xa43fcf15) == 0x1e41696b && SmallSigma0(0x065c43da) == 0xa431b16b
    ensures ScheduleSum(0x1e41696b, 0xb20f7a99, 0xa431b16b, 0x7a290d5d) == 0xeeaba2cc
    ensures SmallSigma1(0x668b2ff8) == 0xf21a9d5f && SmallSigma0(0xfb3e89cb) == 0x2ae352e5
    ensures ScheduleSum(0xf21a9d5f, 0xef57b9cd, 0x2ae352e5, 0x065c43da) == 0x12b1edeb
  {
  }

  lemma Words0(z: nat)
    requires z == 0
    ensures Schedule(BLOCK, z + 0) == 0x61626380
    ensures Schedule(BLOCK, z + 1) == 0x00000000
    ensures Schedule(BLOCK, z + 2) == 0x00000000
    ensures Schedule(BLOCK, z + 3) == 0x00000000
    ensures Schedule(BLOCK, z + 4) == 0x00000000
    ensures Schedule(BLOCK, z + 5) == 0x00000000
    ensures Schedule(BLOCK, z + 6) == 0x00000000
    ensures Schedule(BLOCK, z + 7) == 0x00000000
  {
    hide Schedule, NextWord;
    FirstWord(z);
    MiddleWord(z + 1);
    MiddleWord(z + 2);
    MiddleWord(z + 3);
    MiddleWord(z + 4);
    MiddleWord(z + 5);
    MiddleWord(z + 6);
    MiddleWord(z + 7);
  }

  lemma Words1(z: nat)
    requires z == 0
    ensures Schedule(BLOCK, z + 8) == 0x00000000
    ensures Schedule(BLOCK, z + 9) == 0x00000000
    ensures Schedule(BLOCK, z + 10) == 0x00000000
    ensures Schedule(BLOCK, z + 11) == 0x00000000
    ensures Schedule(BLOCK, z + 12) == 0x00000000
    ensures Schedule(BLOCK, z + 13) == 0x00000000
    ensures Schedule(BLOCK, z + 14) == 0x00000000
    ensures Schedule(BLOCK, z + 15) == 0x00000018
  {
    hide Schedule, NextWord;
    MiddleWord(z + 8);
    MiddleWord(z + 9);
    MiddleWord(z + 10);
    MiddleWord(z + 11);
    MiddleWord(z + 12);
    MiddleWord(z + 13);
    MiddleWord(z + 14);
    LastWord(z + 15);
  }

  lemma Words2(z: nat)
    requires z == 0
    ensures Schedule(BLOCK, z + 16) == 0x61626380
    ensures Schedule(BLOCK, z + 17) == 0x000f0000
    ensures Schedule(BLOCK, z + 18) == 0x7da86405
    ensures Schedule(BLOCK, z + 19) == 0x600003c6
    ensures Schedule(BLOCK, z + 20) == 0x3e9d7b78
    ensures Schedule(BLOCK, z + 21) == 0x0183fc00
    ensures Schedule(BLOCK, z + 22) == 0x12dcbfdb
    ensures Schedule(BLOCK, z + 23) == 0xe2e2c38e
  {
    hide Schedule, NextWord;
    Words0(z);
    Words1(z);
    Sums2();
    ScheduleStep(z + 16, 0x00000000, 0x00000000, 0x00000000, 0x61626380, 0x61626380);
    ScheduleStep(z + 17, 0x00000018, 0x00000000, 0x00000000, 0x00000000, 0x000f0000);
    ScheduleStep(z + 18, 0x61626380, 0x00000000, 0x00000000, 0x00000000, 0x7da86405);
    ScheduleStep(z + 19, 0x000f0000, 0x00000000, 0x00000000, 0x00000000, 0x600003c6);
    ScheduleStep(z + 20, 0x7da86405, 0x00000000, 0x00000000, 0x00000000, 0x3e9d7b78);
    ScheduleStep(z + 21, 0x600003c6, 0x00000000, 0x00000000, 0x00000000, 0x0183fc00);
    ScheduleStep(z + 22, 0x3e9d7b78, 0x00000018, 0x00000000, 0x00000000, 0x12dcbfdb);
    ScheduleStep(z + 23, 0x0183fc00, 0x61626380, 0x00000000, 0x00000000, 0xe2e2c38e);
  }

  lemma Words3(z: nat)
    requires z == 0
    ensures Schedule(BLOCK, z + 24) == 0xc8215c1a
    ensures Schedule(BLOCK, z + 25) == 0xb73679a2
    ensures Schedule(BLOCK, z + 26) == 0xe5bc3909
    ensures Schedule(BLOCK, z + 27) == 0x32663c5b
    ensures Schedule(BLOCK, z + 28) == 0x9d209d67
    ensures Schedule(BLOCK, z + 29) == 0xec8726cb
    ensures Schedule(BLOCK, z + 30) == 0x702138a4
    ensures Schedule(BLOCK, z + 31) == 0xd3b7973b
  {
    hide Schedule, NextWord;
    Words1(z);
    Words2(z);
    Sums3();
    ScheduleStep(z + 24, 0x12dcbfdb, 0x000f0000, 0x00000000, 0x00000000, 0xc8215c1a);
    ScheduleStep(z + 25, 0xe2e2c38e, 0x7da86405, 0x00000000, 0x00000000, 0xb73679a2);
    ScheduleStep(z + 26, 0xc8215c1a, 0x600003c6, 0x00000000, 0x00000000, 0xe5bc3909);
    ScheduleStep(z + 27, 0xb73679a2, 0x3e9d7b78, 0x00000000, 0x00000000, 0x32663c5b);
    ScheduleStep(z + 28, 0xe5bc3909, 0x0183fc00, 0x00000000, 0x00000000, 0x9d209d67);
    ScheduleStep(z + 29, 0x32663c5b, 0x12dcbfdb, 0x00000000, 0x00000000, 0xec8726cb);
    ScheduleStep(z + 30, 0x9d209d67, 0xe2e2c38e, 0x00000018, 0x00000000, 0x702138a4);
    ScheduleStep(z + 31, 0xec8726cb, 0xc8215c1a, 0x61626380, 0x00000018, 0xd3b7973b);
  }

  lemma Words4(z: nat)
    requires z == 0
    ensures Schedule(BLOCK, z + 32) == 0x93f5997f
    ensures Schedule(BLOCK, z + 33) == 0x3b68ba73
    ensures Schedule(BLOCK, z + 34) == 0xaff4ffc1
    ensures Schedule(BLOCK, z + 35) == 0xf10a5c62
    ensures Schedule(BLOCK, z + 36) == 0x0a8b3996
    ensures Schedule(BLOCK, z + 37) == 0x72af830a
    ensures Schedule(BLOCK, z + 38) == 0x9409e33e
    ensures Schedule(BLOCK, z + 39) == 0x24641522
  {
    hide Schedule, NextWord;
    Words2(z);
    Words3(z);
    Sums4();
    ScheduleStep(z + 32, 0x702138a4, 0xb73679a2, 0x000f0000, 0x61626380, 0x93f5997f);
    ScheduleStep(z + 33, 0xd3b7973b, 0xe5bc3909, 0x7da86405, 0x000f0000, 0x3b68ba73);
    ScheduleStep(z + 34, 0x93f5997f, 0x32663c5b, 0x600003c6, 0x7da86405, 0xaff4ffc1);
    ScheduleStep(z + 35, 0x3b68ba73, 0x9d209d67, 0x3e9d7b78, 0x600003c6, 0xf10a5c62);
    ScheduleStep(z + 36, 0xaff4ffc1, 0xec8726cb, 0x0183fc00, 0x3e9d7b78, 0x0a8b3996);
    ScheduleStep(z + 37, 0xf10a5c62, 0x702138a4, 0x12dcbfdb, 0x0183fc00, 0x72af830a);
    ScheduleStep(z + 38, 0x0a8b3996, 0xd3b7973b, 0xe2e2c38e, 0x12dcbfdb, 0x9409e33e);
    ScheduleStep(z + 39, 0x72af830a, 0x93f5997f, 0xc8215c1a, 0xe2e2c38e, 0x24641522);
  }

  lemma Words5(z: nat)
    requires z == 0
    ensures Schedule(BLOCK, z + 40) == 0x9f47bf94
    ensures Schedule(BLOCK, z + 41) == 0xf0a64f5a
    ensures Schedule(BLOCK, z + 42) == 0x3e246a79
    ensures Schedule(BLOCK, z + 43) == 0x27333ba3
    ensures Schedule(BLOCK, z + 44) == 0x0c4763f2
    ensures Schedule(BLOCK, z + 45) == 0x840abf27
    ensures Schedule(BLOCK, z + 46) == 0x7a290d5d
    ensures Schedule(BLOCK, z + 47) == 0x065c43da
  {
    hide Schedule, NextWord;
    Words3(z);
    Words4(z);
    Sums5();
    ScheduleStep(z + 40, 0x9409e33e, 0x3b68ba73, 0xb73679a2, 0xc8215c1a, 0x9f47bf94);
    ScheduleStep(z + 41, 0x24641522, 0xaff4ffc1, 0xe5bc3909, 0xb73679a2, 0xf0a64f5a);
    ScheduleStep(z + 42, 0x9f47bf94, 0xf10a5c62, 0x32663c5b, 0xe5bc3909, 0x3e246a79);
    ScheduleStep(z + 43, 0xf0a64f5a, 0x0a8b3996, 0x9d209d67, 0x32663c5b, 0x27333ba3);
    ScheduleStep(z + 44, 0x3e246a79, 0x72af830a, 0xec8726cb, 0x9d209d67, 0x0c4763f2);
    ScheduleStep(z + 45, 0x27333ba3, 0x9409e33e, 0x702138a4, 0xec8726cb, 0x840abf27);
    ScheduleStep(z + 46, 0x0c4763f2, 0x24641522, 0xd3b7973b, 0x702138a4, 0x7a290d5d);
    ScheduleStep(z + 47, 0x840abf27, 0x9f47bf94, 0x93f5997f, 0xd3b7973b, 0x065c43da);
  }

  lemma Words6(z: nat)
    requires z == 0
    ensures Schedule(BLOCK, z + 48) == 0xfb3e89cb
    ensures Schedule(BLOCK, z + 49) == 0xcc7617db
    ensures Schedule(BLOCK, z + 50) == 0xb9e66c34
    ensures Schedule(BLOCK, z + 51) == 0xa9993667
    ensures Schedule(BLOCK, z + 52) == 0x84badedd
    ensures Schedule(BLOCK, z + 53) == 0xc21462bc
    ensures Schedule(BLOCK, z + 54) == 0x1487472c
    ensures Schedule(BLOCK, z + 55) == 0xb20f7a99
  {
    hide Schedule, NextWord;
    Words4(z);
    Words5(z);
    Sums6();
    ScheduleStep(z + 48, 0x7a290d5d, 0xf0a64f5a, 0x3b68ba73, 0x93f5997f, 0xfb3e89cb);
    ScheduleStep(z + 49, 0x065c43da, 0x3e246a79, 0xaff4ffc1, 0x3b68ba73, 0xcc7617db);
    ScheduleStep(z + 50, 0xfb3e89cb, 0x27333ba3, 0xf10a5c62, 0xaff4ffc1, 0xb9e66c34);
    ScheduleStep(z + 51, 0xcc7617db, 0x0c4763f2, 0x0a8b3996, 0xf10a5c62, 0xa9993667);
    ScheduleStep(z + 52, 0xb9e66c34, 0x840abf27, 0x72af830a, 0x0a8b3996, 0x84badedd);
    ScheduleStep(z + 53, 0xa9993667, 0x7a290d5d, 0x9409e33e, 0x72af830a, 0xc21462bc);
    ScheduleStep(z + 54, 0x84badedd, 0x065c43da, 0x24641522, 0x9409e33e, 0x1487472c);
    ScheduleStep(z + 55, 0xc21462bc, 0xfb3e89cb, 0x9f47bf94, 0x24641522, 0xb20f7a99);
  }

  lemma Words7(z: nat)
    requires z == 0
    ensures Schedule(BLOCK, z + 56) == 0xef57b9cd
    ensures Schedule(BLOCK, z + 57) == 0xebe6b238
    ensures Schedule(BLOCK, z + 58) == 0x9fe3095e
    ensures Schedule(BLOCK, z + 59) == 0x78bc8d4b
    ensures Schedule(BLOCK, z + 60) == 0xa43fcf15
    ensures Schedule(BLOCK, z + 61) == 0x668b2ff8
    ensures Schedule(BLOCK, z + 62) == 0xeeaba2cc
    ensures Schedule(BLOCK, z + 63) == 0x12b1edeb
  {
    hide Schedule, NextWord;
    Words5(z);
    Words6(z);
    Sums7();
    ScheduleStep(z + 56, 0x1487472c, 0xcc7617db, 0xf0a64f5a, 0x9f47bf94, 0xef57b9cd);
    ScheduleStep(z + 57, 0xb20f7a99, 0xb9e66c34, 0x3e246a79, 0xf0a64f5a, 0xebe6b238);
    ScheduleStep(z + 58, 0xef57b9cd, 0xa9993667, 0x27333ba3, 0x3e246a79, 0x9fe3095e);
    ScheduleStep(z + 59, 0xebe6b238, 0x84badedd, 0x0c4763f2, 0x27333ba3, 0x78bc8d4b);
    ScheduleStep(z + 60, 0x9fe3095e, 0xc21462bc, 0x840abf27, 0x0c4763f2, 0xa43fcf15);
    ScheduleStep(z + 61, 0x78bc8d4b, 0x1487472c, 0x7a290d5d, 0x840abf27, 0x668b2ff8);
    ScheduleStep(z + 62, 0xa43fcf15, 0xb20f7a99, 0x065c43da, 0x7a290d5d, 0xeeaba2cc);
    ScheduleStep(z + 63, 0x668b2ff8, 0xef57b9cd, 0xfb3e89cb, 0x065c43da, 0x12b1edeb);
  }

  // ---- the rounds ----

  lemma RoundStep(t: nat, v: Vars, k: bv32, w: bv32, next: Vars)
    requires t < 64 && Rounds(BLOCK, INITIAL, t) == v && Constant(t) == k && Schedule(BLOCK, t) == w
    requires Round(v, k, w) == next
    ensures Rounds(BLOCK, INITIAL, t + 1) == next
  {
    hide Round, Constant, Schedule;
  }

  lemma RoundStarts(z: nat)
    requires z == 0
    ensures Rounds(BLOCK, INITIAL, z) == INITIAL
    ensures INITIAL == Vars(0x6a09e667, 0xbb67ae85, 0x3c6ef372, 0xa54ff53a, 0x510e527f, 0x9b05688c, 0x1f83d9ab, 0x5be0cd19)
  {
    hide Round, Constant, Schedule, FromInt;
    Initials();
  }

  lemma Initials()
    ensures FromInt(0x6a09e667) == 0x6a09e667
    ensures FromInt(0xbb67ae85) == 0xbb67ae85
    ensures FromInt(0x3c6ef372) == 0x3c6ef372
    ensures FromInt(0xa54ff53a) == 0xa54ff53a
    ensures FromInt(0x510e527f) == 0x510e527f
    ensures FromInt(0x9b05688c) == 0x9b05688c
    ensures FromInt(0x1f83d9ab) == 0x1f83d9ab
    ensures FromInt(0x5be0cd19) == 0x5be0cd19
  {
  }

  lemma Constants0(z: nat)
    requires z == 0
    ensures Constant(z + 0) == 0x428a2f98
    ensures Constant(z + 1) == 0x71374491
    ensures Constant(z + 2) == 0xb5c0fbcf
    ensures Constant(z + 3) == 0xe9b5dba5
    ensures Constant(z + 4) == 0x3956c25b
    ensures Constant(z + 5) == 0x59f111f1
    ensures Constant(z + 6) == 0x923f82a4
    ensures Constant(z + 7) == 0xab1c5ed5
  {
    hide FromInt;
    Converted0();
  }

  lemma Converted0()
    ensures FromInt(0x428a2f98) == 0x428a2f98
    ensures FromInt(0x71374491) == 0x71374491
    ensures FromInt(0xb5c0fbcf) == 0xb5c0fbcf
    ensures FromInt(0xe9b5dba5) == 0xe9b5dba5
    ensures FromInt(0x3956c25b) == 0x3956c25b
    ensures FromInt(0x59f111f1) == 0x59f111f1
    ensures FromInt(0x923f82a4) == 0x923f82a4
    ensures FromInt(0xab1c5ed5) == 0xab1c5ed5
  {
  }

  lemma Constants1(z: nat)
    requires z == 0
    ensures Constant(z + 8) == 0xd807aa98
    ensures Constant(z + 9) == 0x12835b01
    ensures Constant(z + 10) == 0x243185be
    ensures Constant(z + 11) == 0x550c7dc3
    ensures Constant(z + 12) == 0x72be5d74
    ensures Constant(z + 13) == 0x80deb1fe
    ensures Constant(z + 14) == 0x9bdc06a7
    ensures Constant(z + 15) == 0xc19bf174
  {
    hide FromInt;
    Converted1();
  }

  lemma Converted1()
    ensures FromInt(0xd807aa98) == 0xd807aa98
    ensures FromInt(0x12835b01) == 0x12835b01
    ensures FromInt(0x243185be) == 0x243185be
    ensures FromInt(0x550c7dc3) == 0x550c7dc3
    ensures FromInt(0x72be5d74) == 0x72be5d74
    ensures FromInt(0x80deb1fe) == 0x80deb1fe
    ensures FromInt(0x9bdc06a7) == 0x9bdc06a7
    ensures FromInt(0xc19bf174) == 0xc19bf174
  {
  }

  lemma Constants2(z: nat)
    requires z == 0
    ensures Constant(z + 16) == 0xe49b69c1
    ensures Constant(z + 17) == 0xefbe4786
    ensures Constant(z + 18) == 0x0fc19dc6
    ensures Constant(z + 19) == 0x240ca1cc
    ensures Constant(z + 20) == 0x2de92c6f
    ensures Constant(z + 21) == 0x4a7484aa
    ensures Constant(z + 22) == 0x5cb0a9dc
    ensures Constant(z + 23) == 0x76f988da
  {
    hide FromInt;
    Converted2();
  }

  lemma Converted2()
    ensures FromInt(0xe49b69c1) == 0xe49b69c1
    ensures FromInt(0xefbe4786) == 0xefbe4786
    ensures FromInt(0x0fc19dc6) == 0x0fc19dc6
    ensures FromInt(0x240ca1cc) == 0x240ca1cc
    ensures FromInt(0x2de92c6f) == 0x2de92c6f
    ensures FromInt(0x4a7484aa) == 0x4a7484aa
    ensures FromInt(0x5cb0a9dc) == 0x5cb0a9dc
    ensures FromInt(0x76f988da) == 0x76f988da
  {
  }

  lemma Constants3(z: nat)
    requires z == 0
    ensures Constant(z + 24) == 0x983e5152
    ensures Constant(z + 25) == 0xa831c66d
    ensures Constant(z + 26) == 0xb00327c8
    ensures Constant(z + 27) == 0xbf597fc7
    ensures Constant(z + 28) == 0xc6e00bf3
    ensures Constant(z + 29) == 0xd5a79147
    ensures Constant(z + 30) == 0x06ca6351
    ensures Constant(z + 31) == 0x14292967
  {
    hide FromInt;
    Converted3();
  }

  lemma Converted3()
    ensures FromInt(0x983e5152) == 0x983e5152
    ensures FromInt(0xa831c66d) == 0xa831c66d
    ensures FromInt(0xb00327c8) == 0xb00327c8
    ensures FromInt(0xbf597fc7) == 0xbf597fc7
    ensures FromInt(0xc6e00bf3) == 0xc6e00bf3
    ensures FromInt(0xd5a79147) == 0xd5a79147
    ensures FromInt(0x06ca6351) == 0x06ca6351
    ensures FromInt(0x14292967) == 0x14292967
  {
  }

  lemma Constants4(z: nat)
    requires z == 0
    ensures Constant(z + 32) == 0x27b70a85
    ensures Constant(z + 33) == 0x2e1b2138
    ensures Constant(z + 34) == 0x4d2c6dfc
    ensures Constant(z + 35) == 0x53380d13
    ensures Constant(z + 36) == 0x650a7354
    ensures Constant(z + 37) == 0x766a0abb
    ensures Constant(z + 38) == 0x81c2c92e
    ensures Constant(z + 39) == 0x92722c85
  {
    hide FromInt;
    Converted4();
  }

  lemma Converted4()
    ensures FromInt(0x27b70a85) == 0x27b70a85
    ensures FromInt(0x2e1b2138) == 0x2e1b2138
    ensures FromInt(0x4d2c6dfc) == 0x4d2c6dfc
    ensures FromInt(0x53380d13) == 0x53380d13
    ensures FromInt(0x650a7354) == 0x650a7354
    ensures FromInt(0x766a0abb) == 0x766a0abb
    ensures FromInt(0x81c2c92e) == 0x81c2c92e
    ensures FromInt(0x92722c85) == 0x92722c85
  {
  }

  lemma Constants5(z: nat)
    requires z == 0
    ensures Constant(z + 40) == 0xa2bfe8a1
    ensures Constant(z + 41) == 0xa81a664b
    ensures Constant(z + 42) == 0xc24b8b70
    ensures Constant(z + 43) == 0xc76c51a3
    ensures Constant(z + 44) == 0xd192e819
    ensures Constant(z + 45) == 0xd6990624
    ensures Constant(z + 46) == 0xf40e3585
    ensures Constant(z + 47) == 0x106aa070
  {
    hide FromInt;
    Converted5();
  }

  lemma Converted5()
    ensures FromInt(0xa2bfe8a1) == 0xa2bfe8a1
    ensures FromInt(0xa81a664b) == 0xa81a664b
    ensures FromInt(0xc24b8b70) == 0xc24b8b70
    ensures FromInt(0xc76c51a3) == 0xc76c51a3
    ensures FromInt(0xd192e819) == 0xd192e819
    ensures FromInt(0xd6990624) == 0xd6990624
    ensures FromInt(0xf40e3585) == 0xf40e3585
    ensures FromInt(0x106aa070) == 0x106aa070
  {
  }

  lemma Constants6(z: nat)
    requires z == 0
    ensures Constant(z + 48) == 0x19a4c116
    ensures Constant(z + 49) == 0x1e376c08
    ensures Constant(z + 50) == 0x2748774c
    ensures Constant(z + 51) == 0x34b0bcb5
    ensures Constant(z + 52) == 0x391c0cb3
    ensures Constant(z + 53) == 0x4ed8aa4a
    ensures Constant(z + 54) == 0x5b9cca4f
    ensures Constant(z + 55) == 0x682e6ff3
  {
    hide FromInt;
    Converted6();
  }

  lemma Converted6()
    ensures FromInt(0x19a4c116) == 0x19a4c116
    ensures FromInt(0x1e376c08) == 0x1e376c08
    ensures FromInt(0x2748774c) == 0x2748774c
    ensures FromInt(0x34b0bcb5) == 0x34b0bcb5
    ensures FromInt(0x391c0cb3) == 0x391c0cb3
    ensures FromInt(0x4ed8aa4a) == 0x4ed8aa4a
    ensures FromInt(0x5b9cca4f) == 0x5b9cca4f
    ensures FromInt(0x682e6ff3) == 0x682e6ff3
  {
  }

  lemma Constants7(z: nat)
    requires z == 0
    ensures Constant(z + 56) == 0x748f82ee
    ensures Constant(z + 57) == 0x78a5636f
    ensures Constant(z + 58) == 0x84c87814
    ensures Constant(z + 59) == 0x8cc70208
    ensures Constant(z + 60) == 0x90befffa
    ensures Constant(z + 61) == 0xa4506ceb
    ensures Constant(z + 62) == 0xbef9a3f7
    ensures Constant(z + 63) == 0xc67178f2
  {
    hide FromInt;
    Converted7();
  }

  lemma Converted7()
    ensures FromInt(0x748f82ee) == 0x748f82ee
    ensures FromInt(0x78a5636f) == 0x78a5636f
    ensures FromInt(0x84c87814) == 0x84c87814
    ensures FromInt(0x8cc70208) == 0x8cc70208
    ensures FromInt(0x90befffa) == 0x90befffa
    ensures FromInt(0xa4506ceb) == 0xa4506ceb
    ensures FromInt(0xbef9a3f7) == 0xbef9a3f7
    ensures FromInt(0xc67178f2) == 0xc67178f2
  {
  }

  lemma RoundsOf0()
    ensures Round(Vars(0x6a09e667, 0xbb67ae85, 0x3c6ef372, 0xa54ff53a, 0x510e527f, 0x9b05688c, 0x1f83d9ab, 0x5be0cd19), 0x428a2f98, 0x61626380)
         == Vars(0x5d6aebcd, 0x6a09e667, 0xbb67ae85, 0x3c6ef372, 0xfa2a4622, 0x510e527f, 0x9b05688c, 0x1f83d9ab)
    ensures Round(Vars(0x5d6aebcd, 0x6a09e667, 0xbb67ae85, 0x3c6ef372, 0xfa2a4622, 0x510e527f, 0x9b05688c, 0x1f83d9ab), 0x71374491, 0x00000000)
         == Vars(0x5a6ad9ad, 0x5d6aebcd, 0x6a09e667, 0xbb67ae85, 0x78ce7989, 0xfa2a4622, 0x510e527f, 0x9b05688c)
    ensures Round(Vars(0x5a6ad9ad, 0x5d6aebcd, 0x6a09e667, 0xbb67ae85, 0x78ce7989, 0xfa2a4622, 0x510e527f, 0x9b05688c), 0xb5c0fbcf, 0x00000000)
         == Vars(0xc8c347a7, 0x5a6ad9ad, 0x5d6aebcd, 0x6a09e667, 0xf92939eb, 0x78ce7989, 0xfa2a4622, 0x510e527f)
    ensures Round(Vars(0xc8c347a7, 0x5a6ad9ad, 0x5d6aebcd, 0x6a09e667, 0xf92939eb, 0x78ce7989, 0xfa2a4622, 0x510e527f), 0xe9b5dba5, 0x00000000)
         == Vars(0xd550f666, 0xc8c347a7, 0x5a6ad9ad, 0x5d6aebcd, 0x24e00850, 0xf92939eb, 0x78ce7989, 0xfa2a4622)
  {
  }

  lemma After4(z: nat)
    requires z == 0
    ensures Rounds(BLOCK, INITIAL, z + 4)
         == Vars(0xd550f666, 0xc8c347a7, 0x5a6ad9ad, 0x5d6aebcd, 0x24e00850, 0xf92939eb, 0x78ce7989, 0xfa2a4622)
  {
    hide Rounds, Round, Constant, Schedule;
    RoundStarts(z);
    Words0(z);
    Constants0(z);
    RoundsOf0();
    RoundStep(z + 0, Vars(0x6a09e667, 0xbb67ae85, 0x3c6ef372, 0xa54ff53a, 0x510e527f, 0x9b05688c, 0x1f83d9ab, 0x5be0cd19), 0x428a2f98, 0x61626380,
      Vars(0x5d6aebcd, 0x6a09e667, 0xbb67ae85, 0x3c6ef372, 0xfa2a4622, 0x510e527f, 0x9b05688c, 0x1f83d9ab));
    RoundStep(z + 1, Vars(0x5d6aebcd, 0x6a09e667, 0xbb67ae85, 0x3c6ef372, 0xfa2a4622, 0x510e527f, 0x9b05688c, 0x1f83d9ab), 0x71374491, 0x00000000,
      Vars(0x5a6ad9ad, 0x5d6aebcd, 0x6a09e667, 0xbb67ae85, 0x78ce7989, 0xfa2a4622, 0x510e527f, 0x9b05688c));
    RoundStep(z + 2, Vars(0x5a6ad9ad, 0x5d6aebcd, 0x6a09e667, 0xbb67ae85, 0x78ce7989, 0xfa2a4622, 0x510e527f, 0x9b05688c), 0xb5c0fbcf, 0x00000000,
      Vars(0xc8c347a7, 0x5a6ad9ad, 0x5d6aebcd, 0x6a09e667, 0xf92939eb, 0x78ce7989, 0xfa2a4622, 0x510e527f));
    RoundStep(z + 3, Vars(0xc8c347a7, 0x5a6ad9ad, 0x5d6aebcd, 0x6a09e667, 0xf92939eb, 0x78ce7989, 0xfa2a4622, 0x510e527f), 0xe9b5dba5, 0x00000000,
      Vars(0xd550f666, 0xc8c347a7, 0x5a6ad9ad, 0x5d6aebcd, 0x24e00850, 0xf92939eb, 0x78ce7989, 0xfa2a4622));
  }

  lemma RoundsOf1()
    ensures Round(Vars(0xd550f666, 0xc8c347a7, 0x5a6ad9ad, 0x5d6aebcd, 0x24e00850, 0xf92939eb, 0x78ce7989, 0xfa2a4622), 0x3956c25b, 0x00000000)
         == Vars(0x04409a6a, 0xd550f666, 0xc8c347a7, 0x5a6ad9ad, 0x43ada245, 0x24e00850, 0xf92939eb, 0x78ce7989)
    ensures Round(Vars(0x04409a6a, 0xd550f666, 0xc8c347a7, 0x5a6ad9ad, 0x43ada245, 0x24e00850, 0xf92939eb, 0x78ce7989), 0x59f111f1, 0x00000000)
         == Vars(0x2b4209f5, 0x04409a6a, 0xd550f666, 0xc8c347a7, 0x714260ad, 0x43ada245, 0x24e00850, 0xf92939eb)
    ensures Round(Vars(0x2b4209f5, 0x04409a6a, 0xd550f666, 0xc8c347a7, 0x714260ad, 0x43ada245, 0x24e00850, 0xf92939eb), 0x923f82a4, 0x00000000)
         == Vars(0xe5030380, 0x2b4209f5, 0x04409a6a, 0xd550f666, 0x9b27a401, 0x714260ad, 0x43ada245, 0x24e00850)
    ensures Round(Vars(0xe5030380, 0x2b4209f5, 0x04409a6a, 0xd550f666, 0x9b27a401, 0x714260ad, 0x43ada245, 0x24e00850), 0xab1c5ed5, 0x00000000)
         == Vars(0x85a07b5f, 0xe5030380, 0x2b4209f5, 0x04409a6a, 0x0c657a79, 0x9b27a401, 0x714260ad, 0x43ada245)
  {
  }

  lemma After8(z: nat)
    requires z == 0
    ensures Rounds(BLOCK, INITIAL, z + 8)
         == Vars(0x85a07b5f, 0xe5030380, 0x2b4209f5, 0x04409a6a, 0x0c657a79, 0x9b27a401, 0x714260ad, 0x43ada245)
  {
    hide Rounds, Round, Constant, Schedule;
    After4(z);
    Words0(z);
    Constants0(z);
    RoundsOf1();
    RoundStep(z + 4, Vars(0xd550f666, 0xc8c347a7, 0x5a6ad9ad, 0x5d6aebcd, 0x24e00850, 0xf92939eb, 0x78ce7989, 0xfa2a4622), 0x3956c25b, 0x00000000,
      Vars(0x04409a6a, 0xd550f666, 0xc8c347a7, 0x5a6ad9ad, 0x43ada245, 0x24e00850, 0xf92939eb, 0x78ce7989));
    RoundStep(z + 5, Vars(0x04409a6a, 0xd550f666, 0xc8c347a7, 0x5a6ad9ad, 0x43ada245, 0x24e00850, 0xf92939eb, 0x78ce7989), 0x59f111f1, 0x00000000,
      Vars(0x2b4209f5, 0x04409a6a, 0xd550f666, 0xc8c347a7, 0x714260ad, 0x43ada245, 0x24e00850, 0xf92939eb));
    RoundStep(z + 6, Vars(0x2b4209f5, 0x04409a6a, 0xd550f666, 0xc8c347a7, 0x714260ad, 0x43ada245, 0x24e00850, 0xf92939eb), 0x923f82a4, 0x00000000,
      Vars(0xe5030380, 0x2b4209f5, 0x04409a6a, 0xd550f666, 0x9b27a401, 0x714260ad, 0x43ada245, 0x24e00850));
    RoundStep(z + 7, Vars(0xe5030380, 0x2b4209f5, 0x04409a6a, 0xd550f666, 0x9b27a401, 0x714260ad, 0x43ada245, 0x24e00850), 0xab1c5ed5, 0x00000000,
      Vars(0x85a07b5f, 0xe5030380, 0x2b4209f5, 0x04409a6a, 0x0c657a79, 0x9b27a401, 0x714260ad, 0x43ada245));
  }

  lemma RoundsOf2()
    ensures Round(Vars(0x85a07b5f, 0xe5030380, 0x2b4209f5, 0x04409a6a, 0x0c657a79, 0x9b27a401, 0x714260ad, 0x43ada245), 0xd807aa98, 0x00000000)
         == Vars(0x8e04ecb9, 0x85a07b5f, 0xe5030380, 0x2b4209f5, 0x32ca2d8c, 0x0c657a79, 0x9b27a401, 0x714260ad)
    ensures Round(Vars(0x8e04ecb9, 0x85a07b5f, 0xe5030380, 0x2b4209f5, 0x32ca2d8c, 0x0c657a79, 0x9b27a401, 0x714260ad), 0x12835b01, 0x00000000)
         == Vars(0x8c87346b, 0x8e04ecb9, 0x85a07b5f, 0xe5030380, 0x1cc92596, 0x32ca2d8c, 0x0c657a79, 0x9b27a401)
    ensures Round(Vars(0x8c87346b, 0x8e04ecb9, 0x85a07b5f, 0xe5030380, 0x1cc92596, 0x32ca2d8c, 0x0c657a79, 0x9b27a401), 0x243185be, 0x00000000)
         == Vars(0x4798a3f4, 0x8c87346b, 0x8e04ecb9, 0x85a07b5f, 0x436b23e8, 0x1cc92596, 0x32ca2d8c, 0x0c657a79)
    ensures Round(Vars(0x4798a3f4, 0x8c87346b, 0x8e04ecb9, 0x85a07b5f, 0x436b23e8, 0x1cc92596, 0x32ca2d8c, 0x0c657a79), 0x550c7dc3, 0x00000000)
         == Vars(0xf71fc5a9, 0x4798a3f4, 0x8c87346b, 0x8e04ecb9, 0x816fd6e9, 0x436b23e8, 0x1cc92596, 0x32ca2d8c)
  {
  }

  lemma After12(z: nat)
    requires z == 0
    ensures Rounds(BLOCK, INITIAL, z + 12)
         == Vars(0xf71fc5a9, 0x4798a3f4, 0x8c87346b, 0x8e04ecb9, 0x816fd6e9, 0x436b23e8, 0x1cc92596, 0x32ca2d8c)
  {
    hide Rounds, Round, Constant, Schedule;
    After8(z);
    Words1(z);
    Constants1(z);
    RoundsOf2();
    RoundStep(z + 8, Vars(0x85a07b5f, 0xe5030380, 0x2b4209f5, 0x04409a6a, 0x0c657a79, 0x9b27a401, 0x714260ad, 0x43ada245), 0xd807aa98, 0x00000000,
      Vars(0x8e04ecb9, 0x85a07b5f, 0xe5030380, 0x2b4209f5, 0x32ca2d8c, 0x0c657a79, 0x9b27a401, 0x714260ad));
    RoundStep(z + 9, Vars(0x8e04ecb9, 0x85a07b5f, 0xe5030380, 0x2b4209f5, 0x32ca2d8c, 0x0c657a79, 0x9b27a401, 0x714260ad), 0x12835b01, 0x00000000,
      Vars(0x8c87346b, 0x8e04ecb9, 0x85a07b5f, 0xe5030380, 0x1cc92596, 0x32ca2d8c, 0x0c657a79, 0x9b27a401));
    RoundStep(z + 10, Vars(0x8c87346b, 0x8e04ecb9, 0x85a07b5f, 0xe5030380, 0x1cc92596, 0x32ca2d8c, 0x0c657a79, 0x9b27a401), 0x243185be, 0x00000000,
      Vars(0x4798a3f4, 0x8c87346b, 0x8e04ecb9, 0x85a07b5f, 0x436b23e8, 0x1cc92596, 0x32ca2d8c, 0x0c657a79));
    RoundStep(z + 11, Vars(0x4798a3f4, 0x8c87346b, 0x8e04ecb9, 0x85a07b5f, 0x436b23e8, 0x1cc92596, 0x32ca2d8c, 0x0c657a79), 0x550c7dc3, 0x00000000,
      Vars(0xf71fc5a9, 0x4798a3f4, 0x8c87346b, 0x8e04ecb9, 0x816fd6e9, 0x436b23e8, 0x1cc92596, 0x32ca2d8c));
  }

  lemma RoundsOf3()
    ensures Round(Vars(0xf71fc5a9, 0x4798a3f4, 0x8c87346b, 0x8e04ecb9, 0x816fd6e9, 0x436b23e8, 0x1cc92596, 0x32ca2d8c), 0x72be5d74, 0x00000000)
         == Vars(0x87912990, 0xf71fc5a9, 0x4798a3f4, 0x8c87346b, 0x1e578218, 0x816fd6e9, 0x436b23e8, 0x1cc92596)
    ensures Round(Vars(0x87912990, 0xf71fc5a9, 0x4798a3f4, 0x8c87346b, 0x1e578218, 0x816fd6e9, 0x436b23e8, 0x1cc92596), 0x80deb1fe, 0x00000000)
         == Vars(0xd932eb16, 0x87912990, 0xf71fc5a9, 0x4798a3f4, 0x745a48de, 0x1e578218, 0x816fd6e9, 0x436b23e8)
    ensures Round(Vars(0xd932eb16, 0x87912990, 0xf71fc5a9, 0x4798a3f4, 0x745a48de, 0x1e578218, 0x816fd6e9, 0x436b23e8), 0x9bdc06a7, 0x00000000)
         == Vars(0xc0645fde, 0xd932eb16, 0x87912990, 0xf71fc5a9, 0x0b92f20c, 0x745a48de, 0x1e578218, 0x816fd6e9)
    ensures Round(Vars(0xc0645fde, 0xd932eb16, 0x87912990, 0xf71fc5a9, 0x0b92f20c, 0x745a48de, 0x1e578218, 0x816fd6e9), 0xc19bf174, 0x00000018)
         == Vars(0xb0fa238e, 0xc0645fde, 0xd932eb16, 0x87912990, 0x07590dcd, 0x0b92f20c, 0x745a48de, 0x1e578218)
  {
  }

  lemma After16(z: nat)
    requires z == 0
    ensures Rounds(BLOCK, INITIAL, z + 16)
         == Vars(0xb0fa238e, 0xc0645fde, 0xd932eb16, 0x87912990, 0x07590dcd, 0x0b92f20c, 0x745a48de, 0x1e578218)
  {
    hide Rounds, Round, Constant, Schedule;
    After12(z);
    Words1(z);
    Constants1(z);
    RoundsOf3();
    RoundStep(z + 12, Vars(0xf71fc5a9, 0x4798a3f4, 0x8c87346b, 0x8e04ecb9, 0x816fd6e9, 0x436b23e8, 0x1cc92596, 0x32ca2d8c), 0x72be5d74, 0x00000000,
      Vars(0x87912990, 0xf71fc5a9, 0x4798a3f4, 0x8c87346b, 0x1e578218, 0x816fd6e9, 0x436b23e8, 0x1cc92596));
    RoundStep(z + 13, Vars(0x87912990, 0xf71fc5a9, 0x4798a3f4, 0x8c87346b, 0x1e578218, 0x816fd6e9, 0x436b23e8, 0x1cc92596), 0x80deb1fe, 0x00000000,
      Vars(0xd932eb16, 0x87912990, 0xf71fc5a9, 0x4798a3f4, 0x745a48de, 0x1e578218, 0x816fd6e9, 0x436b23e8));
    RoundStep(z + 14, Vars(0xd932eb16, 0x87912990, 0xf71fc5a9, 0x4798a3f4, 0x745a48de, 0x1e578218, 0x816fd6e9, 0x436b23e8), 0x9bdc06a7, 0x00000000,
      Vars(0xc0645fde, 0xd932eb16, 0x87912990, 0xf71fc5a9, 0x0b92f20c, 0x745a48de, 0x1e578218, 0x816fd6e9));
    RoundStep(z + 15, Vars(0xc0645fde, 0xd932eb16, 0x87912990, 0xf71fc5a9, 0x0b92f20c, 0x745a48de, 0x1e578218, 0x816fd6e9), 0xc19bf174, 0x00000018,
      Vars(0xb0fa238e, 0xc0645fde, 0xd932eb16, 0x87912990, 0x07590dcd, 0x0b92f20c, 0x745a48de, 0x1e578218));
  }

  lemma RoundsOf4()
    ensures Round(Vars(0xb0fa238e, 0xc0645fde, 0xd932eb16, 0x87912990, 0x07590dcd, 0x0b92f20c, 0x745a48de, 0x1e578218), 0xe49b69c1, 0x61626380)
         == Vars(0x21da9a9b, 0xb0fa238e, 0xc0645fde, 0xd932eb16, 0x8034229c, 0x07590dcd, 0x0b92f20c, 0x745a48de)
    ensures Round(Vars(0x21da9a9b, 0xb0fa238e, 0xc0645fde, 0xd932eb16, 0x8034229c, 0x07590dcd, 0x0b92f20c, 0x745a48de), 0xefbe4786, 0x000f0000)
         == Vars(0xc2fbd9d1, 0x21da9a9b, 0xb0fa238e, 0xc0645fde, 0x846ee454, 0x8034229c, 0x07590dcd, 0x0b92f20c)
    ensures Round(Vars(0xc2fbd9d1, 0x21da9a9b, 0xb0fa238e, 0xc0645fde, 0x846ee454, 0x8034229c, 0x07590dcd, 0x0b92f20c), 0x0fc19dc6, 0x7da86405)
         == Vars(0xfe777bbf, 0xc2fbd9d1, 0x21da9a9b, 0xb0fa238e, 0xcc899961, 0x846ee454, 0x8034229c, 0x07590dcd)
    ensures Round(Vars(0xfe777bbf, 0xc2fbd9d1, 0x21da9a9b, 0xb0fa238e, 0xcc899961, 0x846ee454, 0x8034229c, 0x07590dcd), 0x240ca1cc, 0x600003c6)
         == Vars(0xe1f20c33, 0xfe777bbf, 0xc2fbd9d1, 0x21da9a9b, 0xb0638179, 0xcc899961, 0x846ee454, 0x8034229c)
  {
  }

  lemma After20(z: nat)
    requires z == 0
    ensures Rounds(BLOCK, INITIAL, z + 20)
         == Vars(0xe1f20c33, 0xfe777bbf, 0xc2fbd9d1, 0x21da9a9b, 0xb0638179, 0xcc899961, 0x846ee454, 0x8034229c)
  {
    hide Rounds, Round, Constant, Schedule;
    After16(z);
    Words2(z);
    Constants2(z);
    RoundsOf4();
    RoundStep(z + 16, Vars(0xb0fa238e, 0xc0645fde, 0xd932eb16, 0x87912990, 0x07590dcd, 0x0b92f20c, 0x745a48de, 0x1e578218), 0xe49b69c1, 0x61626380,
      Vars(0x21da9a9b, 0xb0fa238e, 0xc0645fde, 0xd932eb16, 0x8034229c, 0x07590dcd, 0x0b92f20c, 0x745a48de));
    RoundStep(z + 17, Vars(0x21da9a9b, 0xb0fa238e, 0xc0645fde, 0xd932eb16, 0x8034229c, 0x07590dcd, 0x0b92f20c, 0x745a48de), 0xefbe4786, 0x000f0000,
      Vars(0xc2fbd9d1, 0x21da9a9b, 0xb0fa238e, 0xc0645fde, 0x846ee454, 0x8034229c, 0x07590dcd, 0x0b92f20c));
    RoundStep(z + 18, Vars(0xc2fbd9d1, 0x21da9a9b, 0xb0fa238e, 0xc0645fde, 0x846ee454, 0x8034229c, 0x07590dcd, 0x0b92f20c), 0x0fc19dc6, 0x7da86405,
      Vars(0xfe777bbf, 0xc2fbd9d1, 0x21da9a9b, 0xb0fa238e, 0xcc899961, 0x846ee454, 0x8034229c, 0x07590dcd));
    RoundStep(z + 19, Vars(0xfe777bbf, 0xc2fbd9d1, 0x21da9a9b, 0xb0fa238e, 0xcc899961, 0x846ee454, 0x8034229c, 0x07590dcd), 0x240ca1cc, 0x600003c6,
      Vars(0xe1f20c33, 0xfe777bbf, 0xc2fbd9d1, 0x21da9a9b, 0xb0638179, 0xcc899961, 0x846ee454, 0x8034229c));
  }

  lemma RoundsOf5()
    ensures Round(Vars(0xe1f20c33, 0xfe777bbf, 0xc2fbd9d1, 0x21da9a9b, 0xb0638179, 0xcc899961, 0x846ee454, 0x8034229c), 0x2de92c6f, 0x3e9d7b78)
         == Vars(0x9dc68b63, 0xe1f20c33, 0xfe777bbf, 0xc2fbd9d1, 0x8ada8930, 0xb0638179, 0xcc899961, 0x846ee454)
    ensures Round(Vars(0x9dc68b63, 0xe1f20c33, 0xfe777bbf, 0xc2fbd9d1, 0x8ada8930, 0xb0638179, 0xcc899961, 0x846ee454), 0x4a7484aa, 0x0183fc00)
         == Vars(0xc2606d6d, 0x9dc68b63, 0xe1f20c33, 0xfe777bbf, 0xe1257970, 0x8ada8930, 0xb0638179, 0xcc899961)
    ensures Round(Vars(0xc2606d6d, 0x9dc68b63, 0xe1f20c33, 0xfe777bbf, 0xe1257970, 0x8ada8930, 0xb0638179, 0xcc899961), 0x5cb0a9dc, 0x12dcbfdb)
         == Vars(0xa7a3623f, 0xc2606d6d, 0x9dc68b63, 0xe1f20c33, 0x49f5114a, 0xe1257970, 0x8ada8930, 0xb0638179)
    ensures Round(Vars(0xa7a3623f, 0xc2606d6d, 0x9dc68b63, 0xe1f20c33, 0x49f5114a, 0xe1257970, 0x8ada8930, 0xb0638179), 0x76f988da, 0xe2e2c38e)
         == Vars(0xc5d53d8d, 0xa7a3623f, 0xc2606d6d, 0x9dc68b63, 0xaa47c347, 0x49f5114a, 0xe1257970, 0x8ada8930)
  {
  }

  lemma After24(z: nat)
    requires z == 0
    ensures Rounds(BLOCK, INITIAL, z + 24)
         == Vars(0xc5d53d8d, 0xa7a3623f, 0xc2606d6d, 0x9dc68b63, 0xaa47c347, 0x49f5114a, 0xe1257970, 0x8ada8930)
  {
    hide Rounds, Round, Constant, Schedule;
    After20(z);
    Words2(z);
    Constants2(z);
    RoundsOf5();
    RoundStep(z + 20, Vars(0xe1f20c33, 0xfe777bbf, 0xc2fbd9d1, 0x21da9a9b, 0xb0638179, 0xcc899961, 0x846ee454, 0x8034229c), 0x2de92c6f, 0x3e9d7b78,
      Vars(0x9dc68b63, 0xe1f20c33, 0xfe777bbf, 0xc2fbd9d1, 0x8ada8930, 0xb0638179, 0xcc899961, 0x846ee454));
    RoundStep(z + 21, Vars(0x9dc68b63, 0xe1f20c33, 0xfe777bbf, 0xc2fbd9d1, 0x8ada8930, 0xb0638179, 0xcc899961, 0x846ee454), 0x4a7484aa, 0x0183fc00,
      Vars(0xc2606d6d, 0x9dc68b63, 0xe1f20c33, 0xfe777bbf, 0xe1257970, 0x8ada8930, 0xb0638179, 0xcc899961));
    RoundStep(z + 22, Vars(0xc2606d6d, 0x9dc68b63, 0xe1f20c33, 0xfe777bbf, 0xe1257970, 0x8ada8930, 0xb0638179, 0xcc899961), 0x5cb0a9dc, 0x12dcbfdb,
      Vars(0xa7a3623f, 0xc2606d6d, 0x9dc68b63, 0xe1f20c33, 0x49f5114a, 0xe1257970, 0x8ada8930, 0xb0638179));
    RoundStep(z + 23, Vars(0xa7a3623f, 0xc2606d6d, 0x9dc68b63, 0xe1f20c33, 0x49f5114a, 0xe1257970, 0x8ada8930, 0xb0638179), 0x76f988da, 0xe2e2c38e,
      Vars(0xc5d53d8d, 0xa7a3623f, 0xc2606d6d, 0x9dc68b63, 0xaa47c347, 0x49f5114a, 0xe1257970, 0x8ada8930));
  }

  lemma RoundsOf6()
    ensures Round(Vars(0xc5d53d8d, 0xa7a3623f, 0xc2606d6d, 0x9dc68b63, 0xaa47c347, 0x49f5114a, 0xe1257970, 0x8ada8930), 0x983e5152, 0xc8215c1a)
         == Vars(0x1c2c2838, 0xc5d53d8d, 0xa7a3623f, 0xc2606d6d, 0x2823ef91, 0xaa47c347, 0x49f5114a, 0xe1257970)
    ensures Round(Vars(0x1c2c2838, 0xc5d53d8d, 0xa7a3623f, 0xc2606d6d, 0x2823ef91, 0xaa47c347, 0x49f5114a, 0xe1257970), 0xa831c66d, 0xb73679a2)
         == Vars(0xcde8037d, 0x1c2c2838, 0xc5d53d8d, 0xa7a3623f, 0x14383d8e, 0x2823ef91, 0xaa47c347, 0x49f5114a)
    ensures Round(Vars(0xcde8037d, 0x1c2c2838, 0xc5d53d8d, 0xa7a3623f, 0x14383d8e, 0x2823ef91, 0xaa47c347, 0x49f5114a), 0xb00327c8, 0xe5bc3909)
         == Vars(0xb62ec4bc, 0xcde8037d, 0x1c2c2838, 0xc5d53d8d, 0xc74c6516, 0x14383d8e, 0x2823ef91, 0xaa47c347)
    ensures Round(Vars(0xb62ec4bc, 0xcde8037d, 0x1c2c2838, 0xc5d53d8d, 0xc74c6516, 0x14383d8e, 0x2823ef91, 0xaa47c347), 0xbf597fc7, 0x32663c5b)
         == Vars(0x77d37528, 0xb62ec4bc, 0xcde8037d, 0x1c2c2838, 0xedffbff8, 0xc74c6516, 0x14383d8e, 0x2823ef91)
  {
  }

  lemma After28(z: nat)
    requires z == 0
    ensures Rounds(BLOCK, INITIAL, z + 28)
         == Vars(0x77d37528, 0xb62ec4bc, 0xcde8037d, 0x1c2c2838, 0xedffbff8, 0xc74c6516, 0x14383d8e, 0x2823ef91)
  {
    hide Rounds, Round, Constant, Schedule;
    After24(z);
    Words3(z);
    Constants3(z);
    RoundsOf6();
    RoundStep(z + 24, Vars(0xc5d53d8d, 0xa7a3623f, 0xc2606d6d, 0x9dc68b63, 0xaa47c347, 0x49f5114a, 0xe1257970, 0x8ada8930), 0x983e5152, 0xc8215c1a,
      Vars(0x1c2c2838, 0xc5d53d8d, 0xa7a3623f, 0xc2606d6d, 0x2823ef91, 0xaa47c347, 0x49f5114a, 0xe1257970));
    RoundStep(z + 25, Vars(0x1c2c2838, 0xc5d53d8d, 0xa7a3623f, 0xc2606d6d, 0x2823ef91, 0xaa47c347, 0x49f5114a, 0xe1257970), 0xa831c66d, 0xb73679a2,
      Vars(0xcde8037d, 0x1c2c2838, 0xc5d53d8d, 0xa7a3623f, 0x14383d8e, 0x2823ef91, 0xaa47c347, 0x49f5114a));
    RoundStep(z + 26, Vars(0xcde8037d, 0x1c2c2838, 0xc5d53d8d, 0xa7a3623f, 0x14383d8e, 0x2823ef91, 0xaa47c347, 0x49f5114a), 0xb00327c8, 0xe5bc3909,
      Vars(0xb62ec4bc, 0xcde8037d, 0x1c2c2838, 0xc5d53d8d, 0xc74c6516, 0x14383d8e, 0x2823ef91, 0xaa47c347));
    RoundStep(z + 27, Vars(0xb62ec4bc, 0xcde8037d, 0x1c2c2838, 0xc5d53d8d, 0xc74c6516, 0x14383d8e, 0x2823ef91, 0xaa47c347), 0xbf597fc7, 0x32663c5b,
      Vars(0x77d37528, 0xb62ec4bc, 0xcde8037d, 0x1c2c2838, 0xedffbff8, 0xc74c6516, 0x14383d8e, 0x2823ef91));
  }

  lemma RoundsOf7()
    ensures Round(Vars(0x77d37528, 0xb62ec4bc, 0xcde8037d, 0x1c2c2838, 0xedffbff8, 0xc74c6516, 0x14383d8e, 0x2823ef91), 0xc6e00bf3, 0x9d209d67)
         == Vars(0x363482c9, 0x77d37528, 0xb62ec4bc, 0xcde8037d, 0x6112a3b7, 0xedffbff8, 0xc74c6516, 0x14383d8e)
    ensures Round(Vars(0x363482c9, 0x77d37528, 0xb62ec4bc, 0xcde8037d, 0x6112a3b7, 0xedffbff8, 0xc74c6516, 0x14383d8e), 0xd5a79147, 0xec8726cb)
         == Vars(0xa0060b30, 0x363482c9, 0x77d37528, 0xb62ec4bc, 0xade79437, 0x6112a3b7, 0xedffbff8, 0xc74c6516)
    ensures Round(Vars(0xa0060b30, 0x363482c9, 0x77d37528, 0xb62ec4bc, 0xade79437, 0x6112a3b7, 0xedffbff8, 0xc74c6516), 0x06ca6351, 0x702138a4)
         == Vars(0xea992a22, 0xa0060b30, 0x363482c9, 0x77d37528, 0x0109ab3a, 0xade79437, 0x6112a3b7, 0xedffbff8)
    ensures Round(Vars(0xea992a22, 0xa0060b30, 0x363482c9, 0x77d37528, 0x0109ab3a, 0xade79437, 0x6112a3b7, 0xedffbff8), 0x14292967, 0xd3b7973b)
         == Vars(0x73b33bf5, 0xea992a22, 0xa0060b30, 0x363482c9, 0xba591112, 0x0109ab3a, 0xade79437, 0x6112a3b7)
  {
  }

  lemma After32(z: nat)
    requires z == 0
    ensures Rounds(BLOCK, INITIAL, z + 32)
         == Vars(0x73b33bf5, 0xea992a22, 0xa0060b30, 0x363482c9, 0xba591112, 0x0109ab3a, 0xade79437, 0x6112a3b7)
  {
    hide Rounds, Round, Constant, Schedule;
    After28(z);
    Words3(z);
    Constants3(z);
    RoundsOf7();
    RoundStep(z + 28, Vars(0x77d37528, 0xb62ec4bc, 0xcde8037d, 0x1c2c2838, 0xedffbff8, 0xc74c6516, 0x14383d8e, 0x2823ef91), 0xc6e00bf3, 0x9d209d67,
      Vars(0x363482c9, 0x77d37528, 0xb62ec4bc, 0xcde8037d, 0x6112a3b7, 0xedffbff8, 0xc74c6516, 0x14383d8e));
    RoundStep(z + 29, Vars(0x363482c9, 0x77d37528, 0xb62ec4bc, 0xcde8037d, 0x6112a3b7, 0xedffbff8, 0xc74c6516, 0x14383d8e), 0xd5a79147, 0xec8726cb,
      Vars(0xa0060b30, 0x363482c9, 0x77d37528, 0xb62ec4bc, 0xade79437, 0x6112a3b7, 0xedffbff8, 0xc74c6516));
    RoundStep(z + 30, Vars(0xa0060b30, 0x363482c9, 0x77d37528, 0xb62ec4bc, 0xade79437, 0x6112a3b7, 0xedffbff8, 0xc74c6516), 0x06ca6351, 0x702138a4,
      Vars(0xea992a22, 0xa0060b30, 0x363482c9, 0x77d37528, 0x0109ab3a, 0xade79437, 0x6112a3b7, 0xedffbff8));
    RoundStep(z + 31, Vars(0xea992a22, 0xa0060b30, 0x363482c9, 0x77d37528, 0x0109ab3a, 0xade79437, 0x6112a3b7, 0xedffbff8), 0x14292967, 0xd3b7973b,
      Vars(0x73b33bf5, 0xea992a22, 0xa0060b30, 0x363482c9, 0xba591112, 0x0109ab3a, 0xade79437, 0x6112a3b7));
  }

  lemma RoundsOf8()
    ensures Round(Vars(0x73b33bf5, 0xea992a22, 0xa0060b30, 0x363482c9, 0xba591112, 0x0109ab3a, 0xade79437, 0x6112a3b7), 0x27b70a85, 0x93f5997f)
         == Vars(0x98e12507, 0x73b33bf5, 0xea992a22, 0xa0060b30, 0x9cd9f5f6, 0xba591112, 0x0109ab3a, 0xade79437)
    ensures Round(Vars(0x98e12507, 0x73b33bf5, 0xea992a22, 0xa0060b30, 0x9cd9f5f6, 0xba591112, 0x0109ab3a, 0xade79437), 0x2e1b2138, 0x3b68ba73)
         == Vars(0xfe604df5, 0x98e12507, 0x73b33bf5, 0xea992a22, 0x59249dd3, 0x9cd9f5f6, 0xba591112, 0x0109ab3a)
    ensures Round(Vars(0xfe604df5, 0x98e12507, 0x73b33bf5, 0xea992a22, 0x59249dd3, 0x9cd9f5f6, 0xba591112, 0x0109ab3a), 0x4d2c6dfc, 0xaff4ffc1)
         == Vars(0xa9a7738c, 0xfe604df5, 0x98e12507, 0x73b33bf5, 0x085f3833, 0x59249dd3, 0x9cd9f5f6, 0xba591112)
    ensures Round(Vars(0xa9a7738c, 0xfe604df5, 0x98e12507, 0x73b33bf5, 0x085f3833, 0x59249dd3, 0x9cd9f5f6, 0xba591112), 0x53380d13, 0xf10a5c62)
         == Vars(0x65a0cfe4, 0xa9a7738c, 0xfe604df5, 0x98e12507, 0xf4b002d6, 0x085f3833, 0x59249dd3, 0x9cd9f5f6)
  {
  }

  lemma After36(z: nat)
    requires z == 0
    ensures Rounds(BLOCK, INITIAL, z + 36)
         == Vars(0x65a0cfe4, 0xa9a7738c, 0xfe604df5, 0x98e12507, 0xf4b002d6, 0x085f3833, 0x59249dd3, 0x9cd9f5f6)
  {
    hide Rounds, Round, Constant, Schedule;
    After32(z);
    Words4(z);
    Constants4(z);
    RoundsOf8();
    RoundStep(z + 32, Vars(0x73b33bf5, 0xea992a22, 0xa0060b30, 0x363482c9, 0xba591112, 0x0109ab3a, 0xade79437, 0x6112a3b7), 0x27b70a85, 0x93f5997f,
      Vars(0x98e12507, 0x73b33bf5, 0xea992a22, 0xa0060b30, 0x9cd9f5f6, 0xba591112, 0x0109ab3a, 0xade79437));
    RoundStep(z + 33, Vars(0x98e12507, 0x73b33bf5, 0xea992a22, 0xa0060b30, 0x9cd9f5f6, 0xba591112, 0x0109ab3a, 0xade79437), 0x2e1b2138, 0x3b68ba73,
      Vars(0xfe604df5, 0x98e12507, 0x73b33bf5, 0xea992a22, 0x59249dd3, 0x9cd9f5f6, 0xba591112, 0x0109ab3a));
    RoundStep(z + 34, Vars(0xfe604df5, 0x98e12507, 0x73b33bf5, 0xea992a22, 0x59249dd3, 0x9cd9f5f6, 0xba591112, 0x0109ab3a), 0x4d2c6dfc, 0xaff4ffc1,
      Vars(0xa9a7738c, 0xfe604df5, 0x98e12507, 0x73b33bf5, 0x085f3833, 0x59249dd3, 0x9cd9f5f6, 0xba591112));
    RoundStep(z + 35, Vars(0xa9a7738c, 0xfe604df5, 0x98e12507, 0x73b33bf5, 0x085f3833, 0x59249dd3, 0x9cd9f5f6, 0xba591112), 0x53380d13, 0xf10a5c62,
      Vars(0x65a0cfe4, 0xa9a7738c, 0xfe604df5, 0x98e12507, 0xf4b002d6, 0x085f3833, 0x59249dd3, 0x9cd9f5f6));
  }

  lemma RoundsOf9()
    ensures Round(Vars(0x65a0cfe4, 0xa9a7738c, 0xfe604df5, 0x98e12507, 0xf4b002d6, 0x085f3833, 0x59249dd3, 0x9cd9f5f6), 0x650a7354, 0x0a8b3996)
         == Vars(0x41a65cb1, 0x65a0cfe4, 0xa9a7738c, 0xfe604df5, 0x0772a26b, 0xf4b002d6, 0x085f3833, 0x59249dd3)
    ensures Round(Vars(0x41a65cb1, 0x65a0cfe4, 0xa9a7738c, 0xfe604df5, 0x0772a26b, 0xf4b002d6, 0x085f3833, 0x59249dd3), 0x766a0abb, 0x72af830a)
         == Vars(0x34df1604, 0x41a65cb1, 0x65a0cfe4, 0xa9a7738c, 0xa507a53d, 0x0772a26b, 0xf4b002d6, 0x085f3833)
    ensures Round(Vars(0x34df1604, 0x41a65cb1, 0x65a0cfe4, 0xa9a7738c, 0xa507a53d, 0x0772a26b, 0xf4b002d6, 0x085f3833), 0x81c2c92e, 0x9409e33e)
         == Vars(0x6dc57a8a, 0x34df1604, 0x41a65cb1, 0x65a0cfe4, 0xf0781bc8, 0xa507a53d, 0x0772a26b, 0xf4b002d6)
    ensures Round(Vars(0x6dc57a8a, 0x34df1604, 0x41a65cb1, 0x65a0cfe4, 0xf0781bc8, 0xa507a53d, 0x0772a26b, 0xf4b002d6), 0x92722c85, 0x24641522)
         == Vars(0x79ea687a, 0x6dc57a8a, 0x34df1604, 0x41a65cb1, 0x1efbc0a0, 0xf0781bc8, 0xa507a53d, 0x0772a26b)
  {
  }

  lemma After40(z: nat)
    requires z == 0
    ensures Rounds(BLOCK, INITIAL, z + 40)
         == Vars(0x79ea687a, 0x6dc57a8a, 0x34df1604, 0x41a65cb1, 0x1efbc0a0, 0xf0781bc8, 0xa507a53d, 0x0772a26b)
  {
    hide Rounds, Round, Constant, Schedule;
    After36(z);
    Words4(z);
    Constants4(z);
    RoundsOf9();
    RoundStep(z + 36, Vars(0x65a0cfe4, 0xa9a7738c, 0xfe604df5, 0x98e12507, 0xf4b002d6, 0x085f3833, 0x59249dd3, 0x9cd9f5f6), 0x650a7354, 0x0a8b3996,
      Vars(0x41a65cb1, 0x65a0cfe4, 0xa9a7738c, 0xfe604df5, 0x0772a26b, 0xf4b002d6, 0x085f3833, 0x59249dd3));
    RoundStep(z + 37, Vars(0x41a65cb1, 0x65a0cfe4, 0xa9a7738c, 0xfe604df5, 0x0772a26b, 0xf4b002d6, 0x085f3833, 0x59249dd3), 0x766a0abb, 0x72af830a,
      Vars(0x34df1604, 0x41a65cb1, 0x65a0cfe4, 0xa9a7738c, 0xa507a53d, 0x0772a26b, 0xf4b002d6, 0x085f3833));
    RoundStep(z + 38, Vars(0x34df1604, 0x41a65cb1, 0x65a0cfe4, 0xa9a7738c, 0xa507a53d, 0x0772a26b, 0xf4b002d6, 0x085f3833), 0x81c2c92e, 0x9409e33e,
      Vars(0x6dc57a8a, 0x34df1604, 0x41a65cb1, 0x65a0cfe4, 0xf0781bc8, 0xa507a53d, 0x0772a26b, 0xf4b002d6));
    RoundStep(z + 39, Vars(0x6dc57a8a, 0x34df1604, 0x41a65cb1, 0x65a0cfe4, 0xf0781bc8, 0xa507a53d, 0x0772a26b, 0xf4b002d6), 0x92722c85, 0x24641522,
      Vars(0x79ea687a, 0x6dc57a8a, 0x34df1604, 0x41a65cb1, 0x1efbc0a0, 0xf0781bc8, 0xa507a53d, 0x0772a26b));
  }

  lemma RoundsOf10()
    ensures Round(Vars(0x79ea687a, 0x6dc57a8a, 0x34df1604, 0x41a65cb1, 0x1efbc0a0, 0xf0781bc8, 0xa507a53d, 0x0772a26b), 0xa2bfe8a1, 0x9f47bf94)
         == Vars(0xd6670766, 0x79ea687a, 0x6dc57a8a, 0x34df1604, 0x26352d63, 0x1efbc0a0, 0xf0781bc8, 0xa507a53d)
    ensures Round(Vars(0xd6670766, 0x79ea687a, 0x6dc57a8a, 0x34df1604, 0x26352d63, 0x1efbc0a0, 0xf0781bc8, 0xa507a53d), 0xa81a664b, 0xf0a64f5a)
         == Vars(0xdf46652f, 0xd6670766, 0x79ea687a, 0x6dc57a8a, 0x838b2711, 0x26352d63, 0x1efbc0a0, 0xf0781bc8)
    ensures Round(Vars(0xdf46652f, 0xd6670766, 0x79ea687a, 0x6dc57a8a, 0x838b2711, 0x26352d63, 0x1efbc0a0, 0xf0781bc8), 0xc24b8b70, 0x3e246a79)
         == Vars(0x17aa0dfe, 0xdf46652f, 0xd6670766, 0x79ea687a, 0xdecd4715, 0x838b2711, 0x26352d63, 0x1efbc0a0)
    ensures Round(Vars(0x17aa0dfe, 0xdf46652f, 0xd6670766, 0x79ea687a, 0xdecd4715, 0x838b2711, 0x26352d63, 0x1efbc0a0), 0xc76c51a3, 0x27333ba3)
         == Vars(0x9d4baf93, 0x17aa0dfe, 0xdf46652f, 0xd6670766, 0xfda24c2e, 0xdecd4715, 0x838b2711, 0x26352d63)
  {
  }

  lemma After44(z: nat)
    requires z == 0
    ensures Rounds(BLOCK, INITIAL, z + 44)
         == Vars(0x9d4baf93, 0x17aa0dfe, 0xdf46652f, 0xd6670766, 0xfda24c2e, 0xdecd4715, 0x838b2711, 0x26352d63)
  {
    hide Rounds, Round, Constant, Schedule;
    After40(z);
    Words5(z);
    Constants5(z);
    RoundsOf10();
    RoundStep(z + 40, Vars(0x79ea687a, 0x6dc57a8a, 0x34df1604, 0x41a65cb1, 0x1efbc0a0, 0xf0781bc8, 0xa507a53d, 0x0772a26b), 0xa2bfe8a1, 0x9f47bf94,
      Vars(0xd6670766, 0x79ea687a, 0x6dc57a8a, 0x34df1604, 0x26352d63, 0x1efbc0a0, 0xf0781bc8, 0xa507a53d));
    RoundStep(z + 41, Vars(0xd6670766, 0x79ea687a, 0x6dc57a8a, 0x34df1604, 0x26352d63, 0x1efbc0a0, 0xf0781bc8, 0xa507a53d), 0xa81a664b, 0xf0a64f5a,
      Vars(0xdf46652f, 0xd6670766, 0x79ea687a, 0x6dc57a8a, 0x838b2711, 0x26352d63, 0x1efbc0a0, 0xf0781bc8));
    RoundStep(z + 42, Vars(0xdf46652f, 0xd6670766, 0x79ea687a, 0x6dc57a8a, 0x838b2711, 0x26352d63, 0x1efbc0a0, 0xf0781bc8), 0xc24b8b70, 0x3e246a79,
      Vars(0x17aa0dfe, 0xdf46652f, 0xd6670766, 0x79ea687a, 0xdecd4715, 0x838b2711, 0x26352d63, 0x1efbc0a0));
    RoundStep(z + 43, Vars(0x17aa0dfe, 0xdf46652f, 0xd6670766, 0x79ea687a, 0xdecd4715, 0x838b2711, 0x26352d63, 0x1efbc0a0), 0xc76c51a3, 0x27333ba3,
      Vars(0x9d4baf93, 0x17aa0dfe, 0xdf46652f, 0xd6670766, 0xfda24c2e, 0xdecd4715, 0x838b2711, 0x26352d63));
  }

  lemma RoundsOf11()
    ensures Round(Vars(0x9d4baf93, 0x17aa0dfe, 0xdf46652f, 0xd6670766, 0xfda24c2e, 0xdecd4715, 0x838b2711, 0x26352d63), 0xd192e819, 0x0c4763f2)
         == Vars(0x26628815, 0x9d4baf93, 0x17aa0dfe, 0xdf46652f, 0xa80f11f0, 0xfda24c2e, 0xdecd4715, 0x838b2711)
    ensures Round(Vars(0x26628815, 0x9d4baf93, 0x17aa0dfe, 0xdf46652f, 0xa80f11f0, 0xfda24c2e, 0xdecd4715, 0x838b2711), 0xd6990624, 0x840abf27)
         == Vars(0x72ab4b91, 0x26628815, 0x9d4baf93, 0x17aa0dfe, 0xb7755da1, 0xa80f11f0, 0xfda24c2e, 0xdecd4715)
    ensures Round(Vars(0x72ab4b91, 0x26628815, 0x9d4baf93, 0x17aa0dfe, 0xb7755da1, 0xa80f11f0, 0xfda24c2e, 0xdecd4715), 0xf40e3585, 0x7a290d5d)
         == Vars(0xa14c14b0, 0x72ab4b91, 0x26628815, 0x9d4baf93, 0xd57b94a9, 0xb7755da1, 0xa80f11f0, 0xfda24c2e)
    ensures Round(Vars(0xa14c14b0, 0x72ab4b91, 0x26628815, 0x9d4baf93, 0xd57b94a9, 0xb7755da1, 0xa80f11f0, 0xfda24c2e), 0x106aa070, 0x065c43da)
         == Vars(0x4172328d, 0xa14c14b0, 0x72ab4b91, 0x26628815, 0xfecf0bc6, 0xd57b94a9, 0xb7755da1, 0xa80f11f0)
  {
  }

  lemma After48(z: nat)
    requires z == 0
    ensures Rounds(BLOCK, INITIAL, z + 48)
         == Vars(0x4172328d, 0xa14c14b0, 0x72ab4b91, 0x26628815, 0xfecf0bc6, 0xd57b94a9, 0xb7755da1, 0xa80f11f0)
  {
    hide Rounds, Round, Constant, Schedule;
    After44(z);
    Words5(z);
    Constants5(z);
    RoundsOf11();
    RoundStep(z + 44, Vars(0x9d4baf93, 0x17aa0dfe, 0xdf46652f, 0xd6670766, 0xfda24c2e, 0xdecd4715, 0x838b2711, 0x26352d63), 0xd192e819, 0x0c4763f2,
      Vars(0x26628815, 0x9d4baf93, 0x17aa0dfe, 0xdf46652f, 0xa80f11f0, 0xfda24c2e, 0xdecd4715, 0x838b2711));
    RoundStep(z + 45, Vars(0x26628815, 0x9d4baf93, 0x17aa0dfe, 0xdf46652f, 0xa80f11f0, 0xfda24c2e, 0xdecd4715, 0x838b2711), 0xd6990624, 0x840abf27,
      Vars(0x72ab4b91, 0x26628815, 0x9d4baf93, 0x17aa0dfe, 0xb7755da1, 0xa80f11f0, 0xfda24c2e, 0xdecd4715));
    RoundStep(z + 46, Vars(0x72ab4b91, 0x26628815, 0x9d4baf93, 0x17aa0dfe, 0xb7755da1, 0xa80f11f0, 0xfda24c2e, 0xdecd4715), 0xf40e3585, 0x7a290d5d,
      Vars(0xa14c14b0, 0x72ab4b91, 0x26628815, 0x9d4baf93, 0xd57b94a9, 0xb7755da1, 0xa80f11f0, 0xfda24c2e));
    RoundStep(z + 47, Vars(0xa14c14b0, 0x72ab4b91, 0x26628815, 0x9d4baf93, 0xd57b94a9, 0xb7755da1, 0xa80f11f0, 0xfda24c2e), 0x106aa070, 0x065c43da,
      Vars(0x4172328d, 0xa14c14b0, 0x72ab4b91, 0x26628815, 0xfecf0bc6, 0xd57b94a9, 0xb7755da1, 0xa80f11f0));
  }

  lemma RoundsOf12()
    ensures Round(Vars(0x4172328d, 0xa14c14b0, 0x72ab4b91, 0x26628815, 0xfecf0bc6, 0xd57b94a9, 0xb7755da1, 0xa80f11f0), 0x19a4c116, 0xfb3e89cb)
         == Vars(0x05757ceb, 0x4172328d, 0xa14c14b0, 0x72ab4b91, 0xbd714038, 0xfecf0bc6, 0xd57b94a9, 0xb7755da1)
    ensures Round(Vars(0x05757ceb, 0x4172328d, 0xa14c14b0, 0x72ab4b91, 0xbd714038, 0xfecf0bc6, 0xd57b94a9, 0xb7755da1), 0x1e376c08, 0xcc7617db)
         == Vars(0xf11bfaa8, 0x05757ceb, 0x4172328d, 0xa14c14b0, 0x6e5c390c, 0xbd714038, 0xfecf0bc6, 0xd57b94a9)
    ensures Round(Vars(0xf11bfaa8, 0x05757ceb, 0x4172328d, 0xa14c14b0, 0x6e5c390c, 0xbd714038, 0xfecf0bc6, 0xd57b94a9), 0x2748774c, 0xb9e66c34)
         == Vars(0x7a0508a1, 0xf11bfaa8, 0x05757ceb, 0x4172328d, 0x52f1ccf7, 0x6e5c390c, 0xbd714038, 0xfecf0bc6)
    ensures Round(Vars(0x7a0508a1, 0xf11bfaa8, 0x05757ceb, 0x4172328d, 0x52f1ccf7, 0x6e5c390c, 0xbd714038, 0xfecf0bc6), 0x34b0bcb5, 0xa9993667)
         == Vars(0x886e7a22, 0x7a0508a1, 0xf11bfaa8, 0x05757ceb, 0x49231c1e, 0x52f1ccf7, 0x6e5c390c, 0xbd714038)
  {
  }

  lemma After52(z: nat)
    requires z == 0
    ensures Rounds(BLOCK, INITIAL, z + 52)
         == Vars(0x886e7a22, 0x7a0508a1, 0xf11bfaa8, 0x05757ceb, 0x49231c1e, 0x52f1ccf7, 0x6e5c390c, 0xbd714038)
  {
    hide Rounds, Round, Constant, Schedule;
    After48(z);
    Words6(z);
    Constants6(z);
    RoundsOf12();
    RoundStep(z + 48, Vars(0x4172328d, 0xa14c14b0, 0x72ab4b91, 0x26628815, 0xfecf0bc6, 0xd57b94a9, 0xb7755da1, 0xa80f11f0), 0x19a4c116, 0xfb3e89cb,
      Vars(0x05757ceb, 0x4172328d, 0xa14c14b0, 0x72ab4b91, 0xbd714038, 0xfecf0bc6, 0xd57b94a9, 0xb7755da1));
    RoundStep(z + 49, Vars(0x05757ceb, 0x4172328d, 0xa14c14b0, 0x72ab4b91, 0xbd714038, 0xfecf0bc6, 0xd57b94a9, 0xb7755da1), 0x1e376c08, 0xcc7617db,
      Vars(0xf11bfaa8, 0x05757ceb, 0x4172328d, 0xa14c14b0, 0x6e5c390c, 0xbd714038, 0xfecf0bc6, 0xd57b94a9));
    RoundStep(z + 50, Vars(0xf11bfaa8, 0x05757ceb, 0x4172328d, 0xa14c14b0, 0x6e5c390c, 0xbd714038, 0xfecf0bc6, 0xd57b94a9), 0x2748774c, 0xb9e66c34,
      Vars(0x7a0508a1, 0xf11bfaa8, 0x05757ceb, 0x4172328d, 0x52f1ccf7, 0x6e5c390c, 0xbd714038, 0xfecf0bc6));
    RoundStep(z + 51, Vars(0x7a0508a1, 0xf11bfaa8, 0x05757ceb, 0x4172328d, 0x52f1ccf7, 0x6e5c390c, 0xbd714038, 0xfecf0bc6), 0x34b0bcb5, 0xa9993667,
      Vars(0x886e7a22, 0x7a0508a1, 0xf11bfaa8, 0x05757ceb, 0x49231c1e, 0x52f1ccf7, 0x6e5c390c, 0xbd714038));
  }

  lemma RoundsOf13()
    ensures Round(Vars(0x886e7a22, 0x7a0508a1, 0xf11bfaa8, 0x05757ceb, 0x49231c1e, 0x52f1ccf7, 0x6e5c390c, 0xbd714038), 0x391c0cb3, 0x84badedd)
         == Vars(0x101fd28f, 0x886e7a22, 0x7a0508a1, 0xf11bfaa8, 0x529e7d00, 0x49231c1e, 0x52f1ccf7, 0x6e5c390c)
    ensures Round(Vars(0x101fd28f, 0x886e7a22, 0x7a0508a1, 0xf11bfaa8, 0x529e7d00, 0x49231c1e, 0x52f1ccf7, 0x6e5c390c), 0x4ed8aa4a, 0xc21462bc)
         == Vars(0xf5702fdb, 0x101fd28f, 0x886e7a22, 0x7a0508a1, 0x9f4787c3, 0x529e7d00, 0x49231c1e, 0x52f1ccf7)
    ensures Round(Vars(0xf5702fdb, 0x101fd28f, 0x886e7a22, 0x7a0508a1, 0x9f4787c3, 0x529e7d00, 0x49231c1e, 0x52f1ccf7), 0x5b9cca4f, 0x1487472c)
         == Vars(0x3ec45cdb, 0xf5702fdb, 0x101fd28f, 0x886e7a22, 0xe50e1b4f, 0x9f4787c3, 0x529e7d00, 0x49231c1e)
    ensures Round(Vars(0x3ec45cdb, 0xf5702fdb, 0x101fd28f, 0x886e7a22, 0xe50e1b4f, 0x9f4787c3, 0x529e7d00, 0x49231c1e), 0x682e6ff3, 0xb20f7a99)
         == Vars(0x38cc9913, 0x3ec45cdb, 0xf5702fdb, 0x101fd28f, 0x54cb266b, 0xe50e1b4f, 0x9f4787c3, 0x529e7d00)
  {
  }

  lemma After56(z: nat)
    requires z == 0
    ensures Rounds(BLOCK, INITIAL, z + 56)
         == Vars(0x38cc9913, 0x3ec45cdb, 0xf5702fdb, 0x101fd28f, 0x54cb266b, 0xe50e1b4f, 0x9f4787c3, 0x529e7d00)
  {
    hide Rounds, Round, Constant, Schedule;
    After52(z);
    Words6(z);
    Constants6(z);
    RoundsOf13();
    RoundStep(z + 52, Vars(0x886e7a22, 0x7a0508a1, 0xf11bfaa8, 0x05757ceb, 0x49231c1e, 0x52f1ccf7, 0x6e5c390c, 0xbd714038), 0x391c0cb3, 0x84badedd,
      Vars(0x101fd28f, 0x886e7a22, 0x7a0508a1, 0xf11bfaa8, 0x529e7d00, 0x49231c1e, 0x52f1ccf7, 0x6e5c390c));
    RoundStep(z + 53, Vars(0x101fd28f, 0x886e7a22, 0x7a0508a1, 0xf11bfaa8, 0x529e7d00, 0x49231c1e, 0x52f1ccf7, 0x6e5c390c), 0x4ed8aa4a, 0xc21462bc,
      Vars(0xf5702fdb, 0x101fd28f, 0x886e7a22, 0x7a0508a1, 0x9f4787c3, 0x529e7d00, 0x49231c1e, 0x52f1ccf7));
    RoundStep(z + 54, Vars(0xf5702fdb, 0x101fd28f, 0x886e7a22, 0x7a0508a1, 0x9f4787c3, 0x529e7d00, 0x49231c1e, 0x52f1ccf7), 0x5b9cca4f, 0x1487472c,
      Vars(0x3ec45cdb, 0xf5702fdb, 0x101fd28f, 0x886e7a22, 0xe50e1b4f, 0x9f4787c3, 0x529e7d00, 0x49231c1e));
    RoundStep(z + 55, Vars(0x3ec45cdb, 0xf5702fdb, 0x101fd28f, 0x886e7a22, 0xe50e1b4f, 0x9f4787c3, 0x529e7d00, 0x49231c1e), 0x682e6ff3, 0xb20f7a99,
      Vars(0x38cc9913, 0x3ec45cdb, 0xf5702fdb, 0x101fd28f, 0x54cb266b, 0xe50e1b4f, 0x9f4787c3, 0x529e7d00));
  }

  lemma RoundsOf14()
    ensures Round(Vars(0x38cc9913, 0x3ec45cdb, 0xf5702fdb, 0x101fd28f, 0x54cb266b, 0xe50e1b4f, 0x9f4787c3, 0x529e7d00), 0x748f82ee, 0xef57b9cd)
         == Vars(0xfcd1887b, 0x38cc9913, 0x3ec45cdb, 0xf5702fdb, 0x9b5e906c, 0x54cb266b, 0xe50e1b4f, 0x9f4787c3)
    ensures Round(Vars(0xfcd1887b, 0x38cc9913, 0x3ec45cdb, 0xf5702fdb, 0x9b5e906c, 0x54cb266b, 0xe50e1b4f, 0x9f4787c3), 0x78a5636f, 0xebe6b238)
         == Vars(0xc062d46f, 0xfcd1887b, 0x38cc9913, 0x3ec45cdb, 0x7e44008e, 0x9b5e906c, 0x54cb266b, 0xe50e1b4f)
    ensures Round(Vars(0xc062d46f, 0xfcd1887b, 0x38cc9913, 0x3ec45cdb, 0x7e44008e, 0x9b5e906c, 0x54cb266b, 0xe50e1b4f), 0x84c87814, 0x9fe3095e)
         == Vars(0xffb70472, 0xc062d46f, 0xfcd1887b, 0x38cc9913, 0x6d83bfc6, 0x7e44008e, 0x9b5e906c, 0x54cb266b)
    ensures Round(Vars(0xffb70472, 0xc062d46f, 0xfcd1887b, 0x38cc9913, 0x6d83bfc6, 0x7e44008e, 0x9b5e906c, 0x54cb266b), 0x8cc70208, 0x78bc8d4b)
         == Vars(0xb6ae8fff, 0xffb70472, 0xc062d46f, 0xfcd1887b, 0xb21bad3d, 0x6d83bfc6, 0x7e44008e, 0x9b5e906c)
  {
  }

  lemma After60(z: nat)
    requires z == 0
    ensures Rounds(BLOCK, INITIAL, z + 60)
         == Vars(0xb6ae8fff, 0xffb70472, 0xc062d46f, 0xfcd1887b, 0xb21bad3d, 0x6d83bfc6, 0x7e44008e, 0x9b5e906c)
  {
    hide Rounds, Round, Constant, Schedule;
    After56(z);
    Words7(z);
    Constants7(z);
    RoundsOf14();
    RoundStep(z + 56, Vars(0x38cc9913, 0x3ec45cdb, 0xf5702fdb, 0x101fd28f, 0x54cb266b, 0xe50e1b4f, 0x9f4787c3, 0x529e7d00), 0x748f82ee, 0xef57b9cd,
      Vars(0xfcd1887b, 0x38cc9913, 0x3ec45cdb, 0xf5702fdb, 0x9b5e906c, 0x54cb266b, 0xe50e1b4f, 0x9f4787c3));
    RoundStep(z + 57, Vars(0xfcd1887b, 0x38cc9913, 0x3ec45cdb, 0xf5702fdb, 0x9b5e906c, 0x54cb266b, 0xe50e1b4f, 0x9f4787c3), 0x78a5636f, 0xebe6b238,
      Vars(0xc062d46f, 0xfcd1887b, 0x38cc9913, 0x3ec45cdb, 0x7e44008e, 0x9b5e906c, 0x54cb266b, 0xe50e1b4f));
    RoundStep(z + 58, Vars(0xc062d46f, 0xfcd1887b, 0x38cc9913, 0x3ec45cdb, 0x7e44008e, 0x9b5e906c, 0x54cb266b, 0xe50e1b4f), 0x84c87814, 0x9fe3095e,
      Vars(0xffb70472, 0xc062d46f, 0xfcd1887b, 0x38cc9913, 0x6d83bfc6, 0x7e44008e, 0x9b5e906c, 0x54cb266b));
    RoundStep(z + 59, Vars(0xffb70472, 0xc062d46f, 0xfcd1887b, 0x38cc9913, 0x6d83bfc6, 0x7e44008e, 0x9b5e906c, 0x54cb266b), 0x8cc70208, 0x78bc8d4b,
      Vars(0xb6ae8fff, 0xffb70472, 0xc062d46f, 0xfcd1887b, 0xb21bad3d, 0x6d83bfc6, 0x7e44008e, 0x9b5e906c));
  }

  lemma RoundsOf15()
    ensures Round(Vars(0xb6ae8fff, 0xffb70472, 0xc062d46f, 0xfcd1887b, 0xb21bad3d, 0x6d83bfc6, 0x7e44008e, 0x9b5e906c), 0x90befffa, 0xa43fcf15)
         == Vars(0xb85e2ce9, 0xb6ae8fff, 0xffb70472, 0xc062d46f, 0x961f4894, 0xb21bad3d, 0x6d83bfc6, 0x7e44008e)
    ensures Round(Vars(0xb85e2ce9, 0xb6ae8fff, 0xffb70472, 0xc062d46f, 0x961f4894, 0xb21bad3d, 0x6d83bfc6, 0x7e44008e), 0xa4506ceb, 0x668b2ff8)
         == Vars(0x04d24d6c, 0xb85e2ce9, 0xb6ae8fff, 0xffb70472, 0x948d25b6, 0x961f4894, 0xb21bad3d, 0x6d83bfc6)
    ensures Round(Vars(0x04d24d6c, 0xb85e2ce9, 0xb6ae8fff, 0xffb70472, 0x948d25b6, 0x961f4894, 0xb21bad3d, 0x6d83bfc6), 0xbef9a3f7, 0xeeaba2cc)
         == Vars(0xd39a2165, 0x04d24d6c, 0xb85e2ce9, 0xb6ae8fff, 0xfb121210, 0x948d25b6, 0x961f4894, 0xb21bad3d)
    ensures Round(Vars(0xd39a2165, 0x04d24d6c, 0xb85e2ce9, 0xb6ae8fff, 0xfb121210, 0x948d25b6, 0x961f4894, 0xb21bad3d), 0xc67178f2, 0x12b1edeb)
         == Vars(0x506e3058, 0xd39a2165, 0x04d24d6c, 0xb85e2ce9, 0x5ef50f24, 0xfb121210, 0x948d25b6, 0x961f4894)
  {
  }

  lemma After64(z: nat)
    requires z == 0
    ensures Rounds(BLOCK, INITIAL, z + 64)
         == Vars(0x506e3058, 0xd39a2165, 0x04d24d6c, 0xb85e2ce9, 0x5ef50f24, 0xfb121210, 0x948d25b6, 0x961f4894)
  {
    hide Rounds, Round, Constant, Schedule;
    After60(z);
    Words7(z);
    Constants7(z);
    RoundsOf15();
    RoundStep(z + 60, Vars(0xb6ae8fff, 0xffb70472, 0xc062d46f, 0xfcd1887b, 0xb21bad3d, 0x6d83bfc6, 0x7e44008e, 0x9b5e906c), 0x90befffa, 0xa43fcf15,
      Vars(0xb85e2ce9, 0xb6ae8fff, 0xffb70472, 0xc062d46f, 0x961f4894, 0xb21bad3d, 0x6d83bfc6, 0x7e44008e));
    RoundStep(z + 61, Vars(0xb85e2ce9, 0xb6ae8fff, 0xffb70472, 0xc062d46f, 0x961f4894, 0xb21bad3d, 0x6d83bfc6, 0x7e44008e), 0xa4506ceb, 0x668b2ff8,
      Vars(0x04d24d6c, 0xb85e2ce9, 0xb6ae8fff, 0xffb70472, 0x948d25b6, 0x961f4894, 0xb21bad3d, 0x6d83bfc6));
    RoundStep(z + 62, Vars(0x04d24d6c, 0xb85e2ce9, 0xb6ae8fff, 0xffb70472, 0x948d25b6, 0x961f4894, 0xb21bad3d, 0x6d83bfc6), 0xbef9a3f7, 0xeeaba2cc,
      Vars(0xd39a2165, 0x04d24d6c, 0xb85e2ce9, 0xb6ae8fff, 0xfb121210, 0x948d25b6, 0x961f4894, 0xb21bad3d));
    RoundStep(z + 63, Vars(0xd39a2165, 0x04d24d6c, 0xb85e2ce9, 0xb6ae8fff, 0xfb121210, 0x948d25b6, 0x961f4894, 0xb21bad3d), 0xc67178f2, 0x12b1edeb,
      Vars(0x506e3058, 0xd39a2165, 0x04d24d6c, 0xb85e2ce9, 0x5ef50f24, 0xfb121210, 0x948d25b6, 0x961f4894));
  }

  // ---- the digest ----

  lemma Padded()
    ensures Pad(ABC) == BLOCK
  {
    hide ToBE;
    BitLength();
    SomeZeros(52);
  }

  lemma BitLength()
    ensures ToBE(24, 8) == [0, 0, 0, 0, 0, 0, 0, 24]
  {
    assert ToBE(0, 7) == [0, 0, 0, 0, 0, 0, 0];
  }

  lemma {:induction false} SomeZeros(n: nat)
    ensures Zeros(n) == seq(n, _ => 0)
  {
    if n > 0 {
      SomeZeros(n - 1);
    }
  }

  lemma FinalWords()
    ensures Add(Vars(0x6a09e667, 0xbb67ae85, 0x3c6ef372, 0xa54ff53a, 0x510e527f, 0x9b05688c, 0x1f83d9ab, 0x5be0cd19),
                Vars(0x506e3058, 0xd39a2165, 0x04d24d6c, 0xb85e2ce9, 0x5ef50f24, 0xfb121210, 0x948d25b6, 0x961f4894))
         == Vars(0xba7816bf, 0x8f01cfea, 0x414140de, 0x5dae2223, 0xb00361a3, 0x96177a9c, 0xb410ff61, 0xf20015ad)
  {
  }

  lemma FourDigits(n: nat, a: byte, b: byte, c: byte, d: byte)
    requires n == 0x1000000 * a + 0x10000 * b + 0x100 * c + d
    ensures n % 256 == d && n / 256 % 256 == c && n / 256 / 256 % 256 == b && n / 256 / 256 / 256 == a
  {
    assert n / 256 == 0x10000 * a + 0x100 * b + c;
    assert n / 256 / 256 == 0x100 * a + b;
  }

  lemma Outputs()
    ensures ToInt(0xba7816bf) == 0xba7816bf
    ensures ToInt(0x8f01cfea) == 0x8f01cfea
    ensures ToInt(0x414140de) == 0x414140de
    ensures ToInt(0x5dae2223) == 0x5dae2223
    ensures ToInt(0xb00361a3) == 0xb00361a3
    ensures ToInt(0x96177a9c) == 0x96177a9c
    ensures ToInt(0xb410ff61) == 0xb410ff61
    ensures ToInt(0xf20015ad) == 0xf20015ad
  {
  }

  lemma BytesOf(x: bv32, a: byte, b: byte, c: byte, d: byte)
    requires ToInt(x) == 0x1000000 * a + 0x10000 * b + 0x100 * c + d
    ensures WordBytes(x) == [a, b, c, d]
  {
    hide ToInt;
    var n := ToInt(x);
    FourDigits(n, a, b, c, d);
    assert ToBE(a, 1) == [a];
    assert ToBE(n / 256 / 256, 2) == [a, b];
    assert ToBE(n / 256, 3) == [a, b, c];
  }

  /** SHA-256 of "abc" is the published value. */
  lemma DigestOfAbc(z: nat)
    requires z == 0
    ensures Digest(ABC) == [
      0xba, 0x78, 0x16, 0xbf, 0x8f, 0x01, 0xcf, 0xea,
      0x41, 0x41, 0x40, 0xde, 0x5d, 0xae, 0x22, 0x23,
      0xb0, 0x03, 0x61, 0xa3, 0x96, 0x17, 0x7a, 0x9c,
      0xb4, 0x10, 0xff, 0x61, 0xf2, 0x00, 0x15, 0xad
    ]
  {
    hide Rounds, Pad, Add, WordBytes, Zeros, ToInt, FromInt;
    Padded();
    OneBlock();
    After64(z);
    RoundStarts(z);
    FinalWords();
    Outputs();
    BytesOf(0xba7816bf, 0xba, 0x78, 0x16, 0xbf);
    BytesOf(0x8f01cfea, 0x8f, 0x01, 0xcf, 0xea);
    BytesOf(0x414140de, 0x41, 0x41, 0x40, 0xde);
    BytesOf(0x5dae2223, 0x5d, 0xae, 0x22, 0x23);
    BytesOf(0xb00361a3, 0xb0, 0x03, 0x61, 0xa3);
    BytesOf(0x96177a9c, 0x96, 0x17, 0x7a, 0x9c);
    BytesOf(0xb410ff61, 0xb4, 0x10, 0xff, 0x61);
    BytesOf(0xf20015ad, 0xf2, 0x00, 0x15, 0xad);
  }

  lemma OneBlock()
    ensures HashBlocks(BLOCK, 1) == Add(INITIAL, Rounds(BLOCK, INITIAL, 64))
  {
    hide Rounds, Add;
    assert BLOCK[0..64] == BLOCK;
    assert HashBlocks(BLOCK, 0) == INITIAL;
  }
}
