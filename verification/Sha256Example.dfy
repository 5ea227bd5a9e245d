/** A worked example: the digest of the three bytes "abc", computed in the proof. It is the value that the examples to
    FIPS 180-2 give (section B.1) and that tests/m3/test_m3_downloader.cpp expects. */
module Sha256Example {
  import opened Wrappers
  import opened Sha256

  const ABC: seq<Byte> := [0x61, 0x62, 0x63]

  /** The one block of the padded message. */
  predicate IsBlock(b: seq<Byte>)
  {
    |b| == 64 && b[..4] == ABC + [0x80] && (forall i :: 4 <= i < 63 ==> b[i] == 0) && b[63] == 24
  }

  lemma OneBlock(m: seq<Byte>)
    requires m == ABC
    ensures IsBlock(PadWith(m, 24))
  {
    LengthIs24();
    hide Length64;
    assert |Zeros(52)| == 52;
  }

  lemma OneBlockIsHashed(m: seq<Byte>, b: seq<Byte>)
    requires m == ABC && b == PadWith(m, 24) && IsBlock(b)
    ensures Digest(m) == Compress(H0, b)
  {
    hide Compress, PadWith;
    FoldOneMore([], b);
    assert [] + b == b;
  }

  lemma LengthIs24()
    ensures Length64(24) == [0, 0, 0, 0, 0, 0, 0, 24]
  {
    hide ByteOf;
    forall i: nat | i < 8 ensures ByteOf(24, i) == if i == 0 then 24 else 0 {
      ByteOf24(i);
    }
  }

  lemma ByteOf24(i: nat)
    ensures ByteOf(24, i) == if i == 0 then 24 else 0
  {
    if i > 0 {
      NextPower(i - 1);
      QuotientIs(24, Pow256(i), 0, 24);
    } else {
      PowerOfZero();
    }
    hide Pow256;
  }

  // ---- the schedule ---------------------------------------------------------------------------------------

  ghost predicate WordIs(b: seq<Byte>, t: nat, w: Word)
  {
    |b| == 64 && t < 64 && Schedule(b, t) == w
  }

  lemma FirstWords(b: seq<Byte>, t: nat)
    requires t < 16 && IsBlock(b)
    ensures WordIs(b, t, if t == 0 then 0x61626380 else if t == 15 then 24 else 0)
  {
    hide Schedule;
    ScheduleStart(b, t);
    assert b[..4] == [0x61, 0x62, 0x63, 0x80];
  }

  /** One word of the schedule from the four it is made of. */
  lemma OneWord(b: seq<Byte>, t: nat, w16: Word, w15: Word, w7: Word, w2: Word, w: Word)
    requires 16 <= t < 64
    requires WordIs(b, t - 16, w16) && WordIs(b, t - 15, w15) && WordIs(b, t - 7, w7) && WordIs(b, t - 2, w2)
    requires Sum(ScheduleMix1(w2), w7, ScheduleMix0(w15), w16) == w
    ensures WordIs(b, t, w)
  {
    hide Sum, SmallSigma0, SmallSigma1, ScheduleMix0, ScheduleMix1;
    ScheduleMixesAreStandard(w2);
    ScheduleMixesAreStandard(w15);
  }

  lemma Words0(b: seq<Byte>)
    requires IsBlock(b)
    ensures WordIs(b, 0, 0x61626380) && WordIs(b, 1, 0x00000000) && WordIs(b, 2, 0x00000000) &&
      WordIs(b, 3, 0x00000000) && WordIs(b, 4, 0x00000000) && WordIs(b, 5, 0x00000000) && WordIs(b, 6, 0x00000000) &&
      WordIs(b, 7, 0x00000000) && WordIs(b, 8, 0x00000000) && WordIs(b, 9, 0x00000000) &&
      WordIs(b, 10, 0x00000000) && WordIs(b, 11, 0x00000000) && WordIs(b, 12, 0x00000000) &&
      WordIs(b, 13, 0x00000000) && WordIs(b, 14, 0x00000000) && WordIs(b, 15, 0x00000018)
  {
    hide WordIs, IsBlock;
    FirstWords(b, 0);
    FirstWords(b, 1);
    FirstWords(b, 2);
    FirstWords(b, 3);
    FirstWords(b, 4);
    FirstWords(b, 5);
    FirstWords(b, 6);
    FirstWords(b, 7);
    FirstWords(b, 8);
    FirstWords(b, 9);
    FirstWords(b, 10);
    FirstWords(b, 11);
    FirstWords(b, 12);
    FirstWords(b, 13);
    FirstWords(b, 14);
    FirstWords(b, 15);
  }

  lemma Words16(b: seq<Byte>)
    requires IsBlock(b)
    ensures WordIs(b, 16, 0x61626380) && WordIs(b, 17, 0x000f0000) && WordIs(b, 18, 0x7da86405) &&
      WordIs(b, 19, 0x600003c6) && WordIs(b, 20, 0x3e9d7b78) && WordIs(b, 21, 0x0183fc00) &&
      WordIs(b, 22, 0x12dcbfdb) && WordIs(b, 23, 0xe2e2c38e) && WordIs(b, 24, 0xc8215c1a) &&
      WordIs(b, 25, 0xb73679a2) && WordIs(b, 26, 0xe5bc3909) && WordIs(b, 27, 0x32663c5b) &&
      WordIs(b, 28, 0x9d209d67) && WordIs(b, 29, 0xec8726cb) && WordIs(b, 30, 0x702138a4) &&
      WordIs(b, 31, 0xd3b7973b)
  {
    hide WordIs, IsBlock;
    Words0(b);
    OneWord(b, 16, 0x61626380, 0x00000000, 0x00000000, 0x00000000, 0x61626380);
    OneWord(b, 17, 0x00000000, 0x00000000, 0x00000000, 0x00000018, 0x000f0000);
    OneWord(b, 18, 0x00000000, 0x00000000, 0x00000000, 0x61626380, 0x7da86405);
    OneWord(b, 19, 0x00000000, 0x00000000, 0x00000000, 0x000f0000, 0x600003c6);
    OneWord(b, 20, 0x00000000, 0x00000000, 0x00000000, 0x7da86405, 0x3e9d7b78);
    OneWord(b, 21, 0x00000000, 0x00000000, 0x00000000, 0x600003c6, 0x0183fc00);
    OneWord(b, 22, 0x00000000, 0x00000000, 0x00000018, 0x3e9d7b78, 0x12dcbfdb);
    OneWord(b, 23, 0x00000000, 0x00000000, 0x61626380, 0x0183fc00, 0xe2e2c38e);
    OneWord(b, 24, 0x00000000, 0x00000000, 0x000f0000, 0x12dcbfdb, 0xc8215c1a);
    OneWord(b, 25, 0x00000000, 0x00000000, 0x7da86405, 0xe2e2c38e, 0xb73679a2);
    OneWord(b, 26, 0x00000000, 0x00000000, 0x600003c6, 0xc8215c1a, 0xe5bc3909);
    OneWord(b, 27, 0x00000000, 0x00000000, 0x3e9d7b78, 0xb73679a2, 0x32663c5b);
    OneWord(b, 28, 0x00000000, 0x00000000, 0x0183fc00, 0xe5bc3909, 0x9d209d67);
    OneWord(b, 29, 0x00000000, 0x00000000, 0x12dcbfdb, 0x32663c5b, 0xec8726cb);
    OneWord(b, 30, 0x00000000, 0x00000018, 0xe2e2c38e, 0x9d209d67, 0x702138a4);
    OneWord(b, 31, 0x00000018, 0x61626380, 0xc8215c1a, 0xec8726cb, 0xd3b7973b);
  }

  lemma Words32(b: seq<Byte>)
    requires IsBlock(b)
    ensures WordIs(b, 32, 0x93f5997f) && WordIs(b, 33, 0x3b68ba73) && WordIs(b, 34, 0xaff4ffc1) &&
      WordIs(b, 35, 0xf10a5c62) && WordIs(b, 36, 0x0a8b3996) && WordIs(b, 37, 0x72af830a) &&
      WordIs(b, 38, 0x9409e33e) && WordIs(b, 39, 0x24641522) && WordIs(b, 40, 0x9f47bf94) &&
      WordIs(b, 41, 0xf0a64f5a) && WordIs(b, 42, 0x3e246a79) && WordIs(b, 43, 0x27333ba3) &&
      WordIs(b, 44, 0x0c4763f2) && WordIs(b, 45, 0x840abf27) && WordIs(b, 46, 0x7a290d5d) &&
      WordIs(b, 47, 0x065c43da)
  {
    hide WordIs, IsBlock;
    Words16(b);
    OneWord(b, 32, 0x61626380, 0x000f0000, 0xb73679a2, 0x702138a4, 0x93f5997f);
    OneWord(b, 33, 0x000f0000, 0x7da86405, 0xe5bc3909, 0xd3b7973b, 0x3b68ba73);
    OneWord(b, 34, 0x7da86405, 0x600003c6, 0x32663c5b, 0x93f5997f, 0xaff4ffc1);
    OneWord(b, 35, 0x600003c6, 0x3e9d7b78, 0x9d209d67, 0x3b68ba73, 0xf10a5c62);
    OneWord(b, 36, 0x3e9d7b78, 0x0183fc00, 0xec8726cb, 0xaff4ffc1, 0x0a8b3996);
    OneWord(b, 37, 0x0183fc00, 0x12dcbfdb, 0x702138a4, 0xf10a5c62, 0x72af830a);
    OneWord(b, 38, 0x12dcbfdb, 0xe2e2c38e, 0xd3b7973b, 0x0a8b3996, 0x9409e33e);
    OneWord(b, 39, 0xe2e2c38e, 0xc8215c1a, 0x93f5997f, 0x72af830a, 0x24641522);
    OneWord(b, 40, 0xc8215c1a, 0xb73679a2, 0x3b68ba73, 0x9409e33e, 0x9f47bf94);
    OneWord(b, 41, 0xb73679a2, 0xe5bc3909, 0xaff4ffc1, 0x24641522, 0xf0a64f5a);
    OneWord(b, 42, 0xe5bc3909, 0x32663c5b, 0xf10a5c62, 0x9f47bf94, 0x3e246a79);
    OneWord(b, 43, 0x32663c5b, 0x9d209d67, 0x0a8b3996, 0xf0a64f5a, 0x27333ba3);
    OneWord(b, 44, 0x9d209d67, 0xec8726cb, 0x72af830a, 0x3e246a79, 0x0c4763f2);
    OneWord(b, 45, 0xec8726cb, 0x702138a4, 0x9409e33e, 0x27333ba3, 0x840abf27);
    OneWord(b, 46, 0x702138a4, 0xd3b7973b, 0x24641522, 0x0c4763f2, 0x7a290d5d);
    OneWord(b, 47, 0xd3b7973b, 0x93f5997f, 0x9f47bf94, 0x840abf27, 0x065c43da);
  }

  lemma Words48(b: seq<Byte>)
    requires IsBlock(b)
    ensures WordIs(b, 48, 0xfb3e89cb) && WordIs(b, 49, 0xcc7617db) && WordIs(b, 50, 0xb9e66c34) &&
      WordIs(b, 51, 0xa9993667) && WordIs(b, 52, 0x84badedd) && WordIs(b, 53, 0xc21462bc) &&
      WordIs(b, 54, 0x1487472c) && WordIs(b, 55, 0xb20f7a99) && WordIs(b, 56, 0xef57b9cd) &&
      WordIs(b, 57, 0xebe6b238) && WordIs(b, 58, 0x9fe3095e) && WordIs(b, 59, 0x78bc8d4b) &&
      WordIs(b, 60, 0xa43fcf15) && WordIs(b, 61, 0x668b2ff8) && WordIs(b, 62, 0xeeaba2cc) &&
      WordIs(b, 63, 0x12b1edeb)
  {
    hide WordIs, IsBlock;
    Words32(b);
    OneWord(b, 48, 0x93f5997f, 0x3b68ba73, 0xf0a64f5a, 0x7a290d5d, 0xfb3e89cb);
    OneWord(b, 49, 0x3b68ba73, 0xaff4ffc1, 0x3e246a79, 0x065c43da, 0xcc7617db);
    OneWord(b, 50, 0xaff4ffc1, 0xf10a5c62, 0x27333ba3, 0xfb3e89cb, 0xb9e66c34);
    OneWord(b, 51, 0xf10a5c62, 0x0a8b3996, 0x0c4763f2, 0xcc7617db, 0xa9993667);
    OneWord(b, 52, 0x0a8b3996, 0x72af830a, 0x840abf27, 0xb9e66c34, 0x84badedd);
    OneWord(b, 53, 0x72af830a, 0x9409e33e, 0x7a290d5d, 0xa9993667, 0xc21462bc);
    OneWord(b, 54, 0x9409e33e, 0x24641522, 0x065c43da, 0x84badedd, 0x1487472c);
    OneWord(b, 55, 0x24641522, 0x9f47bf94, 0xfb3e89cb, 0xc21462bc, 0xb20f7a99);
    OneWord(b, 56, 0x9f47bf94, 0xf0a64f5a, 0xcc7617db, 0x1487472c, 0xef57b9cd);
    OneWord(b, 57, 0xf0a64f5a, 0x3e246a79, 0xb9e66c34, 0xb20f7a99, 0xebe6b238);
    OneWord(b, 58, 0x3e246a79, 0x27333ba3, 0xa9993667, 0xef57b9cd, 0x9fe3095e);
    OneWord(b, 59, 0x27333ba3, 0x0c4763f2, 0x84badedd, 0xebe6b238, 0x78bc8d4b);
    OneWord(b, 60, 0x0c4763f2, 0x840abf27, 0xc21462bc, 0x9fe3095e, 0xa43fcf15);
    OneWord(b, 61, 0x840abf27, 0x7a290d5d, 0x1487472c, 0x78bc8d4b, 0x668b2ff8);
    OneWord(b, 62, 0x7a290d5d, 0x065c43da, 0xb20f7a99, 0xa43fcf15, 0xeeaba2cc);
    OneWord(b, 63, 0x065c43da, 0xfb3e89cb, 0xef57b9cd, 0x668b2ff8, 0x12b1edeb);
  }

  // ---- the rounds -----------------------------------------------------------------------------------------

  ghost predicate RegistersAre(b: seq<Byte>, t: nat, r: Hash)
  {
    |b| == 64 && t <= 64 && Rounds(H0, b, t) == r
  }

  lemma OneRound(b: seq<Byte>, t: nat, r: Hash, k: Word, w: Word, a: Word, e: Word) returns (next: Hash)
    requires t < 64 && RegistersAre(b, t, r) && WordIs(b, t, w) && K(t) == k
    requires var t1 := Add(Add(Add(Add(r.h, RoundMix1(r.e)), Ch(r.e, r.f, r.g)), k), w);
      Add(t1, Add(RoundMix0(r.a), Maj(r.a, r.b, r.c))) == a && Add(r.d, t1) == e
    ensures next == Hash(a, r.a, r.b, r.c, e, r.e, r.f, r.g) && RegistersAre(b, t + 1, next)
  {
    hide K, Schedule, Add, BigSigma0, BigSigma1, RoundMix0, RoundMix1, Ch, Maj;
    RoundMixesAreStandard(r.a);
    RoundMixesAreStandard(r.e);
    next := Hash(a, r.a, r.b, r.c, e, r.e, r.f, r.g);
  }

  lemma Rounds0(b: seq<Byte>)
    requires IsBlock(b)
    ensures RegistersAre(b, 16,
      Hash(0xb0fa238e, 0xc0645fde, 0xd932eb16, 0x87912990, 0x07590dcd, 0x0b92f20c, 0x745a48de, 0x1e578218))
  {
    hide RegistersAre, WordIs, IsBlock;
    Words0(b);
    assert RegistersAre(b, 0, H0) by { RoundsStart(b); }
    var r := Hash(0x6a09e667, 0xbb67ae85, 0x3c6ef372, 0xa54ff53a, 0x510e527f, 0x9b05688c, 0x1f83d9ab, 0x5be0cd19);
    r := OneRound(b, 0, r, 0x428a2f98, 0x61626380, 0x5d6aebcd, 0xfa2a4622);
    r := OneRound(b, 1, r, 0x71374491, 0x00000000, 0x5a6ad9ad, 0x78ce7989);
    r := OneRound(b, 2, r, 0xb5c0fbcf, 0x00000000, 0xc8c347a7, 0xf92939eb);
    r := OneRound(b, 3, r, 0xe9b5dba5, 0x00000000, 0xd550f666, 0x24e00850);
    r := OneRound(b, 4, r, 0x3956c25b, 0x00000000, 0x04409a6a, 0x43ada245);
    r := OneRound(b, 5, r, 0x59f111f1, 0x00000000, 0x2b4209f5, 0x714260ad);
    r := OneRound(b, 6, r, 0x923f82a4, 0x00000000, 0xe5030380, 0x9b27a401);
    r := OneRound(b, 7, r, 0xab1c5ed5, 0x00000000, 0x85a07b5f, 0x0c657a79);
    r := OneRound(b, 8, r, 0xd807aa98, 0x00000000, 0x8e04ecb9, 0x32ca2d8c);
    r := OneRound(b, 9, r, 0x12835b01, 0x00000000, 0x8c87346b, 0x1cc92596);
    r := OneRound(b, 10, r, 0x243185be, 0x00000000, 0x4798a3f4, 0x436b23e8);
    r := OneRound(b, 11, r, 0x550c7dc3, 0x00000000, 0xf71fc5a9, 0x816fd6e9);
    r := OneRound(b, 12, r, 0x72be5d74, 0x00000000, 0x87912990, 0x1e578218);
    r := OneRound(b, 13, r, 0x80deb1fe, 0x00000000, 0xd932eb16, 0x745a48de);
    r := OneRound(b, 14, r, 0x9bdc06a7, 0x00000000, 0xc0645fde, 0x0b92f20c);
    r := OneRound(b, 15, r, 0xc19bf174, 0x00000018, 0xb0fa238e, 0x07590dcd);
  }

  lemma Rounds16(b: seq<Byte>)
    requires IsBlock(b)
    ensures RegistersAre(b, 32,
      Hash(0x73b33bf5, 0xea992a22, 0xa0060b30, 0x363482c9, 0xba591112, 0x0109ab3a, 0xade79437, 0x6112a3b7))
  {
    hide RegistersAre, WordIs, IsBlock;
    Words16(b);
    Rounds0(b);
    var r := Hash(0xb0fa238e, 0xc0645fde, 0xd932eb16, 0x87912990, 0x07590dcd, 0x0b92f20c, 0x745a48de, 0x1e578218);
    r := OneRound(b, 16, r, 0xe49b69c1, 0x61626380, 0x21da9a9b, 0x8034229c);
    r := OneRound(b, 17, r, 0xefbe4786, 0x000f0000, 0xc2fbd9d1, 0x846ee454);
    r := OneRound(b, 18, r, 0x0fc19dc6, 0x7da86405, 0xfe777bbf, 0xcc899961);
    r := OneRound(b, 19, r, 0x240ca1cc, 0x600003c6, 0xe1f20c33, 0xb0638179);
    r := OneRound(b, 20, r, 0x2de92c6f, 0x3e9d7b78, 0x9dc68b63, 0x8ada8930);
    r := OneRound(b, 21, r, 0x4a7484aa, 0x0183fc00, 0xc2606d6d, 0xe1257970);
    r := OneRound(b, 22, r, 0x5cb0a9dc, 0x12dcbfdb, 0xa7a3623f, 0x49f5114a);
    r := OneRound(b, 23, r, 0x76f988da, 0xe2e2c38e, 0xc5d53d8d, 0xaa47c347);
    r := OneRound(b, 24, r, 0x983e5152, 0xc8215c1a, 0x1c2c2838, 0x2823ef91);
    r := OneRound(b, 25, r, 0xa831c66d, 0xb73679a2, 0xcde8037d, 0x14383d8e);
    r := OneRound(b, 26, r, 0xb00327c8, 0xe5bc3909, 0xb62ec4bc, 0xc74c6516);
    r := OneRound(b, 27, r, 0xbf597fc7, 0x32663c5b, 0x77d37528, 0xedffbff8);
    r := OneRound(b, 28, r, 0xc6e00bf3, 0x9d209d67, 0x363482c9, 0x6112a3b7);
    r := OneRound(b, 29, r, 0xd5a79147, 0xec8726cb, 0xa0060b30, 0xade79437);
    r := OneRound(b, 30, r, 0x06ca6351, 0x702138a4, 0xea992a22, 0x0109ab3a);
    r := OneRound(b, 31, r, 0x14292967, 0xd3b7973b, 0x73b33bf5, 0xba591112);
  }

  lemma Rounds32(b: seq<Byte>)
    requires IsBlock(b)
    ensures RegistersAre(b, 48,
      Hash(0x4172328d, 0xa14c14b0, 0x72ab4b91, 0x26628815, 0xfecf0bc6, 0xd57b94a9, 0xb7755da1, 0xa80f11f0))
  {
    hide RegistersAre, WordIs, IsBlock;
    Words32(b);
    Rounds16(b);
    var r := Hash(0x73b33bf5, 0xea992a22, 0xa0060b30, 0x363482c9, 0xba591112, 0x0109ab3a, 0xade79437, 0x6112a3b7);
    r := OneRound(b, 32, r, 0x27b70a85, 0x93f5997f, 0x98e12507, 0x9cd9f5f6);
    r := OneRound(b, 33, r, 0x2e1b2138, 0x3b68ba73, 0xfe604df5, 0x59249dd3);
    r := OneRound(b, 34, r, 0x4d2c6dfc, 0xaff4ffc1, 0xa9a7738c, 0x085f3833);
    r := OneRound(b, 35, r, 0x53380d13, 0xf10a5c62, 0x65a0cfe4, 0xf4b002d6);
    r := OneRound(b, 36, r, 0x650a7354, 0x0a8b3996, 0x41a65cb1, 0x0772a26b);
    r := OneRound(b, 37, r, 0x766a0abb, 0x72af830a, 0x34df1604, 0xa507a53d);
    r := OneRound(b, 38, r, 0x81c2c92e, 0x9409e33e, 0x6dc57a8a, 0xf0781bc8);
    r := OneRound(b, 39, r, 0x92722c85, 0x24641522, 0x79ea687a, 0x1efbc0a0);
    r := OneRound(b, 40, r, 0xa2bfe8a1, 0x9f47bf94, 0xd6670766, 0x26352d63);
    r := OneRound(b, 41, r, 0xa81a664b, 0xf0a64f5a, 0xdf46652f, 0x838b2711);
    r := OneRound(b, 42, r, 0xc24b8b70, 0x3e246a79, 0x17aa0dfe, 0xdecd4715);
    r := OneRound(b, 43, r, 0xc76c51a3, 0x27333ba3, 0x9d4baf93, 0xfda24c2e);
    r := OneRound(b, 44, r, 0xd192e819, 0x0c4763f2, 0x26628815, 0xa80f11f0);
    r := OneRound(b, 45, r, 0xd6990624, 0x840abf27, 0x72ab4b91, 0xb7755da1);
    r := OneRound(b, 46, r, 0xf40e3585, 0x7a290d5d, 0xa14c14b0, 0xd57b94a9);
    r := OneRound(b, 47, r, 0x106aa070, 0x065c43da, 0x4172328d, 0xfecf0bc6);
  }

  lemma Rounds48(b: seq<Byte>)
    requires IsBlock(b)
    ensures RegistersAre(b, 64,
      Hash(0x506e3058, 0xd39a2165, 0x04d24d6c, 0xb85e2ce9, 0x5ef50f24, 0xfb121210, 0x948d25b6, 0x961f4894))
  {
    hide RegistersAre, WordIs, IsBlock;
    Words48(b);
    Rounds32(b);
    var r := Hash(0x4172328d, 0xa14c14b0, 0x72ab4b91, 0x26628815, 0xfecf0bc6, 0xd57b94a9, 0xb7755da1, 0xa80f11f0);
    r := OneRound(b, 48, r, 0x19a4c116, 0xfb3e89cb, 0x05757ceb, 0xbd714038);
    r := OneRound(b, 49, r, 0x1e376c08, 0xcc7617db, 0xf11bfaa8, 0x6e5c390c);
    r := OneRound(b, 50, r, 0x2748774c, 0xb9e66c34, 0x7a0508a1, 0x52f1ccf7);
    r := OneRound(b, 51, r, 0x34b0bcb5, 0xa9993667, 0x886e7a22, 0x49231c1e);
    r := OneRound(b, 52, r, 0x391c0cb3, 0x84badedd, 0x101fd28f, 0x529e7d00);
    r := OneRound(b, 53, r, 0x4ed8aa4a, 0xc21462bc, 0xf5702fdb, 0x9f4787c3);
    r := OneRound(b, 54, r, 0x5b9cca4f, 0x1487472c, 0x3ec45cdb, 0xe50e1b4f);
    r := OneRound(b, 55, r, 0x682e6ff3, 0xb20f7a99, 0x38cc9913, 0x54cb266b);
    r := OneRound(b, 56, r, 0x748f82ee, 0xef57b9cd, 0xfcd1887b, 0x9b5e906c);
    r := OneRound(b, 57, r, 0x78a5636f, 0xebe6b238, 0xc062d46f, 0x7e44008e);
    r := OneRound(b, 58, r, 0x84c87814, 0x9fe3095e, 0xffb70472, 0x6d83bfc6);
    r := OneRound(b, 59, r, 0x8cc70208, 0x78bc8d4b, 0xb6ae8fff, 0xb21bad3d);
    r := OneRound(b, 60, r, 0x90befffa, 0xa43fcf15, 0xb85e2ce9, 0x961f4894);
    r := OneRound(b, 61, r, 0xa4506ceb, 0x668b2ff8, 0x04d24d6c, 0x948d25b6);
    r := OneRound(b, 62, r, 0xbef9a3f7, 0xeeaba2cc, 0xd39a2165, 0xfb121210);
    r := OneRound(b, 63, r, 0xc67178f2, 0x12b1edeb, 0x506e3058, 0x5ef50f24);
  }

  lemma RoundsStart(b: seq<Byte>)
    requires IsBlock(b)
    ensures RegistersAre(b, 0, H0)
  {
  }

  // ---- the digest -----------------------------------------------------------------------------------------

  lemma DigestOfAbc(m: seq<Byte>)
    requires m == ABC
    ensures Digest(m) == Hash(
      0xba7816bf, 0x8f01cfea, 0x414140de, 0x5dae2223, 0xb00361a3, 0x96177a9c, 0xb410ff61, 0xf20015ad)
  {
    hide Rounds, Digest, IsBlock, PadWith, Schedule;
    var b := PadWith(m, 24);
    OneBlock(m);
    OneBlockIsHashed(m, b);
    Rounds48(b);
  }

  lemma HexOfDigest()
    ensures HexWord(0xba7816bf) == "ba7816bf" && HexWord(0x8f01cfea) == "8f01cfea" &&
      HexWord(0x414140de) == "414140de" && HexWord(0x5dae2223) == "5dae2223" && HexWord(0xb00361a3) == "b00361a3" &&
      HexWord(0x96177a9c) == "96177a9c" && HexWord(0xb410ff61) == "b410ff61" && HexWord(0xf20015ad) == "f20015ad"
  {
  }

  /** The known answer. */
  lemma KnownDigest(m: seq<Byte>)
    requires m == ABC
    ensures HexDigest(m) ==
      "ba7816bf" + "8f01cfea" + "414140de" + "5dae2223" + "b00361a3" + "96177a9c" + "b410ff61" + "f20015ad"
  {
    hide Digest, HexWord, Hex;
    DigestOfAbc(m);
    EightWords(Digest(m));
    HexOfDigest();
  }
}
