/** The streaming SHA-256 of the model downloader (src/model/model_downloader.cpp:23-153) against FIPS 180-4. */
module Sha256 {
  import opened Wrappers

  // A 32-bit word, std::uint32_t: its sums wrap.
  type Word = bv32

  const TWO64: nat := 0x1_0000_0000_0000_0000

  const TABLE: seq<seq<Word>> := [
    [0x428a2f98, 0x71374491, 0xb5c0fbcf, 0xe9b5dba5, 0x3956c25b, 0x59f111f1, 0x923f82a4, 0xab1c5ed5],
    [0xd807aa98, 0x12835b01, 0x243185be, 0x550c7dc3, 0x72be5d74, 0x80deb1fe, 0x9bdc06a7, 0xc19bf174],
    [0xe49b69c1, 0xefbe4786, 0x0fc19dc6, 0x240ca1cc, 0x2de92c6f, 0x4a7484aa, 0x5cb0a9dc, 0x76f988da],
    [0x983e5152, 0xa831c66d, 0xb00327c8, 0xbf597fc7, 0xc6e00bf3, 0xd5a79147, 0x06ca6351, 0x14292967],
    [0x27b70a85, 0x2e1b2138, 0x4d2c6dfc, 0x53380d13, 0x650a7354, 0x766a0abb, 0x81c2c92e, 0x92722c85],
    [0xa2bfe8a1, 0xa81a664b, 0xc24b8b70, 0xc76c51a3, 0xd192e819, 0xd6990624, 0xf40e3585, 0x106aa070],
    [0x19a4c116, 0x1e376c08, 0x2748774c, 0x34b0bcb5, 0x391c0cb3, 0x4ed8aa4a, 0x5b9cca4f, 0x682e6ff3],
    [0x748f82ee, 0x78a5636f, 0x84c87814, 0x8cc70208, 0x90befffa, 0xa4506ceb, 0xbef9a3f7, 0xc67178f2]
  ]

  /** The round constants of section 4.2.2, in rows of eight. */
  function K(t: nat): Word
    requires t < 64
  {
    TABLE[t / 8][t % 8]
  }

  // ---- the standard: sections 4.1.2 (functions), 5.1.1 (padding), 5.3.3 (initial value), 6.2.2 (compression)

  /** Addition modulo 2^32, the unsigned `+` of the source. */
  function Add(x: Word, y: Word): Word { x + y }

  /** The sum of four words, whose order does not matter. */
  function Sum(w: Word, x: Word, y: Word, z: Word): Word { w + x + y + z }

  /** ROTR of section 3.2. */
  function Rotr(x: Word, n: nat): Word
    requires n < 32
  {
    x.RotateRight(n)
  }

  // The functions of section 4.1.2.
  function BigSigma0(x: Word): Word { Rotr(x, 2) ^ Rotr(x, 13) ^ Rotr(x, 22) }

  function BigSigma1(x: Word): Word { Rotr(x, 6) ^ Rotr(x, 11) ^ Rotr(x, 25) }

  function SmallSigma0(x: Word): Word { Rotr(x, 7) ^ Rotr(x, 18) ^ (x >> 3) }

  function SmallSigma1(x: Word): Word { Rotr(x, 17) ^ Rotr(x, 19) ^ (x >> 10) }

  function Ch(x: Word, y: Word, z: Word): Word { (x & y) ^ (!x & z) }

  function Maj(x: Word, y: Word, z: Word): Word { (x & y) ^ (x & z) ^ (y & z) }

  /** Under a mask where x is all ones Ch takes y's bits, where x is all zeros z's. */
  lemma ChoosesBitwise(x: Word, y: Word, z: Word, mask: Word)
    ensures x & mask == mask ==> Ch(x, y, z) & mask == y & mask
    ensures x & mask == 0 ==> Ch(x, y, z) & mask == z & mask
  {
  }

  /** Where two of the words agree, Maj has their bits. */
  lemma TakesMajorityBitwise(x: Word, y: Word, z: Word, mask: Word)
    ensures x & mask == y & mask ==> Maj(x, y, z) & mask == x & mask
    ensures x & mask == z & mask ==> Maj(x, y, z) & mask == x & mask
    ensures y & mask == z & mask ==> Maj(x, y, z) & mask == y & mask
  {
    MajorityUnder(x, y, z, mask);
    MajorityOfTwo(x & mask, z & mask);
    MajorityOfTwo(x & mask, y & mask);
    MajorityOfTwo(y & mask, x & mask);
    hide Maj;
  }

  lemma MajorityUnder(x: Word, y: Word, z: Word, mask: Word)
    ensures Maj(x, y, z) & mask == Maj(x & mask, y & mask, z & mask)
  {
  }

  lemma MajorityOfTwo(x: Word, y: Word)
    ensures Maj(x, x, y) == x && Maj(x, y, x) == x && Maj(y, x, x) == x
  {
  }

  function BigEndian(b0: Byte, b1: Byte, b2: Byte, b3: Byte): Word
  {
    (b0 as bv32 << 24) | (b1 as bv32 << 16) | (b2 as bv32 << 8) | b3 as bv32
  }

  /** The message schedule, word t. */
  function Schedule(block: seq<Byte>, t: nat): Word
    requires |block| == 64 && t < 64
  {
    if t < 16 then BigEndian(block[4 * t], block[4 * t + 1], block[4 * t + 2], block[4 * t + 3])
    else
      Sum(SmallSigma1(Schedule(block, t - 2)), Schedule(block, t - 7), SmallSigma0(Schedule(block, t - 15)),
          Schedule(block, t - 16))
  }

  datatype Hash = Hash(a: Word, b: Word, c: Word, d: Word, e: Word, f: Word, g: Word, h: Word)

  const H0 := Hash(0x6a09e667, 0xbb67ae85, 0x3c6ef372, 0xa54ff53a, 0x510e527f, 0x9b05688c, 0x1f83d9ab, 0x5be0cd19)

  function Round(r: Hash, k: Word, w: Word): Hash
  {
    var t1 := Add(Add(Add(Add(r.h, BigSigma1(r.e)), Ch(r.e, r.f, r.g)), k), w);
    var t2 := Add(BigSigma0(r.a), Maj(r.a, r.b, r.c));
    Hash(Add(t1, t2), r.a, r.b, r.c, Add(r.d, t1), r.e, r.f, r.g)
  }

  function Rounds(r: Hash, block: seq<Byte>, n: nat): Hash
    requires |block| == 64 && n <= 64
  {
    if n == 0 then r else Round(Rounds(r, block, n - 1), K(n - 1), Schedule(block, n - 1))
  }

  function AddHash(x: Hash, y: Hash): Hash
  {
    Hash(Add(x.a, y.a), Add(x.b, y.b), Add(x.c, y.c), Add(x.d, y.d),
         Add(x.e, y.e), Add(x.f, y.f), Add(x.g, y.g), Add(x.h, y.h))
  }

  function Compress(x: Hash, block: seq<Byte>): Hash
    requires |block| == 64
  {
    AddHash(x, Rounds(x, block, 64))
  }

  /** The hash value after all whole 64-byte blocks of `s`. */
  function FoldBlocks(s: seq<Byte>): Hash
    requires |s| % 64 == 0
    decreases |s|
  {
    if s == [] then H0 else Compress(FoldBlocks(s[..|s| - 64]), s[|s| - 64..])
  }

  function Pow256(i: nat): nat
    ensures Pow256(i) > 0
  {
    if i == 0 then 1 else 256 * Pow256(i - 1)
  }

  /** Byte number `i` of `n`, counted from the least significant. */
  function ByteOf(n: nat, i: nat): Byte
  {
    ((n / Pow256(i)) % 256) as Byte
  }

  function Length64(bits: nat): seq<Byte>
  {
    seq(8, j requires 0 <= j < 8 => ByteOf(bits, 7 - j))
  }

  /** A byte string read as a number, most significant byte first. */
  function Value(b: seq<Byte>): nat
  {
    if b == [] then 0 else Value(b[..|b| - 1]) * 256 + b[|b| - 1] as int
  }

  /** The last eight bytes of the padding hold the length. */
  lemma LengthIsBigEndian(bits: nat)
    requires bits < TWO64
    ensures |Length64(bits)| == 8 && Value(Length64(bits)) == bits
  {
    hide ByteOf, Value, Pow256;
    LengthPrefix(bits, 8);
    assert Length64(bits)[..8] == Length64(bits);
    assert Pow256(0) == 1 by { PowerOfZero(); }
  }

  lemma {:induction false} LengthPrefix(bits: nat, n: nat)
    requires bits < TWO64 && n <= 8
    ensures Value(Length64(bits)[..n]) == bits / Pow256(8 - n)
  {
    hide ByteOf;
    var b := Length64(bits);
    if n == 0 {
      Powers();
    } else {
      LengthPrefix(bits, n - 1);
      assert b[..n][..n - 1] == b[..n - 1];
      NextDigit(bits, 8 - n);
    }
  }

  lemma Powers()
    ensures Pow256(8) == TWO64
  {
    assert Pow256(4) == 0x1_0000_0000;
  }

  lemma PowerOfZero()
    ensures Pow256(0) == 1
  {
  }

  lemma NextPower(i: nat)
    ensures Pow256(i + 1) == 256 * Pow256(i)
  {
  }

  lemma NextDigit(n: nat, i: nat)
    ensures n / Pow256(i + 1) * 256 + ByteOf(n, i) as int == n / Pow256(i)
  {
    NextPower(i);
    DivideTwice(n, Pow256(i));
    var q := n / Pow256(i);
    hide Pow256;
    assert q == q / 256 * 256 + q % 256;
  }

  lemma DivideTwice(n: nat, p: nat)
    requires p > 0
    ensures n / (256 * p) == n / p / 256
  {
    var q := n / p;
    Quotient(n, p);
    Quotient(q, 256);
    var a, b := q / 256, q % 256;
    Distribute(p, a, b);
    QuotientIs(n, 256 * p, a, p * b + n % p);
  }

  lemma Quotient(n: nat, p: nat)
    requires p > 0
    ensures n == p * (n / p) + n % p && n % p < p
  {
  }

  lemma Distribute(p: nat, a: nat, b: nat)
    requires b < 256
    ensures p * (256 * a + b) == 256 * p * a + p * b && p * b + p <= 256 * p
  {
    assert p * b + p == p * (b + 1);
  }

  lemma QuotientIs(n: nat, d: nat, q: nat, r: nat)
    requires d > 0 && n == d * q + r && r < d
    ensures n / d == q
  {
    Quotient(n, d);
    var p := n / d;
    Apart(d, p, q);
    Apart(d, q, p);
  }

  lemma {:induction false} Apart(d: nat, a: nat, b: nat)
    ensures a < b ==> d * a + d <= d * b
    decreases b
  {
    if a < b {
      assert d * b == d * (b - 1) + d;
      Apart(d, a, b - 1);
    }
  }

  function Zeros(n: nat): seq<Byte>
  {
    seq(n, _ => 0 as Byte)
  }

  /** The padding of section 5.1.1: 0x80, then the fewest zeros that leave 8 bytes of the last block. */
  function ZeroCount(length: nat): nat
  {
    (119 - length % 64) % 64
  }

  function PadWith(m: seq<Byte>, bits: nat): seq<Byte>
  {
    m + [0x80] + Zeros(ZeroCount(|m|)) + Length64(bits)
  }

  lemma PaddedLength(m: seq<Byte>, bits: nat)
    ensures |PadWith(m, bits)| % 64 == 0
    ensures ZeroCount(|m|) < 64 && (|m| + 1 + ZeroCount(|m|)) % 64 == 56
  {
    ZerosFill(|m|);
    hide ZeroCount, Zeros, Length64;
    var size := |m| + 1 + ZeroCount(|m|);
    assert |PadWith(m, bits)| == size + 8 by { PadSize(m, bits); }
  }

  lemma PadSize(m: seq<Byte>, bits: nat)
    ensures |PadWith(m, bits)| == |m| + 1 + ZeroCount(|m|) + 8
  {
    hide ZeroCount;
  }

  lemma ZerosFill(length: nat)
    ensures ZeroCount(length) < 64 && (length + 1 + ZeroCount(length)) % 64 == 56
  {
    var q, r := length / 64, length % 64;
    assert length == 64 * q + r;
    var z := ZeroCount(length);
    assert z == if r <= 55 then 55 - r else 119 - r;
    assert length + 1 + z == 64 * (q + if r <= 55 then 0 else 1) + 56;
  }

  /** The digest of the standard, for any message whose bit length fits 64 bits. */
  function Digest(m: seq<Byte>): Hash
  {
    PaddedLength(m, 8 * |m|);
    FoldBlocks(PadWith(m, 8 * |m|))
  }

  function HexDigit(n: bv32): char
  {
    if n == 0 then '0' else if n == 1 then '1' else if n == 2 then '2' else if n == 3 then '3'
    else if n == 4 then '4' else if n == 5 then '5' else if n == 6 then '6' else if n == 7 then '7'
    else if n == 8 then '8' else if n == 9 then '9' else if n == 10 then 'a' else if n == 11 then 'b'
    else if n == 12 then 'c' else if n == 13 then 'd' else if n == 14 then 'e' else 'f'
  }

  /** The eight nibbles of a word, most significant first. */
  function Nibbles(v: Word): seq<bv32>
  {
    [v >> 28, (v >> 24) & 0xf, (v >> 20) & 0xf, (v >> 16) & 0xf, (v >> 12) & 0xf, (v >> 8) & 0xf, (v >> 4) & 0xf,
     v & 0xf]
  }

  function HexWord(w: Word): string
  {
    seq(8, i requires 0 <= i < 8 => HexDigit(Nibbles(w)[i]))
  }

  function HexWords(words: seq<Word>): string
  {
    if words == [] then "" else HexWords(words[..|words| - 1]) + HexWord(words[|words| - 1])
  }

  function Hex(x: Hash): string
  {
    HexWords([x.a, x.b, x.c, x.d, x.e, x.f, x.g, x.h])
  }

  lemma HexStep(words: seq<Word>, n: nat)
    requires n < |words|
    ensures HexWords(words[..n + 1]) == HexWords(words[..n]) + HexWord(words[n])
  {
    hide HexWord;
    assert words[..n + 1][..n] == words[..n];
  }

  lemma NoWords(words: seq<Word>)
    requires words == []
    ensures HexWords(words) == ""
  {
  }

  lemma EightWords(x: Hash)
    ensures Hex(x) == HexWord(x.a) + HexWord(x.b) + HexWord(x.c) + HexWord(x.d) + HexWord(x.e) + HexWord(x.f) +
      HexWord(x.g) + HexWord(x.h)
  {
    hide HexWord, HexWords;
    var w := [x.a, x.b, x.c, x.d, x.e, x.f, x.g, x.h];
    HexStep(w, 0);
    HexStep(w, 1);
    HexStep(w, 2);
    HexStep(w, 3);
    HexStep(w, 4);
    HexStep(w, 5);
    HexStep(w, 6);
    HexStep(w, 7);
    assert w[..8] == w && HexWords(w[..0]) == "" by { NoWords(w[..0]); }
    assert "" + HexWord(x.a) == HexWord(x.a);
  }

  function HexDigest(m: seq<Byte>): string
  {
    Hex(Digest(m))
  }

  function Concat(chunks: seq<seq<Byte>>): seq<Byte>
  {
    if chunks == [] then [] else Concat(chunks[..|chunks| - 1]) + chunks[|chunks| - 1]
  }

  // ---- the in-place algorithm -----------------------------------------------------------------------

  lemma SumReversed(w: Word, x: Word, y: Word, z: Word)
    ensures Sum(w, x, y, z) == Sum(z, y, x, w)
  {
  }

  lemma ScheduleStep(block: seq<Byte>, t: nat)
    requires |block| == 64 && 16 <= t < 64
    ensures Schedule(block, t) ==
      Sum(Schedule(block, t - 16), SmallSigma0(Schedule(block, t - 15)), Schedule(block, t - 7),
          SmallSigma1(Schedule(block, t - 2)))
  {
    hide Sum, SmallSigma0, SmallSigma1, BigEndian;
    SumReversed(Schedule(block, t - 16), SmallSigma0(Schedule(block, t - 15)), Schedule(block, t - 7),
                SmallSigma1(Schedule(block, t - 2)));
  }

  lemma ScheduleStart(block: seq<Byte>, t: nat)
    requires |block| == 64 && t < 16
    ensures Schedule(block, t) == BigEndian(block[4 * t], block[4 * t + 1], block[4 * t + 2], block[4 * t + 3])
  {
  }

  /** rotate_right: the source's two shifts. */
  function RotateRight(value: Word, count: bv5): Word
    requires count != 0
  {
    (value >> count) | (value << (32 - count as bv32))
  }

  lemma ScheduleRotations(x: Word)
    ensures RotateRight(x, 7) == Rotr(x, 7) && RotateRight(x, 18) == Rotr(x, 18)
    ensures RotateRight(x, 17) == Rotr(x, 17) && RotateRight(x, 19) == Rotr(x, 19)
  {
  }

  lemma RoundRotations(x: Word)
    ensures RotateRight(x, 2) == Rotr(x, 2) && RotateRight(x, 13) == Rotr(x, 13)
    ensures RotateRight(x, 22) == Rotr(x, 22) && RotateRight(x, 6) == Rotr(x, 6)
    ensures RotateRight(x, 11) == Rotr(x, 11) && RotateRight(x, 25) == Rotr(x, 25)
  {
  }

  // The mixing expressions of transform(), as the source writes them.
  function ScheduleMix0(x: Word): Word { RotateRight(x, 7) ^ RotateRight(x, 18) ^ (x >> 3) }

  function ScheduleMix1(x: Word): Word { RotateRight(x, 17) ^ RotateRight(x, 19) ^ (x >> 10) }

  function RoundMix0(x: Word): Word { RotateRight(x, 2) ^ RotateRight(x, 13) ^ RotateRight(x, 22) }

  function RoundMix1(x: Word): Word { RotateRight(x, 6) ^ RotateRight(x, 11) ^ RotateRight(x, 25) }

  /** They are the functions of the standard: two shifts and an or are a rotation. */
  lemma ScheduleMixesAreStandard(x: Word)
    ensures ScheduleMix0(x) == SmallSigma0(x) && ScheduleMix1(x) == SmallSigma1(x)
  {
    ScheduleRotations(x);
    hide RotateRight, Rotr;
  }

  lemma RoundMixesAreStandard(x: Word)
    ensures RoundMix0(x) == BigSigma0(x) && RoundMix1(x) == BigSigma1(x)
  {
    RoundRotations(x);
    hide RotateRight, Rotr;
  }

  /** The first half of transform(): the 64 schedule words, filled in place. */
  method FillSchedule(block: seq<Byte>) returns (words: array<Word>)
    requires |block| == 64
    ensures fresh(words) && words.Length == 64 && forall j :: 0 <= j < 64 ==> words[j] == Schedule(block, j)
  {
    hide Sum, SmallSigma0, SmallSigma1, ScheduleMix0, ScheduleMix1, BigEndian, Schedule;
    words := new Word[64](_ => 0);
    for i := 0 to 16
      invariant forall j :: 0 <= j < i ==> words[j] == Schedule(block, j)
    {
      ScheduleStart(block, i);
      words[i] := BigEndian(block[4 * i], block[4 * i + 1], block[4 * i + 2], block[4 * i + 3]);
    }
    for i := 16 to 64
      invariant forall j :: 0 <= j < i ==> words[j] == Schedule(block, j)
    {
      ScheduleMixesAreStandard(words[i - 15]);
      ScheduleMixesAreStandard(words[i - 2]);
      var s0 := ScheduleMix0(words[i - 15]);
      var s1 := ScheduleMix1(words[i - 2]);
      ScheduleStep(block, i);
      words[i] := Sum(words[i - 16], s0, words[i - 7], s1);
    }
  }

  lemma RoundsStep(r: Hash, block: seq<Byte>, n: nat)
    requires |block| == 64 && n < 64
    ensures Rounds(r, block, n + 1) == Round(Rounds(r, block, n), K(n), Schedule(block, n))
  {
    hide Schedule, Round, K;
  }

  /** One turn of the 64-round loop over the eight registers. */
  method Turn(r: Hash, k: Word, w: Word) returns (next: Hash)
    ensures next == Round(r, k, w)
  {
    hide Add, BigSigma0, BigSigma1, RoundMix0, RoundMix1, Ch, Maj;
    var a, b, c, d := r.a, r.b, r.c, r.d;
    var e, f, g, h := r.e, r.f, r.g, r.h;
    RoundMixesAreStandard(e);
    RoundMixesAreStandard(a);
    var s1 := RoundMix1(e);
    var choice := Ch(e, f, g);
    var temporary1 := Add(Add(Add(Add(h, s1), choice), k), w);
    var s0 := RoundMix0(a);
    var majority := Maj(a, b, c);
    var temporary2 := Add(s0, majority);
    h := g;
    g := f;
    f := e;
    e := Add(d, temporary1);
    d := c;
    c := b;
    b := a;
    a := Add(temporary1, temporary2);
    next := Hash(a, b, c, d, e, f, g, h);
  }

  /** transform(): the in-place schedule and the 64 rounds are the compression function of the standard. */
  method Transform(state: Hash, block: seq<Byte>) returns (next: Hash)
    requires |block| == 64
    ensures next == Compress(state, block)
  {
    hide Schedule, Round, K, AddHash;
    var schedule := FillSchedule(block);
    var words, registers := schedule[..], state;
    for i := 0 to 64
      invariant registers == Rounds(state, block, i)
    {
      RoundsStep(state, block, i);
      registers := Turn(registers, K(i), words[i]);
    }
    next := AddHash(state, registers);
  }

  // ---- streaming --------------------------------------------------------------------------------------

  lemma FoldOneMore(s: seq<Byte>, b: seq<Byte>)
    requires |s| % 64 == 0 && |b| == 64
    ensures |s + b| % 64 == 0 && FoldBlocks(s + b) == Compress(FoldBlocks(s), b)
  {
    hide Compress;
    assert (s + b)[..|s + b| - 64] == s && (s + b)[|s + b| - 64..] == b;
  }

  // bit_length_, a 64-bit counter that wraps.
  function BitLength(bytes: nat): nat { 8 * bytes % TWO64 }

  function AddBits(bits: nat, bytes: nat): nat { (bits + 8 * bytes) % TWO64 }

  /** Bytes appended to a message are appended to its unhashed tail. */
  lemma SplitTail(m: seq<Byte>, size: nat, piece: seq<Byte>)
    requires size == |m| % 64 && size + |piece| <= 64
    ensures var all, size' := m + piece, size + |piece|;
      all[..|all| - size'] == m[..|m| - size] && all[|all| - size'..] == m[|m| - size..] + piece &&
      (size' < 64 ==> |all| % 64 == size') && (size' == 64 ==> |all| % 64 == 0) &&
      AddBits(BitLength(|m|), |piece|) == BitLength(|all|)
  {
    LengthWraps(8 * |m|, 8 * |piece|);
    TailSize(|m|, |piece|);
    var whole := |m| - size;
    assert (m + piece)[..whole] == m[..whole];
    assert (m + piece)[whole..] == m[whole..] + piece;
  }

  lemma TailSize(length: nat, more: nat)
    requires length % 64 + more <= 64
    ensures length % 64 + more < 64 ==> (length + more) % 64 == length % 64 + more
    ensures length % 64 + more == 64 ==> (length + more) % 64 == 0
  {
    var q := length / 64;
    assert length + more == 64 * q + (length % 64 + more);
  }

  lemma LengthWraps(a: nat, b: nat)
    ensures (a % TWO64 + b) % TWO64 == (a + b) % TWO64
  {
    var q := a / TWO64;
    assert a + b == TWO64 * q + (a % TWO64 + b);
  }

  /** A full buffer is the last whole block, and nothing is left over. */
  lemma WholeBlock(m: seq<Byte>, b: seq<Byte>)
    requires |m| >= 64 && |b| == 64 && m[|m| - 64..] == b
    ensures m[..|m| - 64] + b == m[..|m| - 0] && b[..0] == m[|m| - 0..]
  {
    assert m[..|m| - 64] + b == m;
  }

  lemma Glue(m: seq<Byte>, data: seq<Byte>, offset: nat, count: nat)
    requires offset + count <= |data|
    ensures (m + data[..offset]) + data[offset..offset + count] == m + data[..offset + count]
  {
    assert data[..offset] + data[offset..offset + count] == data[..offset + count];
  }

  class Hasher {
    var state: Hash
    var block: array<Byte>
    var blockSize: nat
    var bitLength: nat
    ghost var message: seq<Byte>

    /** The state is the fold over the whole blocks of everything fed so far; the rest is buffered. */
    ghost predicate Valid()
      reads this, block
    {
      block.Length == 64 && blockSize == |message| % 64 &&
      state == FoldBlocks(message[..|message| - blockSize]) &&
      block[..blockSize] == message[|message| - blockSize..] &&
      bitLength == BitLength(|message|)
    }

    constructor ()
      ensures Valid() && fresh(block) && message == []
    {
      hide Compress;
      state := H0;
      block := new Byte[64](_ => 0);
      blockSize, bitLength, message := 0, 0, [];
    }

    method CopyIn(piece: seq<Byte>)
      requires block.Length == 64 && blockSize + |piece| <= 64
      modifies block
      ensures block[..blockSize + |piece|] == old(block[..blockSize]) + piece
    {
      for i := 0 to |piece|
        invariant block[..blockSize + i] == old(block[..blockSize]) + piece[..i]
      {
        block[blockSize + i] := piece[i];
      }
      assert piece[..|piece|] == piece;
    }

    /** Like Valid, but the buffer may hold a whole block. */
    ghost predicate Filling()
      reads this, block
    {
      block.Length == 64 && blockSize <= 64 && blockSize <= |message| &&
      (if blockSize == 64 then |message| % 64 == 0 else blockSize == |message| % 64) &&
      state == FoldBlocks(message[..|message| - blockSize]) &&
      block[..blockSize] == message[|message| - blockSize..] &&
      bitLength == BitLength(|message|)
    }

    /** The first half of one pass of the update loop: copy `piece` into the buffer and count its bits. */
    method Buffer(piece: seq<Byte>)
      requires Valid() && blockSize + |piece| <= 64
      modifies this, block
      ensures Filling() && block == old(block) && message == old(message) + piece
    {
      hide FoldBlocks, Compress, AddBits, BitLength;
      SplitTail(message, blockSize, piece);
      CopyIn(piece);
      blockSize := blockSize + |piece|;
      bitLength := AddBits(bitLength, |piece|);
      message := message + piece;
    }

    /** One pass of the update loop: fill the buffer with `piece`, compress when it is full. */
    method Absorb(piece: seq<Byte>)
      requires Valid() && blockSize + |piece| <= 64
      modifies this, block
      ensures Valid() && block == old(block) && message == old(message) + piece
    {
      hide FoldBlocks, Compress, AddBits, BitLength;
      Buffer(piece);
      if blockSize == 64 {
        assert block[..] == block[..64];
        WholeBlock(message, block[..]);
        FoldOneMore(message[..|message| - 64], block[..]);
        state := Transform(state, block[..]);
        blockSize := 0;
      }
    }

    /** update(): however the data is cut into calls, the message is their concatenation. */
    method Update(data: seq<Byte>)
      requires Valid()
      modifies this, block
      ensures Valid() && block == old(block) && message == old(message) + data
    {
      hide FoldBlocks, Compress;
      var offset := 0;
      while offset < |data|
        invariant offset <= |data| && Valid() && block == old(block) && message == old(message) + data[..offset]
      {
        var available := 64 - blockSize;
        var count := if available < |data| - offset then available else |data| - offset;
        Glue(old(message), data, offset, count);
        Absorb(data[offset..offset + count]);
        offset := offset + count;
      }
      assert data[..offset] == data;
    }

    method FillZeros(from: nat, to: nat)
      requires block.Length == 64 && from <= to <= 64
      modifies block
      ensures block[..to] == old(block[..from]) + Zeros(to - from) && block[to..] == old(block[to..])
    {
      for i := from to to
        invariant block[..i] == old(block[..from]) + Zeros(i - from) && block[to..] == old(block[to..])
      {
        block[i] := 0;
      }
    }

    method WriteLength(bits: nat)
      requires block.Length == 64
      modifies block
      ensures block[..] == old(block[..56]) + Length64(bits)
    {
      hide ByteOf;
      for index := 0 to 8
        invariant block[..56] == old(block[..56])
        invariant forall j :: 0 <= j < index ==> block[63 - j] == ByteOf(bits, j)
      {
        block[63 - index] := ByteOf(bits, index);
      }
      forall j | 0 <= j < 8 ensures block[56 + j] == Length64(bits)[j] {
        assert block[63 - (7 - j)] == ByteOf(bits, 7 - j);
      }
      assert block[..] == block[..56] + block[56..];
    }

    /** The first half of final_hex: the 0x80 marker, and an extra block when the length no longer fits. */
    method AppendMarker() returns (ghost done: seq<Byte>)
      requires Valid()
      modifies this, block
      ensures block == old(block) && block.Length == 64 && blockSize <= 56
      ensures bitLength == old(bitLength) && |done| % 64 == 0 && state == FoldBlocks(done)
      ensures var last := block[..blockSize] + Zeros(56 - blockSize) + Length64(bitLength);
        PadWith(old(message), bitLength) == done + last
    {
      hide FoldBlocks, Compress, Length64, Zeros, PadWith;
      ghost var tail := message[|message| - blockSize..];
      done := message[..|message| - blockSize];
      PaddingSplits(message, bitLength);
      block[blockSize] := 0x80;
      blockSize := blockSize + 1;
      assert block[..blockSize] == tail + [0x80];
      if blockSize > 56 {
        FillZeros(blockSize, 64);
        assert block[..] == block[..64];
        FoldOneMore(done, block[..]);
        state := Transform(state, block[..]);
        done := done + block[..];
        blockSize := 0;
        assert block[..0] + Zeros(56) + Length64(bitLength) == Zeros(56) + Length64(bitLength);
      }
    }

    /** The rest of final_hex's hashing: zeros, the length, the last block. */
    method HashPadding()
      requires Valid()
      modifies this, block
      ensures block == old(block) && |PadWith(old(message), old(bitLength))| % 64 == 0
      ensures state == FoldBlocks(PadWith(old(message), old(bitLength)))
    {
      hide FoldBlocks, Compress, Length64, Zeros, PadWith, ZeroCount;
      PaddedLength(message, bitLength);
      ghost var done := AppendMarker();
      FillZeros(blockSize, 56);
      WriteLength(bitLength);
      FoldOneMore(done, block[..]);
      state := Transform(state, block[..]);
    }

    /** final_hex(): the digest of everything fed, as 64 lower-case hexadecimal digits. */
    method FinalHex() returns (hex: string)
      requires Valid()
      modifies this, block
      ensures block == old(block)
      ensures old(8 * |message|) < TWO64 ==> hex == HexDigest(old(message))
      ensures |PadWith(old(message), old(bitLength))| % 64 == 0 &&
        hex == Hex(FoldBlocks(PadWith(old(message), old(bitLength))))
    {
      hide FoldBlocks, Compress, Hex, PadWith, ZeroCount;
      HashPadding();
      hex := ToHex(state);
    }
  }

  /** The padded message is the whole blocks already hashed, then one or two last blocks. */
  lemma PaddingSplits(m: seq<Byte>, bits: nat)
    ensures var size := |m| % 64;
      var whole, tail := m[..|m| - size], m[|m| - size..];
      if size + 1 > 56 then
        PadWith(m, bits) == whole + (tail + [0x80] + Zeros(64 - size - 1)) + (Zeros(56) + Length64(bits))
      else
        PadWith(m, bits) == whole + (tail + [0x80] + Zeros(56 - (size + 1)) + Length64(bits))
  {
    hide Length64;
    var size := |m| % 64;
    assert m == m[..|m| - size] + m[|m| - size..];
    if size + 1 > 56 {
      assert ZeroCount(|m|) == (64 - size - 1) + 56;
      assert Zeros(ZeroCount(|m|)) == Zeros(64 - size - 1) + Zeros(56);
    } else {
      assert ZeroCount(|m|) == 56 - (size + 1);
    }
  }

  /** The hexadecimal loop of final_hex, word by word and nibble by nibble. */
  method ToHex(x: Hash) returns (hex: string)
    ensures hex == Hex(x) && |hex| == 64
  {
    hide HexDigit, Nibbles, HexWord;
    var words := [x.a, x.b, x.c, x.d, x.e, x.f, x.g, x.h];
    hex := "";
    for i := 0 to 8
      invariant hex == HexWords(words[..i]) && |hex| == 8 * i
    {
      var shown := OneWord(words[i]);
      assert words[..i + 1][..i] == words[..i];
      hex := hex + shown;
    }
    assert words[..8] == words;
  }

  method OneWord(w: Word) returns (shown: string)
    ensures shown == HexWord(w) && |shown| == 8
  {
    hide HexDigit, Nibbles;
    shown := "";
    assert |Nibbles(w)| == 8 by { NibbleCount(w); }
    for k := 0 to 8
      invariant |Nibbles(w)| == 8 && shown == HexWord(w)[..k]
    {
      shown := shown + [HexDigit(Nibbles(w)[k])];
    }
  }

  lemma NibbleCount(w: Word)
    ensures |Nibbles(w)| == 8
  {
  }

  // ---- hash_file --------------------------------------------------------------------------------------

  datatype HashError = NotRegular | CannotOpen | ReadFailed | SizeMismatch

  // What the path turns out to be when hash_file looks at it.
  datatype Source = Source(regular: bool, opens: bool, pieces: seq<seq<Byte>>, readFailed: bool)

  /** hash_file: the digest of a regular, readable file of the expected size, however the stream returns its bytes;
      every refusal has its own reason, looked for in this order. */
  method HashFile(source: Source, expectedSize: Option<nat>) returns (result: Result<string, HashError>)
    ensures !source.regular ==> result == Err(NotRegular)
    ensures source.regular && !source.opens ==> result == Err(CannotOpen)
    ensures source.regular && source.opens && source.readFailed ==> result == Err(ReadFailed)
    ensures source.regular && source.opens && !source.readFailed ==>
      var content := Concat(source.pieces);
      if expectedSize.Some? && expectedSize.value != |content| then result == Err(SizeMismatch)
      else result.Ok? && (8 * |content| < TWO64 ==> result.value == HexDigest(content))
  {
    hide Digest, Hex;
    if !source.regular {
      return Err(NotRegular);
    }
    if !source.opens {
      return Err(CannotOpen);
    }
    var pieces := source.pieces;
    var sha := new Hasher();
    var bytes := 0;
    for i := 0 to |pieces|
      invariant sha.Valid() && fresh(sha) && fresh(sha.block)
      invariant sha.message == Concat(pieces[..i]) && bytes == |sha.message|
    {
      assert pieces[..i + 1][..i] == pieces[..i];
      sha.Update(pieces[i]);
      bytes := bytes + |pieces[i]|;
    }
    assert pieces[..|pieces|] == pieces;
    if source.readFailed {
      return Err(ReadFailed);
    }
    if expectedSize.Some? && expectedSize.value != bytes {
      return Err(SizeMismatch);
    }
    var digest := sha.FinalHex();
    return Ok(digest);
  }
}
