/** The constants of SHA-256 are those of FIPS 180-4: sections 4.2.2 and 5.3.3 define them by the roots of the first
    primes. */
module Sha256Constants {
  import opened Sha256

  const TWO96: nat := 79228162514264337593543950336

  // ---- the first primes -----------------------------------------------------------------------------------

  ghost predicate IsPrime(p: nat)
  {
    p >= 2 && forall d {:trigger p % d} :: 2 <= d < p ==> p % d != 0
  }

  const PRIMES: seq<seq<nat>> := [
    [2, 3, 5, 7, 11, 13, 17, 19],
    [23, 29, 31, 37, 41, 43, 47, 53],
    [59, 61, 67, 71, 73, 79, 83, 89],
    [97, 101, 103, 107, 109, 113, 127, 131],
    [137, 139, 149, 151, 157, 163, 167, 173],
    [179, 181, 191, 193, 197, 199, 211, 223],
    [227, 229, 233, 239, 241, 251, 257, 263],
    [269, 271, 277, 281, 283, 293, 307, 311]
  ]

  function Prime(t: nat): nat
    requires t < 64
  {
    PRIMES[t / 8][t % 8]
  }

  predicate NoSmallFactor(n: nat)
  {
    n >= 2 && (n == 2 || n % 2 != 0) && (n == 3 || n % 3 != 0) && (n == 5 || n % 5 != 0) &&
    (n == 7 || n % 7 != 0) && (n == 11 || n % 11 != 0) && (n == 13 || n % 13 != 0) && (n == 17 || n % 17 != 0)
  }

  lemma TrialDivision(n: nat)
    requires n < 312
    ensures IsPrime(n) <==> NoSmallFactor(n)
  {
    if NoSmallFactor(n) {
      forall d {:trigger n % d} | 2 <= d < n ensures n % d != 0 {
        if n % d == 0 {
          var e := n / d;
          assert n == d * e;
          SmallerFactor(n, d, e);
        }
      }
    }
  }

  /** One of two factors of a number below 312 is below 18, and so has a prime factor below 18. */
  lemma SmallerFactor(n: nat, d: nat, e: nat)
    requires n < 312 && n == d * e && 2 <= d < n
    ensures !NoSmallFactor(n)
  {
    hide NoSmallFactor;
    if d >= 18 && e >= 18 {
      Larger(d, e);
    } else if d < 18 {
      Multiple(d, e);
    } else {
      Multiple(e, d);
    }
  }

  lemma Larger(d: nat, e: nat)
    requires d >= 18 && e >= 18
    ensures d * e >= 324
  {
  }

  lemma Multiple(m: nat, x: nat)
    requires 2 <= m < 18 && x >= 2
    ensures !NoSmallFactor(m * x)
  {
    var q := if m % 2 == 0 then 2 else if m % 3 == 0 then 3 else if m % 5 == 0 then 5 else m;
    var z := m / q * x;
    Regroup(q, m / q, x);
    RemainderOfProduct(q, z);
    HasFactor(q * z, q);
  }

  lemma HasFactor(n: nat, q: nat)
    requires q in {2, 3, 5, 7, 11, 13, 17} && n % q == 0 && n > q
    ensures !NoSmallFactor(n)
  {
  }

  lemma {:induction false} RemainderOfProduct(q: nat, z: nat)
    requires q in {2, 3, 5, 7, 11, 13, 17}
    ensures (q * z) % q == 0
    decreases z
  {
    if z > 0 {
      RemainderOfProduct(q, z - 1);
      assert q * z == q * (z - 1) + q;
      OneMore(q, q * (z - 1));
    }
  }

  lemma OneMore(q: nat, x: nat)
    requires q in {2, 3, 5, 7, 11, 13, 17} && x % q == 0
    ensures (x + q) % q == 0
  {
  }

  lemma Regroup(q: nat, k: nat, x: nat)
    requires q > 0 && k > 0 && x >= 2
    ensures q * k * x == q * (k * x) > q
  {
    assert k * x >= 2;
  }

  lemma Entries0()
    ensures K(0) == 0x428a2f98 && K(1) == 0x71374491 && K(2) == 0xb5c0fbcf && K(3) == 0xe9b5dba5 &&
      K(4) == 0x3956c25b && K(5) == 0x59f111f1 && K(6) == 0x923f82a4 && K(7) == 0xab1c5ed5 && K(8) == 0xd807aa98 &&
      K(9) == 0x12835b01 && K(10) == 0x243185be && K(11) == 0x550c7dc3 && K(12) == 0x72be5d74 &&
      K(13) == 0x80deb1fe && K(14) == 0x9bdc06a7 && K(15) == 0xc19bf174
    ensures Prime(0) == 2 && Prime(1) == 3 && Prime(2) == 5 && Prime(3) == 7 && Prime(4) == 11 && Prime(5) == 13 &&
      Prime(6) == 17 && Prime(7) == 19 && Prime(8) == 23 && Prime(9) == 29 && Prime(10) == 31 && Prime(11) == 37 &&
      Prime(12) == 41 && Prime(13) == 43 && Prime(14) == 47 && Prime(15) == 53
  {
  }

  lemma Entries16()
    ensures K(16) == 0xe49b69c1 && K(17) == 0xefbe4786 && K(18) == 0x0fc19dc6 && K(19) == 0x240ca1cc &&
      K(20) == 0x2de92c6f && K(21) == 0x4a7484aa && K(22) == 0x5cb0a9dc && K(23) == 0x76f988da &&
      K(24) == 0x983e5152 && K(25) == 0xa831c66d && K(26) == 0xb00327c8 && K(27) == 0xbf597fc7 &&
      K(28) == 0xc6e00bf3 && K(29) == 0xd5a79147 && K(30) == 0x06ca6351 && K(31) == 0x14292967
    ensures Prime(16) == 59 && Prime(17) == 61 && Prime(18) == 67 && Prime(19) == 71 && Prime(20) == 73 &&
      Prime(21) == 79 && Prime(22) == 83 && Prime(23) == 89 && Prime(24) == 97 && Prime(25) == 101 &&
      Prime(26) == 103 && Prime(27) == 107 && Prime(28) == 109 && Prime(29) == 113 && Prime(30) == 127 &&
      Prime(31) == 131
  {
  }

  lemma Entries32()
    ensures K(32) == 0x27b70a85 && K(33) == 0x2e1b2138 && K(34) == 0x4d2c6dfc && K(35) == 0x53380d13 &&
      K(36) == 0x650a7354 && K(37) == 0x766a0abb && K(38) == 0x81c2c92e && K(39) == 0x92722c85 &&
      K(40) == 0xa2bfe8a1 && K(41) == 0xa81a664b && K(42) == 0xc24b8b70 && K(43) == 0xc76c51a3 &&
      K(44) == 0xd192e819 && K(45) == 0xd6990624 && K(46) == 0xf40e3585 && K(47) == 0x106aa070
    ensures Prime(32) == 137 && Prime(33) == 139 && Prime(34) == 149 && Prime(35) == 151 && Prime(36) == 157 &&
      Prime(37) == 163 && Prime(38) == 167 && Prime(39) == 173 && Prime(40) == 179 && Prime(41) == 181 &&
      Prime(42) == 191 && Prime(43) == 193 && Prime(44) == 197 && Prime(45) == 199 && Prime(46) == 211 &&
      Prime(47) == 223
  {
  }

  lemma Entries48()
    ensures K(48) == 0x19a4c116 && K(49) == 0x1e376c08 && K(50) == 0x2748774c && K(51) == 0x34b0bcb5 &&
      K(52) == 0x391c0cb3 && K(53) == 0x4ed8aa4a && K(54) == 0x5b9cca4f && K(55) == 0x682e6ff3 &&
      K(56) == 0x748f82ee && K(57) == 0x78a5636f && K(58) == 0x84c87814 && K(59) == 0x8cc70208 &&
      K(60) == 0x90befffa && K(61) == 0xa4506ceb && K(62) == 0xbef9a3f7 && K(63) == 0xc67178f2
    ensures Prime(48) == 227 && Prime(49) == 229 && Prime(50) == 233 && Prime(51) == 239 && Prime(52) == 241 &&
      Prime(53) == 251 && Prime(54) == 257 && Prime(55) == 263 && Prime(56) == 269 && Prime(57) == 271 &&
      Prime(58) == 277 && Prime(59) == 281 && Prime(60) == 283 && Prime(61) == 293 && Prime(62) == 307 &&
      Prime(63) == 311
  {
  }

  /** What lies between two neighbours of the list has a small factor. */
  ghost predicate Next(t: nat)
    requires t < 63
  {
    NoSmallFactor(Prime(t)) && Prime(t) < Prime(t + 1) &&
    forall n :: Prime(t) < n < Prime(t + 1) ==> !NoSmallFactor(n)
  }

  lemma Gap(t: nat, p: nat, q: nat)
    requires t < 63 && Prime(t) == p < Prime(t + 1) == q <= p + 14 && NoSmallFactor(p) && (p == 2 ==> q == 3)
    requires (q <= p + 2 || !NoSmallFactor(p + 2)) && (q <= p + 4 || !NoSmallFactor(p + 4))
    requires (q <= p + 6 || !NoSmallFactor(p + 6)) && (q <= p + 8 || !NoSmallFactor(p + 8))
    requires (q <= p + 10 || !NoSmallFactor(p + 10)) && (q <= p + 12 || !NoSmallFactor(p + 12))
    ensures Next(t)
  {
    hide Prime, NoSmallFactor;
    Odd(p);
    forall n | p < n < q ensures !NoSmallFactor(n) {
      Even(n);
      OddBetween(p, n);
    }
  }

  lemma OddBetween(p: nat, n: nat)
    requires p < n < p + 14
    ensures p % 2 == 1 && n % 2 == 1 ==>
      n == p + 2 || n == p + 4 || n == p + 6 || n == p + 8 || n == p + 10 || n == p + 12
  {
  }

  lemma Odd(p: nat)
    requires NoSmallFactor(p)
    ensures p == 2 || (p > 2 && p % 2 == 1)
  {
  }

  lemma Even(n: nat)
    requires n > 2
    ensures n % 2 == 0 ==> !NoSmallFactor(n)
  {
  }

  lemma Gaps0(t: nat)
    requires 0 <= t < 4
    ensures Next(t)
  {
    hide Prime, Next;
    Entries0();
    Gap(0, 2, 3);
    Gap(1, 3, 5);
    Gap(2, 5, 7);
    Gap(3, 7, 11);
  }

  lemma Gaps4(t: nat)
    requires 4 <= t < 8
    ensures Next(t)
  {
    hide Prime, Next;
    Entries0();
    Gap(4, 11, 13);
    Gap(5, 13, 17);
    Gap(6, 17, 19);
    Gap(7, 19, 23);
  }

  lemma Gaps8(t: nat)
    requires 8 <= t < 12
    ensures Next(t)
  {
    hide Prime, Next;
    Entries0();
    Gap(8, 23, 29);
    Gap(9, 29, 31);
    Gap(10, 31, 37);
    Gap(11, 37, 41);
  }

  lemma Gaps12(t: nat)
    requires 12 <= t < 16
    ensures Next(t)
  {
    hide Prime, Next;
    Entries0();
    Entries16();
    Gap(12, 41, 43);
    Gap(13, 43, 47);
    Gap(14, 47, 53);
    Gap(15, 53, 59);
  }

  lemma Gaps16(t: nat)
    requires 16 <= t < 20
    ensures Next(t)
  {
    hide Prime, Next;
    Entries16();
    Gap(16, 59, 61);
    Gap(17, 61, 67);
    Gap(18, 67, 71);
    Gap(19, 71, 73);
  }

  lemma Gaps20(t: nat)
    requires 20 <= t < 24
    ensures Next(t)
  {
    hide Prime, Next;
    Entries16();
    Gap(20, 73, 79);
    Gap(21, 79, 83);
    Gap(22, 83, 89);
    Gap(23, 89, 97);
  }

  lemma Gaps24(t: nat)
    requires 24 <= t < 28
    ensures Next(t)
  {
    hide Prime, Next;
    Entries16();
    Gap(24, 97, 101);
    Gap(25, 101, 103);
    Gap(26, 103, 107);
    Gap(27, 107, 109);
  }

  lemma Gaps28(t: nat)
    requires 28 <= t < 32
    ensures Next(t)
  {
    hide Prime, Next;
    Entries16();
    Entries32();
    Gap(28, 109, 113);
    Gap(29, 113, 127);
    Gap(30, 127, 131);
    Gap(31, 131, 137);
  }

  lemma Gaps32(t: nat)
    requires 32 <= t < 36
    ensures Next(t)
  {
    hide Prime, Next;
    Entries32();
    Gap(32, 137, 139);
    Gap(33, 139, 149);
    Gap(34, 149, 151);
    Gap(35, 151, 157);
  }

  lemma Gaps36(t: nat)
    requires 36 <= t < 40
    ensures Next(t)
  {
    hide Prime, Next;
    Entries32();
    Gap(36, 157, 163);
    Gap(37, 163, 167);
    Gap(38, 167, 173);
    Gap(39, 173, 179);
  }

  lemma Gaps40(t: nat)
    requires 40 <= t < 44
    ensures Next(t)
  {
    hide Prime, Next;
    Entries32();
    Gap(40, 179, 181);
    Gap(41, 181, 191);
    Gap(42, 191, 193);
    Gap(43, 193, 197);
  }

  lemma Gaps44(t: nat)
    requires 44 <= t < 48
    ensures Next(t)
  {
    hide Prime, Next;
    Entries32();
    Entries48();
    Gap(44, 197, 199);
    Gap(45, 199, 211);
    Gap(46, 211, 223);
    Gap(47, 223, 227);
  }

  lemma Gaps48(t: nat)
    requires 48 <= t < 52
    ensures Next(t)
  {
    hide Prime, Next;
    Entries48();
    Gap(48, 227, 229);
    Gap(49, 229, 233);
    Gap(50, 233, 239);
    Gap(51, 239, 241);
  }

  lemma Gaps52(t: nat)
    requires 52 <= t < 56
    ensures Next(t)
  {
    hide Prime, Next;
    Entries48();
    Gap(52, 241, 251);
    Gap(53, 251, 257);
    Gap(54, 257, 263);
    Gap(55, 263, 269);
  }

  lemma Gaps56(t: nat)
    requires 56 <= t < 60
    ensures Next(t)
  {
    hide Prime, Next;
    Entries48();
    Gap(56, 269, 271);
    Gap(57, 271, 277);
    Gap(58, 277, 281);
    Gap(59, 281, 283);
  }

  lemma Gaps60(t: nat)
    requires 60 <= t < 63
    ensures Next(t)
  {
    hide Prime, Next;
    Entries48();
    Gap(60, 283, 293);
    Gap(61, 293, 307);
    Gap(62, 307, 311);
  }

  lemma Neighbours(t: nat)
    requires t < 63
    ensures Next(t)
  {
    hide Next;
    if t < 4 {
      Gaps0(t);
    } else if t < 8 {
      Gaps4(t);
    } else if t < 12 {
      Gaps8(t);
    } else if t < 16 {
      Gaps12(t);
    } else if t < 20 {
      Gaps16(t);
    } else if t < 24 {
      Gaps20(t);
    } else if t < 28 {
      Gaps24(t);
    } else if t < 32 {
      Gaps28(t);
    } else if t < 36 {
      Gaps32(t);
    } else if t < 40 {
      Gaps36(t);
    } else if t < 44 {
      Gaps40(t);
    } else if t < 48 {
      Gaps44(t);
    } else if t < 52 {
      Gaps48(t);
    } else if t < 56 {
      Gaps52(t);
    } else if t < 60 {
      Gaps56(t);
    } else {
      Gaps60(t);
    }
  }

  lemma LastPrime()
    ensures Prime(0) == 2 && Prime(63) == 311 && NoSmallFactor(311)
  {
  }

  lemma {:induction false} PrimesAscend(i: nat, j: nat)
    requires i < j < 64
    ensures Prime(i) < Prime(j) <= 311
    decreases 64 - i
  {
    hide Prime;
    Neighbours(i);
    LastPrime();
    if i + 1 < j {
      PrimesAscend(i + 1, j);
    } else if j < 63 {
      PrimesAscend(j, 63);
    }
  }

  lemma {:induction false} Listed(n: nat, t: nat)
    requires t < 64 && 2 <= n <= Prime(t) && NoSmallFactor(n)
    ensures exists u :: 0 <= u <= t && Prime(u) == n
  {
    hide Prime, NoSmallFactor;
    LastPrime();
    if n != Prime(t) {
      Neighbours(t - 1);
      Listed(n, t - 1);
    }
  }

  /** The list holds the primes below 312 and nothing else. */
  lemma ListIsExact(n: nat)
    ensures (exists t :: 0 <= t < 64 && Prime(t) == n) <==> n < 312 && IsPrime(n)
  {
    hide Prime, NoSmallFactor, IsPrime;
    LastPrime();
    if n < 312 && IsPrime(n) {
      TrialDivision(n);
      Small(n);
      Listed(n, 63);
    }
    if t :| 0 <= t < 64 && Prime(t) == n {
      if t < 63 {
        PrimesAscend(t, 63);
        Neighbours(t);
      }
      TrialDivision(n);
    }
  }

  lemma Small(n: nat)
    requires IsPrime(n)
    ensures n >= 2
  {
  }

  ghost function PrimesBelow(p: nat): set<nat>
  {
    set n | 0 <= n < p && IsPrime(n)
  }

  lemma {:induction false} CountBelow(t: nat)
    requires t < 64
    ensures IsPrime(Prime(t)) && |PrimesBelow(Prime(t))| == t
  {
    hide Prime, IsPrime, NoSmallFactor;
    ListIsExact(Prime(t));
    LastPrime();
    if t == 0 {
      forall n | IsPrime(n) ensures n >= 2 {
        Small(n);
      }
      assert PrimesBelow(2) == {};
    } else {
      CountBelow(t - 1);
      Neighbours(t - 1);
      var p, q := Prime(t - 1), Prime(t);
      forall n | p < n < q ensures !IsPrime(n) {
        if t < 63 {
          PrimesAscend(t, 63);
        }
        TrialDivision(n);
      }
      assert PrimesBelow(q) == PrimesBelow(p) + {p};
    }
  }

  /** A prime with t primes below it is number t of the list. */
  lemma PrimeOfRank(p: nat, t: nat)
    requires t < 64 && IsPrime(p) && |PrimesBelow(p)| == t
    ensures p == Prime(t)
  {
    hide Prime, IsPrime, NoSmallFactor;
    CountBelow(t);
    var q := Prime(t);
    if p > q {
      assert PrimesBelow(q) + {q} <= PrimesBelow(p);
      Smaller(PrimesBelow(q) + {q}, PrimesBelow(p));
    } else if p < q {
      assert PrimesBelow(p) + {p} <= PrimesBelow(q);
      Smaller(PrimesBelow(p) + {p}, PrimesBelow(q));
    }
  }

  lemma Smaller(a: set<nat>, b: set<nat>)
    requires a <= b
    ensures |a| <= |b|
  {
    assert b == a + (b - a);
  }

  // ---- roots ----------------------------------------------------------------------------------------------

  /** The first 32 bits of the fractional part of the cube root of p. */
  ghost predicate IsCubeRoot(k: Word, p: nat)
  {
    exists n: nat :: n * n * n <= p * TWO96 < (n + 1) * (n + 1) * (n + 1) && k as int == n % 0x1_0000_0000
  }

  lemma CubeRoot(t: nat, k: Word, p: nat, n: nat)
    requires t < 64 && Prime(t) == p && K(t) == k && k as int == n % 0x1_0000_0000
    requires n * n * n <= p * TWO96 < (n + 1) * (n + 1) * (n + 1)
    ensures IsCubeRoot(K(t), Prime(t))
  {
    hide K, Prime;
  }

  lemma Roots0(t: nat)
    requires 0 <= t < 8
    ensures IsCubeRoot(K(t), Prime(t))
  {
    hide K, Prime, IsCubeRoot;
    Entries0();
    CubeRoot(0, 0x428a2f98, 2, 5411319704);
    CubeRoot(1, 0x71374491, 3, 6194414737);
    CubeRoot(2, 0xb5c0fbcf, 5, 7344290767);
    CubeRoot(3, 0xe9b5dba5, 7, 8215976869);
    CubeRoot(4, 0x3956c25b, 11, 9551921755);
    CubeRoot(5, 0x59f111f1, 13, 10098905585);
    CubeRoot(6, 0x923f82a4, 17, 11043570340);
    CubeRoot(7, 0xab1c5ed5, 19, 11460697813);
  }

  lemma Roots8(t: nat)
    requires 8 <= t < 16
    ensures IsCubeRoot(K(t), Prime(t))
  {
    hide K, Prime, IsCubeRoot;
    Entries0();
    CubeRoot(8, 0xd807aa98, 23, 12214315672);
    CubeRoot(9, 0x12835b01, 29, 13195500289);
    CubeRoot(10, 0x243185be, 31, 13492127166);
    CubeRoot(11, 0x550c7dc3, 37, 14311783875);
    CubeRoot(12, 0x72be5d74, 41, 14809980276);
    CubeRoot(13, 0x80deb1fe, 43, 15046980094);
    CubeRoot(14, 0x9bdc06a7, 47, 15499789991);
    CubeRoot(15, 0xc19bf174, 53, 16133124468);
  }

  lemma Roots16(t: nat)
    requires 16 <= t < 24
    ensures IsCubeRoot(K(t), Prime(t))
  {
    hide K, Prime, IsCubeRoot;
    Entries16();
    CubeRoot(16, 0xe49b69c1, 59, 16720292289);
    CubeRoot(17, 0xefbe4786, 61, 16907126662);
    CubeRoot(18, 0x0fc19dc6, 67, 17444216262);
    CubeRoot(19, 0x240ca1cc, 71, 17784676812);
    CubeRoot(20, 0x2de92c6f, 73, 17950125167);
    CubeRoot(21, 0x4a7484aa, 79, 18429019306);
    CubeRoot(22, 0x5cb0a9dc, 83, 18734950876);
    CubeRoot(23, 0x76f988da, 89, 19175934170);
  }

  lemma Roots24(t: nat)
    requires 24 <= t < 32
    ensures IsCubeRoot(K(t), Prime(t))
  {
    hide K, Prime, IsCubeRoot;
    Entries16();
    CubeRoot(24, 0x983e5152, 97, 19734090066);
    CubeRoot(25, 0xa831c66d, 101, 20001703533);
    CubeRoot(26, 0xb00327c8, 103, 20132865992);
    CubeRoot(27, 0xbf597fc7, 107, 20390182855);
    CubeRoot(28, 0xc6e00bf3, 109, 20516441075);
    CubeRoot(29, 0xd5a79147, 113, 20764397895);
    CubeRoot(30, 0x06ca6351, 127, 21588763473);
    CubeRoot(31, 0x14292967, 131, 21813078375);
  }

  lemma Roots32(t: nat)
    requires 32 <= t < 40
    ensures IsCubeRoot(K(t), Prime(t))
  {
    hide K, Prime, IsCubeRoot;
    Entries32();
    CubeRoot(32, 0x27b70a85, 137, 22141143685);
    CubeRoot(33, 0x2e1b2138, 139, 22248366392);
    CubeRoot(34, 0x4d2c6dfc, 149, 22769593852);
    CubeRoot(35, 0x53380d13, 151, 22871018771);
    CubeRoot(36, 0x650a7354, 157, 23170020180);
    CubeRoot(37, 0x766a0abb, 163, 23461497531);
    CubeRoot(38, 0x81c2c92e, 167, 23651862830);
    CubeRoot(39, 0x92722c85, 173, 23931792517);
  }

  lemma Roots40(t: nat)
    requires 40 <= t < 48
    ensures IsCubeRoot(K(t), Prime(t))
  {
    hide K, Prime, IsCubeRoot;
    Entries32();
    CubeRoot(40, 0xa2bfe8a1, 179, 24205322401);
    CubeRoot(41, 0xa81a664b, 181, 24295138891);
    CubeRoot(42, 0xc24b8b70, 191, 24734567280);
    CubeRoot(43, 0xc76c51a3, 193, 24820601251);
    CubeRoot(44, 0xd192e819, 197, 24990902297);
    CubeRoot(45, 0xd6990624, 199, 25075189284);
    CubeRoot(46, 0xf40e3585, 211, 25569408389);
    CubeRoot(47, 0x106aa070, 223, 26045227120);
  }

  lemma Roots48(t: nat)
    requires 48 <= t < 56
    ensures IsCubeRoot(K(t), Prime(t))
  {
    hide K, Prime, IsCubeRoot;
    Entries48();
    CubeRoot(48, 0x19a4c116, 227, 26200031510);
    CubeRoot(49, 0x1e376c08, 229, 26276752392);
    CubeRoot(50, 0x2748774c, 233, 26428864332);
    CubeRoot(51, 0x34b0bcb5, 239, 26653801653);
    CubeRoot(52, 0x391c0cb3, 241, 26727943347);
    CubeRoot(53, 0x4ed8aa4a, 251, 27092625994);
    CubeRoot(54, 0x5b9cca4f, 257, 27306805839);
    CubeRoot(55, 0x682e6ff3, 263, 27517677555);
  }

  lemma Roots56(t: nat)
    requires 56 <= t < 64
    ensures IsCubeRoot(K(t), Prime(t))
  {
    hide K, Prime, IsCubeRoot;
    Entries48();
    CubeRoot(56, 0x748f82ee, 269, 27725365998);
    CubeRoot(57, 0x78a5636f, 271, 27793908591);
    CubeRoot(58, 0x84c87814, 277, 27997534228);
    CubeRoot(59, 0x8cc70208, 281, 28131656200);
    CubeRoot(60, 0x90befffa, 283, 28198240250);
    CubeRoot(61, 0xa4506ceb, 293, 28526537963);
    CubeRoot(62, 0xbef9a3f7, 307, 28973835255);
    CubeRoot(63, 0xc67178f2, 311, 29099129074);
  }

  /** The round constants are the ones of the standard: word t comes from the prime that has t primes below it. */
  lemma RoundConstantsAreStandard(t: nat, p: nat)
    requires t < 64 && IsPrime(p) && |PrimesBelow(p)| == t
    ensures IsCubeRoot(K(t), p)
  {
    hide Prime, IsPrime, K, IsCubeRoot;
    PrimeOfRank(p, t);
    if t < 8 {
      Roots0(t);
    } else if t < 16 {
      Roots8(t);
    } else if t < 24 {
      Roots16(t);
    } else if t < 32 {
      Roots24(t);
    } else if t < 40 {
      Roots32(t);
    } else if t < 48 {
      Roots40(t);
    } else if t < 56 {
      Roots48(t);
    } else {
      Roots56(t);
    }
  }

  /** The first 32 bits of the fractional part of the square root of p. */
  ghost predicate IsSquareRoot(k: Word, p: nat)
  {
    exists n: nat :: n * n <= p * TWO64 < (n + 1) * (n + 1) && k as int == n % 0x1_0000_0000
  }

  lemma SquareRoot(k: Word, p: nat, n: nat)
    requires k as int == n % 0x1_0000_0000 && n * n <= p * TWO64 < (n + 1) * (n + 1)
    ensures IsSquareRoot(k, p)
  {
  }

  /** The initial value too: word t comes from the square root of the prime that has t primes below it. */
  lemma InitialValueIsStandard(t: nat, p: nat)
    requires t < 8 && IsPrime(p) && |PrimesBelow(p)| == t
    ensures IsSquareRoot([H0.a, H0.b, H0.c, H0.d, H0.e, H0.f, H0.g, H0.h][t], p)
  {
    hide IsPrime, IsSquareRoot, Prime;
    PrimeOfRank(p, t);
    Entries0();
    SquareRoot(H0.a, 2, 6074000999);
    SquareRoot(H0.b, 3, 7439101573);
    SquareRoot(H0.c, 5, 9603838834);
    SquareRoot(H0.d, 7, 11363415354);
    SquareRoot(H0.e, 11, 14244795007);
    SquareRoot(H0.f, 13, 15485724812);
    SquareRoot(H0.g, 17, 17708603819);
    SquareRoot(H0.h, 19, 18721328409);
  }
}
