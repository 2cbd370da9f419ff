/** Where the constants of SHA-224 come from, roots of the first sixty-four primes, and what its functions do. */
module Sha224Constants {
  import Bytes
  import opened Sha224Spec

  const TWO32 := 0x1_0000_0000

  const PRIMES0: seq<nat> := [
    2, 3, 5, 7, 11, 13, 17, 19, 23, 29, 31, 37, 41, 43, 47, 53
  ]

  const PRIMES1: seq<nat> := [
    59, 61, 67, 71, 73, 79, 83, 89, 97, 101, 103, 107, 109, 113, 127, 131
  ]

  const PRIMES2: seq<nat> := [
    137, 139, 149, 151, 157, 163, 167, 173, 179, 181, 191, 193, 197, 199, 211, 223
  ]

  const PRIMES3: seq<nat> := [
    227, 229, 233, 239, 241, 251, 257, 263, 269, 271, 277, 281, 283, 293, 307, 311
  ]

  const PRIMES: seq<nat> := PRIMES0 + PRIMES1 + PRIMES2 + PRIMES3

  // ---- The primes ----

  ghost predicate IsPrime(n: nat) {
    n >= 2 && forall d :: 2 <= d < n ==> n % d != 0
  }

  /** None of the primes up to 17 divides n, apart from n itself. */
  predicate Indivisible(n: nat) {
    && (n % 2 != 0 || n == 2) && (n % 3 != 0 || n == 3) && (n % 5 != 0 || n == 5) && (n % 7 != 0 || n == 7)
    && (n % 11 != 0 || n == 11) && (n % 13 != 0 || n == 13) && (n % 17 != 0 || n == 17)
  }

  lemma Multiple(f: nat, k: nat)
    requires f > 0
    ensures f * k % f == 0
  {
    Bytes.DivUnique(f * k, f, k, 0);
  }

  lemma Divides(n: nat, d: nat, f: nat, g: nat)
    requires f > 0 && n == d * (f * g)
    ensures n % f == 0
  {
    assert d * (f * g) == f * (d * g);
    Multiple(f, d * g);
  }

  /** Every number from 2 to 17 has one of those primes as a factor. */
  lemma SmallFactor(e: nat) returns (f: nat)
    requires 2 <= e <= 17
    ensures f in {2, 3, 5, 7, 11, 13, 17} && e == f * (e / f)
  {
    f := if e % 2 == 0 then 2 else if e % 3 == 0 then 3 else if e % 5 == 0 then 5 else if e % 7 == 0 then 7 else e;
  }

  lemma SmallCofactor(n: nat, d: nat) returns (e: nat)
    requires 2 <= d < n < 324 && n % d == 0
    ensures 2 <= e <= 17 && n % e == 0 && e < n
  {
    e := n / d;
    assert n == d * e;
    if e > 17 {
      SmallProduct(d, e);
      e := d;
    } else {
      Multiple(e, d);
      assert d * e == e * d;
      assert e != n;
    }
  }

  lemma SmallProduct(d: nat, e: nat)
    requires d * e < 324 && e >= 18
    ensures d <= 17
  {
    assert d * e >= d * 18;
  }

  lemma IndivisibleHasNoDivisor(n: nat, d: nat)
    requires n < 324 && Indivisible(n) && 2 <= d < n
    ensures n % d != 0
  {
    if n % d == 0 {
      var e := SmallCofactor(n, d);
      var f := SmallFactor(e);
      Divides(n, n / e, f, e / f);
      FactorIsSmaller(e, f);
    }
  }

  lemma FactorIsSmaller(e: nat, f: nat)
    requires e >= 1 && f >= 1 && e == f * (e / f)
    ensures f <= e
  {
  }

  lemma PrimeIsIndivisible(n: nat)
    requires IsPrime(n)
    ensures Indivisible(n)
  {
  }

  /** Below 18 * 18 that decides whether n is prime. */
  lemma IndivisibleIsPrime(n: nat)
    requires 2 <= n < 324
    ensures Indivisible(n) <==> IsPrime(n)
  {
    if Indivisible(n) {
      forall d | 2 <= d < n
        ensures n % d != 0
      {
        IndivisibleHasNoDivisor(n, d);
      }
    } else if IsPrime(n) {
      PrimeIsIndivisible(n);
    }
  }

  lemma Primes0(n: nat)
    requires 2 <= n <= 19 && Indivisible(n)
    ensures n in {2, 3, 5, 7, 11, 13, 17, 19}
  {
  }

  lemma Primes1(n: nat)
    requires 20 <= n <= 53 && Indivisible(n)
    ensures n in {23, 29, 31, 37, 41, 43, 47, 53}
  {
  }

  lemma Primes2(n: nat)
    requires 54 <= n <= 89 && Indivisible(n)
    ensures n in {59, 61, 67, 71, 73, 79, 83, 89}
  {
  }

  lemma Primes3a(n: nat)
    requires 90 <= n <= 107 && Indivisible(n)
    ensures n in {97, 101, 103, 107}
  {
  }

  lemma Primes3b(n: nat)
    requires 108 <= n <= 131 && Indivisible(n)
    ensures n in {109, 113, 127, 131}
  {
  }

  lemma Primes4a(n: nat)
    requires 132 <= n <= 151 && Indivisible(n)
    ensures n in {137, 139, 149, 151}
  {
  }

  lemma Primes4b(n: nat)
    requires 152 <= n <= 173 && Indivisible(n)
    ensures n in {157, 163, 167, 173}
  {
  }

  lemma Primes5a(n: nat)
    requires 174 <= n <= 193 && Indivisible(n)
    ensures n in {179, 181, 191, 193}
  {
  }

  lemma Primes5b(n: nat)
    requires 194 <= n <= 223 && Indivisible(n)
    ensures n in {197, 199, 211, 223}
  {
  }

  lemma Primes6a(n: nat)
    requires 224 <= n <= 239 && Indivisible(n)
    ensures n in {227, 229, 233, 239}
  {
  }

  lemma Primes6b(n: nat)
    requires 240 <= n <= 263 && Indivisible(n)
    ensures n in {241, 251, 257, 263}
  {
  }

  lemma Primes7a(n: nat)
    requires 264 <= n <= 281 && Indivisible(n)
    ensures n in {269, 271, 277, 281}
  {
  }

  lemma Primes7b(n: nat)
    requires 282 <= n <= 311 && Indivisible(n)
    ensures n in {283, 293, 307, 311}
  {
  }

  lemma Row0()
    ensures |PRIMES| == 64
    ensures PRIMES[0] == 2
    ensures PRIMES[1] == 3
    ensures PRIMES[2] == 5
    ensures PRIMES[3] == 7
    ensures PRIMES[4] == 11
    ensures PRIMES[5] == 13
    ensures PRIMES[6] == 17
    ensures PRIMES[7] == 19
  {
  }

  lemma Row1()
    ensures |PRIMES| == 64
    ensures PRIMES[8] == 23
    ensures PRIMES[9] == 29
    ensures PRIMES[10] == 31
    ensures PRIMES[11] == 37
    ensures PRIMES[12] == 41
    ensures PRIMES[13] == 43
    ensures PRIMES[14] == 47
    ensures PRIMES[15] == 53
  {
  }

  lemma Row2()
    ensures |PRIMES| == 64
    ensures PRIMES[16] == 59
    ensures PRIMES[17] == 61
    ensures PRIMES[18] == 67
    ensures PRIMES[19] == 71
    ensures PRIMES[20] == 73
    ensures PRIMES[21] == 79
    ensures PRIMES[22] == 83
    ensures PRIMES[23] == 89
  {
  }

  lemma Row3()
    ensures |PRIMES| == 64
    ensures PRIMES[24] == 97
    ensures PRIMES[25] == 101
    ensures PRIMES[26] == 103
    ensures PRIMES[27] == 107
    ensures PRIMES[28] == 109
    ensures PRIMES[29] == 113
    ensures PRIMES[30] == 127
    ensures PRIMES[31] == 131
  {
  }

  lemma Row4()
    ensures |PRIMES| == 64
    ensures PRIMES[32] == 137
    ensures PRIMES[33] == 139
    ensures PRIMES[34] == 149
    ensures PRIMES[35] == 151
    ensures PRIMES[36] == 157
    ensures PRIMES[37] == 163
    ensures PRIMES[38] == 167
    ensures PRIMES[39] == 173
  {
  }

  lemma Row5()
    ensures |PRIMES| == 64
    ensures PRIMES[40] == 179
    ensures PRIMES[41] == 181
    ensures PRIMES[42] == 191
    ensures PRIMES[43] == 193
    ensures PRIMES[44] == 197
    ensures PRIMES[45] == 199
    ensures PRIMES[46] == 211
    ensures PRIMES[47] == 223
  {
  }

  lemma Row6()
    ensures |PRIMES| == 64
    ensures PRIMES[48] == 227
    ensures PRIMES[49] == 229
    ensures PRIMES[50] == 233
    ensures PRIMES[51] == 239
    ensures PRIMES[52] == 241
    ensures PRIMES[53] == 251
    ensures PRIMES[54] == 257
    ensures PRIMES[55] == 263
  {
  }

  lemma Row7()
    ensures |PRIMES| == 64
    ensures PRIMES[56] == 269
    ensures PRIMES[57] == 271
    ensures PRIMES[58] == 277
    ensures PRIMES[59] == 281
    ensures PRIMES[60] == 283
    ensures PRIMES[61] == 293
    ensures PRIMES[62] == 307
    ensures PRIMES[63] == 311
  {
  }

  lemma PrimeIsListed(n: nat)
    requires n <= 311 && IsPrime(n)
    ensures n in PRIMES
  {
    IndivisibleIsPrime(n);
    if n <= 19 {
      Primes0(n);
      Row0();
    } else if n <= 53 {
      Primes1(n);
      Row1();
    } else if n <= 89 {
      Primes2(n);
      Row2();
    } else if n <= 131 {
      if n <= 107 {
        Primes3a(n);
      } else {
        Primes3b(n);
      }
      Row3();
    } else if n <= 173 {
      if n <= 151 {
        Primes4a(n);
      } else {
        Primes4b(n);
      }
      Row4();
    } else if n <= 223 {
      if n <= 193 {
        Primes5a(n);
      } else {
        Primes5b(n);
      }
      Row5();
    } else if n <= 263 {
      if n <= 239 {
        Primes6a(n);
      } else {
        Primes6b(n);
      }
      Row6();
    } else {
      if n <= 281 {
        Primes7a(n);
      } else {
        Primes7b(n);
      }
      Row7();
    }
  }

  lemma Listed0(i: nat)
    requires 0 <= i < 8
    ensures |PRIMES| == 64 && PRIMES[i] <= 311 && IsPrime(PRIMES[i])
    ensures i > 0 ==> PRIMES[i - 1] < PRIMES[i]
  {
    Row0();
    IndivisibleIsPrime(PRIMES[i]);
  }

  lemma Listed1(i: nat)
    requires 8 <= i < 16
    ensures |PRIMES| == 64 && PRIMES[i] <= 311 && IsPrime(PRIMES[i])
    ensures i > 0 ==> PRIMES[i - 1] < PRIMES[i]
  {
    Row1();
    Row0();
    IndivisibleIsPrime(PRIMES[i]);
  }

  lemma Listed2(i: nat)
    requires 16 <= i < 24
    ensures |PRIMES| == 64 && PRIMES[i] <= 311 && IsPrime(PRIMES[i])
    ensures i > 0 ==> PRIMES[i - 1] < PRIMES[i]
  {
    Row2();
    Row1();
    IndivisibleIsPrime(PRIMES[i]);
  }

  lemma Listed3(i: nat)
    requires 24 <= i < 32
    ensures |PRIMES| == 64 && PRIMES[i] <= 311 && IsPrime(PRIMES[i])
    ensures i > 0 ==> PRIMES[i - 1] < PRIMES[i]
  {
    Row3();
    Row2();
    IndivisibleIsPrime(PRIMES[i]);
  }

  lemma Listed4(i: nat)
    requires 32 <= i < 40
    ensures |PRIMES| == 64 && PRIMES[i] <= 311 && IsPrime(PRIMES[i])
    ensures i > 0 ==> PRIMES[i - 1] < PRIMES[i]
  {
    Row4();
    Row3();
    IndivisibleIsPrime(PRIMES[i]);
  }

  lemma Listed5(i: nat)
    requires 40 <= i < 48
    ensures |PRIMES| == 64 && PRIMES[i] <= 311 && IsPrime(PRIMES[i])
    ensures i > 0 ==> PRIMES[i - 1] < PRIMES[i]
  {
    Row5();
    Row4();
    IndivisibleIsPrime(PRIMES[i]);
  }

  lemma Listed6(i: nat)
    requires 48 <= i < 56
    ensures |PRIMES| == 64 && PRIMES[i] <= 311 && IsPrime(PRIMES[i])
    ensures i > 0 ==> PRIMES[i - 1] < PRIMES[i]
  {
    Row6();
    Row5();
    IndivisibleIsPrime(PRIMES[i]);
  }

  lemma Listed7(i: nat)
    requires 56 <= i < 64
    ensures |PRIMES| == 64 && PRIMES[i] <= 311 && IsPrime(PRIMES[i])
    ensures i > 0 ==> PRIMES[i - 1] < PRIMES[i]
  {
    Row7();
    Row6();
    IndivisibleIsPrime(PRIMES[i]);
  }

  lemma ListIsPrime(i: nat)
    requires i < 64
    ensures |PRIMES| == 64 && IsPrime(PRIMES[i])
    ensures i > 0 ==> PRIMES[i - 1] < PRIMES[i]
  {
    if i < 8 {
      Listed0(i);
    } else if i < 16 {
      Listed1(i);
    } else if i < 24 {
      Listed2(i);
    } else if i < 32 {
      Listed3(i);
    } else if i < 40 {
      Listed4(i);
    } else if i < 48 {
      Listed5(i);
    } else if i < 56 {
      Listed6(i);
    } else {
      Listed7(i);
    }
  }

  /** The list holds exactly the primes up to 311, each above the one before: the first sixty-four. */
  lemma FirstPrimes(i: nat, n: nat)
    requires i < 64
    ensures |PRIMES| == 64 && IsPrime(PRIMES[i]) && (i > 0 ==> PRIMES[i - 1] < PRIMES[i])
    ensures IsPrime(n) && n <= 311 ==> n in PRIMES
  {
    ListIsPrime(i);
    if n <= 311 && IsPrime(n) {
      PrimeIsListed(n);
    }
  }

  // ---- The roots ----

  /** n is the cube root of p * 2^96, rounded down: the cube root of p in units of 2^-32. */
  predicate IsCubeRoot(n: nat, p: nat) {
    n * n * n <= p * (TWO32 * TWO32 * TWO32) < (n + 1) * (n + 1) * (n + 1)
  }

  /** n is the square root of p * 2^128, rounded down: the square root of p in units of 2^-64. */
  predicate IsSquareRoot(n: nat, p: nat) {
    n * n <= p * (TWO32 * TWO32 * TWO32 * TWO32) < (n + 1) * (n + 1)
  }

  predicate IsFraction(x: Word, n: nat) {
    n % TWO32 == x as int
  }

  /** x is the first thirty-two bits of the fractional part of the cube root of p. */
  ghost predicate IsCubeRootFraction(x: Word, p: nat) {
    exists n: nat :: IsCubeRoot(n, p) && IsFraction(x, n)
  }

  /** x is the second thirty-two bits of the fractional part of the square root of p. */
  ghost predicate IsSquareRootFraction(x: Word, p: nat) {
    exists n: nat :: IsSquareRoot(n, p) && IsFraction(x, n)
  }

  lemma Cubes0(i: nat)
    requires 0 <= i < 8
    ensures |K| == |PRIMES| == 64 && IsCubeRootFraction(K[i], PRIMES[i])
  {
    Row0();
    assert IsCubeRoot(5411319704, 2) && IsFraction(K[0], 5411319704);
    assert IsCubeRoot(6194414737, 3) && IsFraction(K[1], 6194414737);
    assert IsCubeRoot(7344290767, 5) && IsFraction(K[2], 7344290767);
    assert IsCubeRoot(8215976869, 7) && IsFraction(K[3], 8215976869);
    assert IsCubeRoot(9551921755, 11) && IsFraction(K[4], 9551921755);
    assert IsCubeRoot(10098905585, 13) && IsFraction(K[5], 10098905585);
    assert IsCubeRoot(11043570340, 17) && IsFraction(K[6], 11043570340);
    assert IsCubeRoot(11460697813, 19) && IsFraction(K[7], 11460697813);
  }

  lemma Cubes1(i: nat)
    requires 8 <= i < 16
    ensures |K| == |PRIMES| == 64 && IsCubeRootFraction(K[i], PRIMES[i])
  {
    Row1();
    assert IsCubeRoot(12214315672, 23) && IsFraction(K[8], 12214315672);
    assert IsCubeRoot(13195500289, 29) && IsFraction(K[9], 13195500289);
    assert IsCubeRoot(13492127166, 31) && IsFraction(K[10], 13492127166);
    assert IsCubeRoot(14311783875, 37) && IsFraction(K[11], 14311783875);
    assert IsCubeRoot(14809980276, 41) && IsFraction(K[12], 14809980276);
    assert IsCubeRoot(15046980094, 43) && IsFraction(K[13], 15046980094);
    assert IsCubeRoot(15499789991, 47) && IsFraction(K[14], 15499789991);
    assert IsCubeRoot(16133124468, 53) && IsFraction(K[15], 16133124468);
  }

  lemma Cubes2(i: nat)
    requires 16 <= i < 24
    ensures |K| == |PRIMES| == 64 && IsCubeRootFraction(K[i], PRIMES[i])
  {
    Row2();
    assert IsCubeRoot(16720292289, 59) && IsFraction(K[16], 16720292289);
    assert IsCubeRoot(16907126662, 61) && IsFraction(K[17], 16907126662);
    assert IsCubeRoot(17444216262, 67) && IsFraction(K[18], 17444216262);
    assert IsCubeRoot(17784676812, 71) && IsFraction(K[19], 17784676812);
    assert IsCubeRoot(17950125167, 73) && IsFraction(K[20], 17950125167);
    assert IsCubeRoot(18429019306, 79) && IsFraction(K[21], 18429019306);
    assert IsCubeRoot(18734950876, 83) && IsFraction(K[22], 18734950876);
    assert IsCubeRoot(19175934170, 89) && IsFraction(K[23], 19175934170);
  }

  lemma Cubes3(i: nat)
    requires 24 <= i < 32
    ensures |K| == |PRIMES| == 64 && IsCubeRootFraction(K[i], PRIMES[i])
  {
    Row3();
    assert IsCubeRoot(19734090066, 97) && IsFraction(K[24], 19734090066);
    assert IsCubeRoot(20001703533, 101) && IsFraction(K[25], 20001703533);
    assert IsCubeRoot(20132865992, 103) && IsFraction(K[26], 20132865992);
    assert IsCubeRoot(20390182855, 107) && IsFraction(K[27], 20390182855);
    assert IsCubeRoot(20516441075, 109) && IsFraction(K[28], 20516441075);
    assert IsCubeRoot(20764397895, 113) && IsFraction(K[29], 20764397895);
    assert IsCubeRoot(21588763473, 127) && IsFraction(K[30], 21588763473);
    assert IsCubeRoot(21813078375, 131) && IsFraction(K[31], 21813078375);
  }

  lemma Cubes4(i: nat)
    requires 32 <= i < 40
    ensures |K| == |PRIMES| == 64 && IsCubeRootFraction(K[i], PRIMES[i])
  {
    Row4();
    assert IsCubeRoot(22141143685, 137) && IsFraction(K[32], 22141143685);
    assert IsCubeRoot(22248366392, 139) && IsFraction(K[33], 22248366392);
    assert IsCubeRoot(22769593852, 149) && IsFraction(K[34], 22769593852);
    assert IsCubeRoot(22871018771, 151) && IsFraction(K[35], 22871018771);
    assert IsCubeRoot(23170020180, 157) && IsFraction(K[36], 23170020180);
    assert IsCubeRoot(23461497531, 163) && IsFraction(K[37], 23461497531);
    assert IsCubeRoot(23651862830, 167) && IsFraction(K[38], 23651862830);
    assert IsCubeRoot(23931792517, 173) && IsFraction(K[39], 23931792517);
  }

  lemma Cubes5(i: nat)
    requires 40 <= i < 48
    ensures |K| == |PRIMES| == 64 && IsCubeRootFraction(K[i], PRIMES[i])
  {
    Row5();
    assert IsCubeRoot(24205322401, 179) && IsFraction(K[40], 24205322401);
    assert IsCubeRoot(24295138891, 181) && IsFraction(K[41], 24295138891);
    assert IsCubeRoot(24734567280, 191) && IsFraction(K[42], 24734567280);
    assert IsCubeRoot(24820601251, 193) && IsFraction(K[43], 24820601251);
    assert IsCubeRoot(24990902297, 197) && IsFraction(K[44], 24990902297);
    assert IsCubeRoot(25075189284, 199) && IsFraction(K[45], 25075189284);
    assert IsCubeRoot(25569408389, 211) && IsFraction(K[46], 25569408389);
    assert IsCubeRoot(26045227120, 223) && IsFraction(K[47], 26045227120);
  }

  lemma Cubes6(i: nat)
    requires 48 <= i < 56
    ensures |K| == |PRIMES| == 64 && IsCubeRootFraction(K[i], PRIMES[i])
  {
    Row6();
    assert IsCubeRoot(26200031510, 227) && IsFraction(K[48], 26200031510);
    assert IsCubeRoot(26276752392, 229) && IsFraction(K[49], 26276752392);
    assert IsCubeRoot(26428864332, 233) && IsFraction(K[50], 26428864332);
    assert IsCubeRoot(26653801653, 239) && IsFraction(K[51], 26653801653);
    assert IsCubeRoot(26727943347, 241) && IsFraction(K[52], 26727943347);
    assert IsCubeRoot(27092625994, 251) && IsFraction(K[53], 27092625994);
    assert IsCubeRoot(27306805839, 257) && IsFraction(K[54], 27306805839);
    assert IsCubeRoot(27517677555, 263) && IsFraction(K[55], 27517677555);
  }

  lemma Cubes7(i: nat)
    requires 56 <= i < 64
    ensures |K| == |PRIMES| == 64 && IsCubeRootFraction(K[i], PRIMES[i])
  {
    Row7();
    assert IsCubeRoot(27725365998, 269) && IsFraction(K[56], 27725365998);
    assert IsCubeRoot(27793908591, 271) && IsFraction(K[57], 27793908591);
    assert IsCubeRoot(27997534228, 277) && IsFraction(K[58], 27997534228);
    assert IsCubeRoot(28131656200, 281) && IsFraction(K[59], 28131656200);
    assert IsCubeRoot(28198240250, 283) && IsFraction(K[60], 28198240250);
    assert IsCubeRoot(28526537963, 293) && IsFraction(K[61], 28526537963);
    assert IsCubeRoot(28973835255, 307) && IsFraction(K[62], 28973835255);
    assert IsCubeRoot(29099129074, 311) && IsFraction(K[63], 29099129074);
  }

  /** Every constant is the start of the fraction of the cube root of its prime (section 4.2.2). */
  lemma ConstantsAreCubeRoots(i: nat)
    requires i < 64
    ensures |K| == |PRIMES| == 64 && IsCubeRootFraction(K[i], PRIMES[i])
  {
    if i < 8 {
      Cubes0(i);
    } else if i < 16 {
      Cubes1(i);
    } else if i < 24 {
      Cubes2(i);
    } else if i < 32 {
      Cubes3(i);
    } else if i < 40 {
      Cubes4(i);
    } else if i < 48 {
      Cubes5(i);
    } else if i < 56 {
      Cubes6(i);
    } else {
      Cubes7(i);
    }
  }

  /** The initial hash value comes from the square roots of the ninth to the sixteenth prime (section 5.3.2). */
  lemma InitialIsSquareRoots(i: nat)
    requires i < 8
    ensures |PRIMES| == 64 && IsSquareRootFraction(Words(INITIAL)[i], PRIMES[8 + i])
  {
    Row1();
    assert IsSquareRoot(88467476731178360536, 23) && IsFraction(Words(INITIAL)[0], 88467476731178360536);
    assert IsSquareRoot(99338756991957652743, 29) && IsFraction(Words(INITIAL)[1], 99338756991957652743);
    assert IsSquareRoot(102707124263845944599, 31) && IsFraction(Words(INITIAL)[2], 102707124263845944599);
    assert IsSquareRoot(112207163657561200953, 37) && IsFraction(Words(INITIAL)[3], 112207163657561200953);
    assert IsSquareRoot(118116794080090393393, 41) && IsFraction(Words(INITIAL)[4], 118116794080090393393);
    assert IsSquareRoot(120963390236882638097, 43) && IsFraction(Words(INITIAL)[5], 120963390236882638097);
    assert IsSquareRoot(126464505871347584935, 47) && IsFraction(Words(INITIAL)[6], 126464505871347584935);
    assert IsSquareRoot(134294323956039700388, 53) && IsFraction(Words(INITIAL)[7], 134294323956039700388);
  }

  // ---- The functions on words, bit by bit ----

  /** Ch takes the bits of y where x has ones, and those of z where it has zeros. */
  lemma ChSelects(x: Word, y: Word, z: Word)
    ensures Ch(x, y, z) & x == y & x && Ch(x, y, z) & !x == z & !x
  {
  }

  /** Where two of the three words have ones, so has Maj; where two have zeros, so has Maj. */
  lemma MajVotes(x: Word, y: Word, z: Word)
    ensures x & y & !Maj(x, y, z) == 0 && !x & !y & Maj(x, y, z) == 0
  {
  }

  lemma MajIsSymmetric(x: Word, y: Word, z: Word)
    ensures Maj(x, y, z) == Maj(y, x, z)
  {
  }

  lemma MajTurns(x: Word, y: Word, z: Word)
    ensures Maj(x, y, z) == Maj(y, z, x)
  {
  }

  /** To which places the sigmas send the last bit of a word, and the small ones its first bit. */
  lemma SigmasMove()
    ensures BigSigma0(1) == 0x4008_0400 && BigSigma1(1) == 0x0420_0080
    ensures SmallSigma0(1) == 0x0200_4000 && SmallSigma0(0x8000_0000) == 0x1100_2000
    ensures SmallSigma1(1) == 0x0000_a000 && SmallSigma1(0x8000_0000) == 0x0020_5000
  {
  }
}
