/**
  Where the constants of SHA-256 come from, and what its logical functions do to bits, as sections 3.2, 4.1.2,
  4.2.2 and 5.3.3 of FIPS 180-4 say.
 */
module FipsConstants {
  import C = Counter
  import opened Common
  import opened Fips180

  // ----- the first sixty-four primes

  predicate IsPrime(n: nat) { n >= 2 && forall d :: 2 <= d < n ==> n % d != 0 }

  ghost function PrimesBelow(n: nat): nat {
    if n == 0 then 0 else PrimesBelow(n - 1) + if IsPrime(n - 1) then 1 else 0
  }

  /** Prime number `t`, counted from 0. */
  ghost predicate IsNthPrime(t: nat, p: nat) { IsPrime(p) && PrimesBelow(p) == t }

  /** No prime below nineteen divides it, except itself. */
  predicate Sifted(n: nat) {
    && (n % 2 != 0 || n == 2) && (n % 3 != 0 || n == 3) && (n % 5 != 0 || n == 5) && (n % 7 != 0 || n == 7)
    && (n % 11 != 0 || n == 11) && (n % 13 != 0 || n == 13) && (n % 17 != 0 || n == 17)
  }

  /** Any number from 2 to 18 has one of those primes in it. */
  lemma SmallFactor(m: nat) returns (q: nat)
    requires 2 <= m <= 18
    ensures q in {2, 3, 5, 7, 11, 13, 17} && q <= m && m % q == 0
  {
    q := if m % 2 == 0 then 2 else if m % 3 == 0 then 3 else if m % 5 == 0 then 5 else m;
  }

  lemma Multiple(q: nat, k: nat)
    requires q > 0
    ensures (q * k) % q == 0
  {
    C.DivMod(k, 0, q);
  }

  lemma Product(m: nat, o: nat, q: nat)
    requires 0 < q <= m && m % q == 0 && o >= 2
    ensures (m * o) % q == 0 && m * o > q
  {
    var j := m / q;
    assert m == q * j;
    Multiple(q, j * o);
    assert (q * j) * o == q * (j * o);
    MulGap(1, o, m);
  }

  /** A composite number below 361 has a factor below nineteen. */
  lemma Composite(n: nat, d: nat)
    requires n < 361 && 2 <= d < n && n % d == 0
    ensures !Sifted(n)
  {
    var m, o := Factors(n, d);
    var q := SmallFactor(m);
    Product(m, o, q);
  }

  lemma Factors(n: nat, d: nat) returns (m: nat, o: nat)
    requires n < 361 && 2 <= d < n && n % d == 0
    ensures n == m * o && 2 <= m <= 18 && 2 <= o
  {
    var e := n / d;
    assert n == d * e;
    assert e != 0 && e != 1;
    m, o := if d <= e then d else e, if d <= e then e else d;
    if m >= 19 { Squares(m, o); }
  }

  lemma Squares(m: nat, o: nat)
    requires 19 <= m <= o
    ensures m * o >= 361
  {
    MulGap(18, m, o);
  }

  /** Below 361 a number is prime if and only if it is sifted. */
  lemma PrimeIsSifted(n: nat)
    requires 2 <= n < 361
    ensures IsPrime(n) <==> Sifted(n)
  {
    if Sifted(n) {
      forall d | 2 <= d < n ensures n % d != 0 {
        if n % d == 0 { Composite(n, d); }
      }
    } else {
      var q :| q in {2, 3, 5, 7, 11, 13, 17} && n % q == 0 && n != q;
      assert q < n;
    }
  }

  predicate NoneSifted(a: nat, b: nat)
    decreases b - a
  {
    a < b ==> !Sifted(a) && NoneSifted(a + 1, b)
  }

  lemma {:induction false} NoPrimes(a: nat, b: nat)
    requires 2 <= a <= b < 361 && NoneSifted(a, b)
    ensures PrimesBelow(b) == PrimesBelow(a)
    decreases b - a
  {
    if a < b {
      PrimeIsSifted(a);
      hide IsPrime;
      NoPrimes(a + 1, b);
    }
  }

  /** The next sifted number is the next prime. */
  lemma NextPrime(t: nat, p: nat, q: nat)
    requires IsNthPrime(t, p) && p < q < 361 && Sifted(q) && NoneSifted(p + 1, q)
    ensures IsNthPrime(t + 1, q)
  {
    assert p >= 2;
    hide IsPrime, Sifted;
    PrimeIsSifted(q);
    NoPrimes(p + 1, q);
  }

  lemma FirstPrime()
    ensures IsNthPrime(0, 2)
  {
    assert PrimesBelow(1) == 0;
  }

  lemma Primes0()
    ensures IsNthPrime(0, 2) && IsNthPrime(1, 3) && IsNthPrime(2, 5) && IsNthPrime(3, 7)
    ensures IsNthPrime(4, 11) && IsNthPrime(5, 13) && IsNthPrime(6, 17) && IsNthPrime(7, 19)
  {
    FirstPrime();
    hide IsNthPrime;
    assert NoneSifted(3, 3);
    NextPrime(0, 2, 3);
    assert NoneSifted(4, 5);
    NextPrime(1, 3, 5);
    assert NoneSifted(6, 7);
    NextPrime(2, 5, 7);
    assert NoneSifted(8, 11);
    NextPrime(3, 7, 11);
    assert NoneSifted(12, 13);
    NextPrime(4, 11, 13);
    assert NoneSifted(14, 17);
    NextPrime(5, 13, 17);
    assert NoneSifted(18, 19);
    NextPrime(6, 17, 19);
  }

  lemma Primes1()
    ensures IsNthPrime(8, 23) && IsNthPrime(9, 29) && IsNthPrime(10, 31) && IsNthPrime(11, 37)
    ensures IsNthPrime(12, 41) && IsNthPrime(13, 43) && IsNthPrime(14, 47) && IsNthPrime(15, 53)
  {
    Primes0();
    hide IsNthPrime;
    assert NoneSifted(20, 23);
    NextPrime(7, 19, 23);
    assert NoneSifted(24, 29);
    NextPrime(8, 23, 29);
    assert NoneSifted(30, 31);
    NextPrime(9, 29, 31);
    assert NoneSifted(32, 37);
    NextPrime(10, 31, 37);
    assert NoneSifted(38, 41);
    NextPrime(11, 37, 41);
    assert NoneSifted(42, 43);
    NextPrime(12, 41, 43);
    assert NoneSifted(44, 47);
    NextPrime(13, 43, 47);
    assert NoneSifted(48, 53);
    NextPrime(14, 47, 53);
  }

  lemma Primes2()
    ensures IsNthPrime(16, 59) && IsNthPrime(17, 61) && IsNthPrime(18, 67) && IsNthPrime(19, 71)
    ensures IsNthPrime(20, 73) && IsNthPrime(21, 79) && IsNthPrime(22, 83) && IsNthPrime(23, 89)
  {
    Primes1();
    hide IsNthPrime;
    assert NoneSifted(54, 59);
    NextPrime(15, 53, 59);
    assert NoneSifted(60, 61);
    NextPrime(16, 59, 61);
    assert NoneSifted(62, 67);
    NextPrime(17, 61, 67);
    assert NoneSifted(68, 71);
    NextPrime(18, 67, 71);
    assert NoneSifted(72, 73);
    NextPrime(19, 71, 73);
    assert NoneSifted(74, 79);
    NextPrime(20, 73, 79);
    assert NoneSifted(80, 83);
    NextPrime(21, 79, 83);
    assert NoneSifted(84, 89);
    NextPrime(22, 83, 89);
  }

  lemma Primes3()
    ensures IsNthPrime(24, 97) && IsNthPrime(25, 101) && IsNthPrime(26, 103) && IsNthPrime(27, 107)
    ensures IsNthPrime(28, 109) && IsNthPrime(29, 113) && IsNthPrime(30, 127) && IsNthPrime(31, 131)
  {
    Primes2();
    hide IsNthPrime;
    assert NoneSifted(90, 97);
    NextPrime(23, 89, 97);
    assert NoneSifted(98, 101);
    NextPrime(24, 97, 101);
    assert NoneSifted(102, 103);
    NextPrime(25, 101, 103);
    assert NoneSifted(104, 107);
    NextPrime(26, 103, 107);
    assert NoneSifted(108, 109);
    NextPrime(27, 107, 109);
    assert NoneSifted(110, 113);
    NextPrime(28, 109, 113);
    assert NoneSifted(114, 127);
    NextPrime(29, 113, 127);
    assert NoneSifted(128, 131);
    NextPrime(30, 127, 131);
  }

  lemma Primes4()
    ensures IsNthPrime(32, 137) && IsNthPrime(33, 139) && IsNthPrime(34, 149) && IsNthPrime(35, 151)
    ensures IsNthPrime(36, 157) && IsNthPrime(37, 163) && IsNthPrime(38, 167) && IsNthPrime(39, 173)
  {
    Primes3();
    hide IsNthPrime;
    assert NoneSifted(132, 137);
    NextPrime(31, 131, 137);
    assert NoneSifted(138, 139);
    NextPrime(32, 137, 139);
    assert NoneSifted(140, 149);
    NextPrime(33, 139, 149);
    assert NoneSifted(150, 151);
    NextPrime(34, 149, 151);
    assert NoneSifted(152, 157);
    NextPrime(35, 151, 157);
    assert NoneSifted(158, 163);
    NextPrime(36, 157, 163);
    assert NoneSifted(164, 167);
    NextPrime(37, 163, 167);
    assert NoneSifted(168, 173);
    NextPrime(38, 167, 173);
  }

  lemma Primes5()
    ensures IsNthPrime(40, 179) && IsNthPrime(41, 181) && IsNthPrime(42, 191) && IsNthPrime(43, 193)
    ensures IsNthPrime(44, 197) && IsNthPrime(45, 199) && IsNthPrime(46, 211) && IsNthPrime(47, 223)
  {
    Primes4();
    hide IsNthPrime;
    assert NoneSifted(174, 179);
    NextPrime(39, 173, 179);
    assert NoneSifted(180, 181);
    NextPrime(40, 179, 181);
    assert NoneSifted(182, 191);
    NextPrime(41, 181, 191);
    assert NoneSifted(192, 193);
    NextPrime(42, 191, 193);
    assert NoneSifted(194, 197);
    NextPrime(43, 193, 197);
    assert NoneSifted(198, 199);
    NextPrime(44, 197, 199);
    assert NoneSifted(200, 211);
    NextPrime(45, 199, 211);
    assert NoneSifted(212, 223);
    NextPrime(46, 211, 223);
  }

  lemma Primes6()
    ensures IsNthPrime(48, 227) && IsNthPrime(49, 229) && IsNthPrime(50, 233) && IsNthPrime(51, 239)
    ensures IsNthPrime(52, 241) && IsNthPrime(53, 251) && IsNthPrime(54, 257) && IsNthPrime(55, 263)
  {
    Primes5();
    hide IsNthPrime;
    assert NoneSifted(224, 227);
    NextPrime(47, 223, 227);
    assert NoneSifted(228, 229);
    NextPrime(48, 227, 229);
    assert NoneSifted(230, 233);
    NextPrime(49, 229, 233);
    assert NoneSifted(234, 239);
    NextPrime(50, 233, 239);
    assert NoneSifted(240, 241);
    NextPrime(51, 239, 241);
    assert NoneSifted(242, 251);
    NextPrime(52, 241, 251);
    assert NoneSifted(252, 257);
    NextPrime(53, 251, 257);
    assert NoneSifted(258, 263);
    NextPrime(54, 257, 263);
  }

  lemma Primes7()
    ensures IsNthPrime(56, 269) && IsNthPrime(57, 271) && IsNthPrime(58, 277) && IsNthPrime(59, 281)
    ensures IsNthPrime(60, 283) && IsNthPrime(61, 293) && IsNthPrime(62, 307) && IsNthPrime(63, 311)
  {
    Primes6();
    hide IsNthPrime;
    assert NoneSifted(264, 269);
    NextPrime(55, 263, 269);
    assert NoneSifted(270, 271);
    NextPrime(56, 269, 271);
    assert NoneSifted(272, 277);
    NextPrime(57, 271, 277);
    assert NoneSifted(278, 281);
    NextPrime(58, 277, 281);
    assert NoneSifted(282, 283);
    NextPrime(59, 281, 283);
    assert NoneSifted(284, 293);
    NextPrime(60, 283, 293);
    assert NoneSifted(294, 307);
    NextPrime(61, 293, 307);
    assert NoneSifted(308, 311);
    NextPrime(62, 307, 311);
  }

  // ----- the roots

  const TWO32 := 0x1_0000_0000
  const TWO96 := 0x1_0000_0000_0000_0000_0000_0000

  /** `c` is the cube root of `p` to 32 bits behind the point. */
  predicate IsCubeRoot(p: nat, c: nat) { c * c * c <= p * TWO96 < (c + 1) * (c + 1) * (c + 1) }

  predicate IsSquareRoot(p: nat, c: nat) { c * c <= p * TWO64 < (c + 1) * (c + 1) }

  /** Section 4.2.2: the first 32 bits of the fractional part of the cube root of prime `t`. */
  ghost predicate IsCubeConstant(t: nat, k: Word) {
    exists p: nat, c: nat :: IsNthPrime(t, p) && IsCubeRoot(p, c) && k as nat == c % TWO32
  }

  lemma CubeConstant(t: nat, p: nat, c: nat, k: Word)
    requires IsNthPrime(t, p) && IsCubeRoot(p, c) && k as nat == c % TWO32
    ensures IsCubeConstant(t, k)
  {
  }

  lemma Row0(j: nat)
    requires j < 8
    ensures IsCubeConstant(8 * 0 + j, KRow(0)[j])
  {
    Primes0();
    hide IsNthPrime, IsCubeConstant;
    if j == 0 {
      CubeConstant(0, 2, 0x1_428a2f98, 0x428a2f98);
    } else if j == 1 {
      CubeConstant(1, 3, 0x1_71374491, 0x71374491);
    } else if j == 2 {
      CubeConstant(2, 5, 0x1_b5c0fbcf, 0xb5c0fbcf);
    } else if j == 3 {
      CubeConstant(3, 7, 0x1_e9b5dba5, 0xe9b5dba5);
    } else if j == 4 {
      CubeConstant(4, 11, 0x2_3956c25b, 0x3956c25b);
    } else if j == 5 {
      CubeConstant(5, 13, 0x2_59f111f1, 0x59f111f1);
    } else if j == 6 {
      CubeConstant(6, 17, 0x2_923f82a4, 0x923f82a4);
    } else if j == 7 {
      CubeConstant(7, 19, 0x2_ab1c5ed5, 0xab1c5ed5);
    }
  }

  lemma Row1(j: nat)
    requires j < 8
    ensures IsCubeConstant(8 * 1 + j, KRow(1)[j])
  {
    Primes1();
    hide IsNthPrime, IsCubeConstant;
    if j == 0 {
      CubeConstant(8, 23, 0x2_d807aa98, 0xd807aa98);
    } else if j == 1 {
      CubeConstant(9, 29, 0x3_12835b01, 0x12835b01);
    } else if j == 2 {
      CubeConstant(10, 31, 0x3_243185be, 0x243185be);
    } else if j == 3 {
      CubeConstant(11, 37, 0x3_550c7dc3, 0x550c7dc3);
    } else if j == 4 {
      CubeConstant(12, 41, 0x3_72be5d74, 0x72be5d74);
    } else if j == 5 {
      CubeConstant(13, 43, 0x3_80deb1fe, 0x80deb1fe);
    } else if j == 6 {
      CubeConstant(14, 47, 0x3_9bdc06a7, 0x9bdc06a7);
    } else if j == 7 {
      CubeConstant(15, 53, 0x3_c19bf174, 0xc19bf174);
    }
  }

  lemma Row2(j: nat)
    requires j < 8
    ensures IsCubeConstant(8 * 2 + j, KRow(2)[j])
  {
    Primes2();
    hide IsNthPrime, IsCubeConstant;
    if j == 0 {
      CubeConstant(16, 59, 0x3_e49b69c1, 0xe49b69c1);
    } else if j == 1 {
      CubeConstant(17, 61, 0x3_efbe4786, 0xefbe4786);
    } else if j == 2 {
      CubeConstant(18, 67, 0x4_0fc19dc6, 0x0fc19dc6);
    } else if j == 3 {
      CubeConstant(19, 71, 0x4_240ca1cc, 0x240ca1cc);
    } else if j == 4 {
      CubeConstant(20, 73, 0x4_2de92c6f, 0x2de92c6f);
    } else if j == 5 {
      CubeConstant(21, 79, 0x4_4a7484aa, 0x4a7484aa);
    } else if j == 6 {
      CubeConstant(22, 83, 0x4_5cb0a9dc, 0x5cb0a9dc);
    } else if j == 7 {
      CubeConstant(23, 89, 0x4_76f988da, 0x76f988da);
    }
  }

  lemma Row3(j: nat)
    requires j < 8
    ensures IsCubeConstant(8 * 3 + j, KRow(3)[j])
  {
    Primes3();
    hide IsNthPrime, IsCubeConstant;
    if j == 0 {
      CubeConstant(24, 97, 0x4_983e5152, 0x983e5152);
    } else if j == 1 {
      CubeConstant(25, 101, 0x4_a831c66d, 0xa831c66d);
    } else if j == 2 {
      CubeConstant(26, 103, 0x4_b00327c8, 0xb00327c8);
    } else if j == 3 {
      CubeConstant(27, 107, 0x4_bf597fc7, 0xbf597fc7);
    } else if j == 4 {
      CubeConstant(28, 109, 0x4_c6e00bf3, 0xc6e00bf3);
    } else if j == 5 {
      CubeConstant(29, 113, 0x4_d5a79147, 0xd5a79147);
    } else if j == 6 {
      CubeConstant(30, 127, 0x5_06ca6351, 0x06ca6351);
    } else if j == 7 {
      CubeConstant(31, 131, 0x5_14292967, 0x14292967);
    }
  }

  lemma Row4(j: nat)
    requires j < 8
    ensures IsCubeConstant(8 * 4 + j, KRow(4)[j])
  {
    Primes4();
    hide IsNthPrime, IsCubeConstant;
    if j == 0 {
      CubeConstant(32, 137, 0x5_27b70a85, 0x27b70a85);
    } else if j == 1 {
      CubeConstant(33, 139, 0x5_2e1b2138, 0x2e1b2138);
    } else if j == 2 {
      CubeConstant(34, 149, 0x5_4d2c6dfc, 0x4d2c6dfc);
    } else if j == 3 {
      CubeConstant(35, 151, 0x5_53380d13, 0x53380d13);
    } else if j == 4 {
      CubeConstant(36, 157, 0x5_650a7354, 0x650a7354);
    } else if j == 5 {
      CubeConstant(37, 163, 0x5_766a0abb, 0x766a0abb);
    } else if j == 6 {
      CubeConstant(38, 167, 0x5_81c2c92e, 0x81c2c92e);
    } else if j == 7 {
      CubeConstant(39, 173, 0x5_92722c85, 0x92722c85);
    }
  }

  lemma Row5(j: nat)
    requires j < 8
    ensures IsCubeConstant(8 * 5 + j, KRow(5)[j])
  {
    Primes5();
    hide IsNthPrime, IsCubeConstant;
    if j == 0 {
      CubeConstant(40, 179, 0x5_a2bfe8a1, 0xa2bfe8a1);
    } else if j == 1 {
      CubeConstant(41, 181, 0x5_a81a664b, 0xa81a664b);
    } else if j == 2 {
      CubeConstant(42, 191, 0x5_c24b8b70, 0xc24b8b70);
    } else if j == 3 {
      CubeConstant(43, 193, 0x5_c76c51a3, 0xc76c51a3);
    } else if j == 4 {
      CubeConstant(44, 197, 0x5_d192e819, 0xd192e819);
    } else if j == 5 {
      CubeConstant(45, 199, 0x5_d6990624, 0xd6990624);
    } else if j == 6 {
      CubeConstant(46, 211, 0x5_f40e3585, 0xf40e3585);
    } else if j == 7 {
      CubeConstant(47, 223, 0x6_106aa070, 0x106aa070);
    }
  }

  lemma Row6(j: nat)
    requires j < 8
    ensures IsCubeConstant(8 * 6 + j, KRow(6)[j])
  {
    Primes6();
    hide IsNthPrime, IsCubeConstant;
    if j == 0 {
      CubeConstant(48, 227, 0x6_19a4c116, 0x19a4c116);
    } else if j == 1 {
      CubeConstant(49, 229, 0x6_1e376c08, 0x1e376c08);
    } else if j == 2 {
      CubeConstant(50, 233, 0x6_2748774c, 0x2748774c);
    } else if j == 3 {
      CubeConstant(51, 239, 0x6_34b0bcb5, 0x34b0bcb5);
    } else if j == 4 {
      CubeConstant(52, 241, 0x6_391c0cb3, 0x391c0cb3);
    } else if j == 5 {
      CubeConstant(53, 251, 0x6_4ed8aa4a, 0x4ed8aa4a);
    } else if j == 6 {
      CubeConstant(54, 257, 0x6_5b9cca4f, 0x5b9cca4f);
    } else if j == 7 {
      CubeConstant(55, 263, 0x6_682e6ff3, 0x682e6ff3);
    }
  }

  lemma Row7(j: nat)
    requires j < 8
    ensures IsCubeConstant(8 * 7 + j, KRow(7)[j])
  {
    Primes7();
    hide IsNthPrime, IsCubeConstant;
    if j == 0 {
      CubeConstant(56, 269, 0x6_748f82ee, 0x748f82ee);
    } else if j == 1 {
      CubeConstant(57, 271, 0x6_78a5636f, 0x78a5636f);
    } else if j == 2 {
      CubeConstant(58, 277, 0x6_84c87814, 0x84c87814);
    } else if j == 3 {
      CubeConstant(59, 281, 0x6_8cc70208, 0x8cc70208);
    } else if j == 4 {
      CubeConstant(60, 283, 0x6_90befffa, 0x90befffa);
    } else if j == 5 {
      CubeConstant(61, 293, 0x6_a4506ceb, 0xa4506ceb);
    } else if j == 6 {
      CubeConstant(62, 307, 0x6_bef9a3f7, 0xbef9a3f7);
    } else if j == 7 {
      CubeConstant(63, 311, 0x6_c67178f2, 0xc67178f2);
    }
  }

  /** Every constant of the rounds is what the standard says it is. */
  lemma KIsFromCubeRoots(t: nat)
    requires t < 64
    ensures IsCubeConstant(t, K()[t])
  {
    hide IsCubeConstant, KRow;
    var i, j := t / 8, t % 8;
    if i == 0 { Row0(j); } else if i == 1 { Row1(j); } else if i == 2 { Row2(j); } else if i == 3 { Row3(j); }
    else if i == 4 { Row4(j); } else if i == 5 { Row5(j); } else if i == 6 { Row6(j); } else { Row7(j); }
  }

  /** Section 5.3.3: the same with square roots. */
  ghost predicate IsSquareConstant(t: nat, k: Word) {
    exists p: nat, c: nat :: IsNthPrime(t, p) && IsSquareRoot(p, c) && k as nat == c % TWO32
  }

  lemma SquareConstant(t: nat, p: nat, c: nat, k: Word)
    requires IsNthPrime(t, p) && IsSquareRoot(p, c) && k as nat == c % TWO32
    ensures IsSquareConstant(t, k)
  {
  }

  /** So is every word of the initial hash value. */
  lemma HIsFromSquareRoots(t: nat)
    requires t < 8
    ensures IsSquareConstant(t, H0()[t])
  {
    Primes0();
    hide IsNthPrime, IsSquareConstant;
    if t == 0 {
      SquareConstant(0, 2, 0x1_6a09e667, 0x6a09e667);
    } else if t == 1 {
      SquareConstant(1, 3, 0x1_bb67ae85, 0xbb67ae85);
    } else if t == 2 {
      SquareConstant(2, 5, 0x2_3c6ef372, 0x3c6ef372);
    } else if t == 3 {
      SquareConstant(3, 7, 0x2_a54ff53a, 0xa54ff53a);
    } else if t == 4 {
      SquareConstant(4, 11, 0x3_510e527f, 0x510e527f);
    } else if t == 5 {
      SquareConstant(5, 13, 0x3_9b05688c, 0x9b05688c);
    } else if t == 6 {
      SquareConstant(6, 17, 0x4_1f83d9ab, 0x1f83d9ab);
    } else if t == 7 {
      SquareConstant(7, 19, 0x4_5be0cd19, 0x5be0cd19);
    }
  }

  // ----- the logical functions, bit by bit

  predicate Bit(x: Word, i: Word)
    requires i < 32
  {
    (x >> i) & 1 == 1
  }

  function Halved(x: Word): Word { x >> 1 }

  lemma BitNext(x: Word, i: Word)
    requires i < 31
    ensures Bit(Halved(x), i) == Bit(x, i + 1)
  {
  }

  lemma FirstBits(x: Word, y: Word, z: Word)
    ensures Bit(Ch(x, y, z), 0) == if Bit(x, 0) then Bit(y, 0) else Bit(z, 0)
    ensures Bit(Maj(x, y, z), 0) == if Bit(x, 0) == Bit(y, 0) then Bit(x, 0) else Bit(z, 0)
  {
  }

  lemma OtherBits(x: Word, y: Word, z: Word)
    ensures Halved(Ch(x, y, z)) == Ch(Halved(x), Halved(y), Halved(z))
    ensures Halved(Maj(x, y, z)) == Maj(Halved(x), Halved(y), Halved(z))
  {
  }

  /** `Ch` chooses, by its first argument, between the other two; `Maj` is what two of the three say. */
  lemma {:induction false} ChoosesAndVotes(x: Word, y: Word, z: Word, i: Word)
    requires i < 32
    ensures Bit(Ch(x, y, z), i) == if Bit(x, i) then Bit(y, i) else Bit(z, i)
    ensures Bit(Maj(x, y, z), i) == if Bit(x, i) == Bit(y, i) then Bit(x, i) else Bit(z, i)
    decreases i
  {
    hide Ch, Maj, Bit, Halved;
    if i == 0 {
      FirstBits(x, y, z);
    } else {
      OtherBits(x, y, z);
      BitNext(Ch(x, y, z), i - 1);
      BitNext(Maj(x, y, z), i - 1);
      BitNext(x, i - 1);
      BitNext(y, i - 1);
      BitNext(z, i - 1);
      ChoosesAndVotes(Halved(x), Halved(y), Halved(z), i - 1);
    }
  }

  /** The bit `n` places above bit `i`, counted round. */
  function Above(i: Word, n: Word): (r: Word)
    requires i < 32 && 0 < n < 32
    ensures r < 32
  {
    if i < 32 - n then i + n else i + n - 32
  }

  lemma RotateOnce(x: Word, i: Word)
    requires i < 32
    ensures Bit(Rotr(x, 1), i) == Bit(x, Above(i, 1))
  {
  }

  lemma RotateMore(x: Word, n: Word)
    requires 0 < n < 31
    ensures Rotr(x, n + 1) == Rotr(Rotr(x, n), 1)
  {
  }

  lemma AboveMore(i: Word, n: Word)
    requires i < 32 && 1 < n < 32
    ensures Above(Above(i, 1), n - 1) == Above(i, n)
  {
  }

  /** Rotation by `n` moves the bit `n` places above bit `i` to bit `i`. */
  lemma {:induction false} Rotates(x: Word, n: Word, i: Word)
    requires 0 < n < 32 && i < 32
    ensures Bit(Rotr(x, n), i) == Bit(x, Above(i, n))
    decreases n
  {
    hide Rotr, Bit, Above;
    if n == 1 {
      RotateOnce(x, i);
    } else {
      RotateMore(x, n - 1);
      RotateOnce(Rotr(x, n - 1), i);
      Rotates(x, n - 1, Above(i, 1));
      AboveMore(i, n);
    }
  }
}
