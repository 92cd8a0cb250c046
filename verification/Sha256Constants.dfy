/** The constants of the hash against their definition in FIPS 180-4: the first 32 bits of
    the fractional parts of the cube roots of the first 64 primes (section 4.2.2) and of the
    square roots of the first eight (section 5.3.3). */
module Sha256Constants {
  import opened Quotients
  import opened Sha256

  // ----- the first 64 primes ----------------------------------------------

  ghost predicate IsPrime(n: int) {
    n >= 2 && forall d :: 2 <= d < n ==> n % d != 0
  }

  /** q is the least prime above p. */
  ghost predicate IsNextPrime(p: int, q: int) {
    p < q && IsPrime(q) && forall n :: p < n < q ==> !IsPrime(n)
  }

  /** None of the primes up to 17 divides n, unless it is n. */
  predicate Sieved(n: int) {
    (n % 2 != 0 || n == 2) && (n % 3 != 0 || n == 3) && (n % 5 != 0 || n == 5) && (n % 7 != 0 || n == 7) &&
    (n % 11 != 0 || n == 11) && (n % 13 != 0 || n == 13) && (n % 17 != 0 || n == 17)
  }

  predicate Follows(p: int, q: int) {
    1 <= p < q < 361 && Sieved(q) && NoneSieved(p + 1, q)
  }

  predicate NoneSieved(n: int, q: int)
    decreases q - n
  {
    n >= q || (!Sieved(n) && NoneSieved(n + 1, q))
  }

  lemma {:induction false} NoneBetween(n: int, q: int)
    requires NoneSieved(n, q)
    ensures forall k :: n <= k < q ==> !Sieved(k)
    decreases q - n
  {
    hide Sieved;
    if n < q { NoneBetween(n + 1, q); }
  }

  lemma DividesProduct(n: int, d: int, k: int, s: int)
    requires d > 0 && s > 0 && n == d * k && d % s == 0
    ensures n % s == 0
  {
    var e := d / s;
    assert n == s * (e * k);
    QuotientUnique(n, s, e * k, 0);
  }

  /** A factor up to 18 has a prime factor up to 17. */
  lemma SmallFactor(n: int, d: int, k: int)
    requires n == d * k && 2 <= d <= 18 && k >= 2
    ensures !Sieved(n)
  {
    var s := if d % 2 == 0 then 2 else if d % 3 == 0 then 3 else if d == 5 then 5 else if d == 7 then 7
             else if d == 11 then 11 else if d == 13 then 13 else 17;
    if d % 2 == 0 || d % 3 == 0 || d in {5, 7, 11, 13, 17} {
      DividesProduct(n, d, k, s);
      assert n >= 2 * d;
    }
  }

  lemma OneIsSmall(d: int, k: int)
    requires d >= 19 && k >= 19
    ensures d * k >= 361
  {
    assert d * k >= 19 * k;
  }

  lemma Composite(n: int, d: int)
    requires 2 <= d < n < 361 && n % d == 0
    ensures !Sieved(n)
  {
    hide Sieved;
    var k := n / d;
    assert n == d * k;
    assert k >= 2 by { Cofactor(n, d, k); }
    if d <= 18 {
      SmallFactor(n, d, k);
    } else if k <= 18 {
      SmallFactor(n, k, d);
    } else {
      OneIsSmall(d, k);
    }
  }

  lemma Cofactor(n: int, d: int, k: int)
    requires n == d * k && 0 < d < n
    ensures k >= 2
  {
    assert k <= 1 ==> d * k <= d;
  }

  /** Below 361 the sieve finds exactly the primes. */
  lemma SieveFindsPrimes(n: int)
    requires 2 <= n < 361
    ensures Sieved(n) <==> IsPrime(n)
  {
    forall d | 2 <= d < n && n % d == 0
      ensures !Sieved(n)
    {
      Composite(n, d);
    }
  }

  lemma FollowsIsNext(p: int, q: int)
    requires Follows(p, q)
    ensures IsNextPrime(p, q)
  {
    hide Sieved, IsPrime;
    NoneBetween(p + 1, q);
    forall n | p < n <= q
      ensures Sieved(n) <==> IsPrime(n)
    {
      SieveFindsPrimes(n);
    }
  }

  function PrimeRow(r: int): (row: seq<int>)
    requires 0 <= r < 8
    ensures |row| == 8
  {
    if r == 0 then [2, 3, 5, 7, 11, 13, 17, 19]
    else if r == 1 then [23, 29, 31, 37, 41, 43, 47, 53]
    else if r == 2 then [59, 61, 67, 71, 73, 79, 83, 89]
    else if r == 3 then [97, 101, 103, 107, 109, 113, 127, 131]
    else if r == 4 then [137, 139, 149, 151, 157, 163, 167, 173]
    else if r == 5 then [179, 181, 191, 193, 197, 199, 211, 223]
    else if r == 6 then [227, 229, 233, 239, 241, 251, 257, 263]
    else [269, 271, 277, 281, 283, 293, 307, 311]
  }

  function Prime(t: int): int
    requires 0 <= t < 64
  {
    PrimeRow(t / 8)[t % 8]
  }

  lemma PrimesOfRow0()
    ensures Follows(1, 2) && Follows(2, 3) && Follows(3, 5) && Follows(5, 7)
    ensures Follows(7, 11) && Follows(11, 13) && Follows(13, 17) && Follows(17, 19)
  {
    assert NoneSieved(9, 11); assert NoneSieved(15, 17);
  }

  lemma PrimesOfRow1()
    ensures Follows(19, 23) && Follows(23, 29) && Follows(29, 31) && Follows(31, 37)
    ensures Follows(37, 41) && Follows(41, 43) && Follows(43, 47) && Follows(47, 53)
  {
    assert NoneSieved(21, 23); assert NoneSieved(27, 29); assert NoneSieved(25, 29); assert NoneSieved(35, 37);
    assert NoneSieved(33, 37); assert NoneSieved(39, 41); assert NoneSieved(45, 47); assert NoneSieved(51, 53);
    assert NoneSieved(49, 53);
  }

  lemma PrimesOfRow2()
    ensures Follows(53, 59) && Follows(59, 61) && Follows(61, 67) && Follows(67, 71)
    ensures Follows(71, 73) && Follows(73, 79) && Follows(79, 83) && Follows(83, 89)
  {
    assert NoneSieved(57, 59); assert NoneSieved(55, 59); assert NoneSieved(65, 67); assert NoneSieved(63, 67);
    assert NoneSieved(69, 71); assert NoneSieved(77, 79); assert NoneSieved(75, 79); assert NoneSieved(81, 83);
    assert NoneSieved(87, 89); assert NoneSieved(85, 89);
  }

  lemma PrimesOfRow3()
    ensures Follows(89, 97) && Follows(97, 101) && Follows(101, 103) && Follows(103, 107)
    ensures Follows(107, 109) && Follows(109, 113) && Follows(113, 127) && Follows(127, 131)
  {
    assert NoneSieved(95, 97); assert NoneSieved(93, 97); assert NoneSieved(91, 97); assert NoneSieved(99, 101);
    assert NoneSieved(105, 107); assert NoneSieved(111, 113); assert NoneSieved(125, 127);
    assert NoneSieved(123, 127); assert NoneSieved(121, 127); assert NoneSieved(119, 127);
    assert NoneSieved(117, 127); assert NoneSieved(115, 127); assert NoneSieved(129, 131);
  }

  lemma PrimesOfRow4()
    ensures Follows(131, 137) && Follows(137, 139) && Follows(139, 149) && Follows(149, 151)
    ensures Follows(151, 157) && Follows(157, 163) && Follows(163, 167) && Follows(167, 173)
  {
    assert NoneSieved(135, 137); assert NoneSieved(133, 137); assert NoneSieved(147, 149);
    assert NoneSieved(145, 149); assert NoneSieved(143, 149); assert NoneSieved(141, 149);
    assert NoneSieved(155, 157); assert NoneSieved(153, 157); assert NoneSieved(161, 163);
    assert NoneSieved(159, 163); assert NoneSieved(165, 167); assert NoneSieved(171, 173);
    assert NoneSieved(169, 173);
  }

  lemma PrimesOfRow5()
    ensures Follows(173, 179) && Follows(179, 181) && Follows(181, 191) && Follows(191, 193)
    ensures Follows(193, 197) && Follows(197, 199) && Follows(199, 211) && Follows(211, 223)
  {
    assert NoneSieved(177, 179); assert NoneSieved(175, 179); assert NoneSieved(189, 191);
    assert NoneSieved(187, 191); assert NoneSieved(185, 191); assert NoneSieved(183, 191);
    assert NoneSieved(195, 197); assert NoneSieved(209, 211); assert NoneSieved(207, 211);
    assert NoneSieved(205, 211); assert NoneSieved(203, 211); assert NoneSieved(201, 211);
    assert NoneSieved(221, 223); assert NoneSieved(219, 223); assert NoneSieved(217, 223);
    assert NoneSieved(215, 223); assert NoneSieved(213, 223);
  }

  lemma PrimesOfRow6()
    ensures Follows(223, 227) && Follows(227, 229) && Follows(229, 233) && Follows(233, 239)
    ensures Follows(239, 241) && Follows(241, 251) && Follows(251, 257) && Follows(257, 263)
  {
    assert NoneSieved(225, 227); assert NoneSieved(231, 233); assert NoneSieved(237, 239);
    assert NoneSieved(235, 239); assert NoneSieved(249, 251); assert NoneSieved(247, 251);
    assert NoneSieved(245, 251); assert NoneSieved(243, 251); assert NoneSieved(255, 257);
    assert NoneSieved(253, 257); assert NoneSieved(261, 263); assert NoneSieved(259, 263);
  }

  lemma PrimesOfRow7()
    ensures Follows(263, 269) && Follows(269, 271) && Follows(271, 277) && Follows(277, 281)
    ensures Follows(281, 283) && Follows(283, 293) && Follows(293, 307) && Follows(307, 311)
  {
    assert NoneSieved(267, 269); assert NoneSieved(265, 269); assert NoneSieved(275, 277);
    assert NoneSieved(273, 277); assert NoneSieved(279, 281); assert NoneSieved(291, 293);
    assert NoneSieved(289, 293); assert NoneSieved(287, 293); assert NoneSieved(285, 293);
    assert NoneSieved(305, 307); assert NoneSieved(303, 307); assert NoneSieved(301, 307);
    assert NoneSieved(299, 307); assert NoneSieved(297, 307); assert NoneSieved(295, 307);
    assert NoneSieved(309, 311);
  }

  lemma PrimeAfter(r: int, c: int)
    requires 0 <= r < 8 && 0 <= c < 8
    ensures Follows(if c > 0 then PrimeRow(r)[c - 1] else if r > 0 then PrimeRow(r - 1)[7] else 1, PrimeRow(r)[c])
  {
    hide Follows;
    PrimesOfRow0(); PrimesOfRow1(); PrimesOfRow2(); PrimesOfRow3();
    PrimesOfRow4(); PrimesOfRow5(); PrimesOfRow6(); PrimesOfRow7();
  }

  /** The table starts with 2 and goes on with the next prime each time. */
  lemma PrimesInOrder(t: int)
    requires 0 <= t < 64
    ensures if t == 0 then Prime(0) == 2 else IsNextPrime(Prime(t - 1), Prime(t))
  {
    hide PrimeRow, Follows;
    PrimeAfter(t / 8, t % 8);
    if t > 0 {
      FollowsIsNext(Prime(t - 1), Prime(t));
    } else {
      FirstPrime();
    }
  }

  lemma FirstPrime()
    ensures PrimeRow(0)[0] == 2
  {
  }

  // ----- roots ------------------------------------------------------------

  const TWO32 := 0x1_0000_0000

  /** f and w are the whole part and the first 32 fractional bits of the cube root of p. */
  predicate IsCubeRoot(p: int, f: int, w: word) {
    var x := f * TWO32 + w as int;
    f * f * f <= p < (f + 1) * (f + 1) * (f + 1) &&
    x * x * x <= p * (TWO32 * TWO32 * TWO32) < (x + 1) * (x + 1) * (x + 1)
  }

  /** The same for the square root. */
  predicate IsSquareRoot(p: int, f: int, w: word) {
    var x := f * TWO32 + w as int;
    f * f <= p < (f + 1) * (f + 1) && x * x <= p * (TWO32 * TWO32) < (x + 1) * (x + 1)
  }

  lemma CubeRootsOfRow0()
    ensures IsCubeRoot(2, 1, 0x428a2f98) && IsCubeRoot(3, 1, 0x71374491)
    ensures IsCubeRoot(5, 1, 0xb5c0fbcf) && IsCubeRoot(7, 1, 0xe9b5dba5)
    ensures IsCubeRoot(11, 2, 0x3956c25b) && IsCubeRoot(13, 2, 0x59f111f1)
    ensures IsCubeRoot(17, 2, 0x923f82a4) && IsCubeRoot(19, 2, 0xab1c5ed5)
  {
  }

  lemma CubeRootsOfRow1()
    ensures IsCubeRoot(23, 2, 0xd807aa98) && IsCubeRoot(29, 3, 0x12835b01)
    ensures IsCubeRoot(31, 3, 0x243185be) && IsCubeRoot(37, 3, 0x550c7dc3)
    ensures IsCubeRoot(41, 3, 0x72be5d74) && IsCubeRoot(43, 3, 0x80deb1fe)
    ensures IsCubeRoot(47, 3, 0x9bdc06a7) && IsCubeRoot(53, 3, 0xc19bf174)
  {
  }

  lemma CubeRootsOfRow2()
    ensures IsCubeRoot(59, 3, 0xe49b69c1) && IsCubeRoot(61, 3, 0xefbe4786)
    ensures IsCubeRoot(67, 4, 0x0fc19dc6) && IsCubeRoot(71, 4, 0x240ca1cc)
    ensures IsCubeRoot(73, 4, 0x2de92c6f) && IsCubeRoot(79, 4, 0x4a7484aa)
    ensures IsCubeRoot(83, 4, 0x5cb0a9dc) && IsCubeRoot(89, 4, 0x76f988da)
  {
  }

  lemma CubeRootsOfRow3()
    ensures IsCubeRoot(97, 4, 0x983e5152) && IsCubeRoot(101, 4, 0xa831c66d)
    ensures IsCubeRoot(103, 4, 0xb00327c8) && IsCubeRoot(107, 4, 0xbf597fc7)
    ensures IsCubeRoot(109, 4, 0xc6e00bf3) && IsCubeRoot(113, 4, 0xd5a79147)
    ensures IsCubeRoot(127, 5, 0x06ca6351) && IsCubeRoot(131, 5, 0x14292967)
  {
  }

  lemma CubeRootsOfRow4()
    ensures IsCubeRoot(137, 5, 0x27b70a85) && IsCubeRoot(139, 5, 0x2e1b2138)
    ensures IsCubeRoot(149, 5, 0x4d2c6dfc) && IsCubeRoot(151, 5, 0x53380d13)
    ensures IsCubeRoot(157, 5, 0x650a7354) && IsCubeRoot(163, 5, 0x766a0abb)
    ensures IsCubeRoot(167, 5, 0x81c2c92e) && IsCubeRoot(173, 5, 0x92722c85)
  {
  }

  lemma CubeRootsOfRow5()
    ensures IsCubeRoot(179, 5, 0xa2bfe8a1) && IsCubeRoot(181, 5, 0xa81a664b)
    ensures IsCubeRoot(191, 5, 0xc24b8b70) && IsCubeRoot(193, 5, 0xc76c51a3)
    ensures IsCubeRoot(197, 5, 0xd192e819) && IsCubeRoot(199, 5, 0xd6990624)
    ensures IsCubeRoot(211, 5, 0xf40e3585) && IsCubeRoot(223, 6, 0x106aa070)
  {
  }

  lemma CubeRootsOfRow6()
    ensures IsCubeRoot(227, 6, 0x19a4c116) && IsCubeRoot(229, 6, 0x1e376c08)
    ensures IsCubeRoot(233, 6, 0x2748774c) && IsCubeRoot(239, 6, 0x34b0bcb5)
    ensures IsCubeRoot(241, 6, 0x391c0cb3) && IsCubeRoot(251, 6, 0x4ed8aa4a)
    ensures IsCubeRoot(257, 6, 0x5b9cca4f) && IsCubeRoot(263, 6, 0x682e6ff3)
  {
  }

  lemma CubeRootsOfRow7()
    ensures IsCubeRoot(269, 6, 0x748f82ee) && IsCubeRoot(271, 6, 0x78a5636f)
    ensures IsCubeRoot(277, 6, 0x84c87814) && IsCubeRoot(281, 6, 0x8cc70208)
    ensures IsCubeRoot(283, 6, 0x90befffa) && IsCubeRoot(293, 6, 0xa4506ceb)
    ensures IsCubeRoot(307, 6, 0xbef9a3f7) && IsCubeRoot(311, 6, 0xc67178f2)
  {
  }

  lemma CubeRootAt(r: int, c: int) returns (f: int)
    requires 0 <= r < 8 && 0 <= c < 8
    ensures IsCubeRoot(PrimeRow(r)[c], f, KRow(r)[c])
  {
    hide IsCubeRoot;
    CubeRootsOfRow0(); CubeRootsOfRow1(); CubeRootsOfRow2(); CubeRootsOfRow3();
    CubeRootsOfRow4(); CubeRootsOfRow5(); CubeRootsOfRow6(); CubeRootsOfRow7();
    var p := PrimeRow(r)[c];
    f := if p < 8 then 1 else if p < 27 then 2 else if p < 64 then 3
         else if p < 125 then 4 else if p < 216 then 5 else 6;
  }

  /** Section 4.2.2: round constant t is the fraction of the cube root of the t-th prime. */
  lemma RoundConstants(t: int) returns (f: int)
    requires 0 <= t < 64
    ensures IsCubeRoot(Prime(t), f, KAt(t))
  {
    hide IsCubeRoot, PrimeRow, KRow;
    f := CubeRootAt(t / 8, t % 8);
  }

  /** Section 5.3.3: the initial hash value is the fractions of the square roots of the first
      eight primes. */
  lemma InitialHashValue(t: int) returns (f: int)
    requires 0 <= t < 8
    ensures IsSquareRoot(Prime(t), f, Initial()[t])
  {
    hide IsSquareRoot;
    SquareRoots();
    var p := PrimeRow(0)[t];
    f := if p < 4 then 1 else if p < 9 then 2 else if p < 16 then 3 else 4;
  }

  lemma SquareRoots()
    ensures IsSquareRoot(2, 1, 0x6a09e667) && IsSquareRoot(3, 1, 0xbb67ae85)
    ensures IsSquareRoot(5, 2, 0x3c6ef372) && IsSquareRoot(7, 2, 0xa54ff53a)
    ensures IsSquareRoot(11, 3, 0x510e527f) && IsSquareRoot(13, 3, 0x9b05688c)
    ensures IsSquareRoot(17, 4, 0x1f83d9ab) && IsSquareRoot(19, 4, 0x5be0cd19)
  {
  }
}
