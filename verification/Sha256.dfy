/** The hash of the Rust benchmark adapter (edge/driver-bench/src/main.rs) against
    FIPS 180-4: padding (section 5.1.1), the functions of section 4.1.2, and the
    computation of section 6.2.2. The standard's eight working variables are written as
    two recurrences, A and E, of which the variables are the last four values each. */
module Sha256 {
  import opened Sha256Words

  newtype byte = x: int | 0 <= x < 256
  newtype word = x: int | 0 <= x < 0x1_0000_0000

  /** Addition modulo 2^32 (`wrapping_add`). */
  function Add(x: word, y: word): word {
    ((x as int + y as int) % 0x1_0000_0000) as word
  }

  function Bits(x: word): bv32 { x as bv32 }
  function FromBits(b: bv32): word { b as word }

  /** The round constants (section 4.2.2), in rows of eight. */
  function KRow(r: int): (row: seq<word>)
    requires 0 <= r < 8
    ensures |row| == 8
  {
    if r == 0 then
      [0x428a2f98, 0x71374491, 0xb5c0fbcf, 0xe9b5dba5, 0x3956c25b, 0x59f111f1, 0x923f82a4, 0xab1c5ed5]
    else if r == 1 then
      [0xd807aa98, 0x12835b01, 0x243185be, 0x550c7dc3, 0x72be5d74, 0x80deb1fe, 0x9bdc06a7, 0xc19bf174]
    else if r == 2 then
      [0xe49b69c1, 0xefbe4786, 0x0fc19dc6, 0x240ca1cc, 0x2de92c6f, 0x4a7484aa, 0x5cb0a9dc, 0x76f988da]
    else if r == 3 then
      [0x983e5152, 0xa831c66d, 0xb00327c8, 0xbf597fc7, 0xc6e00bf3, 0xd5a79147, 0x06ca6351, 0x14292967]
    else if r == 4 then
      [0x27b70a85, 0x2e1b2138, 0x4d2c6dfc, 0x53380d13, 0x650a7354, 0x766a0abb, 0x81c2c92e, 0x92722c85]
    else if r == 5 then
      [0xa2bfe8a1, 0xa81a664b, 0xc24b8b70, 0xc76c51a3, 0xd192e819, 0xd6990624, 0xf40e3585, 0x106aa070]
    else if r == 6 then
      [0x19a4c116, 0x1e376c08, 0x2748774c, 0x34b0bcb5, 0x391c0cb3, 0x4ed8aa4a, 0x5b9cca4f, 0x682e6ff3]
    else
      [0x748f82ee, 0x78a5636f, 0x84c87814, 0x8cc70208, 0x90befffa, 0xa4506ceb, 0xbef9a3f7, 0xc67178f2]
  }

  /** The initial hash value (section 5.3.3). */
  function Initial(): (h: seq<word>)
    ensures |h| == 8
  {
    [0x6a09e667, 0xbb67ae85, 0x3c6ef372, 0xa54ff53a, 0x510e527f, 0x9b05688c, 0x1f83d9ab, 0x5be0cd19]
  }

  function KAt(t: int): word
    requires 0 <= t < 64
  {
    KRow(t / 8)[t % 8]
  }

  // ----- section 4.1.2 ----------------------------------------------------

  function Ch(x: word, y: word, z: word): word { FromBits(Choose(Bits(x), Bits(y), Bits(z))) }
  function Maj(x: word, y: word, z: word): word { FromBits(Majority(Bits(x), Bits(y), Bits(z))) }
  function BigSigma0(x: word): word { FromBits(Sum0(Bits(x))) }
  function BigSigma1(x: word): word { FromBits(Sum1(Bits(x))) }
  function SmallSigma0(x: word): word { FromBits(Mix0(Bits(x))) }
  function SmallSigma1(x: word): word { FromBits(Mix1(Bits(x))) }

  // ----- section 6.2.2 ----------------------------------------------------

  /** Four bytes, most significant first. */
  function Word(b0: byte, b1: byte, b2: byte, b3: byte): word {
    (((b0 as int * 256 + b1 as int) * 256 + b2 as int) * 256 + b3 as int) as word
  }

  /** The message schedule. */
  function W(block: seq<byte>, t: int): word
    requires |block| == 64 && 0 <= t < 64
    decreases t
  {
    if t < 16 then Word(block[4 * t], block[4 * t + 1], block[4 * t + 2], block[4 * t + 3])
    else Add(Add(Add(SmallSigma1(W(block, t - 2)), W(block, t - 7)), SmallSigma0(W(block, t - 15))), W(block, t - 16))
  }

  function Round1(h: word, e: word, f: word, g: word, k: word, w: word): word {
    Add(Add(Add(Add(h, BigSigma1(e)), Ch(e, f, g)), k), w)
  }

  function Round2(a: word, b: word, c: word): word {
    Add(BigSigma0(a), Maj(a, b, c))
  }

  /** The first temporary value of round t, from the E recurrence. */
  function T1(h: seq<word>, block: seq<byte>, t: int): word
    requires |h| == 8 && |block| == 64 && 0 <= t < 64
    decreases t + 3, 2
  {
    Round1(E(h, block, t - 3), E(h, block, t), E(h, block, t - 1), E(h, block, t - 2), KAt(t), W(block, t))
  }

  /** Value of working variable `a` before round t; b, c and d are the three values before it. */
  function A(h: seq<word>, block: seq<byte>, t: int): word
    requires |h| == 8 && |block| == 64 && -3 <= t <= 64
    decreases t + 3, 1
  {
    if t <= 0 then h[-t]
    else Add(T1(h, block, t - 1), Round2(A(h, block, t - 1), A(h, block, t - 2), A(h, block, t - 3)))
  }

  /** Value of working variable `e` before round t; f, g and h are the three values before it. */
  function E(h: seq<word>, block: seq<byte>, t: int): word
    requires |h| == 8 && |block| == 64 && -3 <= t <= 64
    decreases t + 3, 1
  {
    if t <= 0 then h[4 - t] else Add(A(h, block, t - 4), T1(h, block, t - 1))
  }

  /** The hash value after one block. */
  function NextHash(h: seq<word>, block: seq<byte>): (next: seq<word>)
    requires |h| == 8 && |block| == 64
    ensures |next| == 8
  {
    var n := |block|;  // 64 rounds
    [Add(h[0], A(h, block, n)), Add(h[1], A(h, block, n - 1)),
     Add(h[2], A(h, block, n - 2)), Add(h[3], A(h, block, n - 3)),
     Add(h[4], E(h, block, n)), Add(h[5], E(h, block, n - 1)),
     Add(h[6], E(h, block, n - 2)), Add(h[7], E(h, block, n - 3))]
  }

  // ----- the same in the standard's words ---------------------------------

  lemma AddFive(a: word, b: word, c: word, d: word, e: word)
    ensures Add(Add(Add(Add(a, b), c), d), e) as int ==
            (a as int + b as int + c as int + d as int + e as int) % 0x1_0000_0000
  {
    AddFour(a, b, c, d);
    ModAdd(a as int + b as int + c as int + d as int, e as int);
  }

  /** Step 1 of section 6.2.2: sixteen words of four bytes, then sums of four. */
  lemma ScheduleLaw(block: seq<byte>, t: int)
    requires |block| == 64 && 0 <= t < 64
    ensures t < 16 ==> W(block, t) == Word(block[4 * t], block[4 * t + 1], block[4 * t + 2], block[4 * t + 3])
    ensures t >= 16 ==>
              W(block, t) as int ==
              (SmallSigma1(W(block, t - 2)) as int + W(block, t - 7) as int +
               SmallSigma0(W(block, t - 15)) as int + W(block, t - 16) as int) % 0x1_0000_0000
  {
    hide Add, SmallSigma0, SmallSigma1, Word;
    if t >= 16 {
      AddFour(SmallSigma1(W(block, t - 2)), W(block, t - 7), SmallSigma0(W(block, t - 15)), W(block, t - 16));
    }
  }

  /** The eight working variables before round t. */
  function Variables(h: seq<word>, block: seq<byte>, t: int): (v: seq<word>)
    requires |h| == 8 && |block| == 64 && 0 <= t <= 64
    ensures |v| == 8
  {
    [A(h, block, t), A(h, block, t - 1), A(h, block, t - 2), A(h, block, t - 3),
     E(h, block, t), E(h, block, t - 1), E(h, block, t - 2), E(h, block, t - 3)]
  }

  /** Steps 2 and 3 of section 6.2.2: the variables start as the hash value; a round moves each
      one down, and gives a and e their sums modulo 2^32. */
  lemma RoundLaw(h: seq<word>, block: seq<byte>, t: int)
    requires |h| == 8 && |block| == 64 && 0 <= t < 64
    ensures Variables(h, block, 0) == h
    ensures var v, next := Variables(h, block, t), Variables(h, block, t + 1);
            var t1 := v[7] as int + BigSigma1(v[4]) as int + Ch(v[4], v[5], v[6]) as int +
                      KAt(t) as int + W(block, t) as int;
            var t2 := BigSigma0(v[0]) as int + Maj(v[0], v[1], v[2]) as int;
            && next[1..4] == v[..3] && next[5..] == v[4..7]
            && next[0] as int == (t1 + t2) % 0x1_0000_0000
            && next[4] as int == (v[3] as int + t1) % 0x1_0000_0000
  {
    hide A, E, W, KAt, BigSigma0, BigSigma1, Ch, Maj, Add;
    var v := Variables(h, block, t);
    Start(h, block);
    Unfolded(h, block, t);
    RoundSums(v[7], BigSigma1(v[4]), Ch(v[4], v[5], v[6]), KAt(t), W(block, t),
              BigSigma0(v[0]), Maj(v[0], v[1], v[2]), v[3]);
  }

  lemma Unfolded(h: seq<word>, block: seq<byte>, t: int)
    requires |h| == 8 && |block| == 64 && 0 <= t < 64
    ensures var t1 := Round1(E(h, block, t - 3), E(h, block, t), E(h, block, t - 1), E(h, block, t - 2),
                             KAt(t), W(block, t));
            A(h, block, t + 1) == Add(t1, Round2(A(h, block, t), A(h, block, t - 1), A(h, block, t - 2))) &&
            E(h, block, t + 1) == Add(A(h, block, t - 3), t1)
  {
    hide W, KAt, Round1, Round2, Add;
  }

  lemma Start(h: seq<word>, block: seq<byte>)
    requires |h| == 8 && |block| == 64
    ensures Variables(h, block, 0) == h
  {
  }

  lemma RoundSums(h: word, s1: word, ch: word, k: word, w: word, s0: word, maj: word, d: word)
    ensures var t1 := Add(Add(Add(Add(h, s1), ch), k), w);
            var sum := h as int + s1 as int + ch as int + k as int + w as int;
            Add(t1, Add(s0, maj)) as int == (sum + (s0 as int + maj as int)) % 0x1_0000_0000 &&
            Add(d, t1) as int == (d as int + sum) % 0x1_0000_0000
  {
    hide Add;
    AddFive(h, s1, ch, k, w);
    var t1, t2 := Add(Add(Add(Add(h, s1), ch), k), w), Add(s0, maj);
    var sum := h as int + s1 as int + ch as int + k as int + w as int;
    AddIs(s0, maj);
    AddIs(t1, t2);
    AddIs(d, t1);
    ModAdd(sum, d as int);
    ModAdd(sum, t2 as int);
    ModAdd(s0 as int + maj as int, sum);
  }

  lemma AddIs(x: word, y: word)
    ensures Add(x, y) as int == (x as int + y as int) % 0x1_0000_0000
  {
  }

  /** Step 4 of section 6.2.2: the variables after round 64 are added to the hash value. */
  lemma NextHashLaw(h: seq<word>, block: seq<byte>, i: int)
    requires |h| == 8 && |block| == 64 && 0 <= i < 8
    ensures NextHash(h, block)[i] as int ==
            (h[i] as int + Variables(h, block, |block|)[i] as int) % 0x1_0000_0000
  {
    hide A, E;
  }

  function Block(padded: seq<byte>, i: nat): (block: seq<byte>)
    requires 64 * (i + 1) <= |padded|
    ensures |block| == 64
  {
    padded[64 * i..64 * (i + 1)]
  }

  /** The hash value after the first `n` blocks of a padded message. */
  function HashBlocks(padded: seq<byte>, n: nat): (h: seq<word>)
    requires 64 * n <= |padded|
    ensures |h| == 8
  {
    hide NextHash;
    if n == 0 then Initial()
    else NextHash(HashBlocks(padded, n - 1), Block(padded, n - 1))
  }

  // ----- section 5.1.1 ----------------------------------------------------

  function Zeros(k: nat): (z: seq<byte>)
    ensures |z| == k
  {
    seq(k, _ => 0)
  }

  /** The `k` low bytes of n, most significant first. */
  function BigEndian(n: nat, k: nat): (b: seq<byte>)
    ensures |b| == k
  {
    if k == 0 then [] else BigEndian(n / 256, k - 1) + [(n % 256) as byte]
  }

  const TWO64: int := 0x1_0000_0000_0000_0000

  /** Zero bytes between the 0x80 byte and the length. */
  function ZeroCount(len: nat): (k: nat)
    ensures k < 64 && (len + 1 + k) % 64 == 56
  {
    (55 - len) % 64
  }

  /** The length field is 64 bits of the message length in bits, and wraps as `u64` does. */
  function Padded(m: seq<byte>): (p: seq<byte>)
    ensures |p| % 64 == 0
  {
    PaddedSize(|m|);
    m + [0x80] + Zeros(ZeroCount(|m|)) + BigEndian(8 * |m| % TWO64, 8)
  }

  lemma PaddedSize(len: nat)
    ensures (len + 1 + ZeroCount(len) + 8) % 64 == 0
  {
  }

  function Hash(m: seq<byte>): (h: seq<word>)
    ensures |h| == 8
  {
    HashBlocks(Padded(m), |Padded(m)| / 64)
  }

  /** In bits: the 1 bit is followed by the least number of zero bits that brings the
      length to 448 modulo 512. */
  lemma PaddingIsLeast(len: nat, zeroBits: nat)
    requires (8 * len + 1 + zeroBits) % 512 == 448
    ensures zeroBits >= 7 + 8 * ZeroCount(len) && (8 * len + 1 + (7 + 8 * ZeroCount(len))) % 512 == 448
  {
  }

  // ----- padding is injective ---------------------------------------------

  lemma {:induction false} BigEndianInjective(a: nat, b: nat, k: nat)
    requires BigEndian(a, k) == BigEndian(b, k) && a < Pow256(k) && b < Pow256(k)
    ensures a == b
  {
    if k > 0 {
      var x, y := BigEndian(a, k), BigEndian(b, k);
      assert x[..k - 1] == BigEndian(a / 256, k - 1) && y[..k - 1] == BigEndian(b / 256, k - 1);
      assert x[k - 1] == (a % 256) as byte && y[k - 1] == (b % 256) as byte;
      BigEndianInjective(a / 256, b / 256, k - 1);
    }
  }

  function Pow256(k: nat): (p: nat)
    ensures p > 0
  {
    if k == 0 then 1 else 256 * Pow256(k - 1)
  }

  lemma PaddedLength(m: seq<byte>)
    ensures |m| + 9 <= |Padded(m)| < |m| + 73
  {
  }

  lemma LengthField(m: seq<byte>)
    ensures Padded(m)[|Padded(m)| - 8..] == BigEndian(8 * |m| % TWO64, 8) && Padded(m)[..|m|] == m
  {
    hide BigEndian, Zeros;
    var p := Padded(m);
    assert p == (m + [0x80] + Zeros(ZeroCount(|m|))) + BigEndian(8 * |m| % TWO64, 8);
  }

  /** No two messages have the same padding. The length field alone would tell lengths
      apart only below 2^61 bytes, where it does not wrap; with the padded length, which
      leaves 64 candidates, it always does. */
  lemma PaddingIsInjective(m: seq<byte>, m': seq<byte>)
    requires Padded(m) == Padded(m')
    ensures m == m'
  {
    LengthField(m);
    LengthField(m');
    PaddedLength(m);
    PaddedLength(m');
    hide Padded;
    var a, b := 8 * |m| % TWO64, 8 * |m'| % TWO64;
    assert Pow256(8) == TWO64 by { PowerOf256(); }
    BigEndianInjective(a, b, 8);
    CloseAndCongruent(|m|, |m'|);
    assert m == Padded(m)[..|m|] == Padded(m')[..|m'|] == m';
  }

  lemma PowerOf256()
    ensures Pow256(8) == TWO64
  {
    assert Pow256(4) == 0x1_0000_0000;
  }

  lemma CloseAndCongruent(a: nat, b: nat)
    requires 8 * a % TWO64 == 8 * b % TWO64 && -64 < a - b < 64
    ensures a == b
  {
  }

  // ----- the loops of the source ------------------------------------------

  method PadMessage(input: seq<byte>) returns (padded: seq<byte>)
    ensures padded == Padded(input)
  {
    hide BigEndian;
    var bitLen := |input| * 8 % TWO64;
    padded := input + [0x80];
    ghost var k := 0;
    while |padded| % 64 != 56
      invariant 0 <= k <= ZeroCount(|input|)
      invariant padded == input + [0x80] + Zeros(k)
      decreases ZeroCount(|input|) - k
    {
      NotYet(|input|, k);
      padded := padded + [0];
      assert Zeros(k + 1) == Zeros(k) + [0];
      k := k + 1;
    }
    Reached(|input|, k);
    padded := padded + BigEndian(bitLen, 8);
  }

  lemma NotYet(len: nat, k: nat)
    requires k <= ZeroCount(len) && (len + 1 + k) % 64 != 56
    ensures k < ZeroCount(len)
  {
  }

  lemma Reached(len: nat, k: nat)
    requires k <= ZeroCount(len) && (len + 1 + k) % 64 == 56
    ensures k == ZeroCount(len)
  {
  }

  method Schedule(chunk: seq<byte>) returns (schedule: array<word>)
    requires |chunk| == 64
    ensures fresh(schedule) && schedule.Length == 64
    ensures forall t :: 0 <= t < 64 ==> schedule[t] == W(chunk, t)
  {
    hide Word, SmallSigma0, SmallSigma1, Add;
    schedule := new word[64];
    var i := 0;
    while i < 16
      invariant 0 <= i <= 16
      invariant forall t :: 0 <= t < i ==> schedule[t] == W(chunk, t)
    {
      schedule[i] := Word(chunk[4 * i], chunk[4 * i + 1], chunk[4 * i + 2], chunk[4 * i + 3]);
      i := i + 1;
    }
    while i < 64
      invariant 16 <= i <= 64
      invariant forall t :: 0 <= t < i ==> schedule[t] == W(chunk, t)
    {
      var s0 := SmallSigma0(schedule[i - 15]);
      var s1 := SmallSigma1(schedule[i - 2]);
      var w := Add(Add(Add(schedule[i - 16], s0), schedule[i - 7]), s1);
      AddReordered(schedule[i - 16], s0, schedule[i - 7], s1);
      assert w == W(chunk, i);
      schedule[i] := w;
      i := i + 1;
    }
  }

  lemma ModAdd(x: int, y: int)
    ensures (x % 0x1_0000_0000 + y) % 0x1_0000_0000 == (x + y) % 0x1_0000_0000
  {
  }

  lemma AddFour(a: word, b: word, c: word, d: word)
    ensures Add(Add(Add(a, b), c), d) as int == (a as int + b as int + c as int + d as int) % 0x1_0000_0000
  {
    ModAdd(a as int + b as int, c as int);
    ModAdd(a as int + b as int + c as int, d as int);
  }

  lemma AddReordered(a: word, b: word, c: word, d: word)
    ensures Add(Add(Add(a, b), c), d) == Add(Add(Add(d, c), b), a)
  {
    hide Add;
    AddFour(a, b, c, d);
    AddFour(d, c, b, a);
  }

  /** One block, with eight variables that rotate every round. */
  method Compress(state: array<word>, chunk: seq<byte>)
    requires state.Length == 8 && |chunk| == 64
    modifies state
    ensures state[..] == NextHash(old(state[..]), chunk)
  {
    hide W, Add, KAt, BigSigma0, BigSigma1, Ch, Maj;
    ghost var hash := state[..];
    var schedule := Schedule(chunk);
    var a, b, c, d := state[0], state[1], state[2], state[3];
    var e, f, g, h := state[4], state[5], state[6], state[7];
    var i := 0;
    while i < 64
      invariant 0 <= i <= 64
      invariant a == A(hash, chunk, i) && b == A(hash, chunk, i - 1)
      invariant c == A(hash, chunk, i - 2) && d == A(hash, chunk, i - 3)
      invariant e == E(hash, chunk, i) && f == E(hash, chunk, i - 1)
      invariant g == E(hash, chunk, i - 2) && h == E(hash, chunk, i - 3)
    {
      var sum1, choice := BigSigma1(e), Ch(e, f, g);
      var temp1 := Add(Add(Add(Add(h, sum1), choice), KAt(i)), schedule[i]);
      var sum0, majority := BigSigma0(a), Maj(a, b, c);
      var temp2 := Add(sum0, majority);
      h := g;
      g := f;
      f := e;
      e := Add(d, temp1);
      d := c;
      c := b;
      b := a;
      a := Add(temp1, temp2);
      i := i + 1;
    }
    AddBack(state, hash, [a, b, c, d, e, f, g, h]);
  }

  method AddBack(state: array<word>, ghost hash: seq<word>, values: seq<word>)
    requires state.Length == 8 && |values| == 8 && hash == state[..]
    modifies state
    ensures forall k :: 0 <= k < 8 ==> state[k] == Add(hash[k], values[k])
  {
    hide Add;
    var k := 0;
    while k < 8
      invariant 0 <= k <= 8
      invariant forall j :: 0 <= j < k ==> state[j] == Add(hash[j], values[j])
      invariant forall j :: k <= j < 8 ==> state[j] == hash[j]
    {
      state[k] := Add(state[k], values[k]);
      k := k + 1;
    }
  }

  /** The digest words of `sha256_hex`. */
  method Digest(input: seq<byte>) returns (words: seq<word>)
    ensures words == Hash(input)
  {
    hide NextHash;
    var state := new word[8];
    var initial := Initial();
    forall k | 0 <= k < 8 { state[k] := initial[k]; }
    assert state[..] == initial;
    var padded := PadMessage(input);
    var n := |padded| / 64;
    var i := 0;
    while i < n
      invariant 0 <= i <= n && state[..] == HashBlocks(padded, i)
    {
      Compress(state, Block(padded, i));
      i := i + 1;
    }
    words := state[..];
  }

  // ----- the digest as text -----------------------------------------------

  function HexChar(d: int): (c: char)
    requires 0 <= d < 16
    ensures HexValue(c) == d
  {
    if d < 10 then (d + '0' as int) as char else (d - 10 + 'a' as int) as char
  }

  function HexValue(c: char): int {
    if c <= '9' then c as int - '0' as int else c as int - 'a' as int + 10
  }

  /** The `k` low hexadecimal digits of n, lower case (`{word:08x}` for k = 8). */
  function Hex(n: nat, k: nat): (s: string)
    ensures |s| == k
  {
    if k == 0 then "" else Hex(n / 16, k - 1) + [HexChar(n % 16)]
  }

  function HexText(h: seq<word>): (s: string)
    ensures |s| == 8 * |h|
  {
    if h == [] then "" else HexText(h[..|h| - 1]) + Hex(h[|h| - 1] as int, 8)
  }

  function Pow16(k: nat): (p: nat)
    ensures p > 0
  {
    if k == 0 then 1 else 16 * Pow16(k - 1)
  }

  lemma {:induction false} HexInjective(a: nat, b: nat, k: nat)
    requires Hex(a, k) == Hex(b, k) && a < Pow16(k) && b < Pow16(k)
    ensures a == b
  {
    if k > 0 {
      var x, y := Hex(a, k), Hex(b, k);
      assert x[..k - 1] == Hex(a / 16, k - 1) && y[..k - 1] == Hex(b / 16, k - 1);
      assert HexValue(x[k - 1]) == a % 16 && HexValue(y[k - 1]) == b % 16;
      HexInjective(a / 16, b / 16, k - 1);
    }
  }

  /** Different digests have different texts. */
  lemma {:induction false} HexTextInjective(h: seq<word>, h': seq<word>)
    requires HexText(h) == HexText(h')
    ensures h == h'
  {
    hide Hex;
    if h != [] {
      var n := |h| - 1;
      assert |h'| == |h|;
      var x, y := HexText(h), HexText(h');
      assert x[..8 * n] == HexText(h[..n]) && y[..8 * n] == HexText(h'[..n]);
      assert x[8 * n..] == Hex(h[n] as int, 8) && y[8 * n..] == Hex(h'[n] as int, 8);
      HexTextInjective(h[..n], h'[..n]);
      assert Pow16(8) == 0x1_0000_0000 by { assert Pow16(4) == 0x1_0000; }
      HexInjective(h[n] as int, h'[n] as int, 8);
      assert h == h[..n] + [h[n]] && h' == h'[..n] + [h'[n]];
    }
  }

  method Sha256Hex(input: seq<byte>) returns (text: string)
    ensures text == HexText(Hash(input)) && |text| == 64
  {
    hide Hex, Hash;
    var words := Digest(input);
    text := "";
    var i := 0;
    while i < |words|
      invariant 0 <= i <= |words| && text == HexText(words[..i])
    {
      assert words[..i + 1][..i] == words[..i];
      text := text + Hex(words[i] as int, 8);
      i := i + 1;
    }
    assert words[..i] == words;
  }
}
