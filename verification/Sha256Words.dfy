/** The functions of section 4.1.2 of FIPS 180-4 on 32-bit vectors, and what they do to single
    bits. */
module Sha256Words {

  function Choose(x: bv32, y: bv32, z: bv32): bv32 { (x & y) ^ ((!x) & z) }
  function Majority(x: bv32, y: bv32, z: bv32): bv32 { (x & y) ^ (x & z) ^ (y & z) }
  function Sum0(x: bv32): bv32 { x.RotateRight(2) ^ x.RotateRight(13) ^ x.RotateRight(22) }
  function Sum1(x: bv32): bv32 { x.RotateRight(6) ^ x.RotateRight(11) ^ x.RotateRight(25) }
  function Mix0(x: bv32): bv32 { x.RotateRight(7) ^ x.RotateRight(18) ^ (x >> 3) }
  function Mix1(x: bv32): bv32 { x.RotateRight(17) ^ x.RotateRight(19) ^ (x >> 10) }

  /** Choose: y where x has ones, z where x has zeros. */
  lemma ChooseSelects(x: bv32, y: bv32, z: bv32)
    ensures Choose(x, y, z) & x == y & x && Choose(x, y, z) & !x == z & !x
  {
  }

  /** Majority: where x and y agree it is theirs, where they differ z decides. */
  lemma MajorityDecides(x: bv32, y: bv32, z: bv32)
    ensures Majority(x, y, z) & !(x ^ y) == x & !(x ^ y) && Majority(x, y, z) & (x ^ y) == z & (x ^ y)
  {
  }

  /** The sums rotate by 2, 13, 22 and by 6, 11, 25; rotation as section 3.2 defines it. */
  lemma SumsRotate(x: bv32)
    ensures Sum0(x) == ((x >> 2) | (x << 30)) ^ ((x >> 13) | (x << 19)) ^ ((x >> 22) | (x << 10))
    ensures Sum1(x) == ((x >> 6) | (x << 26)) ^ ((x >> 11) | (x << 21)) ^ ((x >> 25) | (x << 7))
  {
  }

  /** The mixes rotate by 7, 18 and by 17, 19, and shift by 3 and by 10. */
  lemma MixesRotateAndShift(x: bv32)
    ensures Mix0(x) == ((x >> 7) | (x << 25)) ^ ((x >> 18) | (x << 14)) ^ (x >> 3)
    ensures Mix1(x) == ((x >> 17) | (x << 15)) ^ ((x >> 19) | (x << 13)) ^ (x >> 10)
  {
  }
}
