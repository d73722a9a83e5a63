/** Octets as bit vectors and as numbers. */
module Octets {
  type Byte = x: nat | x < 256

  /** The octet of a number below 256, counted up: conversions of numbers to bit vectors stay out of the proofs. */
  function FromNat(n: nat): bv8
    requires n < 256
  {
    if n == 0 then 0 else FromNat(n - 1) + 1
  }

  /** `x as u8` of an integer: the low octet. */
  function Octet(x: int): bv8 {
    FromNat(x % 256)
  }

  lemma NextOctet(b: bv8)
    requires b != 0xFF
    ensures (b + 1) as nat == b as nat + 1
  {
  }

  lemma OctetBackAgain(b: bv8)
    ensures (b as nat) as bv8 == b
  {
  }

  lemma {:induction false} FromNatBack(n: nat)
    requires n < 256
    ensures FromNat(n) as nat == n
  {
    if n > 0 {
      FromNatBack(n - 1);
      assert (0xFF as bv8) as nat == 255;
      NextOctet(FromNat(n - 1));
    }
  }

  /** The low octet of a number has the value of the number modulo 256. */
  lemma OctetAsInt(x: int)
    ensures Octet(x) as int == x % 256
  {
    FromNatBack(x % 256);
  }

  lemma OctetBound(b: bv8)
    ensures b as nat < 256
  {
  }

  lemma SameIntSameOctet(a: bv8, b: bv8)
    requires a as nat == b as nat
    ensures a == b
  {
    OctetBackAgain(a);
    OctetBackAgain(b);
  }

  lemma OctetsEqual(x: int, y: int)
    ensures Octet(x) == Octet(y) <==> x % 256 == y % 256
  {
    OctetAsInt(x);
    OctetAsInt(y);
  }

  lemma SmallFitsNibble(b: bv8)
    requires b as nat < 16
    ensures b & 0xF0 == 0
  {
  }

  /** Comparing under a nibble mask is comparing that nibble. */
  lemma NibbleMasks(octet: bv8, b: bv8)
    requires b & 0xF0 == 0
    ensures octet & 0x0F == b & 0x0F <==> octet & 0x0F == b
    ensures octet & 0xF0 == (b << 4) & 0xF0 <==> octet >> 4 == b
  {
  }
}
