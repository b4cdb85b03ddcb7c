/** The bytes of a string as the checksum takes them. */
module Octets {
  import opened Bytes

  /** Bit by bit, highest first. */
  function ToOctet(n: nat): bv8
  {
    if n == 0 then 0 else Doubled(ToOctet(n / 2), n % 2 == 1)
  }

  function Doubled(v: bv8, odd: bool): bv8 { (v << 1) | if odd then 1 else 0 }

  function FromOctet(v: bv8): nat { v as nat }

  lemma FromDoubled(v: bv8, odd: bool)
    requires v < 128
    ensures FromOctet(Doubled(v, odd)) == 2 * FromOctet(v) + if odd then 1 else 0
  {}

  lemma Below128(v: bv8)
    ensures FromOctet(v) < 128 ==> v < 128
  {}

  lemma {:induction false} OctetAndBack(n: nat)
    requires n < 256
    ensures FromOctet(ToOctet(n)) == n
  {
    hide Doubled, FromOctet;
    if n == 0 {
      ZeroOctet();
    } else {
      OctetAndBack(n / 2);
      Below128(ToOctet(n / 2));
      FromDoubled(ToOctet(n / 2), n % 2 == 1);
    }
  }

  lemma ZeroOctet()
    ensures FromOctet(0) == 0
  {}

  lemma BackAndOctet(v: bv8)
    ensures FromOctet(v) < 256 && ToOctet(FromOctet(v)) == v
  {
    hide ToOctet;
    SmallOctet(v);
    OctetAndBack(FromOctet(v));
    OctetIsNumber(v);
    OctetIsNumber(ToOctet(FromOctet(v)));
  }

  lemma SmallOctet(v: bv8)
    ensures FromOctet(v) < 256
  {}

  lemma OctetIsNumber(v: bv8)
    ensures FromOctet(v) < 256 && FromOctet(v) as bv8 == v
  {}

  function ToOctets(s: Str): (r: seq<bv8>)
    ensures |r| == |s|
  {
    seq(|s|, i requires 0 <= i < |s| => ToOctet(s[i] as nat))
  }

  lemma OctetsDiffer(a: byte, b: byte)
    requires a != b
    ensures ToOctet(a as nat) != ToOctet(b as nat)
  {
    hide ToOctet, FromOctet;
    OctetAndBack(a as nat);
    OctetAndBack(b as nat);
  }
}
