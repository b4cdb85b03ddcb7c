/** db/SSTable.h:103-107: the four bytes after each block. */
module BlockTrailers {
  import opened Bytes
  import opened Coding
  import opened Crc32c
  import opened Crc32cDivision
  import opened Octets

  const TRAILER_SIZE: nat := 4

  function ToWord(v: bv32): Word { v as int }

  function FromWord(w: Word): bv32 { w as bv32 }

  /** The masked checksum of the block and of one more byte, the first of `trailer`, which SSTable.h:105 reads
      before anything has set it. */
  function BlockTrailer(stored: Str, unset: byte): (r: Str)
    ensures |r| == TRAILER_SIZE
  {
    Fixed32(ToWord(Mask(Crc(Value(ToOctets(stored)), [ToOctet(unset as nat)]))))
  }

  ghost predicate Checksummed(stored: Str, trailer: Str)
  {
    exists unset: byte :: trailer == BlockTrailer(stored, unset)
  }

  lemma ChecksummedSize(stored: Str, trailer: Str)
    requires Checksummed(stored, trailer)
    ensures |trailer| == TRAILER_SIZE
  {}

  /** What a reader finds there: unmasked, the checksum of the block and that byte. */
  lemma TrailerReads(stored: Str, unset: byte)
    ensures Unmask(FromWord(DecodeFixed32(BlockTrailer(stored, unset), 0)))
            == Value(ToOctets(stored) + [ToOctet(unset as nat)])
  {
    hide Value, Crc, Mask, Unmask, Fixed32, DecodeFixed32, ToWord, FromWord, ToOctet;
    var u, trailer := [ToOctet(unset as nat)], BlockTrailer(stored, unset);
    ValueExtended(ToOctets(stored), u);
    var masked := Mask(Value(ToOctets(stored) + u));
    assert trailer[0..4] == Fixed32(ToWord(masked));
    Fixed32RoundTrip(trailer, 0, ToWord(masked));
    WordAndBack(masked);
    MaskBijective(Value(ToOctets(stored) + u));
  }

  /** The word that crc32c.cpp:249-251 loads is the one coding::DecodeFixed32 gives for the same bytes. */
  lemma LoadsDecoded(s: Str, p: nat)
    requires p + 4 <= |s|
    ensures ToWord(ReadUint32LE(ToOctets(s), p)) == DecodeFixed32(s, p)
  {
    hide ToOctet, Join, ToWord, FromOctet;
    var a, b, c, d := s[p] as nat, s[p + 1] as nat, s[p + 2] as nat, s[p + 3] as nat;
    OctetAndBack(a);
    OctetAndBack(b);
    OctetAndBack(c);
    OctetAndBack(d);
    JoinWeights(ToOctet(a), ToOctet(b), ToOctet(c), ToOctet(d));
  }

  function Beside(hi: bv32, b: bv8): bv32 { (hi << 8) | (b as bv32) }

  lemma JoinBeside(b0: bv8, b1: bv8, b2: bv8, b3: bv8)
    ensures Join(b0, b1, b2, b3) == Beside(Beside(Beside(b3 as bv32, b2), b1), b0)
    ensures Beside(b3 as bv32, b2) < 0x1_0000 && Beside(Beside(b3 as bv32, b2), b1) < 0x100_0000
  {}

  lemma BesideWeight(hi: bv32, b: bv8)
    requires hi < 0x100_0000
    ensures ToWord(Beside(hi, b)) == 0x100 * ToWord(hi) + FromOctet(b)
  {}

  lemma WideOctet(b: bv8)
    ensures ToWord(b as bv32) == FromOctet(b) && (b as bv32) < 0x100
  {}

  lemma JoinWeights(b0: bv8, b1: bv8, b2: bv8, b3: bv8)
    ensures ToWord(Join(b0, b1, b2, b3)) ==
            FromOctet(b0) + 0x100 * FromOctet(b1) + 0x1_0000 * FromOctet(b2) + 0x100_0000 * FromOctet(b3)
  {
    hide Join, Beside, ToWord, FromOctet;
    JoinBeside(b0, b1, b2, b3);
    WideOctet(b3);
    BesideWeight(b3 as bv32, b2);
    BesideWeight(Beside(b3 as bv32, b2), b1);
    BesideWeight(Beside(Beside(b3 as bv32, b2), b1), b0);
  }

  /** Whatever that byte is, as long as it is the same: blocks of one length that differ within four consecutive
      bytes only have different trailers. */
  lemma TrailerDetects(a: Str, b: Str, j: nat, unset: byte)
    requires |a| == |b| && a != b && forall k :: 0 <= k < |a| && !(j <= k < j + 4) ==> a[k] == b[k]
    ensures BlockTrailer(a, unset) != BlockTrailer(b, unset)
  {
    hide Value, Crc, Mask, Fixed32, ToWord, ToOctet;
    var x, y, u := ToOctets(a), ToOctets(b), [ToOctet(unset as nat)];
    var i :| 0 <= i < |a| && a[i] != b[i];
    OctetsDiffer(a[i], b[i]);
    assert x[i] != y[i] && (x + u)[i] != (y + u)[i];
    FourByteBurstDetected(x + u, y + u, j);
    ValueExtended(x, u);
    ValueExtended(y, u);
    MaskBijective(Value(x + u));
    MaskBijective(Value(y + u));
    WordBytesDiffer(Mask(Value(x + u)), Mask(Value(y + u)));
  }

  lemma ValueExtended(x: seq<bv8>, u: seq<bv8>)
    ensures Crc(Value(x), u) == Value(x + u)
  {
    hide Crc;
    Streaming(0, x, u);
  }

  lemma WordAndBack(v: bv32)
    ensures FromWord(ToWord(v)) == v
  {}

  lemma FixedDiffer(m: nat, n: nat)
    requires m < WORD_SIZE && n < WORD_SIZE && m != n
    ensures Fixed32(m) != Fixed32(n)
  {
    hide Fixed32, DecodeFixed32;
    assert Fixed32(m)[0..4] == Fixed32(m) && Fixed32(n)[0..4] == Fixed32(n);
    Fixed32RoundTrip(Fixed32(m), 0, m);
    Fixed32RoundTrip(Fixed32(n), 0, n);
  }

  lemma WordBytesDiffer(v: bv32, w: bv32)
    requires v != w
    ensures Fixed32(ToWord(v)) != Fixed32(ToWord(w))
  {
    hide Fixed32, ToWord, FromWord;
    WordAndBack(v);
    WordAndBack(w);
    FixedDiffer(ToWord(v), ToWord(w));
  }
}
