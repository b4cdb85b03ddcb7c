/** db/bloom.h: Bloom filters over an arbitrary 32-bit hash. */
module Blooms {
  import opened Bytes
  import opened Digits
  import opened Octets

  // ----- bits of a byte

  /** `1 << i` in a byte. */
  function Mask(i: nat): bv8
    requires i < 8
  {
    match i case 0 => 1 case 1 => 2 case 2 => 4 case 3 => 8 case 4 => 16 case 5 => 32 case 6 => 64 case _ => 128
  }

  function ToBits(b: byte): bv8 { ToOctet(b as nat) }

  function ToByte(v: bv8): byte
  {
    SmallOctet(v);
    FromOctet(v) as byte
  }

  function Touches(v: bv8, i: nat): bool
    requires i < 8
  {
    v & Mask(i) != 0
  }

  function SetIn(v: bv8, i: nat): bv8
    requires i < 8
  {
    v | Mask(i)
  }

  /** `array[bitpos / 8] & (1 << (bitpos % 8))` */
  function BitOf(b: byte, i: nat): bool
    requires i < 8
  {
    Touches(ToBits(b), i)
  }

  /** `array[bitpos / 8] |= 1 << (bitpos % 8)` */
  function WithBit(b: byte, i: nat): byte
    requires i < 8
  {
    ToByte(SetIn(ToBits(b), i))
  }

  lemma SetInTouches(v: bv8, i: nat, j: nat)
    requires i < 8 && j < 8
    ensures Touches(SetIn(v, i), j) <==> Touches(v, j) || j == i
  {}

  lemma ByteAndBack(v: bv8)
    ensures ToBits(ToByte(v)) == v
  {
    hide ToOctet, FromOctet;
    BackAndOctet(v);
  }

  lemma WithBitBits(b: byte, i: nat, j: nat)
    requires i < 8 && j < 8
    ensures BitOf(WithBit(b, i), j) <==> BitOf(b, j) || j == i
  {
    hide Touches, SetIn, ToBits, ToByte;
    ByteAndBack(SetIn(ToBits(b), i));
    SetInTouches(ToBits(b), i, j);
  }

  /** Bit `i` of a byte weighs 2^i. */
  lemma BitWeight(b: byte, i: nat)
    requires i < 8
    ensures BitOf(b, i) <==> DigitOf(b as nat, 2, i) == 1
  {
    hide Touches, DigitOf, ToOctet;
    OctetWeight(b as nat, i);
  }

  lemma {:induction false} OctetWeight(n: nat, i: nat)
    requires n < 256 && i < 8
    ensures Touches(ToOctet(n), i) <==> DigitOf(n, 2, i) == 1
    decreases i
  {
    hide Touches, DigitOf, Doubled, FromOctet;
    var half := ToOctet(n / 2);
    OctetHalves(n);
    if i == 0 {
      DigitStep(n, 2, 0);
      TouchesLowest(half, n % 2 == 1);
    } else {
      DigitStep(n, 2, i - 1);
      OctetWeight(n / 2, i - 1);
      TouchesDoubled(half, n % 2 == 1, i - 1);
    }
  }

  lemma OctetHalves(n: nat)
    ensures ToOctet(n) == Doubled(ToOctet(n / 2), n % 2 == 1)
  {
    if n == 0 {
      assert Doubled(0, false) == 0;
    }
  }

  lemma TouchesLowest(v: bv8, odd: bool)
    ensures Touches(Doubled(v, odd), 0) <==> odd
  {}

  lemma TouchesDoubled(v: bv8, odd: bool, i: nat)
    requires i < 7
    ensures Touches(Doubled(v, odd), i + 1) <==> Touches(v, i)
  {}

  lemma ZeroBits(j: nat)
    requires j < 8
    ensures !BitOf(0, j)
  {}

  // ----- probes

  /** db/bloom.h:5-7, over an arbitrary `Hash`. */
  function BloomHash(hash: Str -> Word, key: Str): Word { hash(Cut(key)) }

  /** Bit `p` of a bit array. */
  function Bit(bitmap: Str, p: nat): bool
    requires p / 8 < |bitmap|
  {
    BitOf(bitmap[p / 8], p % 8)
  }

  /** Rotate right by 17. */
  function Delta(h: Word): Word { h / 0x2_0000 + h % 0x2_0000 * 0x8000 }

  /** A rotation by 17: bit `i` of the result is bit `i + 17` of `h`, counted round. */
  lemma DeltaRotates(h: Word, i: nat)
    requires i < 32
    ensures DigitOf(Delta(h), 2, i) == DigitOf(h, 2, (i + 17) % 32)
  {
    hide DigitOf;
    var q, r := h / 0x2_0000, h % 0x2_0000;
    SmallPowers();
    if i < 15 {
      LowPart(r, q, 15, i);
      HighPart(q, r, 17, i);
    } else {
      HighPart(r, q, 15, i - 15);
      LowPart(q, r, 17, i - 15);
    }
  }

  lemma SmallPowers()
    ensures Pow(2, 15) == 0x8000 && Pow(2, 17) == 0x2_0000
  {
    assert Pow(2, 4) == 16;
    assert Pow(2, 8) == 256;
    assert Pow(2, 12) == 4096;
    assert Pow(2, 15) == 0x8000;
  }

  /** The value of `h` when probe `j` is taken: `delta` added `j` times, wrapping. */
  function ProbeHash(h: Word, j: nat): Word
  {
    if j == 0 then h else (ProbeHash(h, j - 1) + Delta(h)) % WORD_SIZE
  }

  lemma {:induction false} ProbeHashIs(h: Word, j: nat)
    ensures ProbeHash(h, j) == (h + j * Delta(h)) % WORD_SIZE
  {
    hide Delta;
    if j > 0 {
      ProbeHashIs(h, j - 1);
      var v, d := h + (j - 1) * Delta(h), Delta(h);
      assert h + j * d == v + d;
      AddModulo(v, d);
    }
  }

  lemma AddModulo(v: nat, d: nat)
    ensures (v % WORD_SIZE + d) % WORD_SIZE == (v + d) % WORD_SIZE
  {
    var q := v / WORD_SIZE;
    assert v + d == WORD_SIZE * q + (v % WORD_SIZE + d);
  }

  function Probe(h: Word, j: nat, bits: nat): (p: nat)
    requires bits > 0
    ensures p < bits
  {
    ProbeHash(h, j) % bits
  }

  /** Where probe `j` falls: double hashing, in 32-bit words, over the bits of the filter. */
  lemma ProbeMeaning(h: Word, j: nat, bits: nat)
    requires bits > 0
    ensures Probe(h, j, bits) == (h + j * Delta(h)) % WORD_SIZE % bits
  {
    ProbeHashIs(h, j);
  }

  /** One of the `k` probes for hash `h` lands on bit `p`. */
  ghost predicate KeyProbes(h: Word, k: nat, bits: nat, p: nat)
    requires bits > 0
  {
    exists j :: 0 <= j < k && Probe(h, j, bits) == p
  }

  /** Some probe of some key lands on bit `p`. */
  ghost predicate Probed(hash: Str -> Word, keys: seq<Str>, k: nat, bits: nat, p: nat)
    requires bits > 0
  {
    exists i :: 0 <= i < |keys| && KeyProbes(BloomHash(hash, keys[i]), k, bits, p)
  }

  lemma ProbedSnoc(hash: Str -> Word, keys: seq<Str>, i: nat, k: nat, bits: nat, p: nat)
    requires bits > 0 && i < |keys|
    ensures Probed(hash, keys[..i + 1], k, bits, p) <==>
            Probed(hash, keys[..i], k, bits, p) || KeyProbes(BloomHash(hash, keys[i]), k, bits, p)
  {
    var a, b := keys[..i], keys[..i + 1];
    assert b == a + [keys[i]];
    if Probed(hash, a, k, bits, p) {
      var m :| 0 <= m < |a| && KeyProbes(BloomHash(hash, a[m]), k, bits, p);
      assert b[m] == a[m];
    }
    if KeyProbes(BloomHash(hash, keys[i]), k, bits, p) {
      assert b[i] == keys[i];
    }
  }

  /** The position of probe `j` for a key, written out. */
  function Position(hash: Str -> Word, key: Str, j: nat, bits: nat): (p: nat)
    requires bits > 0
    ensures p < bits
  {
    var h := BloomHash(hash, key);
    (h + j * Delta(h)) % 0x1_0000_0000 % bits
  }

  /** The bits that building a filter sets: the first `k` positions of each key, and no others. */
  lemma ProbedMeaning(hash: Str -> Word, keys: seq<Str>, k: nat, bits: nat, p: nat)
    requires bits > 0
    ensures Probed(hash, keys, k, bits, p)
            <==> exists i: nat, j: nat :: i < |keys| && j < k && Position(hash, keys[i], j, bits) == p
  {
    hide Probe, Position;
    forall i: nat, j: nat | i < |keys|
      ensures Position(hash, keys[i], j, bits) == Probe(BloomHash(hash, keys[i]), j, bits)
    {
      PositionIs(hash, keys[i], j, bits);
    }
    if Probed(hash, keys, k, bits, p) {
      var i :| 0 <= i < |keys| && KeyProbes(BloomHash(hash, keys[i]), k, bits, p);
      var j :| 0 <= j < k && Probe(BloomHash(hash, keys[i]), j, bits) == p;
      assert Position(hash, keys[i], j, bits) == p;
    }
    if i: nat, j: nat :| i < |keys| && j < k && Position(hash, keys[i], j, bits) == p {
      assert KeyProbes(BloomHash(hash, keys[i]), k, bits, p);
    }
  }

  lemma PositionIs(hash: Str -> Word, key: Str, j: nat, bits: nat)
    requires bits > 0
    ensures Position(hash, key, j, bits) == Probe(BloomHash(hash, key), j, bits)
  {
    ProbeMeaning(BloomHash(hash, key), j, bits);
  }

  /** `f` is the filter for `keys`: the probed bits and no others, then the number of probes. */
  ghost predicate IsFilter(hash: Str -> Word, k: nat, keys: seq<Str>, f: Str)
  {
    && |f| >= 9 && k <= 30 && f[|f| - 1] as int == k
    && forall p :: 0 <= p < (|f| - 1) * 8 ==> (Bit(f, p) <==> Probed(hash, keys, k, (|f| - 1) * 8, p))
  }

  class BloomFilterPolicy {
    const bits_per_key_: nat
    const k_: nat
    const hash: Str -> Word

    /** Converting the product to size_t is undefined from -2 down; -1 becomes 2^64 - 1. */
    constructor (bits_per_key: int, hash: Str -> Word)
      requires -1 <= bits_per_key < INT_LIMIT
      ensures bits_per_key_ == bits_per_key % DWORD_SIZE && this.hash == hash && 1 <= k_ <= 30
      ensures Usable() <==> bits_per_key >= 0
      ensures var ideal := bits_per_key as real * 0.69;
              if ideal < 1.0 then k_ == 1 else if ideal >= 30.0 then k_ == 30
              else k_ as real <= ideal < k_ as real + 1.0
    {
      bits_per_key_ := bits_per_key % DWORD_SIZE;
      this.hash := hash;
      var k := (bits_per_key as real * 0.69).Floor;
      k_ := if k < 1 then 1 else if k > 30 then 30 else k;
    }

    /** Made from a number of bits per key that is not negative. */
    predicate Usable() { k_ <= 30 && bits_per_key_ < INT_LIMIT }

    /** The number of keys is passed as an int. */
    method CreateFilter(keys: seq<Str>, dst: Str) returns (r: Str)
      requires Usable() && |keys| < INT_LIMIT
      ensures |r| > |dst| && r[..|dst|] == dst && IsFilter(hash, k_, keys, r[|dst|..])
      ensures |r| - |dst| == FilterSize(|keys|)
    {
      var bits := |keys| * bits_per_key_;
      if bits < 64 {
        bits := 64;
      }
      var bytes := (bits + 7) / 8;
      bits := bytes * 8;
      var bitmap: Str := seq(bytes, _ => 0);
      forall p | 0 <= p < bits ensures !Bit(bitmap, p) {
        ZeroBits(p % 8);
      }
      for i := 0 to |keys|
        invariant |bitmap| == bytes
        invariant forall p :: 0 <= p < bits ==> (Bit(bitmap, p) <==> Probed(hash, keys[..i], k_, bits, p))
      {
        ghost var before := bitmap;
        bitmap := AddProbes(keys[i], bitmap);
        forall p | 0 <= p < bits
          ensures Bit(bitmap, p) <==> Probed(hash, keys[..i + 1], k_, bits, p)
        {
          ProbedSnoc(hash, keys, i, k_, bits, p);
          assert Bit(bitmap, p) <==> Bit(before, p) || KeyProbes(BloomHash(hash, keys[i]), k_, bits, p);
        }
      }
      assert keys[..|keys|] == keys;
      r := dst + bitmap + [k_ as byte];
      Assembled(dst, bitmap, keys);
    }

    /** Bytes of bits, at least 8, and one for the number of probes. */
    function FilterSize(n: nat): nat
    {
      var bits := n * bits_per_key_;
      ((if bits < 64 then 64 else bits) + 7) / 8 + 1
    }

    /** The least number of whole bytes for as many bits as the keys are to have, 64 at least. */
    lemma FilterBits(n: nat)
      ensures var bits := (FilterSize(n) - 1) * 8;
              bits >= 64 && bits >= n * bits_per_key_ && (bits == 64 || bits - 8 < n * bits_per_key_)
    {}

    lemma Assembled(dst: Str, bitmap: Str, keys: seq<Str>)
      requires |bitmap| >= 8 && Usable()
      requires forall p :: 0 <= p < |bitmap| * 8 ==> (Bit(bitmap, p) <==> Probed(hash, keys, k_, |bitmap| * 8, p))
      ensures var r := dst + bitmap + [k_ as byte]; r[..|dst|] == dst && IsFilter(hash, k_, keys, r[|dst|..])
    {
      var r := dst + bitmap + [k_ as byte];
      assert r[|dst|..] == bitmap + [k_ as byte];
    }

    /** The inner loop: the probes of one key. */
    method AddProbes(key: Str, bitmap0: Str) returns (bitmap: Str)
      requires |bitmap0| > 0
      ensures |bitmap| == |bitmap0|
      ensures forall p :: 0 <= p < |bitmap| * 8 ==>
                (Bit(bitmap, p) <==> Bit(bitmap0, p) || KeyProbes(BloomHash(hash, key), k_, |bitmap| * 8, p))
    {
      hide BitOf, WithBit, Delta;
      bitmap := bitmap0;
      var bits := |bitmap| * 8;
      ghost var h0 := BloomHash(hash, key);
      var h := BloomHash(hash, key);
      var delta := Delta(h);
      for j := 0 to k_
        invariant |bitmap| == |bitmap0| && h == ProbeHash(h0, j)
        invariant forall p :: 0 <= p < bits ==> (Bit(bitmap, p) <==> Bit(bitmap0, p) || KeyProbes(h0, j, bits, p))
      {
        var bitpos := h % bits;
        assert bitpos == Probe(h0, j, bits);
        ghost var before := bitmap;
        bitmap := bitmap[bitpos / 8 := WithBit(bitmap[bitpos / 8], bitpos % 8)];
        forall p | 0 <= p < bits
          ensures Bit(bitmap, p) <==> Bit(bitmap0, p) || KeyProbes(h0, j + 1, bits, p)
        {
          WithBitBits(before[bitpos / 8], bitpos % 8, p % 8);
          assert Bit(bitmap, p) <==> Bit(before, p) || p == bitpos;
          KeyProbesNext(h0, j, bits, p);
        }
        h := (h + delta) % WORD_SIZE;
      }
    }

    method KeyMayMatch(key: Str, bloom_filter: Str) returns (r: bool)
      requires HasSize(key) && HasSize(bloom_filter)
      ensures r <==> Matches(hash, key, Cut(bloom_filter))
    {
      hide BitOf, Delta;
      var len := SliceSize(|bloom_filter|);
      ghost var f := Cut(bloom_filter);
      if len < 2 {
        return false;
      }
      var bits := (len - 1) * 8;
      var k := bloom_filter[len - 1];
      if k > 30 {
        return true;
      }
      ghost var h0 := BloomHash(hash, key);
      var h := BloomHash(hash, key);
      var delta := Delta(h);
      for j := 0 to k as int
        invariant h == ProbeHash(h0, j)
        invariant forall i :: 0 <= i < j ==> Hits(f, h0, i)
      {
        var bitpos := h % bits;
        assert bitpos == Probe(h0, j, bits);
        assert Hits(f, h0, j) <==> Bit(bloom_filter, bitpos);
        if !Bit(bloom_filter, bitpos) {
          return false;
        }
        h := (h + delta) % WORD_SIZE;
      }
      r := true;
    }
  }

  lemma KeyProbesNext(h: Word, j: nat, bits: nat, p: nat)
    requires bits > 0
    ensures KeyProbes(h, j + 1, bits, p) <==> KeyProbes(h, j, bits, p) || Probe(h, j, bits) == p
  {
    hide Probe;
    if KeyProbes(h, j + 1, bits, p) {
      var i :| 0 <= i < j + 1 && Probe(h, i, bits) == p;
    }
  }

  /** Probe `j` for hash `h` finds its bit set in filter `f`. */
  ghost predicate Hits(f: Str, h: Word, j: nat)
    requires |f| >= 2
  {
    Bit(f, Probe(h, j, (|f| - 1) * 8))
  }

  /** What KeyMayMatch decides, for any byte string. */
  ghost predicate Matches(hash: Str -> Word, key: Str, f: Str)
  {
    && |f| >= 2
    && (f[|f| - 1] > 30 || forall j :: 0 <= j < f[|f| - 1] as int ==> Hits(f, BloomHash(hash, key), j))
  }

  /** What asking a filter tests: the bits at the first so many positions of the key as its last byte says. */
  lemma MatchesMeaning(hash: Str -> Word, key: Str, f: Str)
    requires |f| >= 2 && f[|f| - 1] <= 30
    ensures var k, bits := f[|f| - 1] as nat, (|f| - 1) * 8;
            Matches(hash, key, f) <==> forall j: nat :: j < k ==> Bit(f, Position(hash, key, j, bits))
  {
    hide Bit, Probe, Position;
    var k, bits := f[|f| - 1] as nat, (|f| - 1) * 8;
    forall j: nat | j < k
      ensures Position(hash, key, j, bits) < bits &&
              (Hits(f, BloomHash(hash, key), j) <==> Bit(f, Position(hash, key, j, bits)))
    {
      PositionIs(hash, key, j, bits);
    }
  }

  /** Byte strings that no builder writes: too short, nothing matches; more than 30 probes, everything does. */
  lemma MatchesOutside(hash: Str -> Word, key: Str, f: Str)
    ensures |f| < 2 ==> !Matches(hash, key, f)
    ensures |f| >= 2 && f[|f| - 1] > 30 ==> Matches(hash, key, f)
  {}

  /** A key is hashed by its first size() bytes, which are all of it below 2^31. */
  lemma HashesKey(hash: Str -> Word, key: Str)
    ensures |key| < INT_LIMIT ==> BloomHash(hash, key) == hash(key)
    ensures HasSize(key) ==> BloomHash(hash, key) == hash(key[..|key| % WORD_SIZE])
  {}

  /** Probe `j` for hash `h` falls on a bit that the filter for `keys` has set. */
  ghost predicate Covered(hash: Str -> Word, keys: seq<Str>, k: nat, bits: nat, h: Word, j: nat)
    requires bits > 0
  {
    Probed(hash, keys, k, bits, Probe(h, j, bits))
  }

  /** A filter accepts a key exactly when each of its probes coincides with a probe of an inserted
      key; in particular it accepts every inserted key. */
  lemma FilterMatches(hash: Str -> Word, k: nat, keys: seq<Str>, f: Str, key: Str)
    requires IsFilter(hash, k, keys, f)
    ensures var bits := (|f| - 1) * 8;
            Matches(hash, key, f) <==> forall j :: 0 <= j < k ==> Covered(hash, keys, k, bits, BloomHash(hash, key), j)
    ensures key in keys ==> Matches(hash, key, f)
  {
    hide Bit, Probe;
    var bits := (|f| - 1) * 8;
    forall j | 0 <= j < k
      ensures Hits(f, BloomHash(hash, key), j) <==> Covered(hash, keys, k, bits, BloomHash(hash, key), j)
    {
      assert Probe(BloomHash(hash, key), j, bits) < bits;
    }
    if key in keys {
      var i :| 0 <= i < |keys| && keys[i] == key;
      forall j | 0 <= j < k ensures Covered(hash, keys, k, bits, BloomHash(hash, key), j) {
        assert KeyProbes(BloomHash(hash, keys[i]), k, bits, Probe(BloomHash(hash, key), j, bits));
      }
    }
  }
}
