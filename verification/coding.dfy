/** db/coding.h: little-endian fixed-width integers in byte strings, and std::string's order. */
module Coding {
  import opened Bytes
  import opened Digits

  function Byte(v: nat): byte { (v % 256) as byte }

  /** EncodeFixed32 after the conversion to uint32_t. */
  function Fixed32(v: nat): (r: Str)
    ensures |r| == 4
  {
    [Byte(v), Byte(v / 0x100), Byte(v / 0x1_0000), Byte(v / 0x100_0000)]
  }

  function DecodeFixed32(s: Str, p: nat): Word
    requires p + 4 <= |s|
  {
    s[p] as int + 0x100 * (s[p + 1] as int) + 0x1_0000 * (s[p + 2] as int) + 0x100_0000 * (s[p + 3] as int)
  }

  function Fixed64(v: nat): (r: Str)
    ensures |r| == 8
  {
    Fixed32(v) + Fixed32(v / 0x1_0000_0000)
  }

  function DecodeFixed64(s: Str, p: nat): (r: nat)
    requires p + 8 <= |s|
    ensures r < DWORD_SIZE
  {
    DecodeFixed32(s, p) + WORD_SIZE * DecodeFixed32(s, p + 4)
  }

  lemma ByteDigit(v: nat, i: nat)
    ensures Byte(v / Pow256(i)) as nat == DigitOf(v, 256, i)
  {
    PowPositive(256, i);
  }

  function Pow256(i: nat): (p: nat)
    ensures p == Pow(256, i) && p > 0
  {
    PowPositive(256, i);
    Pow(256, i)
  }

  lemma PowersOf256()
    ensures Pow256(0) == 1 && Pow256(1) == 0x100 && Pow256(2) == 0x1_0000 && Pow256(3) == 0x100_0000
    ensures Pow256(4) == WORD_SIZE
  {
    assert Pow(256, 1) == 256 * Pow(256, 0);
    assert Pow(256, 2) == 256 * Pow(256, 1);
    assert Pow(256, 3) == 256 * Pow(256, 2);
  }

  /** Little-endian: byte `i` weighs 256^i. */
  lemma Fixed32Bytes(v: nat, i: nat)
    requires i < 4
    ensures Fixed32(v)[i] as nat == DigitOf(v, 256, i)
  {
    hide Byte, DigitOf;
    PowersOf256();
    ByteDigit(v, i);
  }

  lemma Fixed64Bytes(v: nat, i: nat)
    requires i < 8
    ensures Fixed64(v)[i] as nat == DigitOf(v, 256, i)
  {
    hide Fixed32, DigitOf;
    if i < 4 {
      Fixed32Bytes(v, i);
    } else {
      Fixed32Bytes(v / WORD_SIZE, i - 4);
      HighDigit(v, i - 4);
    }
  }

  lemma HighDigit(v: nat, i: nat)
    ensures DigitOf(v, 256, i + 4) == DigitOf(v / WORD_SIZE, 256, i)
  {
    hide DigitOf;
    DigitStep(v, 256, i + 3);
    DigitStep(v / 256, 256, i + 2);
    DigitStep(v / 256 / 256, 256, i + 1);
    DigitStep(v / 256 / 256 / 256, 256, i);
    assert v / 256 / 256 / 256 / 256 == v / WORD_SIZE;
  }

  /** What is decoded is the sum of the bytes, each with its weight. */
  lemma DecodedWord(s: Str, p: nat, v: Word)
    requires p + 4 <= |s|
    ensures DecodeFixed32(s, p) == v <==>
            forall i {:trigger DigitOf(v, 256, i)} :: 0 <= i < 4 ==> s[p + i] as nat == DigitOf(v, 256, i)
  {
    hide Fixed32, DecodeFixed32, DigitOf;
    if DecodeFixed32(s, p) == v {
      Recoded(s, p);
    }
    forall i {:trigger DigitOf(v, 256, i)} | 0 <= i < 4 ensures Fixed32(v)[i] as nat == DigitOf(v, 256, i) {
      Fixed32Bytes(v, i);
    }
    if forall i {:trigger DigitOf(v, 256, i)} :: 0 <= i < 4 ==> s[p + i] as nat == DigitOf(v, 256, i) {
      forall i | 0 <= i < 4 ensures s[p..p + 4][i] == Fixed32(v)[i] {
        assert s[p + i] as nat == DigitOf(v, 256, i) == Fixed32(v)[i] as nat;
      }
      assert s[p..p + 4] == Fixed32(v);
      Fixed32RoundTrip(s, p, v);
    }
  }

  lemma Recoded(s: Str, p: nat)
    requires p + 4 <= |s|
    ensures forall i :: 0 <= i < 4 ==> s[p + i] == Fixed32(DecodeFixed32(s, p))[i]
  {
    var a, b, c, d := s[p] as int, s[p + 1] as int, s[p + 2] as int, s[p + 3] as int;
    var v := a + 0x100 * b + 0x1_0000 * c + 0x100_0000 * d;
    assert v / 0x100 == b + 0x100 * c + 0x1_0000 * d && v / 0x1_0000 == c + 0x100 * d && v / 0x100_0000 == d;
  }

  /** Decoding undoes encoding, up to the uint32_t conversion. */
  lemma Fixed32RoundTrip(s: Str, p: nat, v: nat)
    requires p + 4 <= |s| && s[p..p + 4] == Fixed32(v)
    ensures DecodeFixed32(s, p) == v % WORD_SIZE
  {
    var r := s[p..p + 4];
    assert r[0] == s[p] && r[1] == s[p + 1] && r[2] == s[p + 2] && r[3] == s[p + 3];
    FourDigits(v);
  }

  lemma FourDigits(v: nat)
    ensures v % 256 + 0x100 * (v / 0x100 % 256) + 0x1_0000 * (v / 0x1_0000 % 256) + 0x100_0000 * (v / 0x100_0000 % 256)
            == v % WORD_SIZE
  {
    var q1, q2, q3, h := v / 0x100, v / 0x1_0000, v / 0x100_0000, v / WORD_SIZE;
    assert q2 == q1 / 256 && q3 == q2 / 256 && h == q3 / 256;
    assert v == 0x100 * q1 + v % 256 && q1 == 256 * q2 + q1 % 256 && q2 == 256 * q3 + q2 % 256 &&
           q3 == 256 * h + q3 % 256;
  }

  lemma Fixed64RoundTrip(s: Str, p: nat, v: nat)
    requires p + 8 <= |s| && s[p..p + 8] == Fixed64(v)
    ensures DecodeFixed64(s, p) == v % DWORD_SIZE
  {
    assert s[p..p + 4] == s[p..p + 8][..4] == Fixed32(v);
    assert s[p + 4..p + 8] == s[p..p + 8][4..] == Fixed32(v / 0x1_0000_0000);
    Fixed32RoundTrip(s, p, v);
    Fixed32RoundTrip(s, p + 4, v / 0x1_0000_0000);
    SplitMod(v);
  }

  lemma SplitMod(v: nat)
    ensures v % WORD_SIZE + WORD_SIZE * ((v / WORD_SIZE) % WORD_SIZE) == v % DWORD_SIZE
  {
    var q := v / WORD_SIZE;
    var h := q / WORD_SIZE;
    assert v == WORD_SIZE * (WORD_SIZE * h + q % WORD_SIZE) + v % WORD_SIZE;
    assert v == DWORD_SIZE * h + (WORD_SIZE * (q % WORD_SIZE) + v % WORD_SIZE);
    ModUnique(v, h, WORD_SIZE * (q % WORD_SIZE) + v % WORD_SIZE);
  }

  lemma ModUnique(v: nat, h: nat, r: nat)
    requires v == DWORD_SIZE * h + r && r < DWORD_SIZE
    ensures v % DWORD_SIZE == r
  {}

  // ----- arrays of fixed32

  function FixedSeq(rs: seq<nat>): (r: Str)
    ensures |r| == 4 * |rs|
  {
    if rs == [] then [] else FixedSeq(rs[..|rs| - 1]) + Fixed32(rs[|rs| - 1])
  }

  lemma {:induction false} FixedSeqAt(rs: seq<nat>, r: nat)
    requires r < |rs|
    ensures FixedSeq(rs)[4 * r..4 * r + 4] == Fixed32(rs[r])
  {
    hide Fixed32;
    if r < |rs| - 1 {
      FixedSeqAt(rs[..|rs| - 1], r);
    }
  }

  // ----- the order of keys

  /** std::string's operator<: bytes compared as unsigned char, a prefix before its extensions. */
  predicate Less(a: Str, b: Str)
  {
    if b == [] then false
    else if a == [] then true
    else if a[0] != b[0] then a[0] < b[0]
    else Less(a[1..], b[1..])
  }

  /** The first `n` bytes agree, and then `a` ends or has the smaller byte. */
  predicate SmallerAt(a: Str, b: Str, n: nat)
  {
    n <= |a| && n < |b| && a[..n] == b[..n] && (n == |a| || (a[n] as nat) < (b[n] as nat))
  }

  /** The order, without following it byte by byte. */
  lemma {:induction false} LessMeaning(a: Str, b: Str)
    ensures Less(a, b) <==> exists n: nat :: SmallerAt(a, b, n)
  {
    if a == [] || b == [] || a[0] != b[0] {
      assert b != [] && (a == [] || a[0] < b[0]) ==> SmallerAt(a, b, 0);
    } else {
      LessMeaning(a[1..], b[1..]);
      if n: nat :| SmallerAt(a[1..], b[1..], n) {
        SmallerNext(a, b, n);
      }
      if n: nat :| SmallerAt(a, b, n) {
        SmallerNext(a, b, n - 1);
      }
    }
  }

  lemma SmallerNext(a: Str, b: Str, n: nat)
    requires a != [] && b != [] && a[0] == b[0]
    ensures SmallerAt(a, b, n + 1) <==> SmallerAt(a[1..], b[1..], n)
  {
    if n < |a| && n < |b| {
      assert a[..n + 1] == [a[0]] + a[1..][..n] && b[..n + 1] == [b[0]] + b[1..][..n];
      assert a[1..][..n] == a[..n + 1][1..] && b[1..][..n] == b[..n + 1][1..];
    }
  }

  lemma {:induction false} LessTotal(a: Str, b: Str)
    ensures (a == b && !Less(a, b) && !Less(b, a)) || (a != b && Less(a, b) != Less(b, a))
  {
    if a != [] && b != [] && a[0] == b[0] {
      LessTotal(a[1..], b[1..]);
      assert a == [a[0]] + a[1..] && b == [b[0]] + b[1..];
    }
  }

  lemma {:induction false} LessTransitive(a: Str, b: Str, c: Str)
    requires Less(a, b) && Less(b, c)
    ensures Less(a, c)
  {
    if a != [] && a[0] == b[0] && b[0] == c[0] {
      LessTransitive(a[1..], b[1..], c[1..]);
    }
  }

  /** a <= b and b < c give a < c, the form searches use. */
  lemma NotLessThenLess(a: Str, b: Str, c: Str)
    requires !Less(b, a) && Less(b, c)
    ensures Less(a, c)
  {
    LessTotal(a, b);
    if a != b {
      LessTransitive(a, b, c);
    }
  }
}
