/** What the register computes: the remainder of a polynomial division over GF(2), as section
    12.1 of RFC 3720 defines CRC-32C, and the burst errors that such a remainder must expose. */
module Crc32cDivision {
  import opened Gf2
  import opened Crc32c

  // ----- the register one bit at a time

  predicate Odd(l: bv32) { l & 1 == 1 }

  function Digit(bit: bool): bv32 { if bit then 1 else 0 }

  function Shift(l: bv32, bit: bool): bv32 { BitStep(Xor(l, Digit(bit))) }

  function Serial(l: bv32, bits: seq<bool>): bv32
    decreases bits
  {
    if bits == [] then l else Serial(Shift(l, bits[0]), bits[1..])
  }

  function HalfSteps(n: nat, l: bv32): bv32
  {
    if n == 0 then l else HalfSteps(n - 1, Half(l))
  }

  /** The low `n` bits of a word, least significant first. */
  function LowBits(n: nat, l: bv32): (r: seq<bool>)
    ensures |r| == n
  {
    if n == 0 then [] else [Odd(l)] + LowBits(n - 1, Half(l))
  }

  /** Bits in transmission order: each byte starts with its least significant bit. */
  function Bits(data: seq<bv8>): (r: seq<bool>)
    ensures |r| == 8 * |data|
  {
    if data == [] then [] else Bits(data[..|data| - 1]) + LowBits(8, data[|data| - 1] as bv32)
  }

  lemma {:induction false} SerialConcat(l: bv32, a: seq<bool>, b: seq<bool>)
    ensures Serial(l, a + b) == Serial(Serial(l, a), b)
    decreases a
  {
    hide Shift;
    if a == [] {
      assert a + b == b;
    } else {
      assert (a + b)[0] == a[0] && (a + b)[1..] == a[1..] + b;
      SerialConcat(Shift(l, a[0]), a[1..], b);
    }
  }

  // ----- words and bit strings

  lemma {:induction false} HalfStepsAdd(j: nat, k: nat, l: bv32)
    ensures HalfSteps(j + k, l) == HalfSteps(k, HalfSteps(j, l))
  {
    hide Half;
    if j > 0 {
      HalfStepsAdd(j - 1, k, Half(l));
    }
  }

  lemma Half8(l: bv32)
    ensures Half(Half(Half(Half(Half(Half(Half(Half(l)))))))) == Shift8(l)
  {}

  lemma HalfSteps8(l: bv32)
    ensures HalfSteps(8, l) == Shift8(l)
  {
    hide HalfSteps, Half, Shift8;
    Half8(l);
    HalfSteps4(l);
    HalfSteps4(Half(Half(Half(Half(l)))));
    HalfStepsAdd(4, 4, l);
  }

  lemma HalfSteps4(l: bv32)
    ensures HalfSteps(4, l) == Half(Half(Half(Half(l))))
  {
    hide Half;
    assert HalfSteps(4, l) == HalfSteps(3, Half(l));
    assert HalfSteps(3, Half(l)) == HalfSteps(2, Half(Half(l)));
    assert HalfSteps(2, Half(Half(l))) == HalfSteps(1, Half(Half(Half(l))));
    assert HalfSteps(1, Half(Half(Half(l)))) == HalfSteps(0, Half(Half(Half(Half(l)))));
  }

  lemma HalfSteps32(l: bv32)
    ensures HalfSteps(32, l) == 0
  {
    assert Shift8(Shift8(Shift8(Shift8(l)))) == 0;
    hide HalfSteps, Shift8;
    HalfStepsAdd(8, 24, l);
    HalfSteps8(l);
    HalfStepsAdd(8, 16, Shift8(l));
    HalfSteps8(Shift8(l));
    HalfStepsAdd(8, 8, Shift8(Shift8(l)));
    HalfSteps8(Shift8(Shift8(l)));
    HalfSteps8(Shift8(Shift8(Shift8(l))));
  }

  lemma OddXor(a: bv32, b: bv32)
    ensures Odd(Xor(a, b)) <==> Odd(a) != Odd(b)
  {
    assert (a ^ b) & 1 == (a & 1) ^ (b & 1);
    LowBit(a);
    LowBit(b);
  }

  lemma {:induction false} LowBitsXor(n: nat, a: bv32, b: bv32, i: nat)
    requires i < n
    ensures LowBits(n, Xor(a, b))[i] <==> LowBits(n, a)[i] != LowBits(n, b)[i]
  {
    hide Xor, Half, Odd;
    OddXor(a, b);
    if i > 0 {
      HalfXor(a, b);
      LowBitsXor(n - 1, Half(a), Half(b), i - 1);
    }
  }

  lemma {:induction false} LowBitsSnoc(n: nat, l: bv32)
    ensures LowBits(n + 1, l) == LowBits(n, l) + [Odd(HalfSteps(n, l))]
  {
    hide Half, Odd;
    if n > 0 {
      LowBitsSnoc(n - 1, Half(l));
    }
  }

  /** Halving drops the lowest bit and clears the highest. */
  lemma HalfBits(l: bv32)
    ensures LowBits(32, Half(l)) == LowBits(32, l)[1..] + [false]
  {
    hide Half;
    LowBitsSnoc(31, Half(l));
    HalfSteps32(l);
    assert HalfSteps(32, l) == HalfSteps(31, Half(l));
  }

  lemma SplitLowBit(w: bv32)
    ensures var top := w & 0xffff_fffe;
            Xor(Digit(Odd(w)), top) == w && Even(top) && Half(top) == Half(w)
  {}

  lemma HalveSum(l: bv32, w: bv32)
    ensures BitStep(Xor(l, w)) == Xor(Shift(l, Odd(w)), Half(w))
  {
    hide Xor, BitStep, Half, Odd, Even, Digit;
    var top := w & 0xffff_fffe;
    SplitLowBit(w);
    EvenStep(top);
    XorAssoc(l, Digit(Odd(w)), top);
    BitStepXor(Xor(l, Digit(Odd(w))), top);
  }

  /** Taking a word's bits one by one is adding the word and shifting. */
  lemma {:induction false} SerialWord(n: nat, l: bv32, w: bv32)
    requires HalfSteps(n, w) == 0
    ensures Serial(l, LowBits(n, w)) == BitSteps(n, Xor(l, w))
  {
    hide Xor, Half, BitStep, Odd, Shift;
    if n == 0 {
      XorUnit(l);
    } else {
      HalveSum(l, w);
      assert LowBits(n, w)[1..] == LowBits(n - 1, Half(w));
      SerialWord(n - 1, Shift(l, Odd(w)), Half(w));
    }
  }

  lemma ByteIsShort(b: bv8)
    ensures HalfSteps(8, b as bv32) == 0
  {
    assert Shift8(b as bv32) == 0;
    hide HalfSteps, Shift8;
    HalfSteps8(b as bv32);
  }

  /** The byte-wise register agrees with the bit-serial one. */
  lemma {:induction false} UpdateIsSerial(l: bv32, data: seq<bv8>)
    ensures Update(l, data) == Serial(l, Bits(data))
  {
    hide BitSteps, Xor, LowBits, HalfSteps;
    if data != [] {
      var front, b := data[..|data| - 1], data[|data| - 1];
      UpdateIsSerial(l, front);
      ByteIsShort(b);
      SerialWord(8, Update(l, front), b as bv32);
      SerialConcat(l, Bits(front), LowBits(8, b as bv32));
    }
  }

  // ----- long division

  /** Coefficients of the generator below x^32, highest degree first. */
  function Generator(): seq<bool> { LowBits(32, POLYNOMIAL) }

  function Add(p: seq<bool>, q: seq<bool>): (r: seq<bool>)
    requires |q| <= |p|
    ensures |r| == |p|
  {
    seq(|p|, i requires 0 <= i < |p| => if i < |q| then p[i] != q[i] else p[i])
  }

  /** Schoolbook division by x^32 + Generator of the polynomial with coefficients `p`, highest
      degree first: while a term of degree 32 or more is left, subtract the divisor from it. */
  function Remainder(p: seq<bool>): seq<bool>
    decreases |p|
  {
    if |p| <= 32 then p
    else if p[0] then Remainder(Add(p[1..], Generator()))
    else Remainder(p[1..])
  }

  function Zeros(n: nat): (r: seq<bool>)
    ensures |r| == n
  {
    seq(n, _ => false)
  }

  lemma DropDigit(l: bv32, bit: bool)
    ensures var s := Xor(l, Digit(bit)); (Odd(s) <==> Odd(l) != bit) && Half(s) == Half(l)
  {
    assert Half(Digit(bit)) == 0 && (Odd(Digit(bit)) <==> bit);
    hide Half, Xor, Odd, Digit;
    OddXor(l, Digit(bit));
    HalfXor(l, Digit(bit));
    XorUnit(Half(l));
  }

  lemma StepParts(s: bv32)
    ensures BitStep(s) == if Odd(s) then Xor(Half(s), POLYNOMIAL) else Half(s)
  {
    hide Half, Xor;
    XorUnit(Half(s));
  }

  lemma ShiftBits(l: bv32, bit: bool)
    ensures LowBits(32, Shift(l, bit)) ==
            var rest := LowBits(32, l)[1..] + [false];
            if Odd(l) != bit then Add(rest, Generator()) else rest
  {
    hide Half, Xor, Odd, Digit, BitStep, LowBits;
    var s := Xor(l, Digit(bit));
    DropDigit(l, bit);
    HalfBits(l);
    StepParts(s);
    forall i | 0 <= i < 32
      ensures LowBits(32, Xor(Half(s), POLYNOMIAL))[i] == Add(LowBits(32, Half(s)), Generator())[i]
    {
      LowBitsXor(32, Half(s), POLYNOMIAL, i);
    }
    assert LowBits(32, Xor(Half(s), POLYNOMIAL)) == Add(LowBits(32, Half(s)), Generator());
  }

  lemma FirstBit(l: bv32)
    ensures LowBits(32, l)[0] == Odd(l)
  {}

  /** The register, loaded with `l`, holds the remainder of message * x^32 + l * x^|message|. */
  lemma {:induction false} SerialIsRemainder(l: bv32, message: seq<bool>)
    ensures Remainder(Add(message + Zeros(32), LowBits(32, l))) == LowBits(32, Serial(l, message))
    decreases message
  {
    hide LowBits, Shift, Odd;
    var r := LowBits(32, l);
    var p := Add(message + Zeros(32), r);
    if message == [] {
      assert p == r;
    } else {
      var bit, rest := message[0], message[1..];
      var r' := r[1..] + [false];
      FirstBit(l);
      ShiftBits(l, bit);
      SerialIsRemainder(Shift(l, bit), rest);
      assert p[0] <==> Odd(l) != bit;
      assert p[1..] == Add(rest + Zeros(32), r');
      assert Add(p[1..], Generator()) == Add(rest + Zeros(32), Add(r', Generator()));
    }
  }

  /** CRC-32C is the remainder of division by the generator, with the first 32 message bits and
      the result complemented. */
  lemma ValueIsRemainder(data: seq<bv8>)
    ensures LowBits(32, Xor(Value(data), ALL_ONES)) ==
            Remainder(Add(Bits(data) + Zeros(32), LowBits(32, ALL_ONES)))
  {
    hide Xor, LowBits, BitSteps;
    XorUnit(ALL_ONES);
    UpdateIsSerial(ALL_ONES, data);
    SerialIsRemainder(ALL_ONES, Bits(data));
    var s := Update(ALL_ONES, data);
    XorAssoc(s, ALL_ONES, ALL_ONES);
    XorUnit(s);
  }

  // ----- burst errors

  lemma BitStepInjective(a: bv32, b: bv32)
    requires BitStep(a) == BitStep(b)
    ensures a == b
  {
    StepTopBit(a);
    StepTopBit(b);
    SameFromHalf(a, b);
  }

  lemma StepTopBit(a: bv32)
    ensures BitStep(a) >> 31 == a & 1
  {}

  lemma SameFromHalf(a: bv32, b: bv32)
    requires a & 1 == b & 1 && BitStep(a) == BitStep(b)
    ensures a == b
  {}

  lemma {:induction false} SerialInjective(a: bv32, b: bv32, bits: seq<bool>)
    requires Serial(a, bits) == Serial(b, bits)
    ensures a == b
    decreases bits
  {
    hide BitStep, Xor, Digit;
    if bits != [] {
      var d := Digit(bits[0]);
      SerialInjective(Shift(a, bits[0]), Shift(b, bits[0]), bits[1..]);
      BitStepInjective(Xor(a, d), Xor(b, d));
      XorCancel(a, b, d);
    }
  }

  lemma XorCancel(a: bv32, b: bv32, d: bv32)
    requires Xor(a, d) == Xor(b, d)
    ensures a == b
  {
    hide Xor;
    XorAssoc(a, d, d);
    XorAssoc(b, d, d);
    XorUnit(d);
    XorUnit(a);
    XorUnit(b);
  }

  lemma HalvesEqual(a: bv32, b: bv32)
    requires Odd(a) == Odd(b) && Half(a) == Half(b)
    ensures a == b
  {}

  /** A word of at most `n` bits is determined by its low `n` bits. */
  lemma {:induction false} LowBitsInjective(n: nat, a: bv32, b: bv32)
    requires HalfSteps(n, a) == 0 && HalfSteps(n, b) == 0 && LowBits(n, a) == LowBits(n, b)
    ensures a == b
  {
    hide Odd, Half;
    if n > 0 {
      var la, lb := LowBits(n, a), LowBits(n, b);
      assert la[0] == Odd(a) && lb[0] == Odd(b);
      assert la[1..] == LowBits(n - 1, Half(a)) && lb[1..] == LowBits(n - 1, Half(b));
      LowBitsInjective(n - 1, Half(a), Half(b));
      HalvesEqual(a, b);
    }
  }

  function Double(t: bv32): bv32 { t << 1 }

  function Pack(bits: seq<bool>): bv32
  {
    if bits == [] then 0 else Xor(Digit(bits[0]), Double(Pack(bits[1..])))
  }

  lemma {:induction false} HalfStepsZero(n: nat)
    ensures HalfSteps(n, 0) == 0
  {
    if n > 0 {
      assert Half(0) == 0;
      HalfStepsZero(n - 1);
    }
  }

  lemma HalfSteps31(l: bv32)
    requires HalfSteps(31, l) == 0
    ensures l >> 31 == 0
  {
    var u := Shift8(Shift8(Shift8(l)));
    assert HalfSteps(7, u) == 0 by {
      hide HalfSteps, Shift8;
      HalfStepsAdd(8, 23, l);
      HalfSteps8(l);
      HalfStepsAdd(8, 15, Shift8(l));
      HalfSteps8(Shift8(l));
      HalfStepsAdd(8, 7, Shift8(Shift8(l)));
      HalfSteps8(Shift8(Shift8(l)));
    }
    HalfSteps7(u);
    assert Half(Half(Half(Half(Half(Half(Half(u))))))) == l >> 31;
  }

  lemma HalfSteps7(u: bv32)
    ensures HalfSteps(7, u) == Half(Half(Half(Half(Half(Half(Half(u)))))))
  {
    hide Half;
    HalfSteps4(u);
    HalfStepsAdd(4, 3, u);
    var v := HalfSteps(4, u);
    assert HalfSteps(3, v) == HalfSteps(2, Half(v));
    assert HalfSteps(2, Half(v)) == HalfSteps(1, Half(Half(v)));
    assert HalfSteps(1, Half(Half(v))) == HalfSteps(0, Half(Half(Half(v))));
  }

  lemma DoubleHalf(bit: bool, t: bv32)
    requires t >> 31 == 0
    ensures var w := Xor(Digit(bit), Double(t)); Odd(w) == bit && Half(w) == t
  {}

  lemma {:induction false} PackBits(bits: seq<bool>)
    requires |bits| <= 32
    ensures LowBits(|bits|, Pack(bits)) == bits && HalfSteps(|bits|, Pack(bits)) == 0
  {
    hide Odd, Half, Xor, Digit, Double;
    if bits != [] {
      var n := |bits| - 1;
      var t := Pack(bits[1..]);
      PackBits(bits[1..]);
      HalfStepsAdd(n, 31 - n, t);
      HalfStepsZero(31 - n);
      HalfSteps31(t);
      DoubleHalf(bits[0], t);
    }
  }

  /** Two different strings of up to 32 bits leave the register in different states. */
  lemma WindowMatters(l: bv32, d: seq<bool>, d': seq<bool>)
    requires |d| == |d'| <= 32 && d != d'
    ensures Serial(l, d) != Serial(l, d')
  {
    hide Odd, Half, Xor, Digit, BitStep;
    PackBits(d);
    PackBits(d');
    SerialWord(|d|, l, Pack(d));
    SerialWord(|d|, l, Pack(d'));
    if Serial(l, d) == Serial(l, d') {
      BitStepsInjective(|d|, Xor(l, Pack(d)), Xor(l, Pack(d')));
      XorComm(l, Pack(d));
      XorComm(l, Pack(d'));
      XorCancel(Pack(d), Pack(d'), l);
    }
  }

  lemma {:induction false} BitStepsInjective(n: nat, a: bv32, b: bv32)
    requires BitSteps(n, a) == BitSteps(n, b)
    ensures a == b
  {
    hide BitStep;
    if n > 0 {
      BitStepsInjective(n - 1, BitStep(a), BitStep(b));
      BitStepInjective(a, b);
    }
  }

  lemma {:induction false} BitsAt(data: seq<bv8>, k: nat, m: nat)
    requires k < |data| && m < 8
    ensures 8 * k + m < |Bits(data)| && Bits(data)[8 * k + m] == LowBits(8, data[k] as bv32)[m]
    decreases |data|
  {
    hide LowBits;
    if k < |data| - 1 {
      BitsAt(data[..|data| - 1], k, m);
    }
  }

  lemma BitsDiffer(a: seq<bv8>, b: seq<bv8>)
    requires |a| == |b| && a != b
    ensures Bits(a) != Bits(b)
  {
    hide Bits, LowBits, HalfSteps;
    var k :| 0 <= k < |a| && a[k] != b[k];
    var la, lb := LowBits(8, a[k] as bv32), LowBits(8, b[k] as bv32);
    if la == lb {
      ByteIsShort(a[k]);
      ByteIsShort(b[k]);
      LowBitsInjective(8, a[k] as bv32, b[k] as bv32);
      assert false;
    } else {
      var m :| 0 <= m < 8 && la[m] != lb[m];
      BitsAt(a, k, m);
      BitsAt(b, k, m);
    }
  }

  /** Any error confined to 32 consecutive bits of the stream changes the checksum. */
  lemma BurstDetected(a: seq<bv8>, b: seq<bv8>, i: nat)
    requires |a| == |b| && a != b
    requires forall k :: 0 <= k < |Bits(a)| && !(i <= k < i + 32) ==> Bits(a)[k] == Bits(b)[k]
    ensures Value(a) != Value(b)
  {
    hide Bits, LowBits, HalfSteps, BitSteps, Xor, ByteStep, Serial;
    var x, y := Bits(a), Bits(b);
    BitsDiffer(a, b);
    var lo := if i < |x| then i else |x|;
    var hi := if i + 32 < |x| then i + 32 else |x|;
    var s := Xor(0, ALL_ONES);
    assert x == x[..lo] + x[lo..hi] + x[hi..] && y == x[..lo] + y[lo..hi] + x[hi..];
    SerialConcat(s, x[..lo] + x[lo..hi], x[hi..]);
    SerialConcat(s, x[..lo] + y[lo..hi], x[hi..]);
    SerialConcat(s, x[..lo], x[lo..hi]);
    SerialConcat(s, x[..lo], y[lo..hi]);
    WindowMatters(Serial(s, x[..lo]), x[lo..hi], y[lo..hi]);
    UpdateIsSerial(s, a);
    UpdateIsSerial(s, b);
    if Value(a) == Value(b) {
      XorCancel(Update(s, a), Update(s, b), ALL_ONES);
      SerialInjective(Serial(s, x[..lo] + x[lo..hi]), Serial(s, x[..lo] + y[lo..hi]), x[hi..]);
    }
  }

  /** In particular, an error confined to four consecutive bytes. */
  lemma FourByteBurstDetected(a: seq<bv8>, b: seq<bv8>, j: nat)
    requires |a| == |b| && a != b
    requires forall k :: 0 <= k < |a| && !(j <= k < j + 4) ==> a[k] == b[k]
    ensures Value(a) != Value(b)
  {
    hide Bits, LowBits, Value;
    forall p | 0 <= p < |Bits(a)| && !(8 * j <= p < 8 * j + 32)
      ensures Bits(a)[p] == Bits(b)[p]
    {
      BitsAt(a, p / 8, p % 8);
      BitsAt(b, p / 8, p % 8);
    }
    BurstDetected(a, b, 8 * j);
  }
}
