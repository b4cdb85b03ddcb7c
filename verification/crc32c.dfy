/** db/crc32c.cpp and db/crc32c.h: the four-strand CRC-32C and the one-byte-at-a-time
    definition it must agree with. */
module Crc32c {
  import opened Gf2
  import opened Crc32cTables

  // ----- definition: section 12.1 of RFC 3720

  const ALL_ONES: bv32 := 0xffff_ffff

  /** Adds one byte, least significant bit first, into the low end of the register. */
  function ByteStep(l: bv32, b: bv8): bv32 { BitSteps(8, Xor(l, b as bv32)) }

  function Update(l: bv32, data: seq<bv8>): bv32
  {
    if data == [] then l else ByteStep(Update(l, data[..|data| - 1]), data[|data| - 1])
  }

  /** The CRC of A ++ data, where `crc` is the CRC of A. */
  function Crc(crc: bv32, data: seq<bv8>): bv32
  {
    Xor(Update(Xor(crc, ALL_ONES), data), ALL_ONES)
  }

  // ----- the macros of Extend

  function LowByte(w: bv32): bv8 { (w & 0xff) as bv8 }

  function Shift8(w: bv32): bv32 { w >> 8 }

  function Step1(l: bv32, b: bv8): bv32
  {
    Xor(ByteExtension(LowByte(l) ^ b), Shift8(l))
  }

  function ReadUint32LE(data: seq<bv8>, p: nat): bv32
    requires p + 4 <= |data|
  {
    Join(data[p], data[p + 1], data[p + 2], data[p + 3])
  }

  function Join(b0: bv8, b1: bv8, b2: bv8, b3: bv8): bv32
  {
    (b0 as bv32) | ((b1 as bv32) << 8) | ((b2 as bv32) << 16) | ((b3 as bv32) << 24)
  }

  function Step4(crc: bv32, word: bv32): bv32
  {
    Xor(Xor(Xor(Xor(word, StrideExtension3(LowByte(crc))),
                StrideExtension2(LowByte(crc >> 8))),
            StrideExtension1(LowByte(crc >> 16))),
        StrideExtension0((crc >> 24) as bv8))
  }

  function TableStep(w: bv32): bv32 { Xor(Shift8(w), ByteExtension(LowByte(w))) }

  function Step4W(w: bv32, l: bv32): bv32
  {
    TableStep(TableStep(TableStep(TableStep(Xor(w, l)))))
  }

  // ----- each macro as register shifts

  predicate Even(l: bv32) { l & 1 == 0 }

  lemma EvenStep(l: bv32)
    requires Even(l)
    ensures BitStep(l) == Half(l)
  {}

  lemma LowByteClear(l: bv32)
    requires l & 0xff == 0
    ensures Even(l) && Even(Half(l)) && Even(Half(Half(l))) && Even(Half(Half(Half(l))))
    ensures var h := Half(Half(Half(Half(l))));
            && Even(h) && Even(Half(h)) && Even(Half(Half(h))) && Even(Half(Half(Half(h))))
            && Half(Half(Half(Half(h)))) == l >> 8
  {}

  lemma ShiftOut4(l: bv32)
    requires Even(l) && Even(Half(l)) && Even(Half(Half(l))) && Even(Half(Half(Half(l))))
    ensures BitSteps(4, l) == Half(Half(Half(Half(l))))
  {
    hide BitStep, Half, Even;
    EvenStep(l);
    EvenStep(Half(l));
    EvenStep(Half(Half(l)));
    EvenStep(Half(Half(Half(l))));
    assert BitSteps(4, l) == BitSteps(3, Half(l));
    assert BitSteps(3, Half(l)) == BitSteps(2, Half(Half(l)));
    assert BitSteps(2, Half(Half(l))) == BitSteps(1, Half(Half(Half(l))));
    assert BitSteps(1, Half(Half(Half(l)))) == BitSteps(0, Half(Half(Half(Half(l)))));
  }

  lemma ShiftOut8(l: bv32)
    requires l & 0xff == 0
    ensures BitSteps(8, l) == l >> 8
  {
    hide BitSteps, Half, Even;
    LowByteClear(l);
    ShiftOut4(l);
    ShiftOut4(Half(Half(Half(Half(l)))));
    BitStepsAdd(4, 4, l);
  }

  lemma SplitLowByte(w: bv32)
    ensures (w & 0xffff_ff00) & 0xff == 0
    ensures (w & 0xffff_ff00) >> 8 == Shift8(w)
    ensures Xor(w & 0xffff_ff00, LowByte(w) as bv32) == w
  {}

  /** One table lookup and shift is eight register shifts. */
  lemma TableStepIsByte(w: bv32)
    ensures TableStep(w) == BitSteps(8, w)
  {
    hide BitSteps, Xor, ByteExtension, Shift8, LowByte;
    var low, high := LowByte(w), w & 0xffff_ff00;
    SplitLowByte(w);
    BitStepsXor(8, high, low as bv32);
    ShiftOut8(high);
    ByteExtensionMeaning(low);
  }

  lemma AddByte(l: bv32, b: bv8)
    ensures var w := Xor(l, b as bv32); LowByte(w) == LowByte(l) ^ b && Shift8(w) == Shift8(l)
  {}

  /** STEP1 adds one byte. */
  lemma Step1IsByteStep(l: bv32, b: bv8)
    ensures Step1(l, b) == ByteStep(l, b)
  {
    hide Xor, BitSteps, ByteExtension, Shift8, LowByte;
    var w := Xor(l, b as bv32);
    AddByte(l, b);
    XorComm(ByteExtension(LowByte(w)), Shift8(w));
    TableStepIsByte(w);
  }

  /** STEP4W runs the register over a word already loaded. */
  lemma Step4WIsWordStep(w: bv32, l: bv32)
    ensures Step4W(w, l) == BitSteps(32, Xor(w, l))
  {
    hide Xor, TableStep, BitSteps;
    var w0 := Xor(w, l);
    TableStepIsByte(w0);
    TableStepIsByte(TableStep(w0));
    TableStepIsByte(TableStep(TableStep(w0)));
    TableStepIsByte(TableStep(TableStep(TableStep(w0))));
    BitStepsAdd(8, 8, w0);
    BitStepsAdd(16, 8, w0);
    BitStepsAdd(24, 8, w0);
  }

  lemma WordBytes(w: bv32)
    ensures Xor(Xor(Xor(LowByte(w) as bv32, (LowByte(w >> 8) as bv32) << 8),
                    (LowByte(w >> 16) as bv32) << 16),
                ((w >> 24) as bv8 as bv32) << 24) == w
  {}

  /** STEP4 moves a strand sixteen bytes on and loads the next word into it. */
  lemma Step4IsStride(crc: bv32, word: bv32)
    ensures Step4(crc, word) == Xor(word, BitSteps(128, crc))
  {
    hide Xor, BitSteps, LowByte, StrideExtension0, StrideExtension1, StrideExtension2, StrideExtension3;
    var b0, b1, b2, b3 := LowByte(crc), LowByte(crc >> 8), LowByte(crc >> 16), (crc >> 24) as bv8;
    WordBytes(crc);
    StrideExtension3Meaning(b0);
    StrideExtension2Meaning(b1);
    StrideExtension1Meaning(b2);
    StrideExtension0Meaning(b3);
    SumSteps(word, b0 as bv32, (b1 as bv32) << 8, (b2 as bv32) << 16, (b3 as bv32) << 24);
  }

  lemma SumSteps(word: bv32, w0: bv32, w1: bv32, w2: bv32, w3: bv32)
    ensures Xor(word, BitSteps(128, Xor(Xor(Xor(w0, w1), w2), w3))) ==
            Xor(Xor(Xor(Xor(word, BitSteps(128, w0)), BitSteps(128, w1)), BitSteps(128, w2)), BitSteps(128, w3))
  {
    hide Xor, BitSteps;
    BitStepsXor(128, Xor(Xor(w0, w1), w2), w3);
    BitStepsXor(128, Xor(w0, w1), w2);
    BitStepsXor(128, w0, w1);
    var s0, s1, s2, s3 := BitSteps(128, w0), BitSteps(128, w1), BitSteps(128, w2), BitSteps(128, w3);
    XorAssoc(word, Xor(Xor(s0, s1), s2), s3);
    XorAssoc(word, Xor(s0, s1), s2);
    XorAssoc(word, s0, s1);
  }

  // ----- running over a buffer

  lemma {:induction false} UpdateConcat(l: bv32, a: seq<bv8>, b: seq<bv8>)
    ensures Update(l, a + b) == Update(Update(l, a), b)
  {
    hide ByteStep;
    if b == [] {
      assert a + b == a;
    } else {
      var front := b[..|b| - 1];
      assert (a + b)[..|a + b| - 1] == a + front;
      UpdateConcat(l, a, front);
    }
  }

  lemma UpdateStep(l: bv32, data: seq<bv8>, p: nat)
    requires p < |data|
    ensures Update(l, data[..p + 1]) == ByteStep(Update(l, data[..p]), data[p])
  {
    hide ByteStep;
    assert data[..p + 1][..p] == data[..p];
  }

  lemma JoinBytes(b0: bv8, b1: bv8, b2: bv8, b3: bv8)
    ensures var w := Join(b0, b1, b2, b3);
            && LowByte(w) == b0
            && LowByte(Shift8(w)) == b1
            && LowByte(Shift8(Shift8(w))) == b2
            && LowByte(Shift8(Shift8(Shift8(w)))) == b3
            && Shift8(Shift8(Shift8(Shift8(w)))) == 0
  {}

  /** Eight shifts release the next byte of a word to the low end. */
  lemma PeelByte(l: bv32, w: bv32)
    ensures BitSteps(8, Xor(l, w)) == Xor(ByteStep(l, LowByte(w)), Shift8(w))
  {
    hide BitSteps, Xor, LowByte, Shift8;
    var low, high := LowByte(w), w & 0xffff_ff00;
    SplitLowByte(w);
    XorComm(high, low as bv32);
    XorAssoc(l, low as bv32, high);
    BitStepsXor(8, Xor(l, low as bv32), high);
    ShiftOut8(high);
  }

  /** Four bytes taken one at a time are one little-endian word taken at once. */
  lemma UpdateWord(l: bv32, data: seq<bv8>, p: nat)
    requires p + 4 <= |data|
    ensures Update(l, data[..p + 4]) == BitSteps(32, Xor(Update(l, data[..p]), ReadUint32LE(data, p)))
  {
    hide BitSteps, Xor, ByteStep, LowByte, Shift8, Join;
    var w := ReadUint32LE(data, p);
    JoinBytes(data[p], data[p + 1], data[p + 2], data[p + 3]);
    var l0 := Update(l, data[..p]);
    UpdateStep(l, data, p);
    UpdateStep(l, data, p + 1);
    UpdateStep(l, data, p + 2);
    UpdateStep(l, data, p + 3);
    WordSteps(l0, w);
  }

  lemma WordSteps(l0: bv32, w: bv32)
    requires Shift8(Shift8(Shift8(Shift8(w)))) == 0
    ensures BitSteps(32, Xor(l0, w)) ==
            ByteStep(ByteStep(ByteStep(ByteStep(l0, LowByte(w)), LowByte(Shift8(w))), LowByte(Shift8(Shift8(w)))),
                     LowByte(Shift8(Shift8(Shift8(w)))))
  {
    hide BitSteps, Xor, ByteStep, LowByte, Shift8;
    var w1, w2, w3 := Shift8(w), Shift8(Shift8(w)), Shift8(Shift8(Shift8(w)));
    var l1 := ByteStep(l0, LowByte(w));
    var l2 := ByteStep(l1, LowByte(w1));
    var l3 := ByteStep(l2, LowByte(w2));
    PeelByte(l0, w);
    PeelByte(l1, w1);
    PeelByte(l2, w2);
    PeelByte(l3, w3);
    XorUnit(ByteStep(l3, LowByte(w3)));
    var s := Xor(l0, w);
    BitStepsAdd(8, 8, s);
    BitStepsAdd(16, 8, s);
    BitStepsAdd(24, 8, s);
  }

  // ----- the four strands

  /** What the strands stand for: the register after STEP4W has taken them in order. */
  function Fold(c0: bv32, c1: bv32, c2: bv32, c3: bv32): bv32
  {
    BitSteps(32, Xor(c3, BitSteps(32, Xor(c2, BitSteps(32, Xor(c1, BitSteps(32, c0)))))))
  }

  lemma FoldXor(a0: bv32, a1: bv32, a2: bv32, a3: bv32, b0: bv32, b1: bv32, b2: bv32, b3: bv32)
    ensures Fold(Xor(a0, b0), Xor(a1, b1), Xor(a2, b2), Xor(a3, b3)) == Xor(Fold(a0, a1, a2, a3), Fold(b0, b1, b2, b3))
  {
    hide Xor, BitSteps;
    var f0, g0 := BitSteps(32, a0), BitSteps(32, b0);
    BitStepsXor(32, a0, b0);
    XorSwap(a1, b1, f0, g0);
    var f1, g1 := BitSteps(32, Xor(a1, f0)), BitSteps(32, Xor(b1, g0));
    BitStepsXor(32, Xor(a1, f0), Xor(b1, g0));
    XorSwap(a2, b2, f1, g1);
    var f2, g2 := BitSteps(32, Xor(a2, f1)), BitSteps(32, Xor(b2, g1));
    BitStepsXor(32, Xor(a2, f1), Xor(b2, g1));
    XorSwap(a3, b3, f2, g2);
    BitStepsXor(32, Xor(a3, f2), Xor(b3, g2));
  }

  lemma StepsCommute(j: nat, k: nat, l: bv32)
    ensures BitSteps(j, BitSteps(k, l)) == BitSteps(k, BitSteps(j, l))
  {
    hide BitSteps;
    BitStepsAdd(j, k, l);
    BitStepsAdd(k, j, l);
  }

  lemma FoldShifted(c0: bv32, c1: bv32, c2: bv32, c3: bv32)
    ensures Fold(BitSteps(128, c0), BitSteps(128, c1), BitSteps(128, c2), BitSteps(128, c3)) ==
            BitSteps(128, Fold(c0, c1, c2, c3))
  {
    hide Xor, BitSteps;
    StepsCommute(32, 128, c0);
    var f0 := BitSteps(32, c0);
    BitStepsXor(128, c1, f0);
    StepsCommute(32, 128, Xor(c1, f0));
    var f1 := BitSteps(32, Xor(c1, f0));
    BitStepsXor(128, c2, f1);
    StepsCommute(32, 128, Xor(c2, f1));
    var f2 := BitSteps(32, Xor(c2, f1));
    BitStepsXor(128, c3, f2);
    StepsCommute(32, 128, Xor(c3, f2));
  }

  lemma FoldFirst(l: bv32)
    ensures Fold(l, 0, 0, 0) == BitSteps(128, l)
  {
    hide Xor, BitSteps;
    var f0 := BitSteps(32, l);
    var f1 := BitSteps(32, f0);
    XorUnit(f0);
    XorUnit(f1);
    XorUnit(BitSteps(32, f1));
    BitStepsAdd(32, 32, l);
    BitStepsAdd(64, 32, l);
    BitStepsAdd(96, 32, l);
  }

  /** STEP16 does to the strands what sixteen single bytes do to the register. */
  lemma FoldStep16(c0: bv32, c1: bv32, c2: bv32, c3: bv32, w0: bv32, w1: bv32, w2: bv32, w3: bv32)
    ensures Fold(Step4(c0, w0), Step4(c1, w1), Step4(c2, w2), Step4(c3, w3)) ==
            Fold(Xor(w0, Fold(c0, c1, c2, c3)), w1, w2, w3)
  {
    hide Xor, BitSteps, Fold, Step4;
    Step4IsStride(c0, w0);
    Step4IsStride(c1, w1);
    Step4IsStride(c2, w2);
    Step4IsStride(c3, w3);
    FoldXor(w0, w1, w2, w3, BitSteps(128, c0), BitSteps(128, c1), BitSteps(128, c2), BitSteps(128, c3));
    FoldShifted(c0, c1, c2, c3);
    var f := Fold(c0, c1, c2, c3);
    FoldXor(w0, w1, w2, w3, f, 0, 0, 0);
    XorUnit(w1);
    XorUnit(w2);
    XorUnit(w3);
    FoldFirst(f);
  }

  /** One STEP4(0) and a rotation do to the strands what four single bytes do to the register. */
  lemma FoldRotate(c0: bv32, c1: bv32, c2: bv32, c3: bv32, w: bv32)
    ensures Fold(c1, c2, c3, Step4(c0, w)) == BitSteps(32, Xor(w, Fold(c0, c1, c2, c3)))
  {
    hide Xor, BitSteps, Fold, Step4;
    Step4IsStride(c0, w);
    XorUnit(c0);
    XorUnit(c1);
    XorUnit(c2);
    XorUnit(c3);
    FoldXor(c0, 0, 0, 0, 0, c1, c2, c3);
    FoldFirst(c0);
    FoldLast(c1, c2, c3, Xor(w, BitSteps(128, c0)));
    FoldRest(c1, c2, c3);
    var rest := Xor(c3, BitSteps(32, Xor(c2, BitSteps(32, c1))));
    XorAssoc(w, BitSteps(128, c0), BitSteps(32, rest));
  }

  lemma FoldLast(c0: bv32, c1: bv32, c2: bv32, c3: bv32)
    ensures Fold(c0, c1, c2, c3) ==
            BitSteps(32, Xor(c3, BitSteps(32, Xor(c2, BitSteps(32, Xor(c1, BitSteps(32, c0)))))))
  {
    hide Xor, BitSteps;
  }

  lemma FoldRest(c1: bv32, c2: bv32, c3: bv32)
    ensures Fold(0, c1, c2, c3) == BitSteps(32, Xor(c3, BitSteps(32, Xor(c2, BitSteps(32, c1)))))
  {
    BitStepsZero(32);
    hide Xor, BitSteps;
    XorUnit(c1);
  }

  /** Sixteen bytes from `p`, as the code loads them into the strands. */
  lemma UpdateSwath(l: bv32, data: seq<bv8>, p: nat)
    requires p + 16 <= |data|
    ensures Update(l, data[..p + 16]) ==
            Fold(Xor(ReadUint32LE(data, p), Update(l, data[..p])),
                 ReadUint32LE(data, p + 4), ReadUint32LE(data, p + 8), ReadUint32LE(data, p + 12))
  {
    hide Xor, BitSteps, ByteStep, Join;
    UpdateWord(l, data, p);
    UpdateWord(l, data, p + 4);
    UpdateWord(l, data, p + 8);
    UpdateWord(l, data, p + 12);
    XorComm(Update(l, data[..p]), ReadUint32LE(data, p));
    XorComm(Update(l, data[..p + 4]), ReadUint32LE(data, p + 4));
    XorComm(Update(l, data[..p + 8]), ReadUint32LE(data, p + 8));
    XorComm(Update(l, data[..p + 12]), ReadUint32LE(data, p + 12));
  }

  lemma FoldIsStep4W(c0: bv32, c1: bv32, c2: bv32, c3: bv32)
    ensures Step4W(c3, Step4W(c2, Step4W(c1, Step4W(c0, 0)))) == Fold(c0, c1, c2, c3)
  {
    hide Xor, BitSteps, Step4W;
    XorUnit(c0);
    Step4WIsWordStep(c0, 0);
    Step4WIsWordStep(c1, Step4W(c0, 0));
    Step4WIsWordStep(c2, Step4W(c1, Step4W(c0, 0)));
    Step4WIsWordStep(c3, Step4W(c2, Step4W(c1, Step4W(c0, 0))));
  }

  // ----- Extend

  /** Distance from `address` to the next multiple of four. */
  function RoundUp4(address: nat): nat { (address + 3) / 4 * 4 }

  method Extend(crc: bv32, data: seq<bv8>, address: nat) returns (r: bv32)
    ensures r == Crc(crc, data)
  {
    hide Xor, BitSteps, ByteStep, Join, Step1, Step4, Step4W, Fold;
    var e := |data|;
    var p := 0;
    var l := Xor(crc, ALL_ONES);
    ghost var l0 := l;

    // Single bytes up to the first aligned address, which may lie past the end.
    var x := RoundUp4(address) - address;
    if x <= e {
      while p != x
        invariant p <= x && l == Update(l0, data[..p])
        decreases x - p
      {
        UpdateStep(l0, data, p);
        Step1IsByteStep(l, data[p]);
        l, p := Step1(l, data[p]), p + 1;
      }
    }

    if e - p >= 16 {
      UpdateSwath(l0, data, p);
      var crc0 := Xor(ReadUint32LE(data, p), l);
      var crc1 := ReadUint32LE(data, p + 4);
      var crc2 := ReadUint32LE(data, p + 8);
      var crc3 := ReadUint32LE(data, p + 12);
      p := p + 16;

      while e - p >= 16
        invariant p <= e && Update(l0, data[..p]) == Fold(crc0, crc1, crc2, crc3)
      {
        UpdateSwath(l0, data, p);
        FoldStep16(crc0, crc1, crc2, crc3, ReadUint32LE(data, p), ReadUint32LE(data, p + 4),
                   ReadUint32LE(data, p + 8), ReadUint32LE(data, p + 12));
        crc0 := Step4(crc0, ReadUint32LE(data, p));
        crc1 := Step4(crc1, ReadUint32LE(data, p + 4));
        crc2 := Step4(crc2, ReadUint32LE(data, p + 8));
        crc3 := Step4(crc3, ReadUint32LE(data, p + 12));
        p := p + 16;
      }

      while e - p >= 4
        invariant p <= e && Update(l0, data[..p]) == Fold(crc0, crc1, crc2, crc3)
      {
        UpdateWord(l0, data, p);
        FoldRotate(crc0, crc1, crc2, crc3, ReadUint32LE(data, p));
        XorComm(Fold(crc0, crc1, crc2, crc3), ReadUint32LE(data, p));
        crc0 := Step4(crc0, ReadUint32LE(data, p));
        crc0, crc1, crc2, crc3 := crc1, crc2, crc3, crc0;
        p := p + 4;
      }

      FoldIsStep4W(crc0, crc1, crc2, crc3);
      l := 0;
      l := Step4W(crc0, l);
      l := Step4W(crc1, l);
      l := Step4W(crc2, l);
      l := Step4W(crc3, l);
    }

    while p != e
      invariant p <= e && l == Update(l0, data[..p])
      decreases e - p
    {
      UpdateStep(l0, data, p);
      Step1IsByteStep(l, data[p]);
      l, p := Step1(l, data[p]), p + 1;
    }
    assert data[..e] == data;
    r := Xor(l, ALL_ONES);
  }

  // ----- what the checksum promises

  function Value(data: seq<bv8>): bv32 { Crc(0, data) }

  const MASK_DELTA: bv32 := 0xa282_ead8

  function Mask(crc: bv32): bv32 { Rotated(crc) + MASK_DELTA }

  function Rotated(crc: bv32): bv32 { (crc >> 15) | (crc << 17) }

  function Unmask(masked: bv32): bv32
  {
    var rot := masked - MASK_DELTA;
    (rot >> 17) | (rot << 15)
  }

  /** Before the constant is added, the upper 17 bits and the lower 15 change places. */
  lemma MaskRotates(crc: bv32)
    ensures var r := Mask(crc) - 0xa282_ead8;
            r & 0x1_ffff == crc >> 15 && r >> 17 == crc & 0x7fff
  {
    hide Rotated;
    Unsummed(Rotated(crc));
    HalvesApart(crc);
  }

  lemma Unsummed(x: bv32)
    ensures (x + MASK_DELTA) - 0xa282_ead8 == x
  {}

  lemma HalvesApart(crc: bv32)
    ensures Rotated(crc) & 0x1_ffff == crc >> 15 && Rotated(crc) >> 17 == crc & 0x7fff
  {}

  lemma MaskBijective(crc: bv32)
    ensures Unmask(Mask(crc)) == crc && Mask(Unmask(crc)) == crc
  {}

  /** A checksum can be resumed: any split of a stream gives the same value, also when the checksum
      of the first part has been stored masked in between. */
  lemma Streaming(crc: bv32, a: seq<bv8>, b: seq<bv8>)
    ensures Crc(Crc(crc, a), b) == Crc(crc, a + b)
    ensures Crc(Unmask(Mask(Crc(crc, a))), b) == Crc(crc, a + b)
  {
    hide Xor, ByteStep, Mask, Unmask;
    var s := Update(Xor(crc, ALL_ONES), a);
    UpdateConcat(Xor(crc, ALL_ONES), a, b);
    XorAssoc(s, ALL_ONES, ALL_ONES);
    XorUnit(s);
    XorUnit(ALL_ONES);
    MaskBijective(Crc(crc, a));
  }
}
