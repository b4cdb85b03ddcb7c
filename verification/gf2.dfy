/** Linear algebra over GF(2) behind CRC-32C: one shift of the reflected feedback register,
    and the facts about many shifts that every optimisation in db/crc32c.cpp rests on. */
module Gf2 {
  /** Generator 0x1EDC6F41 of section 12.1 of RFC 3720, bit-reflected. */
  const POLYNOMIAL: bv32 := 0x82f6_3b78

  // `Xor`, `Half` and `Tap` name the three bit-vector operations so that the proofs below
  // can hide them and reason by equations alone.
  function Xor(a: bv32, b: bv32): bv32 { a ^ b }

  function Half(l: bv32): bv32 { l >> 1 }

  function Tap(l: bv32): bv32 { if l & 1 == 1 then POLYNOMIAL else 0 }

  /** One shift of the register: divide by x, adding the generator when a term falls out. */
  function BitStep(l: bv32): bv32 { Xor(Half(l), Tap(l)) }

  function BitSteps(k: nat, l: bv32): bv32
  {
    if k == 0 then l else BitSteps(k - 1, BitStep(l))
  }

  lemma XorAssoc(x: bv32, y: bv32, z: bv32)
    ensures Xor(Xor(x, y), z) == Xor(x, Xor(y, z))
  {}

  lemma XorComm(x: bv32, y: bv32)
    ensures Xor(x, y) == Xor(y, x)
  {}

  lemma XorSwap(w: bv32, x: bv32, y: bv32, z: bv32)
    ensures Xor(Xor(w, x), Xor(y, z)) == Xor(Xor(w, y), Xor(x, z))
  {
    hide Xor;
    XorAssoc(w, x, Xor(y, z));
    XorAssoc(x, y, z);
    XorComm(x, y);
    XorAssoc(y, x, z);
    XorAssoc(w, y, Xor(x, z));
  }

  lemma XorUnit(x: bv32)
    ensures Xor(x, 0) == x && Xor(0, x) == x && Xor(x, x) == 0
  {}

  lemma HalfXor(a: bv32, b: bv32)
    ensures Half(Xor(a, b)) == Xor(Half(a), Half(b))
  {}

  lemma TapXor(a: bv32, b: bv32)
    ensures Tap(Xor(a, b)) == Xor(Tap(a), Tap(b))
  {
    assert (a ^ b) & 1 == (a & 1) ^ (b & 1);
    LowBit(a);
    LowBit(b);
  }

  lemma LowBit(a: bv32)
    ensures a & 1 == 0 || a & 1 == 1
  {}

  lemma BitStepXor(a: bv32, b: bv32)
    ensures BitStep(Xor(a, b)) == Xor(BitStep(a), BitStep(b))
  {
    hide Xor, Half, Tap;
    HalfXor(a, b);
    TapXor(a, b);
    XorSwap(Half(a), Half(b), Tap(a), Tap(b));
  }

  /** Shifting is linear, for any number of shifts. */
  lemma {:induction false} BitStepsXor(k: nat, a: bv32, b: bv32)
    ensures BitSteps(k, Xor(a, b)) == Xor(BitSteps(k, a), BitSteps(k, b))
  {
    hide Xor, BitStep;
    if k > 0 {
      BitStepXor(a, b);
      BitStepsXor(k - 1, BitStep(a), BitStep(b));
    }
  }

  lemma {:induction false} BitStepsAdd(j: nat, k: nat, l: bv32)
    ensures BitSteps(j + k, l) == BitSteps(k, BitSteps(j, l))
  {
    hide BitStep;
    if j > 0 {
      BitStepsAdd(j - 1, k, BitStep(l));
    }
  }
}
