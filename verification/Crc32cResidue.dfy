/** Two constants that fix the checksum: its value for the usual check string, and the state
    that any message leaves when its own checksum follows it. */
module Crc32cResidue {
  import opened Crc32cTable
  import opened Crc32c

  // ----- a message and its checksum -----

  /** The checksum's bytes as they follow the message, lowest first. */
  function FieldBytes(w: bv32): seq<bv8> {
    [LowByte(w), LowByte(Drop8(w)), LowByte(Drop8(Drop8(w))), LowByte(Drop8(Drop8(Drop8(w))))]
  }

  function LowByte(w: bv32): bv8 { (w & 0xFF) as bv8 }

  function Keep(w: bv32, m: bv32): bv32 { w & m }

  lemma {:induction false} LowBitsSplit(w: bv32, m: nat, n: nat)
    ensures LowBits(w, m + n) == LowBits(w, m) + LowBits(Halves(w, m), n)
    decreases m
  {
    hide Half, Odd;
    if m == 0 {
      assert [] + LowBits(w, n) == LowBits(w, n);
    } else {
      LowBitsSplit(Half(w), m - 1, n);
    }
  }

  lemma OneByte(w: bv32)
    ensures LowByte(w) as bv32 == Keep(w, 0xFF)
  {
  }

  /** Only the lowest bits of a word matter. */
  lemma MaskStep(w: bv32, m: bv32)
    requires Covers(0x7FFFFFFF, m)
    ensures Odd(Keep(w, Push(m, true))) == Odd(w) && Half(Keep(w, Push(m, true))) == Keep(Half(w), m)
  {
  }

  lemma {:induction false} MaskedBits(w: bv32, n: nat)
    requires n <= 32
    ensures LowBits(Keep(w, Ones(n)), n) == LowBits(w, n)
    decreases n
  {
    hide Half, Odd, Push, Covers, Keep;
    if n > 0 {
      OnesTop(n - 1);
      Ones31();
      MaskStep(w, Ones(n - 1));
      MaskedBits(Half(w), n - 1);
    }
  }

  lemma ByteIs(w: bv32)
    ensures ByteBits(LowByte(w)) == LowBits(w, 8)
  {
    hide LowBits, Keep, LowByte;
    OneByte(w);
    EightOnes();
    MaskedBits(w, 8);
  }

  lemma EightOnes()
    ensures Ones(8) == 0xFF
  {
  }

  lemma HalvesBytes(w: bv32)
    ensures Halves(w, 8) == Drop8(w)
  {
    hide Half, Drop8;
    HalvesEight(w);
    assert Halves(w, 8) == Half(Half(Half(Half(Half(Half(Half(Half(w))))))));
  }

  lemma BitsCons(a: bv8, data: seq<bv8>)
    ensures Bits([a] + data) == ByteBits(a) + Bits(data)
  {
    hide ByteBits;
    assert ([a] + data)[1..] == data;
  }

  lemma FourBytes(a: bv8, b: bv8, c: bv8, d: bv8)
    ensures Bits([a, b, c, d]) == ByteBits(a) + (ByteBits(b) + (ByteBits(c) + (ByteBits(d) + [])))
  {
    hide ByteBits, Bits;
    BitsCons(a, [b, c, d]);
    BitsCons(b, [c, d]);
    BitsCons(c, [d]);
    BitsCons(d, []);
    NoBits();
    assert [a, b, c, d] == [a] + [b, c, d] && [b, c, d] == [b] + [c, d] && [c, d] == [c] + [d] && [d] == [d] + [];
  }

  lemma NoBits()
    ensures Bits([]) == [] && forall w :: LowBits(w, 0) == []
  {
  }

  lemma FieldBits(w: bv32)
    ensures Bits(FieldBytes(w)) == LowBits(w, 32)
  {
    hide LowBits, Halves, ByteBits, Bits, Drop8, LowByte;
    var x := Drop8(w);
    var y := Drop8(x);
    var z := Drop8(y);
    ByteIs(w);
    ByteIs(x);
    ByteIs(y);
    ByteIs(z);
    HalvesBytes(w);
    HalvesBytes(x);
    HalvesBytes(y);
    HalvesBytes(z);
    LowBitsSplit(w, 8, 24);
    LowBitsSplit(x, 8, 16);
    LowBitsSplit(y, 8, 8);
    LowBitsSplit(z, 8, 0);
    NoBits();
    FourBytes(LowByte(w), LowByte(x), LowByte(y), LowByte(z));
  }

  lemma AllOnes()
    ensures Ones(32) == 0xFFFFFFFF
  {
    hide Push;
    Ones31();
    assert Push(0x7FFFFFFF, true) == 0xFFFFFFFF by {
      PushOnes();
    }
  }

  lemma PushOnes()
    ensures Push(0x7FFFFFFF, true) == 0xFFFFFFFF
  {
  }

  lemma CoversAll(w: bv32)
    ensures Covers(0xFFFFFFFF, w)
  {
  }

  lemma XorComplement(c: bv32, w: bv32)
    requires Opposite(w, c)
    ensures Xor(c, w) == 0xFFFFFFFF
  {
  }

  lemma {:induction false} ShiftsSplit(c: bv32, m: nat, n: nat)
    ensures Shifts(c, m + n) == Shifts(Shifts(c, m), n)
    decreases m
  {
    hide Shift;
    if m > 0 {
      ShiftsSplit(Shift(c), m - 1, n);
    }
  }

  lemma OnesShifted1()
    ensures Shifts(0xFFFFFFFF, 8) == 0xAD82ACAE && Shifts(0xAD82ACAE, 8) == 0x0E9E882D
  {
  }

  lemma OnesShifted2()
    ensures Shifts(0x0E9E882D, 8) == 0x9F9B5C85 && Shifts(0x9F9B5C85, 8) == 0xB798B438
  {
  }

  lemma OnesShifted()
    ensures Shifts(0xFFFFFFFF, 32) == 0xB798B438
  {
    hide Shifts;
    ShiftsSplit(0xFFFFFFFF, 8, 24);
    ShiftsSplit(0xAD82ACAE, 8, 16);
    ShiftsSplit(0x0E9E882D, 8, 8);
    OnesShifted1();
    OnesShifted2();
  }

  /** Any message followed by its checksum leaves the loop in the same state. */
  lemma Residue(data: seq<bv8>)
    ensures Fold(0xFFFFFFFF, data + FieldBytes(Crc(data))) == 0xB798B438
  {
    hide Fold, Serial, Bits, LowBits, Shifts, Covers, Word, FieldBytes, Crc, Ones, Xor, Opposite;
    var w := Crc(data);
    var c := Fold(0xFFFFFFFF, data);
    FoldAppend(0xFFFFFFFF, data, FieldBytes(w));
    FoldIsSerial(0xFFFFFFFF, data);
    CrcIsSerial(data);
    FoldIsSerial(c, FieldBytes(w));
    FieldBits(w);
    SerialWord(c, LowBits(w, 32));
    AllOnes();
    CoversAll(w);
    WordOfLowBits(w, 32);
    XorComplement(c, w);
    OnesShifted();
  }

  // ----- the check string -----

  lemma CheckSteps1()
    ensures Update(0xFFFFFFFF, 0x31) == 0x6F0A661C && Update(0x6F0A661C, 0x32) == 0x8CAA3B9F
    ensures Update(0x8CAA3B9F, 0x33) == 0xEF84D04D
  {
  }

  lemma CheckSteps2()
    ensures Update(0xEF84D04D, 0x34) == 0x09C50B11 && Update(0x09C50B11, 0x35) == 0xE72EDCCA
    ensures Update(0xE72EDCCA, 0x36) == 0xBECA8E79
  {
  }

  lemma CheckSteps3()
    ensures Update(0xBECA8E79, 0x37) == 0xEDBD6815 && Update(0xEDBD6815, 0x38) == 0x9F787F65
    ensures Update(0x9F787F65, 0x39) == 0x1CF96D7C
  {
  }

  lemma FoldOne(c: bv32, d: bv8, data: seq<bv8>)
    ensures Fold(c, [d] + data) == Fold(Update(c, d), data)
  {
    hide Update;
    assert ([d] + data)[1..] == data;
  }

  /** The digits 1 to 9, in ASCII. */
  const DIGITS: seq<bv8> := [0x31, 0x32, 0x33, 0x34, 0x35, 0x36, 0x37, 0x38, 0x39]

  lemma CheckValue()
    ensures Crc(DIGITS) == 0xE3069283
  {
    hide Update, Fold;
    CheckSteps1();
    CheckSteps2();
    CheckSteps3();
    FoldOne(0xFFFFFFFF, 0x31, DIGITS[1..]);
    FoldOne(0x6F0A661C, 0x32, DIGITS[2..]);
    FoldOne(0x8CAA3B9F, 0x33, DIGITS[3..]);
    FoldOne(0xEF84D04D, 0x34, DIGITS[4..]);
    FoldOne(0x09C50B11, 0x35, DIGITS[5..]);
    FoldOne(0xE72EDCCA, 0x36, DIGITS[6..]);
    FoldOne(0xBECA8E79, 0x37, DIGITS[7..]);
    FoldOne(0xEDBD6815, 0x38, DIGITS[8..]);
    FoldOne(0x9F787F65, 0x39, DIGITS[9..]);
    NoMore(0x1CF96D7C);
    assert forall k :: 0 <= k < 9 ==> DIGITS[k..] == [DIGITS[k]] + DIGITS[k + 1..];
    assert DIGITS[0..] == DIGITS && DIGITS[9..] == [];
  }

  lemma NoMore(c: bv32)
    ensures Fold(c, []) == c
  {
  }

  /** The empty message has checksum 0. */
  lemma EmptyValue()
    ensures Crc([]) == 0
  {
  }
}
