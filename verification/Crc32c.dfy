/** CRC32C: the table-driven loops against the bit-serial division, and the bursts of
    errors that the checksum always shows. */
module Crc32c {
  import opened Crc32cTable

  // ----- the loops of the source -----

  function Low8(x: bv32): bv32 { x & 0xFF }

  function Drop8(x: bv32): bv32 { x >> 8 }

  /** The body of both loops. */
  function Update(c: bv32, d: bv8): bv32 {
    Xor(Table(Low8(Xor(c, d as bv32))), Drop8(c))
  }

  function Fold(c: bv32, data: seq<bv8>): bv32
    decreases data
  {
    if data == [] then c else Fold(Update(c, data[0]), data[1..])
  }

  function Invert(c: bv32): bv32 { c ^ 0xFFFFFFFF }

  /** The checksum in host order. */
  function Crc(data: seq<bv8>): bv32 {
    Invert(Fold(0xFFFFFFFF, data))
  }

  /** htonl on a little-endian host. */
  function Htonl(x: bv32): bv32 {
    (x << 24) | ((x & 0xFF00) << 8) | ((x >> 8) & 0xFF00) | (x >> 24)
  }

  /** Byte i of the result is byte 3 - i of the argument. */
  lemma HtonlBytes(x: bv32)
    ensures Htonl(x) & 0xFF == (x >> 24) & 0xFF && (Htonl(x) >> 8) & 0xFF == (x >> 16) & 0xFF
    ensures (Htonl(x) >> 16) & 0xFF == (x >> 8) & 0xFF && (Htonl(x) >> 24) & 0xFF == x & 0xFF
  {
  }

  lemma HtonlTwice(x: bv32)
    ensures Htonl(Htonl(x)) == x
  {
  }

  lemma {:induction false} FoldAppend(c: bv32, a: seq<bv8>, b: seq<bv8>)
    decreases a
    ensures Fold(c, a + b) == Fold(Fold(c, a), b)
  {
    hide Update;
    if a == [] {
      assert a + b == b;
    } else {
      assert (a + b)[1..] == a[1..] + b;
      FoldAppend(Update(c, a[0]), a[1..], b);
    }
  }

  /** A result in network order: its complement is what the serial division leaves that
      starts from all ones. */
  predicate Divided(r: bv32, data: seq<bv8>) { Opposite(Htonl(r), Serial(0xFFFFFFFF, Bits(data))) }

  predicate Opposite(a: bv32, b: bv32) { a ^ 0xFFFFFFFF == b }

  lemma CrcDivided(data: seq<bv8>)
    ensures Divided(Htonl(Crc(data)), data)
  {
    hide Serial, Bits, Crc, Htonl, Opposite;
    CrcIsSerial(data);
    HtonlTwice(Crc(data));
  }

  /** crc32c: in network order, the complement of the division that starts from all ones. */
  method Checksum(data: seq<bv8>) returns (r: bv32)
    ensures r == Htonl(Crc(data))
    ensures Divided(r, data)
  {
    hide Update, Htonl, Bits, Divided;
    CrcDivided(data);
    var crc: bv32 := 0xFFFFFFFF;
    var k := 0;
    while k < |data|
      invariant 0 <= k <= |data|
      invariant Fold(crc, data[k..]) == Fold(0xFFFFFFFF, data)
    {
      assert data[k..][1..] == data[k + 1..];
      crc := Update(crc, data[k]);
      k := k + 1;
    }
    r := Htonl(Invert(crc));
  }

  function Flatten(vec: seq<seq<bv8>>): seq<bv8> {
    if vec == [] then [] else vec[0] + Flatten(vec[1..])
  }

  lemma {:induction false} FlattenAppend(a: seq<seq<bv8>>, b: seq<seq<bv8>>)
    ensures Flatten(a + b) == Flatten(a) + Flatten(b)
  {
    if a == [] {
      assert a + b == b;
    } else {
      assert (a + b)[1..] == a[1..] + b;
      FlattenAppend(a[1..], b);
    }
  }

  /** crc32c_vec: how the data is cut into blocks does not matter. */
  method ChecksumVec(vec: seq<seq<bv8>>) returns (r: bv32)
    ensures r == Htonl(Crc(Flatten(vec)))
    ensures Divided(r, Flatten(vec))
  {
    hide Update, Htonl, Bits, Divided;
    CrcDivided(Flatten(vec));
    var crc: bv32 := 0xFFFFFFFF;
    var i := 0;
    while i < |vec|
      invariant 0 <= i <= |vec|
      invariant Fold(crc, Flatten(vec[i..])) == Fold(0xFFFFFFFF, Flatten(vec))
    {
      var data, k := vec[i], 0;
      ghost var rest := Flatten(vec[i + 1..]);
      assert Flatten(vec[i..]) == data + rest by {
        assert vec[i..][1..] == vec[i + 1..];
      }
      assert data[0..] == data;
      while k < |data|
        invariant 0 <= k <= |data|
        invariant Fold(crc, data[k..] + rest) == Fold(0xFFFFFFFF, Flatten(vec))
      {
        assert (data[k..] + rest)[1..] == data[k + 1..] + rest;
        crc := Update(crc, data[k]);
        k := k + 1;
      }
      assert data[k..] + rest == rest;
      i := i + 1;
    }
    r := Htonl(Invert(crc));
  }

  // ----- the same by single bits -----

  function Feed(c: bv32, bit: bool): bv32 { if bit then Xor(c, 1) else c }

  /** The bit-serial definition: add a message bit, divide one step. */
  function Serial(c: bv32, bits: seq<bool>): bv32
    decreases bits
  {
    if bits == [] then c else Serial(Shift(Feed(c, bits[0])), bits[1..])
  }

  function LowBits(w: bv32, n: nat): (r: seq<bool>)
    ensures |r| == n
    decreases n
  {
    if n == 0 then [] else [Odd(w)] + LowBits(Half(w), n - 1)
  }

  /** A byte's bits in the order they enter the division, lowest first. */
  function ByteBits(d: bv8): seq<bool> { LowBits(d as bv32, 8) }

  function Bits(data: seq<bv8>): seq<bool> {
    if data == [] then [] else ByteBits(data[0]) + Bits(data[1..])
  }

  lemma {:induction false} SerialAppend(c: bv32, a: seq<bool>, b: seq<bool>)
    decreases a
    ensures Serial(c, a + b) == Serial(Serial(c, a), b)
  {
    hide Shift, Feed;
    if a == [] {
      assert a + b == b;
    } else {
      assert (a + b)[1..] == a[1..] + b;
      SerialAppend(Shift(Feed(c, a[0])), a[1..], b);
    }
  }

  function Shifts(c: bv32, n: nat): bv32
    decreases n
  {
    if n == 0 then c else Shifts(Shift(c), n - 1)
  }

  // ----- up to 32 bits as one word -----

  function Push(w: bv32, bit: bool): bv32 { Feed(w << 1, bit) }

  /** The first bit is the lowest. */
  function Word(bits: seq<bool>): bv32 {
    if bits == [] then 0 else Push(Word(bits[1..]), bits[0])
  }

  function Ones(n: nat): bv32 {
    if n == 0 then 0 else Push(Ones(n - 1), true)
  }

  predicate Covers(m: bv32, w: bv32) { w & m == w }

  lemma CoversPush(m: bv32, w: bv32, bit: bool)
    requires Covers(m, w)
    ensures Covers(Push(m, true), Push(w, bit))
  {
    ShiftCovers(m, w);
    if bit {
      LowBitCovers(m << 1, w << 1);
    } else {
      LowBitCovered(m << 1, w << 1);
    }
  }

  lemma ShiftCovers(m: bv32, w: bv32)
    requires Covers(m, w)
    ensures Covers(m << 1, w << 1) && (m << 1) & 1 == 0 && (w << 1) & 1 == 0
  {
  }

  lemma LowBitCovers(m: bv32, w: bv32)
    requires Covers(m, w) && m & 1 == 0 && w & 1 == 0
    ensures Covers(Xor(m, 1), Xor(w, 1))
  {
  }

  lemma LowBitCovered(m: bv32, w: bv32)
    requires Covers(m, w) && m & 1 == 0
    ensures Covers(Xor(m, 1), w)
  {
  }

  lemma CoversTrans(c: bv32, b: bv32, a: bv32)
    requires Covers(b, a) && Covers(c, b)
    ensures Covers(c, a)
  {
  }

  lemma CoversZero(m: bv32)
    ensures Covers(m, 0)
  {
  }

  lemma {:induction false} WordCovered(bits: seq<bool>)
    ensures Covers(Ones(|bits|), Word(bits))
  {
    hide Push, Covers;
    CoversZero(0);
    if bits != [] {
      WordCovered(bits[1..]);
      CoversPush(Ones(|bits| - 1), Word(bits[1..]), bits[0]);
    }
  }

  lemma {:induction false} OnesGrow(n: nat)
    ensures Covers(Ones(n + 1), Ones(n))
  {
    hide Push, Covers;
    CoversZero(Ones(1));
    if n > 0 {
      OnesGrow(n - 1);
      CoversPush(Ones(n), Ones(n - 1), true);
    }
  }

  lemma Ones31()
    ensures Ones(31) == 0x7FFFFFFF
  {
    assert Ones(8) == 0xFF;
    assert Ones(16) == 0xFFFF;
    assert Ones(24) == 0xFFFFFF;
  }

  lemma {:induction false} OnesTop(n: nat)
    requires n <= 31
    ensures Covers(Ones(31), Ones(n))
    decreases 31 - n
  {
    hide Push, Covers, Ones;
    if n < 31 {
      OnesTop(n + 1);
      OnesGrow(n);
      CoversTrans(Ones(31), Ones(n + 1), Ones(n));
    } else {
      CoversSelf(Ones(n));
    }
  }

  lemma CoversSelf(m: bv32)
    ensures Covers(m, m)
  {
  }

  /** Fewer than 32 bits leave the top of the word free. */
  lemma WordTop(bits: seq<bool>)
    requires |bits| <= 31
    ensures Covers(0x7FFFFFFF, Word(bits))
  {
    hide Covers, Word, Ones;
    WordCovered(bits);
    OnesTop(|bits|);
    Ones31();
    CoversTrans(Ones(31), Ones(|bits|), Word(bits));
  }

  lemma PushShift(c: bv32, w: bv32, bit: bool)
    requires Covers(0x7FFFFFFF, w)
    ensures Xor(c, Push(w, bit)) == Xor(Feed(c, bit), Push(w, false))
    ensures Half(Push(w, false)) == w && !Odd(Push(w, false))
  {
  }

  /** Feeding up to 32 bits one at a time is feeding their word at once. */
  lemma {:induction false} SerialWord(c: bv32, bits: seq<bool>)
    requires |bits| <= 32
    ensures Serial(c, bits) == Shifts(Xor(c, Word(bits)), |bits|)
    decreases bits
  {
    hide Xor, Feed, Push, Covers, Half, Odd, Shift;
    if bits == [] {
      XorSelf(0, c);
      XorSelf(c, 0);
    } else {
      var b, w := bits[0], Word(bits[1..]);
      var x := Shift(Feed(c, b));
      WordTop(bits[1..]);
      PushShift(c, w, b);
      ShiftLinear(Feed(c, b), Push(w, false));
      EvenShift(Push(w, false));
      SerialWord(x, bits[1..]);
    }
  }

  lemma EvenShift(c: bv32)
    requires !Odd(c)
    ensures Shift(c) == Half(c)
  {
  }

  // ----- table and bits agree -----

  function High24(x: bv32): bv32 { x & 0xFFFFFF00 }

  lemma SplitWord(c: bv32, d: bv8)
    ensures var x := Xor(c, d as bv32);
            x == Xor(Low8(x), High24(x)) && Drop8(High24(x)) == Drop8(c) && Low8(x) < 256
  {
  }

  predicate Clear(m: bv32, x: bv32) { x & m == 0 }

  lemma ClearHalf(m: bv32, x: bv32)
    requires Clear(Push(m, true), x) && Covers(0x7FFFFFFF, m)
    ensures !Odd(x) && Clear(m, Half(x))
  {
  }

  function Halves(x: bv32, n: nat): bv32
    decreases n
  {
    if n == 0 then x else Halves(Half(x), n - 1)
  }

  /** While the low bits are clear, dividing is only shifting. */
  lemma {:induction false} ClearShifts(x: bv32, n: nat)
    requires n <= 31 && Clear(Ones(n), x)
    ensures Shifts(x, n) == Halves(x, n)
    decreases n
  {
    hide Clear, Push, Covers, Odd, Half, Shift;
    if n > 0 {
      OnesTop(n - 1);
      Ones31();
      ClearHalf(Ones(n - 1), x);
      EvenShift(x);
      ClearShifts(Half(x), n - 1);
    }
  }

  lemma HalvesEight(x: bv32)
    ensures Half(Half(Half(Half(Half(Half(Half(Half(x)))))))) == Drop8(x)
  {
  }

  lemma High24Clear(x: bv32)
    ensures Clear(0xFF, High24(x))
  {
  }

  lemma HighBytes(x: bv32)
    ensures Shift8(High24(x)) == Drop8(High24(x))
  {
    hide Shift, Half, High24, Drop8, Clear;
    var h := High24(x);
    assert Ones(8) == 0xFF;
    High24Clear(x);
    ClearShifts(h, 8);
    HalvesEight(h);
    assert Shifts(h, 8) == Shift8(h);
    assert Halves(h, 8) == Half(Half(Half(Half(Half(Half(Half(Half(h))))))));
  }

  lemma UpdateIsShift8(c: bv32, d: bv8)
    ensures Update(c, d) == Shift8(Xor(c, d as bv32))
  {
    hide Shift8, Table, Xor, Low8, High24, Drop8;
    var x := Xor(c, d as bv32);
    SplitWord(c, d);
    TableIsShift8(Low8(x));
    Shift8Linear(Low8(x), High24(x));
    HighBytes(x);
  }

  lemma PushHalf(w: bv32)
    ensures Push(Half(w), Odd(w)) == w
  {
  }

  lemma CoversHalf(m: bv32, w: bv32)
    requires Covers(Push(m, true), w)
    ensures Covers(m, Half(w))
  {
  }

  lemma {:induction false} WordOfLowBits(w: bv32, n: nat)
    requires Covers(Ones(n), w)
    ensures Word(LowBits(w, n)) == w
    decreases n
  {
    hide Push, Covers, Half, Odd;
    if n == 0 {
      CoversNone(w);
    } else {
      CoversHalf(Ones(n - 1), w);
      WordOfLowBits(Half(w), n - 1);
      PushHalf(w);
      assert LowBits(w, n)[1..] == LowBits(Half(w), n - 1);
    }
  }

  lemma CoversNone(w: bv32)
    requires Covers(0, w)
    ensures w == 0
  {
  }

  lemma ByteWord(d: bv8)
    ensures Word(ByteBits(d)) == d as bv32
  {
    hide Word, LowBits;
    Ones8(d);
    WordOfLowBits(d as bv32, 8);
  }

  lemma Ones8(d: bv8)
    ensures Covers(Ones(8), d as bv32)
  {
    assert Ones(8) == 0xFF;
  }

  /** One table lookup is eight steps of the bit-serial division on the byte's bits. */
  lemma UpdateIsSerial(c: bv32, d: bv8)
    ensures Update(c, d) == Serial(c, ByteBits(d))
  {
    hide Shift, Xor, Update, LowBits, Serial, Word;
    UpdateIsShift8(c, d);
    SerialWord(c, ByteBits(d));
    ByteWord(d);
    var x := Xor(c, d as bv32);
    assert Shifts(x, 8) == Shift8(x);
  }

  /** The table-driven loop computes the bit-serial division. */
  lemma {:induction false} FoldIsSerial(c: bv32, data: seq<bv8>)
    ensures Fold(c, data) == Serial(c, Bits(data))
    decreases data
  {
    hide Update, ByteBits;
    if data != [] {
      UpdateIsSerial(c, data[0]);
      FoldIsSerial(Update(c, data[0]), data[1..]);
      SerialAppend(c, ByteBits(data[0]), Bits(data[1..]));
    }
  }

  lemma Complement(c: bv32)
    ensures Opposite(Invert(c), c)
  {
  }

  /** The checksum is the serial division, with all ones put in before and after. */
  lemma CrcIsSerial(data: seq<bv8>)
    ensures Opposite(Crc(data), Serial(0xFFFFFFFF, Bits(data)))
  {
    hide Fold, Serial, Bits, Invert, Opposite;
    FoldIsSerial(0xFFFFFFFF, data);
    Complement(Fold(0xFFFFFFFF, data));
  }
}
