/** Errors that the checksum always shows: any difference confined to 32 consecutive
    bits, wherever it is and however long the message. */
module Crc32cBurst {
  import opened Crc32cTable
  import opened Crc32c

  lemma ShiftZero(c: bv32)
    requires Shift(c) == 0
    ensures c == 0
  {
  }

  /** No two states meet: one step is injective. */
  lemma ShiftInjective(a: bv32, b: bv32)
    requires Shift(a) == Shift(b)
    ensures a == b
  {
    hide Shift, Xor;
    ShiftLinear(a, b);
    XorSelf(0, Shift(a));
    ShiftZero(Xor(a, b));
    XorZero(a, b);
  }

  lemma {:induction false} ShiftsInjective(a: bv32, b: bv32, n: nat)
    requires Shifts(a, n) == Shifts(b, n)
    ensures a == b
    decreases n
  {
    hide Shift;
    if n > 0 {
      ShiftsInjective(Shift(a), Shift(b), n - 1);
      ShiftInjective(a, b);
    }
  }

  lemma FeedInjective(a: bv32, b: bv32, bit: bool)
    requires Feed(a, bit) == Feed(b, bit)
    ensures a == b
  {
  }

  /** Equal message tails never hide a difference in the state. */
  lemma {:induction false} SerialInjective(a: bv32, b: bv32, bits: seq<bool>)
    requires Serial(a, bits) == Serial(b, bits)
    ensures a == b
    decreases bits
  {
    hide Shift, Feed;
    if bits != [] {
      SerialInjective(Shift(Feed(a, bits[0])), Shift(Feed(b, bits[0])), bits[1..]);
      ShiftInjective(Feed(a, bits[0]), Feed(b, bits[0]));
      FeedInjective(a, b, bits[0]);
    }
  }

  lemma PushInjective(v: bv32, w: bv32, a: bool, b: bool)
    requires Covers(0x7FFFFFFF, v) && Covers(0x7FFFFFFF, w) && Push(v, a) == Push(w, b)
    ensures v == w && a == b
  {
  }

  lemma {:induction false} WordInjective(u: seq<bool>, v: seq<bool>)
    requires |u| == |v| <= 32 && Word(u) == Word(v)
    ensures u == v
  {
    hide Push, Covers;
    if u != [] {
      WordTop(u[1..]);
      WordTop(v[1..]);
      PushInjective(Word(u[1..]), Word(v[1..]), u[0], v[0]);
      WordInjective(u[1..], v[1..]);
      assert u == [u[0]] + u[1..] && v == [v[0]] + v[1..];
    }
  }

  /** The state after up to 32 bits determines them. */
  lemma WindowInjective(c: bv32, u: seq<bool>, v: seq<bool>)
    requires |u| == |v| <= 32 && Serial(c, u) == Serial(c, v)
    ensures u == v
  {
    hide Serial, Shifts, Word, Xor;
    SerialWord(c, u);
    SerialWord(c, v);
    ShiftsInjective(Xor(c, Word(u)), Xor(c, Word(v)), |u|);
    XorLeft(c, Word(u), Word(v));
    WordInjective(u, v);
  }

  lemma XorLeft(c: bv32, a: bv32, b: bv32)
    requires Xor(c, a) == Xor(c, b)
    ensures a == b
  {
    hide Xor;
    XorComm(c, a);
    XorComm(c, b);
    XorSelf(a, c);
    XorSelf(b, c);
  }

  lemma InvertInjective(a: bv32, b: bv32)
    requires Invert(a) == Invert(b)
    ensures a == b
  {
  }

  lemma SplitMeets(c: bv32, pre: seq<bool>, u: seq<bool>, v: seq<bool>, post: seq<bool>)
    requires |u| == |v| <= 32 && Serial(c, pre + u + post) == Serial(c, pre + v + post)
    ensures u == v
  {
    hide Serial;
    SerialAppend(c, pre + u, post);
    SerialAppend(c, pre + v, post);
    SerialAppend(c, pre, u);
    SerialAppend(c, pre, v);
    var d := Serial(c, pre);
    SerialInjective(Serial(d, u), Serial(d, v), post);
    WindowInjective(d, u, v);
  }

  lemma CrcState(a: seq<bv8>, b: seq<bv8>)
    requires Crc(a) == Crc(b)
    ensures Fold(0xFFFFFFFF, a) == Fold(0xFFFFFFFF, b)
  {
    hide Fold, Invert;
    InvertInjective(Fold(0xFFFFFFFF, a), Fold(0xFFFFFFFF, b));
  }

  /** Two messages whose bits differ only inside a window of 32 have different
      checksums; the window need not start at a byte. */
  lemma BurstDetected(a: seq<bv8>, b: seq<bv8>, pre: seq<bool>, u: seq<bool>, v: seq<bool>, post: seq<bool>)
    requires Bits(a) == pre + u + post && Bits(b) == pre + v + post
    requires |u| == |v| <= 32 && u != v
    ensures Crc(a) != Crc(b)
  {
    hide Serial, Fold, Bits, Crc;
    if Crc(a) == Crc(b) {
      CrcState(a, b);
      FoldIsSerial(0xFFFFFFFF, a);
      FoldIsSerial(0xFFFFFFFF, b);
      SplitMeets(0xFFFFFFFF, pre, u, v, post);
    }
  }

  lemma {:induction false} BitsAppend(a: seq<bv8>, b: seq<bv8>)
    ensures Bits(a + b) == Bits(a) + Bits(b)
  {
    hide ByteBits;
    if a == [] {
      assert a + b == b;
    } else {
      assert (a + b)[1..] == a[1..] + b;
      BitsAppend(a[1..], b);
    }
  }

  lemma {:induction false} BitsInjective(a: seq<bv8>, b: seq<bv8>)
    requires |a| == |b| && Bits(a) == Bits(b)
    ensures a == b
  {
    hide ByteBits;
    if a != [] {
      var x, y := ByteBits(a[0]), ByteBits(b[0]);
      ByteBitsLength(a[0]);
      ByteBitsLength(b[0]);
      assert x == Bits(a)[..8] && y == Bits(b)[..8];
      assert Bits(a[1..]) == Bits(a)[8..] && Bits(b[1..]) == Bits(b)[8..];
      ByteWord(a[0]);
      ByteWord(b[0]);
      SameByte(a[0], b[0]);
      BitsInjective(a[1..], b[1..]);
      assert a == [a[0]] + a[1..] && b == [b[0]] + b[1..];
    }
  }

  lemma ByteBitsLength(d: bv8)
    ensures |ByteBits(d)| == 8
  {
  }

  lemma SameByte(d: bv8, e: bv8)
    requires (d as bv32) == (e as bv32)
    ensures d == e
  {
  }

  lemma {:induction false} BitsLength(a: seq<bv8>)
    ensures |Bits(a)| == 8 * |a|
  {
    if a != [] {
      ByteBitsLength(a[0]);
      BitsLength(a[1..]);
    }
  }

  /** In bytes: a difference confined to four consecutive bytes. */
  lemma ByteBurstDetected(pre: seq<bv8>, u: seq<bv8>, v: seq<bv8>, post: seq<bv8>)
    requires |u| == |v| <= 4 && u != v
    ensures Crc(pre + u + post) != Crc(pre + v + post)
  {
    hide Crc, Bits;
    BitsAppend(pre + u, post);
    BitsAppend(pre + v, post);
    BitsAppend(pre, u);
    BitsAppend(pre, v);
    BitsLength(u);
    BitsLength(v);
    if Bits(u) == Bits(v) {
      BitsInjective(u, v);
    }
    BurstDetected(pre + u + post, pre + v + post, Bits(pre), Bits(u), Bits(v), Bits(post));
  }
}
