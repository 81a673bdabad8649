/** mpa_wrt_plain_fpdu and mpa_rd_plain_fpdu: FPDUs without markers, where length and
    checksum are handled as intended. */
module MpaPlain {
  import opened MpaLayout
  import opened VectorIo
  import opened MpaWriter
  import opened MpaReader
  import opened MpaBlocks
  import opened MpaRoundTrip
  import Crc = Crc32c
  import Burst = Crc32cBurst
  import Residue = Crc32cResidue

  /** mpa_wrt_plain_fpdu. The length given to writev_full is that of the vector. */
  method SendPlain(e: Endpoint, s: Socket, hdr0: Bytes, payload: Bytes) returns (ret: int)
    requires e.Valid() && Header(hdr0) && |hdr0| + |payload| < 0x1_0000
    modifies e`sendSp, s`sent
    ensures e.Valid()
    ensures var wire := Body(hdr0, payload);
            var fpdu := wire + CrcOf(e.useCrc, wire);
            && e.sendSp == Wrap(old(e.sendSp) + |fpdu|)
            && (ret >= 0 ==> s.sent == old(s.sent) + fpdu)
            && (ret < 0 ==> old(s.sent) <= s.sent <= old(s.sent) + fpdu)
  {
    hide Flat, Zeros, CrcField, High, Low, Aligned, HdrSz, Wrap;
    var len := |payload| + |hdr0|;
    var hdr := SetLen(hdr0, len - 2);
    var pad := Pad(len);
    var fpduLen := len + pad;
    BodyAligned(hdr0, payload);
    var blks, cp := [hdr, payload], |hdr| + |payload|;
    FlatTwo(hdr, payload);
    if pad > 0 {
      FlatPush(blks, Zeros(pad));
      blks := blks + [Zeros(pad)];
      cp := cp + pad;
    }
    assert Flat(blks) == Body(hdr0, payload);
    if e.useCrc {
      fpduLen := fpduLen + CRC_SZ;
      var crc := CrcBlk(blks);
      FlatPush(blks, crc);
      blks := blks + [crc];
      cp := cp + CRC_SZ;
    }
    WholeWords(|Body(hdr0, payload)|);
    SumAligned(e.sendSp, cp);
    e.sendSp := Wrap(e.sendSp + cp);
    var past;
    ret, past := s.WritevFull(blks, fpduLen);
    assert !past;
    ghost var fpdu := Flat(blks);
    assert fpdu[..|fpdu|] == fpdu;
  }

  lemma WholeWords(n: nat)
    requires Aligned(n)
    ensures Aligned(n + CRC_SZ)
  {
  }

  function PlainHdr(stream: Bytes): (n: nat)
    requires |stream| >= 4
    ensures n == 16 || n == 20
  {
    HdrSz(stream[..4])
  }

  predicate Accepts(useCrc: bool, wire: Bytes, crc: Bytes) { useCrc ==> crc == CrcField(wire) }

  /** mpa_rd_plain_fpdu on these bytes. The source ignores a refusal by ddp_get_sink and goes
      on with an unset buffer; here that is Refused. Its lengths have 32 bits: when their
      sum wraps, readv_full is given less than the vector holds, which here is Overrun. */
  function ParsePlain(useCrc: bool, sink: Bytes -> Sink, stream: Bytes): Outcome {
    if |stream| < 4 || |stream| < PlainHdr(stream) then Closed
    else
      var n := PlainHdr(stream);
      match sink(stream[..n])
      case NoSink => Refused(stream[..n])
      case Buffer(size) =>
        var len := Wrap(size);
        var end := n + len + Pad(len);
        if len + Pad(len) + CrcLen(useCrc) >= TWO32 then Overrun(stream[..n])
        else if |stream| < end + CrcLen(useCrc) then Closed
        else
          var wire, crc := stream[..end], stream[end..end + CrcLen(useCrc)];
          Frame(if Accepts(useCrc, wire, crc) then 0 else -EBADMSG, stream[..n], stream[n..n + len], [], wire, crc)
  }

  /** A frame is accepted exactly when checksums are off or its field is the checksum of all
      before it; otherwise the message is bad. What it holds is a prefix of the stream. */
  lemma PlainVerdict(useCrc: bool, sink: Bytes -> Sink, stream: Bytes)
    ensures var r := ParsePlain(useCrc, sink, stream);
            r.Frame? ==>
              && (r.ret == 0 <==> !useCrc || r.crc == CrcField(r.wire)) && (r.ret != 0 ==> r.ret == -74)
              && r.wire + r.crc <= stream && |r.crc| == (if useCrc then 4 else 0)
              && |r.hdr| == (if stream[2] >= 0x80 then 16 else 20) && r.marks == []
              && r.hdr + r.payload <= r.wire && |r.wire| % 4 == 0 && |r.wire| < |r.hdr| + |r.payload| + 4
  {
    hide CrcField, Wrap, Pad;
    var r := ParsePlain(useCrc, sink, stream);
    if r.Frame? {
      var n, len := |r.hdr|, |r.payload|;
      assert stream[..n] + stream[n..n + len] == stream[..n + len];
      assert r.wire + r.crc == stream[..|r.wire| + |r.crc|];
      WholeFrame(n, len);
    }
  }

  /** Which of them it comes to: closed when the header is not all there, or what it announces
      with pad and checksum is not; refused exactly when there is no sink for a whole header;
      overrun exactly when the 32-bit sum wraps. */
  lemma PlainOutcome(useCrc: bool, sink: Bytes -> Sink, stream: Bytes)
    ensures var r := ParsePlain(useCrc, sink, stream);
            var n := if |stream| < 4 then 4 else if stream[2] >= 0x80 then 16 else 20;
            var c := if useCrc then 4 else 0;
            if |stream| < n then r == Closed
            else
              match sink(stream[..n])
              case NoSink => r == Refused(stream[..n])
              case Buffer(size) =>
                var len := size % 0x1_0000_0000;
                var padded := (len + 3) / 4 * 4;
                if padded + c >= 0x1_0000_0000 then r == Overrun(stream[..n])
                else if |stream| < n + padded + c then r == Closed
                else r.Frame? && r.hdr == stream[..n] && r.payload == stream[n..n + len] && |r.wire| == n + padded
  {
    hide CrcField, Wrap, Pad, Accepts;
    if |stream| >= 4 && |stream| >= PlainHdr(stream) {
      var n := PlainHdr(stream);
      match sink(stream[..n]) {
        case NoSink =>
        case Buffer(size) => Padded(size);
      }
    }
  }

  lemma Padded(size: nat)
    ensures Wrap(size) == size % 0x1_0000_0000
    ensures Wrap(size) + Pad(Wrap(size)) == (Wrap(size) + 3) / 4 * 4
  {
  }

  lemma WholeFrame(n: nat, len: nat)
    requires n == 16 || n == 20
    ensures (n + len + Pad(len)) % 4 == 0 && Pad(len) < 4
  {
  }

  method ReadPlainHdr(s: Socket) returns (ok: bool, hdr: Bytes)
    modifies s`input
    ensures ok <==> 4 <= |old(s.input)| && PlainHdr(old(s.input)) <= |old(s.input)|
    ensures ok ==> |hdr| == PlainHdr(old(s.input)) && old(s.input) == hdr + s.input
  {
    hide HdrSz;
    ghost var input := s.input;
    var start, more;
    ok, start := s.ReadFull(4);
    if !ok {
      return false, [];
    }
    var hdrsz := HdrSz(start);
    assert start == input[..4];
    ok, more := s.ReadFull(hdrsz - 4);
    hdr := start + more;
    assert start + (more + s.input) == hdr + s.input;
  }

  /** mpa_rd_plain_fpdu. */
  method ReceivePlain(e: Endpoint, s: Socket, sink: Bytes -> Sink) returns (r: Outcome)
    requires e.Valid()
    modifies e`recvSp, s`input
    ensures e.Valid()
    ensures r == ParsePlain(e.useCrc, sink, old(s.input))
    ensures r.Frame? ==> old(s.input) == r.wire + r.crc + s.input
                         && e.recvSp == Wrap(old(e.recvSp) + |r.wire| + |r.crc|)
  {
    hide Flat, Accepts, Aligned, Wrap, Pad, HdrSz, PlainHdr, Header;
    ghost var input := s.input;
    var ok, hdr := ReadPlainHdr(s);
    if !ok {
      return Closed;
    }
    Front(hdr, s.input);
    var hdrsz := |hdr|;
    var len;
    match sink(hdr) {
      case NoSink => return Refused(hdr);
      case Buffer(n) => len := Wrap(n);
    }
    var pad := Pad(len);
    var crcLen := CrcLen(e.useCrc);
    if len + pad + crcLen >= TWO32 {
      return Overrun(hdr);
    }
    var payload, padding, crc;
    ok, payload, padding, crc := ReadBody(s, len, pad, crcLen, hdr, input);
    if !ok {
      return Closed;
    }
    PlainAligned(hdrsz, len, e.useCrc);
    SumAligned(e.recvSp, hdrsz + len + pad + crcLen);
    e.recvSp := Wrap(e.recvSp + (hdrsz + len + pad + crcLen));
    var ret := Judge(e.useCrc, hdr, payload, padding, crc);
    r := Frame(ret, hdr, payload, [], hdr + (payload + padding), crc);
  }

  /** The readv_full into the buffer, the pad word and the checksum word. */
  method ReadBody(s: Socket, len: nat, pad: nat, crcLen: nat, hdr: Bytes, ghost input: Bytes)
      returns (ok: bool, payload: Bytes, padding: Bytes, crc: Bytes)
    requires input == hdr + s.input
    modifies s`input
    ensures ok <==> |hdr| + len + pad + crcLen <= |input|
    ensures ok ==>
              && |payload| == len && |padding| == pad && |crc| == crcLen
              && input == hdr + (payload + padding) + crc + s.input
              && input[..|hdr| + len + pad] == hdr + (payload + padding)
              && input[|hdr| + len + pad..|hdr| + len + pad + crcLen] == crc
              && input[|hdr|..|hdr| + len] == payload
  {
    hide Flat;
    var vec := Blocks(Zeros(len), Zeros(pad), Zeros(crcLen));
    FlatBlocks(Zeros(len), Zeros(pad), Zeros(crcLen));
    var filled;
    ok, filled := s.ReadvFull(vec, len + pad + crcLen);
    payload := filled[0];
    padding := if pad > 0 then filled[1] else [];
    crc := if crcLen > 0 then filled[|filled| - 1] else [];
    assert filled == Blocks(payload, padding, crc);
    FlatBlocks(payload, padding, crc);
    if ok {
      SplitBody(hdr, payload, padding, crc, s.input);
    }
  }

  /** The vector behind the header: pad and checksum only where there are any. */
  function Blocks(payload: Bytes, padding: Bytes, crc: Bytes): seq<Bytes> {
    [payload] + (if padding != [] then [padding] else []) + (if crc != [] then [crc] else [])
  }

  lemma FlatBlocks(payload: Bytes, padding: Bytes, crc: Bytes)
    ensures Flat(Blocks(payload, padding, crc)) == payload + padding + crc
  {
    hide Flat;
    FlatOne(payload);
    FlatPush([payload], padding);
    var two := [payload] + if padding != [] then [padding] else [];
    assert padding == [] ==> two == [payload];
    FlatPush(two, crc);
    assert two + [] == two;
  }

  lemma SplitBody(h: Bytes, a: Bytes, b: Bytes, c: Bytes, rest: Bytes)
    ensures var s := h + (a + b + c + rest);
            && s == h + (a + b) + c + rest && s[..|h| + |a| + |b|] == h + (a + b)
            && s[|h| + |a| + |b|..|h| + |a| + |b| + |c|] == c && s[|h|..|h| + |a|] == a
  {
    Pieces(h, a, b, c, rest);
    assert h + (a + b + c + rest) == h + (a + b) + c + rest;
  }

  /** The checksum is taken over the blocks as they were read. */
  method Judge(useCrc: bool, hdr: Bytes, payload: Bytes, padding: Bytes, crc: Bytes) returns (ret: int)
    ensures ret == if Accepts(useCrc, hdr + (payload + padding), crc) then 0 else -EBADMSG
  {
    hide Flat, CrcField;
    ret := 0;
    if useCrc {
      var want := CrcBlk([hdr] + Blocks(payload, padding, []));
      FlatOne(hdr);
      FlatBlocks(payload, padding, []);
      FlatAppend([hdr], Blocks(payload, padding, []));
      assert payload + padding + [] == payload + padding;
      if want != crc {
        ret := -EBADMSG;
      }
    }
  }

  lemma Front(a: Bytes, b: Bytes)
    ensures (a + b)[..|a|] == a && (a + b)[|a|..] == b
  {
  }

  lemma PlainAligned(hdrsz: nat, len: nat, useCrc: bool)
    requires hdrsz == 16 || hdrsz == 20
    ensures Aligned(hdrsz + len + Pad(len) + CrcLen(useCrc))
  {
  }

  /** Every FPDU that was sent is read back whole and accepted, with checksums or without. */
  lemma PlainRoundTrip(hdr: Bytes, payload: Bytes, useCrc: bool, sink: Bytes -> Sink, rest: Bytes)
    requires Header(hdr) && |hdr| + |payload| < 0x1_0000
    requires sink(Sent(hdr, payload)) == Buffer(|payload|)
    ensures var wire := Body(hdr, payload);
            ParsePlain(useCrc, sink, wire + CrcOf(useCrc, wire) + rest) ==
            Frame(0, Sent(hdr, payload), payload, [], wire, CrcOf(useCrc, wire))
  {
    hide Body, CrcField, Zeros, Pad, HdrSz, SetLen, Sent, Wrap;
    WrapLength(|payload|);
    var wire := Body(hdr, payload);
    var crc := CrcOf(useCrc, wire);
    var h := Sent(hdr, payload);
    SentHeader(hdr, payload);
    BodyOf(hdr, payload);
    var z := Zeros(Pad(|payload|));
    var stream := wire + crc + rest;
    Pieces(h, payload, z, crc, rest);
    assert h + (payload + z) + crc + rest == stream;
    SameHdr(h, stream);
  }

  /** The sum wraps exactly when the length field is too small for its header by a little:
      by up to three bytes, or up to seven with a checksum. */
  lemma SumWraps(hdrsz: nat, field: nat, useCrc: bool)
    requires LengthField(hdrsz, field)
    ensures var len := Asked(hdrsz, field);
            len + Pad(len) + CrcLen(useCrc) >= TWO32
            <==> field + 2 < hdrsz <= field + 2 + if useCrc then 7 else 3
  {
    hide Asked, SinkLen, Pad;
    AskedIs(hdrsz, field);
  }

  lemma SameHdr(h: Bytes, stream: Bytes)
    requires Header(h) && |h| <= |stream| && stream[..|h|] == h
    ensures |stream| >= 4 && PlainHdr(stream) == |h|
  {
    assert stream[..4] == h[..4];
  }

  lemma Pieces(a: Bytes, b: Bytes, c: Bytes, d: Bytes, e: Bytes)
    ensures var s := a + (b + c) + d + e;
            var n := |a| + |b| + |c|;
            && s[..|a|] == a && s[|a|..|a| + |b|] == b && s[..n] == a + (b + c) && s[n..n + |d|] == d
  {
    var s := a + (b + c) + d + e;
    var n := |a| + |b| + |c|;
    assert s[..n] == a + (b + c);
    assert s[n..] == d + e;
    assert s[..|a|] == s[..n][..|a|] && s[|a|..|a| + |b|] == s[..n][|a|..|a| + |b|];
  }

  // ----- what the checksum field catches -----

  lemma ToByteInjective(p: bv32, q: bv32)
    requires p <= 0xFF && q <= 0xFF && ToByte(p) == ToByte(q)
    ensures p == q
  {
    Narrow(p);
    Narrow(q);
  }

  lemma Narrow(a: bv32)
    ensures (a as int) as bv32 == a
  {
  }

  lemma FourParts(a: bv32, b: bv32)
    requires Part0(a) == Part0(b) && Part1(a) == Part1(b) && Part2(a) == Part2(b) && Part3(a) == Part3(b)
    ensures a == b
  {
  }

  lemma WordInjective(a: bv32, b: bv32)
    requires Word(a) == Word(b)
    ensures a == b
  {
    hide Part0, Part1, Part2, Part3, ToByte;
    var u, v := Word(a), Word(b);
    assert u[0] == v[0] && u[1] == v[1] && u[2] == v[2] && u[3] == v[3];
    ToByteInjective(Part0(a), Part0(b));
    ToByteInjective(Part1(a), Part1(b));
    ToByteInjective(Part2(a), Part2(b));
    ToByteInjective(Part3(a), Part3(b));
    FourParts(a, b);
  }

  lemma {:induction false} ToBitsInjective(a: Bytes, b: Bytes)
    requires |a| == |b| && ToBits(a) == ToBits(b)
    ensures a == b
  {
    if a != [] {
      assert ToBits(a)[0] == ToBits(b)[0] && ToBits(a)[1..] == ToBits(b)[1..];
      ToBitsInjective(a[1..], b[1..]);
      SameByte(a[0], b[0]);
      assert a == [a[0]] + a[1..] && b == [b[0]] + b[1..];
    }
  }

  lemma Narrow8(x: bv8)
    ensures (x as int) as bv8 == x
  {
  }

  lemma Increment(x: bv8)
    requires (x as int) < 255
    ensures (x + 1) as int == x as int + 1
  {
  }

  /** Every byte value is the value of some bv8. */
  lemma {:induction false} Reach(a: int) returns (x: bv8)
    requires 0 <= a < 256
    ensures x as int == a
    decreases a
  {
    if a == 0 {
      x := 0;
    } else {
      var y := Reach(a - 1);
      Increment(y);
      x := y + 1;
    }
  }

  lemma ByteBack(a: int)
    requires 0 <= a < 256
    ensures (a as bv8) as int == a
  {
    var x := Reach(a);
    Narrow8(x);
  }

  lemma SameByte(a: byte, b: byte)
    requires (a as bv8) == (b as bv8)
    ensures a == b
  {
    ByteBack(a);
    ByteBack(b);
  }

  lemma {:induction false} ToBitsLength(a: Bytes)
    ensures |ToBits(a)| == |a|
  {
    if a != [] {
      ToBitsLength(a[1..]);
    }
  }

  lemma {:induction false} ToBitsAt(a: Bytes, k: nat)
    requires k < |a|
    ensures |ToBits(a)| == |a| && ToBits(a)[k] == Byte8(a[k])
    decreases a
  {
    ToBitsLength(a);
    if k > 0 {
      ToBitsAt(a[1..], k - 1);
    }
  }

  function Byte8(b: byte): bv8 { b as bv8 }

  function Short8(p: bv32): bv8
    requires p <= 0xFF
  {
    p as bv8
  }

  lemma NarrowByte(p: bv32)
    requires p <= 0xFF
    ensures Byte8(ToByte(p)) == Short8(p)
  {
    SameValue(p);
    Narrow8(p as bv8);
  }

  lemma SameValue(p: bv32)
    requires p <= 0xFF
    ensures (p as bv8) as int == p as int
  {
  }

  lemma FieldParts(c: bv32)
    ensures Short8(Part0(c)) == Residue.LowByte(c) && Short8(Part1(c)) == Residue.LowByte(Crc.Drop8(c))
    ensures Short8(Part2(c)) == Residue.LowByte(Crc.Drop8(Crc.Drop8(c)))
    ensures Short8(Part3(c)) == Residue.LowByte(Crc.Drop8(Crc.Drop8(Crc.Drop8(c))))
  {
  }

  /** On the wire the field's bytes are the checksum's, lowest first. */
  lemma FieldInMemory(c: bv32)
    ensures ToBits(Word(c)) == Residue.FieldBytes(c)
  {
    hide Part0, Part1, Part2, Part3, ToByte, Residue.LowByte, Crc.Drop8, ToBits, Byte8, Short8;
    FieldParts(c);
    NarrowByte(Part0(c));
    NarrowByte(Part1(c));
    NarrowByte(Part2(c));
    NarrowByte(Part3(c));
    var w := Word(c);
    ToBitsAt(w, 0);
    ToBitsAt(w, 1);
    ToBitsAt(w, 2);
    ToBitsAt(w, 3);
  }

  /** Whatever an FPDU holds, the division over all of it, its checksum field included,
      leaves the same state. */
  lemma FieldResidue(wire: Bytes)
    ensures Crc.Fold(0xFFFFFFFF, ToBits(wire + CrcField(wire))) == 0xB798B438
  {
    hide ToBits, Word, Crc.Crc, Crc.Fold, Residue.FieldBytes;
    ToBitsAppend(wire, CrcField(wire));
    FieldInMemory(Crc.Crc(ToBits(wire)));
    Residue.Residue(ToBits(wire));
  }

  /** Two contents that differ only inside four consecutive bytes never have one checksum
      field. */
  lemma BurstShows(pre: Bytes, u: Bytes, v: Bytes, post: Bytes)
    requires |u| == |v| <= 4 && u != v
    ensures CrcField(pre + u + post) != CrcField(pre + v + post)
  {
    hide ToBits, Word, Crc.Crc;
    ToBitsAppend(pre + u, post);
    ToBitsAppend(pre + v, post);
    ToBitsAppend(pre, u);
    ToBitsAppend(pre, v);
    ToBitsLength(u);
    ToBitsLength(v);
    if ToBits(u) == ToBits(v) {
      ToBitsInjective(u, v);
    }
    Burst.ByteBurstDetected(ToBits(pre), ToBits(u), ToBits(v), ToBits(post));
    if Word(Crc.Crc(ToBits(pre + u + post))) == Word(Crc.Crc(ToBits(pre + v + post))) {
      WordInjective(Crc.Crc(ToBits(pre + u + post)), Crc.Crc(ToBits(pre + v + post)));
    }
  }

  /** On the stream: an FPDU that was accepted is rejected when up to four consecutive bytes
      of it are changed, behind the header and before the checksum field. */
  lemma BurstRejected(sink: Bytes -> Sink, pre: Bytes, u: Bytes, v: Bytes, post: Bytes, rest: Bytes)
    requires |u| == |v| <= 4 && u != v
    requires var good := ParsePlain(true, sink, pre + u + post + rest);
             good.Frame? && good.ret == 0 && good.wire == pre + u + post && |good.hdr| <= |pre|
    ensures var bad := ParsePlain(true, sink, pre + v + post + rest);
            bad.Frame? && bad.ret == -74 && bad.wire == pre + v + post
  {
    hide CrcField, HdrSz, Pad, Wrap;
    var s, t := pre + u + post + rest, pre + v + post + rest;
    var w, x := pre + u + post, pre + v + post;
    PlainVerdict(true, sink, s);
    BurstShows(pre, u, v, post);
    assert s[..4] == pre[..4] == t[..4];
    var n := PlainHdr(s);
    assert s[..n] == pre[..n] == t[..n];
    assert s == w + rest && t == x + rest && |w| == |x|;
    assert t[..|x|] == x && t[|x|..] == rest && s[|w|..] == rest;
    assert t[|x|..|x| + 4] == rest[..4] == s[|w|..|w| + 4];
  }
}
