/** mpa_wrt_mrkr_fpdu and mpa_wrt_plain_fpdu: cutting an FPDU into blocks. */
module MpaWriter {
  import opened MpaLayout
  import opened VectorIo
  import Crc = Crc32c

  /** Stream and marker positions are 32-bit counters that wrap around. */
  function Wrap(x: int): (r: nat)
    ensures r < TWO32
  {
    x % TWO32
  }

  const FPDU_LEN: nat := 0x1_0000 - 60 - 60 - 8
  const MAX_CHUNKS: nat := (FPDU_LEN + MARKER_PERIOD - 1) / MARKER_PERIOD
  const MAX_BLKS: nat := 2 * MAX_CHUNKS + 1 + (1 + 1) + (1 + 1) + 1
  const MAX_MRKRS: nat := MAX_CHUNKS + 1 + 1

  function ToBits(data: Bytes): seq<bv8> {
    if data == [] then [] else [data[0] as bv8] + ToBits(data[1..])
  }

  function ToBitsVec(vec: seq<Bytes>): seq<seq<bv8>> {
    if vec == [] then [] else [ToBits(vec[0])] + ToBitsVec(vec[1..])
  }

  lemma {:induction false} ToBitsAppend(a: Bytes, b: Bytes)
    ensures ToBits(a + b) == ToBits(a) + ToBits(b)
  {
    if a == [] {
      assert a + b == b;
    } else {
      assert (a + b)[1..] == a[1..] + b;
      ToBitsAppend(a[1..], b);
    }
  }

  lemma {:induction false} ToBitsFlat(vec: seq<Bytes>)
    ensures Crc.Flatten(ToBitsVec(vec)) == ToBits(Flat(vec))
  {
    hide ToBits;
    if vec != [] {
      ToBitsFlat(vec[1..]);
      ToBitsAppend(vec[0], Flat(vec[1..]));
      assert ToBitsVec(vec)[1..] == ToBitsVec(vec[1..]);
    } else {
      NoBits();
    }
  }

  lemma NoBits()
    ensures ToBits([]) == [] && Crc.Flatten([]) == [] && Flat([]) == []
  {
  }

  function Part0(c: bv32): (p: bv32) ensures p <= 0xFF { c & 0xFF }

  function Part1(c: bv32): (p: bv32) ensures p <= 0xFF { (c >> 8) & 0xFF }

  function Part2(c: bv32): (p: bv32) ensures p <= 0xFF { (c >> 16) & 0xFF }

  function Part3(c: bv32): (p: bv32) ensures p <= 0xFF { c >> 24 }

  function ToByte(p: bv32): byte
    requires p <= 0xFF
  {
    p as int
  }

  /** A 32-bit word in memory. */
  function Word(c: bv32): (f: Bytes)
    ensures |f| == CRC_SZ
  {
    [ToByte(Part0(c)), ToByte(Part1(c)), ToByte(Part2(c)), ToByte(Part3(c))]
  }

  /** The checksum field of an FPDU with these bytes. */
  function CrcField(data: Bytes): (f: Bytes)
    ensures |f| == CRC_SZ
  {
    Word(Crc.Crc(ToBits(data)))
  }

  /** crc_blk = htonl(crc32c_vec(blks, b)). */
  method CrcBlk(blks: seq<Bytes>) returns (f: Bytes)
    ensures f == CrcField(Flat(blks))
  {
    hide Word, ToBits, Flat, Crc.Crc;
    var r := Crc.ChecksumVec(ToBitsVec(blks));
    ToBitsFlat(blks);
    Crc.HtonlTwice(Crc.Crc(ToBits(Flat(blks))));
    f := Word(Crc.Htonl(r));
  }

  /** ddp_get_hdr_sz: 16 bytes when the TAGGED bit is set, otherwise 20. */
  function HdrSz(start: Bytes): (n: nat)
    requires |start| >= 4
    ensures n == 16 || n == 20
  {
    if start[2] >= 0x80 then 16 else 20
  }

  /** The first two bytes of the header hold a length, high byte first. */
  function SetLen(hdr: Bytes, n: nat): (r: Bytes)
    requires |hdr| >= 2
    ensures |r| == |hdr|
  {
    [High(n), Low(n)] + hdr[2..]
  }

  function LenOf(hdr: Bytes): nat
    requires |hdr| >= 2
  {
    Join(hdr[1], hdr[0])
  }

  lemma LenOfSetLen(hdr: Bytes, n: nat)
    requires |hdr| >= 4 && n < 0x1_0000
    ensures LenOf(SetLen(hdr, n)) == n && HdrSz(SetLen(hdr, n)) == HdrSz(hdr)
  {
    hide Join, Low, High;
    JoinSplit(n);
  }

  predicate Header(hdr: Bytes) { |hdr| >= 4 && |hdr| == HdrSz(hdr) }

  /** What the FPDU carries: the header with its length set, the payload, the pad. */
  function Body(hdr: Bytes, payload: Bytes): (b: Bytes)
    requires Header(hdr)
    ensures |b| == |hdr| + |payload| + Pad(|hdr| + |payload|)
  {
    SetLen(hdr, |hdr| + |payload| - 2) + payload + Zeros(Pad(|hdr| + |payload|))
  }

  /** How many markers the source expects before it lays them out. */
  function NumMrkrs(len: nat, mp: nat): nat {
    if len > mp then 1 + (len - mp) / PAYLD_CHNK else 0
  }

  /** The count is right except when the padded length meets the marker position. */
  lemma NumMrkrsRight(len: nat, mp: nat)
    ensures NumMrkrs(len, mp) == Marks(0, mp, len) <==> len != mp
  {
  }

  /** Blocks and markers of an FPDU that fits stay within their static arrays. */
  lemma MarksBound(len: nat, mp: nat)
    requires len + MARKER_SZ * Marks(0, mp, len) + CRC_SZ <= FPDU_LEN
    ensures 2 * Marks(0, mp, len) + 4 < MAX_BLKS && Marks(0, mp, len) < MAX_MRKRS
  {
  }

  /** Everything before the checksum comes in whole words. */
  predicate Aligned(x: int) { x % WORD_SZ == 0 }

  lemma HeaderAligned(mp: nat, n: nat)
    requires Aligned(mp) && (n == 16 || n == 20)
    ensures Aligned(mp + MARKER_PERIOD - (n + MARKER_SZ)) && Aligned(mp - n)
  {
  }

  lemma ChunkAlignedFull()
    ensures Aligned(PAYLD_CHNK)
  {
  }

  lemma BodyAligned(hdr: Bytes, payload: Bytes)
    requires Header(hdr)
    ensures Aligned(|payload| + Pad(|hdr| + |payload|)) && Aligned(|Body(hdr, payload)|)
    ensures |Body(hdr, payload)| == |hdr| + |payload| + Pad(|hdr| + |payload|)
  {
  }

  lemma WithMarkers(x: nat, n: nat)
    requires Aligned(x)
    ensures Aligned(MARKER_PERIOD * n) && Aligned(x + MARKER_SZ * n)
  {
    assert MARKER_PERIOD * n == WORD_SZ * (128 * n);
    assert x + MARKER_SZ * n == WORD_SZ * (x / WORD_SZ + n);
  }

  lemma ChunkAligned(rest: nat, pad: nat, f: nat)
    requires Aligned(rest + pad) && Aligned(f) && f <= rest
    ensures Aligned(rest - f + pad)
  {
  }

  lemma RoundUp(f: nat, pad: nat, room: nat)
    requires Aligned(f + pad) && Aligned(room) && pad < WORD_SZ && f <= room
    ensures f + pad <= room
  {
  }

  lemma FlatOne(b: Bytes)
    ensures Flat([b]) == b
  {
    assert [b][1..] == [] && Flat([]) == [];
  }

  lemma FlatPush(blks: seq<Bytes>, b: Bytes)
    ensures Flat(blks + [b]) == Flat(blks) + b
  {
    FlatAppend(blks, [b]);
    FlatOne(b);
  }

  /** After the last payload byte: what is still to come is the pad and, if the marker
      position has just been reached, one marker. */
  ghost predicate Tail(whole: Bytes, done: Bytes, cp: nat, mp: nat, pad: nat) {
    && cp + pad <= mp && |done| == cp
    && whole == done + Zeros(pad) + Lay(cp + pad, mp, [])
  }

  /** At a marker position with payload left. */
  ghost predicate AtMarker(whole: Bytes, done: Bytes, cp: nat, mp: nat, rest: Bytes, pad: nat) {
    && cp == mp && |done| == cp && rest != [] && Aligned(|rest| + pad) && pad < WORD_SZ
    && whole == done + Lay(cp, mp, rest + Zeros(pad))
  }

  lemma EmitAll(whole: Bytes, done: Bytes, cp: nat, mp: nat, rest: Bytes, pad: nat)
    requires cp + |rest| <= mp && |done| == cp && Aligned(mp - cp)
    requires Aligned(|rest| + pad) && pad < WORD_SZ
    requires whole == done + Lay(cp, mp, rest + Zeros(pad))
    ensures Tail(whole, done + rest, cp + |rest|, mp, pad)
  {
    hide Lay, Zeros, Aligned;
    RoundUp(|rest|, pad, mp - cp);
    LayChunk(cp, mp, rest + Zeros(pad), []);
    assert rest + Zeros(pad) + [] == rest + Zeros(pad);
    Assoc(done, rest, Zeros(pad), Lay(cp + |rest| + pad, mp, []));
  }

  lemma Assoc(a: Bytes, b: Bytes, c: Bytes, d: Bytes)
    ensures a + (b + c + d) == a + b + c + d && a + (b + c) == a + b + c
  {
  }

  lemma EmitPart(whole: Bytes, done: Bytes, cp: nat, mp: nat, rest: Bytes, pad: nat)
    requires cp <= mp < cp + |rest| && |done| == cp && Aligned(mp - cp)
    requires Aligned(|rest| + pad) && pad < WORD_SZ
    requires whole == done + Lay(cp, mp, rest + Zeros(pad))
    ensures AtMarker(whole, done + rest[..mp - cp], mp, mp, rest[mp - cp..], pad)
  {
    hide Lay, Zeros, Aligned;
    var f := mp - cp;
    ChunkAligned(|rest|, pad, f);
    assert rest + Zeros(pad) == rest[..f] + (rest[f..] + Zeros(pad));
    LayChunk(cp, mp, rest[..f], rest[f..] + Zeros(pad));
    Assoc(done, rest[..f], Lay(mp, mp, rest[f..] + Zeros(pad)), []);
  }

  /** Emitting payload up to the next marker position or to its end. */
  lemma Emit(whole: Bytes, done: Bytes, cp: nat, mp: nat, rest: Bytes, pad: nat)
    requires cp <= mp && |done| == cp && Aligned(mp - cp)
    requires Aligned(|rest| + pad) && pad < WORD_SZ
    requires whole == done + Lay(cp, mp, rest + Zeros(pad))
    ensures var f := if mp - cp > |rest| then |rest| else mp - cp;
            if f == |rest| then Tail(whole, done + rest, cp + f, mp, pad)
            else AtMarker(whole, done + rest[..f], cp + f, mp, rest[f..], pad)
  {
    hide Lay, Zeros, Aligned, Tail, AtMarker;
    if mp - cp >= |rest| {
      EmitAll(whole, done, cp, mp, rest, pad);
    } else {
      EmitPart(whole, done, cp, mp, rest, pad);
    }
  }

  /** The header with the marker that falls into it. */
  lemma HeaderLaid(hdr: Bytes, mp: nat, rest: Bytes)
    requires |hdr| <= 20
    ensures mp < |hdr| ==>
              Lay(0, mp, hdr + rest) == hdr[..mp] + Marker(mp) + hdr[mp..] + Lay(|hdr| + MARKER_SZ, mp + MARKER_PERIOD, rest)
    ensures mp >= |hdr| ==> Lay(0, mp, hdr + rest) == hdr + Lay(|hdr|, mp, rest)
  {
    hide Lay, Marker;
    if mp < |hdr| {
      assert hdr + rest == hdr[..mp] + (hdr[mp..] + rest);
      LayChunk(0, mp, hdr[..mp], hdr[mp..] + rest);
      LayMark(mp, hdr[mp..] + rest);
      LayChunk(mp + MARKER_SZ, mp + MARKER_PERIOD, hdr[mp..], rest);
    } else {
      LayChunk(0, mp, hdr, rest);
    }
  }

  /** Blocks laid out so far: cp bytes, cm of them markers, pp payload bytes. */
  ghost predicate Counts(blks: seq<Bytes>, cp: nat, hdrLen: nat, pp: nat, cm: nat) {
    && |Flat(blks)| == cp == hdrLen + pp + MARKER_SZ * cm
    && |blks| <= 2 * cm + 2
  }

  /** "fill ddp_header". */
  method FillHeader(hdr: Bytes, mp0: nat, ghost rest: Bytes)
      returns (blks: seq<Bytes>, cp: nat, mp: nat, cm: nat)
    requires |hdr| == 16 || |hdr| == 20
    ensures cp <= mp && mp == mp0 + MARKER_PERIOD * cm && (Aligned(mp0) ==> Aligned(mp - cp))
    ensures Lay(0, mp0, hdr + rest) == Flat(blks) + Lay(cp, mp, rest)
    ensures Counts(blks, cp, |hdr|, 0, cm) && |blks| <= 2 * cm + 1
  {
    hide Lay, Marker, Flat, Aligned;
    HeaderLaid(hdr, mp0, rest);
    if Aligned(mp0) {
      HeaderAligned(mp0, |hdr|);
    }
    mp := mp0;
    if mp < |hdr| {
      if mp == 0 {
        blks := [Marker(mp), hdr];
        FlatOne(Marker(mp));
        FlatPush([Marker(mp)], hdr);
        assert [Marker(mp)] + [hdr] == blks;
        assert hdr[..0] + Marker(mp) + hdr[0..] == Marker(mp) + hdr;
      } else {
        blks := [hdr[..mp], Marker(mp), hdr[mp..]];
        FlatOne(hdr[..mp]);
        FlatPush([hdr[..mp]], Marker(mp));
        FlatPush([hdr[..mp]] + [Marker(mp)], hdr[mp..]);
        assert [hdr[..mp]] + [Marker(mp)] + [hdr[mp..]] == blks;
      }
      cp := |hdr| + MARKER_SZ;
      mp := mp + MARKER_PERIOD;
      cm := 1;
    } else {
      blks := [hdr];
      FlatOne(hdr);
      cp := |hdr|;
      cm := 0;
    }
  }

  /** "fill head of payload" and "fill body of payload". */
  method FillPayload(blks0: seq<Bytes>, cp0: nat, mp0: nat, cm0: nat, payload: Bytes,
                     ghost whole: Bytes, ghost hdrLen: nat, ghost pad: nat)
      returns (blks: seq<Bytes>, cp: nat, mp: nat, cm: nat)
    requires cp0 <= mp0 && Aligned(mp0 - cp0) && Aligned(|payload| + pad) && pad < WORD_SZ
    requires whole == Flat(blks0) + Lay(cp0, mp0, payload + Zeros(pad))
    requires Counts(blks0, cp0, hdrLen, 0, cm0) && |blks0| <= 2 * cm0 + 1
    ensures Tail(whole, Flat(blks), cp, mp, pad) && Counts(blks, cp, hdrLen, |payload|, cm)
    ensures mp - MARKER_PERIOD * cm == mp0 - MARKER_PERIOD * cm0
  {
    hide Lay, Marker, Flat, Zeros, Tail, AtMarker, Aligned;
    blks, cp, mp, cm := blks0, cp0, mp0, cm0;
    var h := mp - cp;
    if h > |payload| {
      h := |payload|;
    }
    Emit(whole, Flat(blks), cp, mp, payload, pad);
    if h > 0 {
      FlatPush(blks, payload[..h]);
      blks := blks + [payload[..h]];
    }
    assert payload[..0] == [] && payload[..|payload|] == payload && payload[0..] == payload;
    assert Flat(blks) == Flat(blks0) + payload[..h];
    cp := cp + h;
    var pp, l := h, |payload| - h;
    while l > 0
      invariant 0 <= l && pp == |payload| - l
      invariant Counts(blks, cp, hdrLen, pp, cm)
      invariant mp - MARKER_PERIOD * cm == mp0 - MARKER_PERIOD * cm0
      invariant if l > 0 then AtMarker(whole, Flat(blks), cp, mp, payload[pp..], pad)
                else Tail(whole, Flat(blks), cp, mp, pad)
    {
      var marked := blks + [Marker(mp)];
      FlatPush(blks, Marker(mp));
      PassMarker(whole, Flat(blks), cp, mp, payload[pp..], pad);
      cp := cp + MARKER_SZ;
      mp := mp + MARKER_PERIOD;
      cm := cm + 1;
      ChunkAlignedFull();
      var f := mp - cp;
      if f > l {
        f := l;
      }
      Emit(whole, Flat(marked), cp, mp, payload[pp..], pad);
      FlatPush(marked, payload[pp..pp + f]);
      assert payload[pp..][..f] == payload[pp..pp + f] && payload[pp..][f..] == payload[pp + f..];
      blks := marked + [payload[pp..pp + f]];
      cp := cp + f;
      pp := pp + f;
      l := l - f;
    }
  }

  lemma PassMarker(whole: Bytes, done: Bytes, cp: nat, mp: nat, rest: Bytes, pad: nat)
    requires AtMarker(whole, done, cp, mp, rest, pad)
    ensures cp == mp && |done| == cp && rest != [] && Aligned(|rest| + pad) && pad < WORD_SZ
    ensures whole == done + Marker(mp) + Lay(mp + MARKER_SZ, mp + MARKER_PERIOD, rest + Zeros(pad))
  {
    hide Lay, Marker, Zeros, Aligned;
    LayMark(mp, rest + Zeros(pad));
  }

  /** The pad and the marker that may fall behind it. */
  method FillTail(blks0: seq<Bytes>, cp0: nat, mp: nat, cm0: nat, pad: nat,
                  ghost whole: Bytes, ghost hdrLen: nat, ghost pp: nat)
      returns (blks: seq<Bytes>, cp: nat, cm: nat)
    requires Tail(whole, Flat(blks0), cp0, mp, pad) && Counts(blks0, cp0, hdrLen, pp, cm0)
    ensures Flat(blks) == whole && |whole| == cp == hdrLen + pp + pad + MARKER_SZ * cm && |blks| <= 2 * cm + 3
  {
    hide Lay, Marker, Flat;
    blks, cp, cm := blks0, cp0, cm0;
    if pad > 0 {
      FlatPush(blks, Zeros(pad));
      blks := blks + [Zeros(pad)];
      cp := cp + pad;
    }
    LayNothing(cp, mp);
    assert Flat(blks) == Flat(blks0) + Zeros(pad);
    if cp == mp {
      FlatPush(blks, Marker(mp));
      blks := blks + [Marker(mp)];
      cp := cp + MARKER_SZ;
      cm := cm + 1;
    }
  }

  lemma DiffAligned(a: nat, b: nat)
    requires a < TWO32 && b < TWO32 && Aligned(a) && Aligned(b)
    ensures Aligned(Wrap(a - b))
  {
    assert Wrap(a - b) == if a >= b then a - b else a - b + TWO32;
  }

  lemma SumAligned(a: nat, d: nat)
    requires Aligned(a) && Aligned(d)
    ensures Aligned(Wrap(a + d))
  {
    var q := (a + d) / TWO32;
    assert a + d == TWO32 * q + Wrap(a + d);
  }

  /** The block-filling part of mpa_wrt_mrkr_fpdu; cp leaves the checksum out. */
  method LayOut(hdr0: Bytes, payload: Bytes, mp0: nat, useCrc: bool) returns (blks: seq<Bytes>, cp: nat)
    requires Header(hdr0) && |hdr0| + |payload| < 0x1_0000 && Aligned(mp0)
    requires var l := |Body(hdr0, payload)|; l + MARKER_SZ * Marks(0, mp0, l) + CRC_SZ <= FPDU_LEN
    ensures var wire := Lay(0, mp0, Body(hdr0, payload));
            Flat(blks) == wire + (if useCrc then CrcField(wire) else []) && cp == |wire|
    ensures |blks| < MAX_BLKS
  {
    hide Lay, Marker, Flat, Zeros, CrcField, Tail, High, Low, Aligned;
    var len := |payload| + |hdr0|;
    var hdr := SetLen(hdr0, len - 2);
    var pad := Pad(len);
    ghost var rest := payload + Zeros(pad);
    ghost var whole := Lay(0, mp0, hdr + rest);
    assert Body(hdr0, payload) == hdr + rest;
    BodyAligned(hdr0, payload);
    var mp, cm;
    blks, cp, mp, cm := FillHeader(hdr, mp0, rest);
    blks, cp, mp, cm := FillPayload(blks, cp, mp, cm, payload, whole, |hdr|, pad);
    blks, cp, cm := FillTail(blks, cp, mp, cm, pad, whole, |hdr|, |payload|);
    LayLength(0, mp0, hdr + rest);
    MarksBound(len + pad, mp0);
    assert cm < MAX_MRKRS;
    if useCrc {
      var crc := CrcBlk(blks);
      FlatPush(blks, crc);
      blks := blks + [crc];
    } else {
      assert whole + [] == whole;
    }
  }

  /** mpa_sk_ent_t. */
  class Endpoint {
    var useCrc: bool
    var sendSp: nat
    var sendMp: nat
    var recvSp: nat
    var recvMp: nat

    predicate Valid()
      reads this
    {
      && sendSp < TWO32 && sendMp < TWO32 && recvSp < TWO32 && recvMp < TWO32
      && Aligned(sendSp) && Aligned(sendMp) && Aligned(recvSp) && Aligned(recvMp)
    }

    constructor (useCrc: bool)
      ensures Valid() && this.useCrc == useCrc
      ensures sendSp == 0 && sendMp == 0 && recvSp == 0 && recvMp == 0
    {
      this.useCrc := useCrc;
      sendSp, sendMp, recvSp, recvMp := 0, 0, 0, 0;
    }

    /** mpa_wrt_mrkr_fpdu up to its call of writev_full: the blocks, and the length that
        is passed along with them. */
    method WriteMarked(hdr0: Bytes, payload: Bytes) returns (blks: seq<Bytes>, fpduLen: nat)
      requires Valid() && Header(hdr0) && |hdr0| + |payload| < 0x1_0000
      requires var l := |Body(hdr0, payload)|;
               l + MARKER_SZ * Marks(0, Wrap(sendMp - sendSp), l) + CRC_SZ <= FPDU_LEN
      modifies `sendSp, `sendMp
      ensures Valid()
      ensures var mp := Wrap(old(sendMp - sendSp));
              var body := Body(hdr0, payload);
              var wire := Lay(0, mp, body);
              && Flat(blks) == wire + (if useCrc then CrcField(wire) else [])
              && fpduLen == |body| + MARKER_SZ * NumMrkrs(|body|, mp) + CRC_SZ
              && sendSp == Wrap(old(sendSp) + |wire|)
              && sendMp == Wrap(old(sendMp) + MARKER_PERIOD * NumMrkrs(|body|, mp))
      ensures |blks| < MAX_BLKS
    {
      hide Lay, Marker, Flat, Zeros, CrcField, Wrap, Aligned, Body, NumMrkrs, Marks;
      var len := |payload| + |hdr0|;
      var sp := sendSp;
      var mp := Wrap(sendMp - sp);
      var l := len + Pad(len);
      var numMrkrs := NumMrkrs(l, mp);
      fpduLen := l + numMrkrs * MARKER_SZ + CRC_SZ;
      BodyAligned(hdr0, payload);
      DiffAligned(sendMp, sp);
      WithMarkers(l, numMrkrs);
      WithMarkers(l, Marks(0, mp, l));
      SumAligned(sendMp, MARKER_PERIOD * numMrkrs);
      sendMp := Wrap(sendMp + numMrkrs * MARKER_PERIOD);
      var cp;
      blks, cp := LayOut(hdr0, payload, mp, useCrc);
      LayLength(0, mp, Body(hdr0, payload));
      SumAligned(sendSp, cp);
      sendSp := Wrap(sendSp + cp);
    }
  }
}
