/** ddp_get_sink on the header as it came in: the length it works out is a size_t, and so
    are the sums it tests. Rdmap.Place states what is meant; here is when the two agree. */
module DdpSink {
  import opened MpaLayout
  import opened MpaWriter
  import opened MpaReader
  import opened MpaBlocks
  import opened MpaRoundTrip
  import opened DdpSegments
  import opened DdpWire
  import opened Stags
  import opened Rdmap

  /** buf_t. */
  datatype Buf = Buf(addr: nat, len: nat)

  /** The buffer an untagged message goes to: the oldest posted receive, or a new read
      request, whose own address is not of interest. */
  function QueueBuf(s: St, qn: nat): Opt<Buf> {
    if qn == SEND_Q then
      if s.bufQ == [] then Nothing else Just(Buf(s.bufQ[0].addr, s.bufQ[0].len))
    else if qn == RDMAREQ_Q then Just(Buf(0, REQ_SZ))
    else Nothing
  }

  /** ddp_get_sink. */
  function GetSink(s: St, h: Bytes): Opt<Buf>
    requires Header(h)
  {
    var len := SinkLen(|h|, LenOf(h));
    match SegOf(h, [])
    case Tagged(stag, to, op, _, _) =>
      if stag in s.tags && Located(s.tags[stag], to, len, NeedsRead(op), NeedsWrite(op)) then Just(Buf(to, len))
      else Nothing
    case Untagged(qn, _, mo, _, _, _) =>
      match QueueBuf(s, qn)
      case Nothing => Nothing
      case Just(b) => if SizeT(mo + len) > b.len then Nothing else Just(Buf(b.addr + mo, len))
  }

  /** The field covers its header, and what it announces fits where the header says. */
  predicate Meant(s: St, h: Bytes)
    requires Header(h)
  {
    && |h| <= LenOf(h) + 2
    && var len := LenOf(h) + 2 - |h|;
       match SegOf(h, [])
       case Tagged(stag, to, op, _, _) => TagGrants(s, stag, to, len, op)
       case Untagged(qn, _, mo, _, _, _) => QueueBuf(s, qn).Just? && mo + len <= QueueBuf(s, qn).v.len
  }

  /** The field is too small for its header, by no more than the header's offset into the
      tag or the buffer: then the sum comes out inside again. */
  predicate Slipping(s: St, h: Bytes)
    requires Header(h)
  {
    && LenOf(h) + 2 < |h|
    && var k := |h| - 2 - LenOf(h);
       match SegOf(h, [])
       case Tagged(stag, to, op, _, _) =>
         && stag in s.tags && Allows(s.tags[stag], NeedsRead(op), NeedsWrite(op))
         && s.tags[stag].start + k <= to < s.tags[stag].end
       case Untagged(qn, _, mo, _, _, _) => QueueBuf(s, qn).Just? && k <= mo <= QueueBuf(s, qn).v.len + k
  }

  /** Buffers and tags are memory that exists, well below 2^64. */
  predicate Addressable(s: St) { Sound(s) && |s.mem| + TWO32 <= TWO64 }

  lemma {:induction false} FromBeBound(b: Bytes)
    ensures FromBe(b) < Pow256(|b|)
    decreases |b|
  {
    if b != [] {
      FromBeBound(b[..|b| - 1]);
    }
  }

  lemma FieldSize(h: Bytes)
    requires |h| >= 2
    ensures LenOf(h) <= 0xFFFF
  {
  }

  lemma Powers()
    ensures Pow256(4) == TWO32 && Pow256(8) == TWO64
  {
    assert Pow256(2) == 0x1_0000;
    assert Pow256(4) == TWO32;
    assert Pow256(6) == 0x1_0000_0000_0000;
  }

  lemma FieldsIn(h: Bytes)
    requires Header(h)
    ensures match SegOf(h, [])
            case Tagged(stag, to, _, _, _) => to < TWO64 && |h| == 16
            case Untagged(qn, _, mo, _, _, _) => mo < TWO32 && |h| == 20
  {
    hide FromBe, Pow256, OpOf, LastOf;
    Powers();
    if |h| == 16 {
      FromBeBound(h[8..]);
    } else {
      FromBeBound(h[16..]);
    }
  }

  lemma QueueBufFits(s: St, qn: nat)
    requires Addressable(s)
    ensures QueueBuf(s, qn).Just? ==> QueueBuf(s, qn).v.len + TWO32 <= TWO64
  {
    if s.bufQ != [] {
      assert s.bufQ[0] in s.bufQ;
    }
  }

  lemma TaggedExact(sd: Stag, hdrsz: nat, field: nat, to: nat, read: bool, write: bool)
    requires LengthField(hdrsz, field) && sd.end + TWO32 <= TWO64 && to < TWO64
    ensures Located(sd, to, SinkLen(hdrsz, field), read, write) <==>
            if hdrsz <= field + 2 then Grants(sd, to, field + 2 - hdrsz, read, write)
            else Allows(sd, read, write) && sd.start + (hdrsz - 2 - field) <= to < sd.end
  {
    hide SinkLen, Located, Asked;
    AskedIs(hdrsz, field);
    LocatedExact(sd, to, SinkLen(hdrsz, field), read, write);
  }

  lemma UntaggedExact(hdrsz: nat, field: nat, mo: nat, room: nat)
    requires LengthField(hdrsz, field) && room + TWO32 <= TWO64 && mo < TWO32
    ensures SizeT(mo + SinkLen(hdrsz, field)) <= room <==>
            if hdrsz <= field + 2 then mo + (field + 2 - hdrsz) <= room
            else hdrsz - 2 - field <= mo <= room + (hdrsz - 2 - field)
  {
    hide SinkLen, SizeT, Asked;
    AskedIs(hdrsz, field);
    Sum64(mo + SinkLen(hdrsz, field));
  }

  /** ddp_get_sink gives a buffer exactly for what is meant and for what slips through. */
  lemma GetSinkExact(s: St, h: Bytes)
    requires Header(h) && Addressable(s)
    ensures GetSink(s, h).Just? <==> Meant(s, h) || Slipping(s, h)
    ensures (GetSink(s, h).Just? <==> Meant(s, h)) <==> !Slipping(s, h)
  {
    hide Located, Grants, Allows, SinkLen, SizeT, LenOf, FromBe, OpOf, LastOf, QueueBuf, HdrSz, NeedsRead, NeedsWrite;
    FieldSize(h);
    FieldsIn(h);
    match SegOf(h, []) {
      case Tagged(stag, to, op, _, _) =>
        if stag in s.tags {
          TaggedExact(s.tags[stag], |h|, LenOf(h), to, NeedsRead(op), NeedsWrite(op));
        }
      case Untagged(qn, _, mo, _, _, _) =>
        QueueBufFits(s, qn);
        if QueueBuf(s, qn).Just? {
          UntaggedExact(|h|, LenOf(h), mo, QueueBuf(s, qn).v.len);
        }
    }
  }

  /** A header that is not meant and yet is given a buffer: four bytes short, at the ninth
      byte of a tag. */
  lemma SlipsOnce(s: St, h: Bytes)
    requires Addressable(s) && 7 in s.tags && s.tags[7] == Stag(4096, 8192, true, true)
    requires h == [0, 10, Control(true, true), OpByte(RdmaWrite)] + Be(7, 4) + Be(4104, 8)
    ensures Header(h) && !Meant(s, h) && GetSink(s, h) == Just(Buf(4104, TWO64 - 4))
  {
    hide Be, FromBe, Pow256, SinkLen, SizeT, Asked;
    Powers();
    BeRoundTrip(7, 4);
    BeRoundTrip(4104, 8);
    Cut3(h[..4], Be(7, 4), Be(4104, 8));
    assert h == h[..4] + Be(7, 4) + Be(4104, 8);
    ControlTrip(true, true, RdmaWrite);
    AskedIs(16, 10);
    Sum64(4104 + (TWO64 - 4));
  }

  /** The headers that the DDP layer sends never slip through: for them ddp_get_sink gives
      the buffer that Place uses, or none when Place refuses. */
  lemma SinkIsPlace(s: St, g: Segment)
    requires Fits(g) && Addressable(s)
    ensures Header(Sent(HdrOf(g), g.data))
    ensures GetSink(s, Sent(HdrOf(g), g.data)).Just? <==> Place(s, g).Just?
    ensures Place(s, g).Just? ==> GetSink(s, Sent(HdrOf(g), g.data)).v.len == |g.data|
    ensures Place(s, g).Just? && g.Tagged? ==> GetSink(s, Sent(HdrOf(g), g.data)).v.addr == g.to
    ensures Place(s, g).Just? && g.Untagged? && g.qn == SEND_Q ==>
              s.bufQ != [] && GetSink(s, Sent(HdrOf(g), g.data)).v.addr == s.bufQ[0].addr + g.mo
  {
    hide Located, Grants, SinkLen, SizeT, LenOf, FromBe, OpOf, LastOf, HdrSz, NeedsRead, NeedsWrite, HdrOf, Sent, SegOf,
         Put, Zeros, Asked, Fits;
    var h := Sent(HdrOf(g), g.data);
    FitsRoom(g);
    SentHeader(HdrOf(g), g.data);
    HeaderTrip(g);
    SameFields(h, g);
    FieldSize(h);
    AskedIs(|h|, LenOf(h));
    GetSinkExact(s, h);
    PlaceMeant(s, g, h);
  }

  lemma SameFields(h: Bytes, g: Segment)
    requires Header(h) && SegOf(h, g.data) == g
    ensures SegOf(h, []) == g.(data := [])
  {
    hide FromBe, OpOf, LastOf, HdrSz;
  }

  lemma PlaceMeant(s: St, g: Segment, h: Bytes)
    requires Header(h) && Sound(s) && SegOf(h, []) == g.(data := []) && LenOf(h) + 2 == |h| + |g.data|
    ensures Meant(s, h) <==> Place(s, g).Just?
  {
    hide Grants, SegOf, LenOf, HdrSz, Put, Zeros, NeedsRead, NeedsWrite;
  }

  /** Nor does the source of a read request, whose length has 32 bits. */
  lemma ReadLocated(s: St, r: ReadReq, op: Opcode)
    requires ReqFits(r) && Addressable(s)
    ensures TagGrants(s, r.srcStag, r.srcTo, r.size, op) <==>
            r.srcStag in s.tags && Located(s.tags[r.srcStag], r.srcTo, r.size, NeedsRead(op), NeedsWrite(op))
  {
    hide Located, Grants, Pow256;
    Powers();
    if r.srcStag in s.tags {
      var sd := s.tags[r.srcStag];
      LocatedExact(sd, r.srcTo, r.size, NeedsRead(op), NeedsWrite(op));
      NoSlip(sd, r.srcTo, r.size, NeedsRead(op), NeedsWrite(op));
    }
  }
}
