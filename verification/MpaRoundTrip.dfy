/** What mpa_wrt_mrkr_fpdu lays out, mpa_rd_mrkr_fpdu takes back in, one FPDU after the
    other, with both ends' positions in step. */
module MpaRoundTrip {
  import opened MpaLayout
  import opened VectorIo
  import opened MpaWriter
  import opened MpaReader
  import opened MpaBlocks

  // ----- one FPDU -----

  lemma {:induction false} PointersOk(mp: nat, n: nat, lp: nat)
    requires PtrsFit(mp, n) && lp < n
    ensures Pointers(mp, n)[lp] == Wrap(mp + lp * MARKER_PERIOD)
    decreases n
  {
    if lp > 0 {
      PointersOk(mp + MARKER_PERIOD, n - 1, lp - 1);
    }
  }

  lemma AllPointersOk(mp: nat, n: nat)
    requires PtrsFit(mp, n)
    ensures PtrsOk(mp, Pointers(mp, n))
  {
    hide Pointers, Wrap;
    forall lp | 0 <= lp < n ensures Pointers(mp, n)[lp] == Wrap(mp + lp * MARKER_PERIOD) {
      PointersOk(mp, n, lp);
    }
  }

  /** Payload and pad, whether or not there is any payload. */
  lemma ScatterRest(cp: nat, mp: nat, payload: Bytes, pad: nat)
    requires cp <= mp && (payload == [] ==> cp < mp)
    requires Aligned(mp - cp) && pad == Pad(|payload|) && PtrsFit(mp, Marks(cp, mp, |payload| + pad))
    ensures var plan := Plan(cp, mp, |payload|, pad);
            var wire := Lay(cp, mp, payload + Zeros(pad));
            && Sizes(plan) == |wire|
            && Scatter(plan, wire) == Parts(payload, Pointers(mp, Marks(cp, mp, |payload| + pad)), [])
  {
    hide Lay, Marker, Scatter, Sizes, Plan, Marks, Pointers, PtrsFit, Aligned;
    if payload == [] {
      assert payload + Zeros(pad) == [];
      NoPlan(cp, mp, pad);
      ScatterNone();
      NoSizes();
      LayNothing(cp, mp);
      MarksStep(cp, mp, 0);
      Pointers0(mp, 0);
    } else {
      PadAligned(|payload|);
      ScatterLay(cp, mp, payload, pad);
    }
  }

  lemma PadOfPayload(hdrLen: nat, len: nat)
    requires hdrLen == 16 || hdrLen == 20
    ensures Pad(hdrLen + len) == Pad(len)
  {
  }

  lemma PtrsFitTail(mp: nat, n: nat)
    requires PtrsFit(mp, n + 1)
    ensures PtrsFit(mp + MARKER_PERIOD, n) && mp < 0x1_0000
  {
  }

  /** The part of Parse behind the header. */
  lemma ParseRest(mp0: nat, useCrc: bool, stream: Bytes, cp: nat, plan: seq<Piece>, wire: Bytes, crc: Bytes, parts: Parts)
    requires cp + |wire| + |crc| <= |stream| && |crc| == CrcLen(useCrc)
    requires stream[cp..cp + |wire|] == wire && stream[cp + |wire|..cp + |wire| + |crc|] == crc
    requires HasHead(mp0, stream) && Sizes(plan) == |wire| && Scatter(plan, wire) == parts
    requires PtrsOk(mp0, HeadMarks(mp0, stream) + parts.marks)
    ensures FrameOf(mp0, useCrc, stream, cp, plan)
         == Frame(if useCrc then -EBADMSG else 0, HeadBytes(mp0, stream), parts.payload,
                  HeadMarks(mp0, stream) + parts.marks, stream[..cp + |wire|], crc)
  {
    hide Scatter, Sizes, HasHead, HeadMarks, HeadBytes, PtrsOk, Ret;
    RetOk(mp0, useCrc, HeadMarks(mp0, stream) + parts.marks);
  }

  lemma Cuts(a: Bytes, b: Bytes, c: Bytes, d: Bytes)
    ensures var s := a + (b + c + d);
            && s[|a|..|a| + |b|] == b && s[..|a| + |b|] == a + b
            && s[|a| + |b|..|a| + |b| + |c|] == c
  {
    var s := a + (b + c + d);
    assert s[..|a| + |b|] == a + b;
    assert s[|a| + |b|..] == c + d;
  }

  lemma RetOk(mp0: nat, useCrc: bool, marks: seq<nat>)
    requires PtrsOk(mp0, marks)
    ensures Ret(mp0, useCrc, marks) == if useCrc then -EBADMSG else 0
  {
    hide PtrsOk;
  }

  /** The header keeps its own bytes; only its length field is set. */
  function Sent(hdr: Bytes, payload: Bytes): (h: Bytes)
    requires Header(hdr)
    ensures |h| == |hdr|
  {
    SetLen(hdr, |hdr| + |payload| - 2)
  }

  lemma SentHeader(hdr: Bytes, payload: Bytes)
    requires Header(hdr) && |hdr| + |payload| < 0x1_0000
    ensures Header(Sent(hdr, payload)) && LenOf(Sent(hdr, payload)) == |hdr| + |payload| - 2
  {
    hide SetLen, LenOf, HdrSz;
    LenOfSetLen(hdr, |hdr| + |payload| - 2);
  }

  function WireOf(hdr: Bytes, payload: Bytes, mp0: nat): Bytes
    requires Header(hdr)
  {
    Lay(0, mp0, Body(hdr, payload))
  }

  function CrcOf(useCrc: bool, wire: Bytes): (c: Bytes)
    ensures |c| == CrcLen(useCrc)
  {
    if useCrc then CrcField(wire) else []
  }

  function MarksOf(hdr: Bytes, payload: Bytes, mp0: nat): nat
    requires Header(hdr)
  {
    Marks(0, mp0, |Body(hdr, payload)|)
  }

  /** What the reader should make of one FPDU. The checksum matches, yet with checksums on
      the unbraced return still reports a bad message. */
  function Expected(hdr: Bytes, payload: Bytes, mp0: nat, useCrc: bool): Outcome
    requires Header(hdr)
  {
    var wire := WireOf(hdr, payload, mp0);
    Frame(if useCrc then -EBADMSG else 0, Sent(hdr, payload), payload,
          Pointers(mp0, MarksOf(hdr, payload, mp0)), wire, CrcOf(useCrc, wire))
  }

  /** The one layout whose last marker the reader leaves on the stream. */
  predicate LoneHeader(hdr: Bytes, payload: Bytes, mp0: nat) { payload == [] && mp0 == |hdr| }

  lemma HeadMarked(hdr: Bytes, payload: Bytes, mp0: nat)
    requires Header(hdr) && mp0 < |hdr|
    ensures WireOf(hdr, payload, mp0)
         == Sent(hdr, payload)[..mp0] + Marker(mp0) + Sent(hdr, payload)[mp0..]
            + Lay(|hdr| + MARKER_SZ, mp0 + MARKER_PERIOD, payload + Zeros(Pad(|payload|)))
  {
    hide Lay, Marker, Zeros, Pad, Body, Sent;
    BodyOf(hdr, payload);
    HeaderLaid(Sent(hdr, payload), mp0, payload + Zeros(Pad(|payload|)));
  }

  lemma HeadPointers(hdr: Bytes, payload: Bytes, mp0: nat)
    requires Header(hdr) && mp0 < |hdr| && PtrsFit(mp0, MarksOf(hdr, payload, mp0))
    ensures var n := MarksOf(hdr, payload, mp0);
            var m := Marks(|hdr| + MARKER_SZ, mp0 + MARKER_PERIOD, |payload| + Pad(|payload|));
            && n == 1 + m && Pointers(mp0, n) == [mp0] + Pointers(mp0 + MARKER_PERIOD, m)
            && PtrsFit(mp0 + MARKER_PERIOD, m) && mp0 < 0x1_0000
  {
    hide Pointers, Pad, PtrsFit, Marks, Body;
    PadOfPayload(|hdr|, |payload|);
    HeadCount(mp0, |hdr|, |payload| + Pad(|payload|));
  }

  lemma BodyOf(hdr: Bytes, payload: Bytes)
    requires Header(hdr)
    ensures Body(hdr, payload) == Sent(hdr, payload) + (payload + Zeros(Pad(|payload|)))
  {
    hide Zeros, Pad, SetLen, HdrSz;
    PadOfPayload(|hdr|, |payload|);
  }

  lemma HeadCount(mp0: nat, h: nat, n: nat)
    requires mp0 < h <= 20 && PtrsFit(mp0, Marks(0, mp0, h + n))
    ensures var m := Marks(h + MARKER_SZ, mp0 + MARKER_PERIOD, n);
            && Marks(0, mp0, h + n) == 1 + m && Pointers(mp0, 1 + m) == [mp0] + Pointers(mp0 + MARKER_PERIOD, m)
            && PtrsFit(mp0 + MARKER_PERIOD, m) && mp0 < 0x1_0000
  {
    hide Marks, Pointers, PtrsFit;
    MarksStep(0, mp0, h + n);
    MarksShift(mp0, h, n);
    var m := Marks(h + MARKER_SZ, mp0 + MARKER_PERIOD, n);
    Pointers0(mp0, 1 + m);
    PtrsFitTail(mp0, m);
  }

  lemma MarksShift(mp0: nat, h: nat, n: nat)
    requires mp0 < h <= 20
    ensures Marks(mp0 + MARKER_SZ, mp0 + MARKER_PERIOD, h + n - mp0) == Marks(h + MARKER_SZ, mp0 + MARKER_PERIOD, n)
  {
  }

  lemma HeadUnmarked(hdr: Bytes, payload: Bytes, mp0: nat)
    requires Header(hdr) && mp0 >= |hdr| && |hdr| + |payload| < 0x1_0000
    ensures MarksOf(hdr, payload, mp0) == Marks(|hdr|, mp0, |payload| + Pad(|payload|))
    ensures Body(hdr, payload) == Sent(hdr, payload) + (payload + Zeros(Pad(|payload|)))
    ensures WireOf(hdr, payload, mp0)
         == Sent(hdr, payload) + Lay(|hdr|, mp0, payload + Zeros(Pad(|payload|)))
  {
    hide Lay, Marker, Zeros, Pad, SetLen, HdrSz, Body;
    BodyOf(hdr, payload);
    HeaderLaid(Sent(hdr, payload), mp0, payload + Zeros(Pad(|payload|)));
  }

  lemma WrapLength(n: nat)
    requires n < 0x1_0000
    ensures Wrap(n) == n
  {
  }

  lemma RoundTripMarked(hdr: Bytes, payload: Bytes, mp0: nat, useCrc: bool, sink: Bytes -> Sink, rest: Bytes)
    requires Header(hdr) && |hdr| + |payload| < 0x1_0000 && Aligned(mp0) && mp0 < |hdr|
    requires sink(Sent(hdr, payload)) == Buffer(|payload|) && PtrsFit(mp0, MarksOf(hdr, payload, mp0))
    requires BlocksUsed(mp0, |hdr|, |payload|, useCrc) <= MAX_BLKS
    ensures var wire := WireOf(hdr, payload, mp0);
            Parse(mp0, useCrc, sink, wire + CrcOf(useCrc, wire) + rest) == Expected(hdr, payload, mp0, useCrc)
  {
    hide Lay, Marker, MarkerPtr, Pointers, Zeros, Pad, PtrsFit, PtrsOk, SetLen, HdrSz, Scatter, Sizes, Plan, Marks,
         Aligned, HasHead, HeadLen, HeadMp, HeadMarks, HeadBytes, HeadHdr, FrameOf, Body, CrcOf, WireOf, MarksOf, Sent,
         BlocksUsed, Wrap;
    WrapLength(|payload|);
    var wire := WireOf(hdr, payload, mp0);
    var crc := CrcOf(useCrc, wire);
    SentHeader(hdr, payload);
    HeadMarked(hdr, payload, mp0);
    HeadPointers(hdr, payload, mp0);
    var h := Sent(hdr, payload);
    var head := h[..mp0] + Marker(mp0) + h[mp0..];
    var tail := Lay(|hdr| + MARKER_SZ, mp0 + MARKER_PERIOD, payload + Zeros(Pad(|payload|)));
    var stream := wire + crc + rest;
    Assoc4(head, tail, crc, rest);
    HeadInside(mp0, h, Marker(mp0), tail + crc + rest);
    MarkerRoundTrip(mp0);
    HeaderAligned(mp0, |hdr|);
    ScatterRest(|hdr| + MARKER_SZ, mp0 + MARKER_PERIOD, payload, Pad(|payload|));
    AllPointersOk(mp0, MarksOf(hdr, payload, mp0));
    HeadMpRoom(mp0, stream);
    var m := Marks(|hdr| + MARKER_SZ, mp0 + MARKER_PERIOD, |payload| + Pad(|payload|));
    Cuts(head, tail, crc, rest);
    ParseRest(mp0, useCrc, stream, |head|, Plan(|head|, mp0 + MARKER_PERIOD, |payload|, Pad(|payload|)), tail, crc,
              Parts(payload, Pointers(mp0 + MARKER_PERIOD, m), []));
  }

  lemma Assoc4(a: Bytes, b: Bytes, c: Bytes, d: Bytes)
    ensures a + b + c + d == a + (b + c + d)
  {
  }

  lemma RoundTripUnmarked(hdr: Bytes, payload: Bytes, mp0: nat, useCrc: bool, sink: Bytes -> Sink, rest: Bytes)
    requires Header(hdr) && |hdr| + |payload| < 0x1_0000 && Aligned(mp0) && mp0 >= |hdr|
    requires sink(Sent(hdr, payload)) == Buffer(|payload|) && PtrsFit(mp0, MarksOf(hdr, payload, mp0))
    requires !LoneHeader(hdr, payload, mp0) && BlocksUsed(mp0, |hdr|, |payload|, useCrc) <= MAX_BLKS
    ensures var wire := WireOf(hdr, payload, mp0);
            Parse(mp0, useCrc, sink, wire + CrcOf(useCrc, wire) + rest) == Expected(hdr, payload, mp0, useCrc)
  {
    hide Lay, Marker, MarkerPtr, Pointers, Zeros, Pad, PtrsFit, PtrsOk, SetLen, HdrSz, Scatter, Sizes, Plan, Marks,
         Aligned, HasHead, HeadLen, HeadMp, HeadMarks, HeadBytes, HeadHdr, FrameOf, Body, CrcOf, WireOf, MarksOf, Sent,
         BlocksUsed, Wrap;
    WrapLength(|payload|);
    var wire := WireOf(hdr, payload, mp0);
    var crc := CrcOf(useCrc, wire);
    SentHeader(hdr, payload);
    HeadUnmarked(hdr, payload, mp0);
    var h := Sent(hdr, payload);
    var tail := Lay(|hdr|, mp0, payload + Zeros(Pad(|payload|)));
    var stream := wire + crc + rest;
    Assoc4(h, tail, crc, rest);
    HeadOutside(mp0, h, tail + crc + rest);
    HeaderAligned(mp0, |hdr|);
    ScatterRest(|hdr|, mp0, payload, Pad(|payload|));
    var n := MarksOf(hdr, payload, mp0);
    AllPointersOk(mp0, n);
    HeadMpRoom(mp0, stream);
    assert [] + Pointers(mp0, n) == Pointers(mp0, n);
    Cuts(h, tail, crc, rest);
    ParseRest(mp0, useCrc, stream, |h|, Plan(|h|, mp0, |payload|, Pad(|payload|)), tail, crc,
              Parts(payload, Pointers(mp0, n), []));
  }

  lemma PadOfNothing()
    ensures Pad(0) == 0 && Zeros(0) == [] && [] + Zeros(0) == []
  {
  }

  lemma LoneBody(hdr: Bytes, payload: Bytes)
    requires Header(hdr)
    ensures payload == [] ==> |Body(hdr, payload)| == |hdr|
  {
  }

  lemma LoneWire(hdr: Bytes, mp0: nat)
    requires Header(hdr) && LoneHeader(hdr, [], mp0)
    ensures WireOf(hdr, [], mp0) == Sent(hdr, []) + Marker(mp0)
  {
    hide Lay, Marker, Sent, Body, Zeros, Pad, HdrSz;
    HeadUnmarked(hdr, [], mp0);
    PadOfNothing();
    LayNothing(|hdr|, mp0);
  }

  lemma FewBlocks(mp0: nat, hdrsz: nat, useCrc: bool)
    requires hdrsz == 16 || hdrsz == 20
    ensures BlocksUsed(mp0, hdrsz, 0, useCrc) <= MAX_BLKS
  {
  }

  /** A header without payload that ends on the marker position: its last marker stays on
      the stream or, with checksums on, is taken for the checksum field. */
  lemma LoneHeaderLeft(hdr: Bytes, mp0: nat, useCrc: bool, sink: Bytes -> Sink, rest: Bytes)
    requires Header(hdr) && LoneHeader(hdr, [], mp0) && sink(Sent(hdr, [])) == Buffer(0)
    ensures var wire := WireOf(hdr, [], mp0);
            && wire == Sent(hdr, []) + Marker(mp0)
            && Parse(mp0, useCrc, sink, wire + CrcOf(useCrc, wire) + rest) ==
               Frame(if useCrc then -EBADMSG else 0, Sent(hdr, []), [], [], Sent(hdr, []),
                     if useCrc then Marker(mp0) else [])
  {
    hide Lay, Marker, MarkerPtr, SetLen, LenOf, HdrSz, Scatter, Sizes, HasHead, HeadLen, HeadMp, HeadMarks, HeadBytes,
         HeadHdr, Sent, Body, Zeros, Plan, Pad, PtrsOk, Ret, CrcOf, WireOf, FrameOf, BlocksUsed, Wrap;
    WrapLength(0);
    FewBlocks(mp0, |hdr|, useCrc);
    var h := Sent(hdr, []);
    var wire := WireOf(hdr, [], mp0);
    var crc := CrcOf(useCrc, wire);
    SentHeader(hdr, []);
    LoneWire(hdr, mp0);
    PadOfNothing();
    NoPlan(|hdr|, mp0, 0);
    NoSizes();
    ScatterNone();
    var tail := Marker(mp0) + crc + rest;
    assert wire + crc + rest == h + tail;
    HeadOutside(mp0, h, tail);
    AllPointersOk(mp0, 0);
    Pointers0(mp0, 0);
    var field := if useCrc then Marker(mp0) else [];
    var after := if useCrc then crc + rest else tail;
    assert h + tail == h + ([] + field + after);
    Cuts(h, [], field, after);
    assert h + [] == h;
    ParseRest(mp0, useCrc, h + tail, |h|, [], [], field, Parts([], [], []));
  }

  lemma Overruns(hdr: Bytes, payload: Bytes, mp0: nat, useCrc: bool, sink: Bytes -> Sink, rest: Bytes)
    requires Header(hdr) && |hdr| + |payload| < 0x1_0000 && Aligned(mp0)
    requires sink(Sent(hdr, payload)) == Buffer(|payload|) && BlocksUsed(mp0, |hdr|, |payload|, useCrc) > MAX_BLKS
    ensures var wire := WireOf(hdr, payload, mp0);
            Parse(mp0, useCrc, sink, wire + CrcOf(useCrc, wire) + rest) == Overrun(Sent(hdr, payload))
  {
    hide Lay, Marker, MarkerPtr, Zeros, Pad, SetLen, HdrSz, Plan, Marks, Aligned, HasHead, HeadLen, HeadMp, HeadMarks,
         HeadBytes, HeadHdr, FrameOf, Body, CrcOf, WireOf, MarksOf, Sent, BlocksUsed, Wrap;
    WrapLength(|payload|);
    SentHeader(hdr, payload);
    var wire, h := WireOf(hdr, payload, mp0), Sent(hdr, payload);
    var crc := CrcOf(useCrc, wire);
    if mp0 < |hdr| {
      HeadMarked(hdr, payload, mp0);
      var head := h[..mp0] + Marker(mp0) + h[mp0..];
      var tail := Lay(|hdr| + MARKER_SZ, mp0 + MARKER_PERIOD, payload + Zeros(Pad(|payload|)));
      Assoc4(head, tail, crc, rest);
      HeadInside(mp0, h, Marker(mp0), tail + crc + rest);
    } else {
      HeadUnmarked(hdr, payload, mp0);
      var tail := Lay(|hdr|, mp0, payload + Zeros(Pad(|payload|)));
      Assoc4(h, tail, crc, rest);
      HeadOutside(mp0, h, tail + crc + rest);
    }
  }

  /** The reader recovers header, payload and markers of an FPDU that the writer laid out
      for the same marker position, and leaves exactly what follows it on the stream; the
      lone header is an exception, and an FPDU too long for the block vector. */
  lemma RoundTrip(hdr: Bytes, payload: Bytes, mp0: nat, useCrc: bool, sink: Bytes -> Sink, rest: Bytes)
    requires Header(hdr) && |hdr| + |payload| < 0x1_0000 && Aligned(mp0)
    requires sink(Sent(hdr, payload)) == Buffer(|payload|) && PtrsFit(mp0, MarksOf(hdr, payload, mp0))
    ensures var wire := WireOf(hdr, payload, mp0);
            Parse(mp0, useCrc, sink, wire + CrcOf(useCrc, wire) + rest) == Expected(hdr, payload, mp0, useCrc)
            <==> !LoneHeader(hdr, payload, mp0) && !TooLong(mp0, |hdr| + |payload|, useCrc)
  {
    hide *;
    HeaderSize(hdr);
    SaidLength(|hdr|, |payload|);
    SaidFits(mp0, |hdr|, |payload|, useCrc);
    if BlocksUsed(mp0, |hdr|, |payload|, useCrc) > MAX_BLKS {
      Overruns(hdr, payload, mp0, useCrc, sink, rest);
      NoFrame(hdr, payload, mp0, useCrc);
    } else if mp0 < |hdr| {
      RoundTripMarked(hdr, payload, mp0, useCrc, sink, rest);
      NotLone(hdr, payload, mp0);
    } else if LoneHeader(hdr, payload, mp0) {
      NotWhole(hdr, payload, mp0, useCrc, sink, rest);
    } else {
      RoundTripUnmarked(hdr, payload, mp0, useCrc, sink, rest);
    }
  }

  lemma HeaderSize(hdr: Bytes)
    requires Header(hdr)
    ensures |hdr| == 16 || |hdr| == 20
  {
  }

  lemma SaidLength(hdrsz: nat, pl: nat)
    requires (hdrsz == 16 || hdrsz == 20) && hdrsz + pl < 0x1_0000
    ensures Said(hdrsz, pl)
  {
  }

  lemma NoFrame(hdr: Bytes, payload: Bytes, mp0: nat, useCrc: bool)
    requires Header(hdr)
    ensures Overrun(Sent(hdr, payload)) != Expected(hdr, payload, mp0, useCrc)
  {
  }

  lemma NotLone(hdr: Bytes, payload: Bytes, mp0: nat)
    ensures mp0 < |hdr| ==> !LoneHeader(hdr, payload, mp0)
  {
  }

  lemma NotWhole(hdr: Bytes, payload: Bytes, mp0: nat, useCrc: bool, sink: Bytes -> Sink, rest: Bytes)
    requires Header(hdr) && LoneHeader(hdr, payload, mp0) && sink(Sent(hdr, payload)) == Buffer(|payload|)
    ensures var wire := WireOf(hdr, payload, mp0);
            Parse(mp0, useCrc, sink, wire + CrcOf(useCrc, wire) + rest) != Expected(hdr, payload, mp0, useCrc)
  {
    hide Parse, WireOf, CrcOf, Sent, Pointers, MarksOf, Marker;
    LoneHeaderLeft(hdr, mp0, useCrc, sink, rest);
  }
}
