/** mpa_rd_mrkr_fpdu: taking an FPDU with markers off the stream. */
module MpaReader {
  import opened MpaLayout
  import opened VectorIo
  import opened MpaWriter

  const EBADMSG: int := 74

  /** One entry of the receive vector. */
  datatype Piece = PayPiece(n: nat) | PadPiece(n: nat) | MarkPiece | CrcPiece {
    function Size(): nat {
      match this
      case PayPiece(n) => n
      case PadPiece(n) => n
      case MarkPiece => MARKER_SZ
      case CrcPiece => CRC_SZ
    }
  }

  function Sizes(plan: seq<Piece>): nat {
    if plan == [] then 0 else plan[0].Size() + Sizes(plan[1..])
  }

  /** The vector that the payload loop builds for `pl` bytes and their pad. */
  function Plan(cp: nat, mp: nat, pl: nat, pad: nat): seq<Piece>
    requires cp <= mp
    decreases pl, if cp == mp then 1 else 0
  {
    if pl == 0 then []
    else if mp - cp < pl then
      [PayPiece(mp - cp), MarkPiece] + Plan(mp + MARKER_SZ, mp + MARKER_PERIOD, pl - (mp - cp), pad)
    else
      LastPieces(pl, pad, cp + pl + pad == mp)
  }

  function LastPieces(n: nat, pad: nat, marked: bool): seq<Piece> {
    [PayPiece(n)] + (if pad > 0 then [PadPiece(pad)] else []) + (if marked then [MarkPiece] else [])
  }

  lemma PlanLast(cp: nat, mp: nat, pl: nat, pad: nat)
    requires cp <= mp && 0 < pl <= mp - cp
    ensures Plan(cp, mp, pl, pad) == LastPieces(pl, pad, cp + pl + pad == mp)
  {
  }

  /** One turn of the payload loop. */
  method PlanOne(plan0: seq<Piece>, cp0: nat, mp0: nat, pl0: nat, pad: nat)
      returns (plan: seq<Piece>, cp: nat, mp: nat, pl: nat)
    requires pl0 > 0 && cp0 <= mp0 && Aligned(mp0 - cp0) && Aligned(pl0 + pad) && pad < WORD_SZ
    ensures cp == cp0 + Sizes(plan) - Sizes(plan0)
    ensures mp0 - cp0 < pl0 ==>
              && plan == plan0 + [PayPiece(mp0 - cp0), MarkPiece] && pl == pl0 - (mp0 - cp0)
              && cp == mp0 + MARKER_SZ && mp == mp0 + MARKER_PERIOD && Aligned(mp - cp) && Aligned(pl + pad)
    ensures mp0 - cp0 >= pl0 ==> plan == plan0 + Plan(cp0, mp0, pl0, pad) && pl == 0
  {
    hide Aligned, Sizes;
    plan, cp, mp, pl := plan0, cp0, mp0, pl0;
    var ln := mp - cp;
    if ln > pl {
      ln := pl;
    }
    if ln == pl {
      RoundUp(ln, pad, mp - cp);
    } else {
      ChunkAligned(pl, pad, ln);
    }
    SizesPush(plan, PayPiece(ln));
    plan := plan + [PayPiece(ln)];
    cp := cp + ln;
    pl := pl - ln;
    if pl == 0 && pad > 0 {
      SizesPush(plan, PadPiece(pad));
      plan := plan + [PadPiece(pad)];
      cp := cp + pad;
    }
    if cp == mp {
      SizesPush(plan, MarkPiece);
      plan := plan + [MarkPiece];
      cp := cp + MARKER_SZ;
      mp := mp + MARKER_PERIOD;
      ChunkAlignedFull();
    }
  }

  /** The payload loop of mpa_rd_mrkr_fpdu. */
  method PlanReads(cp0: nat, mp0: nat, pl0: nat, pad: nat) returns (plan: seq<Piece>, cp: nat)
    requires cp0 <= mp0 && Aligned(mp0 - cp0) && Aligned(pl0 + pad) && pad < WORD_SZ
    ensures plan == Plan(cp0, mp0, pl0, pad) && cp == cp0 + Sizes(plan)
  {
    hide Aligned, Sizes;
    var mp, pl := mp0, pl0;
    plan, cp := [], cp0;
    NoSizes();
    ghost var whole := Plan(cp0, mp0, pl0, pad);
    assert [] + whole == whole;
    while pl > 0
      invariant 0 <= pl && (pl > 0 ==> cp <= mp && Aligned(mp - cp) && Aligned(pl + pad))
      invariant pl > 0 ==> whole == plan + Plan(cp, mp, pl, pad)
      invariant pl == 0 ==> whole == plan
      invariant cp == cp0 + Sizes(plan)
      decreases pl, if cp == mp then 1 else 0
    {
      ghost var before, rest := plan, Plan(cp, mp, pl, pad);
      if mp - cp < pl {
        PlanPart(cp, mp, pl, pad);
        ghost var tail := Plan(mp + MARKER_SZ, mp + MARKER_PERIOD, pl - (mp - cp), pad);
        assert before + ([PayPiece(mp - cp), MarkPiece] + tail) == before + [PayPiece(mp - cp), MarkPiece] + tail;
      }
      plan, cp, mp, pl := PlanOne(plan, cp, mp, pl, pad);
    }
  }

  lemma PlanPart(cp: nat, mp: nat, pl: nat, pad: nat)
    requires cp <= mp && mp - cp < pl
    ensures Plan(cp, mp, pl, pad)
         == [PayPiece(mp - cp), MarkPiece] + Plan(mp + MARKER_SZ, mp + MARKER_PERIOD, pl - (mp - cp), pad)
  {
  }

  lemma NoSizes()
    ensures Sizes([]) == 0
  {
  }

  lemma {:induction false} SizesAppend(a: seq<Piece>, b: seq<Piece>)
    ensures Sizes(a + b) == Sizes(a) + Sizes(b)
  {
    if a == [] {
      assert a + b == b;
    } else {
      assert (a + b)[1..] == a[1..] + b;
      SizesAppend(a[1..], b);
    }
  }

  lemma SizesPush(plan: seq<Piece>, p: Piece)
    ensures Sizes(plan + [p]) == Sizes(plan) + p.Size()
  {
    SizesAppend(plan, [p]);
    assert [p][1..] == [];
  }

  /** What lands in the buffers when the vector is filled with `data`. */
  datatype Parts = Parts(payload: Bytes, marks: seq<nat>, crc: Bytes)

  function Join2(a: Parts, b: Parts): Parts {
    Parts(a.payload + b.payload, a.marks + b.marks, a.crc + b.crc)
  }

  function One(p: Piece, data: Bytes): Parts
    requires |data| == p.Size()
  {
    match p
    case PayPiece(_) => Parts(data, [], [])
    case PadPiece(_) => Parts([], [], [])
    case MarkPiece => Parts([], [MarkerPtr(data)], [])
    case CrcPiece => Parts([], [], data)
  }

  function Scatter(plan: seq<Piece>, data: Bytes): Parts
    requires |data| == Sizes(plan)
  {
    if plan == [] then Parts([], [], [])
    else
      var n := plan[0].Size();
      Join2(One(plan[0], data[..n]), Scatter(plan[1..], data[n..]))
  }

  lemma ScatterCons(p: Piece, plan: seq<Piece>, a: Bytes, b: Bytes)
    requires |a| == p.Size() && |b| == Sizes(plan)
    ensures Sizes([p] + plan) == |a + b|
    ensures Scatter([p] + plan, a + b) == Join2(One(p, a), Scatter(plan, b))
  {
    assert ([p] + plan)[1..] == plan;
    assert (a + b)[..|a|] == a && (a + b)[|a|..] == b;
  }

  lemma Join2Laws(a: Parts, b: Parts, c: Parts)
    ensures Join2(Join2(a, b), c) == Join2(a, Join2(b, c))
    ensures Join2(Parts([], [], []), a) == a == Join2(a, Parts([], [], []))
  {
  }

  lemma SizesFirst(p: seq<Piece>)
    ensures Sizes(p) == if p == [] then 0 else p[0].Size() + Sizes(p[1..])
  {
  }

  lemma {:induction false} ScatterAppend(p: seq<Piece>, q: seq<Piece>, a: Bytes, b: Bytes)
    requires |a| == Sizes(p) && |b| == Sizes(q)
    ensures Sizes(p + q) == |a + b|
    ensures Scatter(p + q, a + b) == Join2(Scatter(p, a), Scatter(q, b))
  {
    hide Scatter, Join2, One, Sizes;
    SizesAppend(p, q);
    SizesFirst(p);
    if p == [] {
      assert p + q == q && a + b == b && a == [];
      ScatterNone();
      Join2Laws(Scatter(q, b), Scatter(q, b), Scatter(q, b));
    } else {
      var n := p[0].Size();
      var a1, a2, p2 := a[..n], a[n..], p[1..];
      assert p == [p[0]] + p2 && a == a1 + a2;
      ScatterCons(p[0], p2, a1, a2);
      ScatterAppend(p2, q, a2, b);
      ScatterCons(p[0], p2 + q, a1, a2 + b);
      assert p + q == [p[0]] + (p2 + q) && a + b == a1 + (a2 + b);
      Join2Laws(One(p[0], a1), Scatter(p2, a2), Scatter(q, b));
    }
  }

  lemma ScatterNone()
    ensures Scatter([], []) == Parts([], [], [])
  {
  }

  /** The marker pointers that n markers starting at mp should carry. */
  function Pointers(mp: nat, n: nat): (p: seq<nat>)
    ensures |p| == n
    decreases n
  {
    if n == 0 then [] else [mp] + Pointers(mp + MARKER_PERIOD, n - 1)
  }

  lemma Pointers0(mp: nat, n: nat)
    ensures n > 0 ==> Pointers(mp, n) == [mp] + Pointers(mp + MARKER_PERIOD, n - 1)
    ensures Pointers(mp, 0) == []
  {
  }

  /** n markers from mp on have pointers of sixteen bits. */
  predicate PtrsFit(mp: nat, n: nat) { n == 0 || mp + MARKER_PERIOD * (n - 1) < 0x1_0000 }

  lemma MarksStep(cp: nat, mp: nat, l: nat)
    requires cp <= mp
    ensures cp + l < mp ==> Marks(cp, mp, l) == 0
    ensures cp + l >= mp ==> Marks(cp, mp, l) == 1 + Marks(mp + MARKER_SZ, mp + MARKER_PERIOD, l - (mp - cp))
  {
  }

  lemma ScatterOne(p: Piece, data: Bytes)
    requires |data| == p.Size()
    ensures Sizes([p]) == |data| && Scatter([p], data) == One(p, data)
  {
    assert [p][1..] == [] && data[..|data|] == data && data[|data|..] == [];
  }

  lemma ScatterPadded(payload: Bytes, pad: nat)
    ensures var plan := [PayPiece(|payload|)] + if pad > 0 then [PadPiece(pad)] else [];
            Sizes(plan) == |payload| + pad && Scatter(plan, payload + Zeros(pad)) == Parts(payload, [], [])
  {
    hide Zeros, Scatter, Sizes;
    ScatterOne(PayPiece(|payload|), payload);
    var z := Zeros(pad);
    if pad > 0 {
      ScatterOne(PadPiece(pad), z);
      ScatterAppend([PayPiece(|payload|)], [PadPiece(pad)], payload, z);
    } else {
      assert [PayPiece(|payload|)] + [] == [PayPiece(|payload|)] && payload + z == payload;
    }
  }

  lemma ScatterMarked(plan: seq<Piece>, data: Bytes, mp: nat)
    requires Sizes(plan) == |data| && mp < 0x1_0000
    ensures Sizes(plan + [MarkPiece]) == |data + Marker(mp)|
    ensures Scatter(plan + [MarkPiece], data + Marker(mp)) == Join2(Scatter(plan, data), Parts([], [mp], []))
  {
    hide Scatter, Sizes, Marker, MarkerPtr;
    MarkerRoundTrip(mp);
    ScatterOne(MarkPiece, Marker(mp));
    ScatterAppend(plan, [MarkPiece], data, Marker(mp));
  }

  lemma LayLast(cp: nat, mp: nat, bytes: Bytes)
    requires cp + |bytes| <= mp
    ensures Lay(cp, mp, bytes) == bytes + if cp + |bytes| == mp then Marker(mp) else []
  {
    hide Lay, Marker;
    LayChunk(cp, mp, bytes, []);
    assert bytes + [] == bytes;
    LayNothing(cp + |bytes|, mp);
  }

  lemma PointersLast(cp: nat, mp: nat, l: nat)
    requires cp + l <= mp
    ensures Marks(cp, mp, l) == if cp + l == mp then 1 else 0
    ensures Pointers(mp, Marks(cp, mp, l)) == if cp + l == mp then [mp] else []
  {
    Pointers0(mp, 1);
    Pointers0(mp + MARKER_PERIOD, 0);
  }

  /** The last payload bytes, their pad, and the marker that may follow. */
  lemma ScatterLast(cp: nat, mp: nat, payload: Bytes, pad: nat)
    requires 0 < |payload| && cp + |payload| + pad <= mp && PtrsFit(mp, Marks(cp, mp, |payload| + pad))
    ensures var plan := Plan(cp, mp, |payload|, pad);
            var wire := Lay(cp, mp, payload + Zeros(pad));
            && Sizes(plan) == |wire|
            && Scatter(plan, wire) == Parts(payload, Pointers(mp, Marks(cp, mp, |payload| + pad)), [])
  {
    hide Lay, Marker, Zeros, Scatter, Sizes, Plan, MarkerPtr, Marks, Pointers;
    LayLast(cp, mp, payload + Zeros(pad));
    PlanLast(cp, mp, |payload|, pad);
    PointersLast(cp, mp, |payload| + pad);
    ScatterPadded(payload, pad);
    var plan := [PayPiece(|payload|)] + if pad > 0 then [PadPiece(pad)] else [];
    if cp + |payload| + pad == mp {
      ScatterMarked(plan, payload + Zeros(pad), mp);
    } else {
      assert payload + Zeros(pad) + [] == payload + Zeros(pad) && plan + [] == plan;
    }
  }

  /** One stretch of payload up to a marker, then the rest. */
  lemma ScatterPart(a: Bytes, mp: nat, plan: seq<Piece>, wire: Bytes)
    requires Sizes(plan) == |wire| && mp < 0x1_0000
    ensures Sizes([PayPiece(|a|), MarkPiece] + plan) == |a + Marker(mp) + wire|
    ensures Scatter([PayPiece(|a|), MarkPiece] + plan, a + Marker(mp) + wire)
         == Join2(Parts(a, [mp], []), Scatter(plan, wire))
  {
    hide Scatter, Marker, MarkerPtr;
    MarkerRoundTrip(mp);
    ScatterCons(MarkPiece, plan, Marker(mp), wire);
    ScatterCons(PayPiece(|a|), [MarkPiece] + plan, a, Marker(mp) + wire);
    assert [PayPiece(|a|), MarkPiece] + plan == [PayPiece(|a|)] + ([MarkPiece] + plan);
    assert a + Marker(mp) + wire == a + (Marker(mp) + wire);
  }

  /** Filling the planned vector with what the writer laid out gives back the payload,
      and every marker points to the start of the FPDU. */
  lemma {:induction false} ScatterLay(cp: nat, mp: nat, payload: Bytes, pad: nat)
    requires 0 < |payload| && cp <= mp && Aligned(mp - cp) && Aligned(|payload| + pad) && pad < WORD_SZ
    requires PtrsFit(mp, Marks(cp, mp, |payload| + pad))
    ensures var plan := Plan(cp, mp, |payload|, pad);
            var wire := Lay(cp, mp, payload + Zeros(pad));
            && Sizes(plan) == |wire|
            && Scatter(plan, wire) == Parts(payload, Pointers(mp, Marks(cp, mp, |payload| + pad)), [])
    decreases |payload|, if cp == mp then 1 else 0
  {
    hide Lay, Marker, Zeros, Scatter, MarkerPtr, Plan, Sizes, Aligned, Marks;
    var n := mp - cp;
    if n >= |payload| {
      RoundUp(|payload|, pad, n);
      ScatterLast(cp, mp, payload, pad);
    } else {
      var a, b := payload[..n], payload[n..];
      ChunkAligned(|payload|, pad, n);
      ChunkAlignedFull();
      MarksStep(cp, mp, |payload| + pad);
      Pointers0(mp, Marks(cp, mp, |payload| + pad));
      ScatterLay(mp + MARKER_SZ, mp + MARKER_PERIOD, b, pad);
      PlanPart(cp, mp, |payload|, pad);
      var wire := Lay(mp + MARKER_SZ, mp + MARKER_PERIOD, b + Zeros(pad));
      assert payload + Zeros(pad) == a + (b + Zeros(pad));
      LayChunk(cp, mp, a, b + Zeros(pad));
      LayMark(mp, b + Zeros(pad));
      assert a + (Marker(mp) + wire) == a + Marker(mp) + wire;
      ScatterPart(a, mp, Plan(mp + MARKER_SZ, mp + MARKER_PERIOD, |b|, pad), wire);
      assert a + b == payload;
    }
  }

  // ----- the reader as a function of the bytes on the stream -----

  /** What ddp_get_sink answers for a header. */
  datatype Sink = NoSink | Buffer(len: nat)

  /** The length that ddp_get_sink works out from the field in the header: a size_t, so that
      a field too small for its header gives one just below 2^64. */
  function SinkLen(hdrsz: nat, field: nat): nat { SizeT(field + 2 - hdrsz) }

  /** What one call of mpa_rd_mrkr_fpdu comes to: the peer closed too early and the
      process ends; the header has no sink; the reader goes past its own block vector or a
      32-bit length of its wraps, and the model stops; or a whole FPDU was taken off the
      stream. `wire` is all of it but the checksum field. */
  datatype Outcome =
    | Closed
    | Refused(header: Bytes)
    | Overrun(header: Bytes)
    | Frame(ret: int, hdr: Bytes, payload: Bytes, marks: seq<nat>, wire: Bytes, crc: Bytes)

  /** Where the first four header bytes are. */
  function StartAt(mp0: nat): nat { if mp0 == 0 then MARKER_SZ else 0 }

  predicate HasStart(mp0: nat, stream: Bytes) { StartAt(mp0) + 4 <= |stream| }

  function HeadHdr(mp0: nat, stream: Bytes): (n: nat)
    requires HasStart(mp0, stream)
    ensures n == 16 || n == 20
  {
    HdrSz(stream[StartAt(mp0)..StartAt(mp0) + 4])
  }

  function HeadLen(mp0: nat, stream: Bytes): nat
    requires HasStart(mp0, stream)
  {
    var n := HeadHdr(mp0, stream);
    n + if mp0 < n then MARKER_SZ else 0
  }

  predicate HasHead(mp0: nat, stream: Bytes) {
    HasStart(mp0, stream) && HeadLen(mp0, stream) <= |stream|
  }

  function HeadBytes(mp0: nat, stream: Bytes): (h: Bytes)
    requires HasHead(mp0, stream)
    ensures |h| == HeadHdr(mp0, stream)
  {
    var n := HeadHdr(mp0, stream);
    if mp0 < n then stream[..mp0] + stream[mp0 + MARKER_SZ..n + MARKER_SZ] else stream[..n]
  }

  function HeadMarks(mp0: nat, stream: Bytes): seq<nat>
    requires HasHead(mp0, stream)
  {
    if mp0 < HeadHdr(mp0, stream) then [MarkerPtr(stream[mp0..mp0 + MARKER_SZ])] else []
  }

  function HeadMp(mp0: nat, stream: Bytes): nat
    requires HasHead(mp0, stream)
  {
    if mp0 < HeadHdr(mp0, stream) then mp0 + MARKER_PERIOD else mp0
  }

  /** Every marker must point back to where this FPDU started. */
  predicate PtrsOk(mk: nat, marks: seq<nat>) {
    forall lp :: 0 <= lp < |marks| ==> marks[lp] == Wrap(mk + lp * MARKER_PERIOD)
  }

  /** The value returned once all bytes are in; with a checksum the last return always fires. */
  function Ret(mp0: nat, useCrc: bool, marks: seq<nat>): int {
    if !PtrsOk(mp0, marks) || useCrc then -EBADMSG else 0
  }

  function CrcLen(useCrc: bool): nat { if useCrc then CRC_SZ else 0 }

  lemma HeadMpRoom(mp0: nat, stream: Bytes)
    requires HasHead(mp0, stream)
    ensures HeadLen(mp0, stream) <= HeadMp(mp0, stream)
    ensures Aligned(mp0) ==> Aligned(HeadMp(mp0, stream) - HeadLen(mp0, stream)) && Aligned(HeadLen(mp0, stream))
  {
  }

  function ParseBody(mp0: nat, useCrc: bool, len: nat, stream: Bytes): Outcome
    requires HasHead(mp0, stream) && HeadLen(mp0, stream) <= HeadMp(mp0, stream)
  {
    var cp := HeadLen(mp0, stream);
    FrameOf(mp0, useCrc, stream, cp, Plan(cp, HeadMp(mp0, stream), len, Pad(len)))
  }

  /** Filling the vector, with the header's own part `cp` bytes long. */
  function FrameOf(mp0: nat, useCrc: bool, stream: Bytes, cp: nat, plan: seq<Piece>): Outcome
    requires HasHead(mp0, stream)
  {
    var end := cp + Sizes(plan);
    if |stream| < end + CrcLen(useCrc) then Closed
    else
      var parts := Scatter(plan, stream[cp..end]);
      var marks := HeadMarks(mp0, stream) + parts.marks;
      Frame(Ret(mp0, useCrc, marks), HeadBytes(mp0, stream), parts.payload, marks,
            stream[..end], stream[end..end + CrcLen(useCrc)])
  }

  /** mpa_rd_mrkr_fpdu on these bytes, for a marker position that is a multiple of four. */
  function Parse(mp0: nat, useCrc: bool, sink: Bytes -> Sink, stream: Bytes): Outcome
  {
    if !HasHead(mp0, stream) then Closed
    else
      HeadMpRoom(mp0, stream);
      match sink(HeadBytes(mp0, stream))
      case NoSink => Refused(HeadBytes(mp0, stream))
      case Buffer(len) =>
        if BlocksUsed(mp0, HeadHdr(mp0, stream), Wrap(len), useCrc) > MAX_BLKS then Overrun(HeadBytes(mp0, stream))
        else ParseBody(mp0, useCrc, Wrap(len), stream)
  }

  lemma HeadInside(mp0: nat, hdr: Bytes, mk: Bytes, rest: Bytes)
    requires Header(hdr) && mp0 < |hdr| && Aligned(mp0) && |mk| == MARKER_SZ
    ensures var head := hdr[..mp0] + mk + hdr[mp0..];
            && HasHead(mp0, head + rest) && HeadLen(mp0, head + rest) == |head|
            && (head + rest)[..|head|] == head && (head + rest)[|head|..] == rest
            && HeadBytes(mp0, head + rest) == hdr && HeadMarks(mp0, head + rest) == [MarkerPtr(mk)]
            && HeadMp(mp0, head + rest) == mp0 + MARKER_PERIOD
  {
    hide MarkerPtr;
    var head := hdr[..mp0] + mk + hdr[mp0..];
    var stream := head + rest;
    assert stream[StartAt(mp0)..StartAt(mp0) + 4] == hdr[..4];
    assert stream[..mp0] == hdr[..mp0] && stream[mp0..mp0 + MARKER_SZ] == mk;
    assert stream[mp0 + MARKER_SZ..|hdr| + MARKER_SZ] == hdr[mp0..];
    assert hdr[..mp0] + hdr[mp0..] == hdr;
  }

  lemma HeadOutside(mp0: nat, hdr: Bytes, rest: Bytes)
    requires Header(hdr) && mp0 >= |hdr|
    ensures HasHead(mp0, hdr + rest) && HeadLen(mp0, hdr + rest) == |hdr|
    ensures (hdr + rest)[..|hdr|] == hdr && (hdr + rest)[|hdr|..] == rest
    ensures HeadBytes(mp0, hdr + rest) == hdr && HeadMarks(mp0, hdr + rest) == []
    ensures HeadMp(mp0, hdr + rest) == mp0
  {
    assert (hdr + rest)[0..4] == hdr[..4];
  }

  lemma NoHead(mp0: nat, stream: Bytes, start: Bytes, rest: Bytes)
    requires Aligned(mp0) && stream == start + rest && |start| == StartAt(mp0) + 4
    requires var n := HdrSz(start[StartAt(mp0)..]);
             |rest| < n - 4 + (if mp0 != 0 && mp0 < n then MARKER_SZ else 0)
    ensures !HasHead(mp0, stream)
  {
    assert stream[StartAt(mp0)..StartAt(mp0) + 4] == start[StartAt(mp0)..];
  }

  /** From the lead marker, if there is one, to the end of the header. */
  method ReadHead(s: Socket, mp0: nat)
      returns (ok: bool, hdr: Bytes, marks: seq<nat>, cp: nat, mp: nat, head: Bytes)
    requires Aligned(mp0)
    modifies s`input
    ensures ok <==> HasHead(mp0, old(s.input))
    ensures ok ==> cp <= |old(s.input)|
    ensures ok ==>
              && hdr == HeadBytes(mp0, old(s.input)) && marks == HeadMarks(mp0, old(s.input))
              && cp == HeadLen(mp0, old(s.input)) && mp == HeadMp(mp0, old(s.input))
              && head == old(s.input)[..cp] && s.input == old(s.input)[cp..]
  {
    hide MarkerPtr, HeadBytes, HeadMarks, HeadMp, HeadLen;
    hdr, head, marks, cp, mp := [], [], [], 0, mp0;
    var mk, start, more: Bytes := [], [], [];
    ok := true;
    if mp == 0 {
      ok, mk := s.ReadFull(MARKER_SZ);
      if !ok { return; }
      marks := [MarkerPtr(mk)];
      cp := MARKER_SZ;
      mp := mp + MARKER_PERIOD;
    }
    ok, start := s.ReadFull(4);
    if !ok { return; }
    var hdrsz := HdrSz(start);
    assert old(s.input) == mk + start + s.input;
    ghost var rest := s.input;
    if mp >= hdrsz {
      ok, more := s.ReadFull(hdrsz - 4);
      if !ok {
        NoHead(mp0, old(s.input), mk + start, rest);
        return;
      }
      hdr := start + more;
      head := mk + hdr;
      cp := cp + hdrsz;
      assert mk + start + (more + s.input) == mk + hdr + s.input;
      if mp0 == 0 {
        assert hdr[..0] + mk + hdr[0..] == head;
        HeadInside(mp0, hdr, mk, s.input);
      } else {
        assert mk + hdr == hdr;
        HeadOutside(mp0, hdr, s.input);
      }
    } else {
      var last: Bytes;
      ok, more := s.ReadFull(mp - 4);
      if !ok { NoHead(mp0, old(s.input), mk + start, rest); return; }
      assert mk + start == start && old(s.input) == start + (more + s.input) == start + more + s.input;
      var inner;
      ok, inner := s.ReadFull(MARKER_SZ);
      if !ok { NoHead(mp0, old(s.input), mk + start, rest); return; }
      marks := [MarkerPtr(inner)];
      cp := mp + MARKER_SZ;
      mp := mp + MARKER_PERIOD;
      assert start + more + (inner + s.input) == start + more + inner + s.input;
      ok, last := s.ReadFull(hdrsz - (mp - MARKER_PERIOD));
      if !ok { NoHead(mp0, old(s.input), mk + start, rest); return; }
      hdr := start + more + last;
      cp := cp + |last|;
      head := start + more + inner + last;
      assert hdr[..mp0] == start + more && hdr[mp0..] == last;
      assert start + more + inner + (last + s.input) == head + s.input;
      HeadInside(mp0, hdr, inner, s.input);
    }
  }

  /** Buffers for a receive vector. */
  function Shape(plan: seq<Piece>): seq<Bytes> {
    if plan == [] then [] else [Zeros(plan[0].Size())] + Shape(plan[1..])
  }

  lemma {:induction false} ShapeSize(plan: seq<Piece>)
    ensures |Flat(Shape(plan))| == Sizes(plan)
  {
    hide Zeros;
    if plan != [] {
      ShapeSize(plan[1..]);
      assert Shape(plan)[1..] == Shape(plan[1..]);
    }
  }

  /** One block for every piece. */
  predicate Shaped(plan: seq<Piece>, blocks: seq<Bytes>) {
    |plan| == |blocks| && forall i :: 0 <= i < |plan| ==> |blocks[i]| == plan[i].Size()
  }

  lemma {:induction false} ShapeAt(plan: seq<Piece>, i: nat)
    requires i < |plan|
    ensures |Shape(plan)| == |plan| && |Shape(plan)[i]| == plan[i].Size()
  {
    hide Zeros;
    if i > 0 {
      ShapeAt(plan[1..], i - 1);
    } else if |plan| > 1 {
      ShapeAt(plan[1..], 0);
    }
  }

  lemma ShapedBlocks(plan: seq<Piece>, blocks: seq<Bytes>)
    requires SameSizes(blocks, Shape(plan))
    ensures Shaped(plan, blocks)
    ensures forall k :: 0 <= k <= |plan| ==> Shaped(plan[..k], blocks[..k])
  {
    hide Shape;
    if plan == [] {
      NoShape();
    } else {
      ShapeAt(plan, 0);
    }
    forall i | 0 <= i < |plan| ensures |blocks[i]| == plan[i].Size() {
      ShapeAt(plan, i);
    }
  }

  lemma NoShape()
    ensures Shape([]) == []
  {
  }

  lemma {:induction false} ShapedSize(plan: seq<Piece>, blocks: seq<Bytes>)
    requires Shaped(plan, blocks)
    ensures |Flat(blocks)| == Sizes(plan)
  {
    if plan != [] {
      ShapedSize(plan[1..], blocks[1..]);
    }
  }

  /** What the blocks hold once they are filled: payload blocks, markers, checksum. */
  function Collect(plan: seq<Piece>, blocks: seq<Bytes>): Parts
    requires Shaped(plan, blocks)
  {
    if plan == [] then Parts([], [], []) else Join2(One(plan[0], blocks[0]), Collect(plan[1..], blocks[1..]))
  }

  lemma {:induction false} CollectIsScatter(plan: seq<Piece>, blocks: seq<Bytes>)
    requires Shaped(plan, blocks)
    ensures |Flat(blocks)| == Sizes(plan) && Collect(plan, blocks) == Scatter(plan, Flat(blocks))
  {
    hide Scatter, Join2, One, Sizes;
    ShapedSize(plan, blocks);
    if plan == [] {
      ScatterNone();
    } else {
      CollectIsScatter(plan[1..], blocks[1..]);
      ScatterCons(plan[0], plan[1..], blocks[0], Flat(blocks[1..]));
      assert plan == [plan[0]] + plan[1..];
    }
  }

  /** The loop over the markers read. */
  method CheckPtrs(mk: nat, marks: seq<nat>) returns (ok: bool)
    ensures ok <==> PtrsOk(mk, marks)
  {
    var lp := 0;
    while lp < |marks|
      invariant 0 <= lp <= |marks| && PtrsOk(mk, marks[..lp])
    {
      if marks[lp] != Wrap(mk + lp * MARKER_PERIOD) {
        return false;
      }
      lp := lp + 1;
    }
    assert marks[..lp] == marks;
    return true;
  }

  /** The check of the new marker position against the expected one can never fail. */
  lemma NewMpAsExpected(recvSp: int, recvMp: int, midx: nat)
    ensures Wrap(Wrap(recvMp + midx * MARKER_PERIOD) - recvSp) == Wrap(Wrap(recvMp - recvSp) + midx * MARKER_PERIOD)
  {
    WrapCongruent(recvMp + midx * MARKER_PERIOD, -recvSp);
    WrapCongruent(recvMp - recvSp, midx * MARKER_PERIOD);
  }

  lemma WrapCongruent(x: int, y: int)
    ensures Wrap(Wrap(x) + y) == Wrap(x + y)
  {
    var q := x / TWO32;
    assert x == TWO32 * q + Wrap(x);
    WrapPeriod(Wrap(x) + y, q);
  }

  lemma WrapPeriod(x: int, q: int)
    ensures Wrap(x + TWO32 * q) == Wrap(x)
  {
  }

  lemma SplitInput(input: Bytes, cp: nat, data: Bytes, n: nat, rest: Bytes)
    requires cp <= |input| && input[cp..] == data + rest && n <= |data|
    ensures cp + |data| <= |input|
    ensures input[cp..cp + n] == data[..n] && input[..cp + n] == input[..cp] + data[..n]
    ensures input[cp + n..cp + |data|] == data[n..] && input[cp + |data|..] == rest
  {
    assert input == input[..cp] + data + rest;
  }

  lemma SizesAligned(cp: nat, mp: nat, pl: nat)
    requires cp <= mp && Aligned(cp) && Aligned(mp)
    ensures Aligned(cp + Sizes(Plan(cp, mp, pl, Pad(pl))))
  {
    PlanAligned(cp, mp, pl, Pad(pl));
  }

  lemma LastAligned(cp: nat, pl: nat, pad: nat)
    requires Aligned(cp) && Aligned(pl + pad)
    ensures Aligned(cp + pl + pad) && Aligned(cp + pl + pad + MARKER_SZ)
  {
  }

  lemma NextAligned(mp: nat, cp: nat, pl: nat, pad: nat)
    requires Aligned(mp) && Aligned(cp) && Aligned(pl + pad)
    ensures Aligned(mp + MARKER_SZ) && Aligned(mp + MARKER_PERIOD) && Aligned(pl - (mp - cp) + pad)
  {
  }

  lemma NoPlan(cp: nat, mp: nat, pad: nat)
    requires cp <= mp
    ensures Plan(cp, mp, 0, pad) == []
  {
  }

  lemma PartSizes(n: nat, tail: seq<Piece>)
    ensures Sizes([PayPiece(n), MarkPiece] + tail) == n + MARKER_SZ + Sizes(tail)
  {
    var two := [PayPiece(n)] + [MarkPiece];
    assert [PayPiece(n), MarkPiece] == two;
    SizesAppend(two, tail);
    SizesPush([PayPiece(n)], MarkPiece);
    assert [PayPiece(n)][1..] == [];
  }

  lemma LastSizes(n: nat, pad: nat, marked: bool)
    ensures Sizes(LastPieces(n, pad, marked)) == n + pad + if marked then MARKER_SZ else 0
  {
    hide Sizes;
    NoSizes();
    SizesPush([], PayPiece(n));
    assert [] + [PayPiece(n)] == [PayPiece(n)];
    var two := [PayPiece(n)] + if pad > 0 then [PadPiece(pad)] else [];
    SizesPush([PayPiece(n)], PadPiece(pad));
    assert pad == 0 ==> two == [PayPiece(n)];
    SizesPush(two, MarkPiece);
    assert two + [] == two;
  }

  /** The reader stays on word boundaries whatever length the DDP layer gives. */
  lemma {:induction false} PlanAligned(cp: nat, mp: nat, pl: nat, pad: nat)
    requires cp <= mp && Aligned(cp) && Aligned(mp) && Aligned(pl + pad) && pad < WORD_SZ
    ensures Aligned(cp + Sizes(Plan(cp, mp, pl, pad)))
    decreases pl, if cp == mp then 1 else 0
  {
    hide Aligned, Plan, Sizes;
    if pl == 0 {
      NoPlan(cp, mp, pad);
      NoSizes();
    } else if mp - cp < pl {
      NextAligned(mp, cp, pl, pad);
      PlanAligned(mp + MARKER_SZ, mp + MARKER_PERIOD, pl - (mp - cp), pad);
      PlanPart(cp, mp, pl, pad);
      PartSizes(mp - cp, Plan(mp + MARKER_SZ, mp + MARKER_PERIOD, pl - (mp - cp), pad));
    } else {
      LastAligned(cp, pl, pad);
      PlanLast(cp, mp, pl, pad);
      LastSizes(pl, pad, cp + pl + pad == mp);
    }
  }

  /** Entries of the static block vector that the reader fills for an FPDU: header, lead or
      inner marker, what PlanReads adds, checksum. */
  function BlocksUsed(mp0: nat, hdrsz: nat, pl: nat, useCrc: bool): nat
    requires hdrsz == 16 || hdrsz == 20
  {
    (if mp0 == 0 then 2 else if mp0 < hdrsz then 3 else 1)
    + (if mp0 < hdrsz then |Plan(hdrsz + MARKER_SZ, mp0 + MARKER_PERIOD, pl, Pad(pl))|
       else |Plan(hdrsz, mp0, pl, Pad(pl))|)
    + (if useCrc then 1 else 0)
  }

  lemma CountBlocks(mp0: nat, stream: Bytes, pl: nat, useCrc: bool)
    requires HasHead(mp0, stream) && HeadLen(mp0, stream) <= HeadMp(mp0, stream)
    ensures var n := |HeadBytes(mp0, stream)|;
            && (n == 16 || n == 20)
            && BlocksUsed(mp0, n, pl, useCrc)
            == (if mp0 == 0 then 2 else if mp0 < n then 3 else 1)
               + |Plan(HeadLen(mp0, stream), HeadMp(mp0, stream), pl, Pad(pl))| + if useCrc then 1 else 0
  {
    hide Plan, Pad;
  }

  /** The vector with the block for the checksum field. */
  function WithCrc(plan: seq<Piece>, crcLen: nat): seq<Piece> {
    if crcLen > 0 then plan + [CrcPiece] else plan
  }

  /** The readv_full that takes in payload, pad, markers and the checksum field. */
  method ReadRest(s: Socket, plan: seq<Piece>, crcLen: nat, n: nat, hp: nat, ghost input: Bytes)
      returns (ok: bool, blocks: seq<Bytes>)
    requires crcLen == 0 || crcLen == CRC_SZ
    requires n == Sizes(plan) + crcLen && hp <= |input| && s.input == input[hp..]
    modifies s`input
    ensures ok <==> hp + n <= |input|
    ensures ok ==>
              && |plan| <= |blocks| && Shaped(plan, blocks[..|plan|])
              && var body, crc := Flat(blocks[..|plan|]), Flat(blocks[|plan|..]);
              && body == input[hp..hp + Sizes(plan)] && crc == input[hp + Sizes(plan)..hp + n]
              && input[..hp + Sizes(plan)] == input[..hp] + body
              && input == (input[..hp] + body) + crc + s.input
  {
    hide Sizes, Shape, Flat;
    var all := WithCrc(plan, crcLen);
    SizesPush(plan, CrcPiece);
    ShapeSize(all);
    ok, blocks := s.ReadvFull(Shape(all), n);
    if ok {
      ShapedBlocks(all, blocks);
      ShapedSize(all, blocks);
      Socket.Divide(blocks, |plan|);
      ShapedSize(plan, blocks[..|plan|]);
      ghost var data := Flat(blocks);
      SplitInput(input, hp, data, Sizes(plan), s.input);
      assert data[..Sizes(plan)] == Flat(blocks[..|plan|]) && data[Sizes(plan)..] == Flat(blocks[|plan|..]);
    }
  }

  /** From the buffer that the DDP layer gave to the checksum field: the vector is filled. */
  method ReadPayload(s: Socket, plan: seq<Piece>, cp0: nat, cp: nat, useCrc: bool, ghost input: Bytes)
      returns (ok: bool, parts: Parts, body: seq<Bytes>, crc: Bytes)
    requires cp == cp0 + Sizes(plan) && cp0 <= |input| && s.input == input[cp0..]
    modifies s`input
    ensures ok <==> cp + CrcLen(useCrc) <= |input|
    ensures ok ==>
              && input[cp0..cp] == Flat(body) && parts == Scatter(plan, input[cp0..cp])
              && crc == input[cp..cp + CrcLen(useCrc)]
              && input[..cp] == input[..cp0] + Flat(body)
              && input == input[..cp] + crc + s.input
  {
    hide Scatter, Collect, Shaped, Sizes, Shape, Flat;
    var blocks;
    ok, blocks := ReadRest(s, plan, CrcLen(useCrc), cp - cp0 + CrcLen(useCrc), cp0, input);
    if ok {
      body, crc := blocks[..|plan|], Flat(blocks[|plan|..]);
      CollectIsScatter(plan, body);
      parts := Collect(plan, body);
    } else {
      parts, body, crc := Parts([], [], []), [], [];
    }
  }

  /** The reader's counters after an FPDU of `cp` bytes with `midx` markers. */
  method Advance(e: Endpoint, cp: nat, midx: nat)
    requires e.Valid() && Aligned(cp)
    modifies e`recvSp, e`recvMp
    ensures e.Valid() && e.recvSp == Wrap(old(e.recvSp) + cp) && e.recvMp == Wrap(old(e.recvMp) + midx * MARKER_PERIOD)
  {
    hide Aligned, Wrap;
    SumAligned(e.recvSp, cp);
    MidxAligned(e.recvMp, midx);
    e.recvSp := Wrap(e.recvSp + cp);
    e.recvMp := Wrap(e.recvMp + midx * MARKER_PERIOD);
  }

  /** The checks once all bytes are in; the return behind the checksum is unbraced. */
  method Check(mk: nat, useCrc: bool, marks: seq<nat>, head: Bytes, body: seq<Bytes>, crc: Bytes)
      returns (ret: int, complained: bool)
    ensures ret == Ret(mk, useCrc, marks)
    ensures complained <==> useCrc && PtrsOk(mk, marks) && crc != CrcField(head + Flat(body))
  {
    hide Flat, PtrsOk, CrcField;
    complained := false;
    var ok := CheckPtrs(mk, marks);
    ret := if !ok || useCrc then -EBADMSG else 0;
    if ok && useCrc {
      var want := CrcBlk([head] + body);
      FlatAppend([head], body);
      FlatOne(head);
      complained := want != crc;
    }
  }

  /** The vector filled, the counters advanced, the checks made. */
  method ReadFrame(e: Endpoint, s: Socket, mk: nat, hp: nat, plan: seq<Piece>, cp: nat,
                   hdr: Bytes, head: Bytes, marks0: seq<nat>, ghost input: Bytes)
      returns (r: Outcome, complained: bool)
    requires e.Valid() && mk == Wrap(e.recvMp - e.recvSp) && HasHead(mk, input) && Aligned(cp)
    requires hdr == HeadBytes(mk, input) && marks0 == HeadMarks(mk, input) && hp <= |input| && head == input[..hp]
    requires cp == hp + Sizes(plan) && s.input == input[hp..]
    modifies e`recvSp, e`recvMp, s`input
    ensures e.Valid() && r == FrameOf(mk, e.useCrc, input, hp, plan) && (r.Closed? || r.Frame?)
    ensures r.Frame? ==>
              && r.hdr == hdr && e.recvSp == Wrap(old(e.recvSp) + |r.wire|)
              && e.recvMp == Wrap(old(e.recvMp) + MARKER_PERIOD * |r.marks|)
              && input == r.wire + r.crc + s.input
    ensures complained <==> r.Frame? && e.useCrc && PtrsOk(mk, r.marks) && r.crc != CrcField(r.wire)
  {
    hide Scatter, Sizes, Flat, Aligned, Wrap, PtrsOk, CrcField, Ret, HasHead, HeadBytes, HeadMarks;
    var ok, parts, body, crc := ReadPayload(s, plan, hp, cp, e.useCrc, input);
    if !ok {
      return Closed, false;
    }
    var marks := marks0 + parts.marks;
    Advance(e, cp, |marks|);
    NewMpAsExpected(old(e.recvSp), old(e.recvMp), |marks|);
    assert Wrap(e.recvMp - old(e.recvSp)) == Wrap(mk + |marks| * MARKER_PERIOD);
    var ret;
    ret, complained := Check(mk, e.useCrc, marks, head, body, crc);
    r := Frame(ret, hdr, parts.payload, marks, head + Flat(body), crc);
  }

  /** mpa_rd_mrkr_fpdu. `complained` says whether the "crc check failed" line is printed,
      `bidx` is where the index into the block vector ends up. */
  method ReadMarked(e: Endpoint, s: Socket, sink: Bytes -> Sink) returns (r: Outcome, complained: bool, bidx: nat)
    requires e.Valid()
    modifies e`recvSp, e`recvMp, s`input
    ensures e.Valid() && Aligned(Wrap(old(e.recvMp - e.recvSp)))
    ensures r == Parse(Wrap(old(e.recvMp - e.recvSp)), e.useCrc, sink, old(s.input))
    ensures r.Frame? ==>
              && e.recvSp == Wrap(old(e.recvSp) + |r.wire|)
              && e.recvMp == Wrap(old(e.recvMp) + MARKER_PERIOD * |r.marks|)
              && old(s.input) == r.wire + r.crc + s.input
    ensures complained <==> r.Frame? && e.useCrc && PtrsOk(Wrap(old(e.recvMp - e.recvSp)), r.marks)
                            && r.crc != CrcField(r.wire)
    ensures r.Frame? ==>
              && (|r.hdr| == 16 || |r.hdr| == 20) && sink(r.hdr).Buffer?
              && bidx == BlocksUsed(Wrap(old(e.recvMp - e.recvSp)), |r.hdr|, Wrap(sink(r.hdr).len), e.useCrc) <= MAX_BLKS
    ensures r.Overrun? ==>
              && (|r.header| == 16 || |r.header| == 20) && sink(r.header).Buffer?
              && bidx == BlocksUsed(Wrap(old(e.recvMp - e.recvSp)), |r.header|, Wrap(sink(r.header).len), e.useCrc) > MAX_BLKS
  {
    hide Plan, Sizes, Aligned, Wrap, PtrsOk, CrcField, Pad, BlocksUsed, HasHead, HeadBytes, HeadMarks, HeadLen, HeadMp,
         HeadHdr, FrameOf;
    complained, bidx := false, 0;
    var sp := e.recvSp;
    var mk := Wrap(e.recvMp - sp);
    DiffAligned(e.recvMp, sp);
    var ok, hdr, marks, cp, mp, head := ReadHead(s, mk);
    if !ok {
      return Closed, false, 0;
    }
    bidx := if mk == 0 then 2 else if mk < |hdr| then 3 else 1;
    HeadMpRoom(mk, old(s.input));
    var pl;
    match sink(hdr) {
      case NoSink => return Refused(hdr), false, bidx;
      case Buffer(len) => pl := Wrap(len);
    }
    CountBlocks(mk, old(s.input), pl, e.useCrc);
    EndAligned(mk, old(s.input), pl);
    PadAligned(pl);
    var hp, plan := cp, [];
    plan, cp := PlanReads(cp, mp, pl, Pad(pl));
    bidx := bidx + |plan| + if e.useCrc then 1 else 0;
    if bidx > MAX_BLKS {
      return Overrun(hdr), false, bidx;
    }
    r, complained := ReadFrame(e, s, mk, hp, plan, cp, hdr, head, marks, old(s.input));
  }

  lemma FlatTwo(a: Bytes, b: Bytes)
    ensures Flat([a, b]) == a + b
  {
    FlatOne(a);
    FlatPush([a], b);
    assert [a] + [b] == [a, b];
  }

  lemma PadAligned(pl: nat)
    ensures Aligned(pl + Pad(pl))
  {
  }

  lemma MidxAligned(recvMp: nat, midx: nat)
    requires recvMp < TWO32 && Aligned(recvMp)
    ensures Aligned(Wrap(recvMp + midx * MARKER_PERIOD))
  {
    Multiple(midx);
    SumAligned(recvMp, midx * MARKER_PERIOD);
  }

  lemma Multiple(midx: nat)
    ensures Aligned(midx * MARKER_PERIOD)
  {
    assert midx * MARKER_PERIOD == WORD_SZ * (128 * midx);
  }

  lemma EndAligned(mp0: nat, stream: Bytes, pl: nat)
    requires Aligned(mp0) && HasHead(mp0, stream)
    ensures HeadLen(mp0, stream) <= HeadMp(mp0, stream)
    ensures Aligned(HeadLen(mp0, stream) + Sizes(Plan(HeadLen(mp0, stream), HeadMp(mp0, stream), pl, Pad(pl))))
  {
    hide HeadLen, HeadMp, Sizes, Plan, Aligned, Pad;
    HeadMpRoom(mp0, stream);
    HeadMpAligned(mp0, stream);
    SizesAligned(HeadLen(mp0, stream), HeadMp(mp0, stream), pl);
  }

  lemma HeadMpAligned(mp0: nat, stream: Bytes)
    requires Aligned(mp0) && HasHead(mp0, stream)
    ensures Aligned(HeadMp(mp0, stream))
  {
  }
}
