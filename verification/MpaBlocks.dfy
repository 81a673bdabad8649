/** How much of the static arrays the reader of marked FPDUs uses: nothing in its loop
    compares the block index with MAX_BLKS. */
module MpaBlocks {
  import opened MpaLayout
  import opened VectorIo
  import opened MpaWriter
  import opened MpaReader

  /** One block for each stretch of payload and each marker, one for the pad. */
  lemma {:induction false} PlanCount(cp: nat, mp: nat, pl: nat, pad: nat)
    requires cp <= mp && pl > 0 && Aligned(mp - cp) && Aligned(pl + pad) && pad < WORD_SZ
    ensures |Plan(cp, mp, pl, pad)|
         == 1 + Marks(cp, mp, pl - 1) + Marks(cp, mp, pl + pad) + if pad > 0 then 1 else 0
    decreases pl, if cp == mp then 1 else 0
  {
    hide Plan, Marks, Aligned;
    if mp - cp < pl {
      PlanPart(cp, mp, pl, pad);
      ChunkAligned(pl, pad, mp - cp);
      ChunkAlignedFull();
      PlanCount(mp + MARKER_SZ, mp + MARKER_PERIOD, pl - (mp - cp), pad);
      MarksStep(cp, mp, pl - 1);
      MarksStep(cp, mp, pl + pad);
    } else {
      PlanLast(cp, mp, pl, pad);
      RoundUp(pl, pad, mp - cp);
      PointersLast(cp, mp, pl + pad);
      MarksStep(cp, mp, pl - 1);
    }
  }

  /** Where the header and its marker end, and where the next marker is due. */
  function BehindHead(mp0: nat, hdrsz: nat): (nat, nat) {
    if mp0 < hdrsz then (hdrsz + MARKER_SZ, mp0 + MARKER_PERIOD) else (hdrsz, mp0)
  }

  function HeadUsed(mp0: nat, hdrsz: nat): nat { if mp0 == 0 then 2 else if mp0 < hdrsz then 3 else 1 }

  function BodyUsed(mp0: nat, hdrsz: nat, pl: nat): nat {
    var (cp, mp) := BehindHead(mp0, hdrsz);
    if pl == 0 then 0
    else 1 + Marks(cp, mp, pl - 1) + Marks(cp, mp, pl + Pad(pl)) + if Pad(pl) > 0 then 1 else 0
  }

  function HeadMarkers(mp0: nat, hdrsz: nat): nat { if mp0 < hdrsz then 1 else 0 }

  lemma UsedIs(mp0: nat, hdrsz: nat, pl: nat, useCrc: bool)
    requires (hdrsz == 16 || hdrsz == 20) && Aligned(mp0)
    ensures BlocksUsed(mp0, hdrsz, pl, useCrc)
         == HeadUsed(mp0, hdrsz) + BodyUsed(mp0, hdrsz, pl) + if useCrc then 1 else 0
  {
    hide Plan, Marks, Aligned, Pad;
    var (cp, mp) := BehindHead(mp0, hdrsz);
    HeaderAligned(mp0, hdrsz);
    PadAligned(pl);
    if pl == 0 {
      NoPlan(cp, mp, Pad(pl));
    } else {
      PlanCount(cp, mp, pl, Pad(pl));
    }
  }

  /** A header with a sixteen-bit length field. */
  predicate LengthField(hdrsz: nat, field: nat) { (hdrsz == 16 || hdrsz == 20) && field <= 0xFFFF }

  /** The length the reader goes by: a uint32_t. */
  function Asked(hdrsz: nat, field: nat): nat { Wrap(SinkLen(hdrsz, field)) }

  lemma AskedIs(hdrsz: nat, field: nat)
    requires LengthField(hdrsz, field)
    ensures hdrsz <= field + 2 ==> SinkLen(hdrsz, field) == Asked(hdrsz, field) == field + 2 - hdrsz
    ensures hdrsz > field + 2 ==>
              && SinkLen(hdrsz, field) == TWO64 - (hdrsz - 2 - field)
              && Asked(hdrsz, field) == TWO32 - (hdrsz - 2 - field)
              && Pad(Asked(hdrsz, field)) == (hdrsz - 2 - field) % WORD_SZ
  {
    hide Pad;
    if hdrsz > field + 2 {
      var k := hdrsz - 2 - field;
      Below(k);
      PadBelow(k);
    } else {
      Small(field + 2 - hdrsz);
    }
  }

  lemma Below(k: nat)
    requires 0 < k <= 20
    ensures SizeT(0 - k) == TWO64 - k && Wrap(TWO64 - k) == TWO32 - k
  {
  }

  lemma PadBelow(k: nat)
    requires 0 < k <= 20
    ensures Pad(TWO32 - k) == k % WORD_SZ
  {
  }

  lemma Small(n: nat)
    requires n < TWO32
    ensures SizeT(n) == n == Wrap(n)
  {
  }

  /** Header and payload together make up what the field says. */
  predicate Said(hdrsz: nat, pl: nat) { (hdrsz == 16 || hdrsz == 20) && hdrsz + pl <= 0xFFFF + 2 }

  /** The lengths whose FPDU overruns the block vector: padded ones at the very top of the
      range, with a marker at the start of the header or just behind it. */
  predicate TooLong(mp0: nat, n: nat, useCrc: bool) {
    && n % WORD_SZ != 0
    && if mp0 == 0 then useCrc && n > 0xFFFC
       else if mp0 == 4 then n > if useCrc then 0xFFFC else 0x1_0000
       else mp0 == 8 && useCrc && n > 0x1_0000
  }

  /** Behind a header without a marker in it there is room for any length. */
  lemma OutsideFits(mp0: nat, hdrsz: nat, pl: nat)
    requires Said(hdrsz, pl) && mp0 >= hdrsz
    ensures HeadUsed(mp0, hdrsz) + BodyUsed(mp0, hdrsz, pl) + 1 <= MAX_BLKS
  {
  }

  /** Behind one with a marker it depends on where that is. */
  lemma InsideFits(mp0: nat, hdrsz: nat, pl: nat)
    requires Said(hdrsz, pl) && Aligned(mp0) && mp0 < hdrsz
    ensures var used, n := HeadUsed(mp0, hdrsz) + BodyUsed(mp0, hdrsz, pl), hdrsz + pl;
            && (used <= MAX_BLKS - 1 <==> !TooLong(mp0, n, true))
            && (used <= MAX_BLKS <==> !TooLong(mp0, n, false))
  {
    hide BodyUsed, Aligned, Pad;
    var n, pad := hdrsz + pl, Pad(pl);
    HeadMarkedAt(mp0, hdrsz);
    PadOf(hdrsz, pl);
    InsideUsed(mp0, hdrsz, pl);
    if pl > 0 {
      Chunks(n - 1 - mp0);
      Chunks(n + pad - mp0);
    }
  }

  lemma InsideUsed(mp0: nat, hdrsz: nat, pl: nat)
    requires mp0 < hdrsz <= 20
    ensures BodyUsed(mp0, hdrsz, pl)
         == if pl == 0 then 0
            else 1 + (hdrsz + pl - 1 - mp0) / PAYLD_CHNK + (hdrsz + pl + Pad(pl) - mp0) / PAYLD_CHNK
                 + if Pad(pl) > 0 then 1 else 0
  {
    hide Marks, Pad;
    if pl > 0 {
      MarksBehind(mp0, hdrsz, pl - 1);
      MarksBehind(mp0, hdrsz, pl + Pad(pl));
    }
  }

  lemma HeadMarkedAt(mp0: nat, hdrsz: nat)
    requires (hdrsz == 16 || hdrsz == 20) && Aligned(mp0) && mp0 < hdrsz
    ensures mp0 == 0 || mp0 == 4 || mp0 == 8 || mp0 >= 12
  {
  }

  lemma PadOf(hdrsz: nat, pl: nat)
    requires hdrsz == 16 || hdrsz == 20
    ensures Pad(pl) == 0 <==> (hdrsz + pl) % WORD_SZ == 0
    ensures (hdrsz + pl + Pad(pl)) % WORD_SZ == 0 && Pad(pl) < WORD_SZ
  {
  }

  lemma MarksBehind(mp0: nat, hdrsz: nat, len: nat)
    requires mp0 < hdrsz <= 20
    ensures Marks(hdrsz + MARKER_SZ, mp0 + MARKER_PERIOD, len) == (hdrsz + len - mp0) / PAYLD_CHNK
  {
  }

  lemma Chunks(x: nat)
    requires x < 130 * PAYLD_CHNK
    ensures x / PAYLD_CHNK <= 129 && (x / PAYLD_CHNK == 129 <==> x >= 0xFFFC)
  {
  }

  /** A field too small for its header makes the length nearly 2^32. */
  lemma ShortField(mp0: nat, hdrsz: nat, pl: nat)
    requires (hdrsz == 16 || hdrsz == 20) && mp0 < MARKER_PERIOD && pl >= TWO32 - 20
    ensures BodyUsed(mp0, hdrsz, pl) > MAX_BLKS
    ensures var (cp, mp) := BehindHead(mp0, hdrsz); Marks(cp, mp, pl + Pad(pl)) > MAX_MRKRS
  {
  }

  lemma SaidFits(mp0: nat, hdrsz: nat, pl: nat, useCrc: bool)
    requires Said(hdrsz, pl) && Aligned(mp0)
    ensures BlocksUsed(mp0, hdrsz, pl, useCrc) <= MAX_BLKS <==> !TooLong(mp0, hdrsz + pl, useCrc)
  {
    hide BlocksUsed, BodyUsed;
    UsedIs(mp0, hdrsz, pl, useCrc);
    if mp0 < hdrsz {
      InsideFits(mp0, hdrsz, pl);
    } else {
      OutsideFits(mp0, hdrsz, pl);
    }
  }

  /** For every length field, and every marker position a reader can be at, the reader stays
      inside its block vector exactly when the field covers its header and is not one of
      those. */
  lemma BlocksFit(mp0: nat, hdrsz: nat, field: nat, useCrc: bool)
    requires LengthField(hdrsz, field) && Aligned(mp0) && mp0 < MARKER_PERIOD
    ensures BlocksUsed(mp0, hdrsz, Asked(hdrsz, field), useCrc) <= MAX_BLKS
            <==> hdrsz <= field + 2 && !TooLong(mp0, field + 2, useCrc)
  {
    hide BlocksUsed, BodyUsed, Asked, Pad, SinkLen;
    AskedIs(hdrsz, field);
    var pl := Asked(hdrsz, field);
    if hdrsz <= field + 2 {
      SaidFits(mp0, hdrsz, pl, useCrc);
    } else {
      ShortField(mp0, hdrsz, pl);
      UsedIs(mp0, hdrsz, pl, useCrc);
    }
  }

  /** The marker array suffices for every field that covers its header. */
  lemma MarkersFit(mp0: nat, hdrsz: nat, field: nat)
    requires LengthField(hdrsz, field) && Aligned(mp0) && mp0 < MARKER_PERIOD
    ensures var (cp, mp) := BehindHead(mp0, hdrsz);
            var pl := Asked(hdrsz, field);
            HeadMarkers(mp0, hdrsz) + Marks(cp, mp, pl + Pad(pl)) <= MAX_MRKRS <==> hdrsz <= field + 2
  {
    hide Asked, SinkLen;
    AskedIs(hdrsz, field);
    if hdrsz > field + 2 {
      ShortField(mp0, hdrsz, Asked(hdrsz, field));
    }
  }

  /** An FPDU that fits the writer's arrays fits the reader's. */
  lemma WrittenFits(mp0: nat, hdr: Bytes, payload: Bytes, useCrc: bool)
    requires Header(hdr) && Aligned(mp0)
    requires var l := |Body(hdr, payload)|; l + MARKER_SZ * Marks(0, mp0, l) + CRC_SZ <= FPDU_LEN
    ensures BlocksUsed(mp0, |hdr|, |payload|, useCrc) <= MAX_BLKS && !TooLong(mp0, |hdr| + |payload|, useCrc)
  {
    hide BlocksUsed, Marks;
    SaidFits(mp0, |hdr|, |payload|, useCrc);
  }

  /** Two that do not: a length field of 65535 with the marker behind the first word, and
      one of 10, smaller than the header it is in. */
  lemma OneTooMany()
    ensures BlocksUsed(4, 16, Asked(16, 0xFFFF), false) == MAX_BLKS + 1
    ensures BlocksUsed(4, 16, Asked(16, 10), false) > MAX_BLKS
  {
    hide BlocksUsed, Asked, SinkLen;
    AskedIs(16, 0xFFFF);
    UsedIs(4, 16, 0xFFFF + 2 - 16, false);
    BlocksFit(4, 16, 10, false);
  }

  // ----- the marker position behind a frame -----

  function MarkPieces(plan: seq<Piece>): nat {
    if plan == [] then 0 else (if plan[0].MarkPiece? then 1 else 0) + MarkPieces(plan[1..])
  }

  lemma {:induction false} ScatterMarks(plan: seq<Piece>, data: Bytes)
    requires |data| == Sizes(plan)
    ensures |Scatter(plan, data).marks| == MarkPieces(plan)
  {
    if plan != [] {
      ScatterMarks(plan[1..], data[plan[0].Size()..]);
    }
  }

  lemma MarkPiecesPart(n: nat, tail: seq<Piece>)
    ensures MarkPieces([PayPiece(n), MarkPiece] + tail) == 1 + MarkPieces(tail)
  {
    var all := [PayPiece(n), MarkPiece] + tail;
    assert all[1..] == [MarkPiece] + tail && all[1..][1..] == tail;
  }

  lemma MarkPiecesLast(n: nat, pad: nat, marked: bool)
    ensures MarkPieces(LastPieces(n, pad, marked)) == if marked then 1 else 0
  {
    var last := if marked then [MarkPiece] else [];
    var rest := (if pad > 0 then [PadPiece(pad)] else []) + last;
    assert MarkPieces(last) == if marked then 1 else 0;
    if pad > 0 {
      assert rest[1..] == last;
    } else {
      assert rest == last;
    }
    var p := [PayPiece(n)] + rest;
    assert p[1..] == rest;
    assert LastPieces(n, pad, marked) == p;
  }

  /** The vector holds payload, pad and one marker each time the position comes due. */
  lemma {:induction false} PlanHolds(cp: nat, mp: nat, pl: nat, pad: nat)
    requires cp <= mp && pl > 0 && Aligned(mp - cp) && Aligned(pl + pad) && pad < WORD_SZ
    ensures var plan := Plan(cp, mp, pl, pad);
            && MarkPieces(plan) == Marks(cp, mp, pl + pad)
            && Sizes(plan) == pl + pad + MARKER_SZ * Marks(cp, mp, pl + pad)
    decreases pl, if cp == mp then 1 else 0
  {
    hide Plan, Marks, Aligned, MarkPieces, Sizes;
    MarksStep(cp, mp, pl + pad);
    if mp - cp < pl {
      PlanPart(cp, mp, pl, pad);
      ChunkAligned(pl, pad, mp - cp);
      ChunkAlignedFull();
      PlanHolds(mp + MARKER_SZ, mp + MARKER_PERIOD, pl - (mp - cp), pad);
      var tail := Plan(mp + MARKER_SZ, mp + MARKER_PERIOD, pl - (mp - cp), pad);
      MarkPiecesPart(mp - cp, tail);
      PartSizes(mp - cp, tail);
    } else {
      PlanLast(cp, mp, pl, pad);
      RoundUp(pl, pad, mp - cp);
      PointersLast(cp, mp, pl + pad);
      MarkPiecesLast(pl, pad, cp + pl + pad == mp);
      LastSizes(pl, pad, cp + pl + pad == mp);
    }
  }

  lemma RoomBehind(cp: nat, mp: nat, len: nat)
    requires cp <= mp <= cp + 508 && Aligned(mp - cp) && Aligned(len)
    ensures var n := Marks(cp, mp, len);
            && cp + len + MARKER_SZ * n <= mp + MARKER_PERIOD * n <= cp + len + MARKER_SZ * n + 508
            && Aligned(mp + MARKER_PERIOD * n - (cp + len + MARKER_SZ * n))
  {
    var n := Marks(cp, mp, len);
    var gap := mp + MARKER_PERIOD * n - (cp + len + MARKER_SZ * n);
    assert gap == mp - cp - len + 508 * n;
    assert gap == WORD_SZ * ((mp - cp) / WORD_SZ - len / WORD_SZ + 127 * n);
  }

  lemma FrameParts(mp0: nat, useCrc: bool, sink: Bytes -> Sink, stream: Bytes)
    requires Parse(mp0, useCrc, sink, stream).Frame?
    ensures HasHead(mp0, stream) && HasStart(mp0, stream)
    ensures sink(HeadBytes(mp0, stream)).Buffer? && HeadLen(mp0, stream) <= HeadMp(mp0, stream)
    ensures var r := Parse(mp0, useCrc, sink, stream);
            var cp, pl := HeadLen(mp0, stream), Wrap(sink(HeadBytes(mp0, stream)).len);
            var plan := Plan(cp, HeadMp(mp0, stream), pl, Pad(pl));
            var end := cp + Sizes(plan);
            && end <= |stream| && r.wire == stream[..end]
            && r.marks == HeadMarks(mp0, stream) + Scatter(plan, stream[cp..end]).marks
  {
    hide Scatter, Sizes, Plan, PtrsOk, Pad, HeadBytes, Ret, BlocksUsed, Wrap, HeadHdr, HeadMarks, HeadLen, HeadMp;
    if HasHead(mp0, stream) {
      HeadMpRoom(mp0, stream);
    }
  }

  /** Whatever it is sent, after a frame the reader's marker position lies 0 to 508 ahead. */
  lemma FrameRoom(mp0: nat, useCrc: bool, sink: Bytes -> Sink, stream: Bytes)
    requires mp0 < MARKER_PERIOD && Aligned(mp0) && Parse(mp0, useCrc, sink, stream).Frame?
    ensures var r := Parse(mp0, useCrc, sink, stream);
            var gap := mp0 + MARKER_PERIOD * |r.marks| - |r.wire|;
            0 <= gap < MARKER_PERIOD && Aligned(gap)
  {
    hide Scatter, Sizes, Plan, PtrsOk, Pad, HeadBytes, Ret, BlocksUsed, MarkPieces, Marks, Aligned, Wrap, HasHead,
         HeadHdr, HeadMarks, HeadLen, HeadMp;
    FrameParts(mp0, useCrc, sink, stream);
    HeadRoom(mp0, stream);
    HeadMpRoom(mp0, stream);
    var cp, mp := HeadLen(mp0, stream), HeadMp(mp0, stream);
    var pl := Wrap(sink(HeadBytes(mp0, stream)).len);
    var plan := Plan(cp, mp, pl, Pad(pl));
    PadAligned(pl);
    ScatterMarks(plan, stream[cp..cp + Sizes(plan)]);
    if pl > 0 {
      PlanHolds(cp, mp, pl, Pad(pl));
      RoomBehind(cp, mp, pl + Pad(pl));
    } else {
      NoPlan(cp, mp, Pad(pl));
      NothingIn();
    }
  }

  lemma NothingIn()
    ensures Sizes([]) == 0 && MarkPieces([]) == 0
  {
  }

  lemma HeadRoom(mp0: nat, stream: Bytes)
    requires mp0 < MARKER_PERIOD && Aligned(mp0) && HasHead(mp0, stream)
    ensures var cp, mp := HeadLen(mp0, stream), HeadMp(mp0, stream);
            && cp <= mp <= cp + 508 && mp == mp0 + MARKER_PERIOD * |HeadMarks(mp0, stream)|
  {
    hide MarkerPtr;
  }
}
