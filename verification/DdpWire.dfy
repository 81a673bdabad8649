/** DDP segments as the FPDUs that carry them: the header fields in network order, and the
    byte stream between two ends, so that the FIFO of segments used for the protocol is
    what the stream delivers. */
module DdpWire {
  import opened MpaLayout
  import opened MpaWriter
  import opened MpaReader
  import opened MpaRoundTrip
  import opened MpaPlain
  import MpaRun
  import MpaCorners
  import opened DdpSegments

  // ----- big-endian fields -----

  function Be(v: nat, width: nat): (b: Bytes)
    ensures |b| == width
    decreases width
  {
    if width == 0 then [] else Be(v / 256, width - 1) + [v % 256]
  }

  function FromBe(b: Bytes): nat {
    if b == [] then 0 else 256 * FromBe(b[..|b| - 1]) + b[|b| - 1]
  }

  lemma {:induction false} BeRoundTrip(v: nat, width: nat)
    requires v < Pow256(width)
    ensures FromBe(Be(v, width)) == v
    decreases width
  {
    if width > 0 {
      BeRoundTrip(v / 256, width - 1);
      assert Be(v, width)[..width - 1] == Be(v / 256, width - 1);
    }
  }

  // ----- headers -----

  function Code(op: Opcode): nat {
    match op
    case RdmaWrite => 0
    case RdmaReadReq => 1
    case RdmaReadResp => 2
    case Send => 3
  }

  /** The RDMAP control byte: version 1 and the opcode. */
  function OpByte(op: Opcode): byte { 0x40 + Code(op) }

  function OpOf(b: byte): Opcode {
    var c := b % 16;
    if c == 0 then RdmaWrite else if c == 1 then RdmaReadReq else if c == 2 then RdmaReadResp else Send
  }

  /** The DDP control byte: TAGGED, LAST and version 1. */
  function Control(tagged: bool, last: bool): byte {
    1 + (if tagged then 0x80 else 0) + (if last then 0x40 else 0)
  }

  function LastOf(cf: byte): bool { cf / 0x40 % 2 == 1 }

  /** ddp_tagged_hdr_t and ddp_untagged_hdr_t as sent, before the length is filled in. */
  function HdrOf(g: Segment): (h: Bytes)
    ensures Header(h)
  {
    match g
    case Tagged(stag, to, op, last, data) =>
      [0, 0, Control(true, last), OpByte(op)] + Be(stag, 4) + Be(to, 8)
    case Untagged(qn, msn, mo, op, last, data) =>
      [0, 0, Control(false, last), OpByte(op)] + Be(0, 4) + Be(qn, 4) + Be(msn, 4) + Be(mo, 4)
  }

  function SegOf(h: Bytes, data: Bytes): Segment
    requires Header(h)
  {
    if |h| == 16 then Tagged(FromBe(h[4..8]), FromBe(h[8..]), OpOf(h[3]), LastOf(h[2]), data)
    else Untagged(FromBe(h[8..12]), FromBe(h[12..16]), FromBe(h[16..]), OpOf(h[3]), LastOf(h[2]), data)
  }

  predicate Fits(g: Segment) {
    && |HdrOf(g)| + |g.data| < 0x1_0000
    && match g
       case Tagged(stag, to, op, last, data) => stag < Pow256(4) && to < Pow256(8)
       case Untagged(qn, msn, mo, op, last, data) => qn < Pow256(4) && msn < Pow256(4) && mo < Pow256(4)
  }

  lemma ControlTrip(tagged: bool, last: bool, op: Opcode)
    ensures LastOf(Control(tagged, last)) == last && OpOf(OpByte(op)) == op
    ensures Control(tagged, last) >= 0x80 <==> tagged
  {
  }

  lemma Cut3(a: Bytes, b: Bytes, c: Bytes)
    ensures var h := a + b + c;
            h[|a|..|a| + |b|] == b && h[|a| + |b|..] == c
  {
    var h := a + b + c;
    assert h[..|a| + |b|] == a + b;
  }

  lemma Cut5(a: Bytes, b: Bytes, c: Bytes, d: Bytes, e: Bytes)
    requires |a| == |b| == |c| == |d| == 4
    ensures var h := a + b + c + d + e;
            h[8..12] == c && h[12..16] == d && h[16..] == e
  {
    var h := a + b + c + d + e;
    assert h[..16] == a + b + c + d;
    assert (a + b + c + d)[8..12] == c && (a + b + c + d)[12..16] == d;
    assert h[8..12] == h[..16][8..12] && h[12..16] == h[..16][12..16];
  }

  /** A header read back gives the segment it was made from. */
  lemma HeaderTrip(g: Segment)
    requires Fits(g)
    ensures Header(Sent(HdrOf(g), g.data)) && SegOf(Sent(HdrOf(g), g.data), g.data) == g
  {
    hide Be, FromBe, Pow256, Control, OpByte, OpOf, LastOf, High, Low;
    SentHeader(HdrOf(g), g.data);
    var h := Sent(HdrOf(g), g.data);
    match g {
      case Tagged(stag, to, op, last, data) =>
        ControlTrip(true, last, op);
        BeRoundTrip(stag, 4);
        BeRoundTrip(to, 8);
        Cut3(h[..4], Be(stag, 4), Be(to, 8));
        assert h == h[..4] + Be(stag, 4) + Be(to, 8);
      case Untagged(qn, msn, mo, op, last, data) =>
        ControlTrip(false, last, op);
        BeRoundTrip(qn, 4);
        BeRoundTrip(msn, 4);
        BeRoundTrip(mo, 4);
        Cut5(h[..4], Be(0, 4), Be(qn, 4), Be(msn, 4), Be(mo, 4));
        assert h == h[..4] + Be(0, 4) + Be(qn, 4) + Be(msn, 4) + Be(mo, 4);
    }
  }

  lemma GrantedLength(g: Segment)
    requires Fits(g)
    ensures MpaRun.Granted(Sent(HdrOf(g), g.data)) == Buffer(|g.data|)
  {
    hide LenOf, Sent;
    SentHeader(HdrOf(g), g.data);
  }

  // ----- the stream without markers -----

  function PlainStream(useCrc: bool, gs: seq<Segment>): Bytes {
    if gs == [] then []
    else
      var wire := Body(HdrOf(gs[0]), gs[0].data);
      wire + CrcOf(useCrc, wire) + PlainStream(useCrc, gs[1..])
  }

  datatype Delivered = Delivered(segs: seq<Segment>, rest: Bytes)

  /** Up to n FPDUs read and accepted, as segments. */
  function ReadPlain(useCrc: bool, n: nat, stream: Bytes): Delivered
    decreases n
  {
    if n == 0 then Delivered([], stream)
    else
      match ParsePlain(useCrc, MpaRun.Granted, stream)
      case Frame(ret, hdr, payload, marks, wire, crc) =>
        if ret < 0 || !Header(hdr) || |wire| + |crc| > |stream| then Delivered([], stream)
        else
          var later := ReadPlain(useCrc, n - 1, stream[|wire| + |crc|..]);
          Delivered([SegOf(hdr, payload)] + later.segs, later.rest)
      case _ => Delivered([], stream)
  }

  /** With checksums on, nothing is handed up from a frame whose field is not the checksum of
      all before it, nor from what follows it. */
  lemma WrongFieldDrops(n: nat, stream: Bytes)
    requires var r := ParsePlain(true, MpaRun.Granted, stream); r.Frame? && r.crc != CrcField(r.wire)
    ensures ReadPlain(true, n, stream) == Delivered([], stream)
  {
    hide ParsePlain, CrcField, MpaRun.Granted;
    PlainVerdict(true, MpaRun.Granted, stream);
  }

  /** The stream delivers the segments that were sent, in order, with or without checksums. */
  lemma {:induction false} PlainDelivers(useCrc: bool, gs: seq<Segment>, rest: Bytes)
    requires forall g :: g in gs ==> Fits(g)
    ensures ReadPlain(useCrc, |gs|, PlainStream(useCrc, gs) + rest) == Delivered(gs, rest)
    decreases gs
  {
    hide ParsePlain, CrcOf, Body, HdrOf, SegOf, Sent, Fits, Header, MpaRun.Granted;
    if gs == [] {
      assert [] + rest == rest;
    } else {
      var g := gs[0];
      assert Fits(g);
      FitsRoom(g);
      var wire := Body(HdrOf(g), g.data);
      var crc, later := CrcOf(useCrc, wire), PlainStream(useCrc, gs[1..]);
      PlainDelivers(useCrc, gs[1..], rest);
      GrantedLength(g);
      HeaderTrip(g);
      PlainRoundTrip(HdrOf(g), g.data, useCrc, MpaRun.Granted, later + rest);
      assert wire + crc + later + rest == wire + crc + (later + rest);
      assert (wire + crc + (later + rest))[|wire| + |crc|..] == later + rest;
      assert [g] + gs[1..] == gs;
    }
  }

  lemma FitsRoom(g: Segment)
    requires Fits(g)
    ensures |HdrOf(g)| + |g.data| < 0x1_0000 && Header(HdrOf(g))
  {
  }

  // ----- the stream with markers -----

  function Fpdus(gs: seq<Segment>): (fs: seq<MpaRun.Fpdu>)
    ensures |fs| == |gs|
  {
    if gs == [] then [] else [MpaRun.Fpdu(HdrOf(gs[0]), gs[0].data)] + Fpdus(gs[1..])
  }

  /** The segments that mpa_recv hands to the DDP layer: none for a frame with an error. */
  function HandedUp(got: seq<Outcome>): seq<Segment> {
    if got == [] then []
    else
      (if got[0].Frame? && got[0].ret >= 0 && Header(got[0].hdr) then [SegOf(got[0].hdr, got[0].payload)] else [])
      + HandedUp(got[1..])
  }

  lemma {:induction false} ExpectedFrames(pos: nat, gs: seq<Segment>)
    requires (forall g :: g in gs ==> Fits(g)) && MpaRun.AllGood(pos, Fpdus(gs))
    ensures HandedUp(MpaRun.ExpectedAll(pos, false, Fpdus(gs))) == gs
    decreases gs
  {
    hide HdrOf, SegOf, Sent, Fits, Header, MpaRun.Good, MpaRun.Wire, WireOf, CrcOf, Pointers, MarksOf;
    if gs != [] {
      var fs := Fpdus(gs);
      assert Fits(gs[0]);
      HeaderTrip(gs[0]);
      FitsRoom(gs[0]);
      assert fs[1..] == Fpdus(gs[1..]);
      ExpectedFrames(pos + |MpaRun.Wire(pos, fs[0])|, gs[1..]);
      var e := MpaRun.ExpectedAll(pos, false, fs);
      assert e[1..] == MpaRun.ExpectedAll(pos + |MpaRun.Wire(pos, fs[0])|, false, fs[1..]);
      assert [gs[0]] + gs[1..] == gs;
    }
  }

  lemma {:induction false} NothingHandedUp(got: seq<Outcome>)
    requires forall o :: o in got ==> !o.Frame? || o.ret < 0
    ensures HandedUp(got) == []
  {
    if got != [] {
      assert got[0] in got;
      NothingHandedUp(got[1..]);
    }
  }

  /** With checksums on, markers let nothing through, whatever is on the stream. */
  lemma CrcBlocks(sp: nat, mp: nat, n: nat, stream: Bytes)
    ensures HandedUp(MpaRun.ReadAll(sp, mp, true, n, stream).got) == []
  {
    hide HandedUp, MpaRun.ReadAll;
    MpaCorners.NoneAccepted(sp, mp, n, stream);
    NothingHandedUp(MpaRun.ReadAll(sp, mp, true, n, stream).got);
  }

  /** If the layout of a run of FPDUs, none of which ends on a marker position, is what the
      stream holds, all of it is taken in; the segments are handed up without checksums and
      dropped with them. */
  lemma MarkedLayout(pos: nat, useCrc: bool, gs: seq<Segment>, rest: Bytes)
    requires (forall g :: g in gs ==> Fits(g)) && MpaRun.AllGood(pos, Fpdus(gs))
    ensures var r := MpaRun.ReadAll(Wrap(pos), Wrap(NextMark(pos)), useCrc, |gs|,
                                    MpaRun.SendAll(pos, useCrc, Fpdus(gs)) + rest);
            HandedUp(r.got) == (if useCrc then [] else gs) && r.rest == rest
  {
    hide MpaRun.ReadAll, MpaRun.SendAll, MpaRun.WriteAll, HandedUp, MpaRun.AllGood, Wrap, NextMark, Fits, MpaRun.Headers;
    MpaRun.RunRoundTrip(pos, useCrc, Fpdus(gs), rest);
    if useCrc {
      CrcBlocks(Wrap(pos), Wrap(NextMark(pos)), |gs|, MpaRun.SendAll(pos, useCrc, Fpdus(gs)) + rest);
    } else {
      ExpectedFrames(pos, gs);
    }
  }

  lemma {:induction false} FpduHeaders(gs: seq<Segment>)
    requires forall g :: g in gs ==> Fits(g)
    ensures MpaRun.Headers(Fpdus(gs))
    ensures forall f :: f in Fpdus(gs) ==> |f.hdr| + |f.payload| < 0x1_0000
  {
    hide HdrOf, Header, Fits;
    if gs != [] {
      assert Fits(gs[0]);
      FitsRoom(gs[0]);
      FpduHeaders(gs[1..]);
    }
  }

  lemma OneWritten(pos: nat, f: MpaRun.Fpdu)
    requires Header(f.hdr)
    ensures MpaRun.WriteAll(Wrap(pos), Wrap(NextMark(pos)), false, [f]).bytes == MpaRun.Wire(pos, f)
  {
    hide Wrap, NextMark, WireOf, Header;
    MpaRun.WrapRoom(pos);
    assert [f][1..] == [];
    var w := MpaRun.Wire(pos, f);
    assert w + [] + [] == w;
  }

  /** One frame read in step, with `wire` in front of it on the stream. */
  lemma OneRead(pos: nat, o: Outcome, rest: Bytes)
    requires o.Frame? && Parse(MpaRun.Room(pos), false, MpaRun.Granted, o.wire + o.crc + rest) == o
    ensures var r := MpaRun.ReadAll(Wrap(pos), Wrap(NextMark(pos)), false, 1, o.wire + o.crc + rest);
            r.got == [o] && r.rest == rest
  {
    hide Wrap, NextMark, Parse;
    MpaRun.WrapRoom(pos);
    assert (o.wire + o.crc + rest)[|o.wire| + |o.crc|..] == rest;
  }

  lemma OneUp(o: Outcome, g: Segment)
    requires o.Frame? && o.ret >= 0 && Fits(g) && o.hdr == Sent(HdrOf(g), g.data) && o.payload == g.data
    ensures HandedUp([o]) == [g]
  {
    hide SegOf, Sent, HdrOf, Header, Fits;
    HeaderTrip(g);
    assert [o][1..] == [];
  }

  /** A segment whose FPDU ends on the marker position, sent first and alone. */
  lemma FirstOne(pos: nat, g: Segment, rest: Bytes)
    requires Fits(g) && MpaRun.Fit(pos, MpaRun.Fpdu(HdrOf(g), g.data))
    requires |Body(HdrOf(g), g.data)| == MpaRun.Room(pos)
    ensures var f := MpaRun.Fpdu(HdrOf(g), g.data);
            var r := MpaRun.ReadAll(Wrap(pos), Wrap(NextMark(pos)), false, 1, MpaRun.Wire(pos, f) + rest);
            HandedUp(r.got) == [g] && (r.rest == rest <==> g.data != [])
  {
    hide Wrap, NextMark, Parse, MpaRun.ReadAll, HandedUp, WireOf, Body, Sent, HdrOf, MpaRun.Room, Pointers, MarksOf,
         Fits, Aligned, Marker, LenOf, HdrSz;
    var f := MpaRun.Fpdu(HdrOf(g), g.data);
    var w := MpaRun.Wire(pos, f);
    assert w + [] + rest == w + rest;
    MpaRun.FitTrip(pos, f, false, rest);
    LoneBody(f.hdr, f.payload);
    SentHeader(f.hdr, f.payload);
    if g.data != [] {
      var o := Expected(f.hdr, f.payload, MpaRun.Room(pos), false);
      OneRead(pos, o, rest);
      OneUp(o, g);
    } else {
      LoneHeaderLeft(f.hdr, MpaRun.Room(pos), false, MpaRun.Granted, rest);
      var h := Sent(f.hdr, []);
      var mk := Marker(MpaRun.Room(pos));
      var o := Frame(0, h, [], [], h, []);
      assert h + [] + (mk + rest) == w + rest;
      OneRead(pos, o, mk + rest);
      OneUp(o, g);
    }
  }

  lemma FirstFpdu(gs: seq<Segment>)
    requires gs != []
    ensures Fpdus(gs)[0] == MpaRun.Fpdu(HdrOf(gs[0]), gs[0].data)
    ensures |gs| == 1 ==> Fpdus(gs) == [MpaRun.Fpdu(HdrOf(gs[0]), gs[0].data)] && gs == [gs[0]]
  {
    hide HdrOf;
  }

  lemma WithoutCrc(pos: nat, gs: seq<Segment>, rest: Bytes)
    requires (forall g :: g in gs ==> Fits(g)) && gs != [] && MpaRun.Fit(pos, Fpdus(gs)[0])
    ensures MpaRun.Headers(Fpdus(gs))
    ensures var sp, mp := Wrap(pos), Wrap(NextMark(pos));
            var w := MpaRun.WriteAll(sp, mp, false, Fpdus(gs));
            var r := MpaRun.ReadAll(sp, mp, false, |gs|, w.bytes + rest);
            && MpaCorners.LengthsRight(sp, mp, false, Fpdus(gs)) && HandedUp(r.got) == gs && r.rest == rest
            <==> OneThatMeets(pos, false, gs)
  {
    hide Wrap, NextMark, MpaRun.ReadAll, MpaRun.WriteAll, MpaCorners.LengthsRight, HandedUp, WireOf, Body, HdrOf,
         Fpdus, MpaRun.Room, MpaRun.Fit, MpaRun.Headers, Fits, Header;
    FpduHeaders(gs);
    FirstFpdu(gs);
    assert Fits(gs[0]);
    FitsRoom(gs[0]);
    MpaCorners.OnlyTheFirst(pos, Fpdus(gs));
    if |gs| == 1 && |Body(HdrOf(gs[0]), gs[0].data)| == MpaRun.Room(pos) {
      OneWritten(pos, Fpdus(gs)[0]);
      FirstOne(pos, gs[0], rest);
    }
  }

  /** With both ends in step, a run of segments is sent with the right lengths and handed up
      whole, leaving what follows, exactly when it is empty or one segment: without
      checksum, not empty, and with a padded FPDU that ends on the marker position. */
  lemma MarkedDelivers(pos: nat, useCrc: bool, gs: seq<Segment>, rest: Bytes)
    requires forall g :: g in gs ==> Fits(g)
    requires gs != [] ==> MpaRun.Fit(pos, Fpdus(gs)[0])
    ensures MpaRun.Headers(Fpdus(gs))
    ensures var sp, mp := Wrap(pos), Wrap(NextMark(pos));
            var w := MpaRun.WriteAll(sp, mp, useCrc, Fpdus(gs));
            var r := MpaRun.ReadAll(sp, mp, useCrc, |gs|, w.bytes + rest);
            && MpaCorners.LengthsRight(sp, mp, useCrc, Fpdus(gs)) && HandedUp(r.got) == gs && r.rest == rest
            <==> gs == [] || OneThatMeets(pos, useCrc, gs)
  {
    hide *;
    FpduHeaders(gs);
    if gs == [] {
      NoneAtAll(pos, useCrc, rest);
    } else if useCrc {
      var w := MpaRun.WriteAll(Wrap(pos), Wrap(NextMark(pos)), useCrc, Fpdus(gs));
      CrcBlocks(Wrap(pos), Wrap(NextMark(pos)), |gs|, w.bytes + rest);
      NotWithCrc(pos, gs);
    } else {
      WithoutCrc(pos, gs, rest);
    }
  }

  predicate OneThatMeets(pos: nat, useCrc: bool, gs: seq<Segment>) {
    && !useCrc && |gs| == 1 && gs[0].data != []
    && |Body(HdrOf(gs[0]), gs[0].data)| == MpaRun.Room(pos)
  }

  lemma NotWithCrc(pos: nat, gs: seq<Segment>)
    ensures !OneThatMeets(pos, true, gs)
  {
  }

  lemma NoneAtAll(pos: nat, useCrc: bool, rest: Bytes)
    ensures var sp, mp := Wrap(pos), Wrap(NextMark(pos));
            var w := MpaRun.WriteAll(sp, mp, useCrc, Fpdus([]));
            var r := MpaRun.ReadAll(sp, mp, useCrc, 0, w.bytes + rest);
            MpaCorners.LengthsRight(sp, mp, useCrc, Fpdus([])) && HandedUp(r.got) == [] && r.rest == rest
  {
    assert [] + rest == rest;
  }
}
