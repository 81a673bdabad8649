/** Where the code for FPDUs with markers leaves its own intent, and exactly when it does. */
module MpaCorners {
  import opened MpaLayout
  import opened VectorIo
  import opened MpaWriter
  import opened MpaReader
  import opened MpaRoundTrip
  import opened MpaRun

  // ----- after an FPDU that ended on the marker position -----

  /** What goes out when no FPDU gets a marker. */
  function Unmarked(useCrc: bool, fs: seq<Fpdu>): Bytes
    requires Headers(fs)
  {
    if fs == [] then []
    else
      var body := Body(fs[0].hdr, fs[0].payload);
      body + CrcOf(useCrc, body) + Unmarked(useCrc, fs[1..])
  }

  /** One FPDU whose contents end before the marker position, or do not. */
  lemma WriteStep(sp: nat, mp: nat, f: Fpdu)
    requires Header(f.hdr)
    ensures var room, body := Wrap(mp - sp), Body(f.hdr, f.payload);
            var wire := WireOf(f.hdr, f.payload, room);
            && (|body| < room ==> wire == body && NumMrkrs(|body|, room) == 0
                                  && Wrap(mp - Wrap(sp + |wire|)) == room - |body|)
            && (|body| >= room ==> |wire| >= |body| + MARKER_SZ)
            && |wire| >= |body|
  {
    hide Lay, Body, Marks;
    var room, body := Wrap(mp - sp), Body(f.hdr, f.payload);
    LayLength(0, room, body);
    MarksStep(0, room, |body|);
    if |body| < room {
      LayLast(0, room, body);
      assert body + [] == body;
      RoomLeft(sp, mp, |body|);
    }
  }

  lemma RoomLeft(sp: nat, mp: nat, n: nat)
    requires n < Wrap(mp - sp)
    ensures Wrap(mp - Wrap(sp + n)) == Wrap(mp - sp) - n
  {
    var q := (sp + n) / TWO32;
    assert sp + n == TWO32 * q + Wrap(sp + n);
    WrapPeriod(mp - sp - n, q);
    var r := (mp - sp) / TWO32;
    assert mp - sp == TWO32 * r + Wrap(mp - sp);
    WrapPeriod(Wrap(mp - sp) - n, r);
  }

  lemma {:induction false} NotShorter(sp: nat, mp: nat, useCrc: bool, fs: seq<Fpdu>)
    requires Headers(fs)
    ensures |WriteAll(sp, mp, useCrc, fs).bytes| >= |Unmarked(useCrc, fs)|
    decreases fs
  {
    hide Header, Body, WireOf, Wrap, NumMrkrs, CrcLen;
    if fs != [] {
      WriteStep(sp, mp, fs[0]);
      var room := Wrap(mp - sp);
      NotShorter(Wrap(sp + |WireOf(fs[0].hdr, fs[0].payload, room)|),
                 Wrap(mp + MARKER_PERIOD * NumMrkrs(|Body(fs[0].hdr, fs[0].payload)|, room)), useCrc, fs[1..]);
    }
  }

  /** A run goes out without any marker exactly as long as its contents stay below the
      writer's marker position. */
  lemma {:induction false} NoMarkers(sp: nat, mp: nat, useCrc: bool, fs: seq<Fpdu>)
    requires Headers(fs) && sp < TWO32 && mp < TWO32
    ensures WriteAll(sp, mp, useCrc, fs).bytes == Unmarked(useCrc, fs)
            <==> fs == [] || |Bodies(fs)| < Wrap(mp - sp)
    decreases fs
  {
    hide Header, Body, WireOf, Wrap, NumMrkrs, CrcOf, CrcLen, Headers, WriteAll, Unmarked, Bodies;
    if fs != [] {
      TailHeaders(fs);
      var f := fs[0];
      var room, body := Wrap(mp - sp), Body(f.hdr, f.payload);
      var wire := WireOf(f.hdr, f.payload, room);
      WriteStep(sp, mp, f);
      Unfolded(sp, mp, useCrc, fs);
      var sp', mp' := Wrap(sp + |wire|), Wrap(mp + MARKER_PERIOD * NumMrkrs(|body|, room));
      if |body| < room {
        NoMarkers(sp', mp', useCrc, fs[1..]);
        WrapSmall(mp);
        SameFront(body + CrcOf(useCrc, body), WriteAll(sp', mp', useCrc, fs[1..]).bytes, Unmarked(useCrc, fs[1..]));
        NoBodies();
      } else {
        NotShorter(sp', mp', useCrc, fs[1..]);
        assert |wire + CrcOf(useCrc, wire)| > |body + CrcOf(useCrc, body)|;
      }
    } else {
      Unfolded(sp, mp, useCrc, fs);
    }
  }

  /** The first FPDU and the rest. */
  lemma Unfolded(sp: nat, mp: nat, useCrc: bool, fs: seq<Fpdu>)
    requires Headers(fs) && (fs != [] ==> Header(fs[0].hdr) && Headers(fs[1..]))
    ensures fs == [] ==> WriteAll(sp, mp, useCrc, fs).bytes == Unmarked(useCrc, fs)
    ensures fs != [] ==>
              var room, body := Wrap(mp - sp), Body(fs[0].hdr, fs[0].payload);
              var wire := WireOf(fs[0].hdr, fs[0].payload, room);
              && WriteAll(sp, mp, useCrc, fs).bytes
                 == wire + CrcOf(useCrc, wire)
                    + WriteAll(Wrap(sp + |wire|), Wrap(mp + MARKER_PERIOD * NumMrkrs(|body|, room)), useCrc, fs[1..]).bytes
              && Unmarked(useCrc, fs) == body + CrcOf(useCrc, body) + Unmarked(useCrc, fs[1..])
              && |Bodies(fs)| == |body| + |Bodies(fs[1..])|
  {
    hide Header, Body, WireOf, Wrap, NumMrkrs, CrcOf, Headers;
  }

  lemma TailHeaders(fs: seq<Fpdu>)
    requires Headers(fs) && fs != []
    ensures Header(fs[0].hdr) && Headers(fs[1..])
  {
    hide Header;
  }

  lemma WrapSmall(x: nat)
    requires x < TWO32
    ensures Wrap(x) == x == Wrap(x + MARKER_PERIOD * 0)
  {
  }

  lemma NoBodies()
    ensures Bodies([]) == []
  {
  }

  lemma SameFront(a: Bytes, b: Bytes, c: Bytes)
    ensures a + b == a + c <==> b == c
  {
    assert (a + b)[|a|..] == b && (a + c)[|a|..] == c;
  }

  /** After an FPDU that ended on the marker position the writer puts out FPDUs without
      markers, exactly as long as their contents stay below 2^32 - 4 bytes. */
  lemma DesyncRun(pos: nat, useCrc: bool, f: Fpdu, fs: seq<Fpdu>)
    requires Header(f.hdr) && Headers(fs) && fs != [] && |Body(f.hdr, f.payload)| == Room(pos)
    ensures Headers([f] + fs)
    ensures WriteAll(Wrap(pos), Wrap(NextMark(pos)), useCrc, [f] + fs).bytes
            == Wire(pos, f) + CrcOf(useCrc, Wire(pos, f)) + Unmarked(useCrc, fs)
            <==> |Bodies(fs)| < TWO32 - MARKER_SZ
  {
    hide Header, Body, WireOf, Wrap, NumMrkrs, CrcOf, Room, NextMark, Marks, Bodies, Unmarked;
    assert ([f] + fs)[1..] == fs;
    var l, w := |Body(f.hdr, f.payload)|, Wire(pos, f);
    WrapRoom(pos);
    WireLength(pos, f);
    NoneCounted(l);
    Desync(pos, l);
    var sp, mp := Wrap(Wrap(pos) + |w|), Wrap(Wrap(NextMark(pos)) + MARKER_PERIOD * NumMrkrs(l, l));
    NoMarkers(sp, mp, useCrc, fs);
    SameFront(w + CrcOf(useCrc, w), WriteAll(sp, mp, useCrc, fs).bytes, Unmarked(useCrc, fs));
  }

  // ----- what works -----

  /** The length that goes to writev_full with this FPDU. */
  function LengthGiven(f: Fpdu, room: nat): nat
    requires Header(f.hdr)
  {
    var l := |Body(f.hdr, f.payload)|;
    l + MARKER_SZ * NumMrkrs(l, room) + CRC_SZ
  }

  /** Every FPDU of a run goes to writev_full with the length it has. */
  predicate LengthsRight(sp: nat, mp: nat, useCrc: bool, fs: seq<Fpdu>)
    requires Headers(fs)
    decreases fs
  {
    fs == [] ||
    var room := Wrap(mp - sp);
    var wire := WireOf(fs[0].hdr, fs[0].payload, room);
    && LengthGiven(fs[0], room) == |wire + CrcOf(useCrc, wire)|
    && LengthsRight(Wrap(sp + |wire|), Wrap(mp + MARKER_PERIOD * NumMrkrs(|Body(fs[0].hdr, fs[0].payload)|, room)),
                    useCrc, fs[1..])
  }

  /** Without checksums no second FPDU has the right length: the first one has it by ending
      on the marker position, and that throws the writer off. */
  lemma OnlyTheFirst(pos: nat, fs: seq<Fpdu>)
    requires Headers(fs) && forall f :: f in fs ==> |f.hdr| + |f.payload| < 0x1_0000
    ensures LengthsRight(Wrap(pos), Wrap(NextMark(pos)), false, fs)
            <==> fs == [] || (|fs| == 1 && |Body(fs[0].hdr, fs[0].payload)| == Room(pos))
  {
    hide Header, Body, WireOf, Wrap, NumMrkrs, CrcOf, Room, NextMark, Marks, Headers;
    if fs != [] {
      TailHeaders(fs);
      var f := fs[0];
      var l, w := |Body(f.hdr, f.payload)|, Wire(pos, f);
      WrapRoom(pos);
      LengthRight(f.hdr, f.payload, Room(pos), false);
      var sp, mp := Wrap(Wrap(pos) + |w|), Wrap(Wrap(NextMark(pos)) + MARKER_PERIOD * NumMrkrs(l, Room(pos)));
      if |fs| > 1 && l == Room(pos) {
        TailHeaders(fs[1..]);
        WireLength(pos, f);
        NoneCounted(l);
        Desync(pos, l);
        var g := fs[1];
        LengthRight(g.hdr, g.payload, TWO32 - MARKER_SZ, false);
        BodySmall(g.hdr, g.payload);
      }
    }
  }

  lemma BodySmall(hdr: Bytes, payload: Bytes)
    requires Header(hdr) && |hdr| + |payload| < 0x1_0000
    ensures |Body(hdr, payload)| < 0x1_0000 + WORD_SZ
  {
  }

  /** One FPDU is both sent with the right length and taken in whole, without an error, just
      when there is no checksum, it ends on the marker position, and it has a payload. */
  lemma OneWorks(pos: nat, f: Fpdu, useCrc: bool, rest: Bytes)
    requires Fit(pos, f)
    ensures var wire := Wire(pos, f);
            var fpdu := wire + CrcOf(useCrc, wire);
            && LengthGiven(f, Room(pos)) == |fpdu|
            && Parse(Room(pos), useCrc, Granted, fpdu + rest) == Expected(f.hdr, f.payload, Room(pos), useCrc)
            && Expected(f.hdr, f.payload, Room(pos), useCrc).ret >= 0
            <==> !useCrc && |Body(f.hdr, f.payload)| == Room(pos) && f.payload != []
  {
    hide Parse, WireOf, Body, Header, CrcOf, NumMrkrs, Room, Marks, Aligned;
    FitTrip(pos, f, useCrc, rest);
    LengthRight(f.hdr, f.payload, Room(pos), useCrc);
    LoneBody(f.hdr, f.payload);
  }

  /** A frame with markers is accepted exactly when checksums are off and every marker points
      back to where the frame began, modulo 2^32; otherwise the message is bad. */
  lemma MarkedVerdict(mp0: nat, useCrc: bool, sink: Bytes -> Sink, stream: Bytes)
    ensures var r := Parse(mp0, useCrc, sink, stream);
            r.Frame? ==>
              && (r.ret == 0 <==>
                    !useCrc && forall k :: 0 <= k < |r.marks| ==> r.marks[k] == (mp0 + k * 512) % 0x1_0000_0000)
              && (r.ret != 0 ==> r.ret == -74)
  {
    hide Scatter, Sizes, Plan, Pad, HeadBytes, HeadMarks, HeadMp, HeadLen, HasHead, BlocksUsed;
    if HasHead(mp0, stream) {
      HeadMpRoom(mp0, stream);
    }
  }

  /** With checksums on, no FPDU with markers is ever accepted, not even a correct one. */
  lemma CrcNeverAccepted(mp0: nat, sink: Bytes -> Sink, stream: Bytes)
    ensures var r := Parse(mp0, true, sink, stream); r.Frame? ==> r.ret == -EBADMSG
  {
    hide Scatter, Sizes, Plan, PtrsOk, Pad, HeadBytes, HeadMarks, HeadMp, HeadLen, HasHead;
    if HasHead(mp0, stream) {
      HeadMpRoom(mp0, stream);
    }
  }

  /** Nor over any run, from any positions and on any stream. */
  lemma {:induction false} NoneAccepted(sp: nat, mp: nat, n: nat, stream: Bytes)
    ensures forall o :: o in ReadAll(sp, mp, true, n, stream).got ==> !o.Frame? || o.ret < 0
    decreases n
  {
    hide Parse, Wrap;
    if n > 0 {
      CrcNeverAccepted(Wrap(mp - sp), Granted, stream);
      match Parse(Wrap(mp - sp), true, Granted, stream) {
        case Frame(ret, hdr, payload, marks, wire, crc) =>
          if |wire| + |crc| <= |stream| {
            NoneAccepted(Wrap(sp + |wire|), Wrap(mp + MARKER_PERIOD * |marks|), n - 1, stream[|wire| + |crc|..]);
          }
        case _ =>
      }
    }
  }
}
