/** Runs of FPDUs with markers: both ends' counters, and the stream seen as a whole. */
module MpaRun {
  import opened MpaLayout
  import opened VectorIo
  import opened MpaWriter
  import opened MpaReader
  import opened MpaBlocks
  import opened MpaRoundTrip

  datatype Fpdu = Fpdu(hdr: Bytes, payload: Bytes)

  /** How far ahead the next marker is. */
  function Room(pos: nat): (mp: nat)
    ensures mp < MARKER_PERIOD
  {
    NextMark(pos) - pos
  }

  /** An FPDU that fits the static arrays. */
  predicate Fit(pos: nat, f: Fpdu) {
    && Header(f.hdr) && |f.hdr| + |f.payload| < 0x1_0000
    && Aligned(Room(pos))
    && |Body(f.hdr, f.payload)| + MARKER_SZ * MarksOf(f.hdr, f.payload, Room(pos)) + CRC_SZ <= FPDU_LEN
  }

  /** One that does not, besides, end just where a marker is due. */
  predicate Good(pos: nat, f: Fpdu) { Fit(pos, f) && |Body(f.hdr, f.payload)| != Room(pos) }

  function Wire(pos: nat, f: Fpdu): Bytes
    requires Header(f.hdr)
  {
    WireOf(f.hdr, f.payload, Room(pos))
  }

  predicate AllGood(pos: nat, fs: seq<Fpdu>)
    decreases fs
  {
    fs == [] || (Good(pos, fs[0]) && AllGood(pos + |Wire(pos, fs[0])|, fs[1..]))
  }

  function SendAll(pos: nat, useCrc: bool, fs: seq<Fpdu>): Bytes
    requires AllGood(pos, fs)
    decreases fs
  {
    if fs == [] then []
    else
      var w := Wire(pos, fs[0]);
      w + CrcOf(useCrc, w) + SendAll(pos + |w|, useCrc, fs[1..])
  }

  function End(pos: nat, fs: seq<Fpdu>): nat
    requires AllGood(pos, fs)
    decreases fs
  {
    if fs == [] then pos else End(pos + |Wire(pos, fs[0])|, fs[1..])
  }

  function ExpectedAll(pos: nat, useCrc: bool, fs: seq<Fpdu>): seq<Outcome>
    requires AllGood(pos, fs)
    decreases fs
  {
    if fs == [] then []
    else [Expected(fs[0].hdr, fs[0].payload, Room(pos), useCrc)]
         + ExpectedAll(pos + |Wire(pos, fs[0])|, useCrc, fs[1..])
  }

  /** A DDP layer that refuses nothing: the length that ddp_get_sink works out from a header. */
  function Granted(hdr: Bytes): Sink {
    if |hdr| < 2 then NoSink else Buffer(SinkLen(|hdr|, LenOf(hdr)))
  }

  predicate Headers(fs: seq<Fpdu>) { forall f :: f in fs ==> Header(f.hdr) }

  datatype WriteRun = WriteRun(bytes: Bytes, sp: nat, mp: nat)

  function After(sent: Bytes, w: WriteRun): WriteRun {
    w.(bytes := sent + w.bytes)
  }

  /** FPDUs laid out one after the other, with the writer's own counters. */
  function WriteAll(sp: nat, mp: nat, useCrc: bool, fs: seq<Fpdu>): WriteRun
    requires Headers(fs)
    decreases fs
  {
    if fs == [] then WriteRun([], sp, mp)
    else
      var room := Wrap(mp - sp);
      var wire := WireOf(fs[0].hdr, fs[0].payload, room);
      After(wire + CrcOf(useCrc, wire),
            WriteAll(Wrap(sp + |wire|), Wrap(mp + MARKER_PERIOD * NumMrkrs(|Body(fs[0].hdr, fs[0].payload)|, room)),
                     useCrc, fs[1..]))
  }

  datatype ReadRun = ReadRun(got: seq<Outcome>, sp: nat, mp: nat, rest: Bytes)

  function Then(o: Outcome, r: ReadRun): ReadRun {
    r.(got := [o] + r.got)
  }

  /** Up to n FPDUs read one after the other, with the reader's own counters. */
  function ReadAll(sp: nat, mp: nat, useCrc: bool, n: nat, stream: Bytes): ReadRun
    decreases n
  {
    if n == 0 then ReadRun([], sp, mp, stream)
    else
      match Parse(Wrap(mp - sp), useCrc, Granted, stream)
      case Frame(ret, hdr, payload, marks, wire, crc) =>
        if |wire| + |crc| > |stream| then ReadRun([], sp, mp, stream)
        else
          Then(Frame(ret, hdr, payload, marks, wire, crc),
               ReadAll(Wrap(sp + |wire|), Wrap(mp + MARKER_PERIOD * |marks|), useCrc, n - 1,
                       stream[|wire| + |crc|..]))
      case o => ReadRun([o], sp, mp, stream)
  }

  // ----- positions -----

  lemma WrapRoom(pos: nat)
    ensures Wrap(Wrap(NextMark(pos)) - Wrap(pos)) == Room(pos)
  {
    var q, r := NextMark(pos) / TWO32, pos / TWO32;
    assert NextMark(pos) == TWO32 * q + Wrap(NextMark(pos)) && pos == TWO32 * r + Wrap(pos);
    WrapPeriod(Room(pos), r - q);
  }

  /** The next marker after an FPDU, counted by the writer's and by the reader's rule. */
  lemma NextAfter(pos: nat, l: nat)
    ensures var m := Marks(0, Room(pos), l);
            NextMark(pos) + MARKER_PERIOD * m == NextMark(pos + l + MARKER_SZ * m)
  {
    hide NextMark, Marks;
    var m := Marks(0, Room(pos), l);
    MarksCover(Room(pos), l);
    NextMarkStep(pos, m);
    NextMarkUnique(pos + l + MARKER_SZ * m, NextMark(pos) + MARKER_PERIOD * m);
  }

  lemma NextMarkStep(pos: nat, m: nat)
    ensures (NextMark(pos) + MARKER_PERIOD * m) % MARKER_PERIOD == 0
  {
    assert NextMark(pos) + MARKER_PERIOD * m
        == MARKER_PERIOD * ((pos + MARKER_PERIOD - 1) / MARKER_PERIOD + m);
  }

  /** After the layout the marker position lies ahead by 1 to 511 bytes. */
  lemma MarksCover(mp: nat, l: nat)
    requires mp < MARKER_PERIOD
    ensures var m := Marks(0, mp, l);
            l + MARKER_SZ * m < mp + MARKER_PERIOD * m < l + MARKER_SZ * m + MARKER_PERIOD
  {
  }

  /** On word boundaries the position comes back to 4..508. */
  lemma LandsBack(mp: nat, l: nat)
    requires mp < MARKER_PERIOD && Aligned(mp) && Aligned(l)
    ensures var m := Marks(0, mp, l);
            4 <= mp + MARKER_PERIOD * m - (l + MARKER_SZ * m) <= 508
  {
    MarksCover(mp, l);
    var m := Marks(0, mp, l);
    Words(mp, l, m);
    WordGap(mp + MARKER_PERIOD * m - (l + MARKER_SZ * m));
  }

  lemma Words(mp: nat, l: nat, m: nat)
    requires Aligned(mp) && Aligned(l)
    ensures Aligned(mp + MARKER_PERIOD * m - (l + MARKER_SZ * m))
  {
    assert mp + MARKER_PERIOD * m - (l + MARKER_SZ * m) == WORD_SZ * (mp / WORD_SZ - l / WORD_SZ + 127 * m);
  }

  lemma WordGap(x: int)
    requires Aligned(x) && 0 < x < MARKER_PERIOD
    ensures 4 <= x <= 508
  {
  }

  lemma WrapAdd(x: int, y: int)
    ensures Wrap(Wrap(x) + y) == Wrap(x + y)
  {
    WrapCongruent(x, y);
  }

  predicate InStep(sp: nat, mp: nat, pos: nat) { sp == Wrap(pos) && mp == Wrap(NextMark(pos)) }

  /** Writer and reader each advance their counters by their own count of the markers;
      after an FPDU they agree again exactly when it did not end on the marker position. */
  lemma StayInStep(pos: nat, l: nat)
    ensures var m := Marks(0, Room(pos), l);
            var n := NumMrkrs(l, Room(pos));
            var pos' := pos + l + MARKER_SZ * m;
            && InStep(Wrap(Wrap(pos) + (l + MARKER_SZ * m)), Wrap(Wrap(NextMark(pos)) + MARKER_PERIOD * m), pos')
            && (InStep(Wrap(Wrap(pos) + (l + MARKER_SZ * m)), Wrap(Wrap(NextMark(pos)) + MARKER_PERIOD * n), pos')
                <==> l != Room(pos))
  {
    hide Marks, NumMrkrs, Wrap, NextMark;
    var m, n := Marks(0, Room(pos), l), NumMrkrs(l, Room(pos));
    NextAfter(pos, l);
    WrapAdd(pos, l + MARKER_SZ * m);
    WrapAdd(NextMark(pos), MARKER_PERIOD * m);
    WrapAdd(NextMark(pos), MARKER_PERIOD * n);
    if l != Room(pos) {
      NumMrkrsRight(l, Room(pos));
    } else {
      NoneCounted(l);
      WrapApart(NextMark(pos));
    }
  }

  lemma NoneCounted(l: nat)
    ensures NumMrkrs(l, l) == 0 && Marks(0, l, l) == 1
  {
  }

  lemma WrapApart(x: nat)
    ensures Wrap(x) != Wrap(x + MARKER_PERIOD) && Wrap(x + MARKER_PERIOD * 0) == Wrap(x)
    ensures Wrap(x + MARKER_PERIOD * 1) == Wrap(x + MARKER_PERIOD)
  {
  }

  /** An FPDU that ends on the marker position throws the writer off: the next marker seems
      2^32 - 4 bytes away. */
  lemma Desync(pos: nat, l: nat)
    requires l == Room(pos)
    ensures Wrap(Wrap(Wrap(NextMark(pos)) + MARKER_PERIOD * NumMrkrs(l, l)) - Wrap(Wrap(pos) + (l + MARKER_SZ)))
         == TWO32 - MARKER_SZ
  {
    WrapRoom(pos);
    NoneCounted(l);
    WrapTwice(NextMark(pos));
    WrapDiff(NextMark(pos), pos + (l + MARKER_SZ));
    WrapAdd(pos, l + MARKER_SZ);
  }

  lemma WrapTwice(x: nat)
    ensures Wrap(Wrap(x)) == Wrap(x)
  {
  }

  lemma WrapDiff(x: int, y: int)
    ensures Wrap(Wrap(x) - Wrap(y)) == Wrap(x - y)
  {
    var q, r := x / TWO32, y / TWO32;
    assert x == TWO32 * q + Wrap(x) && y == TWO32 * r + Wrap(y);
    WrapPeriod(Wrap(x) - Wrap(y), q - r);
  }

  /** The length handed to writev_full is right exactly when the two oversights, leaving out
      the last marker and always adding the checksum, are both absent or cancel out. */
  lemma LengthRight(hdr: Bytes, payload: Bytes, mp: nat, useCrc: bool)
    requires Header(hdr)
    ensures var wire := WireOf(hdr, payload, mp);
            var l := |Body(hdr, payload)|;
            l + MARKER_SZ * NumMrkrs(l, mp) + CRC_SZ == |wire + CrcOf(useCrc, wire)| <==> (useCrc <==> l != mp)
  {
    hide Lay, Body;
    LayLength(0, mp, Body(hdr, payload));
  }

  // ----- runs -----

  lemma PtrsFitRoom(mp: nat, l: nat)
    requires mp < MARKER_PERIOD && l + MARKER_SZ * Marks(0, mp, l) + CRC_SZ <= FPDU_LEN
    ensures PtrsFit(mp, Marks(0, mp, l))
  {
  }

  lemma GrantedSent(hdr: Bytes, payload: Bytes)
    requires Header(hdr) && |hdr| + |payload| < 0x1_0000
    ensures Granted(Sent(hdr, payload)) == Buffer(|payload|)
  {
    hide LenOf, Sent, HdrSz, SizeT;
    SentHeader(hdr, payload);
    Small(|payload|);
  }

  lemma FitTrip(pos: nat, f: Fpdu, useCrc: bool, rest: Bytes)
    requires Fit(pos, f)
    ensures var w := Wire(pos, f);
            Parse(Room(pos), useCrc, Granted, w + CrcOf(useCrc, w) + rest) == Expected(f.hdr, f.payload, Room(pos), useCrc)
            <==> !LoneHeader(f.hdr, f.payload, Room(pos))
  {
    hide Parse, Expected, CrcOf, WireOf, Room, Marks, PtrsFit, HdrSz, LenOf, Sent, Aligned, LoneHeader, TooLong,
         BlocksUsed, Granted;
    GrantedSent(f.hdr, f.payload);
    PtrsFitRoom(Room(pos), |Body(f.hdr, f.payload)|);
    SentHeader(f.hdr, f.payload);
    WrittenFits(Room(pos), f.hdr, f.payload, useCrc);
    RoundTrip(f.hdr, f.payload, Room(pos), useCrc, Granted, rest);
  }

  lemma GoodIsWhole(pos: nat, f: Fpdu)
    requires Good(pos, f)
    ensures !LoneHeader(f.hdr, f.payload, Room(pos))
  {
    LoneBody(f.hdr, f.payload);
  }

  lemma {:induction false} AllHeaders(pos: nat, fs: seq<Fpdu>)
    requires AllGood(pos, fs)
    ensures Headers(fs)
    decreases fs
  {
    hide Header, Wire;
    if fs != [] {
      AllHeaders(pos + |Wire(pos, fs[0])|, fs[1..]);
      assert fs == [fs[0]] + fs[1..];
    }
  }

  lemma {:induction false} WriterInStep(pos: nat, useCrc: bool, fs: seq<Fpdu>)
    requires AllGood(pos, fs)
    ensures Headers(fs)
    ensures WriteAll(Wrap(pos), Wrap(NextMark(pos)), useCrc, fs)
         == WriteRun(SendAll(pos, useCrc, fs), Wrap(End(pos, fs)), Wrap(NextMark(End(pos, fs))))
    decreases fs
  {
    hide CrcOf, WireOf, Wrap, NextMark, Room, Header, Aligned, Marks, Body, NumMrkrs;
    AllHeaders(pos, fs);
    if fs != [] {
      var f := fs[0];
      var w := Wire(pos, f);
      WriterInStep(pos + |w|, useCrc, fs[1..]);
      WrapRoom(pos);
      WireLength(pos, f);
      StayInStep(pos, |Body(f.hdr, f.payload)|);
    }
  }

  lemma {:induction false} ReaderInStep(pos: nat, useCrc: bool, fs: seq<Fpdu>, rest: Bytes)
    requires AllGood(pos, fs)
    ensures ReadAll(Wrap(pos), Wrap(NextMark(pos)), useCrc, |fs|, SendAll(pos, useCrc, fs) + rest)
         == ReadRun(ExpectedAll(pos, useCrc, fs), Wrap(End(pos, fs)), Wrap(NextMark(End(pos, fs))), rest)
    decreases fs
  {
    hide Parse, CrcOf, WireOf, Wrap, NextMark, Room, Header, Aligned, Marks, Body, Pointers, Sent;
    if fs == [] {
      assert [] + rest == rest;
    } else {
      var f := fs[0];
      var w := Wire(pos, f);
      var crc := CrcOf(useCrc, w);
      var later := SendAll(pos + |w|, useCrc, fs[1..]);
      ReaderInStep(pos + |w|, useCrc, fs[1..], rest);
      GoodIsWhole(pos, f);
      FitTrip(pos, f, useCrc, later + rest);
      WrapRoom(pos);
      assert w + crc + later + rest == w + crc + (later + rest);
      assert (w + crc + (later + rest))[|w| + |crc|..] == later + rest;
      WireLength(pos, f);
      StayInStep(pos, |Body(f.hdr, f.payload)|);
    }
  }

  /** A reader that starts in step takes in, one by one, all FPDUs that the writer lays out
      with its own counters, leaves what follows untouched, and at the end both have the
      same positions, those of the stream. */
  lemma RunRoundTrip(pos: nat, useCrc: bool, fs: seq<Fpdu>, rest: Bytes)
    requires AllGood(pos, fs)
    ensures Headers(fs)
    ensures var sp, mp := Wrap(pos), Wrap(NextMark(pos));
            var w := WriteAll(sp, mp, useCrc, fs);
            var r := ReadAll(sp, mp, useCrc, |fs|, w.bytes + rest);
            && w.bytes == SendAll(pos, useCrc, fs)
            && r.got == ExpectedAll(pos, useCrc, fs) && r.rest == rest
            && r.sp == w.sp == Wrap(End(pos, fs)) && r.mp == w.mp == Wrap(NextMark(End(pos, fs)))
  {
    hide WriteAll, ReadAll, SendAll, ExpectedAll, Wrap, NextMark, AllGood, Headers;
    WriterInStep(pos, useCrc, fs);
    ReaderInStep(pos, useCrc, fs, rest);
  }

  lemma WireLength(pos: nat, f: Fpdu)
    requires Header(f.hdr)
    ensures |Wire(pos, f)| == |Body(f.hdr, f.payload)| + MARKER_SZ * MarksOf(f.hdr, f.payload, Room(pos))
    ensures |Expected(f.hdr, f.payload, Room(pos), true).marks| == MarksOf(f.hdr, f.payload, Room(pos))
         == Marks(0, Room(pos), |Body(f.hdr, f.payload)|)
  {
    hide Lay, Room, Body, Marks;
    LayLength(0, Room(pos), Body(f.hdr, f.payload));
  }

  /** Over any run, on any stream, the reader stays on word boundaries and its marker
      position ahead by less than 512. */
  lemma {:induction false} ReaderRoom(sp: nat, mp: nat, useCrc: bool, n: nat, stream: Bytes)
    requires sp < TWO32 && mp < TWO32 && Wrap(mp - sp) < MARKER_PERIOD && Aligned(Wrap(mp - sp))
    ensures var r := ReadAll(sp, mp, useCrc, n, stream);
            Wrap(r.mp - r.sp) < MARKER_PERIOD && Aligned(Wrap(r.mp - r.sp))
    decreases n
  {
    hide Parse, Wrap, Aligned;
    if n > 0 {
      var room := Wrap(mp - sp);
      match Parse(room, useCrc, Granted, stream) {
        case Frame(ret, hdr, payload, marks, wire, crc) =>
          if |wire| + |crc| <= |stream| {
            FrameRoom(room, useCrc, Granted, stream);
            var sp', mp' := Wrap(sp + |wire|), Wrap(mp + MARKER_PERIOD * |marks|);
            NextRoom(sp, mp, |wire|, MARKER_PERIOD * |marks|);
            ReaderRoom(sp', mp', useCrc, n - 1, stream[|wire| + |crc|..]);
          }
        case _ =>
      }
    }
  }

  lemma NextRoom(sp: nat, mp: nat, n: nat, m: nat)
    requires 0 <= Wrap(mp - sp) + m - n < TWO32
    ensures Wrap(Wrap(mp + m) - Wrap(sp + n)) == Wrap(mp - sp) + m - n
  {
    WrapDiff(mp + m, sp + n);
    WrapAdd(mp - sp, m - n);
    WrapIs(Wrap(mp - sp) + m - n);
  }

  lemma WrapIs(x: int)
    requires 0 <= x < TWO32
    ensures Wrap(x) == x
  {
  }

  // ----- the stream with the checksum fields taken out -----

  function CrcLess(pos: nat, fs: seq<Fpdu>): Bytes
    requires AllGood(pos, fs)
    decreases fs
  {
    if fs == [] then []
    else
      var w := Wire(pos, fs[0]);
      w + CrcLess(pos + |w|, fs[1..])
  }

  function Bodies(fs: seq<Fpdu>): Bytes
    requires Headers(fs)
  {
    if fs == [] then [] else Body(fs[0].hdr, fs[0].payload) + Bodies(fs[1..])
  }

  /** Where the FPDU that covers offset k begins. */
  function StartOf(pos: nat, fs: seq<Fpdu>, k: nat): (start: nat)
    requires AllGood(pos, fs) && k < |CrcLess(pos, fs)|
    ensures pos <= start <= pos + k
    decreases fs
  {
    var w := Wire(pos, fs[0]);
    if k < |w| then pos else StartOf(pos + |w|, fs[1..], k - |w|)
  }

  lemma WireIsWeave(pos: nat, f: Fpdu)
    requires Header(f.hdr)
    ensures Wire(pos, f) == Weave(pos, pos, Body(f.hdr, f.payload))
  {
    hide Lay, Weave, Body, Header;
    LayIsWeave(pos, 0, Room(pos), Body(f.hdr, f.payload));
  }

  /** Over the whole run a marker sits at every multiple of 512 of that stream, and points
      to the start of its FPDU. */
  lemma {:induction false} MarkersEvery512(pos: nat, fs: seq<Fpdu>, k: nat)
    requires AllGood(pos, fs) && k < |CrcLess(pos, fs)| && Due(pos + k)
    ensures k + MARKER_SZ <= |CrcLess(pos, fs)|
    ensures CrcLess(pos, fs)[k..k + MARKER_SZ] == Marker(pos + k - StartOf(pos, fs, k))
    decreases fs
  {
    hide Marker, Wire, Weave, Good, Due, Header, Body, Aligned;
    assert Header(fs[0].hdr) by { GoodHeader(pos, fs); }
    var w := Wire(pos, fs[0]);
    var later := CrcLess(pos + |w|, fs[1..]);
    if k < |w| {
      WireIsWeave(pos, fs[0]);
      MarkerAt(pos, pos, Body(fs[0].hdr, fs[0].payload), k);
      assert (w + later)[k..k + MARKER_SZ] == w[k..k + MARKER_SZ];
    } else {
      MarkersEvery512(pos + |w|, fs[1..], k - |w|);
      Later(w, later, k);
    }
  }

  lemma GoodHeader(pos: nat, fs: seq<Fpdu>)
    requires AllGood(pos, fs) && fs != []
    ensures Header(fs[0].hdr)
  {
  }

  /** Which FPDU covers offset k. */
  function IndexOf(pos: nat, fs: seq<Fpdu>, k: nat): (n: nat)
    requires AllGood(pos, fs) && k < |CrcLess(pos, fs)|
    ensures n < |fs|
    decreases fs
  {
    var w := Wire(pos, fs[0]);
    if k < |w| then 0 else 1 + IndexOf(pos + |w|, fs[1..], k - |w|)
  }

  /** Where that offset is once the checksum fields are in. */
  function SentAt(pos: nat, useCrc: bool, fs: seq<Fpdu>, k: nat): nat
    requires AllGood(pos, fs) && k < |CrcLess(pos, fs)|
  {
    k + CrcLen(useCrc) * IndexOf(pos, fs, k)
  }

  lemma Between(a: Bytes, c: Bytes, b: Bytes, k: nat)
    requires k + MARKER_SZ <= |b|
    ensures (a + c + b)[|a| + |c| + k..|a| + |c| + k + MARKER_SZ] == b[k..k + MARKER_SZ]
  {
  }

  /** In the bytes that are sent every marker is there too, later by the checksum fields
      before it, and so at a multiple of 512 exactly for one FPDU in 128. */
  lemma {:induction false} MarkersSent(pos: nat, useCrc: bool, fs: seq<Fpdu>, k: nat)
    requires AllGood(pos, fs) && k < |CrcLess(pos, fs)| && Due(pos + k)
    ensures var j := SentAt(pos, useCrc, fs, k);
            && j + MARKER_SZ <= |SendAll(pos, useCrc, fs)|
            && SendAll(pos, useCrc, fs)[j..j + MARKER_SZ] == Marker(pos + k - StartOf(pos, fs, k))
            && (Due(pos + j) <==> !useCrc || IndexOf(pos, fs, k) % 128 == 0)
    decreases fs
  {
    hide Marker, Wire, Weave, AllGood, Due, Header, Body, CrcOf, SendAll, CrcLess, IndexOf, StartOf, SentAt, CrcLen;
    Unfold(pos, useCrc, fs, k);
    SentDue(pos, useCrc, fs, k);
    SentNext(pos, useCrc, fs, k);
    var w := Wire(pos, fs[0]);
    var crc, later := CrcOf(useCrc, w), SendAll(pos + |w|, useCrc, fs[1..]);
    if k < |w| {
      WireIsWeave(pos, fs[0]);
      MarkerAt(pos, pos, Body(fs[0].hdr, fs[0].payload), k);
      InFront(w, crc, later, k);
    } else {
      MarkersSent(pos + |w|, useCrc, fs[1..], k - |w|);
      Between(w, crc, later, SentAt(pos + |w|, useCrc, fs[1..], k - |w|));
    }
  }

  lemma InFront(a: Bytes, c: Bytes, b: Bytes, k: nat)
    requires k + MARKER_SZ <= |a|
    ensures (a + c + b)[k..k + MARKER_SZ] == a[k..k + MARKER_SZ]
  {
  }

  lemma SentDue(pos: nat, useCrc: bool, fs: seq<Fpdu>, k: nat)
    requires AllGood(pos, fs) && k < |CrcLess(pos, fs)| && Due(pos + k)
    ensures Due(pos + SentAt(pos, useCrc, fs, k)) <==> !useCrc || IndexOf(pos, fs, k) % 128 == 0
  {
    hide AllGood, CrcLess, IndexOf, Due;
    DueLater(pos + k, IndexOf(pos, fs, k));
  }

  lemma SentNext(pos: nat, useCrc: bool, fs: seq<Fpdu>, k: nat)
    requires AllGood(pos, fs) && k < |CrcLess(pos, fs)|
    ensures fs != [] && Header(fs[0].hdr)
    ensures var w := Wire(pos, fs[0]);
            && AllGood(pos + |w|, fs[1..])
            && (k < |w| ==> SentAt(pos, useCrc, fs, k) == k)
            && (k >= |w| ==>
                  && k - |w| < |CrcLess(pos + |w|, fs[1..])|
                  && SentAt(pos, useCrc, fs, k)
                  == |w| + CrcLen(useCrc) + SentAt(pos + |w|, useCrc, fs[1..], k - |w|))
  {
    hide Wire, AllGood, CrcLess, IndexOf, StartOf, CrcLen, SendAll, Header;
    Unfold(pos, useCrc, fs, k);
    var w := Wire(pos, fs[0]);
    if k >= |w| {
      NextIndex(useCrc, IndexOf(pos + |w|, fs[1..], k - |w|));
    } else {
      NoIndex(useCrc);
    }
  }

  lemma NoIndex(useCrc: bool)
    ensures CrcLen(useCrc) * 0 == 0
  {
  }

  /** The first FPDU and the others. */
  lemma Unfold(pos: nat, useCrc: bool, fs: seq<Fpdu>, k: nat)
    requires AllGood(pos, fs) && k < |CrcLess(pos, fs)|
    ensures fs != [] && Header(fs[0].hdr) && AllGood(pos + |Wire(pos, fs[0])|, fs[1..])
    ensures var w := Wire(pos, fs[0]);
            && SendAll(pos, useCrc, fs) == w + CrcOf(useCrc, w) + SendAll(pos + |w|, useCrc, fs[1..])
            && (k < |w| ==> IndexOf(pos, fs, k) == 0 && StartOf(pos, fs, k) == pos)
            && (k >= |w| ==>
                  && k - |w| < |CrcLess(pos + |w|, fs[1..])|
                  && IndexOf(pos, fs, k) == 1 + IndexOf(pos + |w|, fs[1..], k - |w|)
                  && StartOf(pos, fs, k) == StartOf(pos + |w|, fs[1..], k - |w|))
  {
    hide Wire, Header, CrcOf;
  }

  lemma NextIndex(useCrc: bool, n: nat)
    ensures CrcLen(useCrc) * (1 + n) == CrcLen(useCrc) + CrcLen(useCrc) * n
  {
  }

  lemma DueLater(x: nat, n: nat)
    requires Due(x)
    ensures Due(x + CRC_SZ * n) <==> n % 128 == 0
    ensures x + CrcLen(false) * n == x
  {
    var q := x / MARKER_PERIOD;
    assert x + CRC_SZ * n == MARKER_PERIOD * q + CRC_SZ * n;
  }

  lemma FiveHundred(f: Fpdu, pos: nat)
    requires Header(f.hdr) && |f.hdr| == 16 && |f.payload| == 484 && (pos == 0 || pos == 504)
    ensures Good(pos, f) && |Wire(pos, f)| == 504 && |Body(f.hdr, f.payload)| == 500
  {
    hide WireOf;
    WireLength(pos, f);
  }

  lemma TwoGood(f: Fpdu)
    requires Header(f.hdr) && |f.hdr| == 16 && |f.payload| == 484
    ensures AllGood(0, [f, f]) && |CrcLess(0, [f, f])| == 1008
    ensures IndexOf(0, [f, f], 512) == 1 && StartOf(0, [f, f], 512) == 504
  {
    hide Wire, Good;
    FiveHundred(f, 0);
    FiveHundred(f, 504);
    var fs := [f, f];
    assert fs[1..] == [f] && [f][1..] == [];
    assert AllGood(1008, []) && AllGood(504, [f]);
    assert AllGood(0, fs);
    assert CrcLess(504, [f]) == Wire(504, f) + CrcLess(1008, []);
    assert CrcLess(0, fs) == Wire(0, f) + CrcLess(504, [f]);
    Unfold(0, true, fs, 512);
    Unfold(504, true, [f], 8);
  }

  /** A run that misses it: the second of two FPDUs of 500 bytes has its marker at
      offset 516 instead of 512. */
  lemma SpacingFails(f: Fpdu)
    requires Header(f.hdr) && |f.hdr| == 16 && |f.payload| == 484
    ensures var fs := [f, f];
            && AllGood(0, fs) && 520 <= |SendAll(0, true, fs)|
            && SendAll(0, true, fs)[516..520] == Marker(8) && !Due(516)
  {
    hide Wire, Good, CrcOf, Marker, AllGood, CrcLess, IndexOf, StartOf, SendAll;
    TwoGood(f);
    MarkersSent(0, true, [f, f], 512);
  }

  /** And nowhere else: without those markers the stream is the FPDUs' contents. */
  lemma {:induction false} NoOtherMarkers(pos: nat, fs: seq<Fpdu>)
    requires AllGood(pos, fs)
    ensures Headers(fs)
    ensures Strip(pos, CrcLess(pos, fs)) == Bodies(fs)
    decreases fs
  {
    hide Marker, Wire, Weave, Good, Due, Header, Body, Aligned, Strip, Headers;
    AllHeaders(pos, fs);
    if fs == [] {
      StripNothing(pos);
    } else {
      GoodHeader(pos, fs);
      var body := Body(fs[0].hdr, fs[0].payload);
      var w := Wire(pos, fs[0]);
      WireIsWeave(pos, fs[0]);
      StripThen(pos, pos, body, CrcLess(pos + |w|, fs[1..]));
      NoOtherMarkers(pos + |w|, fs[1..]);
    }
  }

  lemma StripNothing(pos: nat)
    ensures Strip(pos, []) == []
  {
  }

  // ----- the two ends as they run -----

  /** mpa_wrt_mrkr_fpdu with its call of writev_full. Only with the right length does the
      FPDU go out whole and no more; with checksums on and an FPDU that ends on the marker
      position success may mean that the checksum field is missing; without checksums and
      with any other FPDU there is no success. */
  method SendMarked(e: Endpoint, s: Socket, f: Fpdu, ghost pos: nat) returns (ret: int, past: bool)
    requires e.Valid() && InStep(e.sendSp, e.sendMp, pos) && Fit(pos, f)
    modifies e`sendSp, e`sendMp, s`sent
    ensures e.Valid()
    ensures InStep(e.sendSp, e.sendMp, pos + |Wire(pos, f)|) <==> |Body(f.hdr, f.payload)| != Room(pos)
    ensures var wire := Wire(pos, f);
            var fpdu := wire + CrcOf(e.useCrc, wire);
            var meets := |Body(f.hdr, f.payload)| == Room(pos);
            && (e.useCrc != meets ==> !past && (ret >= 0 ==> s.sent == old(s.sent) + fpdu))
            && (e.useCrc && meets && !past && ret >= 0 ==> s.sent == old(s.sent) + wire)
            && (!e.useCrc && !meets ==> past || ret < 0)
            && (past ==> s.sent == old(s.sent) + fpdu)
            && (ret < 0 ==> old(s.sent) <= s.sent <= old(s.sent) + fpdu)
  {
    hide Lay, Flat, Header, Body, CrcField, Marks, NumMrkrs, Wrap, NextMark, Room, Aligned, HdrSz;
    WrapRoom(pos);
    var blks, fpduLen := e.WriteMarked(f.hdr, f.payload);
    LengthRight(f.hdr, f.payload, Room(pos), e.useCrc);
    LengthOff(f.hdr, f.payload, Room(pos), e.useCrc);
    StayInStep(pos, |Body(f.hdr, f.payload)|);
    WireLength(pos, f);
    ghost var wire := Wire(pos, f);
    ghost var fpdu := wire + CrcOf(e.useCrc, wire);
    assert Flat(blks) == fpdu;
    assert fpdu[..|fpdu|] == fpdu && fpdu[..|wire|] == wire;
    ret, past := s.WritevFull(blks, fpduLen);
  }

  /** The two ways in which the length is wrong. */
  lemma LengthOff(hdr: Bytes, payload: Bytes, mp: nat, useCrc: bool)
    requires Header(hdr)
    ensures var wire := WireOf(hdr, payload, mp);
            var l := |Body(hdr, payload)|;
            var len := l + MARKER_SZ * NumMrkrs(l, mp) + CRC_SZ;
            && (useCrc && l == mp ==> len == |wire|)
            && (!useCrc && l != mp ==> len == |wire| + CRC_SZ)
  {
    hide Lay, Body;
    LayLength(0, mp, Body(hdr, payload));
  }

  /** mpa_rd_mrkr_fpdu on a stream that begins with such an FPDU. */
  method ReceiveMarked(e: Endpoint, s: Socket, ghost f: Fpdu, ghost pos: nat, ghost rest: Bytes) returns (r: Outcome)
    requires e.Valid() && InStep(e.recvSp, e.recvMp, pos) && Fit(pos, f) && !LoneHeader(f.hdr, f.payload, Room(pos))
    requires s.input == Wire(pos, f) + CrcOf(e.useCrc, Wire(pos, f)) + rest
    modifies e`recvSp, e`recvMp, s`input
    ensures e.Valid() && InStep(e.recvSp, e.recvMp, pos + |Wire(pos, f)|)
    ensures r == Expected(f.hdr, f.payload, Room(pos), e.useCrc) && s.input == rest
  {
    hide Lay, Flat, Header, Body, CrcField, Marks, NumMrkrs, Wrap, NextMark, Room, Aligned, HdrSz, Parse, Granted,
         PtrsOk, Sent, Pointers, BlocksUsed;
    WrapRoom(pos);
    FitTrip(pos, f, e.useCrc, rest);
    StayInStep(pos, |Body(f.hdr, f.payload)|);
    WireLength(pos, f);
    var complained, bidx;
    r, complained, bidx := ReadMarked(e, s, Granted);
    Leftover(r.wire + r.crc, s.input, rest);
    assert !complained;
  }

  lemma Leftover(a: Bytes, b: Bytes, c: Bytes)
    requires a + b == a + c
    ensures b == c
  {
    assert (a + b)[|a|..] == b && (a + c)[|a|..] == c;
  }
}
