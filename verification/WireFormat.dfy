/** The bytes on the wire, one by one: headers, FPDU contents, markers and read requests,
    with every constant and byte order written out. */
module WireFormat {
  import opened MpaLayout
  import opened MpaWriter
  import opened MpaRoundTrip
  import opened DdpSegments
  import opened DdpWire
  import opened MpaRun
  import R = Rdmap

  // ----- numbers as bytes -----

  /** The four bytes from `at` on are v, highest first. */
  predicate Big4(b: Bytes, at: nat, v: nat) {
    && at + 4 <= |b|
    && b[at] == v / 0x100_0000 % 0x100 && b[at + 1] == v / 0x1_0000 % 0x100
    && b[at + 2] == v / 0x100 % 0x100 && b[at + 3] == v % 0x100
  }

  /** The same, lowest first. */
  predicate Little4(b: Bytes, at: nat, v: nat) {
    && at + 4 <= |b|
    && b[at] == v % 0x100 && b[at + 1] == v / 0x100 % 0x100
    && b[at + 2] == v / 0x1_0000 % 0x100 && b[at + 3] == v / 0x100_0000 % 0x100
  }

  predicate Big8(b: Bytes, at: nat, v: nat) { Big4(b, at, v / 0x1_0000_0000) && Big4(b, at + 4, v) }

  predicate Little8(b: Bytes, at: nat, v: nat) { Little4(b, at, v) && Little4(b, at + 4, v / 0x1_0000_0000) }

  lemma Divisions(v: nat)
    ensures v / 256 / 256 == v / 0x1_0000 && v / 256 / 256 / 256 == v / 0x100_0000
    ensures v / 256 / 256 / 256 / 256 == v / 0x1_0000_0000
  {
  }

  lemma BeStep(v: nat, width: nat)
    requires width > 0
    ensures Be(v, width) == Be(v / 256, width - 1) + [v % 256]
  {
  }

  lemma LeStep(v: nat, width: nat)
    requires width > 0
    ensures R.Le(v, width) == [v % 256] + R.Le(v / 256, width - 1)
  {
  }

  lemma BeFour(v: nat, width: nat)
    requires width >= 4
    ensures Be(v, width) == Be(v / 0x1_0000_0000, width - 4) + Be(v, 4)
    ensures Big4(Be(v, 4), 0, v)
  {
    hide Be;
    Divisions(v);
    var a, b, c := v / 256, v / 256 / 256, v / 256 / 256 / 256;
    BeStep(v, width);
    BeStep(a, width - 1);
    BeStep(b, width - 2);
    BeStep(c, width - 3);
    BeStep(v, 4);
    BeStep(a, 3);
    BeStep(b, 2);
    BeStep(c, 1);
    assert Be(v, 4) == [c % 256, b % 256, a % 256, v % 256];
  }

  lemma LeFour(v: nat, width: nat)
    requires width >= 4
    ensures R.Le(v, width) == R.Le(v, 4) + R.Le(v / 0x1_0000_0000, width - 4)
    ensures Little4(R.Le(v, 4), 0, v)
  {
    hide R.Le;
    Divisions(v);
    var a, b, c := v / 256, v / 256 / 256, v / 256 / 256 / 256;
    LeStep(v, width);
    LeStep(a, width - 1);
    LeStep(b, width - 2);
    LeStep(c, width - 3);
    LeStep(v, 4);
    LeStep(a, 3);
    LeStep(b, 2);
    LeStep(c, 1);
    assert R.Le(v, 4) == [v % 256, a % 256, b % 256, c % 256];
  }

  lemma BeEight(v: nat)
    ensures Big8(Be(v, 8), 0, v)
  {
    hide Be;
    BeFour(v, 8);
    BeFour(v / 0x1_0000_0000, 4);
  }

  lemma LeEight(v: nat)
    ensures Little8(R.Le(v, 8), 0, v)
  {
    hide R.Le;
    LeFour(v, 8);
    LeFour(v / 0x1_0000_0000, 4);
  }

  // ----- one FPDU without its markers -----

  /** The header, with its first two bytes replaced by the length of all that follows them up
      to the pad, highest byte first; the payload; zeros up to a multiple of four. */
  lemma BodyBytes(hdr: Bytes, payload: Bytes)
    requires Header(hdr)
    ensures |hdr| == if hdr[2] >= 0x80 then 16 else 20
    ensures var b, n := Body(hdr, payload), |hdr| + |payload|;
            && n <= |b| < n + 4 && |b| % 4 == 0
            && b[0] == (n - 2) / 0x100 % 0x100 && b[1] == (n - 2) % 0x100
            && (forall k :: 2 <= k < |hdr| ==> b[k] == hdr[k])
            && (forall k :: 0 <= k < |payload| ==> b[|hdr| + k] == payload[k])
            && (forall k :: n <= k < |b| ==> b[k] == 0)
  {
    hide Zeros;
    var b, n := Body(hdr, payload), |hdr| + |payload|;
    forall k | n <= k < |b| ensures b[k] == 0 {
      ZerosAt(Pad(n), k - n);
    }
  }

  // ----- the headers of the segments -----

  /** DDP and RDMAP version 1; TAGGED is 0x80 and LAST 0x40; an RDMA Write is 0, a read
      request 1, a read response 2, a send 3. */
  predicate ControlBytes(h: Bytes, tagged: bool, last: bool, op: Opcode) {
    && |h| >= 4
    && h[2] == 0x01 + (if tagged then 0x80 else 0) + (if last then 0x40 else 0)
    && h[3] == 0x40 + match op case RdmaWrite => 0 case RdmaReadReq => 1 case RdmaReadResp => 2 case Send => 3
  }

  /** Numbers go out highest byte first, the reserved word as zero. */
  lemma HeaderBytes(g: Segment)
    ensures var h := HdrOf(g);
            match g
            case Tagged(stag, to, op, last, _) =>
              |h| == 16 && ControlBytes(h, true, last, op) && Big4(h, 4, stag) && Big8(h, 8, to)
            case Untagged(qn, msn, mo, op, last, _) =>
              && |h| == 20 && ControlBytes(h, false, last, op)
              && Big4(h, 4, 0) && Big4(h, 8, qn) && Big4(h, 12, msn) && Big4(h, 16, mo)
  {
    hide HdrOf, ControlBytes, Big4, Big8;
    match g {
      case Tagged(stag, to, op, last, data) => TaggedBytes(stag, to, op, last, data);
      case Untagged(qn, msn, mo, op, last, data) => UntaggedBytes(qn, msn, mo, op, last, data);
    }
  }

  lemma TaggedBytes(stag: nat, to: nat, op: Opcode, last: bool, data: Bytes)
    ensures var h := HdrOf(Tagged(stag, to, op, last, data));
            |h| == 16 && ControlBytes(h, true, last, op) && Big4(h, 4, stag) && Big8(h, 8, to)
  {
    hide Be;
    BeFour(stag, 4);
    BeEight(to);
  }

  lemma UntaggedBytes(qn: nat, msn: nat, mo: nat, op: Opcode, last: bool, data: Bytes)
    ensures var h := HdrOf(Untagged(qn, msn, mo, op, last, data));
            && |h| == 20 && ControlBytes(h, false, last, op)
            && Big4(h, 4, 0) && Big4(h, 8, qn) && Big4(h, 12, msn) && Big4(h, 16, mo)
  {
    hide Be;
    BeFour(0, 4);
    BeFour(qn, 4);
    BeFour(msn, 4);
    BeFour(mo, 4);
  }

  // ----- the payload of a read request -----

  /** Host order of a little-endian machine, at the offsets of the struct, the gap zeroed. */
  lemma RequestBytes(r: R.ReadReq)
    ensures var b := R.EncodeReq(r);
            && |b| == 32 && Little4(b, 0, r.sinkStag) && Little4(b, 4, 0) && Little8(b, 8, r.sinkTo)
            && Little4(b, 16, r.size) && Little4(b, 20, r.srcStag) && Little8(b, 24, r.srcTo)
  {
    hide R.Le;
    LeFour(r.sinkStag, 4);
    LeFour(0, 4);
    LeEight(r.sinkTo);
    LeFour(r.size, 4);
    LeFour(r.srcStag, 4);
    LeEight(r.srcTo);
  }

  // ----- markers -----

  lemma {:induction false} StartIs(pos: nat, fs: seq<Fpdu>, k: nat)
    requires AllGood(pos, fs) && k < |CrcLess(pos, fs)|
    ensures var n, start := IndexOf(pos, fs, k), StartOf(pos, fs, k);
            && AllGood(pos, fs[..n]) && start == pos + |CrcLess(pos, fs[..n])|
            && Header(fs[n].hdr) && start <= pos + k < start + |Wire(start, fs[n])|
    decreases fs
  {
    hide Wire, Good, Header;
    GoodHeader(pos, fs);
    var w := Wire(pos, fs[0]);
    if k < |w| {
      assert fs[..0] == [];
    } else {
      StartIs(pos + |w|, fs[1..], k - |w|);
      var n := IndexOf(pos, fs, k);
      assert fs[..n][0] == fs[0] && fs[..n][1..] == fs[1..][..n - 1];
    }
  }

  /** At every multiple of 512 of the stream without checksum fields: two zero bytes, then
      how far back the FPDU that covers it begins, low byte first. */
  lemma MarkerBytes(pos: nat, fs: seq<Fpdu>, k: nat)
    requires AllGood(pos, fs) && k < |CrcLess(pos, fs)| && (pos + k) % 512 == 0
    ensures var n, s := IndexOf(pos, fs, k), CrcLess(pos, fs);
            && AllGood(pos, fs[..n]) && |CrcLess(pos, fs[..n])| <= k
            && var back := k - |CrcLess(pos, fs[..n])|;
            && k + 4 <= |s| && s[k] == s[k + 1] == 0 && s[k + 2] == back % 256 && s[k + 3] == back / 256 % 256
  {
    hide AllGood, CrcLess, IndexOf, StartOf, Wire, Header, Marker;
    StartIs(pos, fs, k);
    MarkersEvery512(pos, fs, k);
    var back := pos + k - StartOf(pos, fs, k);
    var s := CrcLess(pos, fs);
    assert s[k..k + 4] == Marker(back);
    MarkerIs(back);
    assert s[k] == s[k..k + 4][0] && s[k + 1] == s[k..k + 4][1];
    assert s[k + 2] == s[k..k + 4][2] && s[k + 3] == s[k..k + 4][3];
  }

  lemma MarkerIs(ptr: nat)
    ensures Marker(ptr) == [0, 0, ptr % 256, ptr / 256 % 256]
  {
  }
}
