/** The runs of RdmapRun are over a FIFO of segments. Here that FIFO is the byte stream:
    every segment of a run fits its header fields, so FPDUs without markers carry it. */
module RdmapBytes {
  import opened MpaLayout
  import opened MpaWriter
  import opened MpaRoundTrip
  import opened DdpSegments
  import opened DdpWire
  import opened DdpSink
  import opened Rdmap
  import opened RdmapWorld
  import opened RdmapRun
  import opened RdmapTheorems

  /** Payload limits that leave room for the header in the sixteen-bit length. */
  predicate ShortPdus(c: Config) { c.maxU + 20 < 0x1_0000 && c.maxT + 16 < 0x1_0000 }

  /** What the user asks for has 32-bit lengths and tags, and addresses that end by 2^64;
      and the lengths leave the count of segments, here or at the peer that answers a read,
      below 2^32. */
  predicate InFields(c: Config, peer: Config, a: Action) {
    match a
    case DoSendAct(data, id) => |data| + c.maxU <= TWO32
    case DoWriteAct(data, stag, to, id) => stag < Pow256(4) && to + |data| <= Pow256(8) && |data| + c.maxT <= TWO32
    case DoReadAct(r, id) => r.sinkTo + r.size <= Pow256(8) && r.size + peer.maxT <= TWO32
    case _ => true
  }

  // ----- segments of one message -----

  predicate MsgFits(m: Msg) {
    match m.d
    case ToQueue(qn, msn, op) => qn < Pow256(4) && msn < Pow256(4) && |m.data| < Pow256(4)
    case ToTag(stag, to, op) => stag < Pow256(4) && to + |m.data| <= Pow256(8) && m.data != []
  }

  lemma SegFits(m: Msg, off: nat, last: bool, data: Bytes)
    requires MsgFits(m) && off + |data| <= |m.data| && (m.d.ToTag? ==> off < |m.data|)
    requires |data| + (if m.d.ToTag? then 16 else 20) < 0x1_0000
    ensures Fits(Seg(m.d, off, last, data))
  {
    hide Pow256, Be;
  }

  lemma {:induction false} CutFits(m: Msg, max: nat, off: nat)
    requires MsgFits(m) && off <= |m.data| && (m.d.ToTag? ==> off < |m.data|)
    requires 0 < max && max + (if m.d.ToTag? then 16 else 20) < 0x1_0000
    ensures forall g :: g in Cut(m.d, max, m.data, off) ==> Fits(g)
    decreases |m.data| - off
  {
    hide Fits, MsgFits, Seg;
    if |m.data| - off <= max {
      SegFits(m, off, true, m.data[off..]);
    } else {
      SegFits(m, off, false, m.data[off..off + max]);
      CutFits(m, max, off + max);
    }
  }

  lemma {:induction false} FlowFits(c: Config, out: seq<Msg>)
    requires ConfigOk(c) && ShortPdus(c) && forall m :: m in out ==> MsgFits(m)
    ensures forall g :: g in Flow(c, out) ==> Fits(g)
    decreases out
  {
    hide Fits, MsgFits, Cut;
    if out != [] {
      var m := out[0];
      assert MsgFits(m);
      if !(m.d.ToTag? && m.data == []) {
        CutFits(m, Limit(c, m.d), 0);
      }
      FlowFits(c, out[1..]);
    }
  }

  // ----- messages of a run -----

  predicate AskFits(c: Config, m: Msg) {
    match m.d
    case ToQueue(_, _, _) => |m.data| + c.maxU <= TWO32
    case ToTag(stag, to, op) =>
      op == RdmaWrite ==> stag < Pow256(4) && to + |m.data| <= Pow256(8) && |m.data| + c.maxT <= TWO32
  }

  predicate IssueFits(peer: Config, i: Issue) {
    i.req.sinkTo + i.req.size <= Pow256(8) && i.req.size + peer.maxT <= TWO32
  }

  /** What one end has been asked for so far. */
  predicate AskedFits(c: Config, peer: Config, h: Hist) {
    (forall m :: m in h.out ==> AskFits(c, m)) && (forall i :: i in h.issued ==> IssueFits(peer, i))
  }

  lemma FieldSizes()
    ensures Pow256(4) == TWO32 && Pow256(8) == TWO64
  {
    assert Pow256(2) == 0x1_0000;
    assert Pow256(4) == TWO32;
    assert Pow256(6) == 0x1_0000_0000_0000;
  }

  lemma NoteAsked(e: End, peer: Config, t: St, g: Segment)
    requires AskedFits(e.c, peer, e.h)
    ensures AskedFits(e.c, peer, Note(e, t, g))
  {
    hide Pow256, Mark, Ready, Finished, Window, DecodeReq;
  }

  lemma ActAsked(e: End, peer: Config, sent: seq<Segment>, a: Action)
    requires AskedFits(e.c, peer, e.h) && InFields(e.c, peer, a) && ShortPdus(e.c)
    ensures var r := Act(e, sent, a); r.Just? ==> AskedFits(e.c, peer, r.v.h) && r.v.c == e.c
  {
    hide Pow256, EncodeReq, Note, Receive, Legal, EndOk, DoSend, DoWrite, DoRead, DoPost;
    if a == Poll && e.h.pos < |sent| && EndOk(e) {
      PollAsked(e, peer, sent);
    }
  }

  lemma PollAsked(e: End, peer: Config, sent: seq<Segment>)
    requires AskedFits(e.c, peer, e.h) && e.h.pos < |sent| && EndOk(e)
    ensures var r := Receive(e.c, e.s, sent[e.h.pos]);
            r.Just? ==> AskedFits(e.c, peer, Note(e, r.v, sent[e.h.pos]))
  {
    hide AskedFits, Note, Receive;
    if Receive(e.c, e.s, sent[e.h.pos]).Just? {
      NoteAsked(e, peer, Receive(e.c, e.s, sent[e.h.pos]).v, sent[e.h.pos]);
    }
  }

  predicate AllInFields(ca: Config, cb: Config, steps: seq<Step>) {
    forall s :: s in steps ==> if s.atA then InFields(ca, cb, s.act) else InFields(cb, ca, s.act)
  }

  /** Both ends have been asked for what fits. */
  predicate BothFit(w: World) { AskedFits(w.a.c, w.b.c, w.a.h) && AskedFits(w.b.c, w.a.c, w.b.h) }

  lemma {:induction false} RunAsked(w: World, steps: seq<Step>)
    requires BothFit(w) && AllInFields(w.a.c, w.b.c, steps) && ShortPdus(w.a.c) && ShortPdus(w.b.c)
    ensures var r := Run(w, steps); r.Just? ==> BothFit(r.v) && r.v.a.c == w.a.c && r.v.b.c == w.b.c
    decreases steps
  {
    hide Act, AskedFits, InFields, ShortPdus;
    if steps != [] {
      var s := steps[0];
      if s.atA {
        ActAsked(w.a, w.b.c, w.b.s.sent, s.act);
      } else {
        ActAsked(w.b, w.a.c, w.a.s.sent, s.act);
      }
      if Take(w, s).Just? {
        RunAsked(Take(w, s).v, steps[1..]);
      }
    }
  }

  lemma {:induction false} PickHas(out: seq<Msg>, k: Kind, m: Msg)
    requires m in out && Is(k, m)
    ensures m in Pick(out, k)
  {
    hide Is;
    var n := |out| - 1;
    if m != out[n] {
      assert out == out[..n] + [out[n]];
      PickHas(out[..n], k, m);
    }
  }

  lemma ServedAt(issued: seq<Issue>, n: nat, resps: seq<Msg>, served: seq<Bytes>, k: nat)
    requires ServedOk(issued, n, resps, served) && k < |resps|
    ensures k < |issued| && k < |served| && |served[k]| == issued[k].req.size
    ensures resps[k] == Msg(ToTag(issued[k].req.sinkStag, issued[k].req.sinkTo, RdmaReadResp), served[k])
  {
  }

  lemma IssuedAt(issued: seq<Issue>, reqs: seq<Msg>, k: nat)
    requires IssuedOk(issued, reqs) && k < |issued|
    ensures issued[k].req.sinkStag < Pow256(4)
  {
    hide Pow256;
  }

  /** A response answers a read that the peer has issued. */
  lemma RespFits(e: End, p: End, m: Msg)
    requires Inv(e, p) && AskedFits(p.c, e.c, p.h) && m in e.h.out && Is(KResp, m) && m.data != []
    ensures MsgFits(m) && |m.data| + e.c.maxT <= TWO32
  {
    hide Pick, Is, Pow256, Flow, MsgsOk, SenderOk, StreamOk, RecvsOk, OnlyReads, RecvCqes, ServedOk, IssuedOk, ReadsDone,
         OneTagEach, PartPlaced, Waiting, Sound;
    PickHas(e.h.out, KResp, m);
    var resps := Pick(e.h.out, KResp);
    var k :| 0 <= k < |resps| && resps[k] == m;
    var n := |Pick(p.h.out[..e.h.done], KRead)|;
    ServedAt(p.h.issued, n, resps, e.h.served, k);
    IssuedAt(p.h.issued, Pick(p.h.out, KRead), k);
    assert IssueFits(e.c, p.h.issued[k]);
  }

  lemma OutFits(e: End, p: End, m: Msg)
    requires Inv(e, p) && AskedFits(e.c, p.c, e.h) && AskedFits(p.c, e.c, p.h) && m in e.h.out
    ensures MsgFits(m) && |m.data| + Limit1(e.c, m.d) <= TWO32
  {
    hide Pick, Flow, ProgressOk, StreamOk, RecvsOk, Reads, Pow256;
    FieldSizes();
    var i :| 0 <= i < |e.h.out| && e.h.out[i] == m;
    assert MsgOkAt(e.h.out, i) && AskFits(e.c, m);
    if Is(KResp, m) {
      RespFits(e, p, m);
    }
  }

  /** The source's 32-bit count of segments is the number there are. */
  predicate CountRight(c: Config, m: Msg) {
    Limit1(c, m.d) > 0 && NumSegments32(|m.data|, Limit1(c, m.d)) == NumSegments(|m.data|, Limit1(c, m.d))
  }

  lemma CountFits(c: Config, m: Msg)
    requires ConfigOk(c) && ShortPdus(c) && |m.data| + Limit1(c, m.d) <= TWO32
    ensures CountRight(c, m)
  {
    hide NumSegments32, NumSegments;
    NumSegments32Right(|m.data|, Limit1(c, m.d));
  }

  /** Every segment of every run fits its header, and every message is cut into as many as
      the source counts. */
  lemma SegmentsFit(e: End, p: End)
    requires Inv(e, p) && ShortPdus(e.c) && AskedFits(e.c, p.c, e.h) && AskedFits(p.c, e.c, p.h)
    ensures forall g :: g in e.s.sent ==> Fits(g)
    ensures forall m :: m in e.h.out ==> CountRight(e.c, m)
  {
    hide Fits, MsgFits, Flow, MsgsOk, ProgressOk, StreamOk, RecvsOk, Reads, AskedFits, Pick, CountRight;
    forall m | m in e.h.out ensures MsgFits(m) && CountRight(e.c, m) {
      OutFits(e, p, m);
      CountFits(e.c, m);
    }
    FlowFits(e.c, e.h.out);
  }

  // ----- the stream of a run -----

  lemma {:induction false} StreamAppend(useCrc: bool, a: seq<Segment>, b: seq<Segment>)
    ensures PlainStream(useCrc, a + b) == PlainStream(useCrc, a) + PlainStream(useCrc, b)
    decreases a
  {
    hide HdrOf, CrcOf;
    if a == [] {
      assert a + b == b;
    } else {
      assert (a + b)[1..] == a[1..] + b;
      StreamAppend(useCrc, a[1..], b);
    }
  }

  /** Of the bytes that carry these segments, the first n FPDUs are the first n segments,
      and the rest of the bytes carry the others. */
  predicate DeliversFirst(useCrc: bool, sent: seq<Segment>, n: nat)
    requires n <= |sent|
  {
    ReadPlain(useCrc, n, PlainStream(useCrc, sent)) == Delivered(sent[..n], PlainStream(useCrc, sent[n..]))
  }

  lemma Carries(useCrc: bool, sent: seq<Segment>, n: nat)
    requires (forall g :: g in sent ==> Fits(g)) && n <= |sent|
    ensures DeliversFirst(useCrc, sent, n)
  {
    hide Fits, ReadPlain, PlainStream;
    assert sent == sent[..n] + sent[n..];
    StreamAppend(useCrc, sent[..n], sent[n..]);
    PlainDelivers(useCrc, sent[..n], PlainStream(useCrc, sent[n..]));
  }

  /** In every run, both ways, the bytes that carry what has been sent deliver it segment by
      segment, so that the FIFO of the run is what the stream holds. */
  lemma BytesTheorem(ca: Config, ma: Bytes, cb: Config, mb: Bytes, steps: seq<Step>, w: World, useCrc: bool, n: nat)
    requires Reached(ca, ma, cb, mb, steps, w) && ShortPdus(ca) && ShortPdus(cb) && AllInFields(ca, cb, steps)
    ensures n <= |w.a.s.sent| ==> DeliversFirst(useCrc, w.a.s.sent, n)
    ensures n <= |w.b.s.sent| ==> DeliversFirst(useCrc, w.b.s.sent, n)
  {
    hide Run, RunLegal, GoodConfig, AskedFits, Inv, ShortPdus, Fits, DeliversFirst, AllInFields, WorldOk;
    var start := World(Start(ca, ma), Start(cb, mb));
    NothingAsked(ca, ma, cb);
    NothingAsked(cb, mb, ca);
    RunAsked(start, steps);
    ReachedOk(ca, ma, cb, mb, steps, w);
    SegmentsFit(w.a, w.b);
    SegmentsFit(w.b, w.a);
    if n <= |w.a.s.sent| {
      Carries(useCrc, w.a.s.sent, n);
    }
    if n <= |w.b.s.sent| {
      Carries(useCrc, w.b.s.sent, n);
    }
  }

  /** And on their headers, at any state the other end gets to, ddp_get_sink refuses just
      what the run refuses, as long as memory ends well below 2^64. */
  lemma SinkTheorem(ca: Config, ma: Bytes, cb: Config, mb: Bytes, steps: seq<Step>, w: World, g: Segment)
    requires Reached(ca, ma, cb, mb, steps, w) && ShortPdus(ca) && ShortPdus(cb) && AllInFields(ca, cb, steps)
    requires |w.a.s.mem| + TWO32 <= TWO64 && |w.b.s.mem| + TWO32 <= TWO64
    ensures g in w.a.s.sent ==>
              && Steady(w.b.s) && Header(Sent(HdrOf(g), g.data))
              && (GetSink(w.b.s, Sent(HdrOf(g), g.data)).Just? <==> Place(w.b.s, g).Just?)
    ensures g in w.b.s.sent ==>
              && Steady(w.a.s) && Header(Sent(HdrOf(g), g.data))
              && (GetSink(w.a.s, Sent(HdrOf(g), g.data)).Just? <==> Place(w.a.s, g).Just?)
  {
    hide Run, RunLegal, GoodConfig, AskedFits, Inv, ShortPdus, Fits, AllInFields, GetSink, Place, HdrOf, Sent, Header;
    var start := World(Start(ca, ma), Start(cb, mb));
    NothingAsked(ca, ma, cb);
    NothingAsked(cb, mb, ca);
    RunAsked(start, steps);
    ReachedOk(ca, ma, cb, mb, steps, w);
    SegmentsFit(w.a, w.b);
    SegmentsFit(w.b, w.a);
    if g in w.a.s.sent {
      SinkIsPlace(w.b.s, g);
    }
    if g in w.b.s.sent {
      SinkIsPlace(w.a.s, g);
    }
  }

  lemma NothingAsked(c: Config, mem: Bytes, peer: Config)
    ensures AskedFits(c, peer, Start(c, mem).h) && Start(c, mem).c == c
  {
  }
}
